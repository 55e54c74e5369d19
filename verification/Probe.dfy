/** http2/probe.py and HTTPSConnection.connect: threads finding out, one per origin, whether it speaks HTTP/2. */
module Probe {
  import opened Bytes

  type Key = nat // an origin: host and port
  type Tid = nat

  /** threading.RLock: the owner may acquire it again. */
  datatype RLock = RLock(owner: Option<Tid>, depth: nat) {
    predicate FreeFor(t: Tid) {
      owner.None? || owner == Some(t)
    }

    function Acquired(t: Tid): RLock {
      RLock(Some(t), depth + 1)
    }

    function Released(): RLock {
      if depth <= 1 then RLock(None, 0) else RLock(owner, depth - 1)
    }
  }

  /** Where a thread is. `target` is what acquire_and_get returned, `found` what set_and_release is to store. */
  datatype Pc =
    | Idle
    | Entering(key: Key)                          // acquire_and_get, before `_lock`
    | Looking(key: Key)                           // holds `_lock`
    | Making(key: Key)                            // holds `_lock`, the key's lock is made
    | Leaving(key: Key, known: Option<bool>)      // holds `_lock`, about to leave its block
    | Acquiring(key: Key)                         // at key_lock.acquire()
    | Rereading(key: Key)
    | Connecting(key: Key, target: Option<bool>)
    | Setting(key: Key, found: Option<bool>)      // set_and_release, before `with key_lock`
    | Checking(key: Key, found: Option<bool>)     // inside `with key_lock`
    | Writing(key: Key, found: Option<bool>)
    | Releasing(key: Key)

  /** `answers` and `writes` record what acquire_and_get returned and which values were stored; `failed` records a
      KeyError or the ValueError of set_and_release. */
  datatype System = System(
    lock: Option<Tid>,
    locks: map<Key, RLock>,
    values: map<Key, Option<bool>>,
    threads: map<Tid, Pc>,
    answers: seq<(Key, Option<bool>)>,
    writes: seq<(Key, bool)>,
    failed: bool)
  {
    function At(t: Tid): Pc {
      if t in threads then threads[t] else Idle
    }

    predicate Knows(k: Key) {
      k in values && values[k].Some?
    }

    predicate Owns(t: Tid, k: Key) {
      k in locks && locks[k].owner == Some(t)
    }
  }

  /** What a thread does next: start connecting to an origin, go on, or see its connection attempt end. */
  datatype Step = Start(t: Tid, key: Key) | Go(t: Tid) | Connected(t: Tid, h2: bool) | Broken(t: Tid)

  const INIT := System(None, map[], map[], map[], [], [], false)

  predicate Enabled(s: System, step: Step) {
    match step
    case Start(t, _) => s.At(t).Idle?
    case Connected(t, _) => s.At(t).Connecting?
    case Broken(t) => s.At(t).Connecting?
    case Go(t) =>
      match s.At(t)
      case Idle => false
      case Connecting(_, _) => false
      case Entering(_) => s.lock.None?
      case Acquiring(k) => k in s.locks ==> s.locks[k].FreeFor(t)
      case Setting(k, _) => k in s.locks ==> s.locks[k].FreeFor(t)
      case _ => true
  }

  function Move(s: System, t: Tid, pc: Pc): System {
    s.(threads := s.threads[t := pc])
  }

  function Fail(s: System, t: Tid): System {
    Move(s, t, Idle).(failed := true)
  }

  function Next(s: System, step: Step): (n: System)
    ensures forall u :: u != step.t ==> n.At(u) == s.At(u)
    ensures n.writes == s.writes || (step.Go? && s.At(step.t).Writing?)
    ensures n.values == s.values || (step.Go? && (s.At(step.t).Making? || s.At(step.t).Writing?))
  {
    match step
    case Start(t, k) => Move(s, t, Entering(k))
    case Connected(t, h2) =>
      var pc := s.At(t);
      if !pc.Connecting? then s
      else Move(s, t, if pc.target.None? then Setting(pc.key, Some(h2)) else Idle)
    case Broken(t) =>
      var pc := s.At(t);
      if !pc.Connecting? then s
      else Move(s, t, if pc.target.None? then Setting(pc.key, None) else Idle)
    case Go(t) => Continue(s, t, s.At(t))
  }

  function Continue(s: System, t: Tid, pc: Pc): (n: System)
    ensures forall u :: u != t ==> n.At(u) == s.At(u)
    ensures pc.Writing? || n.writes == s.writes
    ensures pc.Making? || pc.Writing? || n.values == s.values
  {
    match pc
    case Idle => s
    case Connecting(_, _) => s
    case Entering(k) => Move(s, t, Looking(k)).(lock := Some(t))
    case Looking(k) =>
      if k in s.values then Move(s, t, Leaving(k, s.values[k]))
      else Move(s, t, Making(k)).(locks := s.locks[k := RLock(None, 0)])
    case Making(k) => Move(s, t, Leaving(k, None)).(values := s.values[k := None])
    case Leaving(k, known) =>
      if known.Some? then Move(s, t, Connecting(k, known)).(lock := None, answers := s.answers + [(k, known)])
      else Move(s, t, Acquiring(k)).(lock := None)
    case Acquiring(k) =>
      if k !in s.locks then Fail(s, t)
      else Move(s, t, Rereading(k)).(locks := s.locks[k := s.locks[k].Acquired(t)])
    case Rereading(k) =>
      if k !in s.values then Fail(s, t)
      else Move(s, t, Connecting(k, s.values[k])).(answers := s.answers + [(k, s.values[k])])
    case Setting(k, found) =>
      if k !in s.locks then Fail(s, t)
      else Move(s, t, Checking(k, found)).(locks := s.locks[k := s.locks[k].Acquired(t)])
    case Checking(k, found) =>
      if k !in s.locks || k !in s.values || (found.None? && s.values[k].Some?) then Fail(s, t)
      else Move(s, t, Writing(k, found)).(locks := s.locks[k := s.locks[k].Released()])
    case Writing(k, found) =>
      Move(s, t, Releasing(k)).(values := s.values[k := found],
                                writes := if found.Some? then s.writes + [(k, found.value)] else s.writes)
    case Releasing(k) =>
      if k !in s.locks then Fail(s, t)
      else Move(s, t, Idle).(locks := s.locks[k := s.locks[k].Released()])
  }

  // ---- the invariant -----------------------------------------------------------------------------

  /** The thread is finding out about its origin, or about to report. */
  predicate Probing(pc: Pc) {
    (pc.Connecting? && pc.target.None?) || pc.Setting? || pc.Checking? || pc.Writing?
  }

  /** The thread is between acquiring the key's lock and the call that gives it back. */
  predicate Inside(pc: Pc) {
    Probing(pc) || pc.Rereading? || pc.Releasing?
  }

  predicate HoldsGlobal(pc: Pc) {
    pc.Looking? || pc.Making? || pc.Leaving?
  }

  /** What holds of one thread wherever it is. */
  predicate ThreadOk(s: System, t: Tid) {
    var pc := s.At(t);
    && (HoldsGlobal(pc) ==> s.lock == Some(t))
    && (pc.Making? ==> pc.key in s.locks && pc.key !in s.values)
    && (pc.Leaving? ==> pc.key in s.values && (pc.known.Some? ==> s.values[pc.key] == pc.known))
    && ((pc.Leaving? && pc.known.None?) || pc.Acquiring? ==> pc.key in s.values && !s.Owns(t, pc.key))
    && (pc.Connecting? && pc.target.Some? ==> pc.key in s.values && s.values[pc.key] == pc.target)
    && (Inside(pc) ==> && pc.key in s.values && s.Owns(t, pc.key)
                       && s.locks[pc.key].depth == (if pc.Checking? then 2 else 1))
    && (Probing(pc) ==> !s.Knows(pc.key))
  }

  /** What holds of one origin. */
  predicate KeyOk(s: System, k: Key) {
    && (k in s.values ==> k in s.locks)
    && (k in s.locks ==> (s.locks[k].owner.Some? <==> s.locks[k].depth > 0))
    && (k in s.locks && s.locks[k].owner.Some? && !s.Knows(k) ==>
         Inside(s.At(s.locks[k].owner.value)) && s.At(s.locks[k].owner.value).key == k)
    && (k in s.locks && k !in s.values ==> s.lock.Some? && s.At(s.lock.value) == Making(k))
  }

  ghost predicate Recorded(s: System) {
    && (forall i :: 0 <= i < |s.answers| && s.answers[i].1.Some? ==>
         s.answers[i].0 in s.values && s.values[s.answers[i].0] == s.answers[i].1)
    && (forall i :: 0 <= i < |s.writes| ==>
         s.writes[i].0 in s.values && s.values[s.writes[i].0] == Some(s.writes[i].1))
    && (forall i, j :: 0 <= i < j < |s.writes| ==> s.writes[i].0 != s.writes[j].0)
    && (forall k :: s.Knows(k) ==> exists i :: 0 <= i < |s.writes| && s.writes[i].0 == k)
  }

  ghost predicate Inv(s: System) {
    && !s.failed
    && (forall t :: ThreadOk(s, t))
    && (forall k :: KeyOk(s, k))
    && Recorded(s)
  }

  lemma NeverFails(s: System, step: Step)
    requires Inv(s) && Enabled(s, step)
    ensures !Next(s, step).failed
  {
    assert ThreadOk(s, step.t);
    assert s.At(step.t) != Idle ==> KeyOk(s, s.At(step.t).key);
    hide Recorded;
  }

  lemma ThreadStaysOk(s: System, step: Step)
    requires Inv(s) && Enabled(s, step)
    ensures ThreadOk(Next(s, step), step.t)
  {
    assert ThreadOk(s, step.t);
    assert s.At(step.t) != Idle ==> KeyOk(s, s.At(step.t).key);
    hide Recorded, Inv;
  }

  lemma OthersStayOk(s: System, step: Step, u: Tid)
    requires Inv(s) && Enabled(s, step) && u != step.t
    ensures ThreadOk(Next(s, step), u)
  {
    assert ThreadOk(s, step.t) && ThreadOk(s, u);
    assert s.At(step.t) != Idle ==> KeyOk(s, s.At(step.t).key);
    hide Recorded, Inv;
  }

  lemma KeysStayOk(s: System, step: Step, k: Key)
    requires Inv(s) && Enabled(s, step)
    ensures KeyOk(Next(s, step), k)
  {
    assert ThreadOk(s, step.t) && KeyOk(s, k);
    assert s.At(step.t) != Idle ==> KeyOk(s, s.At(step.t).key);
    hide Recorded, Inv;
  }

  /** A known value stays. */
  lemma KnownStays(s: System, step: Step, k: Key)
    requires Inv(s) && Enabled(s, step) && s.Knows(k)
    ensures Next(s, step).Knows(k) && Next(s, step).values[k] == s.values[k]
  {
    assert ThreadOk(s, step.t);
    hide Recorded, Inv, KeyOk;
  }

  lemma WritesStay(s: System, step: Step)
    requires Inv(s) && Enabled(s, step)
    ensures var u := Next(s, step);
            && (forall i :: 0 <= i < |u.writes| ==>
                 u.writes[i].0 in u.values && u.values[u.writes[i].0] == Some(u.writes[i].1))
            && (forall i, j :: 0 <= i < j < |u.writes| ==> u.writes[i].0 != u.writes[j].0)
  {
    assert ThreadOk(s, step.t);
    hide KeyOk, Inv;
  }

  lemma MakingKnowsNoMore(s: System, t: Tid, k: Key)
    ensures s.At(t).Making? && Next(s, Go(t)).Knows(k) ==> s.Knows(k)
  {}

  lemma KnownIsWritten(s: System, step: Step, k: Key)
    requires Recorded(s) && Next(s, step).Knows(k)
    ensures exists i :: 0 <= i < |Next(s, step).writes| && Next(s, step).writes[i].0 == k
  {
    var u := Next(s, step);
    if step.Go? && s.At(step.t).Writing? {
      var pc := s.At(step.t);
      assert u.writes == if pc.found.Some? then s.writes + [(pc.key, pc.found.value)] else s.writes;
      assert u.values == s.values[pc.key := pc.found];
      hide Next;
      if k == pc.key {
        assert u.writes[|s.writes|].0 == k;
      } else {
        assert s.Knows(k);
        var i :| 0 <= i < |s.writes| && s.writes[i].0 == k;
        assert u.writes[i].0 == k;
      }
    } else {
      if step.Go? && s.At(step.t).Making? {
        MakingKnowsNoMore(s, step.t, k);
      }
      hide Next;
      assert s.Knows(k);
    }
  }

  lemma RecordsStay(s: System, step: Step)
    requires Inv(s) && Enabled(s, step)
    ensures Recorded(Next(s, step))
  {
    WritesStay(s, step);
    assert ThreadOk(s, step.t);
    forall k | Next(s, step).Knows(k)
      ensures exists i :: 0 <= i < |Next(s, step).writes| && Next(s, step).writes[i].0 == k
    {
      KnownIsWritten(s, step, k);
    }
    hide KeyOk, Inv;
  }

  lemma StepKeeps(s: System, step: Step)
    requires Inv(s) && Enabled(s, step)
    ensures Inv(Next(s, step))
  {
    var u := Next(s, step);
    NeverFails(s, step);
    RecordsStay(s, step);
    hide ThreadOk, KeyOk, Recorded, Next, Enabled;
    forall t
      ensures ThreadOk(u, t)
    {
      if t == step.t {
        ThreadStaysOk(s, step);
      } else {
        OthersStayOk(s, step, t);
      }
    }
    forall k
      ensures KeyOk(u, k)
    {
      KeysStayOk(s, step, k);
    }
  }

  // ---- every run ---------------------------------------------------------------------------------

  predicate Runs(s: System, steps: seq<Step>)
    decreases |steps|
  {
    steps != [] ==> Enabled(s, steps[0]) && Runs(Next(s, steps[0]), steps[1..])
  }

  function After(s: System, steps: seq<Step>): System
    requires Runs(s, steps)
    decreases |steps|
  {
    if steps == [] then s else After(Next(s, steps[0]), steps[1..])
  }

  /** However any number of threads take turns: nothing fails, known values stay, and the records agree with them. */
  lemma {:induction false} RunKeeps(s: System, steps: seq<Step>, k: Key)
    requires Inv(s) && Runs(s, steps)
    ensures Inv(After(s, steps))
    ensures s.Knows(k) ==> After(s, steps).Knows(k) && After(s, steps).values[k] == s.values[k]
    decreases |steps|
  {
    if steps == [] {
    } else {
      hide Inv, Enabled, Next;
      StepKeeps(s, steps[0]);
      if s.Knows(k) {
        KnownStays(s, steps[0], k);
      }
      RunKeeps(Next(s, steps[0]), steps[1..], k);
    }
  }

  lemma InitOk()
    ensures Inv(INIT)
  {}

  /** At most one thread probes an origin, in every reachable state. */
  lemma OneProber(steps: seq<Step>, t: Tid, u: Tid)
    requires Runs(INIT, steps)
    requires var s := After(INIT, steps);
             Probing(s.At(t)) && Probing(s.At(u)) && s.At(t).key == s.At(u).key
    ensures t == u
  {
    InitOk();
    RunKeeps(INIT, steps, 0);
    var s := After(INIT, steps);
    assert ThreadOk(s, t) && ThreadOk(s, u);
    hide After, Runs;
  }

  /** Each origin's value is stored once at most, and every answer that is not "find out" is that value. */
  lemma AnswersAgree(steps: seq<Step>)
    requires Runs(INIT, steps)
    ensures var s := After(INIT, steps);
            && !s.failed
            && (forall i, j :: 0 <= i < j < |s.writes| ==> s.writes[i].0 != s.writes[j].0)
            && (forall i, j | 0 <= i < |s.answers| && 0 <= j < |s.answers| && s.answers[i].0 == s.answers[j].0 ::
                 s.answers[i].1.Some? && s.answers[j].1.Some? ==> s.answers[i].1 == s.answers[j].1)
            && (forall i :: 0 <= i < |s.answers| && s.answers[i].1.Some? ==>
                 (s.answers[i].0, s.answers[i].1.value) in s.writes)
  {
    InitOk();
    RunKeeps(INIT, steps, 0);
    var s := After(INIT, steps);
    hide After, Runs, ThreadOk, KeyOk;
    forall i | 0 <= i < |s.answers| && s.answers[i].1.Some?
      ensures (s.answers[i].0, s.answers[i].1.value) in s.writes
    {
      assert s.Knows(s.answers[i].0);
      var j :| 0 <= j < |s.writes| && s.writes[j].0 == s.answers[i].0;
      assert s.writes[j] == (s.answers[i].0, s.answers[i].1.value);
    }
  }

  // ---- who may wait forever ----------------------------------------------------------------------

  /** The lock of `k` is with another thread, which has seen the value and is past giving the lock back. */
  predicate Kept(s: System, u: Tid, k: Key) {
    && k in s.locks && s.locks[k].owner.Some? && s.locks[k].owner != Some(u)
    && s.Knows(k) && s.At(s.locks[k].owner.value) != Releasing(k)
  }

  lemma KeptStays(s: System, step: Step, u: Tid, k: Key)
    requires Inv(s) && Enabled(s, step) && s.At(u) == Acquiring(k) && Kept(s, u, k)
    ensures Next(s, step).At(u) == Acquiring(k) && Kept(Next(s, step), u, k)
  {
    assert ThreadOk(s, step.t) && KeyOk(s, k) && ThreadOk(s, u);
    assert s.At(step.t) != Idle ==> KeyOk(s, s.At(step.t).key);
    hide Recorded, Inv;
  }

  lemma {:induction false} KeptWaits(s: System, steps: seq<Step>, u: Tid, k: Key)
    requires Inv(s) && Runs(s, steps) && s.At(u) == Acquiring(k) && Kept(s, u, k)
    ensures After(s, steps).At(u) == Acquiring(k)
    decreases |steps|
  {
    if steps == [] {
    } else {
      hide Inv, Enabled, Next, Kept;
      StepKeeps(s, steps[0]);
      KeptStays(s, steps[0], u, k);
      KeptWaits(Next(s, steps[0]), steps[1..], u, k);
    }
  }

  lemma RunCons(s: System, step: Step, rest: seq<Step>)
    requires Enabled(s, step) && Runs(Next(s, step), rest)
    ensures Runs(s, [step] + rest) && After(s, [step] + rest) == After(Next(s, step), rest)
  {
    assert ([step] + rest)[1..] == rest;
    hide Enabled, Next;
  }

  /** How far the owner of a lock is from giving it back. */
  function Distance(pc: Pc): nat {
    match pc
    case Rereading(_) => 6
    case Connecting(_, _) => 5
    case Setting(_, _) => 4
    case Checking(_, _) => 3
    case Writing(_, _) => 2
    case Releasing(_) => 1
    case _ => 0
  }

  /** The owner's next step on its shortest way out. */
  lemma OwnerMoves(s: System, u: Tid, k: Key) returns (step: Step)
    requires Inv(s) && s.At(u) == Acquiring(k) && !Kept(s, u, k) && k in s.locks && s.locks[k].owner.Some?
    ensures Enabled(s, step)
    ensures var n, owner := Next(s, step), s.locks[k].owner.value;
            && n.At(u) == Acquiring(k) && !Kept(n, u, k) && k in n.locks
            && (n.locks[k].owner.Some? ==>
                  n.locks[k].owner.value == owner && Distance(n.At(owner)) < Distance(s.At(owner)))
  {
    var t := s.locks[k].owner.value;
    assert ThreadOk(s, t) && KeyOk(s, k) && ThreadOk(s, u);
    hide Recorded, Inv;
    assert Inside(s.At(t)) && s.At(t).key == k;
    step := if s.At(t).Connecting? then Broken(t) else Go(t);
  }

  /** A waiter whose lock is not kept can still get it. */
  lemma {:induction false} CanEnter(s: System, u: Tid, k: Key) returns (steps: seq<Step>)
    requires Inv(s) && s.At(u) == Acquiring(k) && !Kept(s, u, k)
    ensures Runs(s, steps) && After(s, steps).At(u) == Rereading(k)
    decreases if k in s.locks && s.locks[k].owner.Some? then Distance(s.At(s.locks[k].owner.value)) + 1 else 0
  {
    assert KeyOk(s, k) && ThreadOk(s, u);
    if s.locks[k].owner.None? {
      steps := [Go(u)];
      assert steps[1..] == [];
    } else {
      var step := OwnerMoves(s, u, k);
      StepKeeps(s, step);
      hide Inv, Enabled, Next, Kept, ThreadOk, KeyOk;
      var rest := CanEnter(Next(s, step), u, k);
      RunCons(s, step, rest);
      steps := [step] + rest;
    }
  }

  /** A thread waiting for an origin's lock waits in every future exactly when the lock is kept: after the value became
      known, the next waiter takes the lock and does not give it back. */
  lemma WaitsForever(s: System, u: Tid, k: Key)
    requires Inv(s) && s.At(u) == Acquiring(k)
    ensures Kept(s, u, k) <==> forall steps :: Runs(s, steps) ==> After(s, steps).At(u) == Acquiring(k)
  {
    hide Inv, Kept, Runs, After;
    if Kept(s, u, k) {
      forall steps | Runs(s, steps)
        ensures After(s, steps).At(u) == Acquiring(k)
      {
        KeptWaits(s, steps, u, k);
      }
    } else {
      var steps := CanEnter(s, u, k);
      assert After(s, steps).At(u) != Acquiring(k);
    }
  }

  lemma TakesOver(s: System, step: Step, u: Tid, v: Tid, k: Key)
    requires Inv(s) && Enabled(s, step) && s.Knows(k) && u != v && s.At(u) == Acquiring(k) && s.At(v) == Acquiring(k)
    ensures Next(s, step).Knows(k)
    ensures Next(s, step).At(u) != Acquiring(k) ==> Next(s, step).At(v) == Acquiring(k) && Kept(Next(s, step), v, k)
  {
    assert ThreadOk(s, u) && KeyOk(s, k);
    KnownStays(s, step, k);
    hide Recorded, Inv;
  }

  lemma {:induction false} OneOfTwoWaits(s: System, steps: seq<Step>, u: Tid, v: Tid, k: Key)
    requires Inv(s) && Runs(s, steps) && s.Knows(k) && u != v && s.At(u) == Acquiring(k) && s.At(v) == Acquiring(k)
    ensures After(s, steps).At(u) == Acquiring(k) || After(s, steps).At(v) == Acquiring(k)
    decreases |steps|
  {
    if steps == [] {
    } else {
      hide Inv, Enabled, Next, Kept;
      var n := Next(s, steps[0]);
      StepKeeps(s, steps[0]);
      TakesOver(s, steps[0], u, v, k);
      TakesOver(s, steps[0], v, u, k);
      if n.At(u) != Acquiring(k) {
        KeptWaits(n, steps[1..], v, k);
      } else if n.At(v) != Acquiring(k) {
        KeptWaits(n, steps[1..], u, k);
      } else {
        OneOfTwoWaits(n, steps[1..], u, v, k);
      }
    }
  }

  /** The threads that waited for an origin's lock in `s` and no longer do in `n`. */
  function LetThrough(s: System, n: System, k: Key): set<Tid> {
    set t | t in s.threads && s.threads[t] == Acquiring(k) && n.At(t) != Acquiring(k)
  }

  /** Once the value is known, of all the threads waiting then at most one is ever let through. */
  lemma AtMostOneMore(s: System, steps: seq<Step>, k: Key)
    requires Inv(s) && Runs(s, steps) && s.Knows(k)
    ensures |LetThrough(s, After(s, steps), k)| <= 1
  {
    hide Inv, Runs, After;
    var through := LetThrough(s, After(s, steps), k);
    if through != {} {
      var u :| u in through;
      forall v | v in through
        ensures v == u
      {
        if v != u {
          OneOfTwoWaits(s, steps, u, v, k);
        }
      }
      assert through == {u};
    }
  }

  lemma {:induction false} RunAppend(s: System, steps: seq<Step>, more: seq<Step>)
    requires Runs(s, steps) && Runs(After(s, steps), more)
    ensures Runs(s, steps + more) && After(s, steps + more) == After(After(s, steps), more)
    decreases |steps|
  {
    hide Enabled, Next;
    if steps == [] {
      assert steps + more == more;
    } else {
      RunAppend(Next(s, steps[0]), steps[1..], more);
      assert (steps + more)[1..] == steps[1..] + more;
    }
  }

  lemma RunThree(s: System, a: Step, b: Step, c: Step)
    requires Enabled(s, a) && Enabled(Next(s, a), b) && Enabled(Next(Next(s, a), b), c)
    ensures Runs(s, [a, b, c]) && After(s, [a, b, c]) == Next(Next(Next(s, a), b), c)
  {
    hide Enabled, Next;
    assert Runs(Next(Next(Next(s, a), b), c), []);
    RunCons(Next(Next(s, a), b), c, []);
    RunCons(Next(s, a), b, [c] + []);
    RunCons(s, a, [b] + ([c] + []));
    assert [a] + ([b] + ([c] + [])) == [a, b, c];
  }

  /** A run of one thread's steps leaves every other thread where it is. */
  lemma {:induction false} OthersWait(s: System, t: Tid, steps: seq<Step>, u: Tid)
    requires Runs(s, steps) && u != t && forall step :: step in steps ==> step.t == t
    ensures After(s, steps).At(u) == s.At(u)
    decreases |steps|
  {
    if steps == [] {
    } else {
      assert steps[0].t == t;
      hide Enabled, Next;
      OthersWait(Next(s, steps[0]), t, steps[1..], u);
    }
  }

  lemma RunOne(s: System, step: Step)
    requires Enabled(s, step)
    ensures Runs(s, [step]) && After(s, [step]) == Next(s, step)
  {
    hide Enabled, Next;
    assert [step][1..] == [];
  }

  /** The states on the way to one thread probing origin 7 and two waiting for it. */
  const MADE := System(Some(0), map[7 := RLock(None, 0)], map[], map[0 := Making(7)], [], [], false)
  const OWNED := System(None, map[7 := RLock(Some(0), 1)], map[7 := None], map[0 := Rereading(7)], [], [], false)
  const PROBED := OWNED.(threads := map[0 := Connecting(7, None), 1 := Entering(7), 2 := Entering(7)],
                         answers := [(7, None)])
  const ONE_WAITS := PROBED.(threads := map[0 := Connecting(7, None), 1 := Acquiring(7), 2 := Entering(7)])
  const TWO_WAIT := PROBED.(threads := map[0 := Connecting(7, None), 1 := Acquiring(7), 2 := Acquiring(7)])

  lemma Making7()
    ensures Runs(INIT, [Start(0, 7), Go(0), Go(0)]) && After(INIT, [Start(0, 7), Go(0), Go(0)]) == MADE
  {
    RunThree(INIT, Start(0, 7), Go(0), Go(0));
  }

  lemma Owning7()
    ensures Runs(MADE, [Go(0), Go(0), Go(0)]) && After(MADE, [Go(0), Go(0), Go(0)]) == OWNED
  {
    RunThree(MADE, Go(0), Go(0), Go(0));
  }

  lemma Probing7()
    ensures Runs(OWNED, [Go(0), Start(1, 7), Start(2, 7)]) && After(OWNED, [Go(0), Start(1, 7), Start(2, 7)]) == PROBED
  {
    RunThree(OWNED, Go(0), Start(1, 7), Start(2, 7));
  }

  lemma Waiting7()
    ensures Runs(PROBED, [Go(1), Go(1), Go(1)]) && After(PROBED, [Go(1), Go(1), Go(1)]) == ONE_WAITS
    ensures Runs(ONE_WAITS, [Go(2), Go(2), Go(2)]) && After(ONE_WAITS, [Go(2), Go(2), Go(2)]) == TWO_WAIT
  {
    RunThree(PROBED, Go(1), Go(1), Go(1));
    RunThree(ONE_WAITS, Go(2), Go(2), Go(2));
  }

  /** Such a state can be reached. */
  lemma TwoCanWait() returns (steps: seq<Step>)
    ensures Runs(INIT, steps)
    ensures var s := After(INIT, steps);
            s.At(0) == Connecting(7, None) && s.At(1) == Acquiring(7) && s.At(2) == Acquiring(7)
  {
    Making7();
    Owning7();
    Probing7();
    Waiting7();
    hide Enabled, Next, Runs, After;
    RunAppend(PROBED, [Go(1), Go(1), Go(1)], [Go(2), Go(2), Go(2)]);
    steps := [Go(1), Go(1), Go(1)] + [Go(2), Go(2), Go(2)];
    RunAppend(OWNED, [Go(0), Start(1, 7), Start(2, 7)], steps);
    steps := [Go(0), Start(1, 7), Start(2, 7)] + steps;
    RunAppend(MADE, [Go(0), Go(0), Go(0)], steps);
    steps := [Go(0), Go(0), Go(0)] + steps;
    RunAppend(INIT, [Start(0, 7), Go(0), Go(0)], steps);
    steps := [Start(0, 7), Go(0), Go(0)] + steps;
    assert After(INIT, steps) == TWO_WAIT;
  }

  // ---- the object, one thread at a time ----------------------------------------------------------

  lemma RunSnoc(s: System, steps: seq<Step>, step: Step)
    requires Runs(s, steps) && Enabled(After(s, steps), step)
    ensures Runs(s, steps + [step]) && After(s, steps + [step]) == Next(After(s, steps), step)
  {
    hide Enabled, Next;
    assert [step][1..] == [];
    assert Runs(After(s, steps), [step]);
    RunAppend(s, steps, [step]);
  }

  lemma GoConnected(s: System, t: Tid, key: Key, h2: bool)
    requires s.At(t) == Connecting(key, None)
    ensures Enabled(s, Connected(t, h2)) && Next(s, Connected(t, h2)).At(t) == Setting(key, Some(h2))
  {}

  /** The steps of set_and_release, one by one. */
  lemma GoReports(s: System, t: Tid, key: Key, found: Option<bool>)
    ensures s.At(t) == Setting(key, found) && key in s.locks && s.locks[key] == RLock(Some(t), 1) ==>
              && Enabled(s, Go(t))
              && Next(s, Go(t)) == Move(s, t, Checking(key, found)).(locks := s.locks[key := RLock(Some(t), 2)])
    ensures s.At(t) == Checking(key, found) && key in s.locks && s.locks[key] == RLock(Some(t), 2)
            && key in s.values && s.values[key].None? ==>
              && Enabled(s, Go(t))
              && Next(s, Go(t)) == Move(s, t, Writing(key, found)).(locks := s.locks[key := RLock(Some(t), 1)])
    ensures s.At(t) == Writing(key, found) ==>
              && Enabled(s, Go(t)) && Next(s, Go(t)).At(t) == Releasing(key) && Next(s, Go(t)).locks == s.locks
              && Next(s, Go(t)).values == s.values[key := found]
    ensures s.At(t) == Releasing(key) && key in s.locks && s.locks[key].depth == 1 ==>
              && Enabled(s, Go(t))
              && Next(s, Go(t)) == Move(s, t, Idle).(locks := s.locks[key := RLock(None, 0)])
  {}

  lemma ProberHolds(s: System, t: Tid, key: Key, found: Option<bool>)
    requires Inv(s) && s.At(t) == Setting(key, found)
    ensures key in s.locks && s.locks[key] == RLock(Some(t), 1) && key in s.values && s.values[key].None?
  {
    assert ThreadOk(s, t) && KeyOk(s, key);
  }

  lemma RunNone(s: System)
    ensures Runs(s, []) && After(s, []) == s
  {}

  lemma SettingRuns(s: System, t: Tid, key: Key, found: Option<bool>)
    requires Inv(s) && s.At(t) == Setting(key, found)
    ensures key in s.locks && s.locks[key] == RLock(Some(t), 1) && key in s.values && s.values[key].None?
    ensures Runs(s, [Go(t), Go(t), Go(t), Go(t)])
    ensures var u := After(s, [Go(t), Go(t), Go(t), Go(t)]);
            && u.At(t) == Idle && u.values == s.values[key := found] && u.locks == s.locks[key := RLock(None, 0)]
  {
    hide Runs, After, Inv, Enabled, Next;
    ProberHolds(s, t, key, found);
    GoReports(s, t, key, found);
    var a := Next(s, Go(t));
    GoReports(a, t, key, found);
    var b := Next(a, Go(t));
    GoReports(b, t, key, found);
    var c := Next(b, Go(t));
    GoReports(c, t, key, found);
    RunNone(Next(c, Go(t)));
    RunThree(s, Go(t), Go(t), Go(t));
    RunSnoc(s, [Go(t), Go(t), Go(t)], Go(t));
    assert [Go(t), Go(t), Go(t)] + [Go(t)] == [Go(t), Go(t), Go(t), Go(t)];
  }

  /** The steps of acquire_and_get under `_lock`, one by one. */
  lemma GoLooks(s: System, t: Tid, key: Key, known: Option<bool>)
    ensures s.At(t) == Entering(key) && s.lock.None? ==>
              && Enabled(s, Go(t)) && Enabled(Next(s, Go(t)), Go(t))
              && Next(s, Go(t)) == Move(s, t, Looking(key)).(lock := Some(t))
    ensures s.At(t) == Looking(key) ==>
              && Enabled(s, Go(t)) && Enabled(Next(s, Go(t)), Go(t))
              && Next(s, Go(t)) == (if key in s.values then Move(s, t, Leaving(key, s.values[key]))
                                    else Move(s, t, Making(key)).(locks := s.locks[key := RLock(None, 0)]))
    ensures s.At(t) == Making(key) ==>
              && Enabled(Next(s, Go(t)), Go(t))
              && Next(s, Go(t)) == Move(s, t, Leaving(key, None)).(values := s.values[key := None])
    ensures s.At(t) == Leaving(key, known) ==>
              && Next(s, Go(t)).locks == s.locks && Next(s, Go(t)).values == s.values
              && Next(s, Go(t)).At(t) == if known.Some? then Connecting(key, known) else Acquiring(key)
  {}

  lemma GoAcquiring(s: System, t: Tid, key: Key)
    requires s.At(t) == Acquiring(key) && key in s.locks && s.locks[key].FreeFor(t) && key in s.values
    ensures Enabled(s, Go(t)) && Enabled(Next(s, Go(t)), Go(t))
    ensures Next(s, Go(t)) == Move(s, t, Rereading(key)).(locks := s.locks[key := s.locks[key].Acquired(t)])
    ensures var u := Next(Next(s, Go(t)), Go(t));
            u.At(t) == Connecting(key, s.values[key]) && u.locks == Next(s, Go(t)).locks && u.values == s.values
  {}

  /** A successful probe lets one of two waiters through; the other one then waits forever. */
  lemma SuccessStrands(s: System, t: Tid, u: Tid, v: Tid, k: Key, h2: bool) returns (steps: seq<Step>)
    requires Inv(s) && s.At(t) == Connecting(k, None) && u != v && s.At(u) == Acquiring(k) && s.At(v) == Acquiring(k)
    ensures Runs(s, steps) && Inv(After(s, steps)) && After(s, steps).At(v) == Acquiring(k)
            && Kept(After(s, steps), v, k)
  {
    GoConnected(s, t, k, h2);
    StepKeeps(s, Connected(t, h2));
    var m := Next(s, Connected(t, h2));
    hide Inv, Enabled, Next, Runs, After;
    SettingRuns(m, t, k, Some(h2));
    var go := [Go(t), Go(t), Go(t), Go(t)];
    OthersWait(m, t, go, u);
    OthersWait(m, t, go, v);
    GoAcquiring(After(m, go), u, k);
    RunSnoc(m, go, Go(u));
    RunCons(s, Connected(t, h2), go + [Go(u)]);
    steps := [Connected(t, h2)] + (go + [Go(u)]);
    RunKeeps(s, steps, k);
    OthersWait(After(m, go), u, [Go(u)], v);
    RunOne(After(m, go), Go(u));
  }

  datatype Got = Value(value: Option<bool>) | Blocks

  class HTTP2ProbeCache {
    var cacheLocks: map<Key, RLock>
    var cacheValues: map<Key, Option<bool>>

    constructor ()
      ensures cacheLocks == INIT.locks && cacheValues == INIT.values
    {
      cacheLocks, cacheValues := map[], map[];
    }

    /** `acquire_and_get` of thread `t` without interruption, up to where it has to wait for another one. */
    method AcquireAndGet(t: Tid, key: Key, ghost s: System) returns (r: Got, ghost steps: seq<Step>)
      requires Inv(s) && s.lock.None? && s.At(t) == Entering(key) && s.locks == cacheLocks && s.values == cacheValues
      modifies this
      ensures Runs(s, steps) && After(s, steps).locks == cacheLocks && After(s, steps).values == cacheValues
      ensures r.Value? ==> After(s, steps).At(t) == Connecting(key, r.value)
      ensures r.Blocks? ==> After(s, steps).At(t) == Acquiring(key) && key in cacheLocks && !cacheLocks[key].FreeFor(t)
    {
      assert KeyOk(s, key);
      hide Runs, After, Inv, Enabled, Next;
      GoLooks(s, t, key, None);
      ghost var a := Next(s, Go(t));
      GoLooks(a, t, key, None);
      ghost var b := Next(a, Go(t));
      RunThree(s, Go(t), Go(t), Go(t));
      steps := [Go(t), Go(t), Go(t)];
      if key in cacheValues {
        GoLooks(b, t, key, cacheValues[key]);
        if cacheValues[key].Some? {
          return Value(cacheValues[key]), steps;
        }
      } else {
        cacheLocks := cacheLocks[key := RLock(None, 0)];
        cacheValues := cacheValues[key := None];
        GoLooks(b, t, key, None);
        GoLooks(Next(b, Go(t)), t, key, None);
        RunSnoc(s, steps, Go(t));
        steps := steps + [Go(t)];
      }
      if !cacheLocks[key].FreeFor(t) {
        return Blocks, steps;
      }
      cacheLocks := cacheLocks[key := cacheLocks[key].Acquired(t)];
      GoAcquiring(After(s, steps), t, key);
      RunSnoc(s, steps, Go(t));
      RunSnoc(s, steps + [Go(t)], Go(t));
      steps := steps + [Go(t)] + [Go(t)];
      r := Value(cacheValues[key]);
    }

    /** `set_and_release` of the thread that probes; `raised` is its ValueError. */
    method SetAndRelease(t: Tid, key: Key, found: Option<bool>, ghost s: System)
        returns (raised: bool, ghost steps: seq<Step>)
      requires Inv(s) && s.At(t) == Setting(key, found) && s.locks == cacheLocks && s.values == cacheValues
      modifies this
      ensures Runs(s, steps) && After(s, steps).locks == cacheLocks && After(s, steps).values == cacheValues
      ensures !raised && After(s, steps).At(t) == Idle
      ensures cacheValues == old(cacheValues)[key := found] && cacheLocks == old(cacheLocks)[key := RLock(None, 0)]
    {
      SettingRuns(s, t, key, found);
      hide Runs, After, Inv;
      steps := [Go(t), Go(t), Go(t), Go(t)];
      cacheLocks := cacheLocks[key := cacheLocks[key].Acquired(t)];
      raised := found.None? && cacheValues[key].Some?;
      cacheLocks := cacheLocks[key := cacheLocks[key].Released()];
      if raised {
        return;
      }
      cacheValues := cacheValues[key := found];
      cacheLocks := cacheLocks[key := cacheLocks[key].Released()];
    }
  }
}
