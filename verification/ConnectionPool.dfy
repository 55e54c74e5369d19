/** connectionpool.py: connection slots, with any number of requests taking turns. */
module ConnectionPool {
  import opened Bytes

  type Conn = nat // identity of a connection object

  /** The pool's shared state. `queue` is None once the pool is closed; a queued None is a slot without a connection.
      `closed` are the connections whose socket has been closed since they were last handed out. */
  datatype Pool = Pool(queue: Option<seq<Option<Conn>>>, maxsize: nat, block: bool, created: nat, closed: set<Conn>) {
    /** queue.LifoQueue: a maximum size of zero means unlimited. */
    predicate Full() {
      queue.Some? && maxsize > 0 && |queue.value| >= maxsize
    }
  }

  datatype GetResult = Taken(conn: Conn, pool: Pool) | EmptyPool | ClosedPool

  function NewConn(p: Pool): GetResult {
    Taken(p.created, p.(created := p.created + 1))
  }

  /** `_get_conn`: the slot put back last, with its connection or a new one; without slots an error or, when the pool
      does not block, a new connection. */
  function Get(p: Pool): GetResult {
    if p.queue.None? then ClosedPool
    else if p.queue.value == [] then (if p.block then EmptyPool else NewConn(p))
    else
      var q := p.queue.value;
      var rest := TakeSlot(p);
      match q[|q| - 1]
      case None => NewConn(rest)
      case Some(c) => Taken(c, rest.(closed := rest.closed - {c}))
  }

  /** `_get_conn` has to make a connection: the slot it takes is an empty one, or it takes none. */
  predicate MakesConn(p: Pool) {
    p.queue.Some? && (if p.queue.value == [] then !p.block else p.queue.value[|p.queue.value| - 1].None?)
  }

  function TakeSlot(p: Pool): Pool {
    if p.queue.None? || p.queue.value == [] then p
    else
      var q := p.queue.value;
      p.(queue := Some(q[..|q| - 1]))
  }

  function CloseConn(p: Pool, conn: Option<Conn>): Pool {
    if conn.None? then p else p.(closed := p.closed + {conn.value})
  }

  datatype PutResult = Done(pool: Pool) | FullPool(pool: Pool)

  /** `_put_conn`: back on top of the queue; a connection that finds no room, or no pool, is closed. */
  function Put(p: Pool, conn: Option<Conn>): PutResult {
    if p.queue.None? then Done(CloseConn(p, conn))
    else if !p.Full() then Done(p.(queue := Some(p.queue.value + [conn])))
    else if p.block then FullPool(CloseConn(p, conn))
    else Done(CloseConn(p, conn))
  }

  function Queued(q: seq<Option<Conn>>): set<Conn> {
    set i | 0 <= i < |q| && q[i].Some? :: q[i].value
  }

  function Close(p: Pool): Pool {
    if p.queue.None? then p else p.(queue := None, closed := p.closed + Queued(p.queue.value))
  }

  // ---- requests taking turns -------------------------------------------------------------------

  type Cleanup = pc: Pc | pc.Finally? witness Pc.Finally(None, true, false, false)

  /** Where one thread is in `urlopen`; `Finally` carries the local variables its cleanup looks at. */
  datatype Pc =
    | Outside
    | Getting
    | Requesting(conn: Conn)
    | Finally(local: Option<Conn>, cleanExit: bool, releaseThis: bool, retry: bool)

  datatype Thread = Thread(pc: Pc, releaseConn: bool) {
    /** The thread has taken a slot out of the queue and has not passed it on. */
    predicate HoldsSlot() {
      pc.Requesting? || (pc.Finally? && (!pc.cleanExit || pc.releaseThis))
    }

    function Owned(): Option<Conn> {
      if pc.Requesting? then Some(pc.conn)
      else if pc.Finally? && HoldsSlot() then pc.local
      else None
    }
  }

  type Tid = nat
  type Rid = nat

  /** `responses` maps each response that still holds its connection to it; `overflowed` records a FullPoolError. */
  datatype System = System(pool: Pool, threads: map<Tid, Thread>, responses: map<Rid, Conn>, overflowed: bool)

  datatype Step =
    | Call(t: Tid, releaseConn: bool)        // urlopen is entered
    | GetConn(t: Tid)                        // _get_conn returns or raises
    | NewConnFails(t: Tid, retry: bool)      // a slot was taken but no connection could be made for it
    | Succeed(t: Tid, r: Rid)                // _make_request returns a response
    | Fail(t: Tid, retry: bool)              // _make_request raises; the error is retried or re-raised
    | Discard(t: Tid)                        // finally: close the connection after an unclean exit
    | Leave(t: Tid)                          // finally: put the slot back if it is ours; then retry or leave
    | CloseResponse(r: Rid)                  // the response closes its connection
    | Release(r: Rid)                        // the response gives its connection back
    | ClosePool

  function At(s: System, t: Tid, pc: Pc): System
    requires t in s.threads
  {
    s.(threads := s.threads[t := s.threads[t].(pc := pc)])
  }

  function AfterPut(s: System, put: PutResult): System {
    s.(pool := put.pool, overflowed := s.overflowed || put.FullPool?)
  }

  predicate Enabled(s: System, step: Step) {
    match step
    case Call(t, _) => t !in s.threads || s.threads[t].pc.Outside?
    case GetConn(t) => t in s.threads && s.threads[t].pc.Getting?
    case NewConnFails(t, _) => t in s.threads && s.threads[t].pc.Getting? && MakesConn(s.pool)
    case Succeed(t, r) => t in s.threads && s.threads[t].pc.Requesting? && r !in s.responses
    case Fail(t, _) => t in s.threads && s.threads[t].pc.Requesting?
    case Discard(t) => t in s.threads && s.threads[t].pc.Finally? && !s.threads[t].pc.cleanExit
        && !s.threads[t].pc.releaseThis
    case Leave(t) => t in s.threads && s.threads[t].pc.Finally?
        && (s.threads[t].pc.cleanExit || s.threads[t].pc.releaseThis)
    case CloseResponse(r) => r in s.responses
    case Release(r) => r in s.responses
    case ClosePool => true
  }

  function Next(s: System, step: Step): System
    requires Enabled(s, step)
  {
    match step
    case Call(t, release) => s.(threads := s.threads[t := Thread(Getting, release)])
    case GetConn(t) =>
      (match Get(s.pool)
       case Taken(c, p) => At(s, t, Requesting(c)).(pool := p)
       case EmptyPool => At(s, t, Finally(None, true, false, false))
       case ClosedPool => At(s, t, Finally(None, false, false, false)))
    case NewConnFails(t, retry) =>
      At(s, t, Finally(None, false, false, retry)).(pool := TakeSlot(s.pool))
    case Succeed(t, r) =>
      var c := s.threads[t].pc.conn;
      var release := s.threads[t].releaseConn;
      var s1 := At(s, t, Finally(Some(c), true, release, false));
      if release then s1 else s1.(responses := s.responses[r := c])
    case Fail(t, retry) => At(s, t, Finally(Some(s.threads[t].pc.conn), false, false, retry))
    case Discard(t) =>
      var pc := s.threads[t].pc;
      At(s, t, pc.(local := None, releaseThis := true)).(pool := CloseConn(s.pool, pc.local))
    case Leave(t) =>
      var pc := s.threads[t].pc;
      var s1 := if pc.releaseThis then AfterPut(s, Put(s.pool, pc.local)) else s;
      At(s1, t, if pc.retry && !(pc.releaseThis && Put(s.pool, pc.local).FullPool?) then Getting else Outside)
    case CloseResponse(r) => s.(pool := CloseConn(s.pool, Some(s.responses[r])))
    case Release(r) =>
      var put := Put(s.pool, Some(s.responses[r]));
      if put.FullPool? then AfterPut(s, put) else AfterPut(s, put).(responses := s.responses - {r})
    case ClosePool => s.(pool := Close(s.pool))
  }

  function SlotHolders(s: System): set<Tid> {
    set t | t in s.threads && s.threads[t].HoldsSlot()
  }

  /** The three places a connection can be owned in. */
  datatype Place = InQueue(i: nat) | InThread(t: Tid) | InResponse(r: Rid)

  function Owner(s: System, p: Place): Option<Conn> {
    match p
    case InQueue(i) => if s.pool.queue.Some? && i < |s.pool.queue.value| then s.pool.queue.value[i] else None
    case InThread(t) => if t in s.threads then s.threads[t].Owned() else None
    case InResponse(r) => if r in s.responses then Some(s.responses[r]) else None
  }

  /** No connection is owned twice. */
  ghost predicate OwnedOnce(s: System) {
    forall p, q :: p != q && Owner(s, p).Some? ==> Owner(s, p) != Owner(s, q)
  }

  ghost predicate IsOwned(s: System, c: Conn) {
    exists p :: Owner(s, p) == Some(c)
  }

  /** Every connection ever made is owned somewhere or has been closed. */
  ghost predicate NoneLost(s: System) {
    && (forall p :: Owner(s, p).Some? ==> Owner(s, p).value < s.pool.created)
    && (forall c: Conn :: c < s.pool.created ==> c in s.pool.closed || IsOwned(s, c))
  }

  /** The slots of an open blocking pool: idle, held by requests, held by responses. */
  ghost predicate SlotsConserved(s: System) {
    s.pool.block && s.pool.queue.Some? ==>
      |s.pool.queue.value| + |SlotHolders(s)| + |s.responses| == s.pool.maxsize
  }

  // ---- ownership -------------------------------------------------------------------------------

  /** From `s` to `u` at most the owners at `from` and `to` differ. */
  ghost predicate OthersKeep(s: System, u: System, from: Place, to: Place) {
    forall p :: p != from && p != to ==> Owner(u, p) == Owner(s, p)
  }

  /** A connection goes from one place to an empty one, is closed on the way, or is made there. */
  ghost predicate HandsOver(s: System, u: System, from: Place, to: Place) {
    && from != to && OthersKeep(s, u, from, to)
    && Owner(s, to) == None && Owner(u, from) == None
    && (|| (Owner(u, to) == Owner(s, from) && u.pool.created == s.pool.created
            && forall c :: c in s.pool.closed && Some(c) != Owner(s, from) ==> c in u.pool.closed)
        || (Owner(u, to) == None && u.pool.created == s.pool.created && s.pool.closed <= u.pool.closed
            && (Owner(s, from).Some? ==> Owner(s, from).value in u.pool.closed))
        || (Owner(s, from) == None && Owner(u, to) == Some(s.pool.created)
            && u.pool.created == s.pool.created + 1 && s.pool.closed <= u.pool.closed))
  }

  lemma HandoverKeeps(s: System, u: System, from: Place, to: Place)
    requires OwnedOnce(s) && NoneLost(s) && HandsOver(s, u, from, to)
    ensures OwnedOnce(u) && NoneLost(u)
  {
    hide Owner;
    forall c: Conn | c < u.pool.created && c !in u.pool.closed
      ensures IsOwned(u, c)
    {
      if c == s.pool.created {
        assert Owner(u, to) == Some(c);
      } else {
        var p :| Owner(s, p) == Some(c);
        if p == from {
          assert Owner(u, to) == Some(c);
        } else {
          assert Owner(u, p) == Some(c);
        }
      }
    }
  }

  lemma ClosePoolKeeps(s: System)
    requires OwnedOnce(s) && NoneLost(s)
    ensures OwnedOnce(Next(s, ClosePool)) && NoneLost(Next(s, ClosePool))
  {
    var u := Next(s, ClosePool);
    forall p
      ensures Owner(u, p) == Owner(s, p) || Owner(u, p) == None
    {}
    forall c: Conn | c < u.pool.created && c !in u.pool.closed
      ensures IsOwned(u, c)
    {
      var p :| Owner(s, p) == Some(c);
      assert p.InQueue? ==> c in Queued(s.pool.queue.value);
      assert Owner(u, p) == Some(c);
    }
  }

  lemma GetKeepsOwners(s: System, t: Tid)
    requires OwnedOnce(s) && NoneLost(s) && Enabled(s, GetConn(t))
    ensures OwnedOnce(Next(s, GetConn(t))) && NoneLost(Next(s, GetConn(t)))
  {
    var u := Next(s, GetConn(t));
    var top := if s.pool.queue.Some? then |s.pool.queue.value| else 0;
    var from := InQueue(if top > 0 then top - 1 else 0);
    assert HandsOver(s, u, from, InThread(t));
    HandoverKeeps(s, u, from, InThread(t));
  }

  /** A step of thread `t` that neither takes nor gives a connection. */
  lemma StandStillKeeps(s: System, u: System)
    requires OwnedOnce(s) && NoneLost(s)
    requires forall p :: Owner(u, p) == Owner(s, p)
    requires u.pool.created == s.pool.created && s.pool.closed <= u.pool.closed
    ensures OwnedOnce(u) && NoneLost(u)
  {
    hide Owner;
    forall c: Conn | c < u.pool.created && c !in u.pool.closed
      ensures IsOwned(u, c)
    {
      var p :| Owner(s, p) == Some(c);
      assert Owner(u, p) == Some(c);
    }
  }

  lemma LeaveKeepsOwners(s: System, t: Tid)
    requires OwnedOnce(s) && NoneLost(s) && Enabled(s, Leave(t))
    ensures OwnedOnce(Next(s, Leave(t))) && NoneLost(Next(s, Leave(t)))
  {
    var u := Next(s, Leave(t));
    if s.threads[t].pc.releaseThis {
      var to := InQueue(if s.pool.queue.Some? then |s.pool.queue.value| else 0);
      assert HandsOver(s, u, InThread(t), to);
      HandoverKeeps(s, u, InThread(t), to);
    } else {
      StandStillKeeps(s, u);
    }
  }

  lemma ReleaseKeepsOwners(s: System, r: Rid)
    requires OwnedOnce(s) && NoneLost(s) && Enabled(s, Release(r))
    ensures OwnedOnce(Next(s, Release(r))) && NoneLost(Next(s, Release(r)))
  {
    var u := Next(s, Release(r));
    if Put(s.pool, Some(s.responses[r])).FullPool? {
      StandStillKeeps(s, u);
    } else {
      var to := InQueue(if s.pool.queue.Some? then |s.pool.queue.value| else 0);
      assert HandsOver(s, u, InResponse(r), to);
      HandoverKeeps(s, u, InResponse(r), to);
    }
  }

  lemma SucceedKeepsOwners(s: System, t: Tid, r: Rid)
    requires OwnedOnce(s) && NoneLost(s) && Enabled(s, Succeed(t, r))
    ensures OwnedOnce(Next(s, Succeed(t, r))) && NoneLost(Next(s, Succeed(t, r)))
  {
    var u := Next(s, Succeed(t, r));
    if s.threads[t].releaseConn {
      StandStillKeeps(s, u);
    } else {
      assert HandsOver(s, u, InThread(t), InResponse(r));
      HandoverKeeps(s, u, InThread(t), InResponse(r));
    }
  }

  lemma DiscardKeepsOwners(s: System, t: Tid)
    requires OwnedOnce(s) && NoneLost(s) && Enabled(s, Discard(t))
    ensures OwnedOnce(Next(s, Discard(t))) && NoneLost(Next(s, Discard(t)))
  {
    var u := Next(s, Discard(t));
    var nowhere := InQueue(if s.pool.queue.Some? then |s.pool.queue.value| else 0);
    assert HandsOver(s, u, InThread(t), nowhere);
    HandoverKeeps(s, u, InThread(t), nowhere);
  }

  /** Every step keeps "owned once" and "none lost". */
  lemma StepKeepsOwners(s: System, step: Step)
    requires OwnedOnce(s) && NoneLost(s) && Enabled(s, step)
    ensures OwnedOnce(Next(s, step)) && NoneLost(Next(s, step))
  {
    var u := Next(s, step);
    match step
    case GetConn(t) => GetKeepsOwners(s, t);
    case Succeed(t, r) => SucceedKeepsOwners(s, t, r);
    case Discard(t) => DiscardKeepsOwners(s, t);
    case Leave(t) => LeaveKeepsOwners(s, t);
    case Release(r) => ReleaseKeepsOwners(s, r);
    case ClosePool => ClosePoolKeeps(s);
    case _ => StandStillKeeps(s, u);
  }

  // ---- slots -----------------------------------------------------------------------------------

  /** One thread moves on. */
  lemma HoldersAfter(s: System, u: System, t: Tid)
    requires t in u.threads && u.threads == s.threads[t := u.threads[t]]
    ensures SlotHolders(u) == SlotHolders(s) - {t} + (if u.threads[t].HoldsSlot() then {t} else {})
  {}

  lemma HolderCount(s: System, u: System, t: Tid)
    requires t in u.threads && u.threads == s.threads[t := u.threads[t]]
    ensures var before := if t in s.threads && s.threads[t].HoldsSlot() then 1 else 0;
            var after := if u.threads[t].HoldsSlot() then 1 else 0;
            |SlotHolders(u)| - after == |SlotHolders(s)| - before
  {
    HoldersAfter(s, u, t);
    var others := SlotHolders(s) - {t};
    assert t in SlotHolders(s) <==> t in s.threads && s.threads[t].HoldsSlot();
    assert |SlotHolders(s)| == |others| + (if t in SlotHolders(s) then 1 else 0);
    assert SlotHolders(u) == others + (if u.threads[t].HoldsSlot() then {t} else {});
    hide SlotHolders, Thread.HoldsSlot;
  }

  lemma OneFewer<K, V>(m: map<K, V>, k: K)
    requires k in m
    ensures |m - {k}| == |m| - 1
  {
    assert (m - {k}).Keys == m.Keys - {k};
  }

  /** Queue sizes: bounded, and on a blocking pool together with the slots in use exactly `maxsize`. */
  ghost predicate Counted(s: System) {
    && SlotsConserved(s)
    && (s.pool.block ==> !s.overflowed)
    && (s.pool.queue.Some? && s.pool.maxsize > 0 ==> |s.pool.queue.value| <= s.pool.maxsize)
  }

  /** A thread's step between the queue and its own hands: the queue gains what the thread loses. */
  lemma ExchangeCounts(s: System, step: Step, t: Tid)
    requires Counted(s) && Enabled(s, step)
    requires step == GetConn(t) || (step.NewConnFails? && step.t == t) || step == Leave(t)
    ensures Counted(Next(s, step))
  {
    HolderCount(s, Next(s, step), t);
    hide SlotHolders;
  }

  /** A thread's step that leaves the queue alone. */
  lemma QuietStepCounts(s: System, step: Step, t: Tid)
    requires Counted(s) && Enabled(s, step)
    requires (step.Call? || step.Succeed? || step.Fail? || step.Discard?) && step.t == t
    ensures Counted(Next(s, step))
  {
    HolderCount(s, Next(s, step), t);
    hide SlotHolders;
  }

  lemma ReleaseCounts(s: System, r: Rid)
    requires Counted(s) && Enabled(s, Release(r))
    ensures Counted(Next(s, Release(r)))
  {
    var u := Next(s, Release(r));
    OneFewer(s.responses, r);
    assert SlotHolders(u) == SlotHolders(s);
    hide SlotHolders;
  }

  lemma CloseCounts(s: System, step: Step)
    requires Counted(s) && Enabled(s, step) && (step.ClosePool? || step.CloseResponse?)
    ensures Counted(Next(s, step))
  {
    assert SlotHolders(Next(s, step)) == SlotHolders(s);
    hide SlotHolders;
  }

  /** Every step keeps the slots counted. */
  lemma StepCounts(s: System, step: Step)
    requires Counted(s) && Enabled(s, step)
    ensures Counted(Next(s, step))
  {
    hide Counted, Next;
    match step
    case GetConn(t) => ExchangeCounts(s, step, t);
    case NewConnFails(t, _) => ExchangeCounts(s, step, t);
    case Leave(t) => ExchangeCounts(s, step, t);
    case Release(r) => ReleaseCounts(s, r);
    case ClosePool => CloseCounts(s, step);
    case CloseResponse(_) => CloseCounts(s, step);
    case _ => QuietStepCounts(s, step, step.t);
  }

  // ---- every run -------------------------------------------------------------------------------

  ghost predicate Inv(s: System) {
    OwnedOnce(s) && NoneLost(s) && Counted(s)
  }

  predicate Runs(s: System, steps: seq<Step>)
    decreases |steps|
  {
    steps != [] ==> Enabled(s, steps[0]) && Runs(Next(s, steps[0]), steps[1..])
  }

  function After(s: System, steps: seq<Step>): System
    requires Runs(s, steps)
    decreases |steps|
  {
    if steps == [] then s else After(Next(s, steps[0]), steps[1..])
  }

  function EmptySlots(n: nat): seq<Option<Conn>> {
    seq(n, _ => None)
  }

  /** A new pool: every slot queued, no connection yet. */
  function NewPool(maxsize: nat, block: bool): Pool {
    Pool(Some(EmptySlots(maxsize)), maxsize, block, 0, {})
  }

  function Init(maxsize: nat, block: bool): System {
    System(NewPool(maxsize, block), map[], map[], false)
  }

  lemma {:induction false} RunKeeps(s: System, steps: seq<Step>)
    requires Inv(s) && Runs(s, steps)
    ensures Inv(After(s, steps))
    decreases |steps|
  {
    hide OwnedOnce, NoneLost, Counted;
    if steps == [] {
    } else {
      hide Enabled, Next;
      StepKeepsOwners(s, steps[0]);
      StepCounts(s, steps[0]);
      RunKeeps(Next(s, steps[0]), steps[1..]);
    }
  }

  /** Whatever requests, failures, retries, releases and closings do to a pool, in any order: no connection is owned
      twice or lost, and a blocking pool's slots are all accounted for and never overflow. */
  lemma EveryRunConserves(maxsize: nat, block: bool, steps: seq<Step>)
    requires Runs(Init(maxsize, block), steps)
    ensures Inv(After(Init(maxsize, block), steps))
  {
    var s := Init(maxsize, block);
    assert forall p :: Owner(s, p) == None;
    assert SlotHolders(s) == {};
    RunKeeps(s, steps);
  }

  // ---- the object ------------------------------------------------------------------------------

  lemma RunOne(s: System, step: Step)
    requires Enabled(s, step)
    ensures Runs(s, [step]) && After(s, [step]) == Next(s, step)
  {
    hide Enabled, Next;
    assert [step][1..] == [];
  }

  lemma RunTwo(s: System, first: Step, second: Step)
    requires Enabled(s, first) && Enabled(Next(s, first), second)
    ensures Runs(s, [first, second]) && After(s, [first, second]) == Next(Next(s, first), second)
  {
    hide Enabled, Next;
    assert [first, second][1..] == [second];
    RunOne(Next(s, first), second);
  }

  lemma {:induction false} RunAppend(s: System, steps: seq<Step>, more: seq<Step>)
    requires Runs(s, steps) && Runs(After(s, steps), more)
    ensures Runs(s, steps + more) && After(s, steps + more) == After(After(s, steps), more)
    decreases |steps|
  {
    hide Enabled, Next;
    if steps == [] {
      assert steps + more == more;
    } else {
      RunAppend(Next(s, steps[0]), steps[1..], more);
      assert (steps + more)[1..] == steps[1..] + more;
    }
  }

  lemma LeaveLeaves(s: System, t: Tid)
    requires t in s.threads && s.threads[t].pc.Finally? && (s.threads[t].pc.cleanExit || s.threads[t].pc.releaseThis)
    ensures Enabled(s, Leave(t))
    ensures var pc := s.threads[t].pc;
            var put := if pc.releaseThis then Put(s.pool, pc.local) else PutResult.Done(s.pool);
            Next(s, Leave(t)) == System(put.pool,
              s.threads[t := Thread(if pc.retry && !put.FullPool? then Getting else Outside, s.threads[t].releaseConn)],
              s.responses, s.overflowed || put.FullPool?)
  {}

  lemma DiscardLeaves(s: System, t: Tid)
    requires t in s.threads && s.threads[t].pc.Finally? && !s.threads[t].pc.cleanExit && !s.threads[t].pc.releaseThis
    ensures Enabled(s, Discard(t)) && Enabled(Next(s, Discard(t)), Leave(t))
    ensures var pc := s.threads[t].pc;
            var put := Put(CloseConn(s.pool, pc.local), None);
            Next(Next(s, Discard(t)), Leave(t)) == System(put.pool,
              s.threads[t := Thread(if pc.retry && !put.FullPool? then Getting else Outside, s.threads[t].releaseConn)],
              s.responses, s.overflowed || put.FullPool?)
  {
    LeaveLeaves(Next(s, Discard(t)), t);
  }

  datatype GetOutcome = Got(conn: Conn) | RaisesEmpty | RaisesClosed | Fails

  /** What one attempt at the request meets: no connection can be made, the exchange breaks, or a response arrives. */
  datatype Attempt = NoConn | Breaks | Answers

  datatype Result = Response(conn: Conn) | Raised | RaisedFull

  class HTTPConnectionPool {
    const maxsize: nat
    const block: bool
    var pool: Option<seq<Option<Conn>>>
    var numConnections: nat
    var closed: set<Conn> // the connections without a socket

    ghost function State(): Pool
      reads this
    {
      Pool(pool, maxsize, block, numConnections, closed)
    }

    /** The pool is open and has a slot or can do without. */
    predicate Serves()
      reads this
    {
      pool.Some? && (pool.value != [] || !block)
    }

    constructor (maxsize: nat, block: bool)
      ensures State() == NewPool(maxsize, block)
    {
      this.maxsize, this.block, this.numConnections, this.closed := maxsize, block, 0, {};
      this.pool := Some([]);
      new;
      assert EmptySlots(0) == [];
      for i := 0 to maxsize
        invariant State() == NewPool(maxsize, block).(queue := Some(EmptySlots(i)))
      {
        pool := Some(pool.value + [None]);
        assert EmptySlots(i + 1) == EmptySlots(i) + [None];
      }
    }

    method NewConnection() returns (conn: Conn)
      modifies this
      ensures NewConn(old(State())) == Taken(conn, State())
    {
      conn := numConnections;
      numConnections := numConnections + 1;
    }

    /** `unreachable`: making a connection object raises. */
    method GetConnection(unreachable: bool) returns (r: GetOutcome)
      modifies this
      ensures if unreachable && MakesConn(old(State())) then r == Fails && State() == TakeSlot(old(State()))
              else match Get(old(State()))
                   case Taken(c, p) => r == Got(c) && State() == p
                   case EmptyPool => r == RaisesEmpty && State() == old(State())
                   case ClosedPool => r == RaisesClosed && State() == old(State())
    {
      if pool.None? {
        return RaisesClosed;
      }
      var conn: Option<Conn> := None;
      var q := pool.value;
      if q == [] {
        if block {
          return RaisesEmpty;
        }
      } else {
        conn := q[|q| - 1];
        pool := Some(q[..|q| - 1]);
      }
      if conn.Some? {
        closed := closed - {conn.value};
        return Got(conn.value);
      }
      if unreachable {
        return Fails;
      }
      var made := NewConnection();
      return Got(made);
    }

    method PutConnection(conn: Option<Conn>) returns (full: bool)
      modifies this
      ensures State() == Put(old(State()), conn).pool && full == Put(old(State()), conn).FullPool?
    {
      full := false;
      if pool.Some? {
        if maxsize == 0 || |pool.value| < maxsize {
          pool := Some(pool.value + [conn]);
          return;
        }
        full := block;
      }
      if conn.Some? {
        closed := closed + {conn.value};
      }
    }

    method CloseAll()
      modifies this
      ensures State() == Close(old(State()))
    {
      if pool.None? {
        return;
      }
      var q := pool.value;
      pool := None;
      for i := 0 to |q|
        invariant State() == old(State()).(queue := None, closed := old(closed) + Queued(q[..i]))
      {
        if q[i].Some? {
          closed := closed + {q[i].value};
        }
        QueuedSnoc(q, i);
      }
      assert q[..|q|] == q;
    }

    /** The `try` of `urlopen`: where it leaves thread `t` for the cleanup. */
    method Exchange(releaseConn: bool, attempt: Attempt, again: bool, ghost s: System, ghost t: Tid, ghost r: Rid)
      returns (local: Cleanup, answer: Option<Conn>, ghost steps: seq<Step>)
      requires s.pool == State() && r !in s.responses
      requires t in s.threads && s.threads[t] == Thread(Getting, releaseConn)
      modifies this
      ensures Runs(s, steps)
      ensures After(s, steps) == System(State(), s.threads[t := Thread(local, releaseConn)],
        if answer.Some? && !releaseConn then s.responses[r := answer.value] else s.responses, s.overflowed)
      ensures local.retry ==> again
      ensures answer.Some? ==> attempt == Answers && local == Finally(answer, true, releaseConn, false)
      ensures old(Serves()) && attempt != Answers ==> !local.cleanExit && local.retry == again
      ensures old(Serves()) ==> pool.Some? && (answer.Some? <==> attempt == Answers)
    {
      hide Runs, After;
      answer := None;
      var got := GetConnection(attempt.NoConn?);
      match got {
        case Got(c) =>
          if attempt.Answers? {
            local, answer := Finally(Some(c), true, releaseConn, false), Some(c);
            steps := [GetConn(t), Succeed(t, r)];
          } else {
            local := Finally(Some(c), false, false, again);
            steps := [GetConn(t), Fail(t, again)];
          }
          RunTwo(s, steps[0], steps[1]);
        case RaisesEmpty =>
          local, steps := Finally(None, true, false, false), [GetConn(t)];
          RunOne(s, GetConn(t));
        case RaisesClosed =>
          local, steps := Finally(None, false, false, false), [GetConn(t)];
          RunOne(s, GetConn(t));
        case Fails =>
          local, steps := Finally(None, false, false, again), [NewConnFails(t, again)];
          RunOne(s, NewConnFails(t, again));
      }
    }

    /** The `finally` of `urlopen`. */
    method CleanUp(local: Cleanup, ghost s: System, ghost t: Tid) returns (full: bool, ghost steps: seq<Step>)
      requires s.pool == State() && t in s.threads && s.threads[t].pc == local
      modifies this
      ensures Runs(s, steps)
      ensures After(s, steps) == System(State(),
        s.threads[t := Thread(if local.retry && !full then Getting else Outside, s.threads[t].releaseConn)],
        s.responses, s.overflowed || full)
      ensures full ==> block && (local.releaseThis || !local.cleanExit)
      ensures old(pool).Some? && !local.cleanExit ==> Serves()
    {
      hide Runs, After, Next, Enabled;
      var conn, releaseThis := local.local, local.releaseThis;
      full, steps := false, [Leave(t)];
      if !local.cleanExit && !releaseThis {
        if conn.Some? {
          closed := closed + {conn.value};
          conn := None;
        }
        releaseThis := true;
        DiscardLeaves(s, t);
        RunTwo(s, Discard(t), Leave(t));
        steps := [Discard(t), Leave(t)];
      } else {
        LeaveLeaves(s, t);
        RunOne(s, Leave(t));
      }
      if releaseThis {
        full := PutConnection(conn);
      }
    }

    /** `urlopen` and, as long as `attempts` go on, its retries: they are steps of thread `t` of the system `s` around
        this pool, and no slot is left behind but the one that goes with response `r`. */
    method Urlopen(releaseConn: bool, attempts: seq<Attempt>, ghost s: System, ghost t: Tid, ghost r: Rid)
      returns (result: Result, ghost steps: seq<Step>)
      requires Inv(s) && s.pool == State() && r !in s.responses
      requires t in s.threads && s.threads[t] == Thread(Getting, releaseConn)
      requires attempts != []
      modifies this
      ensures Runs(s, steps) && After(s, steps).pool == State() && Inv(After(s, steps))
      ensures After(s, steps).threads == s.threads[t := Thread(Outside, releaseConn)]
      ensures After(s, steps).responses ==
              if result.Response? && !releaseConn then s.responses[r := result.conn] else s.responses
      ensures result != RaisedFull
      ensures old(Serves()) ==> (result.Response? <==> Answers in attempts)
      decreases |attempts|
    {
      hide Inv, Runs, After, Enabled, Next, Serves;
      assert attempts == [attempts[0]] + attempts[1..];
      var local, answer, tried := Exchange(releaseConn, attempts[0], |attempts| > 1, s, t, r);
      var full, cleaned := CleanUp(local, After(s, tried), t);
      RunAppend(s, tried, cleaned);
      steps := tried + cleaned;
      RunKeeps(s, steps);
      NeverFull(After(s, steps));
      if full {
        result := RaisedFull;
      } else if answer.Some? {
        result := Response(answer.value);
      } else if local.retry {
        ghost var more;
        result, more := Urlopen(releaseConn, attempts[1..], After(s, steps), t, r);
        RunAppend(s, steps, more);
        steps := steps + more;
      } else {
        result := Raised;
      }
    }
  }

  lemma NeverFull(s: System)
    ensures Inv(s) && s.pool.block ==> !s.overflowed
  {}

  lemma QueuedSnoc(q: seq<Option<Conn>>, i: nat)
    requires i < |q|
    ensures Queued(q[..i + 1]) == Queued(q[..i]) + (if q[i].Some? then {q[i].value} else {})
  {
    var before, after := q[..i], q[..i + 1];
    forall c | c in Queued(before)
      ensures c in Queued(after)
    {
      var k :| 0 <= k < |before| && before[k] == Some(c);
      assert after[k] == Some(c);
    }
    if q[i].Some? {
      assert after[i] == q[i];
    }
  }
}
