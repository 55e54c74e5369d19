/** _collections.py RecentlyUsedContainer, which bounds the pools of a PoolManager. */
module Recent {
  import opened Bytes

  /** The ordered dictionary: least recently used first. */
  type Container<K, V> = seq<(K, V)>

  /** The position of a key, |c| when it is missing. */
  function Find<K(==), V>(c: Container<K, V>, key: K): (i: nat)
    ensures i <= |c| && (i < |c| ==> c[i].0 == key)
    ensures forall j :: 0 <= j < i ==> c[j].0 != key
  {
    if c == [] || c[0].0 == key then 0 else
      var i := Find(c[1..], key);
      assert forall j :: 0 < j < i + 1 ==> c[j] == c[1..][j - 1];
      i + 1
  }

  function Without<T>(s: seq<T>, i: nat): seq<T>
    requires i < |s|
  {
    s[..i] + s[i + 1..]
  }

  datatype Op<K, V> = Get(key: K) | Set(key: K, value: V) | Delete(key: K) | Clear

  /** The container and the values given up so far, in order; these go to `dispose_func`. */
  datatype State<K, V> = State(items: Container<K, V>, disposed: seq<V>)

  function Values<K, V>(c: Container<K, V>): seq<V> {
    seq(|c|, i requires 0 <= i < |c| => c[i].1)
  }

  /** One operation; getting or deleting a missing key raises and changes nothing. */
  function Next<K(==), V>(s: State<K, V>, op: Op<K, V>, maxsize: nat): State<K, V> {
    match op
    case Get(k) =>
      var i := Find(s.items, k);
      if i < |s.items| then s.(items := Without(s.items, i) + [s.items[i]]) else s
    case Set(k, v) =>
      var i := Find(s.items, k);
      if i < |s.items| then State(Without(s.items, i) + [(k, v)], s.disposed + [s.items[i].1])
      else if |s.items| + 1 > maxsize then State((s.items + [(k, v)])[1..], s.disposed + [(s.items + [(k, v)])[0].1])
      else s.(items := s.items + [(k, v)])
    case Delete(k) =>
      var i := Find(s.items, k);
      if i < |s.items| then State(Without(s.items, i), s.disposed + [s.items[i].1]) else s
    case Clear => State([], s.disposed + Values(s.items))
  }

  function Run<K(==), V>(ops: seq<Op<K, V>>, maxsize: nat): State<K, V> {
    if ops == [] then State([], []) else Next(Run(ops[..|ops| - 1], maxsize), ops[|ops| - 1], maxsize)
  }

  class RecentlyUsedContainer<K(==), V> {
    const maxsize: nat
    var container: Container<K, V>
    var disposed: seq<V>

    ghost function Now(): State<K, V>
      reads this
    {
      State(container, disposed)
    }

    constructor (maxsize: nat)
      ensures this.maxsize == maxsize && Now() == State([], [])
    {
      this.maxsize, container, disposed := maxsize, [], [];
    }

    method GetItem(key: K) returns (r: Option<V>)
      modifies this`container
      ensures Now() == Next(old(Now()), Get(key), maxsize)
      ensures r == var i := Find(old(container), key); if i < |old(container)| then Some(old(container)[i].1) else None
    {
      var i := Find(container, key);
      if i == |container| {
        return None;
      }
      var item := container[i];
      container := container[..i] + container[i + 1..];
      container := container + [item];
      r := Some(item.1);
    }

    method SetItem(key: K, value: V)
      modifies this`container, this`disposed
      ensures Now() == Next(old(Now()), Set(key, value), maxsize)
    {
      var evicted: Option<V> := None;
      var i := Find(container, key);
      if i < |container| {
        evicted := Some(container[i].1);
        container := container[..i] + container[i + 1..];
        container := container + [(key, value)];
      } else {
        container := container + [(key, value)];
        if |container| > maxsize {
          evicted := Some(container[0].1);
          container := container[1..];
        }
      }
      if evicted.Some? {
        disposed := disposed + [evicted.value];
      }
    }

    method DelItem(key: K) returns (found: bool)
      modifies this`container, this`disposed
      ensures Now() == Next(old(Now()), Delete(key), maxsize)
      ensures found <==> exists i :: 0 <= i < |old(container)| && old(container)[i].0 == key
    {
      var i := Find(container, key);
      found := i < |container|;
      if found {
        var value := container[i].1;
        container := container[..i] + container[i + 1..];
        disposed := disposed + [value];
      }
    }

    method ClearAll()
      modifies this`container, this`disposed
      ensures Now() == Next(old(Now()), Clear, maxsize)
    {
      var values := container;
      container := [];
      for i := 0 to |values|
        invariant container == [] && disposed == old(disposed) + Values(values)[..i]
      {
        disposed := disposed + [values[i].1];
      }
      assert Values(values)[..|values|] == Values(values);
    }
  }

  // ---- nothing is lost ---------------------------------------------------------------------------

  /** The values ever set. */
  function AllSet<K, V>(ops: seq<Op<K, V>>): seq<V> {
    if ops == [] then []
    else AllSet(ops[..|ops| - 1]) + (if ops[|ops| - 1].Set? then [ops[|ops| - 1].value] else [])
  }

  lemma ValuesAppend<K, V>(a: Container<K, V>, b: Container<K, V>)
    ensures Values(a + b) == Values(a) + Values(b)
  {}

  lemma ValuesWithout<K, V>(c: Container<K, V>, i: nat)
    requires i < |c|
    ensures multiset(Values(c)) == multiset(Values(Without(c, i))) + multiset{c[i].1}
  {
    assert c == c[..i] + ([c[i]] + c[i + 1..]);
    ValuesAppend(c[..i], [c[i]] + c[i + 1..]);
    ValuesAppend([c[i]], c[i + 1..]);
    ValuesAppend(c[..i], c[i + 1..]);
    assert Values([c[i]]) == [c[i].1];
  }

  lemma GetConserves<K, V>(c: Container<K, V>, i: nat)
    requires i < |c|
    ensures multiset(Values(Without(c, i) + [c[i]])) == multiset(Values(c))
  {
    ValuesWithout(c, i);
    ValuesAppend(Without(c, i), [c[i]]);
    assert Values([c[i]]) == [c[i].1];
    hide Without;
  }

  lemma SetConserves<K, V>(c: Container<K, V>, k: K, v: V)
    ensures multiset(Values(c + [(k, v)])) == multiset(Values(c)) + multiset{v}
    ensures multiset(Values(c + [(k, v)])) == multiset(Values((c + [(k, v)])[1..])) + multiset{(c + [(k, v)])[0].1}
  {
    var all := c + [(k, v)];
    ValuesAppend(c, [(k, v)]);
    assert Values([(k, v)]) == [v];
    ValuesWithout(all, 0);
    assert Without(all, 0) == all[1..];
    hide Values, Without;
  }

  /** All values there are, held or given up. */
  ghost function Accounted<K, V>(s: State<K, V>): multiset<V> {
    multiset(Values(s.items)) + multiset(s.disposed)
  }

  lemma SetAccounts<K, V>(s: State<K, V>, k: K, v: V, maxsize: nat)
    ensures Accounted(Next(s, Set(k, v), maxsize)) == Accounted(s) + multiset{v}
  {
    var i := Find(s.items, k);
    if i < |s.items| {
      ValuesWithout(s.items, i);
      SetConserves(Without(s.items, i), k, v);
      hide Values, Without, Find;
      assert multiset(s.disposed + [s.items[i].1]) == multiset(s.disposed) + multiset{s.items[i].1};
    } else {
      SetConserves(s.items, k, v);
      var first, rest := (s.items + [(k, v)])[0].1, (s.items + [(k, v)])[1..];
      assert multiset(s.disposed + [first]) == multiset(s.disposed) + multiset{first};
      assert |s.items| + 1 > maxsize ==> Next(s, Set(k, v), maxsize) == State(rest, s.disposed + [first]);
      hide Values, Without, Find, Next;
      assert multiset(Values(rest)) + multiset{first} + multiset(s.disposed) == Accounted(s) + multiset{v};
    }
  }

  lemma GetAccounts<K, V>(s: State<K, V>, k: K, maxsize: nat)
    ensures Accounted(Next(s, Get(k), maxsize)) == Accounted(s)
  {
    var i := Find(s.items, k);
    if i < |s.items| {
      GetConserves(s.items, i);
    }
    hide Values, Without, Find;
  }

  lemma DeleteAccounts<K, V>(s: State<K, V>, k: K, maxsize: nat)
    ensures Accounted(Next(s, Delete(k), maxsize)) == Accounted(s)
  {
    var i := Find(s.items, k);
    if i < |s.items| {
      ValuesWithout(s.items, i);
    }
    hide Values, Without, Find;
  }

  lemma ClearAccounts<K, V>(s: State<K, V>, maxsize: nat)
    ensures Accounted(Next(s, Op<K, V>.Clear, maxsize)) == Accounted(s)
  {
    assert Values<K, V>([]) == [];
    hide Values;
  }

  /** One operation: what is held and what was given up grow together by the value set. */
  lemma StepConserves<K, V>(s: State<K, V>, op: Op<K, V>, maxsize: nat)
    ensures Accounted(Next(s, op, maxsize)) == Accounted(s) + (if op.Set? then multiset{op.value} else multiset{})
  {
    hide Accounted, Next;
    match op
    case Get(k) => GetAccounts(s, k, maxsize);
    case Set(k, v) => SetAccounts(s, k, v, maxsize);
    case Delete(k) => DeleteAccounts(s, k, maxsize);
    case Clear => ClearAccounts(s, maxsize);
  }

  /** Over every run, each value ever set is either held or was given up, exactly once. */
  lemma {:induction false} RunConserves<K, V>(ops: seq<Op<K, V>>, maxsize: nat)
    ensures var s := Run(ops, maxsize);
            multiset(AllSet(ops)) == multiset(Values(s.items)) + multiset(s.disposed)
  {
    if ops == [] {
    } else {
      var n := |ops| - 1;
      RunConserves(ops[..n], maxsize);
      StepConserves(Run(ops[..n], maxsize), ops[n], maxsize);
      hide Next;
    }
  }

  // ---- what is held ------------------------------------------------------------------------------

  ghost predicate NoRepeats<K>(s: seq<K>) {
    forall i, j :: 0 <= i < j < |s| ==> s[i] != s[j]
  }

  /** The position of a key in a list of keys, its length when it is missing. */
  function Index<K(==)>(s: seq<K>, k: K): (i: nat)
    ensures i <= |s| && (i < |s| ==> s[i] == k) && forall j :: 0 <= j < i ==> s[j] != k
  {
    if s == [] || s[0] == k then 0 else
      var i := Index(s[1..], k);
      assert forall j :: 0 < j < i + 1 ==> s[j] == s[1..][j - 1];
      i + 1
  }

  function Erase<K(==)>(s: seq<K>, k: K): (r: seq<K>)
    requires NoRepeats(s)
    ensures NoRepeats(r) && k !in r && |r| <= |s|
  {
    var i := Index(s, k);
    if i < |s| then Without(s, i) else s
  }

  /** The distinct keys of a history of touches, in the order of their last touch. */
  function Distinct<K(==)>(touches: seq<K>): (d: seq<K>)
    ensures NoRepeats(d)
  {
    if touches == [] then [] else
      var n := |touches| - 1;
      Erase(Distinct(touches[..n]), touches[n]) + [touches[n]]
  }

  /** The last `n` elements. */
  function Last<T>(s: seq<T>, n: nat): seq<T> {
    if |s| <= n then s else s[|s| - n..]
  }

  function Recently<K(==)>(touches: seq<K>, n: nat): seq<K> {
    Last(Distinct(touches), n)
  }

  /** The touches of a run of gets and sets: every set, and every get of a key that is still held. */
  function Touches<K(==), V>(ops: seq<Op<K, V>>, maxsize: nat): seq<K> {
    if ops == [] then [] else
      var before := Touches(ops[..|ops| - 1], maxsize);
      match ops[|ops| - 1]
      case Set(k, _) => before + [k]
      case Get(k) => if k in Recently(before, maxsize) then before + [k] else before
      case _ => before
  }

  /** The value a key was last set to. */
  function LastSet<K(==), V>(ops: seq<Op<K, V>>, k: K): Option<V> {
    if ops == [] then None
    else
      var op := ops[|ops| - 1];
      if op.Set? && op.key == k then Some(op.value) else LastSet(ops[..|ops| - 1], k)
  }

  function KeysOf<K, V>(c: Container<K, V>): seq<K> {
    seq(|c|, i requires 0 <= i < |c| => c[i].0)
  }

  lemma IndexIs<K>(s: seq<K>, k: K, i: nat)
    requires NoRepeats(s) && i <= |s| && (i < |s| ==> s[i] == k) && (i == |s| ==> k !in s)
    ensures Index(s, k) == i
  {}

  /** Touching a key that is among the last `n` moves it to the end of them; touching another one pushes it in. */
  lemma LastTouched<K>(d: seq<K>, k: K, n: nat)
    requires NoRepeats(d)
    ensures NoRepeats(Last(d, n))
    ensures k in Last(d, n) ==> Last(Erase(d, k) + [k], n) == Erase(Last(d, n), k) + [k]
    ensures k !in Last(d, n) ==> Last(Erase(d, k) + [k], n) == Last(Last(d, n) + [k], n)
  {
    var l, i := Last(d, n), Index(d, k);
    var off := |d| - |l|;
    assert forall j :: 0 <= j < |l| ==> l[j] == d[off + j];
    if i < off {
      assert k !in l;
      PushIn(d, i, k, n);
    } else if i < |d| {
      assert l[i - off] == k;
      IndexIs(l, k, i - off);
      MoveUp(d, i, n);
    } else {
      assert k !in l;
      PushOn(d, k, n);
    }
  }

  lemma MoveUp<K>(d: seq<K>, i: nat, n: nat)
    requires i < |d| && |d| - |Last(d, n)| <= i
    ensures Last(Without(d, i) + [d[i]], n) == Without(Last(d, n), i - (|d| - |Last(d, n)|)) + [d[i]]
  {}

  lemma PushIn<K>(d: seq<K>, i: nat, k: K, n: nat)
    requires i < |d| && i < |d| - |Last(d, n)|
    ensures Last(Without(d, i) + [k], n) == Last(Last(d, n) + [k], n)
  {}

  lemma PushOn<K>(d: seq<K>, k: K, n: nat)
    ensures Last(d + [k], n) == Last(Last(d, n) + [k], n)
  {}

  // ---- the container holds the most recently touched keys ----------------------------------------

  lemma FindIsIndex<K, V>(c: Container<K, V>, k: K)
    ensures Find(c, k) == Index(KeysOf(c), k)
  {
    assert forall j :: 0 <= j < |c| ==> KeysOf(c)[j] == c[j].0;
  }

  lemma KeysWithout<K, V>(c: Container<K, V>, i: nat)
    ensures i < |c| ==> KeysOf(Without(c, i)) == Without(KeysOf(c), i)
  {}

  /** Gets and sets only. */
  predicate NoRemovals<K, V>(ops: seq<Op<K, V>>) {
    forall i :: 0 <= i < |ops| ==> ops[i].Get? || ops[i].Set?
  }

  lemma KeysAppend<K, V>(c: Container<K, V>, k: K, v: V)
    ensures KeysOf(c + [(k, v)]) == KeysOf(c) + [k]
    ensures c + [(k, v)] != [] && KeysOf((c + [(k, v)])[1..]) == (KeysOf(c) + [k])[1..]
  {}

  /** The keys after one get or set, from the keys before. */
  lemma KeysAfter<K, V>(s: State<K, V>, op: Op<K, V>, maxsize: nat)
    requires op.Get? || op.Set?
    requires |s.items| <= maxsize
    ensures var keys, i := KeysOf(s.items), Find(s.items, op.key);
            KeysOf(Next(s, op, maxsize).items) ==
              if i < |keys| then Without(keys, i) + [op.key]
              else if op.Get? then keys else Last(keys + [op.key], maxsize)
  {
    var c, i := s.items, Find(s.items, op.key);
    if i < |c| {
      KeysWithout(c, i);
      KeysAppend(Without(c, i), op.key, if op.Get? then c[i].1 else op.value);
      assert c[i] == (op.key, c[i].1);
    } else if op.Set? {
      KeysAppend(c, op.key, op.value);
    }
    hide KeysOf, Without, Find;
  }

  /** One get or set: the keys held are those most recently touched, before and after. */
  lemma StepHolds<K, V>(s: State<K, V>, op: Op<K, V>, touches: seq<K>, maxsize: nat)
    requires (op.Get? || op.Set?) && KeysOf(s.items) == Recently(touches, maxsize)
    ensures var hit := op.Set? || op.key in Recently(touches, maxsize);
            KeysOf(Next(s, op, maxsize).items) == Recently(if hit then touches + [op.key] else touches, maxsize)
  {
    var k, d, l := op.key, Distinct(touches), Recently(touches, maxsize);
    KeysAfter(s, op, maxsize);
    FindIsIndex(s.items, k);
    LastTouched(d, k, maxsize);
    DistinctSnoc(touches, k);
    assert Index(l, k) < |l| <==> k in l;
    hide Distinct, Find, Index, KeysOf, Last, Next;
  }

  lemma DistinctSnoc<K>(touches: seq<K>, k: K)
    ensures Distinct(touches + [k]) == Erase(Distinct(touches), k) + [k]
  {
    assert (touches + [k])[..|touches|] == touches;
  }

  /** After any run of gets and sets the container holds exactly the `maxsize` most recently touched keys of the whole
      history, in the order of their last touch. */
  lemma {:induction false} HoldsMostRecent<K, V>(ops: seq<Op<K, V>>, maxsize: nat)
    requires NoRemovals(ops)
    ensures KeysOf(Run(ops, maxsize).items) == Recently(Touches(ops, maxsize), maxsize)
  {
    if ops == [] {
    } else {
      var n := |ops| - 1;
      assert ops[n].Get? || ops[n].Set?;
      HoldsMostRecent(ops[..n], maxsize);
      StepHolds(Run(ops[..n], maxsize), ops[n], Touches(ops[..n], maxsize), maxsize);
      hide Next, Recently, KeysOf;
    }
  }

  /** The keys touched after the last touch of `k`. */
  function Later<K(==)>(touches: seq<K>, k: K): set<K> {
    if touches == [] || touches[|touches| - 1] == k then {}
    else Later(touches[..|touches| - 1], k) + {touches[|touches| - 1]}
  }

  lemma {:induction false} LaterAreThere<K>(s: seq<K>, k: K, y: K)
    requires y in Later(s, k)
    ensures y in s
  {
    var n := |s| - 1;
    if y != s[n] {
      LaterAreThere(s[..n], k, y);
    }
  }

  /** Among distinct keys, as many are later as there are places behind. */
  lemma {:induction false} LaterCount<K>(s: seq<K>, k: K)
    requires NoRepeats(s) && k in s
    ensures |Later(s, k)| == |s| - 1 - Index(s, k)
  {
    var n := |s| - 1;
    var i := Index(s, k);
    if s[n] != k {
      assert s[..n][i] == k;
      LaterCount(s[..n], k);
      IndexIs(s[..n], k, i);
      if s[n] in Later(s[..n], k) {
        LaterAreThere(s[..n], k, s[n]);
        assert false;
      }
    }
  }

  lemma EraseSnoc<K>(s: seq<K>, y: K, x: K)
    requires NoRepeats(s + [y])
    ensures NoRepeats(s)
    ensures Erase(s + [y], x) == if y == x then s else Erase(s, x) + [y]
  {
    var all := s + [y];
    assert forall i :: 0 <= i < |s| ==> all[i] == s[i];
    assert all[|s|] == y;
    var i := Index(s, x);
    if i < |s| {
      IndexIs(all, x, i);
      assert y != x;
      assert Without(all, i) == Without(s, i) + [y];
    } else if y == x {
      IndexIs(all, x, |s|);
      assert Without(all, |s|) == s;
    } else {
      IndexIs(all, x, |all|);
    }
  }

  lemma LaterSnoc<K>(s: seq<K>, y: K, k: K)
    ensures Later(s + [y], k) == if y == k then {} else Later(s, k) + {y}
  {
    assert (s + [y])[..|s|] == s;
  }

  lemma NotLater<K>(s: seq<K>, y: K, k: K)
    requires y !in s
    ensures y !in Later(s, k)
  {
    if y in Later(s, k) {
      LaterAreThere(s, k, y);
      assert false;
    }
  }

  lemma {:induction false} EraseLater<K>(s: seq<K>, x: K, k: K)
    requires NoRepeats(s) && k in s && x != k
    ensures Later(Erase(s, x), k) == Later(s, k) - {x}
  {
    var n := |s| - 1;
    var init, y := s[..n], s[n];
    assert s == init + [y];
    assert y !in init;
    EraseSnoc(init, y, x);
    LaterSnoc(init, y, k);
    if y == x {
      hide Later, Erase;
      NotLater(init, x, k);
    } else {
      LaterSnoc(Erase(init, x), y, k);
      hide Later, Erase;
      if y != k {
        EraseLater(init, x, k);
      }
    }
  }

  /** Only the last touch of each key matters for what is later. */
  lemma {:induction false} DistinctLater<K>(touches: seq<K>, k: K)
    ensures k in touches <==> k in Distinct(touches)
    ensures k in touches ==> Later(Distinct(touches), k) == Later(touches, k)
  {
    if touches == [] {
    } else {
      hide Erase, Distinct, Index, Later, NoRepeats;
      var n := |touches| - 1;
      var init, x := touches[..n], touches[n];
      DistinctLater(init, k);
      assert touches == init + [x];
      DistinctStep(init, x, k);
    }
  }

  lemma DistinctStep<K>(init: seq<K>, x: K, k: K)
    requires k in init <==> k in Distinct(init)
    requires k in init ==> Later(Distinct(init), k) == Later(init, k)
    ensures k in init + [x] <==> k in Distinct(init + [x])
    ensures k in init + [x] ==> Later(Distinct(init + [x]), k) == Later(init + [x], k)
  {
    hide Erase, Distinct, Index, Later;
    var before := Distinct(init);
    DistinctSnoc(init, x);
    EraseKeeps(before, x, k);
    LaterSnoc(init, x, k);
    LaterSnoc(Erase(before, x), x, k);
    if k != x && k in init {
      EraseLater(before, x, k);
    }
  }

  lemma EraseKeeps<K>(s: seq<K>, x: K, k: K)
    requires NoRepeats(s)
    ensures k != x ==> (k in Erase(s, x) <==> k in s)
  {
    var i := Index(s, x);
    assert i < |s| ==> s == s[..i] + ([x] + s[i + 1..]);
  }

  /** A key is held exactly when it was touched and fewer than `maxsize` other keys were touched after its last
      touch. */
  lemma HeldIff<K, V>(ops: seq<Op<K, V>>, maxsize: nat, k: K)
    requires NoRemovals(ops)
    ensures var touches := Touches(ops, maxsize);
            k in KeysOf(Run(ops, maxsize).items) <==> k in touches && |Later(touches, k)| < maxsize
  {
    var touches := Touches(ops, maxsize);
    var d := Distinct(touches);
    HoldsMostRecent(ops, maxsize);
    DistinctLater(touches, k);
    hide Run, Touches, Distinct, KeysOf;
    if k in d {
      LaterCount(d, k);
      InLast(d, k, maxsize);
    } else {
      NotInLast(d, k, maxsize);
    }
  }

  lemma InLast<K>(d: seq<K>, k: K, n: nat)
    requires NoRepeats(d) && k in d
    ensures k in Last(d, n) <==> |d| - 1 - Index(d, k) < n
  {
    var i, l := Index(d, k), Last(d, n);
    var off := |d| - |l|;
    assert forall j :: 0 <= j < |l| ==> l[j] == d[off + j];
    assert i >= off ==> l[i - off] == k;
  }

  lemma NotInLast<K>(d: seq<K>, k: K, n: nat)
    ensures k !in d ==> k !in Last(d, n)
  {}

  // ---- with the values ---------------------------------------------------------------------------

  lemma NoRepeatsSnoc<K>(s: seq<K>, k: K)
    ensures NoRepeats(s) && k !in s ==> NoRepeats(s + [k])
  {}

  lemma NoRepeatsLess<K>(s: seq<K>, i: nat, n: nat)
    requires NoRepeats(s)
    ensures NoRepeats(Last(s, n)) && (i < |s| ==> NoRepeats(Without(s, i)) && s[i] !in Without(s, i))
  {}

  lemma KeysLength<K, V>(c: Container<K, V>)
    ensures |KeysOf(c)| == |c|
  {}

  lemma StepKeepsKeys<K, V>(s: State<K, V>, op: Op<K, V>, maxsize: nat)
    requires NoRepeats(KeysOf(s.items)) && |s.items| <= maxsize
    ensures NoRepeats(KeysOf(Next(s, op, maxsize).items)) && |Next(s, op, maxsize).items| <= maxsize
  {
    var keys := KeysOf(s.items);
    KeysLength(Next(s, op, maxsize).items);
    if op.Clear? {
    } else {
      var i := Find(s.items, op.key);
      NoRepeatsLess(keys, i, maxsize);
      if op.Delete? {
        if i < |keys| {
          KeysWithout(s.items, i);
        }
        hide KeysOf, Find;
      } else {
        KeysAfter(s, op, maxsize);
        FindIsIndex(s.items, op.key);
        hide KeysOf, Next, Find;
        AfterTouch(keys, i, op.key, maxsize);
      }
    }
  }

  lemma AfterTouch<K>(keys: seq<K>, i: nat, k: K, n: nat)
    requires NoRepeats(keys) && i == Index(keys, k) && |keys| <= n
    ensures if i < |keys| then NoRepeats(Without(keys, i) + [k]) && |Without(keys, i) + [k]| <= n
            else NoRepeats(Last(keys + [k], n)) && |Last(keys + [k], n)| <= n
  {
    NoRepeatsLess(keys, i, n);
    if i < |keys| {
      NoRepeatsSnoc(Without(keys, i), k);
    } else {
      NoRepeatsSnoc(keys, k);
      NoRepeatsLess(keys + [k], 0, n);
    }
    hide NoRepeats;
  }

  /** No key is held twice, and never more than `maxsize`. */
  lemma {:induction false} KeysUnique<K, V>(ops: seq<Op<K, V>>, maxsize: nat)
    ensures NoRepeats(KeysOf(Run(ops, maxsize).items)) && |Run(ops, maxsize).items| <= maxsize
  {
    if ops == [] {
    } else {
      KeysUnique(ops[..|ops| - 1], maxsize);
      StepKeepsKeys(Run(ops[..|ops| - 1], maxsize), ops[|ops| - 1], maxsize);
      hide Next, KeysOf, NoRepeats;
    }
  }

  /** What is held for a key is what it was last set to. */
  lemma {:induction false} HeldIsLastSet<K, V>(ops: seq<Op<K, V>>, maxsize: nat, i: nat)
    requires i < |Run(ops, maxsize).items|
    ensures LastSet(ops, Run(ops, maxsize).items[i].0) == Some(Run(ops, maxsize).items[i].1)
  {
    var n := |ops| - 1;
    var before, op := Run(ops[..n], maxsize), ops[n];
    var item := Run(ops, maxsize).items[i];
    KeysUnique(ops[..n], maxsize);
    hide Next, KeysOf;
    if op.Set? && item == (op.key, op.value) {
    } else {
      var j := CameFrom(before, op, maxsize, i);
      HeldIsLastSet(ops[..n], maxsize, j);
    }
  }

  lemma CameFrom<K, V>(s: State<K, V>, op: Op<K, V>, maxsize: nat, i: nat) returns (j: nat)
    requires i < |Next(s, op, maxsize).items| && NoRepeats(KeysOf(s.items))
    requires !(op.Set? && Next(s, op, maxsize).items[i] == (op.key, op.value))
    ensures j < |s.items| && s.items[j] == Next(s, op, maxsize).items[i]
    ensures op.Set? ==> s.items[j].0 != op.key
  {
    var u := Next(s, op, maxsize).items;
    var f := if op.Clear? then 0 else Find(s.items, op.key);
    if op.Get? && f < |s.items| && i == |u| - 1 {
      j := f;
    } else if (op.Get? || op.Set? || op.Delete?) && f < |s.items| {
      j := if i < f then i else i + 1;
      assert KeysOf(s.items)[f] == op.key && KeysOf(s.items)[j] == s.items[j].0;
    } else if op.Set? && |s.items| + 1 > maxsize {
      j := i + 1;
    } else {
      j := i;
    }
  }

  // ---- the pools of a PoolManager ----------------------------------------------------------------

  class PoolCache<K(==)> {
    const pools: RecentlyUsedContainer<K, nat> // a pool by its number
    var made: nat

    constructor (numPools: nat)
      ensures pools.Now() == State([], []) && pools.maxsize == numPools && made == 0
    {
      pools := new RecentlyUsedContainer(numPools);
      made := 0;
    }

    /** `connection_from_pool_key`: the pool held for the key, or a new one; either way a touch of the key. */
    method ConnectionFromPoolKey(key: K) returns (pool: nat)
      modifies this, pools
      ensures var before, i := old(pools.Now()), Find(old(pools.container), key);
              if i < |before.items|
              then pool == before.items[i].1 && made == old(made)
                  && pools.Now() == Next(before, Get(key), pools.maxsize)
              else pool == old(made) && made == pool + 1 && pools.Now() == Next(before, Set(key, pool), pools.maxsize)
    {
      var held := pools.GetItem(key);
      if held.Some? {
        return held.value;
      }
      pool := made;
      made := made + 1;
      pools.SetItem(key, pool);
    }
  }
}
