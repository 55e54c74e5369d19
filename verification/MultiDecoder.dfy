/** response.py MultiDecoder: a chain of content decoders, the last one listed fed first. */
module MultiDecoder {
  import opened Bytes
  import opened Codec

  /** The decode of a whole chain: `fs[0]` after `fs[1]` after ... after the last. */
  function Through(fs: seq<bytes -> bytes>, x: bytes): bytes {
    if fs == [] then x else fs[0](Through(fs[1..], x))
  }

  /** The links' own decodes, in the order of the chain. */
  function Decodes(ds: seq<Decoder>): (fs: seq<bytes -> bytes>)
    ensures |fs| == |ds| && forall i :: 0 <= i < |ds| ==> fs[i] == ds[i].decode
  {
    if ds == [] then [] else [ds[0].decode] + Decodes(ds[1..])
  }

  lemma {:induction false} ThroughMonotone(fs: seq<bytes -> bytes>, x: bytes, y: bytes)
    requires forall f :: f in fs ==> Monotone(f)
    requires x <= y
    ensures Through(fs, x) <= Through(fs, y)
  {
    if fs == [] {
    } else {
      ThroughMonotone(fs[1..], x, y);
      assert Monotone(fs[0]) && Extends(Through(fs[1..], y), Through(fs[1..], x));
    }
  }

  function Emitted(ds: seq<Decoder>): nat {
    if ds == [] then 0 else ds[0].emitted + Emitted(ds[1..])
  }

  lemma {:induction false} EmittedUpdate(ds: seq<Decoder>, i: nat, d: Decoder)
    requires i < |ds|
    ensures Emitted(ds[i := d]) == Emitted(ds) - ds[i].emitted + d.emitted
  {
    if i == 0 {
      assert ds[0 := d][1..] == ds[1..];
    } else {
      assert ds[i := d][1..] == ds[1..][i - 1 := d];
      EmittedUpdate(ds[1..], i - 1, d);
    }
  }

  /** The most the links can ever emit, all together, on input `x`. */
  function Capacity(fs: seq<bytes -> bytes>, x: bytes): nat {
    if fs == [] then 0 else |Through(fs, x)| + Capacity(fs[1..], x)
  }

  /** Link `i` has been fed just what link `i + 1` handed over. */
  ghost predicate Joined(ds: seq<Decoder>, i: nat)
    requires i + 1 < |ds| && ds[i + 1].Valid()
  {
    ds[i].fed == ds[i + 1].Sent()
  }

  ghost predicate Links(ds: seq<Decoder>, fs: seq<bytes -> bytes>) {
    && |ds| == |fs| > 0
    && (forall i :: 0 <= i < |ds| ==> ds[i].Valid() && ds[i].decode == fs[i])
  }

  ghost predicate Chained(ds: seq<Decoder>, fs: seq<bytes -> bytes>) {
    Links(ds, fs) && forall i :: 0 <= i < |ds| - 1 ==> Joined(ds, i)
  }

  /** In the middle of a pass: links from `i` up have had their turn, and `data` is what link `i` just gave. */
  ghost predicate Passing(ds: seq<Decoder>, fs: seq<bytes -> bytes>, i: nat, data: bytes) {
    && Links(ds, fs)
    && i <= |ds|
    && (forall j :: 0 <= j < |ds| - 1 && j != i - 1 ==> Joined(ds, j))
    && (0 < i < |ds| ==> ds[i - 1].fed + data == ds[i].Sent())
  }

  ghost predicate Flushed(ds: seq<Decoder>, from: nat) {
    forall j :: from <= j < |ds| ==> ds[j].emitted == |ds[j].decode(ds[j].fed)| && !ds[j].HasUnconsumedTail()
  }

  ghost predicate HasSent(d: Decoder, s: bytes) {
    d.emitted <= |d.decode(d.fed)| && d.Sent() == s
  }

  /** Giving link `i` its turn moves the pass one link down. */
  lemma PassStep(ds: seq<Decoder>, fs: seq<bytes -> bytes>, i: nat, data: bytes, limit: int)
    requires Passing(ds, fs, i + 1, data) && i < |ds|
    ensures ds[i].Valid()
    ensures var (d, out) := ds[i].Decompress(data, limit);
            && Passing(ds[i := d], fs, i, out)
            && Emitted(ds[i := d]) == Emitted(ds) + |out|
            && d.fed == ds[i].fed + data
            && HasSent(d, ds[i].Sent() + out)
            && (0 <= limit ==> |out| <= limit)
            && (Flushed(ds, i + 1) && (limit < 0 || |out| < limit) ==> Flushed(ds[i := d], i))
  {
    var (d, out) := ds[i].Decompress(data, limit);
    EmittedUpdate(ds, i, d);
    var es := ds[i := d];
    assert Links(es, fs);
    forall j | 0 <= j < |es| - 1 && j != i - 1
      ensures Joined(es, j)
    {
      if j != i {
        assert Joined(ds, j);
      }
    }
    if 0 < i {
      assert Joined(ds, i - 1);
    }
  }

  lemma SentSo(d: Decoder, s: bytes)
    requires HasSent(d, s)
    ensures d.emitted <= |d.decode(d.fed)| && d.Sent() == s
  {
  }

  lemma PassEnds(ds: seq<Decoder>, fs: seq<bytes -> bytes>, data: bytes)
    requires |ds| > 0
    ensures Chained(ds, fs) ==> Passing(ds, fs, |ds|, data)
    ensures Passing(ds, fs, 0, data) ==> Chained(ds, fs)
    ensures Flushed(ds, |ds|)
  {
  }

  /** Whatever a chained link has decoded is a prefix of what the chain from it on decodes from `x`. */
  lemma {:induction false} ChainPrefix(ds: seq<Decoder>, fs: seq<bytes -> bytes>, i: nat, x: bytes)
    requires Chained(ds, fs) && i < |ds| && ds[|ds| - 1].fed <= x
    ensures ds[i].decode(ds[i].fed) <= Through(fs[i..], x)
    decreases |ds| - i
  {
    assert fs[i..][1..] == fs[i + 1..];
    if i + 1 < |ds| {
      ChainPrefix(ds, fs, i + 1, x);
      assert Joined(ds, i);
    }
    assert Extends(Through(fs[i + 1..], x), ds[i].fed);
  }

  /** When no link has output pending, the chain has decoded all of its input. */
  lemma {:induction false} FlushedChain(ds: seq<Decoder>, fs: seq<bytes -> bytes>, i: nat)
    requires Chained(ds, fs) && i < |ds| && Flushed(ds, 0)
    ensures ds[i].Sent() == Through(fs[i..], ds[|ds| - 1].fed)
    decreases |ds| - i
  {
    assert fs[i..][1..] == fs[i + 1..];
    if i + 1 < |ds| {
      FlushedChain(ds, fs, i + 1);
      assert Joined(ds, i);
    }
  }

  lemma {:induction false} EmittedWithinCapacity(ds: seq<Decoder>, fs: seq<bytes -> bytes>, i: nat, x: bytes)
    requires Chained(ds, fs) && i <= |ds| && ds[|ds| - 1].fed <= x
    ensures Emitted(ds[i..]) <= Capacity(fs[i..], x)
    decreases |ds| - i
  {
    if i < |ds| {
      ChainPrefix(ds, fs, i, x);
      EmittedWithinCapacity(ds, fs, i + 1, x);
      assert ds[i..][1..] == ds[i + 1..] && fs[i..][1..] == fs[i + 1..];
    }
  }

  lemma WithinCapacity(ds: seq<Decoder>, fs: seq<bytes -> bytes>, x: bytes)
    requires Chained(ds, fs) && ds[|ds| - 1].fed <= x
    ensures Emitted(ds) <= Capacity(fs, x)
  {
    EmittedWithinCapacity(ds, fs, 0, x);
    assert ds[0..] == ds && fs[0..] == fs;
  }

  predicate AnyTail(ds: seq<Decoder>) {
    exists i :: 0 <= i < |ds| && ds[i].HasUnconsumedTail()
  }

  /** The decode of the chain as one function. */
  function Composed(fs: seq<bytes -> bytes>): bytes -> bytes {
    x => Through(fs, x)
  }

  /** A chain that has filled the limit, or has nothing pending in any link, has met the contract of one decoder. */
  lemma Delivered(ds: seq<Decoder>, fs: seq<bytes -> bytes>, fed: bytes, data: bytes, before: bytes, ret: bytes,
                  limit: int)
    requires Chained(ds, fs) && ds[|ds| - 1].fed == fed + data && ds[0].Sent() == before + ret
    requires limit < 0 || |ret| <= limit
    requires Flushed(ds, 0) || 0 <= limit == |ret|
    ensures Meets(Composed(fs), fed, |before|, data, limit, ret, AnyTail(ds))
  {
    var all := Through(fs, fed + data);
    assert fs[0..] == fs;
    ChainPrefix(ds, fs, 0, fed + data);
    assert before + ret <= all;
    assert all[|before|..][..|ret|] == ret;
    if !AnyTail(ds) {
      assert Flushed(ds, 0);
    }
    if Flushed(ds, 0) {
      FlushedChain(ds, fs, 0);
    }
  }

  ghost predicate AllValid(ds: seq<Decoder>) {
    forall i :: 0 <= i < |ds| ==> ds[i].Valid()
  }

  /** The turns of the links below `i`, one after another: the links after them, what comes out, and whether any of them
      gave data. */
  function Turns(ds: seq<Decoder>, i: nat, data: bytes, limit: int, any: bool): (r: (seq<Decoder>, bytes, bool))
    requires i <= |ds| && AllValid(ds)
    ensures |r.0| == |ds| && AllValid(r.0) && forall j :: i <= j < |ds| ==> r.0[j] == ds[j]
    decreases i
  {
    if i == 0 then (ds, data, any)
    else
      var (d, out) := ds[i - 1].Decompress(data, limit);
      Turns(ds[i - 1 := d], i - 1, out, limit, any || |out| > 0)
  }

  /** What the turns come to: the pass goes on to its end, and reports no data only when nothing is left pending. */
  ghost predicate PassKeeps(ds: seq<Decoder>, i: nat, data: bytes, limit: int, any: bool) {
    && (i < |ds| ==> (limit >= 0 ==> |data| <= limit) && (!any ==> data == []))
    && (limit < 0 || !any ==> Flushed(ds, i))
  }

  /** One turn. */
  lemma TurnKeeps(ds: seq<Decoder>, fs: seq<bytes -> bytes>, i: nat, data: bytes, limit: int, any: bool)
    requires 0 < i <= |ds| && Passing(ds, fs, i, data) && PassKeeps(ds, i, data, limit, any) && AllValid(ds)
    requires limit != 0
    ensures var (d, out) := ds[i - 1].Decompress(data, limit);
            var es, more := ds[i - 1 := d], any || |out| > 0;
            && Passing(es, fs, i - 1, out) && PassKeeps(es, i - 1, out, limit, more)
            && Emitted(es) >= Emitted(ds) + (if more && !any then 1 else 0)
            && HasSent(d, ds[i - 1].Sent() + out) && d.fed == ds[i - 1].fed + data
  {
    hide Passing, Emitted, HasSent, Codec.Decoder.Decompress, Codec.Decoder.Sent, Codec.Meets, Flushed;
    PassStep(ds, fs, i - 1, data, limit);
  }

  lemma {:induction false} TurnsKeep(ds: seq<Decoder>, fs: seq<bytes -> bytes>, i: nat, data: bytes, limit: int,
                                     any: bool)
    requires Passing(ds, fs, i, data) && PassKeeps(ds, i, data, limit, any) && limit != 0
    ensures AllValid(ds)
    ensures var (es, out, more) := Turns(ds, i, data, limit, any);
            && Passing(es, fs, 0, out) && PassKeeps(es, 0, out, limit, more)
            && Emitted(es) >= Emitted(ds) + (if more && !any then 1 else 0)
            && (i > 0 ==> HasSent(es[0], ds[0].Sent() + out))
    decreases i
  {
    LinksValid(ds, fs, i, data);
    if i == 0 {
    } else {
      hide Passing, Flushed, Emitted, HasSent, Codec.Decoder.Decompress, Codec.Decoder.Sent, Codec.Meets, AllValid,
        PassKeeps;
      TurnKeeps(ds, fs, i, data, limit, any);
      TurnsFirst(ds, i, data, limit, any);
      hide Turns;
      var (d, out) := ds[i - 1].Decompress(data, limit);
      TurnsKeep(ds[i - 1 := d], fs, i - 1, out, limit, any || |out| > 0);
      if i == 1 {
        NoTurns(ds[0 := d], out, limit, any || |out| > 0);
      }
    }
  }

  /** The last link is fed what the chain is fed. */
  lemma TurnsFeed(ds: seq<Decoder>, data: bytes, limit: int)
    requires 0 < |ds| && AllValid(ds)
    ensures Turns(ds, |ds|, data, limit, false).0[|ds| - 1].fed == ds[|ds| - 1].fed + data
  {
    TurnsFirst(ds, |ds|, data, limit, false);
    hide Turns, Codec.Meets, Codec.Decoder.Valid;
  }

  lemma NoTurns(ds: seq<Decoder>, data: bytes, limit: int, any: bool)
    requires AllValid(ds)
    ensures Turns(ds, 0, data, limit, any) == (ds, data, any)
  {
  }

  lemma LinksValid(ds: seq<Decoder>, fs: seq<bytes -> bytes>, i: nat, data: bytes)
    requires Passing(ds, fs, i, data)
    ensures AllValid(ds) && i <= |ds| && |ds| > 0
  {
  }

  lemma TurnsFirst(ds: seq<Decoder>, i: nat, data: bytes, limit: int, any: bool)
    requires 0 < i <= |ds| && AllValid(ds)
    ensures var (d, out) := ds[i - 1].Decompress(data, limit);
            AllValid(ds[i - 1 := d])
            && Turns(ds, i, data, limit, any) == Turns(ds[i - 1 := d], i - 1, out, limit, any || |out| > 0)
  {
  }

  /** One pass over a chain: the chain has been fed the input and has emitted the data; no data is reported only when
      nothing is pending in any link. */
  ghost predicate PassDoes(ds: seq<Decoder>, fs: seq<bytes -> bytes>, input: bytes, limit: int,
                           es: seq<Decoder>, data: bytes, any: bool) {
    && AllValid(ds) && (es, data, any) == Turns(ds, |ds|, input, limit, false)
    && Chained(ds, fs) && Chained(es, fs) && |es| == |ds|
    && es[|es| - 1].fed == ds[|ds| - 1].fed + input && es[0].Sent() == ds[0].Sent() + data
    && (limit >= 0 ==> |data| <= limit)
    && Emitted(es) >= Emitted(ds) + (if any then 1 else 0)
    && (!any ==> data == [] && Flushed(es, 0))
    && (limit < 0 ==> Flushed(es, 0))
  }

  lemma OnePass(ds: seq<Decoder>, fs: seq<bytes -> bytes>, input: bytes, limit: int)
    requires Chained(ds, fs) && limit != 0
    ensures AllValid(ds)
    ensures var (es, data, any) := Turns(ds, |ds|, input, limit, false); PassDoes(ds, fs, input, limit, es, data, any)
  {
    PassEnds(ds, fs, input);
    assert PassKeeps(ds, |ds|, input, limit, false);
    TurnsKeep(ds, fs, |ds|, input, limit, false);
    TurnsFeed(ds, input, limit);
    var (es, data, any) := Turns(ds, |ds|, input, limit, false);
    PassEnds(es, fs, data);
    SentSo(es[0], ds[0].Sent() + data);
    hide Turns, Passing, HasSent, Flushed, Emitted;
  }

  /** Passes until the limit is filled or a whole pass yields nothing. */
  ghost function UpTo(ds: seq<Decoder>, fs: seq<bytes -> bytes>, data: bytes, maxLength: nat, ret: bytes):
      (r: (seq<Decoder>, bytes))
    requires Chained(ds, fs) && |ret| < maxLength
    ensures Chained(r.0, fs)
    decreases Capacity(fs, ds[|ds| - 1].fed + data) - Emitted(ds)
  {
    OnePass(ds, fs, data, maxLength - |ret|);
    var (es, out, any) := Turns(ds, |ds|, data, maxLength - |ret|, false);
    WithinCapacity(es, fs, ds[|ds| - 1].fed + data);
    AddNothing(ds[|ds| - 1].fed + data);
    if !any || |ret + out| >= maxLength then (es, ret + out) else UpTo(es, fs, [], maxLength, ret + out)
  }

  /** What the links can still put out. */
  ghost function Room(ds: seq<Decoder>, fs: seq<bytes -> bytes>, data: bytes): int
    requires ds != []
  {
    Capacity(fs, ds[|ds| - 1].fed + data) - Emitted(ds)
  }

  /** What one pass is for the passes to come. */
  lemma UpToStep(ds: seq<Decoder>, fs: seq<bytes -> bytes>, data: bytes, maxLength: nat, ret: bytes,
                 es: seq<Decoder>, out: bytes, any: bool)
    requires Chained(ds, fs) && |ret| < maxLength && PassDoes(ds, fs, data, maxLength - |ret|, es, out, any)
    ensures Chained(es, fs) && |es| == |ds| > 0 && |ret + out| <= maxLength && (!any ==> Flushed(es, 0))
    ensures es[|es| - 1].fed + [] == ds[|ds| - 1].fed + data && es[0].Sent() == ds[0].Sent() + out
    ensures 0 <= Room(es, fs, []) && (any ==> Room(es, fs, []) < Room(ds, fs, data))
    ensures UpTo(ds, fs, data, maxLength, ret) ==
            if !any || |ret + out| >= maxLength then (es, ret + out) else UpTo(es, fs, [], maxLength, ret + out)
  {
    WithinCapacity(es, fs, ds[|ds| - 1].fed + data);
    AddNothing(es[|es| - 1].fed);
    hide Flushed, Emitted, Capacity, Turns, Joined;
  }

  /** What all of them come to, `start` being what had come out before them. */
  lemma {:induction false} UpToKeeps(ds: seq<Decoder>, fs: seq<bytes -> bytes>, data: bytes, maxLength: nat, ret: bytes,
                                     start: bytes)
    requires Chained(ds, fs) && |ret| < maxLength && ds[0].Sent() == start + ret
    ensures var (es, all) := UpTo(ds, fs, data, maxLength, ret);
            && |es| == |ds| && es[|es| - 1].fed == ds[|ds| - 1].fed + data && es[0].Sent() == start + all
            && |all| <= maxLength && (|all| < maxLength ==> Flushed(es, 0))
    decreases Room(ds, fs, data)
  {
    OnePass(ds, fs, data, maxLength - |ret|);
    var (es, out, any) := Turns(ds, |ds|, data, maxLength - |ret|, false);
    UpToStep(ds, fs, data, maxLength, ret, es, out, any);
    hide Turns, UpTo, PassDoes, Room, Flushed, Joined, Codec.Decoder.Sent;
    AddNothing(es[|es| - 1].fed);
    Regroup(start, ret, out);
    if any && |ret + out| < maxLength {
      UpToKeeps(es, fs, [], maxLength, ret + out, start);
    }
  }

  /** One call: the links after it, and what it hands over. */
  ghost function CallOf(ds: seq<Decoder>, fs: seq<bytes -> bytes>, c: Call): (r: (seq<Decoder>, bytes))
    requires Chained(ds, fs)
    ensures Chained(r.0, fs)
  {
    OnePass(ds, fs, c.data, -1);
    if c.limit <= 0 then
      var (es, out, _) := Turns(ds, |ds|, c.data, -1, false);
      (es, out)
    else UpTo(ds, fs, c.data, c.limit, [])
  }

  class MultiDecoder {
    var decoders: seq<Decoder>
    ghost const codes: seq<bytes -> bytes>

    ghost predicate Valid()
      reads this
    {
      Chained(decoders, codes)
    }

    /** The chain seen as one decoder: its decode, the bytes fed to it and how many bytes it has emitted. */
    ghost function Fed(): bytes
      reads this
      requires Valid()
    {
      decoders[|decoders| - 1].fed
    }

    ghost function EmittedBytes(): nat
      reads this
      requires Valid()
    {
      decoders[0].emitted
    }

    predicate HasUnconsumedTail()
      reads this
    {
      AnyTail(decoders)
    }

    constructor (links: seq<Decoder>)
      requires |links| > 0
      requires forall i :: 0 <= i < |links| ==> links[i].Valid() && links[i].fed == [] && links[i].emitted == 0
      ensures Valid() && decoders == links && Fed() == [] && EmittedBytes() == 0
      ensures codes == Decodes(links)
    {
      decoders := links;
      codes := Decodes(links);
    }

    /** Lets every link take its turn once, from the last to the first. */
    method Pass(input: bytes, limit: int) returns (data: bytes, anyData: bool)
      requires Valid() && limit != 0
      modifies this
      ensures PassDoes(old(decoders), codes, input, limit, decoders, data, anyData)
    {
      OnePass(decoders, codes, input, limit);
      hide Chained, PassDoes, Codec.Decoder.Decompress, Codec.Decoder.Valid;
      data, anyData := input, false;
      var i := |decoders|;
      while i > 0
        invariant 0 <= i <= |decoders| && AllValid(decoders)
        invariant Turns(decoders, i, data, limit, anyData) == Turns(old(decoders), |old(decoders)|, input, limit, false)
      {
        TurnsFirst(decoders, i, data, limit, anyData);
        i := i - 1;
        var (d, out) := decoders[i].Decompress(data, limit);
        decoders := decoders[i := d];
        data := out;
        if |data| > 0 {
          anyData := true;
        }
      }
    }

    /** Passes until the limit is filled or a whole pass yields nothing. */
    method DecompressUpTo(input: bytes, maxLength: nat) returns (ret: bytes)
      requires Valid() && maxLength > 0
      modifies this
      ensures Valid() && Fed() == old(Fed()) + input
      ensures decoders[0].Sent() == old(decoders[0].Sent()) + ret
      ensures |ret| <= maxLength && (|ret| < maxLength ==> Flushed(decoders, 0))
      ensures (decoders, ret) == UpTo(old(decoders), codes, input, maxLength, [])
    {
      AddNothing(decoders[0].Sent());
      UpToKeeps(decoders, codes, input, maxLength, [], decoders[0].Sent());
      hide Flushed, Chained, Turns, UpTo, PassDoes, Room, Codec.Decoder.Sent, Codec.Decoder.Valid;
      var data := input;
      ret := [];
      while true
        invariant Valid() && decoders != [] && |ret| < maxLength
        invariant UpTo(decoders, codes, data, maxLength, ret) == UpTo(old(decoders), codes, input, maxLength, [])
        decreases Room(decoders, codes, data)
      {
        ghost var was, given, before := decoders, data, ret;
        var anyData;
        data, anyData := Pass(data, maxLength - |ret|);
        UpToStep(was, codes, given, maxLength, before, decoders, data, anyData);
        ret := ret + data;
        if !anyData || |ret| >= maxLength {
          return;
        }
        data := [];
      }
    }

    /** At most `maxLength` bytes, exactly those the chain's own decode has next; zero or less means no limit. */
    method Decompress(input: bytes, maxLength: int) returns (ret: bytes)
      requires Valid()
      modifies this
      ensures Valid() && Fed() == old(Fed()) + input && EmittedBytes() == old(EmittedBytes()) + |ret|
      ensures var limit := if maxLength <= 0 then -1 else maxLength;
              Meets(Composed(codes), old(Fed()), old(EmittedBytes()), input, limit, ret, HasUnconsumedTail())
      ensures maxLength <= 0 || |ret| < maxLength ==> Flushed(decoders, 0)
      ensures (decoders, ret) == CallOf(old(decoders), codes, Call(input, maxLength))
    {
      ghost var before := decoders[0].Sent();
      hide Turns, UpTo;
      if maxLength <= 0 {
        var anyData;
        ret, anyData := Pass(input, -1);
        Delivered(decoders, codes, old(Fed()), input, before, ret, -1);
      } else {
        ret := DecompressUpTo(input, maxLength);
        Delivered(decoders, codes, old(Fed()), input, before, ret, maxLength);
      }
    }

    /** Any series of calls: the answers the contract asks of one decoder for the whole chain. */
    method DecompressAll(calls: seq<Call>) returns (outs: seq<bytes>)
      requires Valid()
      modifies this
      ensures Valid() && Fed() == old(Fed()) + AllData(calls)
      ensures outs == Answers(Composed(codes), old(Fed()), old(EmittedBytes()), Unbounded(calls))
    {
      ghost var first := Fed();
      ghost var start := Answers(Composed(codes), first, EmittedBytes(), Unbounded(calls));
      hide Chained, Flushed, CallOf, Codec.Meets, Composed, Answers, AllData, Decoder.Valid, Decoder.HasUnconsumedTail,
        Unbounded, AnyTail;
      outs := [];
      StartAnswers(calls, start);
      AddNothing(Fed());
      for i := 0 to |calls|
        invariant Valid() && Fed() == first + AllData(calls[..i])
        invariant outs + Answers(Composed(codes), Fed(), EmittedBytes(), Unbounded(calls)[i..]) == start
      {
        ghost var emitted := EmittedBytes();
        var out := Decompress(calls[i].data, calls[i].limit);
        Counted(first, emitted, calls, i, outs, out);
        outs := outs + [out];
      }
      EndAnswers(Composed(codes), Fed(), EmittedBytes(), calls, Unbounded(calls), outs);
    }

    lemma Counted(first: bytes, emitted: nat, calls: seq<Call>, i: nat, outs: seq<bytes>, out: bytes)
      requires Valid() && i < |calls| && Fed() == first + AllData(calls[..i]) + calls[i].data
      requires EmittedBytes() == emitted + |out|
      requires var limit := if calls[i].limit <= 0 then -1 else calls[i].limit;
               Meets(Composed(codes), first + AllData(calls[..i]), emitted, calls[i].data, limit, out,
                     HasUnconsumedTail())
      ensures Fed() == first + AllData(calls[..i + 1])
      ensures outs + [out] + Answers(Composed(codes), Fed(), EmittedBytes(), Unbounded(calls)[i + 1..])
              == outs + Answers(Composed(codes), first + AllData(calls[..i]), emitted, Unbounded(calls)[i..])
    {
      hide Chained, Codec.Meets, Composed, Answers, AllData, AnyTail;
      Answered(Composed(codes), first, emitted, calls, Unbounded(calls), i, outs, out, HasUnconsumedTail());
    }
  }

  lemma StartAnswers(calls: seq<Call>, start: seq<bytes>)
    ensures calls[..0] == [] && AllData(calls[..0]) == [] && Unbounded(calls)[0..] == Unbounded(calls)
            && [] + start == start
  {
  }

  /** The answers of a chain join to what it decodes from all that was fed. */
  lemma ChainAnswersJoin(ds: seq<Decoder>, fs: seq<bytes -> bytes>, fed: bytes, emitted: nat, calls: seq<Call>)
    requires Links(ds, fs) && emitted <= |Through(fs, fed)|
    ensures var sent, x := Through(fs, fed)[..emitted] + Flatten(Answers(Composed(fs), fed, emitted, calls)),
            fed + AllData(calls);
            sent <= Through(fs, x) && (calls != [] && calls[|calls| - 1].limit < 0 ==> sent == Through(fs, x))
  {
    ComposedMonotone(ds, fs);
    MonotoneGrows(Composed(fs), fed, calls);
    AnswersJoin(Composed(fs), fed, emitted, calls);
  }

  /** The limits as a chain takes them: none for zero or less. */
  function Unbounded(calls: seq<Call>): (r: seq<Call>)
    ensures |r| == |calls| && AllData(r) == AllData(calls)
    ensures forall i :: 0 <= i < |r| ==> r[i] == calls[i].(limit := if calls[i].limit <= 0 then -1 else calls[i].limit)
  {
    if calls == [] then []
    else [calls[0].(limit := if calls[0].limit <= 0 then -1 else calls[0].limit)] + Unbounded(calls[1..])
  }

  lemma ComposedMonotone(ds: seq<Decoder>, fs: seq<bytes -> bytes>)
    requires Links(ds, fs)
    ensures Monotone(Composed(fs))
  {
    forall x, y | Extends(y, x)
      ensures Composed(fs)(x) <= Composed(fs)(y)
    {
      ThroughMonotone(fs, x, y);
    }
  }
}
