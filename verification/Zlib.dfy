/** The zlib decompression object as an abstract machine, for any byte-serial compressed format: the raw, zlib-wrapped
    and gzip formats that response.py asks of zlib.decompressobj. */
module Zlib {
  import opened Bytes
  import opened Codec

  /** A compressed format: what a stream prefix decodes to, whether it is rejected, whether it is complete. */
  datatype Format = Format(out: bytes -> bytes, bad: bytes -> bool, fin: bytes -> bool) {
    ghost predicate Lawful() {
      Monotone(out) && out([]) == [] && !bad([]) && !fin([])
    }

    /** After `k` bytes of `x` the stream is neither complete nor rejected. */
    predicate Going(x: bytes, k: nat)
      requires k <= |x|
    {
      !fin(x[..k]) && !bad(x[..k])
    }

    /** How far decoding goes in `x` from position `i`: to the end, to where the stream is complete or rejected,
        or to the first byte whose output would pass `goal` (a negative goal means no limit). */
    function Reach(x: bytes, i: nat, goal: int): (p: nat)
      requires i <= |x|
      ensures i <= p <= |x|
      decreases |x| - i
    {
      if i == |x| || !Going(x, i) then i
      else if 0 <= goal < |out(x[..i + 1])| then i
      else Reach(x, i + 1, goal)
    }

    function End(x: bytes): (p: nat)
      ensures p <= |x|
    {
      Reach(x, 0, -1)
    }

    predicate Rejects(x: bytes) {
      bad(x[..End(x)])
    }

    /** All that a stream prefix decodes to. */
    function Decode(x: bytes): bytes {
      out(x[..End(x)])
    }

    /** Decoding runs through the first `n` bytes of `x` without stopping. */
    ghost predicate Open(x: bytes, n: nat)
      requires n <= |x|
    {
      forall k :: 0 <= k < n ==> Going(x, k)
    }
  }

  /** What `decompress` of a decoder that may refuse its input does: hand over bytes, or raise. */
  datatype DecodeResult = Decoded(data: bytes) | Rejected

  datatype Outcome = Ok(obj: Inflate, data: bytes) | ZlibError

  /** zlib.decompressobj: what it has consumed, how much of the output it has handed over, and what it holds. */
  datatype Inflate = Inflate(fmt: Format, taken: bytes, emitted: nat, tail: bytes, unused: bytes) {
    predicate Eof() {
      fmt.fin(taken)
    }

    /** `decompress(data, max_length)`; 0 means no limit. The caller passes the unconsumed tail back itself. */
    function Decompress(data: bytes, maxLength: nat): Outcome {
      if Eof() then
        Ok(this.(unused := unused + data), [])
      else
        var x := taken + data;
        assert x[..|taken|] == taken;
        var p := fmt.Reach(x, |taken|, if maxLength == 0 then -1 else emitted + maxLength);
        if fmt.bad(x[..p]) then
          ZlibError
        else
          var cut := p < |x| && !fmt.fin(x[..p]);
          var all := fmt.out(x[..if cut then p + 1 else p]);
          var data := if |all| < emitted then [] else Take(all[emitted..], if maxLength == 0 then -1 else maxLength);
          Ok(Inflate(fmt, x[..p], emitted + |data|,
                     if cut then x[p..] else [],
                     if cut then unused else unused + x[p..]), data)
    }

    /** Everything the object has been given, each byte once. */
    ghost function Fed(): bytes {
      taken + tail + unused
    }

    ghost predicate Valid() {
      && fmt.Lawful()
      && fmt.Open(taken, |taken|) && !fmt.bad(taken)
      && |fmt.out(taken)| <= emitted
      && (Eof() ==> tail == [])
      && (!Eof() ==> unused == [])
      && (if tail == [] then emitted == |fmt.out(taken)|
          else |fmt.out(taken + tail[..1])| > emitted)
    }
  }

  function NewInflate(fmt: Format): Inflate {
    Inflate(fmt, [], 0, [], [])
  }

  lemma {:induction false} ReachOpens(f: Format, x: bytes, i: nat, goal: int)
    requires i <= |x| && f.Open(x, i)
    ensures var p := f.Reach(x, i, goal);
            && f.Open(x, p)
            && (0 <= goal && i < p ==> |f.out(x[..p])| <= goal)
    decreases |x| - i
  {
    if !(i == |x| || !f.Going(x, i) || 0 <= goal < |f.out(x[..i + 1])|) {
      ReachOpens(f, x, i + 1, goal);
    }
  }

  /** Scanning on from inside an open stretch ends where scanning from the start ends. */
  lemma {:induction false} ReachFrom(f: Format, x: bytes, i: nat, j: nat)
    requires i <= j <= |x| && f.Open(x, j)
    ensures f.Reach(x, i, -1) == f.Reach(x, j, -1)
    decreases j - i
  {
    if i < j {
      ReachFrom(f, x, i + 1, j);
    }
  }

  /** A limited scan either goes all the way or is stopped by the limit. */
  lemma {:induction false} ReachLimited(f: Format, x: bytes, i: nat, goal: int)
    requires i <= |x|
    ensures var p, q := f.Reach(x, i, goal), f.Reach(x, i, -1);
            p == q || (p < q && 0 <= goal < |f.out(x[..p + 1])| && f.Going(x, p))
    decreases |x| - i
  {
    if i < |x| && f.Going(x, i) {
      ReachLimited(f, x, i + 1, goal);
    }
  }

  /** A scan that stops inside `x` stops there for every longer stream. */
  lemma {:induction false} ReachExtends(f: Format, x: bytes, y: bytes, i: nat)
    requires i <= |x|
    ensures var p, q := f.Reach(x, i, -1), f.Reach(x + y, i, -1);
            && p <= q && (!f.Going(x, p) ==> p == q)
    decreases |x| - i
  {
    assert (x + y)[..i] == x[..i];
    if i < |x| && f.Going(x, i) {
      ReachExtends(f, x, y, i + 1);
    }
  }

  lemma DecodeExtends(f: Format, x: bytes, y: bytes)
    requires f.Lawful()
    ensures f.Decode(x) <= f.Decode(x + y)
    ensures f.Rejects(x) ==> f.Rejects(x + y) && f.Decode(x + y) == f.Decode(x)
  {
    ReachExtends(f, x, y, 0);
    var p := f.End(x);
    assert (x + y)[..p] == x[..p];
    assert Extends((x + y)[..f.End(x + y)], x[..p]);
  }

  /** The part of a call's contract that speaks of the output. */
  ghost predicate Delivers(z: Inflate, x: bytes, maxLength: nat, r: Inflate, data: bytes) {
    && r.Valid() && r.fmt == z.fmt && r.Fed() == x && r.emitted == z.emitted + |data|
    && Meets(z.fmt.Decode, [], z.emitted, x, if maxLength == 0 then -1 else maxLength, data, r.tail != [])
  }

  lemma InflateAtEof(z: Inflate, data: bytes, maxLength: nat)
    requires z.Valid() && z.Eof()
    ensures var r := z.Decompress(z.tail + data, maxLength);
            r.Ok? && Delivers(z, z.Fed() + data, maxLength, r.obj, r.data)
  {
    var f, x, n := z.fmt, z.Fed() + data, |z.taken|;
    assert x[..n] == z.taken;
    forall k | 0 <= k < n ensures f.Going(x, k) {
      assert f.Going(z.taken, k) && x[..k] == z.taken[..k];
    }
    ReachFrom(f, x, 0, n);
  }

  /** The stream `z` sees when the tail is passed back, and how far it is known to be open. */
  lemma InflateStream(z: Inflate, data: bytes) returns (x: bytes, n: nat)
    requires z.Valid() && !z.Eof()
    ensures x == z.Fed() + data == z.taken + (z.tail + data) && n == |z.taken| <= |x| && x[..n] == z.taken
    ensures z.fmt.Open(x, n) && z.fmt.Going(x, n) && z.fmt.End(x) == z.fmt.Reach(x, n, -1)
    ensures n < |x| && z.tail != [] ==> |z.fmt.out(x[..n + 1])| > z.emitted
  {
    x, n := z.taken + (z.tail + data), |z.taken|;
    assert x == z.Fed() + data && x[..n] == z.taken;
    forall k | 0 <= k < n ensures z.fmt.Going(x, k) {
      assert z.fmt.Going(z.taken, k) && x[..k] == z.taken[..k];
    }
    ReachFrom(z.fmt, x, 0, n);
    if z.tail != [] {
      assert x[..n + 1] == z.taken + z.tail[..1];
    }
  }

  /** A call that ran as far as the stream goes, spelled out. */
  lemma RanResult(z: Inflate, x: bytes, given: bytes, maxLength: nat, p: nat)
    requires z.unused == [] && !z.Eof() && x == z.taken + given
    requires p == z.fmt.Reach(x, |z.taken|, if maxLength == 0 then -1 else z.emitted + maxLength)
    requires !z.fmt.bad(x[..p]) && (p == |x| || z.fmt.fin(x[..p]))
    requires z.emitted <= |z.fmt.out(x[..p])| && (maxLength > 0 ==> |z.fmt.out(x[..p])| <= z.emitted + maxLength)
    ensures z.Decompress(given, maxLength)
         == Ok(Inflate(z.fmt, x[..p], |z.fmt.out(x[..p])|, [], x[p..]), z.fmt.out(x[..p])[z.emitted..])
  {
    hide Format.Reach;
    assert x[..|z.taken|] == z.taken;
    assert [] + x[p..] == x[p..];
  }

  lemma RanDelivers(z: Inflate, x: bytes, maxLength: nat)
    requires var f, p := z.fmt, z.fmt.End(x);
             && f.Lawful() && f.Open(x, p) && !f.bad(x[..p]) && (p == |x| || f.fin(x[..p]))
             && z.emitted <= |f.out(x[..p])| && (maxLength > 0 ==> |f.out(x[..p])| <= z.emitted + maxLength)
    ensures var out, p := z.fmt.Decode(x), z.fmt.End(x);
            Delivers(z, x, maxLength, Inflate(z.fmt, x[..p], |out|, [], x[p..]), out[z.emitted..])
  {
    var p := z.fmt.End(x);
    OpenPrefix(z.fmt, x, p);
    assert x[..p] + [] + x[p..] == x;
    assert [] + x == x;
  }

  lemma InflateRuns(z: Inflate, data: bytes, maxLength: nat, x: bytes, n: nat, goal: int)
    requires z.Valid() && !z.Eof() && x == z.taken + (z.tail + data) && n == |z.taken| && x[..n] == z.taken
    requires z.fmt.Open(x, n) && z.fmt.Going(x, n) && z.fmt.End(x) == z.fmt.Reach(x, n, -1)
    requires n < |x| && z.tail != [] ==> |z.fmt.out(x[..n + 1])| > z.emitted
    requires goal == if maxLength == 0 then -1 else z.emitted + maxLength
    requires z.fmt.Reach(x, n, goal) == z.fmt.End(x) && !z.fmt.bad(x[..z.fmt.End(x)])
    ensures var r := z.Decompress(z.tail + data, maxLength);
            r.Ok? && Delivers(z, x, maxLength, r.obj, r.data)
  {
    var f, p := z.fmt, z.fmt.End(x);
    ReachOpens(f, x, n, goal);
    ReachStop(f, x, n);
    assert Extends(x[..p], x[..n]);
    assert z.tail != [] ==> Extends(x[..p], x[..n + 1]);
    RanResult(z, x, z.tail + data, maxLength, p);
    RanDelivers(z, x, maxLength);
  }

  lemma {:induction false} ReachStop(f: Format, x: bytes, i: nat)
    requires i <= |x|
    ensures var p := f.Reach(x, i, -1); p == |x| || !f.Going(x, p)
    ensures i < |x| && f.Going(x, i) ==> i < f.Reach(x, i, -1)
    decreases |x| - i
  {
    if i < |x| && f.Going(x, i) {
      ReachStop(f, x, i + 1);
    }
  }

  lemma OpenPrefix(f: Format, x: bytes, n: nat)
    requires n <= |x| && f.Open(x, n)
    ensures f.Open(x[..n], n)
  {
    forall k | 0 <= k < n ensures f.Going(x[..n], k) {
      assert f.Going(x, k) && x[..n][..k] == x[..k];
    }
  }

  lemma StoppedDelivers(z: Inflate, x: bytes, maxLength: nat, p: nat)
    requires var f, goal := z.fmt, z.emitted + maxLength;
             && f.Lawful() && maxLength > 0 && p < f.End(x) && f.Open(x, p) && f.Going(x, p)
             && |f.out(x[..p])| <= goal < |f.out(x[..p + 1])|
    ensures var goal := z.emitted + maxLength;
            Delivers(z, x, maxLength, Inflate(z.fmt, x[..p], goal, x[p..], []), z.fmt.out(x[..p + 1])[z.emitted..goal])
  {
    var f, goal := z.fmt, z.emitted + maxLength;
    var r := Inflate(f, x[..p], goal, x[p..], []);
    assert r.taken + r.tail[..1] == x[..p + 1];
    assert r.taken + r.tail + [] == x;
    OpenPrefix(f, x, p);
    assert Extends(x[..f.End(x)], x[..p + 1]);
    assert f.Decode(x)[z.emitted..][..maxLength] == f.out(x[..p + 1])[z.emitted..goal];
    assert [] + x == x;
  }

  /** A call stopped by its limit, spelled out. */
  lemma StoppedResult(z: Inflate, x: bytes, given: bytes, maxLength: nat, p: nat)
    requires z.unused == [] && !z.Eof() && maxLength > 0 && x == z.taken + given
    requires p == z.fmt.Reach(x, |z.taken|, z.emitted + maxLength)
    requires p < |x| && z.fmt.Going(x, p) && z.emitted + maxLength < |z.fmt.out(x[..p + 1])|
    ensures z.Decompress(given, maxLength)
         == Ok(Inflate(z.fmt, x[..p], z.emitted + maxLength, x[p..], []),
               z.fmt.out(x[..p + 1])[z.emitted..z.emitted + maxLength])
  {
    hide Format.Reach;
    assert x[..|z.taken|] == z.taken;
    var all := z.fmt.out(x[..p + 1]);
    assert all[z.emitted..][..maxLength] == all[z.emitted..z.emitted + maxLength];
  }

  lemma InflateStops(z: Inflate, data: bytes, maxLength: nat)
    requires z.Valid() && !z.Eof() && maxLength > 0
    requires var x := z.taken + (z.tail + data);
             z.fmt.Reach(x, |z.taken|, z.emitted + maxLength) < z.fmt.Reach(x, |z.taken|, -1)
    ensures var r := z.Decompress(z.tail + data, maxLength);
            r.Ok? && Delivers(z, z.Fed() + data, maxLength, r.obj, r.data)
  {
    var f := z.fmt;
    var x, n := InflateStream(z, data);
    var goal := z.emitted + maxLength;
    var p := f.Reach(x, n, goal);
    ReachLimited(f, x, n, goal);
    StoppedResult(z, x, z.tail + data, maxLength, p);
    ReachOpens(f, x, n, goal);
    StoppedDelivers(z, x, maxLength, p);
  }

  /** One call with the tail passed back: the object has then been given `data` as well, it hands over exactly what
      the limit allows of the decode, and it fails only on a stream the format rejects. */
  lemma InflateStep(z: Inflate, data: bytes, maxLength: nat)
    requires z.Valid()
    ensures var r := z.Decompress(z.tail + data, maxLength);
            if r.Ok? then Delivers(z, z.Fed() + data, maxLength, r.obj, r.data) else z.fmt.Rejects(z.Fed() + data)
  {
    if z.Eof() {
      InflateAtEof(z, data, maxLength);
    } else {
      var x, n := InflateStream(z, data);
      var goal := if maxLength == 0 then -1 else z.emitted + maxLength;
      ReachLimited(z.fmt, x, n, goal);
      if z.fmt.Reach(x, n, goal) != z.fmt.End(x) {
        InflateStops(z, data, maxLength);
      } else if !z.fmt.bad(x[..z.fmt.End(x)]) {
        InflateRuns(z, data, maxLength, x, n, goal);
      }
    }
  }

  /** With nothing held back, all of the decode has been handed over. */
  lemma InflateDrained(z: Inflate)
    requires z.Valid() && z.tail == []
    ensures z.fmt.Decode(z.Fed()) == z.fmt.out(z.taken) && z.emitted == |z.fmt.out(z.taken)| && !z.fmt.Rejects(z.Fed())
  {
    var f, x, n := z.fmt, z.Fed(), |z.taken|;
    assert x[..n] == z.taken;
    forall k | 0 <= k < n ensures f.Going(x, k) {
      assert f.Going(z.taken, k) && x[..k] == z.taken[..k];
    }
    ReachFrom(f, x, 0, n);
  }

  /** Input is held back only for output that is pending. */
  lemma InflateBound(z: Inflate)
    requires z.Valid()
    ensures z.emitted <= |z.fmt.Decode(z.Fed())| && (z.tail != [] ==> z.emitted < |z.fmt.Decode(z.Fed())|)
  {
    if z.tail == [] {
      InflateDrained(z);
    } else {
      var x, n := InflateStream(z, []);
      assert x == z.Fed();
      ReachStop(z.fmt, x, n);
      assert Extends(x[..z.fmt.End(x)], x[..n + 1]);
    }
  }
}
