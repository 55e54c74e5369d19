/** response.py DeflateDecoder: zlib-wrapped data, or raw deflate data when zlib rejects the beginning. */
module Deflate {
  import opened Bytes
  import opened Codec
  import opened Zlib

  /** A stream one of the two formats accepts as far as it goes, with a rejection by zlib coming before any output. */
  ghost predicate Sound(zlib: Format, raw: Format, x: bytes) {
    zlib.Rejects(x) ==> zlib.Decode(x) == [] && !raw.Rejects(x)
  }

  /** What a deflate body decodes to. */
  function Deflated(zlib: Format, raw: Format): bytes -> bytes {
    x => if zlib.Rejects(x) then raw.Decode(x) else zlib.Decode(x)
  }

  /** On a sound body, feeding more only adds to the decode. */
  lemma DeflatedExtends(zlib: Format, raw: Format, x: bytes, y: bytes)
    requires zlib.Lawful() && raw.Lawful() && Sound(zlib, raw, x + y)
    ensures Sound(zlib, raw, x) && Deflated(zlib, raw)(x) <= Deflated(zlib, raw)(x + y)
  {
    DecodeExtends(zlib, x, y);
    DecodeExtends(raw, x, y);
  }

  /** The object decodes the format the body has been found to have. */
  ghost predicate Settled(zlib: Format, raw: Format, z: Inflate) {
    && zlib.Lawful() && raw.Lawful() && z.Valid()
    && ((z.fmt == zlib && z.emitted > 0) || (z.fmt == raw && zlib.Rejects(z.Fed())))
  }

  /** Output once produced by the zlib format rules out a rejection of a sound stream, and a rejection is final. */
  lemma SettledDecode(zlib: Format, raw: Format, z: Inflate, more: bytes)
    requires Settled(zlib, raw, z) && Sound(zlib, raw, z.Fed() + more)
    ensures var x := z.Fed() + more;
            && Deflated(zlib, raw)(x) == z.fmt.Decode(x) && !z.fmt.Rejects(x)
            && z.emitted <= |z.fmt.Decode(x)|
  {
    InflateBound(z);
    DecodeExtends(zlib, z.Fed(), more);
    DecodeExtends(z.fmt, z.Fed(), more);
  }

  /** A call once the format is settled, or with everything fed so far replayed to a new raw decompressor. */
  lemma SettledCall(zlib: Format, raw: Format, z: Inflate, data: bytes, limit: nat)
    requires zlib.Lawful() && raw.Lawful() && z.Valid()
    requires Settled(zlib, raw, z) || (z == NewInflate(raw) && zlib.Rejects(z.Fed() + data))
    ensures var x, r := z.Fed() + data, z.Decompress(z.tail + data, limit);
            Sound(zlib, raw, x) ==>
              && r.Ok? && Settled(zlib, raw, r.obj) && r.obj.Fed() + [] == x && r.obj.emitted == z.emitted + |r.data|
              && Meets(Deflated(zlib, raw), [], z.emitted, x, if limit == 0 then -1 else limit, r.data,
                       r.obj.tail != [])
  {
    hide Zlib.Inflate.Decompress, Zlib.Format.Decode;
    InflateStep(z, data, limit);
    DecodeExtends(zlib, z.Fed(), data);
    if Sound(zlib, raw, z.Fed() + data) && Settled(zlib, raw, z) {
      SettledDecode(zlib, raw, z, data);
    }
  }

  class DeflateDecoder {
    const zlib: Format
    const raw: Format
    var firstTry: bool
    var firstTryData: bytes
    var unfed: bytes
    var obj: Inflate
    ghost var fed: bytes
    ghost var emitted: nat

    ghost predicate Valid()
      reads this
    {
      && obj.emitted == emitted
      && if firstTry then
           && zlib.Lawful() && raw.Lawful() && obj.Valid()
           && obj.fmt == zlib && obj.Fed() == firstTryData && fed == firstTryData + unfed
           && obj.tail == [] && emitted == 0
         else
           Settled(zlib, raw, obj) && fed == obj.Fed() + unfed
    }

    predicate HasUnconsumedTail()
      reads this
    {
      unfed != [] || (obj.tail != [] && !firstTry)
    }

    /** What a call has to show for itself on a sound body: `data` is what `limit` lets through of the decode of
        everything fed, from byte `from` on. */
    ghost predicate Keeps(from: nat, limit: int, r: DecodeResult)
      reads this
    {
      && r.Decoded? && Valid() && emitted == from + |r.data|
      && Meets(Deflated(zlib, raw), [], from, fed, limit, r.data, HasUnconsumedTail())
    }

    constructor (zlib: Format, raw: Format)
      requires zlib.Lawful() && raw.Lawful()
      ensures Valid() && fed == [] && emitted == 0 && this.zlib == zlib && this.raw == raw
    {
      this.zlib, this.raw := zlib, raw;
      firstTry, firstTryData, unfed := true, [], [];
      obj := NewInflate(zlib);
      fed, emitted := [], 0;
    }

    /** Any cut of the body, any limits, zero included: each call meets the contract of one decoder for
        `Deflated`, and a sound body is never refused. */
    method Decompress(input: bytes, maxLength: int) returns (r: DecodeResult)
      requires Valid()
      modifies this
      ensures fed == old(fed) + input && (maxLength != 0 ==> unfed == [])
      ensures Sound(zlib, raw, fed) ==> Keeps(old(emitted), maxLength, r)
    {
      hide Sound, Zlib.Inflate.Valid, Zlib.Format.Lawful, Zlib.Format.Rejects, Zlib.Format.Decode, Zlib.Inflate.Fed;
      fed := fed + input;
      var data := unfed + input;
      unfed := [];
      assert [] + fed == fed;
      if data == [] && obj.tail == [] {
        Idle(zlib, raw, obj, firstTry);
        assert fed == obj.Fed();
        return Decoded([]);
      }
      var limit: nat := 0;
      if maxLength > 0 {
        limit := maxLength;
      } else if maxLength == 0 {
        unfed := data;
        if !firstTry && Sound(zlib, raw, fed) {
          assert fed == obj.Fed() + data;
          SettledDecode(zlib, raw, obj, data);
        }
        return Decoded([]);
      }
      if firstTry {
        r := FirstTry(data, limit);
      } else {
        r := Continue(data, limit);
      }
    }

    /** A call before any output: zlib format first, and on its refusal everything fed so far again as raw deflate. */
    method FirstTry(data: bytes, limit: nat) returns (r: DecodeResult)
      requires firstTry && unfed == [] && obj.emitted == emitted == 0 && obj.tail == []
      requires zlib.Lawful() && raw.Lawful() && obj.Valid() && obj.fmt == zlib
      requires obj.Fed() == firstTryData && fed == firstTryData + data
      modifies this`obj, this`emitted, this`firstTry, this`firstTryData
      ensures Sound(zlib, raw, fed) ==> Keeps(0, if limit == 0 then -1 else limit, r)
    {
      hide Sound, Zlib.Inflate.Decompress, Zlib.Format.Rejects, Settled;
      firstTryData := firstTryData + data;
      InflateStep(obj, data, limit);
      assert obj.tail + data == data;
      match obj.Decompress(data, limit)
      case Ok(next, out) =>
        assert next.Fed() == fed;
        FirstOutput(zlib, raw, next, if limit == 0 then -1 else limit, out);
        obj, emitted := next, |out|;
        if out != [] {
          firstTry, firstTryData := false, [];
        }
        r := Decoded(out);
      case ZlibError =>
        firstTry := false;
        obj := NewInflate(raw);
        r := Continue(firstTryData, limit);
        firstTryData := [];
    }

    /** A call after the format has been settled; the object gets its own tail back first. */
    method Continue(data: bytes, limit: nat) returns (r: DecodeResult)
      requires !firstTry && unfed == [] && obj.emitted == emitted && fed == obj.Fed() + data
      requires zlib.Lawful() && raw.Lawful() && obj.Valid()
      requires Settled(zlib, raw, obj) || (obj == NewInflate(raw) && zlib.Rejects(fed))
      modifies this`obj, this`emitted
      ensures Sound(zlib, raw, fed) ==> Keeps(old(emitted), if limit == 0 then -1 else limit, r)
    {
      hide Sound, Settled, Zlib.Inflate.Decompress, Zlib.Inflate.Valid, Zlib.Inflate.Fed, Zlib.Format.Rejects,
        Codec.Meets;
      SettledCall(zlib, raw, obj, data, limit);
      match obj.Decompress(obj.tail + data, limit)
      case Ok(next, out) =>
        obj := next;
        emitted := emitted + |out|;
        r := Decoded(out);
      case ZlibError =>
        r := Rejected;
    }

    /** Any series of calls on a sound body: the answers the contract asks for. */
    method DecompressAll(calls: seq<Call>) returns (outs: seq<bytes>)
      requires Valid() && Sound(zlib, raw, fed + AllData(calls))
      modifies this
      ensures Valid() && fed == old(fed) + AllData(calls)
      ensures outs == Answers(Deflated(zlib, raw), old(fed), old(emitted), calls)
    {
      ghost var first, start := fed, Answers(Deflated(zlib, raw), fed, emitted, calls);
      ValidFormats();
      hide Sound, Valid, Keeps, Codec.Meets, Answers, AllData, Deflated, Zlib.Format.Lawful, HasUnconsumedTail;
      outs := [];
      StartAnswers(calls, start);
      AddNothing(fed);
      for i := 0 to |calls|
        invariant Valid() && fed == first + AllData(calls[..i])
        invariant outs + Answers(Deflated(zlib, raw), fed, emitted, calls[i..]) == start
      {
        ghost var from := emitted;
        SoundSoFar(zlib, raw, first, calls, i);
        var r := Decompress(calls[i].data, calls[i].limit);
        Counted(first, from, calls, i, outs, r);
        outs := outs + [r.data];
      }
      EndAnswers(Deflated(zlib, raw), fed, emitted, calls, calls, outs);
    }

    lemma Counted(first: bytes, from: nat, calls: seq<Call>, i: nat, outs: seq<bytes>, r: DecodeResult)
      requires i < |calls| && Keeps(from, calls[i].limit, r) && fed == first + AllData(calls[..i]) + calls[i].data
      ensures r.Decoded? && Valid() && fed == first + AllData(calls[..i + 1])
      ensures outs + [r.data] + Answers(Deflated(zlib, raw), fed, emitted, calls[i + 1..])
           == outs + Answers(Deflated(zlib, raw), first + AllData(calls[..i]), from, calls[i..])
    {
      hide Codec.Meets, Answers, AllData, Deflated, Valid;
      MeetsSplit(Deflated(zlib, raw), first + AllData(calls[..i]), from, calls[i], r.data, HasUnconsumedTail());
      Answered(Deflated(zlib, raw), first, from, calls, calls, i, outs, r.data, HasUnconsumedTail());
    }

    /** After a call with a limit other than zero, the tail flag is raised only over pending output. */
    lemma TailIsPending()
      requires Valid() && unfed == [] && Sound(zlib, raw, fed) && HasUnconsumedTail()
      ensures emitted < |Deflated(zlib, raw)(fed)|
    {
      assert obj.Fed() + [] == obj.Fed() == fed;
      SettledDecode(zlib, raw, obj, []);
      InflateBound(obj);
    }

    lemma ValidFormats()
      requires Valid()
      ensures zlib.Lawful() && raw.Lawful()
    {
    }
  }

  lemma StartAnswers(calls: seq<Call>, start: seq<bytes>)
    ensures calls[..0] == [] && AllData(calls[..0]) == [] && calls[0..] == calls && [] + start == start
  {
  }

  lemma MeetsSplit(f: bytes -> bytes, fed: bytes, emitted: nat, c: Call, out: bytes, tail: bool)
    requires Meets(f, [], emitted, fed + c.data, c.limit, out, tail)
    ensures Meets(f, fed, emitted, c.data, c.limit, out, tail)
  {
    assert [] + (fed + c.data) == fed + c.data;
  }

  lemma SoundSoFar(zlib: Format, raw: Format, fed: bytes, calls: seq<Call>, i: nat)
    requires zlib.Lawful() && raw.Lawful() && Sound(zlib, raw, fed + AllData(calls)) && i < |calls|
    ensures Sound(zlib, raw, fed + AllData(calls[..i]) + calls[i].data)
  {
    hide Sound, Zlib.Format.Lawful;
    DataSplit(calls, i + 1);
    DataSnoc(calls, i);
    Regroup(fed, AllData(calls[..i]), calls[i].data);
    Regroup(fed, AllData(calls[..i + 1]), AllData(calls[i + 1..]));
    DeflatedExtends(zlib, raw, fed + AllData(calls[..i + 1]), AllData(calls[i + 1..]));
  }

  lemma {:induction false} DeflatedGrows(zlib: Format, raw: Format, fed: bytes, calls: seq<Call>)
    requires zlib.Lawful() && raw.Lawful() && Sound(zlib, raw, fed + AllData(calls))
    ensures GrowsOver(Deflated(zlib, raw), fed, calls)
    decreases |calls|
  {
    hide Sound, Deflated, Zlib.Format.Lawful;
    if calls == [] {
    } else {
      Regroup(fed, calls[0].data, AllData(calls[1..]));
      DeflatedExtends(zlib, raw, fed + calls[0].data, AllData(calls[1..]));
      DeflatedExtends(zlib, raw, fed, calls[0].data);
      DeflatedGrows(zlib, raw, fed + calls[0].data, calls[1..]);
    }
  }

  /** The answers on a sound body join to its decode. */
  lemma DeflateAnswersJoin(zlib: Format, raw: Format, fed: bytes, emitted: nat, calls: seq<Call>)
    requires zlib.Lawful() && raw.Lawful() && Sound(zlib, raw, fed + AllData(calls))
             && emitted <= |Deflated(zlib, raw)(fed)|
    ensures var f, x := Deflated(zlib, raw), fed + AllData(calls);
            var sent := f(fed)[..emitted] + Flatten(Answers(f, fed, emitted, calls));
            sent <= f(x) && (calls != [] && calls[|calls| - 1].limit < 0 ==> sent == f(x))
  {
    DeflatedGrows(zlib, raw, fed, calls);
    AnswersJoin(Deflated(zlib, raw), fed, emitted, calls);
  }

  /** A call with nothing to feed and nothing held has nothing to hand over. */
  lemma Idle(zlib: Format, raw: Format, z: Inflate, first: bool)
    requires z.Valid() && z.tail == [] && (if first then z.fmt == zlib else Settled(zlib, raw, z))
    ensures Sound(zlib, raw, z.Fed()) ==> |Deflated(zlib, raw)(z.Fed())| == z.emitted
  {
    InflateDrained(z);
    if !first && Sound(zlib, raw, z.Fed()) {
      assert z.Fed() + [] == z.Fed();
      SettledDecode(zlib, raw, z, []);
    }
  }

  /** Whatever the zlib format yields at the first try is what the body decodes to. */
  lemma FirstOutput(zlib: Format, raw: Format, z: Inflate, limit: int, out: bytes)
    requires zlib.Lawful() && raw.Lawful() && z.Valid() && z.fmt == zlib && z.emitted == |out|
    requires Meets(zlib.Decode, [], 0, z.Fed(), limit, out, z.tail != []) && limit != 0
    ensures out == [] ==> z.tail == []
    ensures out != [] ==> Settled(zlib, raw, z)
    ensures Sound(zlib, raw, z.Fed()) ==> Meets(Deflated(zlib, raw), [], 0, z.Fed(), limit, out, z.tail != [])
  {
    assert [] + z.Fed() == z.Fed() == z.Fed() + [];
    if out == [] {
      InflateDrained(z);
    } else if Sound(zlib, raw, z.Fed()) {
      SettledDecode(zlib, raw, z, []);
    }
  }
}
