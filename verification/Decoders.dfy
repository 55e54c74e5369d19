/** The deflate and gzip decoders and whole chains are decoders of the kind that responses are proved for. */
module Decoders {
  import opened Bytes
  import opened Codec
  import opened Zlib
  import opened Deflate
  import opened Gzip
  import opened GzipCalls
  import opened MultiDecoder
  import Response

  /** A call that keeps the contract for `f` is a call of any decoder whose decode has the same value there, if the tail
      flag says just that a filled limit left output pending, or input by the decoder's own lag. */
  lemma SameCall(d: Decoder, f: bytes -> bytes, x: bytes, input: bytes, limit: int, out: bytes, tail: bool)
    requires d.Valid() && x == d.fed + input && d.decode(x) == f(x) && limit != 0
    requires Meets(f, [], d.emitted, x, limit, out, tail)
    requires var lags := d.lag(x, d.emitted + |out|, d.history + [Call(input, limit)]);
             (tail ==> d.emitted + |out| < |f(x)| || lags) && (0 < limit == |out| && lags ==> tail)
    ensures var (e, data) := d.Decompress(input, limit);
            data == out && e.fed == x && e.emitted == d.emitted + |out| && e.HasUnconsumedTail() == tail
  {
    assert [] + x == x;
  }

  // ---- deflate -----------------------------------------------------------------------------------

  /** The longest prefix that is sound. */
  ghost function SoundPart(zlib: Format, raw: Format, x: bytes): (p: bytes)
    ensures p <= x && (Sound(zlib, raw, x) ==> p == x)
    decreases |x|
  {
    if x == [] || Sound(zlib, raw, x) then x else SoundPart(zlib, raw, x[..|x| - 1])
  }

  ghost function Inflated(zlib: Format, raw: Format): bytes -> bytes {
    x => Deflated(zlib, raw)(SoundPart(zlib, raw, x))
  }

  /** No prefix that is sound is longer. */
  lemma {:induction false} SoundPartLongest(zlib: Format, raw: Format, x: bytes, p: bytes)
    requires p <= x && Sound(zlib, raw, p)
    ensures p <= SoundPart(zlib, raw, x)
    decreases |x|
  {
    if x == [] || Sound(zlib, raw, x) {
    } else {
      assert p != x;
      SoundPartLongest(zlib, raw, x[..|x| - 1], p);
    }
  }

  lemma {:induction false} SoundPartSound(zlib: Format, raw: Format, x: bytes)
    requires zlib.Lawful()
    ensures Sound(zlib, raw, SoundPart(zlib, raw, x))
    decreases |x|
  {
    if x == [] {
      DecodesNothing(zlib);
    } else if Sound(zlib, raw, x) {
    } else {
      SoundPartSound(zlib, raw, x[..|x| - 1]);
    }
  }

  lemma InflatedMonotone(zlib: Format, raw: Format)
    requires zlib.Lawful() && raw.Lawful()
    ensures Monotone(Inflated(zlib, raw))
  {
    forall x, y | Extends(y, x)
      ensures Inflated(zlib, raw)(x) <= Inflated(zlib, raw)(y)
    {
      var p, q := SoundPart(zlib, raw, x), SoundPart(zlib, raw, y);
      SoundPartSound(zlib, raw, x);
      SoundPartSound(zlib, raw, y);
      SoundPartLongest(zlib, raw, y, p);
      assert q == p + q[|p|..];
      DeflatedExtends(zlib, raw, p, q[|p|..]);
    }
  }

  const Prompt: (bytes, nat, seq<Call>) -> bool := (x, n, h) => false

  /** A new deflate decoder, known only by its contract. */
  ghost function NewDeflate(zlib: Format, raw: Format): Decoder {
    Decoder(Inflated(zlib, raw), Prompt, [], 0, [], false)
  }

  lemma NewDeflateValid(zlib: Format, raw: Format)
    requires zlib.Lawful() && raw.Lawful()
    ensures NewDeflate(zlib, raw).Valid()
  {
    InflatedMonotone(zlib, raw);
    InflatedNothing(zlib, raw, []);
  }

  lemma InflatedSound(zlib: Format, raw: Format, x: bytes)
    ensures Sound(zlib, raw, x) ==> Inflated(zlib, raw)(x) == Deflated(zlib, raw)(x)
  {
    hide Sound;
    var p := SoundPart(zlib, raw, x);
    assert Inflated(zlib, raw)(x) == Deflated(zlib, raw)(p);
    if Sound(zlib, raw, x) {
      assert p == x;
    }
  }

  lemma InflatedNothing(zlib: Format, raw: Format, none: bytes)
    requires zlib.Lawful() && raw.Lawful() && none == []
    ensures Inflated(zlib, raw)(none) == []
  {
    DecodesNothing(zlib);
    assert Sound(zlib, raw, none) && Deflated(zlib, raw)(none) == zlib.Decode(none);
    InflatedSound(zlib, raw, none);
  }

  lemma DecodesNothing(f: Format)
    requires f.Lawful()
    ensures f.Decode([]) == [] && !f.Rejects([])
  {
    var none: bytes := [];
    assert none[..f.End(none)] == none;
  }

  /** The decoder and the contract agree on what was fed and handed over and on whether more is to be asked for. */
  ghost predicate DeflateIs(o: DeflateDecoder, d: Decoder)
    reads o
  {
    && o.Valid() && d.Valid() && d.decode == Inflated(o.zlib, o.raw) && d.lag == Prompt
    && d.fed == o.fed && d.emitted == o.emitted && d.HasUnconsumedTail() == o.HasUnconsumedTail()
  }

  method NewDeflateDecoder(zlib: Format, raw: Format) returns (o: DeflateDecoder)
    requires zlib.Lawful() && raw.Lawful()
    ensures fresh(o) && o.zlib == zlib && o.raw == raw && DeflateIs(o, NewDeflate(zlib, raw))
  {
    o := new DeflateDecoder(zlib, raw);
    NewDeflateValid(zlib, raw);
  }

  /** On a sound body every call with a limit other than zero is a call of such a decoder. */
  method DeflateCall(o: DeflateDecoder, input: bytes, limit: int, ghost d: Decoder) returns (r: DecodeResult)
    requires DeflateIs(o, d) && limit != 0 && Sound(o.zlib, o.raw, o.fed + input)
    modifies o
    ensures r.Decoded? && r.data == d.Decompress(input, limit).1 && DeflateIs(o, d.Decompress(input, limit).0)
  {
    hide Deflate.Sound, DeflateDecoder.Valid, DeflateDecoder.HasUnconsumedTail, Codec.Meets, Decoder.Valid,
      Decoder.HasUnconsumedTail;
    ghost var f := Deflated(o.zlib, o.raw);
    r := o.Decompress(input, limit);
    if o.HasUnconsumedTail() {
      o.TailIsPending();
    }
    InflatedSound(o.zlib, o.raw, o.fed);
    SameCall(d, f, o.fed, input, limit, r.data, o.HasUnconsumedTail());
  }

  lemma {:induction false} SoundAnswers(zlib: Format, raw: Format, fed: bytes, emitted: nat, calls: seq<Call>)
    requires zlib.Lawful() && raw.Lawful() && Sound(zlib, raw, fed + AllData(calls))
    ensures Answers(Deflated(zlib, raw), fed, emitted, calls) == Answers(Inflated(zlib, raw), fed, emitted, calls)
    decreases |calls|
  {
    hide Sound, Deflated, Inflated, Zlib.Format.Lawful;
    if calls == [] {
    } else {
      var x, f, g := fed + calls[0].data, Deflated(zlib, raw), Inflated(zlib, raw);
      Regroup(fed, calls[0].data, AllData(calls[1..]));
      DeflatedExtends(zlib, raw, x, AllData(calls[1..]));
      InflatedSound(zlib, raw, x);
      FirstAnswer(f, fed, emitted, calls);
      FirstAnswer(g, fed, emitted, calls);
      SameOwed(f, g, x, emitted, calls[0].limit);
      SoundAnswers(zlib, raw, x, emitted + |Owed(f, x, emitted, calls[0].limit)|, calls[1..]);
      hide Answers, Owed;
    }
  }

  lemma FirstAnswer(f: bytes -> bytes, fed: bytes, emitted: nat, calls: seq<Call>)
    requires calls != []
    ensures var x, c := fed + calls[0].data, calls[0];
            var out := Owed(f, x, emitted, c.limit);
            Answers(f, fed, emitted, calls) == [out] + Answers(f, x, emitted + |out|, calls[1..])
  {
    hide Owed;
  }

  lemma SameOwed(f: bytes -> bytes, g: bytes -> bytes, x: bytes, emitted: nat, limit: int)
    requires f(x) == g(x)
    ensures Owed(f, x, emitted, limit) == Owed(g, x, emitted, limit)
  {
  }

  /** Any series of calls on a sound body returns what such a decoder returns. */
  method DeflateCalls(zlib: Format, raw: Format, calls: seq<Call>) returns (outs: seq<bytes>)
    requires zlib.Lawful() && raw.Lawful() && Sound(zlib, raw, AllData(calls))
    ensures NewDeflate(zlib, raw).Valid() && outs == Run(NewDeflate(zlib, raw), calls).1
  {
    NewDeflateValid(zlib, raw);
    assert [] + AllData(calls) == AllData(calls);
    SoundAnswers(zlib, raw, [], 0, calls);
    RunConserves(NewDeflate(zlib, raw), calls);
    hide DeflateDecoder.Valid, Sound, Decoder.Valid, Zlib.Format.Lawful, Inflated, Deflated, Answers, Run;
    var o := new DeflateDecoder(zlib, raw);
    outs := o.DecompressAll(calls);
  }

  /** So all that is ahead of a response with a sound deflate body is the body's decode. */
  lemma DeflateBody(zlib: Format, raw: Format, body: bytes)
    requires zlib.Lawful() && raw.Lawful() && Sound(zlib, raw, body)
    ensures NewDeflate(zlib, raw).Valid()
    ensures Response.Ahead(Some(NewDeflate(zlib, raw)), body) == Deflated(zlib, raw)(body)
  {
    NewDeflateValid(zlib, raw);
    InflatedSound(zlib, raw, body);
    assert [] + body == body;
    hide Sound, Inflated, Deflated, Decoder.Valid;
  }

  // ---- gzip --------------------------------------------------------------------------------------

  /** The longest prefix that is tame. */
  ghost function TamePart(f: Format, x: bytes): (p: bytes)
    ensures p <= x && (Tame(f, x, true) ==> p == x)
    decreases |x|
  {
    if x == [] || Tame(f, x, true) then x else TamePart(f, x[..|x| - 1])
  }

  ghost function Unzipped(f: Format): bytes -> bytes {
    x => Members(f, TamePart(f, x))
  }

  lemma {:induction false} TamePartLongest(f: Format, x: bytes, p: bytes)
    requires p <= x && Tame(f, p, true)
    ensures p <= TamePart(f, x)
    decreases |x|
  {
    hide Tame;
    if x == [] || Tame(f, x, true) {
    } else {
      assert p != x;
      TamePartLongest(f, x[..|x| - 1], p);
    }
  }

  lemma {:induction false} TamePartTame(f: Format, x: bytes)
    requires f.Lawful()
    ensures Tame(f, TamePart(f, x), true)
    decreases |x|
  {
    if x == [] {
      DecodesNothing(f);
    } else if Tame(f, x, true) {
    } else {
      hide Tame;
      TamePartTame(f, x[..|x| - 1]);
    }
  }

  lemma UnzippedGrows(f: Format, x: bytes, y: bytes)
    requires f.Lawful() && x <= y
    ensures Unzipped(f)(x) <= Unzipped(f)(y)
  {
    hide Tame, Members, Zlib.Format.Lawful;
    var p, q := TamePart(f, x), TamePart(f, y);
    TamePartTame(f, x);
    TamePartTame(f, y);
    TamePartLongest(f, y, p);
    assert q == p + q[|p|..];
    MembersExtend(f, p, q[|p|..], true);
    hide TamePart;
    assert Unzipped(f)(x) == Members(f, p) && Unzipped(f)(y) == Members(f, q);
  }

  lemma UnzippedMonotone(f: Format)
    requires f.Lawful()
    ensures Monotone(Unzipped(f))
  {
    hide Unzipped, Zlib.Format.Lawful;
    forall x, y | Extends(y, x)
      ensures Unzipped(f)(x) <= Unzipped(f)(y)
    {
      UnzippedGrows(f, x, y);
    }
  }

  lemma UnzippedTame(f: Format, x: bytes)
    ensures Tame(f, x, true) ==> Unzipped(f)(x) == Gunzip(f)(x) == Members(f, x)
  {
    hide Tame, Members;
    var p := TamePart(f, x);
    assert Unzipped(f)(x) == Members(f, p);
    if Tame(f, x, true) {
      assert p == x;
    }
  }

  /** Besides pending output, what raises the flag is that bytes are held: the output so far ends where whole members
      end, with more behind them. */
  ghost function Holds(f: Format): (bytes, nat, seq<Call>) -> bool {
    (x: bytes, n: nat, h: seq<Call>) => n <= |Members(f, x)| && FirstCut(f, x, Members(f, x)[..n], 0) < |x|
  }

  /** A new gzip decoder, known only by its contract. */
  ghost function NewGzip(f: Format): Decoder {
    Decoder(Unzipped(f), Holds(f), [], 0, [], false)
  }

  ghost predicate GzipIs(o: GzipDecoder, d: Decoder)
    reads o
  {
    && o.Valid() && d.Valid() && d.decode == Unzipped(o.fmt) && d.lag == Holds(o.fmt)
    && d.fed == o.fed && d.emitted == |o.sent| && d.HasUnconsumedTail() == o.HasUnconsumedTail()
  }

  lemma NewGzipValid(f: Format)
    requires f.Lawful()
    ensures NewGzip(f).Valid() && !NewGzip(f).HasUnconsumedTail()
  {
    UnzippedMonotone(f);
    MembersOfNothing(f);
    UnzippedTame(f, []);
    TamePartTame(f, []);
    hide Tame, Members, Unzipped, Holds;
  }

  method NewGzipDecoder(f: Format) returns (o: GzipDecoder)
    requires f.Lawful()
    ensures fresh(o) && o.fmt == f && GzipIs(o, NewGzip(f)) && !o.Holding() && NewGzip(f).Valid()
  {
    hide Tame, Members, Unzipped, Holds, Decoder.Valid, GzipDecoder.Valid, Zlib.Format.Lawful;
    o := new GzipDecoder(f);
    NewGzipValid(f);
  }

  lemma FlagSays(o: GzipDecoder, limit: int, out: bytes, h: seq<Call>)
    requires o.Valid() && Tame(o.fmt, o.fed, true) && o.HoldsIff(limit, out) && o.TailTells()
    ensures o.HasUnconsumedTail() ==> |o.sent| < |Members(o.fmt, o.fed)| || Holds(o.fmt)(o.fed, |o.sent|, h)
    ensures 0 < limit == |out| && Holds(o.fmt)(o.fed, |o.sent|, h) ==> o.HasUnconsumedTail()
  {
    o.SentIsPrefix();
    hide Tame, Members, FirstCut, GzipDecoder.Valid;
    assert Members(o.fmt, o.fed)[..|o.sent|] == o.sent;
    if o.Holding() {
      o.HoldingTail();
    }
  }

  /** On a tame stream every call with a limit other than zero that finds no bytes held is a call of such a decoder. */
  method GzipCall(o: GzipDecoder, input: bytes, limit: int, ghost d: Decoder) returns (r: DecodeResult)
    requires GzipIs(o, d) && limit != 0 && !o.Holding() && Tame(o.fmt, o.fed + input, true)
    modifies o
    ensures r.Decoded? && r.data == d.Decompress(input, limit).1 && GzipIs(o, d.Decompress(input, limit).0)
    ensures o.HoldsIff(limit, r.data)
  {
    hide Tame, GzipDecoder.Valid, GzipDecoder.HasUnconsumedTail, GzipDecoder.HoldsIff, GzipDecoder.TailTells,
      GzipDecoder.Always, GzipDecoder.Follows, Codec.Meets, Decoder.Valid, Decoder.HasUnconsumedTail, Members, Unzipped,
      Gunzip, Holds,
      Zlib.Inflate.Eof;
    r := o.Decompress(input, limit);
    UnzippedTame(o.fmt, o.fed);
    FlagSays(o, limit, r.data, d.history + [Call(input, limit)]);
    SameCall(d, Gunzip(o.fmt), o.fed, input, limit, r.data, o.HasUnconsumedTail());
  }

  /** While what is fed belongs to one member, no such call finds bytes held. */
  method GzipMemberCall(o: GzipDecoder, input: bytes, limit: int, ghost d: Decoder, ghost m: bytes)
      returns (r: DecodeResult)
    requires GzipIs(o, d) && limit != 0 && !o.Holding() && Complete(o.fmt, m) && o.fed + input <= m
    modifies o
    ensures r.Decoded? && r.data == d.Decompress(input, limit).1 && GzipIs(o, d.Decompress(input, limit).0)
    ensures !o.Holding() && o.fed == old(o.fed) + input
  {
    hide *;
    GzipFacts(o, d);
    MemberTame(o.fmt, m, o.fed + input);
    r := GzipCall(o, input, limit, d);
    NotHolding(o, d, input, limit, r.data, m);
  }

  lemma GzipFacts(o: GzipDecoder, d: Decoder)
    requires GzipIs(o, d)
    ensures o.fmt.Lawful() && d.Valid() && d.fed == o.fed
  {
  }

  lemma MemberTame(f: Format, m: bytes, x: bytes)
    requires f.Lawful() && Complete(f, m) && x <= m
    ensures Tame(f, x, true)
  {
    WholeOne(f, m);
    WholeTame(f, m, true);
    assert m == x + m[|x|..];
    hide Tame, Whole, Complete, Members, Zlib.Format.Lawful;
    TamePrefix(f, x, m[|x|..], true);
  }

  lemma NotHolding(o: GzipDecoder, d: Decoder, input: bytes, limit: int, out: bytes, m: bytes)
    requires d.Valid() && GzipIs(o, d.Decompress(input, limit).0) && out == d.Decompress(input, limit).1
    requires o.fmt.Lawful() && Complete(o.fmt, m) && d.fed + input <= m && o.HoldsIff(limit, out)
    ensures !o.Holding() && o.fed == d.fed + input
  {
    var n := FirstCut(o.fmt, o.fed, o.sent, 0);
    if 0 < limit == |out| && n < |o.fed| {
      NoCutInside(o.fmt, m, o.fed, o.sent, n);
    }
    hide Complete, GzipDecoder.Valid, Decoder.Valid, Codec.Meets, Cut;
  }

  /** All that is ahead of a response with a tame gzip body are the contents of its members. */
  lemma GzipBody(f: Format, body: bytes)
    requires f.Lawful() && Tame(f, body, true)
    ensures NewGzip(f).Valid() && Response.Ahead(Some(NewGzip(f)), body) == Members(f, body)
  {
    NewGzipValid(f);
    UnzippedTame(f, body);
    assert [] + body == body;
    hide Tame, Unzipped, Gunzip, Members, Decoder.Valid, Holds;
  }

  // ---- chains ------------------------------------------------------------------------------------

  /** Links that have not been called. */
  ghost predicate Unused(links: seq<Decoder>) {
    links != []
    && forall d :: d in links ==> d.Valid() && d.fed == [] && d.emitted == 0 && !d.HasUnconsumedTail()
  }

  lemma UnusedChained(links: seq<Decoder>)
    requires Unused(links)
    ensures Chained(links, Decodes(links)) && !AnyTail(links)
  {
    forall i | 0 <= i < |links| - 1
      ensures Joined(links, i)
    {
      assert links[i] in links && links[i + 1] in links;
    }
  }

  /** The links after a series of calls. */
  ghost function LinksAfter(links: seq<Decoder>, fs: seq<bytes -> bytes>, calls: seq<Call>): (r: seq<Decoder>)
    requires Chained(links, fs)
    ensures Chained(r, fs)
    decreases |calls|
  {
    if calls == [] then links
    else CallOf(LinksAfter(links, fs, calls[..|calls| - 1]), fs, calls[|calls| - 1]).0
  }

  /** What raises the flag of a chain is a tail that some link holds, which depends on all the calls before. */
  ghost function ChainLags(links: seq<Decoder>, fs: seq<bytes -> bytes>): (bytes, nat, seq<Call>) -> bool
    requires Chained(links, fs)
  {
    (x: bytes, n: nat, calls: seq<Call>) => AnyTail(LinksAfter(links, fs, calls))
  }

  /** A new chain, known only by its contract. */
  ghost function NewChain(links: seq<Decoder>): Decoder
    requires Unused(links)
  {
    UnusedChained(links);
    Decoder(Composed(Decodes(links)), ChainLags(links, Decodes(links)), [], 0, [], false)
  }

  lemma NewChainValid(links: seq<Decoder>)
    requires Unused(links)
    ensures NewChain(links).Valid() && !NewChain(links).HasUnconsumedTail()
  {
    UnusedChained(links);
    ComposedMonotone(links, Decodes(links));
    FlushedNew(links);
  }

  /** A chain that was never fed has nothing to put out. */
  lemma FlushedNew(links: seq<Decoder>)
    requires Unused(links)
    ensures Through(Decodes(links), []) == []
  {
    UnusedChained(links);
    hide Through;
    forall j | 0 <= j < |links|
      ensures links[j].emitted == |links[j].decode(links[j].fed)| && !links[j].HasUnconsumedTail()
    {
      assert links[j] in links;
    }
    FlushedChain(links, Decodes(links), 0);
    assert Decodes(links)[0..] == Decodes(links);
  }

  ghost predicate SameBooks(o: MultiDecoder, d: Decoder)
    reads o
  {
    && o.Valid() && d.Valid() && d.decode == Composed(o.codes)
    && d.fed == o.Fed() && d.emitted == o.EmittedBytes() && d.HasUnconsumedTail() == o.HasUnconsumedTail()
  }

  ghost predicate SameLinks(o: MultiDecoder, links: seq<Decoder>, d: Decoder)
    reads o
  {
    && Chained(links, o.codes)
    && d.lag == ChainLags(links, o.codes) && o.decoders == LinksAfter(links, o.codes, d.history)
  }

  /** The chain and the contract agree, the chain being where the calls so far have brought its links. */
  ghost predicate ChainIs(o: MultiDecoder, links: seq<Decoder>, d: Decoder)
    reads o
  {
    Unused(links) && o.codes == Decodes(links) && SameBooks(o, d) && SameLinks(o, links, d)
  }

  method NewChainDecoder(links: seq<Decoder>) returns (o: MultiDecoder)
    requires Unused(links)
    ensures fresh(o) && o.codes == Decodes(links) && ChainIs(o, links, NewChain(links))
  {
    hide *;
    UnusedParts(links);
    o := new MultiDecoder(links);
    NewIs(o, links);
  }

  lemma NewIs(o: MultiDecoder, links: seq<Decoder>)
    requires Unused(links) && o.Valid() && o.codes == Decodes(links) && o.decoders == links
    requires o.Fed() == [] && o.EmittedBytes() == 0
    ensures ChainIs(o, links, NewChain(links))
  {
    NewChainValid(links);
    UnusedChained(links);
    hide Chained, AnyTail, Decoder.Valid, Decoder.HasUnconsumedTail, Composed, Unused;
  }

  lemma UnusedParts(links: seq<Decoder>)
    requires Unused(links)
    ensures |links| > 0
    ensures forall i :: 0 <= i < |links| ==> links[i].Valid() && links[i].fed == [] && links[i].emitted == 0
  {
  }

  lemma LinksAfterOne(links: seq<Decoder>, fs: seq<bytes -> bytes>, calls: seq<Call>, c: Call)
    requires Chained(links, fs)
    ensures LinksAfter(links, fs, calls + [c]) == CallOf(LinksAfter(links, fs, calls), fs, c).0
  {
    assert (calls + [c])[..|calls|] == calls;
    hide CallOf, Chained;
  }

  /** Every call of a chain with a limit other than zero is a call of such a decoder. */
  method ChainCall(o: MultiDecoder, ghost links: seq<Decoder>, input: bytes, limit: int, ghost d: Decoder)
      returns (out: bytes)
    requires ChainIs(o, links, d) && limit != 0
    modifies o
    ensures out == d.Decompress(input, limit).1 && ChainIs(o, links, d.Decompress(input, limit).0)
  {
    hide Chained, AnyTail, CallOf, Flushed, Decoder.Valid, Decoder.HasUnconsumedTail, Codec.Meets, Composed, LinksAfter,
      Unused;
    ghost var fs, c := o.codes, Call(input, limit);
    out := o.Decompress(input, limit);
    LinksAfterOne(links, fs, d.history, c);
    LagSays(links, fs, o.Fed(), o.EmittedBytes(), d.history + [c]);
    JoinMeets(Composed(fs), d.fed, d.emitted, input, limit, out, o.HasUnconsumedTail());
    SameCall(d, Composed(fs), o.Fed(), input, limit, out, o.HasUnconsumedTail());
  }

  lemma LagSays(links: seq<Decoder>, fs: seq<bytes -> bytes>, x: bytes, n: nat, calls: seq<Call>)
    requires Chained(links, fs)
    ensures ChainLags(links, fs)(x, n, calls) == AnyTail(LinksAfter(links, fs, calls))
  {
  }

  /** The contract is the same for all limits that are none, and for what was fed in one piece. */
  lemma JoinMeets(f: bytes -> bytes, fed: bytes, emitted: nat, data: bytes, limit: int, out: bytes, tail: bool)
    requires Meets(f, fed, emitted, data, if limit <= 0 then -1 else limit, out, tail) && limit != 0
    ensures Meets(f, [], emitted, fed + data, limit, out, tail)
  {
    assert [] + (fed + data) == fed + data;
  }

  method ChainSeries(o: MultiDecoder, ghost links: seq<Decoder>, ghost start: Decoder, calls: seq<Call>)
      returns (outs: seq<bytes>)
    requires ChainIs(o, links, start) && start.Valid() && forall c :: c in calls ==> c.limit != 0
    modifies o
    ensures outs == Run(start, calls).1 && ChainIs(o, links, Run(start, calls).0)
  {
    hide *;
    ghost var d := start;
    outs := [];
    StartRun(d, calls);
    for i := 0 to |calls|
      invariant ChainIs(o, links, d) && Midway(start, calls, i, d, outs)
    {
      StepRun(start, calls, i, d, outs);
      var out := ChainCall(o, links, calls[i].data, calls[i].limit, d);
      d := d.Decompress(calls[i].data, calls[i].limit).0;
      outs := outs + [out];
    }
    EndRun(start, calls, d, outs);
  }

  /** Any series of such calls returns what such a decoder returns, and leaves the flag as it does. */
  method ChainCalls(links: seq<Decoder>, calls: seq<Call>) returns (outs: seq<bytes>, tail: bool)
    requires Unused(links) && forall c :: c in calls ==> c.limit != 0
    ensures NewChain(links).Valid()
    ensures var (d, all) := Run(NewChain(links), calls); outs == all && tail == d.HasUnconsumedTail()
  {
    hide *;
    NewChainValid(links);
    var o := NewChainDecoder(links);
    outs := ChainSeries(o, links, NewChain(links), calls);
    FlagIs(o, links, Run(NewChain(links), calls).0);
    tail := o.HasUnconsumedTail();
  }

  /** In the middle of a series: the calls left bring `d` to where all of them bring `start`. */
  ghost predicate Midway(start: Decoder, calls: seq<Call>, i: nat, d: Decoder, outs: seq<bytes>) {
    && start.Valid() && d.Valid() && i <= |calls|
    && Run(d, calls[i..]).0 == Run(start, calls).0 && outs + Run(d, calls[i..]).1 == Run(start, calls).1
  }

  lemma StartRun(d: Decoder, calls: seq<Call>)
    requires d.Valid()
    ensures Midway(d, calls, 0, d, [])
  {
    assert calls[0..] == calls && [] + Run(d, calls).1 == Run(d, calls).1;
    hide Decoder.Valid, Run;
  }

  lemma StepRun(start: Decoder, calls: seq<Call>, i: nat, d: Decoder, outs: seq<bytes>)
    requires Midway(start, calls, i, d, outs) && i < |calls|
    ensures d.Valid()
    ensures var (e, out) := d.Decompress(calls[i].data, calls[i].limit); Midway(start, calls, i + 1, e, outs + [out])
  {
    assert calls[i..][1..] == calls[i + 1..];
    var (e, out) := d.Decompress(calls[i].data, calls[i].limit);
    Regroup(outs, [out], Run(e, calls[i + 1..]).1);
    hide Decoder.Valid, Codec.Meets;
  }

  lemma EndRun(start: Decoder, calls: seq<Call>, d: Decoder, outs: seq<bytes>)
    requires Midway(start, calls, |calls|, d, outs)
    ensures start.Valid() && (d, outs) == Run(start, calls)
  {
    AddNothing(outs);
    hide Decoder.Valid;
  }

  lemma FlagIs(o: MultiDecoder, links: seq<Decoder>, d: Decoder)
    requires ChainIs(o, links, d)
    ensures o.HasUnconsumedTail() == d.HasUnconsumedTail()
  {
  }

  /** So all that is ahead of a response with such a chain is the composed decode of its body. */
  lemma ChainBody(links: seq<Decoder>, body: bytes)
    requires Unused(links)
    ensures NewChain(links).Valid() && Response.Ahead(Some(NewChain(links)), body) == Through(Decodes(links), body)
  {
    NewChainValid(links);
    assert [] + body == body;
    hide Unused, Through, Decodes, Decoder.Valid;
  }

  /** A body sent with deflate first and gzip second, as `Content-Encoding: deflate, gzip` says. */
  lemma TwoEncodings(zlib: Format, raw: Format, f: Format, body: bytes)
    requires zlib.Lawful() && raw.Lawful() && f.Lawful() && Tame(f, body, true) && Sound(zlib, raw, Members(f, body))
    ensures var links := [NewDeflate(zlib, raw), NewGzip(f)];
            && Unused(links) && NewChain(links).Valid()
            && Response.Ahead(Some(NewChain(links)), body) == Deflated(zlib, raw)(Members(f, body))
  {
    hide Sound, Tame, Members, Inflated, Deflated, Unzipped, Gunzip, Holds, NewChain, Through, Zlib.Format.Lawful;
    NewDeflateValid(zlib, raw);
    NewGzipValid(f);
    UnzippedTame(f, body);
    InflatedSound(zlib, raw, Members(f, body));
    TwoUnused(NewDeflate(zlib, raw), NewGzip(f));
    hide Unused, Decoder.Valid, Decoder.HasUnconsumedTail;
    ChainBody([NewDeflate(zlib, raw), NewGzip(f)], body);
    TwoThrough(Inflated(zlib, raw), Unzipped(f), body);
  }

  lemma TwoUnused(d: Decoder, e: Decoder)
    requires d.Valid() && d.fed == [] && d.emitted == 0 && !d.HasUnconsumedTail()
    requires e.Valid() && e.fed == [] && e.emitted == 0 && !e.HasUnconsumedTail()
    ensures Unused([d, e]) && Decodes([d, e]) == [d.decode, e.decode]
  {
    hide Decoder.Valid, Decoder.HasUnconsumedTail;
  }

  lemma TwoThrough(f: bytes -> bytes, g: bytes -> bytes, x: bytes)
    ensures Through([f, g], x) == f(g(x))
  {
    assert [f, g][1..] == [g] && [g][1..] == [];
    assert Through([g], x) == g(x);
  }
}
