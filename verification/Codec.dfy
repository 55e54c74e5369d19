/** The contract every content decoder is held to, and the abstract decoder the response reads through. */
module Codec {
  import opened Bytes

  predicate Extends(y: bytes, x: bytes) {
    x <= y
  }

  /** Feeding more never takes back output. */
  ghost predicate Monotone(f: bytes -> bytes) {
    forall x, y {:trigger Extends(y, x)} :: Extends(y, x) ==> f(x) <= f(y)
  }

  /** One call `decompress(data, limit)` of a decoder for `f`, made after `fed` had been fed and `emitted` bytes
      had come out: it returns exactly what the limit allows, keeps `has_unconsumed_tail` raised while output is
      pending, and raises it only after a call that filled its limit. */
  ghost predicate Meets(f: bytes -> bytes, fed: bytes, emitted: nat, data: bytes, limit: int, out: bytes, tail: bool) {
    && emitted <= |f(fed + data)|
    && out == Take(f(fed + data)[emitted..], limit)
    && (emitted + |out| < |f(fed + data)| ==> tail)
    && (tail ==> 0 <= limit == |out|)
  }

  datatype Call = Call(data: bytes, limit: int)

  /** A decoder known only by its contract: `decode` maps everything fed to everything that may come out, and `lag`
      says when the decoder holds on to input although no output is pending (a trailer, say), whatever that depends on:
      the bytes fed, how many came out, or all the calls before. */
  datatype Decoder = Decoder(decode: bytes -> bytes, lag: (bytes, nat, seq<Call>) -> bool, fed: bytes, emitted: nat,
                             history: seq<Call>, capped: bool) {
    ghost predicate Valid() {
      && Monotone(decode)
      && emitted <= |decode(fed)|
      && (emitted < |decode(fed)| ==> capped)
    }

    predicate HasUnconsumedTail() {
      capped && (emitted < |decode(fed)| || lag(fed, emitted, history))
    }

    /** The output handed over so far. */
    ghost function Sent(): bytes
      requires emitted <= |decode(fed)|
    {
      decode(fed)[..emitted]
    }

    function Decompress(data: bytes, limit: int): (r: (Decoder, bytes))
      requires Valid()
      ensures r.0.Valid()
      ensures r.0.decode == decode && r.0.fed == fed + data && r.0.emitted == emitted + |r.1|
      ensures r.0.lag == lag && r.0.history == history + [Call(data, limit)]
      ensures Meets(decode, fed, emitted, data, limit, r.1, r.0.HasUnconsumedTail())
      ensures r.0.Sent() == Sent() + r.1
    {
      assert Extends(fed + data, fed);
      var out := Take(decode(fed + data)[emitted..], limit);
      (this.(fed := fed + data, emitted := emitted + |out|, history := history + [Call(data, limit)],
             capped := 0 <= limit == |out|), out)
    }
  }

  function Run(d: Decoder, calls: seq<Call>): (r: (Decoder, seq<bytes>))
    requires d.Valid()
    ensures r.0.Valid()
    decreases |calls|
  {
    if calls == [] then (d, []) else
    var (d1, out) := d.Decompress(calls[0].data, calls[0].limit);
    var (d2, outs) := Run(d1, calls[1..]);
    (d2, [out] + outs)
  }

  function AllData(calls: seq<Call>): bytes {
    if calls == [] then [] else calls[0].data + AllData(calls[1..])
  }

  /** What the contract has a call hand over when `x` is all that was fed. */
  function Owed(f: bytes -> bytes, x: bytes, emitted: nat, limit: int): bytes {
    if emitted <= |f(x)| then Take(f(x)[emitted..], limit) else []
  }

  /** What it has a series of calls hand over. */
  function Answers(f: bytes -> bytes, fed: bytes, emitted: nat, calls: seq<Call>): (outs: seq<bytes>)
    decreases |calls|
  {
    if calls == [] then []
    else
      var x, c := fed + calls[0].data, calls[0];
      var out := Owed(f, x, emitted, c.limit);
      [out] + Answers(f, x, emitted + |out|, calls[1..])
  }

  /** A call that keeps the contract gives the next answer. */
  lemma NextAnswer(f: bytes -> bytes, fed: bytes, emitted: nat, calls: seq<Call>, i: nat, out: bytes, tail: bool)
    requires i < |calls| && Meets(f, fed, emitted, calls[i].data, calls[i].limit, out, tail)
    ensures Answers(f, fed, emitted, calls[i..])
            == [out] + Answers(f, fed + calls[i].data, emitted + |out|, calls[i + 1..])
    ensures AllData(calls[i..]) == calls[i].data + AllData(calls[i + 1..])
  {
    assert calls[i..][1..] == calls[i + 1..];
  }

  lemma EndAnswers(f: bytes -> bytes, fed: bytes, emitted: nat, calls: seq<Call>, all: seq<Call>, outs: seq<bytes>)
    requires |all| == |calls|
    ensures calls[..|calls|] == calls && outs + Answers(f, fed, emitted, all[|calls|..]) == outs
  {
  }

  lemma {:induction false} DataSnoc(calls: seq<Call>, i: nat)
    requires i < |calls|
    ensures AllData(calls[..i + 1]) == AllData(calls[..i]) + calls[i].data
    decreases i
  {
    if i == 0 {
      assert calls[..1][1..] == [];
    } else {
      assert calls[..i + 1][1..] == calls[1..][..i] && calls[..i][1..] == calls[1..][..i - 1];
      DataSnoc(calls[1..], i - 1);
    }
  }

  lemma {:induction false} DataSplit(calls: seq<Call>, i: nat)
    requires i <= |calls|
    ensures AllData(calls) == AllData(calls[..i]) + AllData(calls[i..])
    decreases i
  {
    if i == 0 {
      assert calls[0..] == calls;
    } else {
      assert calls[..i][1..] == calls[1..][..i - 1] && calls[i..] == calls[1..][i - 1..];
      DataSplit(calls[1..], i - 1);
    }
  }

  /** One more call of a series has been answered. */
  lemma Answered(f: bytes -> bytes, start: bytes, emitted: nat, calls: seq<Call>, all: seq<Call>, i: nat,
                 outs: seq<bytes>, out: bytes, tail: bool)
    requires i < |calls| == |all| && all[i].data == calls[i].data
    requires Meets(f, start + AllData(calls[..i]), emitted, all[i].data, all[i].limit, out, tail)
    ensures start + AllData(calls[..i + 1]) == start + AllData(calls[..i]) + calls[i].data
    ensures outs + [out] + Answers(f, start + AllData(calls[..i + 1]), emitted + |out|, all[i + 1..])
         == outs + Answers(f, start + AllData(calls[..i]), emitted, all[i..])
  {
    NextAnswer(f, start + AllData(calls[..i]), emitted, all, i, out, tail);
    DataSnoc(calls, i);
    hide Meets, Answers, AllData;
    Regroup(start, AllData(calls[..i]), calls[i].data);
    Regroup(outs, [out], Answers(f, start + AllData(calls[..i + 1]), emitted + |out|, all[i + 1..]));
  }

  /** The decode only grows over a series of calls. */
  predicate GrowsOver(f: bytes -> bytes, fed: bytes, calls: seq<Call>)
    decreases |calls|
  {
    calls != [] ==> f(fed) <= f(fed + calls[0].data) && GrowsOver(f, fed + calls[0].data, calls[1..])
  }

  /** Then, whatever the cuts and the limits, nothing is lost, repeated or reordered: the answers continue what had come
      out, within the decode of everything fed, and make it complete when the last call has no limit. */
  lemma {:induction false} AnswersJoin(f: bytes -> bytes, fed: bytes, emitted: nat, calls: seq<Call>)
    requires emitted <= |f(fed)| && GrowsOver(f, fed, calls)
    ensures var sent := f(fed)[..emitted] + Flatten(Answers(f, fed, emitted, calls));
            && sent <= f(fed + AllData(calls))
            && (calls != [] && calls[|calls| - 1].limit < 0 ==> sent == f(fed + AllData(calls)))
    decreases |calls|
  {
    hide Owed;
    if calls == [] {
      assert fed + [] == fed;
      AddNothing(f(fed)[..emitted]);
    } else {
      var x, c, rest := fed + calls[0].data, calls[0], calls[1..];
      var out := Owed(f, x, emitted, c.limit);
      var outs := Answers(f, x, emitted + |out|, rest);
      OwedNext(f, fed, x, emitted, c.limit);
      AnswersJoin(f, x, emitted + |out|, rest);
      FlattenFirst(out, outs);
      Regroup(f(fed)[..emitted], out, Flatten(outs));
      Regroup(fed, c.data, AllData(rest));
      if rest == [] {
        AddNothing(f(x)[..emitted + |out|]);
        AddNothing(x);
      }
    }
  }

  lemma OwedNext(f: bytes -> bytes, fed: bytes, x: bytes, emitted: nat, limit: int)
    requires f(fed) <= f(x) && emitted <= |f(fed)|
    ensures var out := Owed(f, x, emitted, limit);
            && emitted + |out| <= |f(x)| && f(x)[..emitted + |out|] == f(fed)[..emitted] + out
            && (limit < 0 ==> emitted + |out| == |f(x)|)
  {
  }

  lemma {:induction false} MonotoneGrows(f: bytes -> bytes, fed: bytes, calls: seq<Call>)
    requires Monotone(f)
    ensures GrowsOver(f, fed, calls)
    decreases |calls|
  {
    if calls == [] {
    } else {
      assert Extends(fed + calls[0].data, fed);
      MonotoneGrows(f, fed + calls[0].data, calls[1..]);
    }
  }

  /** Over any run of calls of such a decoder: its answers, which continue what had come out before within the decode of
      everything fed. */
  lemma {:induction false} RunConserves(d: Decoder, calls: seq<Call>)
    requires d.Valid()
    ensures var r := Run(d, calls);
            && r.0.decode == d.decode && r.0.fed == d.fed + AllData(calls)
            && r.1 == Answers(d.decode, d.fed, d.emitted, calls)
            && d.Sent() + Flatten(r.1) == r.0.Sent() <= d.decode(d.fed + AllData(calls))
    decreases |calls|
  {
    hide Meets, Monotone;
    if calls != [] {
      var (d1, out) := d.Decompress(calls[0].data, calls[0].limit);
      RunConserves(d1, calls[1..]);
      var r := Run(d1, calls[1..]);
      assert Flatten([out] + r.1) == out + Flatten(r.1) by {
        assert ([out] + r.1)[1..] == r.1;
      }
      assert d.fed + calls[0].data + AllData(calls[1..]) == d.fed + AllData(calls);
    } else {
      assert d.fed + [] == d.fed;
    }
  }

  // ---- whatever keeps the contract is such a decoder -----------------------------------------------

  /** A record of calls, each of which kept the contract for `f`: what they returned, and the flag after each. */
  ghost predicate KeptContract(f: bytes -> bytes, fed: bytes, emitted: nat, calls: seq<Call>, outs: seq<bytes>,
                               flags: seq<bool>)
    decreases |calls|
  {
    && |outs| == |flags| == |calls|
    && (calls != [] ==>
          && Meets(f, fed, emitted, calls[0].data, calls[0].limit, outs[0], flags[0])
          && KeptContract(f, fed + calls[0].data, emitted + |outs[0]|, calls[1..], outs[1..], flags[1..]))
  }

  /** The flags a series of calls leaves, one after each. */
  function Flags(d: Decoder, calls: seq<Call>): seq<bool>
    requires d.Valid()
    decreases |calls|
  {
    if calls == [] then []
    else
      var e := d.Decompress(calls[0].data, calls[0].limit).0;
      [e.HasUnconsumedTail()] + Flags(e, calls[1..])
  }

  /** A decoder whose lag is recorded, call by call. */
  ghost predicate Lags(d: Decoder, flags: seq<bool>) {
    forall k: nat, x, n, h :: k < |flags| && |h| == |d.history| + k + 1 ==> d.lag(x, n, h) == flags[k]
  }

  lemma {:induction false} RecordedRuns(d: Decoder, calls: seq<Call>, outs: seq<bytes>, flags: seq<bool>)
    requires d.Valid() && KeptContract(d.decode, d.fed, d.emitted, calls, outs, flags) && Lags(d, flags)
    ensures Run(d, calls).1 == outs && Flags(d, calls) == flags
    decreases |calls|
  {
    if calls == [] {
    } else {
      var e := d.Decompress(calls[0].data, calls[0].limit).0;
      RecordedCall(d, calls[0], outs[0], flags);
      RecordedRuns(e, calls[1..], outs[1..], flags[1..]);
      hide Lags, Meets, Monotone;
      assert outs == [outs[0]] + outs[1..] && flags == [flags[0]] + flags[1..];
    }
  }

  lemma RecordedCall(d: Decoder, c: Call, out: bytes, flags: seq<bool>)
    requires d.Valid() && flags != [] && Meets(d.decode, d.fed, d.emitted, c.data, c.limit, out, flags[0])
             && Lags(d, flags)
    ensures var (e, data) := d.Decompress(c.data, c.limit);
            data == out && e.HasUnconsumedTail() == flags[0] && Lags(e, flags[1..])
  {
  }

  function Recorded(f: bytes -> bytes, flags: seq<bool>): Decoder {
    Decoder(f, (x: bytes, n: nat, h: seq<Call>) => 0 < |h| <= |flags| && flags[|h| - 1], [], 0, [], false)
  }

  /** Whatever is called again and again and keeps the contract for a monotone decode, returns and flags at every call
      what one of these decoders does. */
  lemma KeepersAreDecoders(f: bytes -> bytes, calls: seq<Call>, outs: seq<bytes>, flags: seq<bool>)
    requires Monotone(f) && f([]) == [] && KeptContract(f, [], 0, calls, outs, flags)
    ensures var d := Recorded(f, flags);
            d.Valid() && Run(d, calls).1 == outs && Flags(d, calls) == flags
  {
    RecordedRuns(Recorded(f, flags), calls, outs, flags);
  }
}
