/** Series of calls of the gzip decoder: which cuts and limits keep the output right. */
module GzipCalls {
  import opened Bytes
  import opened Codec
  import opened Zlib
  import opened Gzip

  /** One call after another: the account in the end, and what the calls return. */
  ghost function Play(f: Format, a: Account, calls: seq<Call>): (r: (Account, seq<bytes>))
    requires a.at <= |a.fed|
    ensures r.0.at <= |r.0.fed| && |r.1| == |calls|
    decreases |calls|
  {
    if calls == [] then (a, [])
    else
      var (b, out) := Next(f, a, calls[0]);
      var (c, outs) := Play(f, b, calls[1..]);
      (c, [out] + outs)
  }

  /** The format never meets a rejected member after output, repeated bytes included. */
  ghost predicate TameRun(f: Format, a: Account, calls: seq<Call>)
    requires a.at <= |a.fed|
    decreases |calls|
  {
    calls != [] ==>
      var b := Next(f, a, calls[0]).0;
      Tame(f, b.fed, true) && TameRun(f, b, calls[1..])
  }

  /** Some call with a limit other than zero finds bytes held. */
  ghost predicate Trips(f: Format, a: Account, calls: seq<Call>)
    requires a.at <= |a.fed|
    decreases |calls|
  {
    calls != [] && ((a.held != [] && calls[0].limit != 0) || Trips(f, Next(f, a, calls[0]).0, calls[1..]))
  }

  /** The decoder does what the account says, call by call. */
  method DecodeCalls(fmt: Format, calls: seq<Call>) returns (outs: seq<bytes>, tail: bool)
    requires fmt.Lawful() && TameRun(fmt, NEW, calls)
    ensures outs == Play(fmt, NEW, calls).1
    ensures Play(fmt, NEW, calls).0.held != [] ==> tail
  {
    hide Next, Tame, Zlib.Format.Lawful, GzipDecoder.Valid, GzipDecoder.Keeps, GzipDecoder.Always, GzipDecoder.HoldsIff,
      TameRun, Play,
      Given, Take, Gunzip, FirstCut, Zlib.Inflate.Eof;
    var decoder := new GzipDecoder(fmt);
    outs := [];
    assert calls[0..] == calls && [] + Play(fmt, NEW, calls).1 == Play(fmt, NEW, calls).1;
    for i := 0 to |calls|
      invariant fresh(decoder) && decoder.fmt == fmt && decoder.Valid() && TameRun(fmt, decoder.Books(), calls[i..])
      invariant Play(fmt, NEW, calls)
                == (Play(fmt, decoder.Books(), calls[i..]).0, outs + Play(fmt, decoder.Books(), calls[i..]).1)
    {
      ghost var before, c := decoder.Books(), calls[i];
      NextFed(fmt, before, c);
      assert calls[i..][1..] == calls[i + 1..];
      PlayOne(fmt, before, calls[i..]);
      var r := decoder.Decompress(calls[i].data, calls[i].limit);
      assert decoder.Follows(before, c, r);
      ghost var later := Play(fmt, decoder.Books(), calls[i + 1..]).1;
      assert outs + ([r.data] + later) == outs + [r.data] + later;
      outs := outs + [r.data];
    }
    PlayNothing(fmt, decoder.Books());
    tail := decoder.HasUnconsumedTail();
    if decoder.Holding() {
      decoder.HoldingTail();
    }
  }

  lemma PlayNothing(f: Format, a: Account)
    requires a.at <= |a.fed|
    ensures Play(f, a, []) == (a, [])
  {
  }

  lemma PlayOne(f: Format, a: Account, calls: seq<Call>)
    requires a.at <= |a.fed| && calls != [] && TameRun(f, a, calls)
    ensures var (b, out) := Next(f, a, calls[0]);
            && Tame(f, b.fed, true) && TameRun(f, b, calls[1..])
            && Play(f, a, calls) == (Play(f, b, calls[1..]).0, [out] + Play(f, b, calls[1..]).1)
  {
  }

  lemma NextFed(f: Format, a: Account, c: Call)
    requires a.at <= |a.fed|
    ensures Next(f, a, c).0.fed == Given(a, c)
  {
  }

  // ---- calls that never find bytes held ------------------------------------------------------------

  lemma DueExtends(f: Format, x: bytes, sent: bytes, limit: int)
    requires sent <= Members(f, x)
    ensures sent + Due(f, x, sent, limit) <= Members(f, x)
    ensures limit < 0 ==> sent + Due(f, x, sent, limit) == Members(f, x)
  {
  }

  lemma NextDue(f: Format, a: Account, c: Call)
    requires a.at <= |a.fed| && (a.held == [] || c.limit == 0)
    ensures var (b, out) := Next(f, a, c);
            b.fed == a.fed + c.data && out == Due(f, b.fed, a.sent, c.limit)
  {
  }

  /** Whatever the cuts and limits: while no call with a limit finds bytes held, every call returns what the contract
      asks for the stream as it was fed, which is never more than the members' contents and all of them after a call
      without a limit. */
  lemma {:induction false} UnheldIsRight(f: Format, a: Account, calls: seq<Call>)
    requires f.Lawful() && a.at <= |a.fed| && a.sent <= Members(f, a.fed)
    requires Tame(f, a.fed + AllData(calls), true) && !Trips(f, a, calls)
    ensures TameRun(f, a, calls)
    ensures var (b, outs), x := Play(f, a, calls), a.fed + AllData(calls);
            && outs == Answers(Gunzip(f), a.fed, |a.sent|, calls)
            && a.sent + Flatten(outs) <= Members(f, x)
            && (calls != [] && calls[|calls| - 1].limit < 0 ==> a.sent + Flatten(outs) == Members(f, x))
    decreases |calls|
  {
    hide Next, Members, Tame, Owed, Gunzip, Zlib.Format.Lawful;
    if calls == [] {
      assert a.sent + [] == a.sent && a.fed + [] == a.fed;
    } else {
      var c, rest := calls[0], calls[1..];
      var (b, out) := Next(f, a, c);
      NextDue(f, a, c);
      Regroup(a.fed, c.data, AllData(rest));
      TamePrefix(f, b.fed, AllData(rest), true);
      MembersExtend(f, a.fed, c.data, true);
      DueExtends(f, b.fed, a.sent, c.limit);
      UnheldIsRight(f, b, rest);
      FlattenFirst(out, Play(f, b, rest).1);
      Regroup(a.sent, out, Flatten(Play(f, b, rest).1));
      if rest == [] {
        assert b.fed + [] == b.fed && b.sent + [] == b.sent;
      }
    }
  }

  method DecodeUnheld(fmt: Format, calls: seq<Call>) returns (outs: seq<bytes>)
    requires fmt.Lawful() && Tame(fmt, AllData(calls), true) && !Trips(fmt, NEW, calls)
    ensures outs == Answers(Gunzip(fmt), [], 0, calls) && Flatten(outs) <= Members(fmt, AllData(calls))
    ensures calls != [] && calls[|calls| - 1].limit < 0 ==> Flatten(outs) == Members(fmt, AllData(calls))
  {
    assert [] + AllData(calls) == AllData(calls);
    UnheldIsRight(fmt, NEW, calls);
    hide Members, Tame, TameRun, Trips, Play, Answers, Flatten, Zlib.Format.Lawful;
    var tail;
    outs, tail := DecodeCalls(fmt, calls);
    assert [] + Flatten(outs) == Flatten(outs);
  }

  /** Calls without a limit, and calls that only put input aside, leave nothing held. */
  lemma {:induction false} NoLimitNoTrip(f: Format, a: Account, calls: seq<Call>)
    requires a.at <= |a.fed| && a.held == [] && forall c :: c in calls ==> c.limit <= 0
    ensures !Trips(f, a, calls)
    decreases |calls|
  {
    if calls != [] {
      NoLimitNoTrip(f, Next(f, a, calls[0]).0, calls[1..]);
    }
  }

  // ---- calls that do -------------------------------------------------------------------------------

  /** How many bytes of content the calls repeat: what the held bytes contain, at each call with a limit that finds
      some. */
  ghost function Repeated(f: Format, a: Account, calls: seq<Call>): nat
    requires a.at <= |a.fed|
    decreases |calls|
  {
    if calls == [] then 0
    else (if calls[0].limit == 0 then 0 else |Members(f, a.held)|) + Repeated(f, Next(f, a, calls[0]).0, calls[1..])
  }

  ghost predicate InOrder(f: Format, a: Account) {
    && a.at <= |a.fed| && Whole(f, a.fed) && Whole(f, a.fed[..a.at]) && Whole(f, a.held)
    && a.sent <= Members(f, a.fed) && (a.held != [] ==> Members(f, a.fed[..a.at]) == a.sent)
  }

  /** The held bytes come in between whole members, and add what they contain. */
  lemma GivenMembers(f: Format, a: Account, c: Call)
    requires f.Lawful() && InOrder(f, a) && Whole(f, c.data)
    ensures var x := Given(a, c);
            && Whole(f, x) && a.sent <= Members(f, x)
            && |Members(f, x)| == |Members(f, a.fed)| + (if c.limit == 0 then 0 else |Members(f, a.held)|)
                 + |Members(f, c.data)|
            && (c.limit == 0 || Members(f, a.held) == [] ==> Members(f, x) == Members(f, a.fed) + Members(f, c.data))
  {
    hide Whole, Members, Zlib.Format.Lawful;
    var p, s := a.fed[..a.at], a.fed[a.at..];
    assert a.fed == p + s;
    WholeAppend(f, p, s);
    WholeAppend(f, a.fed, c.data);
    WholeAppend(f, p, a.held);
    WholeAppend(f, p + a.held, s);
    WholeAppend(f, p + a.held + s, c.data);
    WholeNothing(f);
  }

  lemma WholeNothing(f: Format)
    requires f.Lawful()
    ensures Whole(f, []) && Members(f, []) == []
  {
  }

  /** Complete members alone are never refused. */
  lemma {:induction false} WholeTame(f: Format, x: bytes, first: bool)
    requires f.Lawful() && Whole(f, x)
    ensures Tame(f, x, first)
    decreases |x|
  {
    if x == [] {
    } else {
      WholeParts(f, x);
      WholeTame(f, x[f.End(x)..], false);
      hide Whole, Complete, Zlib.Format.Lawful;
      CompleteTame(f, x[..f.End(x)], x[f.End(x)..]);
    }
  }

  lemma NextInOrder(f: Format, a: Account, c: Call)
    requires f.Lawful() && InOrder(f, a) && Whole(f, c.data)
    ensures var b := Next(f, a, c).0;
            InOrder(f, b) && Tame(f, b.fed, true) && (c.limit < 0 ==> b.sent == Members(f, b.fed))
  {
    hide Whole, Members, Zlib.Format.Lawful, Given, Due, FirstCut, Tame;
    GivenMembers(f, a, c);
    GivenAfter(a, c.data, c.limit);
    var x := Given(a, c);
    DueExtends(f, x, a.sent, c.limit);
    WholeTame(f, x, true);
    WholeNothing(f);
    var b := Next(f, a, c).0;
    assert c.limit == 0 ==> x[..a.at] == a.fed[..a.at];
    if c.limit != 0 && b.held != [] {
      assert x == x[..b.at] + x[b.at..];
      WholeAppend(f, x[..b.at], x[b.at..]);
    }
  }

  /** Whole members given at every call, ending with a call without a limit: the output is the members' contents, longer
      by exactly the bytes repeated. */
  lemma {:induction false} RepeatedIsExtra(f: Format, a: Account, calls: seq<Call>)
    requires f.Lawful() && a.at <= |a.fed| && InOrder(f, a) && forall c :: c in calls ==> Whole(f, c.data)
    ensures TameRun(f, a, calls)
    ensures var (b, outs) := Play(f, a, calls);
            var all := Members(f, a.fed) + Members(f, AllData(calls));
            && InOrder(f, b) && b.sent == a.sent + Flatten(outs)
            && |Members(f, b.fed)| == |all| + Repeated(f, a, calls)
            && (Repeated(f, a, calls) == 0 ==> Members(f, b.fed) == all)
            && (calls != [] && calls[|calls| - 1].limit < 0 ==> b.sent == Members(f, b.fed))
    decreases |calls|
  {
    WholeNothing(f);
    if calls == [] {
      assert a.sent + [] == a.sent;
      assert Members(f, a.fed) + [] == Members(f, a.fed);
    } else {
      var c, rest := calls[0], calls[1..];
      var (b, out) := Next(f, a, c);
      PlayFirst(f, a, calls);
      assert AllData(calls) == c.data + AllData(rest);
      hide Next, Members, Tame, Due, Zlib.Format.Lawful, InOrder, Whole, Given, Take, FirstCut, Play, TameRun, Repeated,
        Flatten, AllData;
      NextInOrder(f, a, c);
      GivenMembers(f, a, c);
      NextFed(f, a, c);
      RepeatedIsExtra(f, b, rest);
      WholeAppend(f, c.data, AllData(rest));
      Regroup(Members(f, a.fed), Members(f, c.data), Members(f, AllData(rest)));
      FlattenFirst(out, Play(f, b, rest).1);
      Regroup(a.sent, out, Flatten(Play(f, b, rest).1));
      if rest == [] {
        PlayNothing(f, b);
      }
    }
  }

  lemma PlayFirst(f: Format, a: Account, calls: seq<Call>)
    requires a.at <= |a.fed| && calls != []
    ensures var (b, out) := Next(f, a, calls[0]);
            && Play(f, a, calls) == (Play(f, b, calls[1..]).0, [out] + Play(f, b, calls[1..]).1)
            && (Tame(f, b.fed, true) && TameRun(f, b, calls[1..]) ==> TameRun(f, a, calls))
            && Repeated(f, a, calls) == (if calls[0].limit == 0 then 0 else |Members(f, a.held)|)
                 + Repeated(f, b, calls[1..])
  {
    hide Next, Tame, Members;
  }

  lemma NewInOrder(f: Format)
    requires f.Lawful()
    ensures InOrder(f, NEW)
  {
    WholeNothing(f);
  }

  /** Whole members given at every call of a new decoder, any limits, the last call without one: what comes out is
      longer than the members' contents by exactly the bytes repeated, and it is right exactly when there are none. */
  method DecodeWhole(fmt: Format, calls: seq<Call>) returns (outs: seq<bytes>)
    requires fmt.Lawful() && calls != [] && calls[|calls| - 1].limit < 0
    requires forall c :: c in calls ==> Whole(fmt, c.data)
    ensures |Flatten(outs)| == |Members(fmt, AllData(calls))| + Repeated(fmt, NEW, calls)
    ensures Flatten(outs) == Members(fmt, AllData(calls)) <==> Repeated(fmt, NEW, calls) == 0
  {
    NewInOrder(fmt);
    RepeatedIsExtra(fmt, NEW, calls);
    WholeNothing(fmt);
    hide Members, Zlib.Format.Lawful, Play, TameRun, Repeated, Whole, InOrder, Flatten;
    var tail;
    outs, tail := DecodeCalls(fmt, calls);
    assert [] + Flatten(outs) == Flatten(outs);
    assert [] + Members(fmt, AllData(calls)) == Members(fmt, AllData(calls));
  }

  // ---- a limit filled at the end of a member -------------------------------------------------------

  lemma NoCutBefore(f: Format, p: bytes, m: bytes, y: bytes, k: nat)
    requires f.Lawful() && Whole(f, p) && Complete(f, m) && f.out(m) != [] && k < |p + m|
    ensures !Cut(f, p + m + y, Members(f, p) + f.out(m), k)
  {
    var x, sent := p + m + y, Members(f, p) + f.out(m);
    if Cut(f, x, sent, k) {
      hide Members, Whole, Complete, Zlib.Format.Lawful;
      if k <= |p| {
        assert x[..k] == p[..k];
        EarlierHasLess(f, p, k);
        assert false;
      } else {
        var q := m[..k - |p|];
        assert x[..k] == p + q;
        WholeAppend(f, p, q);
        InnerPart(f, m, q);
        assert false;
      }
    }
  }

  lemma EarlierHasLess(f: Format, p: bytes, k: nat)
    requires f.Lawful() && k <= |p| && Whole(f, p[..k])
    ensures |Members(f, p[..k])| <= |Members(f, p)|
  {
    WholeAppend(f, p[..k], p[k..]);
    assert p == p[..k] + p[k..];
  }

  lemma InnerPart(f: Format, m: bytes, q: bytes)
    requires f.Lawful() && Complete(f, m) && q < m && q != []
    ensures !Whole(f, q)
  {
    if Whole(f, q) {
      WholeParts(f, q);
      OpenPrefixes(f, m, q[..f.End(q)]);
      assert false;
    }
  }

  /** Inside a member no output ends where whole members end. */
  lemma NoCutInside(f: Format, m: bytes, x: bytes, sent: bytes, n: nat)
    requires f.Lawful() && Complete(f, m) && x <= m && sent != [] && n < |x|
    ensures !Cut(f, x, sent, n)
  {
    WholeNothing(f);
    assert x[..n] < m && (n == 0 ==> x[..n] == []);
    hide Members, Whole, Complete, Zlib.Format.Lawful;
    if n > 0 {
      InnerPart(f, m, x[..n]);
    }
  }

  lemma InsideNothingHeld(f: Format, m: bytes, a: Account, c: Call)
    requires f.Lawful() && Complete(f, m) && a.at <= |a.fed| && a.held == [] && a.fed + c.data <= m
    ensures Next(f, a, c).0.held == [] && Next(f, a, c).0.fed == a.fed + c.data
  {
    hide Members, Whole, Complete, Zlib.Format.Lawful, Due;
    var x := a.fed + c.data;
    var out := Due(f, x, a.sent, c.limit);
    var n := FirstCut(f, x, a.sent + out, 0);
    if 0 < c.limit == |out| && n < |x| {
      NoCutInside(f, m, x, a.sent + out, n);
    }
  }

  /** As long as what is fed belongs to one member, no call ever finds bytes held, whatever the cuts and limits. */
  lemma {:induction false} OneMember(f: Format, m: bytes, a: Account, calls: seq<Call>)
    requires f.Lawful() && Complete(f, m) && a.at <= |a.fed| && a.held == [] && a.fed + AllData(calls) <= m
    ensures !Trips(f, a, calls)
    decreases |calls|
  {
    hide Next, Complete, Zlib.Format.Lawful;
    if calls == [] {
    } else {
      var c, rest := calls[0], calls[1..];
      Regroup(a.fed, c.data, AllData(rest));
      assert a.fed + c.data <= a.fed + c.data + AllData(rest);
      InsideNothingHeld(f, m, a, c);
      OneMember(f, m, Next(f, a, c).0, rest);
    }
  }

  /** So a body of one member comes out right, whatever the cuts and limits. */
  method DecodeMember(fmt: Format, m: bytes, calls: seq<Call>) returns (outs: seq<bytes>)
    requires fmt.Lawful() && Complete(fmt, m) && AllData(calls) <= m
    ensures outs == Answers(Gunzip(fmt), [], 0, calls) && Flatten(outs) <= fmt.out(m)
    ensures AllData(calls) == m && calls[|calls| - 1].limit < 0 ==> Flatten(outs) == fmt.out(m)
  {
    var x := AllData(calls);
    WholeOne(fmt, m);
    WholeTame(fmt, m, true);
    assert m == x + m[|x|..] && [] + x == x && (x == m ==> calls != []);
    hide Members, Whole, Complete, Zlib.Format.Lawful, Tame, Trips, Answers, Gunzip, Flatten, AllData;
    TamePrefix(fmt, x, m[|x|..], true);
    MembersExtend(fmt, x, m[|x|..], true);
    OneMember(fmt, m, NEW, calls);
    outs := DecodeUnheld(fmt, calls);
  }

  /** A member with content behind whole ones, and more behind it: there the contents are first complete. */
  lemma CutBehind(f: Format, p: bytes, m: bytes, y: bytes)
    requires f.Lawful() && Whole(f, p) && Complete(f, m) && f.out(m) != []
    ensures FirstCut(f, p + m + y, Members(f, p) + f.out(m), 0) == |p + m|
    ensures Whole(f, p + m) && Members(f, p + m) == Members(f, p) + f.out(m)
  {
    WholeOne(f, m);
    WholeAppend(f, p, m);
    hide Members, Whole, Complete, Zlib.Format.Lawful;
    var x, sent := p + m + y, Members(f, p) + f.out(m);
    assert x[..|p + m|] == p + m;
    assert Cut(f, x, sent, |p + m|);
    forall k: nat | k < |p + m|
      ensures !Cut(f, x, sent, k)
    {
      NoCutBefore(f, p, m, y, k);
    }
  }

  lemma DueIs(f: Format, x: bytes, sent: bytes, out: bytes, more: bytes)
    requires Members(f, x) == sent + (out + more)
    ensures Due(f, x, sent, |out|) == out && Due(f, x, sent, -1) == out + more
  {
    hide Members;
  }

  /** The limit is filled by a member's content: what follows is held. */
  lemma FillsAndHolds(f: Format, a: Account, p: bytes, m: bytes, y: bytes, c: Call)
    requires f.Lawful() && Whole(f, p) && Complete(f, m) && f.out(m) != [] && y != [] && c.limit == |f.out(m)|
    requires a.at <= |a.fed| && Given(a, c) == p + m + y && a.sent == Members(f, p)
    ensures Next(f, a, c) == (Account(p + m + y, Members(f, p + m), |p + m|, y), f.out(m))
  {
    CutBehind(f, p, m, y);
    WholeAppend(f, p + m, y);
    Regroup(Members(f, p), f.out(m), Members(f, y));
    DueIs(f, p + m + y, Members(f, p), f.out(m), Members(f, y));
    hide Members, Whole, Complete, Zlib.Format.Lawful, FirstCut, Due, Given;
    assert (p + m + y)[|p + m|..] == y;
  }

  /** The first of two calls: a complete member and what follows it, limited to the member's content. */
  function FillFirst(f: Format, m: bytes, y: bytes): Call {
    Call(m + y, |f.out(m)|)
  }

  lemma FirstFill(f: Format, m: bytes, y: bytes)
    requires f.Lawful() && Complete(f, m) && f.out(m) != [] && y != []
    ensures Next(f, NEW, FillFirst(f, m, y)) == (Account(m + y, f.out(m), |m|, y), f.out(m))
  {
    WholeNothing(f);
    WholeOne(f, m);
    assert [] + m == m;
    GivenAfter(NEW, m + y, |f.out(m)|);
    assert [] + (m + y) == m + y;
    hide Members, Whole, Complete, Zlib.Format.Lawful, FirstCut, Given, Next;
    FillsAndHolds(f, NEW, [], m, y, FillFirst(f, m, y));
  }

  /** A call without a limit and without input then hands over what the held bytes contain when given twice. */
  lemma RestTwice(f: Format, m: bytes, y: bytes)
    requires f.Lawful() && Complete(f, m) && f.out(m) != [] && y != [] && Tame(f, m + y + y, true)
    ensures var calls := [FillFirst(f, m, y), Call([], -1)];
            && TameRun(f, NEW, calls) && Trips(f, NEW, calls)
            && Play(f, NEW, calls).1 == [f.out(m), Members(f, y + y)]
  {
    hide Members, Whole, Complete, Zlib.Format.Lawful, FirstCut, Due, Tame, Next;
    var first, second := FillFirst(f, m, y), Call([], -1);
    FirstFill(f, m, y);
    var b := Account(m + y, f.out(m), |m|, y);
    GivenTwice(m, y, f.out(m), -1);
    NextFed(f, b, second);
    TamePrefix(f, m + y, y, true);
    CompleteFirst(f, m, y + y);
    Regroup(m, y, y);
    assert Members(f, m + y + y) == f.out(m) + (Members(f, y + y) + []);
    DueIs(f, m + y + y, f.out(m), Members(f, y + y), []);
    NextUnlimited(f, b, second);
    TwoCalls(f, NEW, first, second);
    hide TameRun, Trips, Play;
    assert Members(f, y + y) + [] == Members(f, y + y);
  }

  lemma GivenTwice(p: bytes, y: bytes, sent: bytes, limit: int)
    requires limit != 0
    ensures Given(Account(p + y, sent, |p|, y), Call([], limit)) == p + y + y
  {
    assert (p + y)[..|p|] == p && (p + y)[|p|..] == y;
    if y == [] {
      assert p + y + [] == p + y + y;
    }
  }

  lemma NextUnlimited(f: Format, a: Account, c: Call)
    requires a.at <= |a.fed| && c.limit < 0
    ensures Next(f, a, c).1 == Due(f, Given(a, c), a.sent, -1) && Next(f, a, c).0.held == []
  {
  }

  lemma TwoCalls(f: Format, a: Account, first: Call, second: Call)
    requires a.at <= |a.fed|
    ensures var (b, out) := Next(f, a, first);
            var (c, more) := Next(f, b, second);
            && Play(f, a, [first, second]) == (c, [out, more])
            && (Tame(f, b.fed, true) && Tame(f, c.fed, true) ==> TameRun(f, a, [first, second]))
            && (b.held != [] && second.limit != 0 ==> Trips(f, a, [first, second]))
  {
    hide Next, Tame;
    assert [first, second][1..] == [second];
    var (b, out) := Next(f, a, first);
    var (c, more) := Next(f, b, second);
    OneCall(f, b, second);
    assert [out] + [more] == [out, more];
  }

  lemma OneCall(f: Format, a: Account, c: Call)
    requires a.at <= |a.fed|
    ensures Play(f, a, [c]) == (Next(f, a, c).0, [Next(f, a, c).1])
    ensures Tame(f, Next(f, a, c).0.fed, true) ==> TameRun(f, a, [c])
    ensures a.held != [] && c.limit != 0 ==> Trips(f, a, [c])
  {
    hide Next, Tame;
    assert [c][1..] == [] && [Next(f, a, c).1] + [] == [Next(f, a, c).1];
  }

  /** For every format and any two complete members with content: fill the limit with the first one, and the second one
      comes out twice. */
  method SecondComesTwice(fmt: Format, m: bytes, n: bytes) returns (outs: seq<bytes>)
    requires fmt.Lawful() && Complete(fmt, m) && Complete(fmt, n) && fmt.out(m) != []
    ensures outs == [fmt.out(m), fmt.out(n) + fmt.out(n)]
  {
    WholeOne(fmt, m);
    WholeOne(fmt, n);
    WholeAppend(fmt, n, n);
    WholeAppend(fmt, m, n);
    WholeAppend(fmt, m + n, n);
    WholeTame(fmt, m + n + n, true);
    assert n != [];
    hide Members, Whole, Complete, Zlib.Format.Lawful, Tame, TameRun, Play;
    RestTwice(fmt, m, n);
    var tail;
    outs, tail := DecodeCalls(fmt, [FillFirst(fmt, m, n), Call([], -1)]);
  }

  /** Garbage that is refused without output hides the repetition. */
  method GarbageComesTwice(fmt: Format, m: bytes, garbage: bytes) returns (outs: seq<bytes>)
    requires fmt.Lawful() && Complete(fmt, m) && fmt.out(m) != []
    requires garbage != [] && fmt.Rejects(garbage) && fmt.Decode(garbage) == []
    ensures outs == [fmt.out(m), []] && Trips(fmt, NEW, [FillFirst(fmt, m, garbage), Call([], -1)])
  {
    DecodeExtends(fmt, garbage, garbage);
    assert Flatten([m]) == m && m + (garbage + garbage) == m + garbage + garbage;
    SeriesDecodes(fmt, [m], garbage + garbage);
    RefusedIsEmpty(fmt, garbage + garbage);
    hide Members, Whole, Complete, Zlib.Format.Lawful, Tame, TameRun, Play, Trips;
    RestTwice(fmt, m, garbage);
    var tail;
    outs, tail := DecodeCalls(fmt, [FillFirst(fmt, m, garbage), Call([], -1)]);
  }

  lemma RefusedIsEmpty(f: Format, x: bytes)
    requires f.Rejects(x)
    ensures Members(f, x) == []
  {
  }

  function Times<T>(n: nat, x: T): (r: seq<T>)
    ensures |r| == n && forall i :: 0 <= i < n ==> r[i] == x
  {
    seq(n, _ => x)
  }

  /** A call limited to the content of the member held: it is handed over and is held again. */
  lemma {:induction false} HeldAgain(f: Format, p: bytes, n: bytes, k: nat)
    requires f.Lawful() && Whole(f, p) && Complete(f, n) && f.out(n) != []
    ensures var a, calls := Account(p + n, Members(f, p), |p|, n), Times(k, Call([], |f.out(n)|));
            && TameRun(f, a, calls)
            && Play(f, a, calls).1 == Times(k, f.out(n)) && Play(f, a, calls).0.held == n
    decreases k
  {
    if k == 0 {
    } else {
      var c := Call([], |f.out(n)|);
      var a, calls := Account(p + n, Members(f, p), |p|, n), Times(k, c);
      HeldOnce(f, p, n);
      assert calls[1..] == Times(k - 1, c);
      assert Times(k, f.out(n)) == [f.out(n)] + Times(k - 1, f.out(n));
      PlayFirst(f, a, calls);
      hide Members, Whole, Complete, Zlib.Format.Lawful, Tame, Next, Play, TameRun, Repeated, Times;
      HeldAgain(f, p + n, n, k - 1);
    }
  }

  lemma HeldOnce(f: Format, p: bytes, n: bytes)
    requires f.Lawful() && Whole(f, p) && Complete(f, n) && f.out(n) != []
    ensures Next(f, Account(p + n, Members(f, p), |p|, n), Call([], |f.out(n)|))
         == (Account(p + n + n, Members(f, p + n), |p + n|, n), f.out(n))
    ensures Whole(f, p + n) && Tame(f, p + n + n, true)
  {
    WholeOne(f, n);
    WholeAppend(f, p, n);
    WholeAppend(f, p + n, n);
    WholeTame(f, p + n + n, true);
    GivenTwice(p, n, Members(f, p), |f.out(n)|);
    assert n != [];
    hide Members, Whole, Complete, Zlib.Format.Lawful, Tame, Next, Given;
    FillsAndHolds(f, Account(p + n, Members(f, p), |p|, n), p, n, n, Call([], |f.out(n)|));
  }

  /** With limits that are filled at the end of each member the second of two members comes out at every call, as often
      as the decoder is called, and the decoder always says that there is more. */
  method NeverEnds(fmt: Format, m: bytes, n: bytes, k: nat) returns (outs: seq<bytes>, tail: bool)
    requires fmt.Lawful() && Complete(fmt, m) && Complete(fmt, n) && fmt.out(m) != [] && fmt.out(n) != []
    ensures outs == [fmt.out(m)] + Times(k, fmt.out(n)) && tail
  {
    var first, more := FillFirst(fmt, m, n), Times(k, Call([], |fmt.out(n)|));
    WholeOne(fmt, m);
    WholeOne(fmt, n);
    WholeAppend(fmt, m, n);
    WholeTame(fmt, m + n, true);
    assert n != [];
    FirstFill(fmt, m, n);
    HeldAgain(fmt, m, n, k);
    assert ([first] + more)[1..] == more;
    hide Members, Whole, Complete, Zlib.Format.Lawful, Tame, Next, FirstCut;
    outs, tail := DecodeCalls(fmt, [first] + more);
  }

  /** There are such formats and members: here a one followed by its one byte of content. */
  function Toy(): Format {
    Format(x => if |x| >= 2 then [x[1]] else [], x => x != [] && x[0] != 1, x => |x| >= 2)
  }

  lemma ToyMember(b: byte)
    ensures Toy().Lawful() && Complete(Toy(), [1, b]) && Toy().out([1, b]) == [b]
  {
    var f, m: bytes := Toy(), [1, b];
    assert m[..0] == [] && m[..1] == [1];
    forall x, y | Extends(y, x) ensures f.out(x) <= f.out(y) {
    }
  }
}
