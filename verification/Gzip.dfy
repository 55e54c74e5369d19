/** response.py GzipDecoder: a series of gzip members whose contents are laid end to end, with trailing garbage
    swallowed. */
module Gzip {
  import opened Bytes
  import opened Codec
  import opened Zlib

  /** The contents of a series of members; a member the format rejects contributes nothing and ends the series. */
  function Members(f: Format, x: bytes): bytes
    decreases |x|
  {
    var p := f.End(x);
    if f.bad(x[..p]) then []
    else if 0 < p < |x| then f.out(x[..p]) + Members(f, x[p..])
    else f.out(x[..p])
  }

  /** No member is rejected after it has given output, and the first one is not rejected at all. */
  ghost predicate Tame(f: Format, x: bytes, first: bool)
    decreases |x|
  {
    var p := f.End(x);
    if f.bad(x[..p]) then !first && f.out(x[..p]) == []
    else if 0 < p < |x| then Tame(f, x[p..], false)
    else true
  }

  ghost predicate Complete(f: Format, m: bytes) {
    m != [] && f.fin(m) && !f.bad(m) && f.Open(m, |m|)
  }

  /** `x` is a run of complete members. */
  ghost predicate Whole(f: Format, x: bytes)
    decreases |x|
  {
    var p := f.End(x);
    x == [] || (p > 0 && Complete(f, x[..p]) && Whole(f, x[p..]))
  }

  /** `done` is a run of complete members with contents `content`. */
  ghost predicate Closed(f: Format, done: bytes, content: bytes) {
    Whole(f, done) && content == Members(f, done)
  }

  lemma CompleteEnd(f: Format, m: bytes, y: bytes)
    requires Complete(f, m)
    ensures f.End(m + y) == |m| && (m + y)[..|m|] == m && (m + y)[|m|..] == y
  {
    var x := m + y;
    assert x[..|m|] == m;
    forall k | 0 <= k < |m| ensures f.Going(x, k) {
      assert f.Going(m, k) && x[..k] == m[..k];
    }
    ReachFrom(f, x, 0, |m|);
  }

  /** A complete member decodes to its content and leaves the rest to be decoded afresh. */
  lemma CompleteFirst(f: Format, m: bytes, y: bytes)
    requires f.Lawful() && Complete(f, m)
    ensures Members(f, m + y) == f.out(m) + Members(f, y)
    ensures forall first :: Tame(f, m + y, first) ==> Tame(f, y, false)
  {
    CompleteEnd(f, m, y);
    if y == [] {
      assert Members(f, y) == [];
    }
  }

  /** What follows a run of complete members is cut up and decoded on its own. */
  lemma {:induction false} WholeAppend(f: Format, x: bytes, y: bytes)
    requires f.Lawful() && Whole(f, x)
    ensures Members(f, x + y) == Members(f, x) + Members(f, y)
    ensures Whole(f, x + y) <==> Whole(f, y)
    decreases |x|
  {
    if x == [] {
      assert [] + y == y && Members(f, []) == [];
    } else {
      var m, rest := x[..f.End(x)], x[f.End(x)..];
      WholeParts(f, x);
      hide Whole, Members, Complete, Format.Lawful, Format.End;
      WholeFirst(f, m, rest);
      WholeAppend(f, rest, y);
      WholeFirst(f, m, rest + y);
      Regroup(m, rest, y);
      Regroup(f.out(m), Members(f, rest), Members(f, y));
    }
  }

  lemma WholeParts(f: Format, x: bytes)
    requires Whole(f, x) && x != []
    ensures var m, rest := x[..f.End(x)], x[f.End(x)..];
            m != [] && x == m + rest && Complete(f, m) && Whole(f, rest)
  {
    hide Complete, Format.End;
  }

  /** One complete member in front. */
  lemma WholeFirst(f: Format, m: bytes, y: bytes)
    requires f.Lawful() && Complete(f, m)
    ensures Whole(f, m + y) <==> Whole(f, y)
    ensures Members(f, m + y) == f.out(m) + Members(f, y)
  {
    CompleteEnd(f, m, y);
    CompleteFirst(f, m, y);
  }

  lemma WholeOne(f: Format, m: bytes)
    requires f.Lawful() && Complete(f, m)
    ensures Whole(f, m) && Members(f, m) == f.out(m)
  {
    WholeFirst(f, m, []);
    assert m + [] == m && Members(f, []) == [];
  }

  /** Whatever follows closed members decodes on its own. */
  lemma ClosedSplits(f: Format, done: bytes, content: bytes, y: bytes)
    requires f.Lawful() && Closed(f, done, content)
    ensures Members(f, done + y) == content + Members(f, y)
    ensures Tame(f, done + y, true) ==> Tame(f, y, done == [])
  {
    WholeAppend(f, done, y);
    if Tame(f, done + y, true) {
      TameRest(f, done, y, true);
    }
  }

  lemma {:induction false} TameRest(f: Format, x: bytes, y: bytes, first: bool)
    requires f.Lawful() && Whole(f, x) && Tame(f, x + y, first)
    ensures Tame(f, y, first && x == [])
    decreases |x|
  {
    if x == [] {
      assert [] + y == y;
    } else {
      hide Whole, Members, Complete, Format.Lawful, Format.End, Tame;
      var m, rest := x[..f.End(x)], x[f.End(x)..];
      WholeParts(f, x);
      Regroup(m, rest, y);
      CompleteFirst(f, m, rest + y);
      TameRest(f, rest, y, false);
    }
  }

  lemma ClosedNothing(f: Format)
    requires f.Lawful()
    ensures Closed(f, [], [])
  {
    assert Members(f, []) == [];
  }

  /** One more complete member. */
  lemma ClosedSnoc(f: Format, done: bytes, content: bytes, m: bytes)
    requires f.Lawful() && Closed(f, done, content) && Complete(f, m)
    ensures Closed(f, done + m, content + f.out(m))
  {
    WholeOne(f, m);
    WholeAppend(f, done, m);
  }

  /** Complete members make up the first `n` bytes of `x`, and `sent` is just what they contain. */
  ghost predicate Cut(f: Format, x: bytes, sent: bytes, n: nat) {
    n <= |x| && Whole(f, x[..n]) && Members(f, x[..n]) == sent
  }

  /** The first such place from `k` on, |x| when there is none before the end. */
  ghost function FirstCut(f: Format, x: bytes, sent: bytes, k: nat): (n: nat)
    requires k <= |x|
    ensures k <= n <= |x| && (n < |x| ==> Cut(f, x, sent, n))
    ensures forall j: nat :: k <= j < n ==> !Cut(f, x, sent, j)
    decreases |x| - k
  {
    if k == |x| || Cut(f, x, sent, k) then k else FirstCut(f, x, sent, k + 1)
  }

  function Gunzip(f: Format): bytes -> bytes {
    x => Members(f, x)
  }

  /** Everything that the members of any stream give; a rejected one gives what precedes the rejection, and ends the
      series. */
  function Gives(f: Format, x: bytes): bytes
    decreases |x|
  {
    var p := f.End(x);
    if 0 < p < |x| && !f.bad(x[..p]) then f.out(x[..p]) + Gives(f, x[p..]) else f.out(x[..p])
  }

  function Giving(f: Format): bytes -> bytes {
    x => Gives(f, x)
  }

  /** On a tame stream these are its contents. */
  lemma {:induction false} GivesTame(f: Format, x: bytes, first: bool)
    requires Tame(f, x, first)
    ensures Gives(f, x) == Members(f, x)
    decreases |x|
  {
    var p := f.End(x);
    if 0 < p < |x| && !f.bad(x[..p]) {
      GivesTame(f, x[p..], false);
    } else {
    }
  }

  /** Feeding more of any stream only adds to what it gives. */
  lemma {:induction false} GivesExtend(f: Format, x: bytes, y: bytes)
    requires f.Lawful()
    ensures Gives(f, x) <= Gives(f, x + y)
    decreases |x|
  {
    ReachExtends(f, x, y, 0);
    ReachStop(f, x, 0);
    DecodeExtends(f, x, y);
    var p := f.End(x);
    assert (x + y)[..p] == x[..p];
    if 0 < p < |x| && !f.bad(x[..p]) {
      assert (x + y)[p..] == x[p..] + y;
      GivesExtend(f, x[p..], y);
    } else {
    }
  }

  lemma {:induction false} ClosedGives(f: Format, done: bytes, content: bytes, y: bytes)
    requires f.Lawful() && Closed(f, done, content)
    ensures Gives(f, done + y) == content + Gives(f, y)
    decreases |done|
  {
    if done == [] {
      assert [] + y == y && Members(f, []) == [];
    } else {
      var m, rest := done[..f.End(done)], done[f.End(done)..];
      WholeParts(f, done);
      WholeFirst(f, m, rest);
      ClosedGives(f, rest, Members(f, rest), y);
      Regroup(m, rest, y);
      CompleteGives(f, m, rest + y);
      hide Whole, Members, Complete, Gives, Format.Lawful, Format.End;
      Regroup(f.out(m), Members(f, rest), Gives(f, y));
    }
  }

  lemma CompleteGives(f: Format, m: bytes, y: bytes)
    requires f.Lawful() && Complete(f, m)
    ensures Gives(f, m + y) == f.out(m) + Gives(f, y)
  {
    CompleteEnd(f, m, y);
    if y == [] {
      assert Gives(f, y) == [];
    }
  }

  lemma DecodeIsGiven(f: Format, x: bytes)
    ensures f.Decode(x) <= Gives(f, x)
  {
  }

  /** `sent` is what the finished members hold, followed by the first `emitted` bytes of the current one. */
  ghost predicate SentUpTo(f: Format, content: bytes, z: Inflate, sent: bytes) {
    && z.emitted <= |f.Decode(z.Fed())|
    && sent == content + f.Decode(z.Fed())[..z.emitted]
  }

  lemma SentGrows(content: bytes, a: bytes, b: bytes, e: nat, out: bytes, limit: int)
    requires a <= b && e <= |a| && out == Take(b[e..], limit)
    ensures e + |out| <= |b| && content + a[..e] + out == content + b[..e + |out|]
  {
    assert b[..e + |out|] == a[..e] + out;
  }

  /** One call of the current decompressor moves the account forward by its output. */
  lemma Advance(f: Format, content: bytes, z: Inflate, data: bytes, limit: nat, sent: bytes)
    requires z.Valid() && z.fmt == f && SentUpTo(f, content, z, sent)
    ensures var r := z.Decompress(z.tail + data, limit);
            if r.Ok? then Delivers(z, z.Fed() + data, limit, r.obj, r.data)
                && SentUpTo(f, content, r.obj, sent + r.data)
            else f.Rejects(z.Fed() + data)
  {
    InflateStep(z, data, limit);
    DecodeExtends(f, z.Fed(), data);
    var r := z.Decompress(z.tail + data, limit);
    if r.Ok? {
      assert [] + (z.Fed() + data) == z.Fed() + data;
      SentGrows(content, f.Decode(z.Fed()), f.Decode(z.Fed() + data), z.emitted, r.data,
                if limit == 0 then -1 else limit);
    }
  }

  /** A call that ends with nothing held, or with its limit filled, has handed over what the contract asks. */
  lemma Settles(f: Format, done: bytes, content: bytes, z: Inflate, before: bytes, ret: bytes, limit: int)
    requires f.Lawful() && Closed(f, done, content) && z.Valid() && z.fmt == f && SentUpTo(f, content, z, before + ret)
    requires (z.tail + z.unused == [] && (0 <= limit ==> |ret| <= limit)) || 0 <= limit == |ret|
    ensures Meets(Giving(f), [], |before|, done + z.Fed(), limit, ret, z.tail + z.unused != [] && 0 <= limit == |ret|)
  {
    var x := z.Fed();
    ClosedGives(f, done, content, x);
    assert [] + (done + x) == done + x;
    var all := Gives(f, done + x);
    assert all == content + Gives(f, x);
    if z.tail + z.unused == [] {
      InflateDrained(z);
      assert f.End(x) == |x| by { DrainedEnd(z); }
      assert before + ret == all;
    } else {
      DecodeIsGiven(f, x);
      assert before + ret <= all;
    }
    assert all[|before|..][..|ret|] == ret;
  }

  /** Input held back by an unfinished decompressor means that content is pending. */
  lemma Pending(f: Format, done: bytes, content: bytes, z: Inflate, sent: bytes)
    requires f.Lawful() && Closed(f, done, content) && z.Valid() && z.fmt == f && SentUpTo(f, content, z, sent)
    requires Tame(f, done + z.Fed(), true)
    ensures z.tail != [] ==> |sent| < |Members(f, done + z.Fed())|
  {
    ClosedSplits(f, done, content, z.Fed());
    InflateBound(z);
  }

  /** A decompressor that holds nothing has consumed all it was given. */
  lemma DrainedEnd(z: Inflate)
    requires z.Valid() && z.tail == [] && z.unused == []
    ensures z.fmt.End(z.Fed()) == |z.Fed()|
  {
    var x := z.Fed();
    assert x == z.taken && x[..|x|] == x;
    ReachFrom(z.fmt, x, 0, |x|);
  }

  // ---- the bytes a finished decompressor holds -----------------------------------------------------

  /** A decompressor that has put out all of a complete first member has reached its end. */
  lemma MemberEnds(z: Inflate, m: bytes, y: bytes)
    requires z.Valid() && Complete(z.fmt, m) && z.Fed() == m + y && z.emitted >= |z.fmt.out(m)|
    ensures z.Eof() && z.taken == m
  {
    var x, n := z.taken + (z.tail + z.unused), |z.taken|;
    assert x == m + y && x[..n] == z.taken && x[..|m|] == m;
    if |m| < n {
      assert x[..n][..|m|] == m;
      OpenPrefixes(z.fmt, z.taken, m);
      assert false;
    }
    if n < |m| {
      EndsLater(z, m, y);
      assert false;
    }
  }

  /** Inside its member a decompressor has not finished, and what it holds back belongs to that member. */
  lemma EndsLater(z: Inflate, m: bytes, y: bytes)
    requires z.Valid() && Complete(z.fmt, m) && z.Fed() == m + y && |z.taken| < |m|
    ensures z.tail != [] && |z.fmt.out(z.taken + z.tail[..1])| <= |z.fmt.out(m)|
  {
    var x, n := z.taken + (z.tail + z.unused), |z.taken|;
    assert x == m + y && x[..n] == z.taken && x[..|m|][..n] == z.taken;
    OpenPrefixes(z.fmt, m, z.taken);
    assert z.taken + z.tail[..1] == x[..n + 1] == m[..n + 1];
    assert Extends(m, m[..n + 1]);
  }

  /** Once the current decompressor has put something out, a place where what was sent is just what whole members
      contain lies at the end of its member or behind it. */
  lemma CutIsEof(f: Format, done: bytes, content: bytes, z: Inflate, sent: bytes, n: nat)
    requires f.Lawful() && Closed(f, done, content) && z.Valid() && z.fmt == f && SentUpTo(f, content, z, sent)
             && z.emitted > 0
    requires Cut(f, done + z.Fed(), sent, n)
    ensures z.Eof() && n >= |done + z.taken|
  {
    hide Members, Whole, Complete, Zlib.Inflate.Valid, Zlib.Inflate.Fed, Zlib.Inflate.Eof, Zlib.Format.Decode, Tame;
    var x, fed := z.Fed(), done + z.Fed();
    if n <= |done| {
      assert done == fed[..n] + done[n..];
      WholeAppend(f, fed[..n], done[n..]);
      assert false;
    }
    var q := x[..n - |done|];
    assert fed[..n] == done + q;
    WholeAppend(f, done, q);
    FirstOf(f, q);
    var m := q[..f.End(q)];
    assert x == m + x[|m|..];
    assert sent == content + (f.out(m) + Members(f, q[|m|..]));
    MemberEnds(z, m, x[|m|..]);
  }

  lemma FirstOf(f: Format, q: bytes)
    requires f.Lawful() && Whole(f, q) && q != []
    ensures var m := q[..f.End(q)];
            Complete(f, m) && Members(f, q) == f.out(m) + Members(f, q[|m|..])
  {
    WholeParts(f, q);
    hide Whole, Members, Complete, Format.Lawful, Format.End;
    WholeFirst(f, q[..f.End(q)], q[f.End(q)..]);
  }

  /** The decompressor holds bytes behind its member exactly when what was sent ends where whole members end, with more
      behind them; and then it holds all that follows the first such place. */
  lemma HeldIs(f: Format, done: bytes, content: bytes, z: Inflate, sent: bytes)
    requires f.Lawful() && Closed(f, done, content) && z.Valid() && z.fmt == f && SentUpTo(f, content, z, sent)
             && z.emitted > 0
    ensures var fed := done + z.Fed();
            var n := FirstCut(f, fed, sent, 0);
            && (z.Eof() && z.unused != [] <==> n < |fed|)
            && (n < |fed| ==> n == |done| + |z.taken| && z.unused == fed[n..])
  {
    var fed := done + z.Fed();
    var n := FirstCut(f, fed, sent, 0);
    hide Members, Whole, Complete, Zlib.Inflate.Valid, Zlib.Inflate.Fed, Zlib.Format.Decode, Tame, Closed, SentUpTo,
      Cut, FirstCut;
    if n < |fed| {
      CutIsEof(f, done, content, z, sent, n);
    }
    FedParts(z);
    if z.Eof() {
      EofIsCut(f, done, content, z, sent);
      assert fed[|done + z.taken|..] == z.unused;
    }
  }

  lemma EofIsCut(f: Format, done: bytes, content: bytes, z: Inflate, sent: bytes)
    requires f.Lawful() && Closed(f, done, content) && z.Valid() && z.fmt == f && SentUpTo(f, content, z, sent)
             && z.Eof()
    ensures Cut(f, done + z.Fed(), sent, |done + z.taken|)
  {
    var fed := done + z.Fed();
    InflateDrained(z);
    assert f.Decode(z.Fed())[..z.emitted] == f.out(z.taken);
    assert fed[..|done + z.taken|] == done + z.taken;
    assert Complete(f, z.taken);
    hide Members, Whole, Complete, Zlib.Inflate.Valid, Zlib.Inflate.Fed, Zlib.Format.Decode, Tame;
    WholeOne(f, z.taken);
    WholeAppend(f, done, z.taken);
  }

  /** What a series of calls comes to: the bytes the format has been given, what was handed over, and the bytes a
      finished decompressor holds, which follow the first `at` given ones; nothing is held when `held` is empty. */
  datatype Account = Account(fed: bytes, sent: bytes, at: nat, held: bytes)

  const NEW := Account([], [], 0, [])

  /** What the format has been given after a call: one with a limit other than zero repeats the held bytes. */
  function Given(a: Account, c: Call): bytes
    requires a.at <= |a.fed|
  {
    if c.limit == 0 || a.held == [] then a.fed + c.data else a.fed[..a.at] + a.held + a.fed[a.at..] + c.data
  }

  /** One call: it hands over what the contract asks when `Given` has been fed, and it leaves bytes held if it fills its
      limit just where whole members end inside of that. */
  ghost function Next(f: Format, a: Account, c: Call): (r: (Account, bytes))
    requires a.at <= |a.fed|
    ensures r.0.at <= |r.0.fed| && r.0.sent == a.sent + r.1
  {
    var x := Given(a, c);
    if c.limit == 0 then (a.(fed := x, sent := a.sent + []), [])
    else
      var out := Due(f, x, a.sent, c.limit);
      var n := FirstCut(f, x, a.sent + out, 0);
      (if 0 < c.limit == |out| && n < |x| then Account(x, a.sent + out, n, x[n..])
       else Account(x, a.sent + out, 0, []), out)
  }

  /** What the decoder contract asks of a call when `x` is all that has been fed and `sent` has been handed over. */
  function Due(f: Format, x: bytes, sent: bytes, limit: int): bytes {
    Owed(Gunzip(f), x, |sent|, limit)
  }

  datatype State = FirstMember | OtherMembers | SwallowData

  class GzipDecoder {
    const fmt: Format
    var obj: Inflate
    var state: State
    var unconsumedTail: bytes
    ghost var fed: bytes     // the compressed bytes given to the format, in order
    ghost var sent: bytes    // everything handed over
    ghost var done: bytes    // the complete members before the current one
    ghost var content: bytes // what they contain

    ghost predicate Valid()
      reads this
    {
      && fmt.Lawful() && Closed(fmt, done, content) && (state == FirstMember ==> done == [])
      && (done == [] ==> state != OtherMembers)
      && done <= fed
      && (if state == SwallowData then
            && fmt.Rejects(fed[|done|..]) && unconsumedTail == []
            && content <= sent <= content + fmt.Decode(fed[|done|..])
          else
            && obj.Valid() && obj.fmt == fmt
            && obj.tail + obj.unused <= unconsumedTail
            && fed == done + (obj.taken + unconsumedTail)
            && SentUpTo(fmt, content, obj, sent))
    }

    predicate HasUnconsumedTail()
      reads this
    {
      unconsumedTail != []
    }

    /** The finished decompressor still holds what followed its member. */
    predicate Holding()
      reads this
    {
      state != SwallowData && obj.Eof() && obj.unused != []
    }

    /** How many of the fed bytes belong to members already decoded. */
    ghost function Boundary(): nat
      reads this
    {
      |done| + |obj.taken|
    }

    ghost function Books(): (a: Account)
      reads this
      requires Valid()
      ensures a.at <= |a.fed|
    {
      if Holding() then Account(fed, sent, Boundary(), obj.unused) else Account(fed, sent, 0, [])
    }

    /** After a call with a limit other than zero: what is held, and where it starts. */
    ghost predicate HoldsIff(limit: int, out: bytes)
      reads this
    {
      var n := FirstCut(fmt, fed, sent, 0);
      && (Holding() <==> 0 < limit == |out| && n < |fed|)
      && (Holding() ==> Boundary() == n && obj.unused == fed[n..])
    }

    /** The call was a step of the account. */
    ghost predicate Follows(before: Account, c: Call, r: DecodeResult)
      reads this
      requires before.at <= |before.fed|
    {
      r.Decoded? && Valid() && (Books(), r.data) == Next(fmt, before, c)
    }

    /** On a tame stream nothing but its contents has been handed over, from the start. */
    lemma SentIsPrefix()
      requires Valid() && Tame(fmt, fed, true)
      ensures sent <= Members(fmt, fed)
    {
      SentIsGiven();
      GivesTame(fmt, fed, true);
      hide Valid, Tame, Gives, Members;
    }

    lemma HoldingTail()
      requires Valid() && Holding()
      ensures HasUnconsumedTail()
    {
      assert (obj.tail + obj.unused)[|obj.tail|..] == obj.unused;
    }

    /** On any stream: everything handed over is a prefix of what the members give. */
    lemma SentIsGiven()
      requires Valid()
      ensures sent <= Gives(fmt, fed)
    {
      var x := fed[|done|..];
      assert fed == done + x;
      ClosedGives(fmt, done, content, x);
      DecodeIsGiven(fmt, x);
      if state != SwallowData {
        var y := unconsumedTail[|obj.tail + obj.unused|..];
        assert unconsumedTail == obj.tail + obj.unused + y;
        assert x == obj.Fed() + y;
        DecodeExtends(fmt, obj.Fed(), y);
      }
    }

    /** What a call has to show for itself on any stream, after `before` had been handed over: until a member is
        rejected it hands over what its limit lets through of what the members give; it raises only when that member is
        the first one, and then hands over nothing. */
    ghost predicate Always(before: bytes, limit: int, r: DecodeResult)
      reads this
    {
      && Valid() && sent == before + (if r.Decoded? then r.data else [])
      && (r.Rejected? ==> state == SwallowData && done == [])
      && (state != SwallowData ==>
            r.Decoded? && Meets(Giving(fmt), [], |before|, fed, limit, r.data, HasUnconsumedTail()))
    }

    /** What a call has to show for itself on a tame stream, after `before` had been handed over. */
    ghost predicate Keeps(before: bytes, limit: int, r: DecodeResult)
      reads this
    {
      && r.Decoded? && Valid() && sent == before + r.data
      && Meets(Gunzip(fmt), [], |before|, fed, limit, r.data, HasUnconsumedTail())
    }

    /** After such a call the tail flag is raised only over bytes held or over pending output. */
    ghost predicate TailTells()
      reads this
    {
      HasUnconsumedTail() ==> Holding() || |sent| < |Members(fmt, fed)|
    }

    lemma AlwaysNow(before: bytes, limit: int, ret: bytes)
      requires fmt.Lawful() && Closed(fmt, done, content) && (done == [] <==> state == FirstMember)
               && state != SwallowData
      requires obj.Valid() && obj.fmt == fmt && obj.tail + obj.unused == unconsumedTail
      requires fed == done + obj.Fed() && SentUpTo(fmt, content, obj, sent) && sent == before + ret
      requires (unconsumedTail == [] && (0 <= limit ==> |ret| <= limit)) || 0 <= limit == |ret|
      ensures Always(before, limit, Decoded(ret)) && (Tame(fmt, fed, true) ==> TailTells())
    {
      FedParts(obj);
      Settles(fmt, done, content, obj, before, ret, limit);
      if Tame(fmt, fed, true) {
        Pending(fmt, done, content, obj, sent);
      }
    }

    lemma AlwaysStashed(before: bytes)
      requires Valid() && sent == before && state != SwallowData
      requires Meets(Giving(fmt), [], |before|, fed, 0, [], unconsumedTail != [])
      ensures Always(before, 0, Decoded([]))
    {
      assert before + [] == before;
    }

    lemma AlwaysSwallowed(before: bytes, limit: int, r: DecodeResult)
      requires fmt.Lawful() && Closed(fmt, done, content) && done <= fed
      requires state == SwallowData && fmt.Rejects(fed[|done|..]) && unconsumedTail == []
      requires content <= sent <= content + fmt.Decode(fed[|done|..])
      requires sent == before + (if r.Decoded? then r.data else []) && (r.Rejected? ==> done == [])
      ensures Always(before, limit, r)
    {
    }

    /** On a tame stream that is the contract of a decoder of its contents. */
    lemma KeepsTame(before: bytes, limit: int, r: DecodeResult)
      requires Always(before, limit, r) && state != SwallowData && Tame(fmt, fed, true)
      ensures Keeps(before, limit, r)
    {
      GivesTame(fmt, fed, true);
      assert [] + fed == fed;
      hide Tame, Gives, Members;
    }

    lemma KeepsSwallowed(before: bytes, limit: int, ret: bytes)
      requires fmt.Lawful() && Closed(fmt, done, content) && done <= fed
      requires state == SwallowData && fmt.Rejects(fed[|done|..]) && unconsumedTail == []
      requires sent == content == before + ret && Meets(Gunzip(fmt), [], |before|, fed, limit, ret, false)
      ensures Keeps(before, limit, Decoded(ret))
    {
      AddNothing(content);
    }

    constructor (fmt: Format)
      requires fmt.Lawful()
      ensures Valid() && Books() == NEW && this.fmt == fmt
    {
      this.fmt := fmt;
      obj, state, unconsumedTail := NewInflate(fmt), FirstMember, [];
      fed, sent, done, content := [], [], [], [];
      ClosedNothing(fmt);
    }

    /** Each call hands over exactly what its limit lets through of the contents of everything fed so far, and a tame
        stream is never refused. A call made while the finished decompressor still holds the bytes behind its member
        feeds those bytes a second time; `HoldsIff` says when a call leaves it so. */
    method Decompress(input: bytes, maxLength: int) returns (r: DecodeResult)
      requires Valid()
      modifies this
      ensures fed == Given(old(Books()), Call(input, maxLength))
      ensures Always(old(sent), maxLength, r)
      ensures r.Rejected? <==> done == [] && state == SwallowData && old(state) != SwallowData
      ensures Tame(fmt, fed, true) ==>
                && Keeps(old(sent), maxLength, r)
                && Follows(old(Books()), Call(input, maxLength), r)
      ensures maxLength != 0 && r.Decoded? ==> HoldsIff(maxLength, r.data)
      ensures maxLength != 0 && Tame(fmt, fed, true) ==> TailTells()
    {
      hide Closed, SentUpTo, Zlib.Inflate.Valid, Zlib.Inflate.Fed, Zlib.Inflate.Eof, Codec.Meets, Tame,
        Zlib.Format.Rejects, Zlib.Format.Decode, Keeps, Always, Follows, HoldsIff, TailTells, Next, FirstCut, Given;
      assert sent + [] == sent;
      ghost var before := Books();
      if state == SwallowData {
        SwallowMore(fmt, done, content, fed, input, maxLength, sent);
        GivenAfter(before, input, maxLength);
        fed := fed + input;
        SwallowsAll(before, input, maxLength);
        return Decoded([]);
      }
      if maxLength == 0 {
        Stash(fmt, done, content, obj, unconsumedTail, input, sent);
        GivenAfter(before, input, maxLength);
        unconsumedTail := unconsumedTail + input;
        fed := fed + input;
        Stashes(before, input);
        return Decoded([]);
      }
      var data := unconsumedTail + input;
      if data == [] && obj.Eof() {
        FedParts(obj);
        GivenAfter(before, input, maxLength);
        fed := fed + input;
        assert fed == done + obj.Fed();
        Finishes(old(sent), maxLength, []);
        if Tame(fmt, fed, true) {
          Booked(before, input, maxLength, Decoded([]));
        }
        return Decoded([]);
      }
      ghost var more := unconsumedTail[|obj.tail|..] + input;
      Replay(done, obj, unconsumedTail, input, before, maxLength);
      fed := done + (obj.Fed() + more);
      r := Inflate(data, maxLength, more);
      if Tame(fmt, fed, true) {
        Booked(before, input, maxLength, r);
      }
    }

    /** A call with limit zero only takes its input, too. */
    lemma Stashes(before: Account, input: bytes)
      requires Valid() && state != SwallowData && Meets(Giving(fmt), [], |sent|, fed, 0, [], unconsumedTail != [])
      requires before == (if Holding() then Account(before.fed, sent, Boundary(), obj.unused)
                          else Account(before.fed, sent, 0, []))
      requires fed == before.fed + input && before.at <= |before.fed|
      ensures Always(sent, 0, Decoded([]))
      ensures Tame(fmt, fed, true) ==> Keeps(sent, 0, Decoded([])) && Follows(before, Call(input, 0), Decoded([]))
    {
      hide Valid, Codec.Meets, Tame, Keeps, Always, Follows;
      AlwaysStashed(sent);
      if Tame(fmt, fed, true) {
        KeepsTame(sent, 0, Decoded([]));
        BookedLater(before, input);
      }
    }

    /** Once a member is rejected a call only takes its input. */
    lemma SwallowsAll(before: Account, input: bytes, limit: int)
      requires fmt.Lawful() && Closed(fmt, done, content) && done <= fed
      requires state == SwallowData && fmt.Rejects(fed[|done|..]) && unconsumedTail == []
      requires content <= sent <= content + fmt.Decode(fed[|done|..])
      requires Tame(fmt, fed, true) ==> sent == content
      requires Meets(Gunzip(fmt), [], |content|, fed, limit, [], false)
      requires before == Account(before.fed, sent, 0, []) && fed == before.fed + input
      ensures Always(sent, limit, Decoded([])) && HoldsIff(limit, [])
      ensures Tame(fmt, fed, true) ==> Keeps(sent, limit, Decoded([])) && TailTells()
                                       && Follows(before, Call(input, limit), Decoded([]))
    {
      hide Closed, Codec.Meets, Tame, Zlib.Format.Rejects, Zlib.Format.Decode, Zlib.Format.Lawful, Keeps, Always,
        Follows,
        HoldsIff, TailTells, Given;
      AddNothing(sent);
      AlwaysSwallowed(sent, limit, Decoded([]));
      HoldsNothing(limit, []);
      GivenAfter(before, input, limit);
      if Tame(fmt, fed, true) {
        KeepsSwallowed(sent, limit, []);
        SwallowedValid(sent, limit);
        if limit == 0 {
          BookedLater(before, input);
        } else {
          Booked(before, input, limit, Decoded([]));
        }
      }
    }

    lemma SwallowedValid(before: bytes, limit: int)
      requires Keeps(before, limit, Decoded([]))
      ensures Valid()
    {
    }

    /** What the calls below add up to. */
    lemma Booked(before: Account, input: bytes, limit: int, r: DecodeResult)
      requires limit != 0 && Keeps(before.sent, limit, r) && HoldsIff(limit, r.data) && before.at <= |before.fed|
      requires fed == Given(before, Call(input, limit))
      ensures Follows(before, Call(input, limit), r)
    {
      hide Valid, Members, FirstCut, Zlib.Inflate.Eof, Take, Given;
      assert [] + fed == fed;
    }

    lemma BookedLater(before: Account, input: bytes)
      requires Valid()
               && (if Holding() then before == Account(before.fed, sent, Boundary(), obj.unused)
                   else before == Account(before.fed, sent, 0, []))
      requires fed == before.fed + input && before.at <= |before.fed|
      ensures Follows(before, Call(input, 0), Decoded([]))
    {
      hide Valid;
      assert sent + [] == sent;
    }

    lemma HoldsNow(limit: int, ret: bytes)
      requires fmt.Lawful() && Closed(fmt, done, content) && state != SwallowData
      requires obj.Valid() && obj.fmt == fmt && fed == done + obj.Fed() && SentUpTo(fmt, content, obj, sent)
      requires if 0 < limit == |ret| then obj.emitted > 0 else obj.tail + obj.unused == []
      ensures HoldsIff(limit, ret)
    {
      hide Closed, SentUpTo, Zlib.Inflate.Valid, Zlib.Inflate.Fed, Zlib.Inflate.Eof, FirstCut;
      if 0 < limit == |ret| {
        HeldIs(fmt, done, content, obj, sent);
      }
    }

    /** The call ends at a member that is rejected. */
    lemma Rejects(before: bytes, limit: int, ret: bytes, r: DecodeResult)
      requires fmt.Lawful() && Closed(fmt, done, content) && done <= fed
      requires state == SwallowData && fmt.Rejects(fed[|done|..]) && unconsumedTail == []
      requires content <= sent <= content + fmt.Decode(fed[|done|..]) && sent == before + ret
      requires r == (if done == [] then Rejected else Decoded(ret)) && (done == [] ==> ret == [])
      requires limit > 0 ==> |ret| < limit
      requires Tame(fmt, fed, true) ==>
                 done != [] && sent == content && Meets(Gunzip(fmt), [], |before|, fed, limit, ret, false)
      ensures HoldsIff(limit, ret) && Always(before, limit, r)
      ensures Tame(fmt, fed, true) ==> Keeps(before, limit, r) && TailTells()
    {
      hide Closed, Zlib.Format.Lawful, Zlib.Format.Rejects, Zlib.Format.Decode, Tame, Codec.Meets, HoldsIff, Always,
        Keeps, TailTells;
      HoldsNothing(limit, ret);
      AlwaysSwallowed(before, limit, r);
      if Tame(fmt, fed, true) {
        KeepsSwallowed(before, limit, ret);
      }
    }

    /** The call ends with its limit filled or its input used up. */
    lemma Finishes(before: bytes, limit: int, ret: bytes)
      requires fmt.Lawful() && Closed(fmt, done, content) && (done == [] <==> state == FirstMember)
               && state != SwallowData
      requires obj.Valid() && obj.fmt == fmt && obj.tail + obj.unused == unconsumedTail
      requires fed == done + obj.Fed() && SentUpTo(fmt, content, obj, sent) && sent == before + ret
      requires limit != 0 && (limit > 0 ==> |ret| <= limit)
      requires if 0 < limit == |ret| then obj.emitted > 0 else unconsumedTail == []
      ensures HoldsIff(limit, ret) && Always(before, limit, Decoded(ret))
      ensures Tame(fmt, fed, true) ==> Keeps(before, limit, Decoded(ret)) && TailTells()
    {
      hide Closed, SentUpTo, Zlib.Inflate.Valid, Zlib.Inflate.Fed, Zlib.Inflate.Eof, Zlib.Format.Lawful, HoldsIff,
        Always, Keeps,
        TailTells;
      FedParts(obj);
      HoldsNow(limit, ret);
      AlwaysNow(before, limit, ret);
      if Tame(fmt, fed, true) {
        KeepsTame(before, limit, Decoded(ret));
      }
    }

    lemma HoldsNothing(limit: int, out: bytes)
      requires !Holding() && !(0 < limit == |out|)
      ensures HoldsIff(limit, out) && (unconsumedTail == [] ==> TailTells())
    {
    }

    /** The loop over members; `more` is `input` without the tail the current decompressor asked to have back. */
    method Inflate(input: bytes, maxLength: int, ghost more: bytes) returns (r: DecodeResult)
      requires fmt.Lawful() && Closed(fmt, done, content) && (done == [] <==> state == FirstMember)
               && state != SwallowData
      requires obj.Valid() && obj.fmt == fmt && SentUpTo(fmt, content, obj, sent)
      requires maxLength != 0 && input == obj.tail + more && fed == done + (obj.Fed() + more)
      modifies this
      ensures fed == old(fed) && Always(old(sent), maxLength, r)
      ensures r.Rejected? <==> done == [] && state == SwallowData
      ensures Tame(fmt, fed, true) ==> Keeps(old(sent), maxLength, r) && r.Decoded? && TailTells()
      ensures r.Decoded? ==> HoldsIff(maxLength, r.data)
    {
      hide Closed, SentUpTo, Zlib.Inflate.Valid, Zlib.Inflate.Fed, Zlib.Inflate.Decompress, Zlib.Inflate.Eof,
        Codec.Meets, Zlib.Format.Lawful, Tame, Zlib.Format.Rejects, Zlib.Format.Decode, Always,
        Zlib.NewInflate, Members, Gunzip, Keeps, Valid, HoldsIff, TailTells;
      var ret, data := [], input;
      ghost var rest := more;
      assert old(sent) + ret == sent;
      while true
        invariant fed == old(fed) && Closed(fmt, done, content) && (done == [] <==> state == FirstMember)
                  && state != SwallowData
        invariant obj.Valid() && obj.fmt == fmt && SentUpTo(fmt, content, obj, old(sent) + ret)
        invariant data == obj.tail + rest && fed == done + (obj.Fed() + rest)
        invariant (maxLength > 0 ==> |ret| < maxLength) && (state == FirstMember ==> ret == [])
        decreases if obj.Eof() then 1 else 0, |data|
      {
        Turn(fmt, content, obj, rest, old(sent), ret, maxLength);
        match obj.Decompress(data, if maxLength > |ret| then maxLength - |ret| else 0)
        case ZlibError =>
          Swallowed(fmt, done, content, obj, rest, state == FirstMember, old(sent), ret, maxLength);
          var previous := state;
          state, unconsumedTail, sent := SwallowData, [], old(sent) + ret;
          r := if previous == OtherMembers then Decoded(ret) else Rejected;
          Rejects(old(sent), maxLength, ret, r);
          return;
        case Ok(next, out) =>
          ghost var was := obj;
          obj, ret := next, ret + out;
          data := if obj.tail != [] then obj.tail else obj.unused;
          assert data == obj.tail + obj.unused;
          unconsumedTail, sent := data, old(sent) + ret;
          if (maxLength > 0 && |ret| >= maxLength) || data == [] {
            Finishes(old(sent), maxLength, ret);
            return Decoded(ret);
          }
          if obj.Eof() {
            NextMember(fmt, done, content, was, obj, rest, sent);
            Handover(fmt, done, obj.taken, data);
            done, content, rest := done + obj.taken, content + fmt.out(obj.taken), data;
            obj, state := NewInflate(fmt), OtherMembers;
          }
      }
    }
  }

  lemma GivenAfter(a: Account, input: bytes, limit: int)
    requires a.at <= |a.fed|
    ensures limit == 0 || a.held == [] ==> Given(a, Call(input, limit)) == a.fed + input
  {
  }

  lemma FedParts(z: Inflate)
    requires z.Valid()
    ensures z.Fed() == z.taken + (z.tail + z.unused)
    ensures z.Eof() ==> z.tail == []
    ensures !z.Eof() ==> z.unused == []
  {
  }

  /** The bytes a finished decompressor holds come up twice: from itself and from the tail kept beside it. */
  lemma Replay(done: bytes, z: Inflate, tail: bytes, input: bytes, a: Account, limit: int)
    requires z.Valid() && z.tail + z.unused <= tail && limit != 0
    requires a.fed == done + (z.taken + tail) && a.at <= |a.fed|
    requires if z.Eof() && z.unused != [] then a.at == |done| + |z.taken| && a.held == z.unused else a.held == []
    ensures var more := tail[|z.tail|..] + input;
            tail + input == z.tail + more && done + (z.Fed() + more) == Given(a, Call(input, limit))
  {
    hide Zlib.Inflate.Valid, Zlib.Inflate.Fed, Zlib.Inflate.Eof;
    FedParts(z);
    hide Given;
    if z.unused == [] {
      GivenAfter(a, input, limit);
      ReplayNothing(done, z.taken, z.tail, tail, input);
    } else {
      GivenTwice(a, input, limit);
      ReplayHeld(done, z.taken, z.unused, tail, input);
    }
  }

  lemma GivenTwice(a: Account, input: bytes, limit: int)
    requires a.at <= |a.fed| && a.held != [] && limit != 0
    ensures Given(a, Call(input, limit)) == a.fed[..a.at] + a.held + a.fed[a.at..] + input
  {
  }

  lemma ReplayNothing(done: bytes, taken: bytes, back: bytes, tail: bytes, input: bytes)
    requires back + [] <= tail
    ensures var more := tail[|back|..] + input;
            tail + input == back + more && done + (taken + (back + []) + more) == done + (taken + tail) + input
  {
    AddNothing(back);
    var left := tail[|back|..];
    assert tail == back + left;
    Regroup(back, left, input);
    Regroup(taken, back, left + input);
    Regroup(taken, tail, input);
    Regroup(done, taken + tail, input);
  }

  lemma ReplayHeld(done: bytes, taken: bytes, held: bytes, tail: bytes, input: bytes)
    ensures var more, fed, n := tail[0..] + input, done + (taken + tail), |done| + |taken|;
            && tail + input == [] + more
            && done + (taken + ([] + held) + more) == fed[..n] + held + fed[n..] + input
  {
    var fed, n := done + (taken + tail), |done| + |taken|;
    assert fed[..n] == done + taken && fed[n..] == tail && tail[0..] == tail && [] + held == held;
    Regroup(taken, held, tail + input);
    Regroup(done, taken, held + (tail + input));
    Regroup(done + taken, held, tail + input);
    Regroup(done + taken + held, tail, input);
  }

  lemma Handover(f: Format, done: bytes, taken: bytes, data: bytes)
    ensures NewInflate(f).tail == [] && NewInflate(f).fmt == f && NewInflate(f).tail + data == data
    ensures done + (taken + ([] + data)) == done + taken + (NewInflate(f).Fed() + data)
  {
    assert NewInflate(f).Fed() == [];
  }

  lemma SwallowMore(f: Format, done: bytes, content: bytes, fed: bytes, more: bytes, limit: int, sent: bytes)
    requires f.Lawful() && Closed(f, done, content) && done <= fed && f.Rejects(fed[|done|..])
    requires content <= sent <= content + f.Decode(fed[|done|..])
    ensures done <= fed + more && f.Rejects((fed + more)[|done|..])
            && sent <= content + f.Decode((fed + more)[|done|..])
            && Meets(Gunzip(f), [], |content|, fed + more, limit, [], false)
    ensures Tame(f, fed + more, true) ==> sent == content
  {
    var x := fed[|done|..];
    Behind(done, fed, more);
    ClosedSplits(f, done, content, x + more);
    DecodeExtends(f, x, more);
    RefusedGivesNothing(f, x + more, done == []);
    hide Tame, Members, Closed, Zlib.Format.Decode, Zlib.Format.Lawful, Zlib.Format.Rejects;
    AddNothing(content);
  }

  lemma Behind(done: bytes, fed: bytes, more: bytes)
    requires done <= fed
    ensures done <= fed + more && fed + more == done + (fed[|done|..] + more)
    ensures (fed + more)[|done|..] == fed[|done|..] + more && [] + (fed + more) == fed + more
  {
  }

  /** What a tame stream refuses holds nothing. */
  lemma RefusedGivesNothing(f: Format, x: bytes, first: bool)
    requires f.Rejects(x)
    ensures Members(f, x) == [] && (Tame(f, x, first) ==> f.Decode(x) == [])
  {
  }

  /** A call with limit zero only puts its input aside. */
  lemma Stash(f: Format, done: bytes, content: bytes, z: Inflate, tail: bytes, more: bytes, sent: bytes)
    requires f.Lawful() && Closed(f, done, content) && z.Valid() && z.fmt == f && SentUpTo(f, content, z, sent)
    requires z.tail + z.unused <= tail
    ensures Meets(Giving(f), [], |sent|, done + (z.taken + (tail + more)), 0, [], tail + more != [])
    ensures z.tail + z.unused <= tail + more && done + (z.taken + tail) + more == done + (z.taken + (tail + more))
  {
    Regroup(z.taken, tail, more);
    Regroup(done, z.taken + tail, more);
    var y := tail[|z.tail + z.unused|..] + more;
    var x := z.taken + (tail + more);
    assert tail == z.tail + z.unused + tail[|z.tail + z.unused|..];
    assert x == z.Fed() + y;
    ClosedGives(f, done, content, x);
    assert [] + (done + x) == done + x;
    DecodeExtends(f, z.Fed(), y);
    DecodeIsGiven(f, x);
    if tail + more == [] {
      assert x == z.Fed();
      InflateDrained(z);
      DrainedEnd(z);
    }
  }

  /** A member the format rejects: what had come out is part of what it gives; on a tame stream it is not the first one,
      and nothing of it had come out. */
  lemma Swallowed(f: Format, done: bytes, content: bytes, z: Inflate, rest: bytes, first: bool, before: bytes,
                  ret: bytes, limit: int)
    requires f.Lawful() && Closed(f, done, content) && z.Valid() && z.fmt == f && SentUpTo(f, content, z, before + ret)
    requires f.Rejects(z.Fed() + rest) && (first <==> done == []) && (limit >= 0 ==> |ret| <= limit)
    ensures var fed := done + (z.Fed() + rest);
            && done <= fed && f.Rejects(fed[|done|..])
            && content <= before + ret <= content + f.Decode(fed[|done|..])
            && (Tame(f, fed, true) ==>
                  !first && before + ret == content && Meets(Gunzip(f), [], |before|, fed, limit, ret, false))
  {
    var x := z.Fed() + rest;
    var fed := done + x;
    ClosedSplits(f, done, content, x);
    assert fed[|done|..] == x && [] + fed == fed;
    DecodeExtends(f, z.Fed(), rest);
    if Tame(f, fed, true) {
      assert Members(f, fed) == content + [] == content == before + ret;
      assert (before + ret)[|before|..] == ret;
    }
  }

  /** What one turn of the loop leaves behind: output within the limit, and input held back only for a good reason. */
  lemma Turn(f: Format, content: bytes, z: Inflate, rest: bytes, before: bytes, ret: bytes, maxLength: int)
    requires f.Lawful() && z.Valid() && z.fmt == f && SentUpTo(f, content, z, before + ret)
    requires maxLength > 0 ==> |ret| < maxLength
    ensures var r := z.Decompress(z.tail + rest, if maxLength > |ret| then maxLength - |ret| else 0);
            if r.Ok? then
              && r.obj.Valid() && r.obj.fmt == f && r.obj.Fed() == z.Fed() + rest
              && r.obj.Fed() == r.obj.taken + (r.obj.tail + r.obj.unused)
              && SentUpTo(f, content, r.obj, before + (ret + r.data))
              && (maxLength > 0 ==> |ret + r.data| <= maxLength) && r.obj.emitted == z.emitted + |r.data|
              && (r.obj.tail != [] ==> 0 < maxLength == |ret + r.data| && r.obj.unused == [])
              && (r.obj.unused != [] ==> r.obj.Eof())
            else
              f.Rejects(z.Fed() + rest)
  {
    hide Zlib.Inflate.Decompress, SentUpTo, Zlib.Inflate.Valid, Zlib.Inflate.Fed, Zlib.Inflate.Eof, Zlib.Format.Decode,
      Zlib.Format.Lawful;
    Advance(f, content, z, rest, if maxLength > |ret| then maxLength - |ret| else 0, before + ret);
    var r := z.Decompress(z.tail + rest, if maxLength > |ret| then maxLength - |ret| else 0);
    if r.Ok? {
      FedParts(r.obj);
      assert before + ret + r.data == before + (ret + r.data);
    }
  }

  lemma OpenPrefixes(f: Format, open: bytes, part: bytes)
    requires f.Open(open, |open|) && part <= open
    ensures |part| < |open| ==> !f.fin(part)
  {
    if |part| < |open| {
      assert f.Going(open, |part|) && open[..|part|] == part;
    }
  }

  /** A stream is complete only beyond any prefix that was still open. */
  lemma EofIsLater(f: Format, open: bytes, complete: bytes, x: bytes)
    requires f.Open(open, |open|) && !f.fin(open) && f.fin(complete)
    requires open <= x && complete <= x
    ensures |open| < |complete|
  {
    if |complete| <= |open| {
      assert complete == open[..|complete|] && open[..|open|] == open;
      OpenPrefixes(f, open, complete);
    }
  }

  /** The finished member is closed, and what is left over is shorter than what was passed in. */
  lemma NextMember(f: Format, done: bytes, content: bytes, was: Inflate, z: Inflate, rest: bytes, sent: bytes)
    requires f.Lawful() && Closed(f, done, content) && was.Valid() && z.Valid() && z.fmt == was.fmt == f
    requires z.Eof() && z.Fed() == was.Fed() + rest && SentUpTo(f, content, z, sent)
    ensures Closed(f, done + z.taken, content + f.out(z.taken)) && z.taken != []
    ensures SentUpTo(f, content + f.out(z.taken), NewInflate(f), sent)
    ensures NewInflate(f).Valid() && NewInflate(f).Fed() == [] && !NewInflate(f).Eof()
    ensures was.Eof() || |z.unused| < |was.tail + rest|
  {
    ClosedSnoc(f, done, content, z.taken);
    InflateDrained(z);
    assert f.Decode(z.Fed())[..z.emitted] == f.out(z.taken);
    assert NewInflate(f).Fed() == [];
    if !was.Eof() {
      var x := was.taken + (was.tail + rest);
      assert z.taken + z.unused == z.Fed();
      assert was.Fed() + rest == x;
      assert x[..|was.taken|] == was.taken && x[..|z.taken|] == z.taken;
      EofIsLater(f, was.taken, z.taken, x);
    }
  }

  /** The contents of members laid end to end. */
  function Contents(f: Format, members: seq<bytes>): bytes {
    if members == [] then [] else f.out(members[0]) + Contents(f, members[1..])
  }

  /** A series of complete members followed by nothing, or by garbage refused without output. */
  ghost predicate Series(f: Format, members: seq<bytes>, garbage: bytes) {
    && members != []
    && (forall m :: m in members ==> Complete(f, m))
    && (garbage == [] || (f.Rejects(garbage) && f.Decode(garbage) == []))
  }

  /** Such a stream is tame and holds exactly the members' contents. */
  lemma {:induction false} SeriesDecodes(f: Format, members: seq<bytes>, garbage: bytes)
    requires f.Lawful() && Series(f, members, garbage)
    ensures var x := Flatten(members) + garbage;
            Members(f, x) == Contents(f, members) && forall first :: Tame(f, x, first)
  {
    hide Complete;
    var m, rest := members[0], members[1..];
    var y := Flatten(rest) + garbage;
    assert Flatten(members) + garbage == m + y;
    CompleteFirst(f, m, y);
    if rest != [] {
      SeriesDecodes(f, rest, garbage);
      CompleteTame(f, m, y);
    } else {
      assert Flatten(rest) == [] && y == garbage;
      CompleteTame(f, m, y);
      assert Contents(f, rest) == [];
    }
  }

  lemma CompleteTame(f: Format, m: bytes, y: bytes)
    requires f.Lawful() && Complete(f, m) && (y == [] || Tame(f, y, false))
    ensures forall first :: Tame(f, m + y, first)
  {
    CompleteEnd(f, m, y);
  }

  lemma ChunkStep(f: Format, chunks: seq<bytes>, i: nat)
    requires f.Lawful() && Tame(f, Flatten(chunks), true) && i < |chunks|
    ensures var x, y := Flatten(chunks[..i]), Flatten(chunks[..i + 1]);
            && y == x + chunks[i] == [] + y && Tame(f, y, true) && Members(f, x) <= Members(f, y)
  {
    FlattenSplit(chunks, i);
    FlattenCut(chunks, i + 1);
    TamePrefix(f, Flatten(chunks[..i + 1]), Flatten(chunks[i + 1..]), true);
    MembersExtend(f, Flatten(chunks[..i]), chunks[i], true);
  }

  /** Cut the stream anywhere: calls without a limit put the members' contents out, once and in order. */
  method DecodeChunks(fmt: Format, chunks: seq<bytes>, ghost members: seq<bytes>, ghost garbage: bytes)
      returns (out: bytes)
    requires fmt.Lawful() && Series(fmt, members, garbage) && Flatten(chunks) == Flatten(members) + garbage
    ensures out == Contents(fmt, members)
  {
    assert chunks[..0] == [] && Flatten<byte>([]) == [];
    MembersOfNothing(fmt);
    hide Tame, GzipDecoder.Always, GzipDecoder.Follows, GzipDecoder.HoldsIff, GzipDecoder.TailTells, Zlib.Format.Lawful,
      Zlib.Format.Rejects, Series, Members, Contents, Closed, SentUpTo, Zlib.Inflate.Valid,
      Zlib.Inflate.Fed, Zlib.Inflate.Eof, Flatten;
    var decoder := new GzipDecoder(fmt);
    out := [];
    SeriesDecodes(fmt, members, garbage);
    var i := 0;
    while i < |chunks|
      invariant 0 <= i <= |chunks| && decoder.fmt == fmt && fresh(decoder)
      invariant decoder.Valid() && !decoder.Holding() && decoder.sent == out
      invariant decoder.fed == Flatten(chunks[..i]) && out == Members(fmt, decoder.fed)
    {
      ChunkStep(fmt, chunks, i);
      var r := decoder.Decompress(chunks[i], -1);
      out := out + r.data;
      i := i + 1;
    }
    assert chunks[..|chunks|] == chunks;
  }

  /** A stream is tame only if each of its prefixes is. */
  lemma {:induction false} TamePrefix(f: Format, x: bytes, y: bytes, first: bool)
    requires f.Lawful() && Tame(f, x + y, first)
    ensures Tame(f, x, first)
    decreases |x|
  {
    ReachExtends(f, x, y, 0);
    ReachStop(f, x, 0);
    var p := f.End(x);
    assert (x + y)[..p] == x[..p];
    if 0 < p < |x| && !f.bad(x[..p]) {
      assert (x + y)[p..] == x[p..] + y;
      TamePrefix(f, x[p..], y, false);
    }
  }

  lemma MembersOfNothing(f: Format)
    requires f.out([]) == [] && !f.bad([])
    ensures Members(f, []) == []
  {
  }

  /** On a tame stream, feeding more only adds to the contents. */
  lemma {:induction false} MembersExtend(f: Format, x: bytes, y: bytes, first: bool)
    requires f.Lawful() && Tame(f, x + y, first)
    ensures Members(f, x) <= Members(f, x + y)
    decreases |x|
  {
    ReachExtends(f, x, y, 0);
    ReachStop(f, x, 0);
    DecodeExtends(f, x, y);
    var p := f.End(x);
    assert (x + y)[..p] == x[..p];
    if 0 < p < |x| && !f.bad(x[..p]) {
      assert (x + y)[p..] == x[p..] + y;
      MembersExtend(f, x[p..], y, false);
    }
  }
}
