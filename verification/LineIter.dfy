/** response.py HTTPResponse.__iter__: the body line by line, however it arrives in chunks. */
module LineIter {
  import opened Bytes

  const NL: byte := 10

  /** The newline-terminated pieces of `s` and a final non-empty remainder. */
  function Lines(s: bytes): seq<bytes> {
    LinesAfter([], s)
  }

  /** The same with `open` already read of the current line. */
  function LinesAfter(open: bytes, s: bytes): seq<bytes>
    decreases |s|
  {
    if s == [] then (if open == [] then [] else [open])
    else if s[0] == NL then [open + [NL]] + LinesAfter([], s[1..])
    else LinesAfter(open + [s[0]], s[1..])
  }

  /** Python's `split(b"\n")`: the parts between newlines, one more than there are newlines. */
  function Split(s: bytes): (r: seq<bytes>)
    ensures |r| >= 1
  {
    if s == [] then [[]]
    else if s[0] == NL then [[]] + Split(s[1..])
    else var r := Split(s[1..]); [[s[0]] + r[0]] + r[1..]
  }

  /** Each part but the last ends a line. */
  function Terminated(parts: seq<bytes>): seq<bytes> {
    if parts == [] then [] else [parts[0] + [NL]] + Terminated(parts[1..])
  }

  lemma {:induction false} TerminatedSnoc(parts: seq<bytes>, p: bytes)
    ensures Terminated(parts + [p]) == Terminated(parts) + [p + [NL]]
  {
    if parts == [] {
      assert [] + [p] == [p];
    } else {
      assert (parts + [p])[1..] == parts[1..] + [p];
      TerminatedSnoc(parts[1..], p);
    }
  }

  /** What is read of a chunk with parts `r`, an open line before it and `rest` after it. */
  function ReadParts(open: bytes, r: seq<bytes>, rest: bytes): seq<bytes>
    requires |r| >= 1
  {
    if |r| == 1 then LinesAfter(open + r[0], rest)
    else [open + r[0] + [NL]] + Terminated(r[1..|r| - 1]) + LinesAfter(r[|r| - 1], rest)
  }

  /** A newline at the front of the chunk closes the open line. */
  lemma NewlineFirst(open: bytes, t: seq<bytes>, rest: bytes)
    requires |t| >= 1
    ensures ReadParts(open, [[]] + t, rest) == [open + [NL]] + ReadParts([], t, rest)
  {
    hide LinesAfter;
    var r := [[]] + t;
    assert open + r[0] == open && [] + t[0] == t[0];
    if |t| > 1 {
      assert r[1..|r| - 1] == [t[0]] + t[1..|t| - 1];
      assert ([t[0]] + t[1..|t| - 1])[1..] == t[1..|t| - 1];
      assert r[|r| - 1] == t[|t| - 1];
    }
  }

  /** Any other byte joins the open line. */
  lemma OtherFirst(open: bytes, b: byte, t: seq<bytes>, rest: bytes)
    requires |t| >= 1
    ensures ReadParts(open, [[b] + t[0]] + t[1..], rest) == ReadParts(open + [b], t, rest)
  {
    hide LinesAfter;
    var r := [[b] + t[0]] + t[1..];
    assert open + [b] + t[0] == open + r[0];
    if |t| > 1 {
      assert r[1..|r| - 1] == t[1..|t| - 1];
      assert r[|r| - 1] == t[|t| - 1];
    }
  }

  /** Reading a whole chunk yields its terminated parts, the first one completing the open line; the last part stays
      open. */
  lemma {:induction false} LinesOfChunk(open: bytes, chunk: bytes, rest: bytes)
    ensures LinesAfter(open, chunk + rest) == ReadParts(open, Split(chunk), rest)
    decreases |chunk|
  {
    if chunk == [] {
      assert chunk + rest == rest && open + [] == open;
    } else {
      hide ReadParts;
      assert (chunk + rest)[1..] == chunk[1..] + rest;
      var t := Split(chunk[1..]);
      if chunk[0] == NL {
        LinesOfChunk([], chunk[1..], rest);
        NewlineFirst(open, t, rest);
      } else {
        LinesOfChunk(open + [chunk[0]], chunk[1..], rest);
        OtherFirst(open, chunk[0], t, rest);
      }
    }
  }

  /** Without a newline a chunk is one part. */
  lemma {:induction false} SplitWhole(s: bytes)
    ensures |Split(s)| == 1 <==> NL !in s
    ensures NL !in s ==> Split(s) == [s]
  {
    if s == [] {
    } else {
      SplitWhole(s[1..]);
      assert [s[0]] + s[1..] == s;
    }
  }

  /** The pieces joined give the body back. */
  lemma {:induction false} LinesJoin(open: bytes, s: bytes)
    ensures Flatten(LinesAfter(open, s)) == open + s
    decreases |s|
  {
    if s == [] {
      assert open + s == open;
      assert Flatten([open]) == open + [];
    } else if s[0] == NL {
      LinesJoin([], s[1..]);
      assert [NL] + s[1..] == s;
      assert open + [NL] + ([] + s[1..]) == open + s;
    } else {
      LinesJoin(open + [s[0]], s[1..]);
      assert open + [s[0]] + s[1..] == open + s;
    }
  }

  ghost predicate IsLine(l: bytes) {
    l != [] && NL !in l[..|l| - 1]
  }

  ghost predicate AllLines(ls: seq<bytes>) {
    forall i :: 0 <= i < |ls| ==> IsLine(ls[i]) && (i < |ls| - 1 ==> ls[i][|ls[i]| - 1] == NL)
  }

  lemma AllLinesCons(open: bytes, t: seq<bytes>)
    requires NL !in open && AllLines(t)
    ensures AllLines([open + [NL]] + t)
  {
    var l, ls := open + [NL], [open + [NL]] + t;
    assert l[..|open|] == open;
    forall i | 0 <= i < |ls|
      ensures IsLine(ls[i]) && (i < |ls| - 1 ==> ls[i][|ls[i]| - 1] == NL)
    {
      assert ls[i] == if i == 0 then l else t[i - 1];
    }
  }

  /** Every piece is one line, and every piece but the last ends with its newline. */
  lemma {:induction false} LinesAreLines(open: bytes, s: bytes)
    requires NL !in open
    ensures AllLines(LinesAfter(open, s))
    decreases |s|
  {
    if s == [] {
      assert open != [] ==> NL !in open[..|open| - 1];
    } else if s[0] == NL {
      LinesAreLines([], s[1..]);
      AllLinesCons(open, LinesAfter([], s[1..]));
    } else {
      LinesAreLines(open + [s[0]], s[1..]);
    }
  }

  lemma LinesAtEnd(open: bytes)
    ensures LinesAfter(open, []) == if open == [] then [] else [open]
    ensures forall s :: Lines(s) == [] + LinesAfter([], s)
  {
  }

  lemma {:induction false} FlattenNonEmpty(parts: seq<bytes>)
    requires [] !in parts
    ensures Flatten(parts) == [] <==> parts == []
  {
    if parts == [] {
    } else {
      assert parts[0] in parts;
    }
  }

  /** The terminated parts in the middle of a chunk. */
  method Terminate(parts: seq<bytes>) returns (lines: seq<bytes>)
    ensures lines == Terminated(parts)
  {
    lines := [];
    var i := 0;
    while i < |parts|
      invariant 0 <= i <= |parts| && lines == Terminated(parts[..i])
    {
      assert parts[..i + 1] == parts[..i] + [parts[i]];
      TerminatedSnoc(parts[..i], parts[i]);
      lines := lines + [parts[i] + [NL]];
      i := i + 1;
    }
    assert parts[..|parts|] == parts;
  }

  /** `__iter__` over the chunks `stream` yields: the lines of the whole body, wherever the chunks were cut. */
  method Iterate(chunks: seq<bytes>) returns (lines: seq<bytes>)
    requires [] !in chunks
    ensures lines == Lines(Flatten(chunks))
  {
    hide LinesAfter, Split, Terminated, Lines;
    lines := [];
    var buffer: seq<bytes> := [];
    var k := 0;
    assert chunks[0..] == chunks;
    LinesAtEnd([]);
    while k < |chunks|
      invariant 0 <= k <= |chunks| && [] !in buffer
      invariant Lines(Flatten(chunks)) == lines + LinesAfter(Flatten(buffer), Flatten(chunks[k..]))
    {
      var chunk := chunks[k];
      assert chunks[k..][1..] == chunks[k + 1..];
      LinesOfChunk(Flatten(buffer), chunk, Flatten(chunks[k + 1..]));
      SplitWhole(chunk);
      if NL in chunk {
        var parts := Split(chunk);
        var last := |parts| - 1;
        var middle := Terminate(parts[1..last]);
        lines := lines + [Flatten(buffer) + parts[0] + [NL]] + middle;
        buffer := if parts[last] != [] then [parts[last]] else [];
        assert Flatten(buffer) == parts[last];
      } else {
        FlattenSnoc(buffer, chunk);
        buffer := buffer + [chunk];
      }
      k := k + 1;
    }
    LinesAtEnd(Flatten(buffer));
    FlattenNonEmpty(buffer);
    if buffer != [] {
      lines := lines + [Flatten(buffer)];
    }
  }
}
