/** util/url.py `_remove_path_dot_segments`, and the algorithm of section 5.2.4 of RFC 3986 it stands for. */
module UrlPath {
  /** `split("/")`: never empty. */
  function Split(path: string): (r: seq<string>)
    ensures r != [] && forall i :: 0 <= i < |r| ==> '/' !in r[i]
  {
    if path == "" then [""]
    else
      var rest := Split(path[1..]);
      if path[0] == '/' then [""] + rest else [[path[0]] + rest[0]] + rest[1..]
  }

  /** `"/".join`. */
  function Join(segments: seq<string>): string {
    if segments == [] then "" else if |segments| == 1 then segments[0] else segments[0] + "/" + Join(segments[1..])
  }

  predicate IsDots(segment: string) {
    segment == "." || segment == ".."
  }

  /** The loop: "." is skipped, ".." takes the last segment back, anything else is kept. */
  function Push(output: seq<string>, segment: string): seq<string> {
    if segment == "." then output
    else if segment != ".." then output + [segment]
    else if output != [] then output[..|output| - 1] else output
  }

  function Fold(output: seq<string>, segments: seq<string>): seq<string>
    decreases |segments|
  {
    if segments == [] then output else Fold(Push(output, segments[0]), segments[1..])
  }

  predicate StartsWith(s: string, prefix: string) {
    |prefix| <= |s| && s[..|prefix|] == prefix
  }

  predicate EndsWith(s: string, suffix: string) {
    |suffix| <= |s| && s[|s| - |suffix|..] == suffix
  }

  /** The list of segments that is joined in the end. */
  function Cleaned(path: string): seq<string> {
    var output := Fold([], Split(path));
    var rooted := if StartsWith(path, "/") && (output == [] || output[0] != "") then [""] + output else output;
    if EndsWith(path, "/.") || EndsWith(path, "/..") then rooted + [""] else rooted
  }

  method RemovePathDotSegments(path: string) returns (r: string)
    ensures r == Join(Cleaned(path))
  {
    var segments := Split(path);
    var output: seq<string> := [];
    for i := 0 to |segments|
      invariant output == Fold([], segments[..i])
    {
      FoldSnoc([], segments, i);
      if segments[i] == "." {
        continue;
      }
      if segments[i] != ".." {
        output := output + [segments[i]];
      } else if output != [] {
        output := output[..|output| - 1];
      }
    }
    assert segments[..|segments|] == segments;
    if StartsWith(path, "/") && (output == [] || output[0] != "") {
      output := [""] + output;
    }
    if EndsWith(path, "/.") || EndsWith(path, "/..") {
      output := output + [""];
    }
    r := Join(output);
  }

  lemma {:induction false} FoldSnoc(output: seq<string>, segments: seq<string>, i: nat)
    requires i < |segments|
    ensures Fold(output, segments[..i + 1]) == Push(Fold(output, segments[..i]), segments[i])
    decreases i
  {
    if i == 0 {
      assert segments[..1][1..] == [];
    } else {
      var rest := segments[1..];
      assert segments[..i + 1][1..] == rest[..i] && segments[..i][1..] == rest[..i - 1];
      FoldSnoc(Push(output, segments[0]), rest, i - 1);
    }
  }

  // ---- splitting and joining ---------------------------------------------------------------------

  lemma {:induction false} JoinSplit(path: string)
    ensures Join(Split(path)) == path
  {
    if path == "" {
    } else {
      JoinSplit(path[1..]);
      var rest := Split(path[1..]);
      if path[0] == '/' {
        assert ([""] + rest)[1..] == rest;
      } else if |rest| > 1 {
        assert ([[path[0]] + rest[0]] + rest[1..])[1..] == rest[1..];
        assert [path[0]] + (rest[0] + "/" + Join(rest[1..])) == ([path[0]] + rest[0]) + "/" + Join(rest[1..]);
      } else {
        assert rest[1..] == [];
      }
    }
  }

  lemma {:induction false} SplitAppend(segment: string, more: string)
    requires '/' !in segment
    ensures Split(segment + "/" + more) == [segment] + Split(more)
    ensures Split(segment) == [segment]
  {
    if segment == "" {
      assert ("" + "/" + more)[1..] == more;
    } else {
      SplitAppend(segment[1..], more);
      assert (segment + "/" + more)[1..] == segment[1..] + "/" + more;
      assert ([segment[1..]] + Split(more))[1..] == Split(more);
      assert [segment[0]] + segment[1..] == segment;
    }
  }

  lemma {:induction false} SplitJoin(segments: seq<string>)
    requires segments != [] && forall i :: 0 <= i < |segments| ==> '/' !in segments[i]
    ensures Split(Join(segments)) == segments
  {
    if |segments| == 1 {
      SplitAppend(segments[0], "");
    } else {
      SplitJoin(segments[1..]);
      SplitAppend(segments[0], Join(segments[1..]));
    }
  }

  // ---- no dot segments are left ------------------------------------------------------------------

  predicate DotFree(segments: seq<string>) {
    forall i :: 0 <= i < |segments| ==> !IsDots(segments[i]) && '/' !in segments[i]
  }

  lemma {:induction false} FoldDotFree(output: seq<string>, segments: seq<string>)
    requires DotFree(output) && forall i :: 0 <= i < |segments| ==> '/' !in segments[i]
    ensures DotFree(Fold(output, segments))
    ensures DotFree(segments) ==> Fold(output, segments) == output + segments
    decreases |segments|
  {
    if segments == [] {
      assert output + segments == output;
    } else {
      FoldDotFree(Push(output, segments[0]), segments[1..]);
      assert (output + [segments[0]]) + segments[1..] == output + segments;
    }
  }

  lemma CleanedDotFree(path: string)
    ensures DotFree(Cleaned(path))
  {
    FoldDotFree([], Split(path));
  }

  function Last(segments: seq<string>): string
    requires segments != []
  {
    segments[|segments| - 1]
  }

  lemma {:induction false} JoinSnoc(segments: seq<string>, last: string)
    requires segments != []
    ensures Join(segments + [last]) == Join(segments) + "/" + last
  {
    if |segments| == 1 {
      assert (segments + [last])[1..] == [last];
    } else {
      JoinSnoc(segments[1..], last);
      assert (segments + [last])[1..] == segments[1..] + [last];
      assert segments[0] + "/" + (Join(segments[1..]) + "/" + last) == segments[0] + "/" + Join(segments[1..]) + "/"
             + last;
    }
  }

  lemma EndsInDots(init: string, last: string)
    requires '/' !in last
    ensures EndsWith(init + "/" + last, "/.") <==> last == "."
    ensures EndsWith(init + "/" + last, "/..") <==> last == ".."
    ensures !EndsWith(last, "/.") && !EndsWith(last, "/..")
  {
    var path := init + "/" + last;
    assert |last| >= 2 ==> path[|path| - 2] == last[|last| - 2];
    assert |last| >= 3 ==> path[|path| - 3] == last[|last| - 3];
    assert |last| >= 1 ==> path[|path| - 1] == last[|last| - 1];
    assert path[|path| - 1 - |last|] == '/';
    assert EndsWith(path, "/.") ==> path[|path| - 2] == '/' && path[|path| - 1] == '.';
    assert EndsWith(path, "/..") ==> path[|path| - 3] == '/' && path[|path| - 2] == '.' && path[|path| - 1] == '.';
    assert |last| >= 2 ==> last[|last| - 2..][0] == last[|last| - 2] && last[|last| - 2] != '/';
    assert |last| >= 3 ==> last[|last| - 3..][0] == last[|last| - 3] && last[|last| - 3] != '/';
  }

  lemma StartsWithSlash(path: string)
    ensures StartsWith(path, "/") <==> |Split(path)| > 1 && Split(path)[0] == ""
  {
    assert path != "" ==> path[..1] == [path[0]];
  }

  /** What the ends of a path say about its first and last segments. */
  lemma Ends(path: string)
    ensures (EndsWith(path, "/.") || EndsWith(path, "/..")) <==> |Split(path)| > 1 && IsDots(Last(Split(path)))
    ensures StartsWith(path, "/") <==> |Split(path)| > 1 && Split(path)[0] == ""
  {
    StartsWithSlash(path);
    JoinSplit(path);
    var s := Split(path);
    hide Split, StartsWith, EndsWith;
    if |s| > 1 {
      var init := s[..|s| - 1];
      assert s == init + [Last(s)];
      JoinSnoc(init, Last(s));
      hide Join;
      EndsInDots(Join(init), Last(s));
    } else {
      EndsInDots("", s[0]);
    }
  }

  lemma {:induction false} FoldKeepsRoot(output: seq<string>, segments: seq<string>)
    requires DotFree(segments)
    ensures Fold(output, segments) == output + segments
    decreases |segments|
  {
    if segments == [] {
    } else {
      FoldKeepsRoot(output + [segments[0]], segments[1..]);
      assert (output + [segments[0]]) + segments[1..] == output + segments;
    }
  }

  lemma CleanedFixed(path: string)
    requires DotFree(Split(path))
    ensures Cleaned(path) == Split(path)
  {
    FoldKeepsRoot([], Split(path));
    assert [] + Split(path) == Split(path);
    Ends(path);
  }

  lemma CleanedSplits(path: string)
    ensures DotFree(Split(Join(Cleaned(path)))) && (Cleaned(path) != [] ==> Split(Join(Cleaned(path))) == Cleaned(path))
  {
    CleanedDotFree(path);
    if Cleaned(path) != [] {
      SplitJoin(Cleaned(path));
    }
  }

  /** On every path: the result has no dot segments, and a path is left alone exactly when it has none. */
  lemma DotsRemoved(path: string)
    ensures DotFree(Split(Join(Cleaned(path))))
    ensures Join(Cleaned(path)) == path <==> DotFree(Split(path))
    ensures Join(Cleaned(Join(Cleaned(path)))) == Join(Cleaned(path))
  {
    CleanedSplits(path);
    var r := Join(Cleaned(path));
    if DotFree(Split(path)) {
      CleanedFixed(path);
      JoinSplit(path);
    }
    CleanedFixed(r);
    JoinSplit(r);
  }

  // ---- section 5.2.4 of RFC 3986 -----------------------------------------------------------------

  /** Where the next "/" after the first character is, the end if there is none. */
  function NextSlash(s: string, from: nat): (n: nat)
    requires from <= |s|
    ensures from <= n <= |s| && '/' !in s[from..n] && (n < |s| ==> s[n] == '/')
    decreases |s| - from
  {
    if from == |s| || s[from] == '/' then from else NextSlash(s, from + 1)
  }

  /** The output without its last segment and the "/" before it, if any. */
  function DropLast(output: string): (r: string)
    ensures |r| <= |output|
  {
    if output == "" then "" else if output[|output| - 1] == '/' then output[..|output| - 1]
    else DropLast(output[..|output| - 1])
  }

  /** The loop over the input and output buffers, steps A to E. */
  function RemoveDotSegments(input: string, output: string): string
    decreases |input|
  {
    if input == "" then output
    else if StartsWith(input, "../") then RemoveDotSegments(input[3..], output)
    else if StartsWith(input, "./") then RemoveDotSegments(input[2..], output)
    else if StartsWith(input, "/./") then RemoveDotSegments("/" + input[3..], output)
    else if input == "/." then RemoveDotSegments("/", output)
    else if StartsWith(input, "/../") then RemoveDotSegments("/" + input[4..], DropLast(output))
    else if input == "/.." then RemoveDotSegments("/", DropLast(output))
    else if IsDots(input) then RemoveDotSegments("", output)
    else
      var n := NextSlash(input, 1);
      RemoveDotSegments(input[n..], output + input[..n])
  }

  /** The segments of an absolute path, each after its "/". */
  function Slashed(segments: seq<string>): string {
    if segments == [] then "" else Slashed(segments[..|segments| - 1]) + "/" + segments[|segments| - 1]
  }

  lemma {:induction false} NextSlashIs(s: string, from: nat, n: nat)
    requires from <= n <= |s| && (forall i :: from <= i < n ==> s[i] != '/') && (n < |s| ==> s[n] == '/')
    ensures NextSlash(s, from) == n
    decreases n - from
  {
    if from < n {
      NextSlashIs(s, from + 1, n);
    }
  }

  lemma {:induction false} DropSlashed(init: string, last: string)
    requires '/' !in last
    ensures DropLast(init + "/" + last) == init
    decreases |last|
  {
    var output := init + "/" + last;
    if last == "" {
      assert output == init + "/";
      assert output[..|output| - 1] == init;
    } else {
      var shorter := last[..|last| - 1];
      assert output[..|output| - 1] == init + "/" + shorter;
      assert output[|output| - 1] == last[|last| - 1];
      DropSlashed(init, shorter);
    }
  }

  /** One step of the algorithm on a segment of an absolute path, or on its last one. */
  lemma StepSame(more: string, output: string)
    ensures RemoveDotSegments("/" + "." + "/" + more, output) == RemoveDotSegments("/" + more, output)
    ensures RemoveDotSegments("/" + ".." + "/" + more, output) == RemoveDotSegments("/" + more, DropLast(output))
  {
    var one, two := "/" + "." + "/" + more, "/" + ".." + "/" + more;
    assert one[..3] == "/./" && one[3..] == more;
    assert two[..4] == "/../" && two[4..] == more;
    assert one[0] == '/' && two[0] == '/' && two[2] == '.';
  }

  lemma StepMove(segment: string, more: string, output: string)
    requires '/' !in segment && !IsDots(segment)
    ensures RemoveDotSegments("/" + segment + "/" + more, output)
            == RemoveDotSegments("/" + more, output + "/" + segment)
  {
    var input := "/" + segment + "/" + more;
    var n := 1 + |segment|;
    assert input == "/" + segment + ("/" + more);
    NoDotStep(segment, "/" + more);
    assert input[n..] == "/" + more && input[..n] == "/" + segment;
    assert forall i :: 1 <= i < n ==> input[i] == segment[i - 1];
    NextSlashIs(input, 1, n);
    assert RemoveDotSegments(input, output) == RemoveDotSegments(input[n..], output + input[..n]);
    hide RemoveDotSegments;
    assert output + ("/" + segment) == output + "/" + segment;
  }

  /** None of the steps A to D applies. */
  lemma NoDotStep(segment: string, tail: string)
    requires '/' !in segment && !IsDots(segment) && (tail == "" || tail[0] == '/')
    ensures var input := "/" + segment + tail;
            && !StartsWith(input, "../") && !StartsWith(input, "./") && !StartsWith(input, "/./")
            && !StartsWith(input, "/../")
            && input != "/." && input != "/.." && !IsDots(input)
  {
    var input := "/" + segment + tail;
    assert input[0] == '/';
    assert forall i :: 0 <= i < |segment| ==> input[1 + i] == segment[i] && segment[i] != '/';
    assert tail != "" ==> input[1 + |segment|] == '/';
    assert segment == "." <==> |segment| == 1 && segment[0] == '.';
    assert segment == ".." <==> |segment| == 2 && segment[0] == '.' && segment[1] == '.';
    assert StartsWith(input, "/./") <==> |input| >= 3 && input[1] == '.' && input[2] == '/';
    assert StartsWith(input, "/../") <==> |input| >= 4 && input[1] == '.' && input[2] == '.' && input[3] == '/';
    assert input == "/." <==> |input| == 2 && input[1] == '.';
    assert input == "/.." <==> |input| == 3 && input[1] == '.' && input[2] == '.';
  }

  lemma StepLast(segment: string, output: string)
    requires '/' !in segment
    ensures RemoveDotSegments("/" + segment, output) ==
            if segment == "." then output + "/"
            else if segment == ".." then DropLast(output) + "/"
            else output + "/" + segment
  {
    if segment == "." {
      assert "/" + segment == "/." && "/."[..2][0] == '/';
      LastSlash(output);
    } else if segment == ".." {
      assert "/" + segment == "/.." && "/.."[..2][0] == '/' && "/.."[..3][0] == '/' && "/.."[..3][2] == '.';
      LastSlash(DropLast(output));
    } else {
      StepLastMove(segment, output);
    }
  }

  lemma StepLastMove(segment: string, output: string)
    requires '/' !in segment && !IsDots(segment)
    ensures RemoveDotSegments("/" + segment, output) == output + "/" + segment
  {
    var input := "/" + segment;
    NoDotStep(segment, "");
    assert input == "/" + segment + "";
    assert forall i :: 1 <= i < |input| ==> input[i] == segment[i - 1];
    NextSlashIs(input, 1, |input|);
    assert input[|input|..] == "" && input[..|input|] == input;
    assert output + input == output + "/" + segment;
  }

  lemma LastSlash(output: string)
    ensures RemoveDotSegments("/", output) == output + "/"
  {
    NextSlashIs("/", 1, 1);
    assert "/"[1..] == "" && "/"[..1] == "/";
  }

  lemma SlashedSnoc(segments: seq<string>, last: string)
    ensures Slashed(segments + [last]) == Slashed(segments) + "/" + last
  {
    assert (segments + [last])[..|segments|] == segments;
  }

  lemma SlashedPop(segments: seq<string>)
    requires forall i :: 0 <= i < |segments| ==> '/' !in segments[i]
    ensures DropLast(Slashed(segments)) == Slashed(Push(segments, ".."))
  {
    if segments != [] {
      DropSlashed(Slashed(segments[..|segments| - 1]), segments[|segments| - 1]);
    }
  }

  /** The buffers of the algorithm are the remaining segments and the stack, each with its slashes. */
  lemma {:induction false} BuffersAreSegments(segments: seq<string>, output: seq<string>)
    requires segments != []
    requires forall i :: 0 <= i < |segments| ==> '/' !in segments[i]
    requires forall i :: 0 <= i < |output| ==> '/' !in output[i]
    ensures RemoveDotSegments("/" + Join(segments), Slashed(output)) ==
            Slashed(Fold(output, segments) + (if IsDots(Last(segments)) then [""] else []))
    decreases |segments|
  {
    var x, rest := segments[0], segments[1..];
    hide RemoveDotSegments, Slashed, DropLast, Push;
    if rest == [] {
      LastBuffer(x, output);
      OneSegment(segments, output);
    } else {
      MoreSegments(segments, output);
      hide Join, Fold, Last, IsDots;
      MidBuffer(x, Join(rest), output);
      PushNoSlash(output, x);
      BuffersAreSegments(rest, Push(output, x));
    }
  }

  lemma OneSegment(segments: seq<string>, output: seq<string>)
    requires |segments| == 1
    ensures Join(segments) == segments[0] && Last(segments) == segments[0]
            && Fold(output, segments) == Push(output, segments[0])
  {
    assert Fold(Push(output, segments[0]), []) == Push(output, segments[0]);
  }

  lemma MoreSegments(segments: seq<string>, output: seq<string>)
    requires |segments| > 1
    ensures "/" + Join(segments) == "/" + segments[0] + "/" + Join(segments[1..])
    ensures Last(segments) == Last(segments[1..])
            && Fold(output, segments) == Fold(Push(output, segments[0]), segments[1..])
  {}

  lemma PushNoSlash(output: seq<string>, x: string)
    requires '/' !in x && forall i :: 0 <= i < |output| ==> '/' !in output[i]
    ensures forall i :: 0 <= i < |Push(output, x)| ==> '/' !in Push(output, x)[i]
  {}

  lemma LastBuffer(x: string, output: seq<string>)
    requires '/' !in x && forall i :: 0 <= i < |output| ==> '/' !in output[i]
    ensures RemoveDotSegments("/" + x, Slashed(output)) == Slashed(Push(output, x) + (if IsDots(x) then [""] else []))
  {
    SlashedPop(output);
    SlashedSnoc(output, x);
    SlashedSnoc(Push(output, x), "");
    StepLast(x, Slashed(output));
    hide RemoveDotSegments, Slashed, DropLast;
    assert Slashed(Push(output, x)) + "/" + "" == Slashed(Push(output, x)) + "/";
    assert Push(output, x) + [] == Push(output, x);
  }

  lemma MidBuffer(x: string, more: string, output: seq<string>)
    requires '/' !in x && forall i :: 0 <= i < |output| ==> '/' !in output[i]
    ensures RemoveDotSegments("/" + x + "/" + more, Slashed(output))
            == RemoveDotSegments("/" + more, Slashed(Push(output, x)))
  {
    SlashedPop(output);
    SlashedSnoc(output, x);
    StepSame(more, Slashed(output));
    if !IsDots(x) {
      StepMove(x, more, Slashed(output));
    }
    hide RemoveDotSegments, Slashed, DropLast;
  }

  // ---- where the two agree -----------------------------------------------------------------------

  /** On the way through the segments ".." is met with nothing left to take back but the root. */
  predicate Climbs(depth: nat, segments: seq<string>)
    decreases |segments|
  {
    segments != [] &&
    if segments[0] == ".." then depth == 0 || Climbs(depth - 1, segments[1..])
    else Climbs(if segments[0] == "." then depth else depth + 1, segments[1..])
  }

  /** The loop with the root at the bottom of its list: the root is lost at the first climb above it. */
  lemma {:induction false} FoldRooted(root: string, output: seq<string>, segments: seq<string>)
    ensures Fold([root] + output, segments) ==
            if Climbs(|output|, segments) then Fold(output, segments) else [root] + Fold(output, segments)
    decreases |segments|
  {
    if segments == [] {
    } else {
      var x, rest := segments[0], segments[1..];
      var rooted := [root] + output;
      if x == ".." && output == [] {
        assert Push(rooted, x) == [] == Push(output, x);
      } else {
        assert Push(rooted, x) == [root] + Push(output, x);
        FoldRooted(root, Push(output, x), rest);
      }
    }
  }

  /** The first segment that is not a dot segment and that no later ".." takes back is empty. */
  predicate EmptyFirst(segments: seq<string>)
    decreases |segments|
  {
    segments != [] &&
    if IsDots(segments[0]) || Climbs(0, segments[1..]) then EmptyFirst(segments[1..]) else segments[0] == ""
  }

  lemma {:induction false} KeptFirst(segments: seq<string>)
    ensures EmptyFirst(segments) <==> var kept := Fold([], segments); kept != [] && kept[0] == ""
    decreases |segments|
  {
    if segments == [] {
    } else {
      var x, rest := segments[0], segments[1..];
      KeptFirst(rest);
      if !IsDots(x) {
        FoldRooted(x, [], rest);
        assert [x] + [] == [x] && [] + [x] == [x];
      }
    }
  }

  lemma AbsolutePath(path: string)
    requires StartsWith(path, "/")
    ensures Split(path) == [""] + Split(path[1..]) && path == "/" + Join(Split(path[1..]))
  {
    JoinSplit(path[1..]);
  }

  lemma {:induction false} JoinIsSlashed(segments: seq<string>)
    ensures segments != [] ==> "/" + Join(segments) == Slashed(segments)
    ensures Join([""] + segments) == Slashed(segments)
  {
    if |segments| <= 1 {
      assert |segments| == 1 ==> segments[..0] == [] && ([""] + segments)[1..] == segments;
    } else {
      var n := |segments| - 1;
      JoinIsSlashed(segments[..n]);
      JoinSnoc(segments[..n], segments[n]);
      assert segments == segments[..n] + [segments[n]];
      assert "/" + (Join(segments[..n]) + "/" + segments[n]) == ("/" + Join(segments[..n])) + "/" + segments[n];
      assert ([""] + segments)[1..] == segments;
    }
  }

  /** The segments the algorithm of the RFC leaves of an absolute path. */
  function Kept(path: string): seq<string>
    requires StartsWith(path, "/")
  {
    Fold([], Split(path[1..]))
  }

  lemma RfcKeeps(path: string)
    requires StartsWith(path, "/")
    ensures RemoveDotSegments(path, "") == Slashed(Kept(path) + (if IsDots(Last(Split(path))) then [""] else []))
  {
    AbsolutePath(path);
    BuffersAreSegments(Split(path[1..]), []);
    assert Last(Split(path)) == Last(Split(path[1..]));
    hide RemoveDotSegments;
  }

  lemma FoldsRoot(path: string)
    requires StartsWith(path, "/")
    ensures Fold([], Split(path)) == if Climbs(0, Split(path[1..])) then Kept(path) else [""] + Kept(path)
  {
    AbsolutePath(path);
    var rest := Split(path[1..]);
    hide Split;
    FoldRooted("", [], rest);
    assert [""] + [] == [""] && Push([], "") == [""];
    assert ([""] + rest)[1..] == rest;
    assert Fold([], [""] + rest) == Fold([""], rest);
  }

  function Rooted(output: seq<string>): seq<string> {
    if output == [] || output[0] != "" then [""] + output else output
  }

  lemma RootedAgain(kept: seq<string>, tail: seq<string>)
    ensures Rooted([""] + kept) + tail == [""] + (kept + tail)
    ensures Rooted(kept) + tail == (if kept != [] && kept[0] == "" then [] else [""]) + (kept + tail)
  {}

  lemma CleanedKeeps(path: string)
    requires StartsWith(path, "/")
    ensures var tail := if IsDots(Last(Split(path))) then [""] else [];
            var lost := Climbs(0, Split(path[1..])) && Kept(path) != [] && Kept(path)[0] == "";
            Cleaned(path) == (if lost then [] else [""]) + (Kept(path) + tail)
  {
    Ends(path);
    FoldsRoot(path);
    var output, tail := Fold([], Split(path)), if IsDots(Last(Split(path))) then [""] else [];
    assert Rooted(output) + [] == Rooted(output);
    assert Cleaned(path) == Rooted(output) + tail;
    hide Fold, Split, Climbs, Kept, EndsWith, StartsWith, Cleaned, IsDots, Last, Rooted;
    RootedAgain(Kept(path), tail);
  }

  /** On every absolute path the loop and the RFC's algorithm agree, unless ".." climbs above the root and the first
      segment kept is empty; then the loop returns one "/" less. */
  lemma AgreesWithRfc(path: string)
    requires StartsWith(path, "/")
    ensures var segments := Split(path[1..]);
            && (Join(Cleaned(path)) == RemoveDotSegments(path, "") <==> !(Climbs(0, segments) && EmptyFirst(segments)))
            && (Climbs(0, segments) && EmptyFirst(segments) ==>
                RemoveDotSegments(path, "") == "/" + Join(Cleaned(path)))
  {
    RfcKeeps(path);
    CleanedKeeps(path);
    KeptFirst(Split(path[1..]));
    var kept := Kept(path) + (if IsDots(Last(Split(path))) then [""] else []);
    JoinIsSlashed(kept);
    hide RemoveDotSegments, Slashed, Cleaned, Join, Fold, EmptyFirst, Split;
    assert [] + kept == kept;
  }

  lemma RfcKeepsEmptySegment()
    ensures RemoveDotSegments("/..//a", "") == "//a"
  {
    StepSame("/a", "");
    StepMove("", "a", "");
    StepLast("a", "/");
    hide RemoveDotSegments;
    assert "/..//a" == "/" + ".." + "/" + "/a" && "/" + "/a" == "/" + "" + "/" + "a" && "" + "/" + "" == "/";
  }

  /** A path on which they differ. */
  lemma DiffersFromRfc()
    ensures RemoveDotSegments("/..//a", "") == "//a"
    ensures Join(Cleaned("/..//a")) == "/a"
  {
    var path, segments := "/..//a", ["..", "", "a"];
    RfcKeepsEmptySegment();
    hide RemoveDotSegments;
    assert Split(path[1..]) == segments by {
      SplitJoin(segments);
      assert segments[1..] == ["", "a"] && ["", "a"][1..] == ["a"];
      assert Join(segments) == path[1..];
    }
    assert Climbs(0, segments);
    assert Fold([], segments) == ["", "a"] by {
      assert segments[1..] == ["", "a"] && ["", "a"][1..] == ["a"] && ["a"][1..] == [];
    }
    assert EmptyFirst(segments) by {
      KeptFirst(segments);
    }
    AgreesWithRfc(path);
    hide RemoveDotSegments, Cleaned, Kept, Join, Split, Climbs;
    assert ("/" + Join(Cleaned(path)))[1..] == Join(Cleaned(path));
  }
}
