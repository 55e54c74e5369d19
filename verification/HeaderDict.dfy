/** _collections.py HTTPHeaderDict: header fields in the order they first appeared, looked up whatever their case. */
module HeaderDict {
  import opened Bytes
  import opened Text

  /** One entry of `_container`: the lower-case name, and the list of the original name and the values. */
  datatype Field = Field(key: string, name: string, values: seq<string>)

  datatype Line = Line(name: string, value: string)

  ghost predicate Valid(d: seq<Field>) {
    && (forall i :: 0 <= i < |d| ==> d[i].key == Lower(d[i].name) && d[i].values != [])
    && (forall i, j :: 0 <= i < j < |d| ==> d[i].key != d[j].key)
  }

  /** The position of a key, |d| when it is missing. */
  function Find(d: seq<Field>, key: string): (i: nat)
    ensures i <= |d| && (i < |d| ==> d[i].key == key)
    ensures forall j :: 0 <= j < i ==> d[j].key != key
  {
    if d == [] || d[0].key == key then 0 else
      var i := Find(d[1..], key);
      assert forall j :: 0 < j < i + 1 ==> d[j] == d[1..][j - 1];
      i + 1
  }

  function GetList(d: seq<Field>, name: string): seq<string> {
    var i := Find(d, Lower(name));
    if i < |d| then d[i].values else []
  }

  function SetItem(d: seq<Field>, name: string, value: string): seq<Field> {
    var i, f := Find(d, Lower(name)), Field(Lower(name), name, [value]);
    if i < |d| then d[i := f] else d + [f]
  }

  /** The last value with another one appended after a comma. */
  function Combined(values: seq<string>, value: string): seq<string> {
    if values == [] then [value] else values[..|values| - 1] + [values[|values| - 1] + ", " + value]
  }

  function Add(d: seq<Field>, name: string, value: string, combine: bool): seq<Field> {
    var i := Find(d, Lower(name));
    if i == |d| then d + [Field(Lower(name), name, [value])]
    else d[i := d[i].(values := if combine then Combined(d[i].values, value) else d[i].values + [value])]
  }

  function Extend(d: seq<Field>, lines: seq<Line>): seq<Field>
    decreases |lines|
  {
    if lines == [] then d else Extend(Add(d, lines[0].name, lines[0].value, false), lines[1..])
  }

  /** The fields whose keys are not among `keys`. */
  function Without(d: seq<Field>, keys: set<string>): (r: seq<Field>)
    ensures forall f :: f in r <==> f in d && f.key !in keys
  {
    if d == [] then [] else (if d[0].key in keys then [] else [d[0]]) + Without(d[1..], keys)
  }

  function LinesOf(f: Field): (r: seq<Line>)
    ensures |r| == |f.values| && forall i :: 0 <= i < |r| ==> r[i] == Line(f.name, f.values[i])
  {
    seq(|f.values|, i requires 0 <= i < |f.values| => Line(f.name, f.values[i]))
  }

  /** `iteritems`. */
  function Items(d: seq<Field>): seq<Line> {
    if d == [] then [] else Items(d[..|d| - 1]) + LinesOf(d[|d| - 1])
  }

  /** `", ".join`. */
  function Join(values: seq<string>): string {
    if values == [] then "" else if |values| == 1 then values[0]
    else Join(values[..|values| - 1]) + ", " + values[|values| - 1]
  }

  /** The values of the lines with a given name, in order. */
  function ValuesOf(lines: seq<Line>, name: string): seq<string> {
    if lines == [] then []
    else (if Lower(lines[0].name) == Lower(name) then [lines[0].value] else []) + ValuesOf(lines[1..], name)
  }

  // ---- lookups after changes ---------------------------------------------------------------------

  lemma FindIs(d: seq<Field>, key: string, i: nat)
    requires i <= |d| && (i < |d| ==> d[i].key == key)
    requires forall j :: 0 <= j < i ==> d[j].key != key
    ensures Find(d, key) == i
  {}

  lemma AddGets(d: seq<Field>, name: string, value: string, combine: bool, k: string)
    requires Valid(d)
    ensures Valid(Add(d, name, value, combine))
    ensures Lower(k) != Lower(name) ==> GetList(Add(d, name, value, combine), k) == GetList(d, k)
    ensures Lower(k) == Lower(name) ==> GetList(Add(d, name, value, combine), k) ==
                                        (if combine then Combined(GetList(d, name), value)
                                         else GetList(d, name) + [value])
  {
    var e := Add(d, name, value, combine);
    var i, j := Find(d, Lower(name)), Find(d, Lower(k));
    assert forall x :: 0 <= x < |d| ==> e[x].key == d[x].key;
    if i == |d| {
      assert e[i].key == Lower(name);
    }
    FindIs(e, Lower(k), if j == |d| && Lower(k) != Lower(name) then |e| else j);
    hide Lower;
  }

  /** Setting replaces all values of the name, in any letter case, and no others. */
  lemma SetItemGets(d: seq<Field>, name: string, value: string, k: string)
    requires Valid(d)
    ensures Valid(SetItem(d, name, value))
    ensures GetList(SetItem(d, name, value), k) == if Lower(k) == Lower(name) then [value] else GetList(d, k)
  {
    var e := SetItem(d, name, value);
    var i, j := Find(d, Lower(name)), Find(d, Lower(k));
    assert forall x :: 0 <= x < |d| ==> e[x].key == d[x].key;
    if i == |d| {
      assert e[i].key == Lower(name);
    }
    FindIs(e, Lower(k), if j == |d| && Lower(k) != Lower(name) then |e| else j);
    hide Lower;
  }

  /** Adding lines one after another keeps, for every name, all its values in order. */
  lemma {:induction false} ExtendGets(d: seq<Field>, lines: seq<Line>, k: string)
    requires Valid(d)
    ensures Valid(Extend(d, lines)) && GetList(Extend(d, lines), k) == GetList(d, k) + ValuesOf(lines, k)
    decreases |lines|
  {
    if lines == [] {
    } else {
      var line := lines[0];
      AddGets(d, line.name, line.value, false, k);
      ExtendGets(Add(d, line.name, line.value, false), lines[1..], k);
      var mine := if Lower(line.name) == Lower(k) then [line.value] else [];
      SameName(d, line.name, k);
      Regroup(GetList(d, k), mine, ValuesOf(lines[1..], k));
      AddNothing(GetList(d, k));
      hide Add, GetList, Valid, Lower;
      assert GetList(Add(d, line.name, line.value, false), k) == GetList(d, k) + mine;
    }
  }

  lemma SameName(d: seq<Field>, name: string, k: string)
    ensures Lower(name) == Lower(k) ==> GetList(d, name) == GetList(d, k)
  {}

  lemma {:induction false} CombinedJoins(values: seq<string>, value: string)
    requires values != []
    ensures Join(Combined(values, value)) == Join(values + [value])
  {
    var n := |values| - 1;
    var c := Combined(values, value);
    assert c[..n] == values[..n];
    assert (values + [value])[..|values|] == values;
    if n == 0 {
      assert c == [values[0] + ", " + value];
    } else {
      assert Join(c) == Join(values[..n]) + ", " + (values[n] + ", " + value);
      JoinsOn(Join(values[..n]), ", ", values[n], value);
    }
  }

  lemma JoinsOn(a: string, comma: string, b: string, c: string)
    ensures a + comma + (b + comma + c) == a + comma + b + comma + c
  {}

  /** Combining or not, the value looked up by name is the same list joined by commas. */
  lemma CombineInvisible(d: seq<Field>, name: string, value: string, k: string)
    requires Valid(d)
    ensures Join(GetList(Add(d, name, value, true), k)) == Join(GetList(Add(d, name, value, false), k))
  {
    AddGets(d, name, value, true, k);
    AddGets(d, name, value, false, k);
    if GetList(d, name) != [] {
      CombinedJoins(GetList(d, name), value);
    }
  }

  // ---- iterating and rebuilding ------------------------------------------------------------------

  lemma {:induction false} ExtendAppend(d: seq<Field>, a: seq<Line>, b: seq<Line>)
    ensures Extend(d, a + b) == Extend(Extend(d, a), b)
    decreases |a|
  {
    if a == [] {
      assert a + b == b;
    } else {
      assert (a + b)[1..] == a[1..] + b;
      ExtendAppend(Add(d, a[0].name, a[0].value, false), a[1..], b);
    }
  }

  /** The lines of one field, added where its name is new, make that field. */
  lemma {:induction false} ExtendField(d: seq<Field>, f: Field, n: nat)
    requires 0 < n <= |f.values| && f.key == Lower(f.name) && forall i :: 0 <= i < |d| ==> d[i].key != f.key
    ensures Extend(d, LinesOf(f)[..n]) == d + [f.(values := f.values[..n])]
    decreases n
  {
    hide Lower;
    var lines, line := LinesOf(f), LinesOf(f)[n - 1];
    FindIs(d, f.key, |d|);
    if n == 1 {
      assert lines[..1] == [line];
      assert f.values[..1] == [f.values[0]];
      assert [line][1..] == [];
      assert Extend(d, [line]) == Extend(Add(d, line.name, line.value, false), []);
    } else {
      var e := d + [f.(values := f.values[..n - 1])];
      assert lines[..n] == lines[..n - 1] + [line];
      ExtendAppend(d, lines[..n - 1], [line]);
      ExtendField(d, f, n - 1);
      FindIs(e, f.key, |d|);
      assert f.values[..n] == f.values[..n - 1] + [f.values[n - 1]];
      assert [line][1..] == [];
      assert Extend(e, [line]) == Extend(Add(e, line.name, line.value, false), []);
      assert Add(e, line.name, line.value, false) == e[|d| := f.(values := f.values[..n - 1] + [line.value])];
    }
  }

  /** Building a dictionary from the items of another gives the same dictionary. */
  lemma {:induction false} Rebuild(d: seq<Field>)
    requires Valid(d)
    ensures Extend([], Items(d)) == d
  {
    if d == [] {
    } else {
      var n := |d| - 1;
      Rebuild(d[..n]);
      ExtendAppend([], Items(d[..n]), LinesOf(d[n]));
      ExtendField(d[..n], d[n], |d[n].values|);
      hide Extend, Valid, Lower;
      assert LinesOf(d[n])[..|d[n].values|] == LinesOf(d[n]);
      assert d[n].values[..|d[n].values|] == d[n].values;
      assert d == d[..n] + [d[n]];
    }
  }

  // ---- removing ----------------------------------------------------------------------------------

  lemma {:induction false} WithoutTwice(d: seq<Field>, first: set<string>, second: set<string>)
    ensures Without(Without(d, first), second) == Without(d, first + second)
  {
    if d == [] {
    } else {
      WithoutTwice(d[1..], first, second);
      var kept := Without(d[1..], first);
      assert ([d[0]] + kept)[1..] == kept;
      assert [] + kept == kept;
    }
  }

  lemma {:induction false} WithoutNone(d: seq<Field>, keys: set<string>)
    requires forall i :: 0 <= i < |d| ==> d[i].key !in keys
    ensures Without(d, keys) == d
  {
    if d == [] {
    } else {
      WithoutNone(d[1..], keys);
    }
  }

  lemma {:induction false} WithoutAppend(a: seq<Field>, b: seq<Field>, keys: set<string>)
    ensures Without(a + b, keys) == Without(a, keys) + Without(b, keys)
  {
    if a == [] {
      assert a + b == b;
    } else {
      assert (a + b)[1..] == a[1..] + b;
      WithoutAppend(a[1..], b, keys);
    }
  }

  lemma CutAround(d: seq<Field>, i: nat)
    ensures 0 < i < |d| ==> [d[0]] + (d[1..][..i - 1] + d[1..][i..]) == d[..i] + d[i + 1..]
  {}

  lemma {:induction false} WithoutOne(d: seq<Field>, i: nat)
    requires Valid(d) && i < |d|
    ensures Without(d, {d[i].key}) == d[..i] + d[i + 1..]
  {
    hide Lower;
    if i == 0 {
      WithoutNone(d[1..], {d[0].key});
      assert d[..0] + d[1..] == d[1..];
    } else {
      assert d[1..][i - 1] == d[i];
      WithoutOne(d[1..], i - 1);
      assert Without(d, {d[i].key}) == [d[0]] + Without(d[1..], {d[i].key});
      hide Without, Valid;
      CutAround(d, i);
    }
  }

  lemma {:induction false} WithoutValid(d: seq<Field>, keys: set<string>)
    requires Valid(d)
    ensures Valid(Without(d, keys))
  {
    hide Lower;
    if d == [] {
    } else {
      WithoutValid(d[1..], keys);
    }
  }

  const CONTENT_SPECIFIC: seq<string> :=
    ["Content-Encoding", "Content-Language", "Content-Location", "Content-Type", "Content-Length", "Digest",
     "Last-Modified"]

  function Keys(names: seq<string>): set<string> {
    set i | 0 <= i < |names| :: Lower(names[i])
  }

  class HTTPHeaderDict {
    var container: seq<Field>

    constructor ()
      ensures container == []
    {
      container := [];
    }

    method SetValue(name: string, value: string)
      requires Valid(container)
      modifies this
      ensures Valid(container) && container == SetItem(old(container), name, value)
      ensures forall k :: GetList(container, k) == if Lower(k) == Lower(name) then [value]
              else GetList(old(container), k)
    {
      forall k
        ensures GetList(SetItem(container, name, value), k) == if Lower(k) == Lower(name) then [value]
                else GetList(container, k)
      {
        SetItemGets(container, name, value, k);
      }
      var i := Find(container, Lower(name));
      if i < |container| {
        container := container[i := Field(Lower(name), name, [value])];
      } else {
        container := container + [Field(Lower(name), name, [value])];
      }
    }

    method AddValue(name: string, value: string, combine: bool)
      requires Valid(container)
      modifies this
      ensures Valid(container) && container == Add(old(container), name, value, combine)
    {
      AddGets(container, name, value, combine, name);
      var i := Find(container, Lower(name));
      if i == |container| {
        container := container + [Field(Lower(name), name, [value])];
      } else {
        var values := container[i].values;
        container := container[i := container[i].(values :=
          if combine then values[..|values| - 1] + [values[|values| - 1] + ", " + value] else values + [value])];
      }
    }

    method DiscardName(name: string)
      requires Valid(container)
      modifies this
      ensures Valid(container) && container == Without(old(container), {Lower(name)})
    {
      WithoutValid(container, {Lower(name)});
      var i := Find(container, Lower(name));
      if i < |container| {
        WithoutOne(container, i);
        container := container[..i] + container[i + 1..];
      } else {
        WithoutNone(container, {Lower(name)});
      }
    }

    method ExtendLines(lines: seq<Line>)
      requires Valid(container)
      modifies this
      ensures Valid(container) && container == Extend(old(container), lines)
    {
      for n := 0 to |lines|
        invariant Valid(container) && container == Extend(old(container), lines[..n])
      {
        AddValue(lines[n].name, lines[n].value, false);
        assert lines[..n + 1] == lines[..n] + [lines[n]];
        ExtendAppend(old(container), lines[..n], [lines[n]]);
        assert [lines[n]][1..] == [];
      }
      assert lines[..|lines|] == lines;
    }

    method CopyFrom(other: HTTPHeaderDict)
      requires container == [] && Valid(other.container) && other != this
      modifies this
      ensures container == other.container
    {
      for n := 0 to |other.container|
        invariant other.container == old(other.container)
        invariant container == other.container[..n]
      {
        var name := other.container[n].name;
        FindIs(other.container, Lower(name), n);
        FindIs(container, Lower(name), n);
        container := container + [Field(Lower(name), name, GetList(other.container, name))];
      }
    }

    /** `_prepare_for_method_change`. */
    method PrepareForMethodChange()
      requires Valid(container)
      modifies this
      ensures Valid(container) && container == Without(old(container), Keys(CONTENT_SPECIFIC))
    {
      WithoutNone(container, Keys(CONTENT_SPECIFIC[..0]));
      for n := 0 to |CONTENT_SPECIFIC|
        invariant Valid(container) && container == Without(old(container), Keys(CONTENT_SPECIFIC[..n]))
      {
        DiscardName(CONTENT_SPECIFIC[n]);
        WithoutTwice(old(container), Keys(CONTENT_SPECIFIC[..n]), {Lower(CONTENT_SPECIFIC[n])});
        KeysSnoc(CONTENT_SPECIFIC, n);
      }
      assert CONTENT_SPECIFIC[..|CONTENT_SPECIFIC|] == CONTENT_SPECIFIC;
    }
  }

  lemma KeysSnoc(names: seq<string>, n: nat)
    requires n < |names|
    ensures Keys(names[..n + 1]) == Keys(names[..n]) + {Lower(names[n])}
  {
    hide Lower;
    forall k | k in Keys(names[..n])
      ensures k in Keys(names[..n + 1])
    {
      var i :| 0 <= i < n && Lower(names[..n][i]) == k;
      assert Lower(names[..n + 1][i]) == k;
    }
    assert Lower(names[..n + 1][n]) == Lower(names[n]);
  }
}
