/** util/url.py `_encode_invalid_chars`: percent-encoding that leaves escapes already there alone. */
module UrlEncode {
  import opened Bytes
  import opened Text

  const PERCENT: byte := 0x25

  predicate IsHex(c: char) {
    '0' <= c <= '9' || 'a' <= c <= 'f' || 'A' <= c <= 'F'
  }

  predicate IsUpperHex(c: char) {
    '0' <= c <= '9' || 'A' <= c <= 'F'
  }

  function HexValue(c: char): (n: int)
    requires IsHex(c)
    ensures 0 <= n < 16
  {
    if c <= '9' then c as int - '0' as int
    else if c <= 'F' then c as int - 'A' as int + 10
    else c as int - 'a' as int + 10
  }

  function HexDigit(n: int): (c: char)
    requires 0 <= n < 16
    ensures IsUpperHex(c) && HexValue(c) == n
  {
    if n < 10 then '0' + n as char else 'A' + (n - 10) as char
  }

  /** The string starts with an escape: "%" and two hexadecimal digits. */
  predicate IsEscape(s: string) {
    |s| >= 3 && s[0] == '%' && IsHex(s[1]) && IsHex(s[2])
  }

  /** The bytes of a character in UTF-8. */
  function Utf8(c: char): (r: bytes)
    ensures r != [] && (c as int < 128 ==> r == [c as int as byte])
            && (c as int >= 128 ==> forall i :: 0 <= i < |r| ==> r[i] >= 128)
  {
    var n := c as int;
    if n < 0x80 then [n as byte]
    else if n < 0x800 then [(0xC0 + n / 64) as byte, (0x80 + n % 64) as byte]
    else if n < 0x10000 then [(0xE0 + n / 4096) as byte, (0x80 + n / 64 % 64) as byte, (0x80 + n % 64) as byte]
    else [(0xF0 + n / 262144) as byte, (0x80 + n / 4096 % 64) as byte, (0x80 + n / 64 % 64) as byte,
          (0x80 + n % 64) as byte]
  }

  function Utf8Bytes(s: string): bytes {
    if s == "" then [] else Utf8(s[0]) + Utf8Bytes(s[1..])
  }

  /** The escapes in upper case, and how many there are. */
  function UpperEscapes(s: string): (r: string)
    ensures |r| == |s|
    decreases |s|
  {
    if s == "" then ""
    else if IsEscape(s) then ['%', UpperChar(s[1]), UpperChar(s[2])] + UpperEscapes(s[3..])
    else [s[0]] + UpperEscapes(s[1..])
  }

  function CountEscapes(s: string): nat
    decreases |s|
  {
    if s == "" then 0 else if IsEscape(s) then 1 + CountEscapes(s[3..]) else CountEscapes(s[1..])
  }

  function CountPercent(b: bytes): nat {
    if b == [] then 0 else (if b[0] == PERCENT then 1 else 0) + CountPercent(b[1..])
  }

  /** One byte of the result: as it is, or escaped. */
  function EncodeByte(b: byte, keepPercent: bool, allowed: set<char>): string {
    if (keepPercent && b == PERCENT) || (b < 128 && b as int as char in allowed) then [b as int as char]
    else ['%', HexDigit(b as int / 16), HexDigit(b as int % 16)]
  }

  function EncodeBytes(b: bytes, keepPercent: bool, allowed: set<char>): string {
    if b == [] then "" else EncodeByte(b[0], keepPercent, allowed) + EncodeBytes(b[1..], keepPercent, allowed)
  }

  /** The escaped count equals the count of "%": everything after a "%" is taken for an escape. */
  function Encoded(component: string, allowed: set<char>): string {
    var b := Utf8Bytes(UpperEscapes(component));
    EncodeBytes(b, CountEscapes(component) == CountPercent(b), allowed)
  }

  method EncodeInvalidChars(component: Option<string>, allowed: set<char>) returns (r: Option<string>)
    ensures r == if component.None? then None else Some(Encoded(component.value, allowed))
  {
    if component.None? {
      return None;
    }
    var upper, escapes := UpperEscapes(component.value), CountEscapes(component.value);
    var uriBytes := Utf8Bytes(upper);
    var isPercentEncoded := escapes == CountPercent(uriBytes);
    var encoded := "";
    for i := 0 to |uriBytes|
      invariant encoded == EncodeBytes(uriBytes[..i], isPercentEncoded, allowed)
    {
      var b := uriBytes[i];
      assert uriBytes[..i + 1] == uriBytes[..i] + [b];
      EncodeAppend(uriBytes[..i], [b], isPercentEncoded, allowed);
      EncodeOne(b, isPercentEncoded, allowed);
      if (isPercentEncoded && b == PERCENT) || (b < 128 && b as int as char in allowed) {
        encoded := encoded + [b as int as char];
        continue;
      }
      encoded := encoded + ['%', HexDigit(b as int / 16), HexDigit(b as int % 16)];
    }
    assert uriBytes[..|uriBytes|] == uriBytes;
    r := Some(encoded);
  }

  lemma EncodeOne(b: byte, keepPercent: bool, allowed: set<char>)
    ensures EncodeBytes([b], keepPercent, allowed) == EncodeByte(b, keepPercent, allowed)
  {
    assert [b][1..] == [];
    assert EncodeByte(b, keepPercent, allowed) + "" == EncodeByte(b, keepPercent, allowed);
  }

  lemma {:induction false} EncodeAppend(a: bytes, b: bytes, keepPercent: bool, allowed: set<char>)
    ensures EncodeBytes(a + b, keepPercent, allowed) == EncodeBytes(a, keepPercent, allowed)
            + EncodeBytes(b, keepPercent, allowed)
  {
    if a == [] {
      assert a + b == b;
    } else {
      assert (a + b)[1..] == a[1..] + b;
      EncodeAppend(a[1..], b, keepPercent, allowed);
    }
  }

  // ---- when "%" is kept --------------------------------------------------------------------------

  /** Every "%" starts an escape. */
  predicate AllEscapes(s: string)
    decreases |s|
  {
    s == "" || (if IsEscape(s) then AllEscapes(s[3..]) else s[0] != '%' && AllEscapes(s[1..]))
  }

  lemma {:induction false} CountAppend(a: bytes, b: bytes)
    ensures CountPercent(a + b) == CountPercent(a) + CountPercent(b)
  {
    if a == [] {
      assert a + b == b;
    } else {
      assert (a + b)[1..] == a[1..] + b;
      CountAppend(a[1..], b);
    }
  }

  lemma {:induction false} CountHigh(b: bytes)
    requires forall i :: 0 <= i < |b| ==> b[i] != PERCENT
    ensures CountPercent(b) == 0
  {
    if b == [] {
    } else {
      CountHigh(b[1..]);
    }
  }

  lemma CountUtf8(c: char)
    ensures CountPercent(Utf8(c)) == if c == '%' then 1 else 0
  {
    if c != '%' {
      CountHigh(Utf8(c));
    } else {
      assert Utf8(c)[1..] == [];
    }
  }

  lemma Utf8Escape(x: char, y: char, rest: string)
    requires IsHex(x) && IsHex(y)
    ensures Utf8Bytes(['%', x, y] + rest) == [PERCENT, x as int as byte, y as int as byte] + Utf8Bytes(rest)
  {
    var s := ['%', x, y] + rest;
    assert s[1..] == [x, y] + rest && s[1..][1..] == [y] + rest && s[1..][1..][1..] == rest;
    assert Utf8Bytes(s[1..][1..]) == [y as int as byte] + Utf8Bytes(rest);
    assert Utf8Bytes(s[1..]) == [x as int as byte] + ([y as int as byte] + Utf8Bytes(rest));
  }

  /** The comparison of counts decides whether every "%" starts an escape. */
  lemma {:induction false} CountsDecide(s: string)
    ensures CountEscapes(s) <= CountPercent(Utf8Bytes(UpperEscapes(s)))
    ensures CountEscapes(s) == CountPercent(Utf8Bytes(UpperEscapes(s))) <==> AllEscapes(s)
    decreases |s|
  {
    if s == "" {
    } else if IsEscape(s) {
      CountsDecide(s[3..]);
      var x, y, rest := UpperChar(s[1]), UpperChar(s[2]), UpperEscapes(s[3..]);
      Utf8Escape(x, y, rest);
      var head := [PERCENT, x as int as byte, y as int as byte];
      CountAppend(head, Utf8Bytes(rest));
      CountHigh(head[1..]);
    } else {
      CountsDecide(s[1..]);
      var rest := UpperEscapes(s[1..]);
      assert ([s[0]] + rest)[1..] == rest;
      CountAppend(Utf8(s[0]), Utf8Bytes(rest));
      CountUtf8(s[0]);
    }
  }

  // ---- what the result means ---------------------------------------------------------------------

  /** A set of characters fit to be left alone: ASCII, with the digits of an escape but without "%". */
  ghost predicate Charset(allowed: set<char>) {
    '%' !in allowed && (forall c :: c in allowed ==> c as int < 128) && (forall c :: IsUpperHex(c) ==> c in allowed)
  }

  /** The bytes a component stands for, section 2.1 of RFC 3986. */
  function Decode(s: string): bytes
    decreases |s|
  {
    if s == "" then []
    else if IsEscape(s) then [(16 * HexValue(s[1]) + HexValue(s[2])) as byte] + Decode(s[3..])
    else Utf8(s[0]) + Decode(s[1..])
  }

  /** Nothing but allowed characters and escapes in upper case. */
  predicate WellEncoded(s: string, allowed: set<char>)
    decreases |s|
  {
    s == "" ||
    (if s[0] == '%' then |s| >= 3 && IsUpperHex(s[1]) && IsUpperHex(s[2]) && WellEncoded(s[3..], allowed)
     else s[0] in allowed && WellEncoded(s[1..], allowed))
  }

  lemma DecodeEscape(x: char, y: char, rest: string)
    requires IsHex(x) && IsHex(y)
    ensures Decode(['%', x, y] + rest) == [(16 * HexValue(x) + HexValue(y)) as byte] + Decode(rest)
  {
    assert (['%', x, y] + rest)[3..] == rest;
  }

  lemma DecodePlain(c: char, rest: string)
    requires c != '%'
    ensures Decode([c] + rest) == Utf8(c) + Decode(rest)
  {
    assert ([c] + rest)[1..] == rest;
  }

  lemma DecodeByte(b: byte, keepPercent: bool, allowed: set<char>, rest: string)
    requires Charset(allowed) && (keepPercent ==> b != PERCENT)
    ensures Decode(EncodeByte(b, keepPercent, allowed) + rest) == [b] + Decode(rest)
  {
    if b < 128 && b as int as char in allowed {
      DecodePlain(b as int as char, rest);
    } else {
      DecodeEscape(HexDigit(b as int / 16), HexDigit(b as int % 16), rest);
    }
  }

  lemma {:induction false} DecodeBytes(b: bytes, keepPercent: bool, allowed: set<char>, rest: string)
    requires Charset(allowed) && (keepPercent ==> forall i :: 0 <= i < |b| ==> b[i] != PERCENT)
    ensures Decode(EncodeBytes(b, keepPercent, allowed) + rest) == b + Decode(rest)
  {
    hide Decode, EncodeByte, Charset;
    if b == [] {
      assert "" + rest == rest;
    } else {
      var first, more := EncodeByte(b[0], keepPercent, allowed), EncodeBytes(b[1..], keepPercent, allowed);
      DecodeByte(b[0], keepPercent, allowed, more + rest);
      DecodeBytes(b[1..], keepPercent, allowed, rest);
      Regroup(first, more, rest);
      FirstOf(b, Decode(rest));
      hide EncodeBytes;
    }
  }

  lemma FirstOf(b: bytes, c: bytes)
    ensures b != [] ==> [b[0]] + (b[1..] + c) == b + c
  {}

  lemma KeepEscape(x: char, y: char, b: bytes, allowed: set<char>)
    requires Charset(allowed) && IsUpperHex(x) && IsUpperHex(y)
    ensures EncodeBytes([PERCENT, x as int as byte, y as int as byte] + b, true, allowed)
            == ['%', x, y] + EncodeBytes(b, true, allowed)
  {
    var head := [PERCENT, x as int as byte, y as int as byte];
    EncodeAppend(head, b, true, allowed);
    assert head[1..] == [x as int as byte, y as int as byte] && head[2..] == [y as int as byte];
    EncodeOne(y as int as byte, true, allowed);
    assert head == [PERCENT] + ([x as int as byte] + [y as int as byte]);
    EncodeAppend([x as int as byte], [y as int as byte], true, allowed);
    EncodeOne(x as int as byte, true, allowed);
    EncodeAppend([PERCENT], [x as int as byte] + [y as int as byte], true, allowed);
    EncodeOne(PERCENT, true, allowed);
    hide EncodeBytes;
    assert ['%'] + ([x] + [y]) == ['%', x, y];
  }

  /** The bytes sent for one token and what follows it. */
  lemma EncodeEscape(s: string, allowed: set<char>)
    requires Charset(allowed) && IsEscape(s)
    ensures EncodeBytes(Utf8Bytes(UpperEscapes(s)), true, allowed) ==
            ['%', UpperChar(s[1]), UpperChar(s[2])] + EncodeBytes(Utf8Bytes(UpperEscapes(s[3..])), true, allowed)
  {
    var x, y, rest := UpperChar(s[1]), UpperChar(s[2]), UpperEscapes(s[3..]);
    Utf8Escape(x, y, rest);
    KeepEscape(x, y, Utf8Bytes(rest), allowed);
    hide EncodeBytes, Utf8Bytes;
  }

  lemma EncodePlain(s: string, allowed: set<char>)
    requires s != "" && !IsEscape(s)
    ensures EncodeBytes(Utf8Bytes(UpperEscapes(s)), true, allowed) ==
            EncodeBytes(Utf8(s[0]), true, allowed) + EncodeBytes(Utf8Bytes(UpperEscapes(s[1..])), true, allowed)
  {
    var rest := UpperEscapes(s[1..]);
    assert ([s[0]] + rest)[1..] == rest;
    EncodeAppend(Utf8(s[0]), Utf8Bytes(rest), true, allowed);
    hide EncodeBytes;
  }

  lemma MeaningOfEscape(s: string, allowed: set<char>)
    requires Charset(allowed) && IsEscape(s)
    ensures Decode(EncodeBytes(Utf8Bytes(UpperEscapes(s)), true, allowed)) ==
            [(16 * HexValue(s[1]) + HexValue(s[2])) as byte]
                + Decode(EncodeBytes(Utf8Bytes(UpperEscapes(s[3..])), true, allowed))
  {
    hide EncodeBytes, Utf8Bytes, UpperEscapes, Decode;
    EncodeEscape(s, allowed);
    DecodeEscape(UpperChar(s[1]), UpperChar(s[2]), EncodeBytes(Utf8Bytes(UpperEscapes(s[3..])), true, allowed));
  }

  lemma MeaningOfPlain(s: string, allowed: set<char>)
    requires Charset(allowed) && s != "" && s[0] != '%'
    ensures Decode(EncodeBytes(Utf8Bytes(UpperEscapes(s)), true, allowed)) ==
            Utf8(s[0]) + Decode(EncodeBytes(Utf8Bytes(UpperEscapes(s[1..])), true, allowed))
  {
    hide EncodeBytes, Utf8Bytes, UpperEscapes, Decode;
    EncodePlain(s, allowed);
    DecodeBytes(Utf8(s[0]), true, allowed, EncodeBytes(Utf8Bytes(UpperEscapes(s[1..])), true, allowed));
  }

  /** Where every "%" starts an escape, encoding keeps what the component stands for. */
  lemma {:induction false} KeepsMeaning(s: string, allowed: set<char>)
    requires Charset(allowed) && AllEscapes(s)
    ensures Decode(EncodeBytes(Utf8Bytes(UpperEscapes(s)), true, allowed)) == Decode(s)
    decreases |s|
  {
    hide EncodeBytes, Charset;
    if s == "" {
      assert EncodeBytes([], true, allowed) == "" by {
        EmptyEncodes(allowed);
      }
    } else if IsEscape(s) {
      KeepsMeaning(s[3..], allowed);
      MeaningOfEscape(s, allowed);
    } else {
      KeepsMeaning(s[1..], allowed);
      MeaningOfPlain(s, allowed);
    }
  }

  lemma EmptyEncodes(allowed: set<char>)
    ensures EncodeBytes([], true, allowed) == ""
  {}

  /** Percent-encoding keeps the meaning of a component all of whose "%" start escapes, and of any other component,
      whose "%" is then a character like another, keeps the text with its escapes in upper case. */
  lemma EncodedMeans(s: string, allowed: set<char>)
    requires Charset(allowed)
    ensures Decode(Encoded(s, allowed)) == if AllEscapes(s) then Decode(s) else Utf8Bytes(UpperEscapes(s))
  {
    CountsDecide(s);
    var b := Utf8Bytes(UpperEscapes(s));
    if AllEscapes(s) {
      KeepsMeaning(s, allowed);
    } else {
      DecodeBytes(b, false, allowed, "");
      assert EncodeBytes(b, false, allowed) + "" == EncodeBytes(b, false, allowed);
      assert b + Decode("") == b;
    }
  }

  // ---- what the result looks like ----------------------------------------------------------------

  lemma {:induction false} WellAppend(a: string, b: string, allowed: set<char>)
    requires WellEncoded(a, allowed) && WellEncoded(b, allowed)
    ensures WellEncoded(a + b, allowed)
    decreases |a|
  {
    if a == "" {
      assert a + b == b;
    } else if a[0] == '%' {
      WellAppend(a[3..], b, allowed);
      assert (a + b)[3..] == a[3..] + b;
    } else {
      WellAppend(a[1..], b, allowed);
      assert (a + b)[1..] == a[1..] + b;
    }
  }

  lemma {:induction false} BytesWell(b: bytes, keepPercent: bool, allowed: set<char>)
    requires Charset(allowed) && (keepPercent ==> forall i :: 0 <= i < |b| ==> b[i] != PERCENT)
    ensures WellEncoded(EncodeBytes(b, keepPercent, allowed), allowed)
  {
    if b == [] {
    } else {
      BytesWell(b[1..], keepPercent, allowed);
      var first := EncodeByte(b[0], keepPercent, allowed);
      assert WellEncoded(first, allowed) by {
        assert |first| == 1 ==> first[1..] == "";
        assert |first| == 3 ==> first[3..] == "";
      }
      WellAppend(first, EncodeBytes(b[1..], keepPercent, allowed), allowed);
    }
  }

  lemma {:induction false} KeptWell(s: string, allowed: set<char>)
    requires Charset(allowed) && AllEscapes(s)
    ensures WellEncoded(EncodeBytes(Utf8Bytes(UpperEscapes(s)), true, allowed), allowed)
    decreases |s|
  {
    if s == "" {
    } else if IsEscape(s) {
      KeptWell(s[3..], allowed);
      EncodeEscape(s, allowed);
      var tail := EncodeBytes(Utf8Bytes(UpperEscapes(s[3..])), true, allowed);
      assert (['%', UpperChar(s[1]), UpperChar(s[2])] + tail)[3..] == tail;
    } else {
      KeptWell(s[1..], allowed);
      EncodePlain(s, allowed);
      hide EncodeBytes, Utf8Bytes, UpperEscapes, WellEncoded;
      BytesWell(Utf8(s[0]), true, allowed);
      WellAppend(EncodeBytes(Utf8(s[0]), true, allowed), EncodeBytes(Utf8Bytes(UpperEscapes(s[1..])), true, allowed),
                 allowed);
    }
  }

  lemma {:induction false} WellKept(s: string, allowed: set<char>)
    requires Charset(allowed) && WellEncoded(s, allowed)
    ensures AllEscapes(s) && UpperEscapes(s) == s && EncodeBytes(Utf8Bytes(s), true, allowed) == s
    decreases |s|
  {
    if s == "" {
    } else if s[0] == '%' {
      WellKept(s[3..], allowed);
      hide EncodeBytes, Utf8Bytes;
      EncodeEscape(s, allowed);
      assert s == ['%', s[1], s[2]] + s[3..];
    } else {
      WellKept(s[1..], allowed);
      EncodePlain(s, allowed);
      KeptChar(s[0], allowed);
      hide EncodeBytes, Utf8Bytes;
      assert s == [s[0]] + s[1..];
    }
  }

  lemma KeptChar(c: char, allowed: set<char>)
    requires Charset(allowed) && c in allowed
    ensures EncodeBytes(Utf8(c), true, allowed) == [c]
  {
    EncodeOne(c as int as byte, true, allowed);
  }

  /** The result consists of allowed characters and upper-case escapes; such components are exactly those left alone; so
      encoding twice is encoding once. */
  lemma EncodedIsFixed(s: string, allowed: set<char>)
    requires Charset(allowed)
    ensures WellEncoded(Encoded(s, allowed), allowed)
    ensures Encoded(s, allowed) == s <==> WellEncoded(s, allowed)
    ensures Encoded(Encoded(s, allowed), allowed) == Encoded(s, allowed)
  {
    CountsDecide(s);
    if AllEscapes(s) {
      KeptWell(s, allowed);
    } else {
      BytesWell(Utf8Bytes(UpperEscapes(s)), false, allowed);
    }
    if WellEncoded(s, allowed) {
      WellKept(s, allowed);
    }
    WellKept(Encoded(s, allowed), allowed);
    CountsDecide(Encoded(s, allowed));
  }

  // ---- the sets of the source --------------------------------------------------------------------

  predicate IsUnreserved(c: char) {
    'A' <= c <= 'Z' || 'a' <= c <= 'z' || '0' <= c <= '9' || c == '.' || c == '_' || c == '-' || c == '~'
  }

  const UNRESERVED_CHARS := set c: char | IsUnreserved(c)
  const USERINFO_CHARS := UNRESERVED_CHARS + {'!', '$', '&', '\'', '(', ')', '*', '+', ',', ';', '='} + {':'}
  const PATH_CHARS := USERINFO_CHARS + {'@', '/'}
  const QUERY_CHARS := PATH_CHARS + {'?'}

  lemma SourceCharsets()
    ensures Charset(UNRESERVED_CHARS) && Charset(USERINFO_CHARS) && Charset(PATH_CHARS) && Charset(QUERY_CHARS)
  {}
}
