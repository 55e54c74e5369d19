/** util/url.py `parse_url` and `Url.url` for hosts that are registered names or IPv4 addresses: printing a parsed URL
    and parsing it again. */
module Urls {
  import opened Bytes
  import opened Text
  import opened UrlEncode
  import UrlPath

  datatype Url = Url(
    scheme: Option<string>, auth: Option<string>, host: Option<string>, port: Option<nat>,
    path: Option<string>, query: Option<string>, fragment: Option<string>)

  /** `OutOfModel`: a host in brackets or with characters beyond ASCII. */
  datatype Parsed = Ok(url: Url) | LocationParseError | OutOfModel

  // ---- printing ----------------------------------------------------------------------------------

  function Digits(n: nat): (s: string)
    ensures s != ""
  {
    if n < 10 then ['0' + n as char] else Digits(n / 10) + ['0' + (n % 10) as char]
  }

  function SchemePart(u: Url): string {
    if u.scheme.Some? then u.scheme.value + "://" else ""
  }

  function WithAt(auth: Option<string>): string {
    if auth.Some? then auth.value + "@" else ""
  }

  function AuthPart(u: Url): string {
    WithAt(u.auth)
  }

  /** A component after its mark, nothing if there is none. */
  function Mark(mark: string, s: Option<string>): string {
    if s.Some? then mark + s.value else ""
  }

  function HostPort(host: string, port: Option<nat>): string {
    host + Mark(":", if port.Some? then Some(Digits(port.value)) else None)
  }

  function Authority(u: Url): string {
    WithAt(u.auth) + HostPort(u.host.GetOr(""), u.port)
  }

  function AfterAuthority(u: Url): string {
    u.path.GetOr("") + (Mark("?", u.query) + Mark("#", u.fragment))
  }

  function Print(u: Url): string {
    SchemePart(u) + (Authority(u) + AfterAuthority(u))
  }

  function PortPart(u: Url): string {
    Mark(":", if u.port.Some? then Some(Digits(u.port.value)) else None)
  }

  /** The property `url`, which appends what there is piece by piece. */
  method UrlString(u: Url) returns (url: string)
    ensures url == Print(u)
  {
    url := "";
    if u.scheme.Some? {
      url := url + (u.scheme.value + "://");
    }
    if u.auth.Some? {
      url := url + (u.auth.value + "@");
    }
    assert url == SchemePart(u) + AuthPart(u);
    if u.host.Some? {
      url := url + u.host.value;
    }
    assert url == SchemePart(u) + AuthPart(u) + u.host.GetOr("");
    hide SchemePart, AuthPart;
    if u.port.Some? {
      url := url + (":" + Digits(u.port.value));
    }
    assert url == SchemePart(u) + AuthPart(u) + u.host.GetOr("") + PortPart(u);
    if u.path.Some? {
      url := url + u.path.value;
    }
    hide PortPart;
    assert url == SchemePart(u) + AuthPart(u) + u.host.GetOr("") + PortPart(u) + u.path.GetOr("");
    if u.query.Some? {
      url := url + ("?" + u.query.value);
    }
    assert url == SchemePart(u) + AuthPart(u) + u.host.GetOr("") + PortPart(u) + u.path.GetOr("") + Mark("?", u.query);
    if u.fragment.Some? {
      url := url + ("#" + u.fragment.value);
    }
    assert url == SchemePart(u) + AuthPart(u) + u.host.GetOr("") + PortPart(u) + u.path.GetOr("") + Mark("?", u.query)
           + Mark("#", u.fragment);
    hide Mark;
    RegroupParts(SchemePart(u), AuthPart(u), u.host.GetOr(""), PortPart(u), u.path.GetOr(""), Mark("?", u.query),
                 Mark("#", u.fragment));
  }

  lemma RegroupParts(s: string, a: string, h: string, o: string, p: string, q: string, f: string)
    ensures s + a + h + o + p + q + f == s + ((a + (h + o)) + (p + (q + f)))
  {
    var authority, after := a + (h + o), p + (q + f);
    assert s + a + h + o == s + authority;
    assert (s + authority) + p + q + f == (s + authority) + after;
    assert (s + authority) + after == s + (authority + after);
  }

  // ---- scanning ----------------------------------------------------------------------------------

  /** How far the string goes without a character of `stops`. */
  function Until(s: string, stops: set<char>): (n: nat)
    ensures n <= |s| && (n < |s| ==> s[n] in stops) && forall i :: 0 <= i < n ==> s[i] !in stops
  {
    if s == "" || s[0] in stops then 0 else 1 + Until(s[1..], stops)
  }

  predicate IsAlpha(c: char) {
    'A' <= c <= 'Z' || 'a' <= c <= 'z'
  }

  predicate IsDigit(c: char) {
    '0' <= c <= '9'
  }

  predicate IsSchemeChar(c: char, dots: bool) {
    IsAlpha(c) || IsDigit(c) || c == '+' || c == '-' || (dots && c == '.')
  }

  /** The length of a scheme that "://" or ":" may follow; `dots` tells whether a scheme may contain ".". */
  function SchemeLength(s: string, dots: bool): Option<nat> {
    if s == "" || !IsAlpha(s[0]) then None
    else
      var n := SchemeSpan(s, dots);
      if n < |s| && s[n] == ':' then Some(n) else None
  }

  function SchemeSpan(s: string, dots: bool): (n: nat)
    ensures n <= |s|
  {
    if s == "" || !IsSchemeChar(s[0], dots) then 0 else 1 + SchemeSpan(s[1..], dots)
  }

  /** `_SCHEME_RE`. */
  predicate LooksAbsolute(s: string) {
    SchemeLength(s, false).Some? || (s != "" && s[0] == '/')
  }

  /** The position of the last "@". */
  function LastAt(s: string): Option<nat>
    ensures LastAt(s).Some? ==> LastAt(s).value < |s| && s[LastAt(s).value] == '@'
    ensures forall i :: (if LastAt(s).Some? then LastAt(s).value + 1 else 0) <= i < |s| ==> s[i] != '@'
  {
    if s == "" then None
    else if s[|s| - 1] == '@' then Some(|s| - 1)
    else LastAt(s[..|s| - 1])
  }

  // ---- ports -------------------------------------------------------------------------------------

  datatype Port = NoPort | PortIs(n: nat) | BadPort

  predicate AllDigits(s: string) {
    forall i :: 0 <= i < |s| ==> IsDigit(s[i])
  }

  function StripZeros(s: string): string {
    if |s| > 1 && s[0] == '0' then StripZeros(s[1..]) else s
  }

  function Decimal(s: string): nat
    requires AllDigits(s)
  {
    if s == "" then 0 else 10 * Decimal(s[..|s| - 1]) + (s[|s| - 1] as int - '0' as int)
  }

  /** The port after ":": leading zeros are dropped, five digits at most remain. */
  function ParsePort(s: string): Port {
    if s == "" then NoPort
    else if !AllDigits(s) || |StripZeros(s)| > 5 then BadPort
    else
      StripKeepsDigits(s);
      var n := Decimal(StripZeros(s));
      if n <= 65535 then PortIs(n) else BadPort
  }

  lemma StripKeepsDigits(s: string)
    ensures AllDigits(s) ==> AllDigits(StripZeros(s))
  {}

  lemma {:induction false} DigitsParse(n: nat)
    ensures AllDigits(Digits(n)) && Decimal(Digits(n)) == n
    ensures n > 0 ==> Digits(n)[0] != '0'
    ensures n < 10 ==> |Digits(n)| == 1
  {
    if n < 10 {
      assert Digits(n)[..0] == "";
    } else {
      DigitsParse(n / 10);
      assert Digits(n)[..|Digits(n)| - 1] == Digits(n / 10);
    }
  }

  lemma PortParses(n: nat)
    requires n <= 65535
    ensures ParsePort(Digits(n)) == PortIs(n)
  {
    DigitsParse(n);
    assert StripZeros(Digits(n)) == Digits(n);
    assert Power10(5) == 100000;
    DigitCount(n, 5);
  }

  function Power10(k: nat): nat {
    if k == 0 then 1 else 10 * Power10(k - 1)
  }

  lemma {:induction false} DigitCount(n: nat, k: nat)
    requires 0 < k && n < Power10(k)
    ensures |Digits(n)| <= k
  {
    if n >= 10 {
      assert k > 1;
      DigitCount(n / 10, k - 1);
    }
  }

  // ---- hosts -------------------------------------------------------------------------------------

  /** A character no host may contain, `_HOST_INVALID_CHAR_RE`. */
  predicate IsControl(c: char) {
    c as int <= 0x20 || c as int == 0x7f
  }

  predicate HasControl(s: string) {
    exists i :: 0 <= i < |s| && IsControl(s[i])
  }

  predicate IsAscii(s: string) {
    forall i :: 0 <= i < |s| ==> s[i] as int < 128
  }

  function EscapedChar(s: string): (n: int)
    requires IsEscape(s)
    ensures 0 <= n < 256
  {
    16 * HexValue(s[1]) + HexValue(s[2])
  }

  /** An escape of a control character; a space may be escaped. */
  predicate EscapesControl(s: string)
    decreases |s|
  {
    s != "" &&
    if IsEscape(s) then EscapedChar(s) < 0x20 || EscapedChar(s) == 0x7f || EscapesControl(s[3..])
    else EscapesControl(s[1..])
  }

  /** Escapes of unreserved characters are undone, the others put in upper case. */
  function DecodeHost(s: string): string
    decreases |s|
  {
    if s == "" then ""
    else if IsEscape(s) then
      (if IsUnreserved(EscapedChar(s) as char) then [EscapedChar(s) as char]
       else ['%', UpperChar(s[1]), UpperChar(s[2])])
      + DecodeHost(s[3..])
    else [s[0]] + DecodeHost(s[1..])
  }

  function Labels(s: string): (r: seq<string>)
    ensures r != []
  {
    if s == "" then [""]
    else
      var rest := Labels(s[1..]);
      if s[0] == '.' then [""] + rest else [[s[0]] + rest[0]] + rest[1..]
  }

  /** A decimal or hexadecimal number. */
  predicate IsNumber(s: string) {
    || (s != "" && AllDigits(s))
    || (|s| > 2 && s[0] == '0' && (s[1] == 'x' || s[1] == 'X') && forall i :: 2 <= i < |s| ==> IsHex(s[i]))
  }

  /** `_IPV4_RE`: up to four numbers. */
  predicate IsIpv4(s: string) {
    |Labels(s)| <= 4 && forall i :: 0 <= i < |Labels(s)| ==> IsNumber(Labels(s)[i])
  }

  predicate Normalizable(scheme: Option<string>) {
    scheme.None? || scheme.value == "http" || scheme.value == "https"
  }

  datatype Host = Host(name: string) | BadHost | ForeignHost

  /** `_normalize_host`. */
  function NormalizeHost(host: string, scheme: Option<string>): Host {
    if host == "" then Host("")
    else if HasControl(host) then BadHost
    else if !Normalizable(scheme) || IsIpv4(host) then Host(host)
    else if EscapesControl(host) then BadHost
    else if !IsAscii(DecodeHost(host)) then ForeignHost
    else Host(UpperEscapes(Lower(DecodeHost(host))))
  }

  // ---- parsing -----------------------------------------------------------------------------------

  const AUTHORITY_ENDS := {'\\', '/', '?', '#'}
  const PATH_ENDS := {'?', '#'}
  const QUERY_ENDS := {'#'}
  const BRACKETS := {'[', ']'}

  datatype Authorized = Authorized(auth: Option<string>, host: string, port: Option<nat>) | BadAuthority | BracketedHost

  /** The host up to the first ":", and the port. */
  function ParseHostPort(auth: string, hostPort: string, normalize: bool): Authorized {
    var n := Until(hostPort, {':'});
    var port := if n < |hostPort| then ParsePort(hostPort[n + 1..]) else NoPort;
    if Until(hostPort, BRACKETS) < |hostPort| then BracketedHost
    else if !AllEscapes(hostPort[..n]) || port.BadPort? then BadAuthority
    else Authorized(if auth == "" then None else Some(if normalize then Encoded(auth, USERINFO_CHARS) else auth),
                    hostPort[..n], if port.PortIs? then Some(port.n) else None)
  }

  /** The authority: what precedes its last "@", and the rest. */
  function ParseAuthority(authority: string, normalize: bool): Authorized {
    var at := LastAt(authority);
    if at.Some? then ParseHostPort(authority[..at.value], authority[at.value + 1..], normalize)
    else ParseHostPort("", authority, normalize)
  }

  function NormalizePath(path: string): string {
    if path == "" then "" else Encoded(UrlPath.Join(UrlPath.Cleaned(path)), PATH_CHARS)
  }

  /** `Url(...)`: a path gets its "/". */
  function MakeUrl(scheme: Option<string>, auth: Option<string>, host: Option<string>, port: Option<nat>,
                   path: string, query: Option<string>, fragment: Option<string>): Url {
    Url(scheme, auth, host, port,
        if path == "" then (if query.Some? || fragment.Some? then Some("") else None)
        else Some(if path[0] == '/' then path else "/" + path),
        query, fragment)
  }

  function Component(s: Option<string>, normalize: bool): Option<string> {
    if s.Some? && normalize then Some(Encoded(s.value, QUERY_CHARS)) else s
  }

  datatype Tail = Tail(path: string, query: Option<string>, fragment: Option<string>)

  function SplitFragment(path: string, query: Option<string>, s: string): Tail {
    Tail(path, query, if s != "" then Some(s[1..]) else None)
  }

  function SplitQuery(path: string, s: string): Tail {
    if s != "" && s[0] == '?' then
      var q := Until(s[1..], QUERY_ENDS);
      SplitFragment(path, Some(s[1..][..q]), s[1..][q..])
    else SplitFragment(path, None, s)
  }

  /** What follows the authority, cut at the first "?" and the first "#". */
  function SplitTail(rest: string): Tail {
    var p := Until(rest, PATH_ENDS);
    SplitQuery(rest[..p], rest[p..])
  }

  function ParseRest(scheme: Option<string>, auth: Option<string>, host: Option<string>, port: Option<nat>,
                     rest: string): Url {
    var normalize := Normalizable(scheme);
    var t := SplitTail(rest);
    MakeUrl(scheme, auth, host, port, if normalize then NormalizePath(t.path) else t.path,
            Component(t.query, normalize), Component(t.fragment, normalize))
  }

  /** After the scheme: an authority when "//" follows. */
  function ParseHierarchy(scheme: Option<string>, s: string): Parsed {
    if UrlPath.StartsWith(s, "//") then
      var n := Until(s[2..], AUTHORITY_ENDS);
      var authority, rest := s[2..][..n], s[2..][n..];
      if authority == "" then Ok(ParseRest(scheme, None, None, None, rest))
      else
        match ParseAuthority(authority, Normalizable(scheme))
        case BadAuthority => LocationParseError
        case BracketedHost => OutOfModel
        case Authorized(auth, host, port) =>
          match NormalizeHost(host, scheme)
          case BadHost => LocationParseError
          case ForeignHost => OutOfModel
          case Host(name) => Ok(ParseRest(scheme, auth, Some(name), port, rest))
    else Ok(ParseRest(scheme, None, None, None, s))
  }

  /** `parse_url`. */
  function Parse(url: string): Parsed {
    if url == "" then Ok(Url(None, None, None, None, None, None, None))
    else
      var s := if LooksAbsolute(url) then url else "//" + url;
      match SchemeLength(s, true)
      case Some(n) => ParseHierarchy(Some(Lower(s[..n])), s[n + 1..])
      case None => ParseHierarchy(None, s)
  }

  // ---- normalised URLs ---------------------------------------------------------------------------

  const DELIMITERS := {':', '/', '?', '#', '\\', '@', '[', ']'}

  predicate Free(s: string, stops: set<char>) {
    forall i :: 0 <= i < |s| ==> s[i] !in stops
  }

  /** A host that normalising leaves alone, without delimiters and with "%" only in escapes. */
  predicate NormalHost(h: string) {
    Free(h, DELIMITERS) && AllEscapes(h) && NormalizeHost(h, Some("http")) == Host(h)
  }

  predicate NormalPath(p: string) {
    p != "" && p[0] == '/' && UrlPath.DotFree(UrlPath.Split(p)) && WellEncoded(p, PATH_CHARS)
  }

  /** An http or https URL with its components in normal form, and not just an empty host. */
  predicate Normalised(u: Url) {
    && (u.scheme == Some("http") || u.scheme == Some("https"))
    && (u.auth.Some? ==> u.auth.value != "" && WellEncoded(u.auth.value, USERINFO_CHARS))
    && (u.host.Some? ==> NormalHost(u.host.value))
    && (u.host.None? ==> u.auth.None? && u.port.None?)
    && (u.host == Some("") ==> u.auth.Some? || u.port.Some?)
    && (u.port.Some? ==> u.port.value <= 65535)
    && (u.path.None? ==> u.query.None? && u.fragment.None?)
    && (u.path.Some? ==> NormalPath(u.path.value) || (u.path.value == "" && (u.query.Some? || u.fragment.Some?)))
    && (u.query.Some? ==> WellEncoded(u.query.value, QUERY_CHARS))
    && (u.fragment.Some? ==> WellEncoded(u.fragment.value, QUERY_CHARS))
  }

  // ---- parsing what is printed -------------------------------------------------------------------

  lemma {:induction false} UntilAt(a: string, b: string, stops: set<char>)
    requires Free(a, stops) && (b == "" || b[0] in stops)
    ensures Until(a + b, stops) == |a| && (a + b)[..|a|] == a && (a + b)[|a|..] == b
  {
    if a == "" {
      assert a + b == b;
    } else {
      UntilAt(a[1..], b, stops);
      assert (a + b)[1..] == a[1..] + b;
    }
  }

  lemma {:induction false} LastAtIs(a: string, b: string)
    requires Free(b, {'@'})
    ensures LastAt(a + "@" + b) == Some(|a|) && LastAt(b) == None
    decreases |b|
  {
    var s := a + "@" + b;
    if b == "" {
      assert s == a + "@";
    } else {
      var shorter := b[..|b| - 1];
      assert s[..|s| - 1] == a + "@" + shorter && s[|s| - 1] == b[|b| - 1];
      LastAtIs(a, shorter);
    }
  }

  lemma CutAtAt(a: string, b: string)
    ensures (a + "@" + b)[..|a|] == a && (a + "@" + b)[|a| + 1..] == b
  {}

  lemma {:induction false} WellEncodedChars(s: string, allowed: set<char>, stops: set<char>)
    requires Charset(allowed) && WellEncoded(s, allowed) && allowed !! stops && '%' !in stops
    ensures Free(s, stops)
    decreases |s|
  {
    if s == "" {
    } else if s[0] == '%' {
      assert s[1] in allowed && s[2] in allowed;
      WellEncodedChars(s[3..], allowed, stops);
      assert forall i :: 3 <= i < |s| ==> s[i] == s[3..][i - 3];
    } else {
      WellEncodedChars(s[1..], allowed, stops);
      assert forall i :: 1 <= i < |s| ==> s[i] == s[1..][i - 1];
    }
  }

  lemma CharsetsExclude()
    ensures QUERY_CHARS !! QUERY_ENDS && PATH_CHARS !! PATH_ENDS && USERINFO_CHARS !! AUTHORITY_ENDS
  {}

  lemma QueryFree(s: string)
    requires WellEncoded(s, QUERY_CHARS)
    ensures Free(s, QUERY_ENDS)
    ensures forall normalize :: Component(Some(s), normalize) == Some(s)
  {
    SourceCharsets();
    CharsetsExclude();
    hide WellEncoded, Encoded, Charset;
    WellEncodedChars(s, QUERY_CHARS, QUERY_ENDS);
    EncodedIsFixed(s, QUERY_CHARS);
  }

  lemma PathFixed(p: string)
    requires NormalPath(p)
    ensures Free(p, PATH_ENDS) && NormalizePath(p) == p
  {
    SourceCharsets();
    CharsetsExclude();
    hide WellEncoded, Encoded, Charset, UrlPath.DotFree, UrlPath.Split, UrlPath.Join, UrlPath.Cleaned;
    WellEncodedChars(p, PATH_CHARS, PATH_ENDS);
    UrlPath.DotsRemoved(p);
    EncodedIsFixed(p, PATH_CHARS);
  }

  lemma UserinfoFree(s: string)
    requires WellEncoded(s, USERINFO_CHARS)
    ensures Free(s, AUTHORITY_ENDS) && Encoded(s, USERINFO_CHARS) == s
  {
    SourceCharsets();
    CharsetsExclude();
    hide WellEncoded, Encoded, Charset;
    WellEncodedChars(s, USERINFO_CHARS, AUTHORITY_ENDS);
    EncodedIsFixed(s, USERINFO_CHARS);
  }

  lemma FragmentSplits(path: string, query: Option<string>, fragment: Option<string>)
    ensures SplitFragment(path, query, Mark("#", fragment)) == Tail(path, query, fragment)
  {
    assert fragment.Some? ==> ("#" + fragment.value)[1..] == fragment.value;
  }

  lemma QuerySplits(path: string, query: Option<string>, fragment: Option<string>)
    requires query.Some? ==> Free(query.value, QUERY_ENDS)
    ensures SplitQuery(path, Mark("?", query) + Mark("#", fragment)) == Tail(path, query, fragment)
  {
    var s, after := Mark("?", query) + Mark("#", fragment), Mark("#", fragment);
    FragmentSplits(path, query, fragment);
    hide SplitFragment;
    if query.Some? {
      UntilAt(query.value, after, QUERY_ENDS);
      hide Until, Free;
      assert s[1..] == query.value + after;
    } else {
      assert s == after;
    }
  }

  lemma TailSplits(path: string, query: Option<string>, fragment: Option<string>)
    requires Free(path, PATH_ENDS) && (query.Some? ==> Free(query.value, QUERY_ENDS))
    ensures SplitTail(path + (Mark("?", query) + Mark("#", fragment))) == Tail(path, query, fragment)
  {
    QuerySplits(path, query, fragment);
    MarksStart(query, fragment);
    UntilAt(path, Mark("?", query) + Mark("#", fragment), PATH_ENDS);
    hide Until, Free, Mark, SplitQuery;
  }

  lemma MarksStart(query: Option<string>, fragment: Option<string>)
    ensures var s := Mark("?", query) + Mark("#", fragment); s == "" || s[0] in PATH_ENDS
  {}

  /** The components of a normalised URL are left alone. */
  lemma ComponentsFixed(u: Url)
    requires Normalised(u)
    ensures Free(u.path.GetOr(""), PATH_ENDS) && NormalizePath(u.path.GetOr("")) == u.path.GetOr("")
    ensures u.query.Some? ==> Free(u.query.value, QUERY_ENDS)
    ensures Component(u.query, true) == u.query && Component(u.fragment, true) == u.fragment
  {
    var path := u.path.GetOr("");
    hide NormalHost, WellEncoded, NormalPath, NormalizePath, Component;
    if path != "" {
      PathFixed(path);
    }
    EmptyComponents();
    if u.query.Some? {
      QueryFree(u.query.value);
    }
    if u.fragment.Some? {
      QueryFree(u.fragment.value);
    }
  }

  lemma EmptyComponents()
    ensures NormalizePath("") == "" && forall normalize :: Component(None, normalize) == None
  {}

  lemma RestParses(u: Url)
    requires Normalised(u)
    ensures ParseRest(u.scheme, u.auth, u.host, u.port, AfterAuthority(u)) == u
  {
    ComponentsFixed(u);
    TailSplits(u.path.GetOr(""), u.query, u.fragment);
    hide Encoded, NormalizePath, WellEncoded, NormalHost, Free, Component, Mark, SplitTail, UrlPath.DotFree,
      UrlPath.Split;
  }

  lemma PortMark(port: Option<nat>)
    requires port.Some? ==> port.value <= 65535
    ensures var p := Mark(":", if port.Some? then Some(Digits(port.value)) else None);
            && Free(p, AUTHORITY_ENDS + {'@'} + BRACKETS) && (p == "" <==> port.None?) && (p != "" ==> p[0] == ':')
            && (port.Some? ==> p[1..] == Digits(port.value) && ParsePort(p[1..]) == PortIs(port.value))
  {
    if port.Some? {
      DigitsParse(port.value);
      PortParses(port.value);
      hide ParsePort, Digits, Decimal;
      assert (":" + Digits(port.value))[1..] == Digits(port.value);
    }
  }

  lemma HostPortParses(host: string, port: Option<nat>)
    requires NormalHost(host) && (port.Some? ==> port.value <= 65535)
    ensures var s := HostPort(host, port);
            && Free(s, AUTHORITY_ENDS + {'@'}) && Until(s, BRACKETS) == |s|
            && Until(s, {':'}) == |host| && s[..|host|] == host && (|host| == |s| <==> port.None?)
            && (port.Some? ==> ParsePort(s[|host| + 1..]) == PortIs(port.value))
  {
    var s := HostPort(host, port);
    var p := Mark(":", if port.Some? then Some(Digits(port.value)) else None);
    PortMark(port);
    hide NormalizeHost, ParsePort, Digits, AllEscapes, Mark;
    UntilAt(host, p, {':'});
    UntilAt(s, "", BRACKETS);
    assert s + "" == s;
    assert port.Some? ==> s[|host| + 1..] == p[1..];
  }

  lemma HostPortResult(auth: string, host: string, port: Option<nat>)
    requires NormalHost(host) && (port.Some? ==> port.value <= 65535)
    requires auth != "" ==> WellEncoded(auth, USERINFO_CHARS)
    ensures ParseHostPort(auth, HostPort(host, port), true)
            == Authorized(if auth == "" then None else Some(auth), host, port)
  {
    HostEscapes(host);
    hide NormalHost, ParsePort, WellEncoded, Encoded, Until, HostPort, AllEscapes, Free;
    HostPortParses(host, port);
    if auth != "" {
      UserinfoFree(auth);
    }
  }

  lemma HostEscapes(host: string)
    ensures NormalHost(host) ==> AllEscapes(host)
  {}

  lemma AuthorityCuts(auth: Option<string>, hostPort: string, normalize: bool)
    requires Free(hostPort, {'@'})
    ensures ParseAuthority(WithAt(auth) + hostPort, normalize) == ParseHostPort(auth.GetOr(""), hostPort, normalize)
  {
    hide ParseHostPort, Free;
    LastAtIs(auth.GetOr(""), hostPort);
    CutAtAt(auth.GetOr(""), hostPort);
    hide LastAt;
    assert "" + hostPort == hostPort;
  }

  lemma FreeLess(s: string, big: set<char>, small: set<char>)
    ensures Free(s, big) && small <= big ==> Free(s, small)
  {}

  lemma FreeAppend(a: string, b: string, stops: set<char>)
    ensures Free(a, stops) && Free(b, stops) ==> Free(a + b, stops)
  {}

  lemma AuthorityParses(u: Url)
    requires Normalised(u) && u.host.Some?
    ensures ParseAuthority(Authority(u), true) == Authorized(u.auth, u.host.value, u.port)
  {
    hide NormalHost, NormalPath, WellEncoded, HostPort, ParseHostPort, ParseAuthority, ParsePort, Free, WithAt;
    HostPortParses(u.host.value, u.port);
    HostPortResult(u.auth.GetOr(""), u.host.value, u.port);
    FreeLess(HostPort(u.host.value, u.port), AUTHORITY_ENDS + {'@'}, {'@'});
    AuthorityCuts(u.auth, HostPort(u.host.value, u.port), true);
  }

  lemma WithAtFree(auth: Option<string>)
    requires auth.Some? ==> WellEncoded(auth.value, USERINFO_CHARS)
    ensures Free(WithAt(auth), AUTHORITY_ENDS)
  {
    hide WellEncoded, Encoded;
    if auth.Some? {
      UserinfoFree(auth.value);
      FreeAppend(auth.value, "@", AUTHORITY_ENDS);
    }
  }

  lemma AuthorityFree(u: Url)
    requires Normalised(u)
    ensures Free(Authority(u), AUTHORITY_ENDS) && (Authority(u) == "" <==> u.host.None?)
  {
    hide NormalHost, NormalPath, WellEncoded, ParsePort, Free;
    WithAtFree(u.auth);
    EmptyHostPort();
    if u.host.Some? {
      HostPortParses(u.host.value, u.port);
      FreeLess(HostPort(u.host.value, u.port), AUTHORITY_ENDS + {'@'}, AUTHORITY_ENDS);
    }
    FreeAppend(WithAt(u.auth), HostPort(u.host.GetOr(""), u.port), AUTHORITY_ENDS);
  }

  lemma EmptyHostPort()
    ensures HostPort("", None) == "" && Free("", AUTHORITY_ENDS)
  {}

  lemma SchemeParses(scheme: string, more: string)
    requires scheme == "http" || scheme == "https"
    ensures var s := scheme + "://" + more;
            && LooksAbsolute(s) && SchemeLength(s, true) == Some(|scheme|)
            && Lower(s[..|scheme|]) == scheme && s[|scheme| + 1..] == "//" + more
  {
    SchemeSpans(scheme, "://" + more, false);
    SchemeSpans(scheme, "://" + more, true);
    var s := scheme + "://" + more;
    assert s == scheme + ("://" + more);
    assert s[..|scheme|] == scheme && s[|scheme|] == ':';
    assert Lower(scheme) == scheme;
  }

  lemma {:induction false} SchemeSpans(scheme: string, after: string, dots: bool)
    requires after != "" && !IsSchemeChar(after[0], dots)
    requires forall i :: 0 <= i < |scheme| ==> IsSchemeChar(scheme[i], dots)
    ensures SchemeSpan(scheme + after, dots) == |scheme|
  {
    if scheme == "" {
      assert scheme + after == after;
    } else {
      SchemeSpans(scheme[1..], after, dots);
      assert (scheme + after)[1..] == scheme[1..] + after;
    }
  }

  lemma AfterStarts(u: Url)
    requires Normalised(u)
    ensures AfterAuthority(u) == "" || AfterAuthority(u)[0] in AUTHORITY_ENDS
  {
    hide NormalHost, WellEncoded;
  }

  lemma HierarchyParses(u: Url)
    requires Normalised(u)
    ensures ParseHierarchy(u.scheme, "//" + (Authority(u) + AfterAuthority(u))) == Ok(u)
  {
    var rest := AfterAuthority(u);
    AfterStarts(u);
    AuthorityFree(u);
    RestParses(u);
    if u.host.Some? {
      AuthorityParses(u);
    }
    UntilAt(Authority(u), rest, AUTHORITY_ENDS);
    assert ("//" + (Authority(u) + rest))[2..] == Authority(u) + rest;
    if u.host.Some? {
      HostFixed(u);
    }
    hide NormalHost, NormalPath, WellEncoded, Until, Authority, AfterAuthority, ParseAuthority, ParseRest,
      NormalizeHost, Free;
  }

  lemma HostFixed(u: Url)
    requires Normalised(u) && u.host.Some?
    ensures NormalizeHost(u.host.value, u.scheme) == Host(u.host.value)
  {
    hide NormalPath, WellEncoded, Authority;
  }

  /** Printing and parsing undo each other on every normalised http and https URL. */
  lemma PrintParses(u: Url)
    requires Normalised(u)
    ensures Parse(Print(u)) == Ok(u)
  {
    var more := Authority(u) + AfterAuthority(u);
    SchemeParses(u.scheme.value, more);
    HierarchyParses(u);
    hide NormalHost, NormalPath, WellEncoded, Authority, AfterAuthority, ParseHierarchy, LooksAbsolute, SchemeLength;
  }

  // ---- what parsing returns is normalised --------------------------------------------------------

  /** Same slashes and dots in the same places. */
  predicate SameDots(s: string, r: string) {
    |s| == |r| && forall i :: 0 <= i < |s| ==> (s[i] == '.' <==> r[i] == '.') && (s[i] == '/' <==> r[i] == '/')
  }

  lemma {:induction false} UpperSameDots(s: string)
    ensures SameDots(s, UpperEscapes(s))
    decreases |s|
  {
    if s == "" {
    } else if IsEscape(s) {
      UpperSameDots(s[3..]);
      assert forall i :: 3 <= i < |s| ==> s[i] == s[3..][i - 3] && UpperEscapes(s)[i] == UpperEscapes(s[3..])[i - 3];
    } else {
      UpperSameDots(s[1..]);
      assert forall i :: 1 <= i < |s| ==> s[i] == s[1..][i - 1] && UpperEscapes(s)[i] == UpperEscapes(s[1..])[i - 1];
    }
  }

  lemma {:induction false} SplitSameDots(s: string, r: string)
    requires SameDots(s, r)
    ensures |UrlPath.Split(s)| == |UrlPath.Split(r)|
    ensures forall i :: 0 <= i < |UrlPath.Split(s)| ==> SameDots(UrlPath.Split(s)[i], UrlPath.Split(r)[i])
  {
    if s == "" {
    } else {
      SplitSameDots(s[1..], r[1..]);
    }
  }

  lemma DotsAreDots(s: string, r: string)
    requires SameDots(s, r)
    ensures UrlPath.IsDots(s) <==> UrlPath.IsDots(r)
  {
    assert s == "." <==> |s| == 1 && s[0] == '.';
    assert r == "." <==> |r| == 1 && r[0] == '.';
    assert s == ".." <==> |s| == 2 && s[0] == '.' && s[1] == '.';
    assert r == ".." <==> |r| == 2 && r[0] == '.' && r[1] == '.';
  }

  lemma DotFreeSame(s: string, r: string)
    requires SameDots(s, r) && UrlPath.DotFree(UrlPath.Split(s))
    ensures UrlPath.DotFree(UrlPath.Split(r))
  {
    SplitSameDots(s, r);
    hide SameDots, UrlPath.IsDots;
    forall i | 0 <= i < |UrlPath.Split(r)|
      ensures !UrlPath.IsDots(UrlPath.Split(r)[i])
    {
      DotsAreDots(UrlPath.Split(s)[i], UrlPath.Split(r)[i]);
    }
  }

  /** The characters one character is encoded as. */
  function EncodeChar(c: char, keep: bool): string {
    EncodeBytes(Utf8(c), keep, PATH_CHARS)
  }

  lemma EncodeFirst(s: string, keep: bool)
    requires s != ""
    ensures EncodeBytes(Utf8Bytes(s), keep, PATH_CHARS) == EncodeChar(s[0], keep)
            + EncodeBytes(Utf8Bytes(s[1..]), keep, PATH_CHARS)
  {
    EncodeAppend(Utf8(s[0]), Utf8Bytes(s[1..]), keep, PATH_CHARS);
  }

  lemma {:induction false} BytesNoSlash(b: bytes, keep: bool)
    requires forall i :: 0 <= i < |b| ==> b[i] != '/' as int as byte
    ensures '/' !in EncodeBytes(b, keep, PATH_CHARS) && (b != [] ==> EncodeBytes(b, keep, PATH_CHARS) != "")
  {
    if b == [] {
    } else {
      BytesNoSlash(b[1..], keep);
    }
  }

  lemma EncodeCharIs(c: char, keep: bool)
    ensures c == '/' || c == '.' ==> EncodeChar(c, keep) == [c]
    ensures c != '/' ==> '/' !in EncodeChar(c, keep)
    ensures c != '.' ==> EncodeChar(c, keep) != "" && EncodeChar(c, keep)[0] != '.'
  {
    EncodeOne(Utf8(c)[0], keep, PATH_CHARS);
    if c != '/' {
      BytesNoSlash(Utf8(c), keep);
    }
  }

  function EncodeText(s: string, keep: bool): string {
    EncodeBytes(Utf8Bytes(s), keep, PATH_CHARS)
  }

  lemma EncodeCons(c: char, s: string, keep: bool)
    ensures EncodeText([c] + s, keep) == EncodeChar(c, keep) + EncodeText(s, keep)
  {
    EncodeFirst([c] + s, keep);
    assert ([c] + s)[1..] == s;
  }

  lemma {:induction false} SplitPrefix(t: string, s: string)
    requires '/' !in t
    ensures UrlPath.Split(t + s) == [t + UrlPath.Split(s)[0]] + UrlPath.Split(s)[1..]
  {
    if t == "" {
      assert t + s == s && t + UrlPath.Split(s)[0] == UrlPath.Split(s)[0];
    } else {
      SplitPrefix(t[1..], s);
      assert (t + s)[1..] == t[1..] + s;
      assert [t[0]] + (t[1..] + UrlPath.Split(s)[0]) == t + UrlPath.Split(s)[0];
    }
  }

  /** Encoding acts on each segment of its own. */
  predicate SplitsAlike(s: string, keep: bool) {
    && |UrlPath.Split(EncodeText(s, keep))| == |UrlPath.Split(s)|
    && forall i :: 0 <= i < |UrlPath.Split(s)| ==>
         UrlPath.Split(EncodeText(s, keep))[i] == EncodeText(UrlPath.Split(s)[i], keep)
  }

  lemma EncodeSlash(s: string, keep: bool)
    requires SplitsAlike(s, keep)
    ensures SplitsAlike("/" + s, keep)
  {
    EncodeCons('/', s, keep);
    EncodeCharIs('/', keep);
    assert EncodeText("", keep) == "";
    hide EncodeText, EncodeChar;
    assert ("/" + s)[1..] == s && ("/" + EncodeText(s, keep))[1..] == EncodeText(s, keep);
  }

  lemma EncodeOther(c: char, s: string, keep: bool)
    requires SplitsAlike(s, keep) && c != '/'
    ensures SplitsAlike([c] + s, keep)
  {
    hide EncodeText, EncodeChar, UrlPath.Split;
    var x, y, t := UrlPath.Split(s), UrlPath.Split(EncodeText(s, keep)), EncodeChar(c, keep);
    EncodeCons(c, s, keep);
    EncodeCons(c, x[0], keep);
    EncodeCharIs(c, keep);
    SplitPrefix([c], s);
    SplitPrefix(t, EncodeText(s, keep));
    var xs, ys := [[c] + x[0]] + x[1..], [t + y[0]] + y[1..];
    assert UrlPath.Split([c] + s) == xs && UrlPath.Split(EncodeText([c] + s, keep)) == ys;
    forall i | 0 <= i < |xs|
      ensures ys[i] == EncodeText(xs[i], keep)
    {
      if i > 0 {
        assert ys[i] == y[i] && xs[i] == x[i];
      }
    }
  }

  lemma {:induction false} EncodeSplit(s: string, keep: bool)
    ensures SplitsAlike(s, keep)
  {
    if s == "" {
    } else {
      EncodeSplit(s[1..], keep);
      assert s == [s[0]] + s[1..];
      hide SplitsAlike;
      if s[0] == '/' {
        EncodeSlash(s[1..], keep);
      } else {
        EncodeOther(s[0], s[1..], keep);
      }
    }
  }

  lemma TextStarts(s: string, keep: bool)
    ensures s == "" <==> EncodeText(s, keep) == ""
    ensures s != "" ==> (EncodeText(s, keep)[0] == '.' <==> s[0] == '.')
    ensures s != "" && s[0] == '.' ==> EncodeText(s, keep)[1..] == EncodeText(s[1..], keep)
    ensures s != "" && s[0] == '/' ==> EncodeText(s, keep)[0] == '/'
  {
    if s != "" {
      EncodeFirst(s, keep);
      EncodeCharIs(s[0], keep);
      hide EncodeChar;
    }
  }

  lemma EncodeDots(s: string, keep: bool)
    requires UrlPath.IsDots(EncodeText(s, keep))
    ensures UrlPath.IsDots(s)
  {
    hide EncodeText;
    var r := EncodeText(s, keep);
    TextStarts(s, keep);
    assert r[0] == '.' && s == "." + s[1..];
    TextStarts(s[1..], keep);
    if r == ".." {
      assert r[1..] == ".";
      assert s[1..][0] == '.' && s[1..] == "." + s[2..];
      assert r[1..][1..] == "";
      TextStarts(s[2..], keep);
    }
  }

  /** Encoding a path brings no dot segment into it. */
  lemma EncodedDotFree(path: string)
    requires UrlPath.DotFree(UrlPath.Split(path))
    ensures UrlPath.DotFree(UrlPath.Split(Encoded(path, PATH_CHARS)))
  {
    var upper := UpperEscapes(path);
    var keep := CountEscapes(path) == CountPercent(Utf8Bytes(upper));
    UpperSameDots(path);
    DotFreeSame(path, upper);
    EncodeSplit(upper, keep);
    var r := UrlPath.Split(Encoded(path, PATH_CHARS));
    assert Encoded(path, PATH_CHARS) == EncodeText(upper, keep);
    hide EncodeText, UrlPath.IsDots, Encoded;
    forall i | 0 <= i < |r|
      ensures !UrlPath.IsDots(r[i])
    {
      if UrlPath.IsDots(r[i]) {
        EncodeDots(UrlPath.Split(upper)[i], keep);
        assert false;
      }
    }
  }

  lemma PathIsNormal(path: string)
    ensures var p := NormalizePath(path);
            p != "" ==> NormalPath(if p[0] == '/' then p else "/" + p)
  {
    var cleaned, p := UrlPath.Join(UrlPath.Cleaned(path)), NormalizePath(path);
    if path != "" && p != "" {
      UrlPath.DotsRemoved(path);
      SourceCharsets();
      EncodedDotFree(cleaned);
      EncodedIsFixed(cleaned, PATH_CHARS);
      if p[0] != '/' {
        SlashBefore(p);
      }
    }
  }

  lemma SlashBefore(p: string)
    requires UrlPath.DotFree(UrlPath.Split(p)) && WellEncoded(p, PATH_CHARS)
    ensures UrlPath.DotFree(UrlPath.Split("/" + p)) && WellEncoded("/" + p, PATH_CHARS)
  {
    assert ("/" + p)[1..] == p;
  }

  lemma RestIsNormal(scheme: Option<string>, auth: Option<string>, host: Option<string>, port: Option<nat>,
                     rest: string)
    requires scheme == Some("http") || scheme == Some("https")
    ensures var u := ParseRest(scheme, auth, host, port, rest);
            && u.scheme == scheme && u.auth == auth && u.host == host && u.port == port
            && (u.path.None? ==> u.query.None? && u.fragment.None?)
            && (u.path.Some? ==>
                NormalPath(u.path.value) || (u.path.value == "" && (u.query.Some? || u.fragment.Some?)))
            && (u.query.Some? ==> WellEncoded(u.query.value, QUERY_CHARS))
            && (u.fragment.Some? ==> WellEncoded(u.fragment.value, QUERY_CHARS))
  {
    var t := SplitTail(rest);
    PathIsNormal(t.path);
    ComponentNormal(t.query);
    ComponentNormal(t.fragment);
    hide NormalizePath, NormalPath, Component, WellEncoded, SplitTail;
  }

  lemma ComponentNormal(s: Option<string>)
    ensures Component(s, true).Some? <==> s.Some?
    ensures s.Some? ==> WellEncoded(Component(s, true).value, QUERY_CHARS)
  {
    SourceCharsets();
    if s.Some? {
      EncodedIsFixed(s.value, QUERY_CHARS);
    }
  }

  // ---- hosts in normal form ----------------------------------------------------------------------

  /** A character that stays as it is in a host. */
  predicate NameChar(c: char) {
    c as int < 128 && !IsControl(c) && !('A' <= c <= 'Z') && c != '%' && c !in DELIMITERS
  }

  predicate NormalName(s: string)
    decreases |s|
  {
    s == "" ||
    (if s[0] == '%' then
       && |s| >= 3 && IsUpperHex(s[1]) && IsUpperHex(s[2]) && !IsUnreserved(EscapedChar(s) as char)
       && EscapedChar(s) >= 0x20 && EscapedChar(s) != 0x7f && NormalName(s[3..])
     else NameChar(s[0]) && NormalName(s[1..]))
  }

  lemma LowerCons(c: char, s: string)
    ensures Lower([c] + s) == [LowerChar(c)] + Lower(s)
  {}

  lemma LowerEscape(x: char, y: char, s: string)
    ensures Lower(['%', x, y] + s) == ['%', LowerChar(x), LowerChar(y)] + Lower(s)
  {}

  lemma UpperCons(c: char, s: string)
    requires c != '%'
    ensures UpperEscapes([c] + s) == [c] + UpperEscapes(s)
  {
    assert ([c] + s)[1..] == s;
  }

  lemma UpperEscape(x: char, y: char, s: string)
    requires IsHex(x) && IsHex(y)
    ensures UpperEscapes(['%', x, y] + s) == ['%', UpperChar(x), UpperChar(y)] + UpperEscapes(s)
  {
    assert (['%', x, y] + s)[3..] == s;
  }

  lemma NameEscape(x: char, y: char, s: string)
    requires IsUpperHex(x) && IsUpperHex(y) && NormalName(s)
    requires var n := 16 * HexValue(x) + HexValue(y); n >= 0x20 && n != 0x7f && !IsUnreserved(n as char)
    ensures NormalName(['%', x, y] + s)
  {
    assert (['%', x, y] + s)[3..] == s;
  }

  /** What `_normalize_host` accepts of a name. */
  predicate Acceptable(s: string) {
    AllEscapes(s) && Free(s, DELIMITERS) && !HasControl(s) && !EscapesControl(s) && IsAscii(DecodeHost(s))
  }

  lemma AcceptsTail(s: string)
    requires Acceptable(s) && s != ""
    ensures Acceptable(s[if IsEscape(s) then 3 else 1..])
    ensures IsEscape(s) ==> EscapedChar(s) >= 0x20 && EscapedChar(s) != 0x7f
    ensures !IsEscape(s) ==> s[0] as int < 128 && !IsControl(s[0]) && s[0] != '%' && s[0] !in DELIMITERS
  {
    var n := if IsEscape(s) then 3 else 1;
    var m := if IsEscape(s) && IsUnreserved(EscapedChar(s) as char) then 1 else n;
    assert DecodeHost(s)[m..] == DecodeHost(s[n..]);
    AsciiTail(DecodeHost(s), m);
    assert forall i :: 0 <= i < |s[n..]| ==> s[n..][i] == s[n + i];
    assert !IsEscape(s) ==> DecodeHost(s)[0] == s[0];
  }

  lemma HexCase(c: char)
    ensures IsHex(c) ==> IsUpperHex(UpperChar(c)) && IsHex(LowerChar(c)) && HexValue(UpperChar(c)) == HexValue(c)
    ensures IsHex(c) ==> UpperChar(LowerChar(UpperChar(c))) == UpperChar(c)
    ensures IsUpperHex(c) ==> UpperChar(c) == c && UpperChar(LowerChar(c)) == c
  {}

  lemma NameOfKept(x: char, y: char, rest: string)
    requires IsUpperHex(x) && IsUpperHex(y) && NormalName(UpperEscapes(Lower(rest)))
    requires var n := 16 * HexValue(x) + HexValue(y); n >= 0x20 && n != 0x7f && !IsUnreserved(n as char)
    ensures NormalName(UpperEscapes(Lower(['%', x, y] + rest)))
  {
    hide NormalName, UpperEscapes, Lower, IsUnreserved;
    HexCase(x);
    HexCase(y);
    LowerEscape(x, y, rest);
    UpperEscape(LowerChar(x), LowerChar(y), Lower(rest));
    NameEscape(x, y, UpperEscapes(Lower(rest)));
  }

  lemma UnreservedIsName(c: char)
    ensures IsUnreserved(c) ==> c as int < 128 && !IsControl(c) && c != '%' && c !in DELIMITERS
  {}

  lemma NameOfEscape(s: string)
    requires IsEscape(s) && EscapedChar(s) >= 0x20 && EscapedChar(s) != 0x7f
    requires NormalName(UpperEscapes(Lower(DecodeHost(s[3..]))))
    ensures NormalName(UpperEscapes(Lower(DecodeHost(s))))
  {
    var n, rest := EscapedChar(s), DecodeHost(s[3..]);
    HexCase(s[1]);
    HexCase(s[2]);
    assert DecodeHost(s) ==
           (if IsUnreserved(n as char) then [n as char] else ['%', UpperChar(s[1]), UpperChar(s[2])]) + rest;
    hide DecodeHost, NormalName, UpperEscapes, Lower, IsUnreserved, IsControl, UpperChar, HexValue;
    if IsUnreserved(n as char) {
      UnreservedIsName(n as char);
      NamePlain(n as char, rest);
    } else {
      NameOfKept(UpperChar(s[1]), UpperChar(s[2]), rest);
    }
  }

  /** Decoding, lower case and upper-case escapes make a normal name of every acceptable host. */
  lemma {:induction false} NameIsNormal(s: string)
    requires Acceptable(s)
    ensures NormalName(UpperEscapes(Lower(DecodeHost(s))))
    decreases |s|
  {
    if s == "" {
    } else {
      AcceptsTail(s);
      hide Acceptable;
      NameIsNormal(s[if IsEscape(s) then 3 else 1..]);
      if IsEscape(s) {
        hide NormalName, UpperEscapes, Lower;
        NameOfEscape(s);
      } else {
        assert DecodeHost(s) == [s[0]] + DecodeHost(s[1..]);
        hide NormalName, UpperEscapes, Lower, DecodeHost;
        NamePlain(s[0], DecodeHost(s[1..]));
      }
    }
  }

  lemma AsciiTail(s: string, n: nat)
    ensures n <= |s| && IsAscii(s) ==> IsAscii(s[n..])
  {}

  lemma NamePlain(c: char, s: string)
    requires c as int < 128 && !IsControl(c) && c != '%' && c !in DELIMITERS && NormalName(UpperEscapes(Lower(s)))
    ensures NormalName(UpperEscapes(Lower([c] + s)))
  {
    LowerCons(c, s);
    UpperCons(LowerChar(c), Lower(s));
    assert ([LowerChar(c)] + UpperEscapes(Lower(s)))[1..] == UpperEscapes(Lower(s));
  }

  lemma {:induction false} NameIsFixed(s: string)
    requires NormalName(s)
    ensures Acceptable(s) && UpperEscapes(Lower(DecodeHost(s))) == s
    decreases |s|
  {
    if s == "" {
    } else if s[0] == '%' {
      NameIsFixed(s[3..]);
      FixedEscape(s);
    } else {
      NameIsFixed(s[1..]);
      FixedChar(s);
    }
  }

  lemma AcceptsEscape(s: string)
    requires IsEscape(s) && Acceptable(s[3..])
    requires EscapedChar(s) >= 0x20 && EscapedChar(s) != 0x7f && !IsUnreserved(EscapedChar(s) as char)
    ensures Acceptable(s)
  {
    assert forall i :: 3 <= i < |s| ==> s[i] == s[3..][i - 3];
    assert Free(s, DELIMITERS) && !HasControl(s);
    var d := DecodeHost(s);
    assert d == ['%', UpperChar(s[1]), UpperChar(s[2])] + DecodeHost(s[3..]);
    hide DecodeHost, Free, HasControl;
    assert IsAscii(d);
  }

  lemma FixedEscape(s: string)
    requires NormalName(s) && s != "" && s[0] == '%' && Acceptable(s[3..])
             && UpperEscapes(Lower(DecodeHost(s[3..]))) == s[3..]
    ensures Acceptable(s) && UpperEscapes(Lower(DecodeHost(s))) == s
  {
    var x, y, rest := s[1], s[2], DecodeHost(s[3..]);
    HexCase(x);
    HexCase(y);
    AcceptsEscape(s);
    assert DecodeHost(s) == ['%', x, y] + rest;
    hide Acceptable, DecodeHost, UpperEscapes, Lower, UpperChar, LowerChar, NormalName;
    LowerEscape(x, y, rest);
    UpperEscape(LowerChar(x), LowerChar(y), Lower(rest));
    assert s == ['%', x, y] + s[3..];
  }

  lemma AcceptsChar(s: string)
    requires s != "" && NameChar(s[0]) && Acceptable(s[1..])
    ensures Acceptable(s)
  {
    assert forall i :: 1 <= i < |s| ==> s[i] == s[1..][i - 1];
    assert Free(s, DELIMITERS) && !HasControl(s);
    var d := DecodeHost(s);
    assert d == [s[0]] + DecodeHost(s[1..]);
    hide DecodeHost, Free, HasControl;
    assert IsAscii(d);
  }

  lemma FixedChar(s: string)
    requires NormalName(s) && s != "" && s[0] != '%' && Acceptable(s[1..])
             && UpperEscapes(Lower(DecodeHost(s[1..]))) == s[1..]
    ensures Acceptable(s) && UpperEscapes(Lower(DecodeHost(s))) == s
  {
    var rest := DecodeHost(s[1..]);
    AcceptsChar(s);
    assert DecodeHost(s) == [s[0]] + rest;
    hide Acceptable, DecodeHost, UpperEscapes, Lower, NormalName;
    LowerCons(s[0], rest);
    UpperCons(s[0], Lower(rest));
    assert s == [s[0]] + s[1..];
  }

  lemma HostIsNormal(host: string, scheme: Option<string>)
    requires scheme == Some("http") || scheme == Some("https")
    requires Free(host, DELIMITERS) && AllEscapes(host) && NormalizeHost(host, scheme).Host?
    ensures NormalHost(NormalizeHost(host, scheme).name)
  {
    hide NormalName, EscapesControl, DecodeHost, UpperEscapes, Lower, IsIpv4, AllEscapes, HasControl, IsAscii, Free;
    if host != "" && !IsIpv4(host) {
      NameIsNormal(host);
      NameIsFixed(UpperEscapes(Lower(DecodeHost(host))));
    }
  }

  lemma EncodedNotEmpty(s: string, allowed: set<char>)
    requires s != ""
    ensures Encoded(s, allowed) != ""
  {
    var u := UpperEscapes(s);
    var b := Utf8Bytes(u);
    assert b != [];
    hide Utf8Bytes, UpperEscapes, CountEscapes, CountPercent;
  }

  lemma HostPortIsNormal(auth: string, hostPort: string)
    requires Free(hostPort, AUTHORITY_ENDS + {'@'}) && ParseHostPort(auth, hostPort, true).Authorized?
    ensures var a := ParseHostPort(auth, hostPort, true);
            && (a.auth.Some? ==> a.auth.value != "" && WellEncoded(a.auth.value, USERINFO_CHARS))
            && Free(a.host, DELIMITERS) && AllEscapes(a.host) && (a.port.Some? ==> a.port.value <= 65535)
  {
    var n := Until(hostPort, {':'});
    if auth != "" {
      SourceCharsets();
      EncodedIsFixed(auth, USERINFO_CHARS);
      EncodedNotEmpty(auth, USERINFO_CHARS);
    }
    HostFree(hostPort, n);
    hide WellEncoded, Encoded, AllEscapes, Free, Until;
  }

  lemma HostFree(hostPort: string, n: nat)
    requires Free(hostPort, AUTHORITY_ENDS + {'@'}) && n == Until(hostPort, {':'})
             && Until(hostPort, BRACKETS) == |hostPort|
    ensures Free(hostPort[..n], DELIMITERS)
  {}

  lemma AuthorityIsNormal(authority: string)
    requires Free(authority, AUTHORITY_ENDS) && ParseAuthority(authority, true).Authorized?
    ensures var a := ParseAuthority(authority, true);
            && (a.auth.Some? ==> a.auth.value != "" && WellEncoded(a.auth.value, USERINFO_CHARS))
            && Free(a.host, DELIMITERS) && AllEscapes(a.host) && (a.port.Some? ==> a.port.value <= 65535)
  {
    var at := LastAt(authority);
    var n := if at.Some? then at.value + 1 else 0;
    assert authority[0..] == authority;
    assert Free(authority[n..], AUTHORITY_ENDS + {'@'});
    HostPortIsNormal(if at.Some? then authority[..at.value] else "", authority[n..]);
    hide WellEncoded, AllEscapes, Free, ParseHostPort, LastAt;
  }

  /** A host that is empty, and nothing else in the authority. */
  predicate EmptyAuthority(u: Url) {
    u.host == Some("") && u.auth.None? && u.port.None?
  }

  predicate NormalButForHost(u: Url) {
    Normalised(u) || (EmptyAuthority(u) && Normalised(u.(host := None)))
  }

  lemma HierarchyIsNormal(scheme: Option<string>, s: string, u: Url)
    requires (scheme == Some("http") || scheme == Some("https")) && ParseHierarchy(scheme, s) == Ok(u)
    ensures NormalButForHost(u) && u.scheme == scheme
  {
    hide NormalizePath, NormalPath, WellEncoded, Free, ParseRest, ParseAuthority, NormalizeHost, AllEscapes, NormalHost,
      Component;
    if UrlPath.StartsWith(s, "//") {
      var n := Until(s[2..], AUTHORITY_ENDS);
      var authority, rest := s[2..][..n], s[2..][n..];
      if authority == "" {
        RestIsNormal(scheme, None, None, None, rest);
      } else {
        UntilFree(s[2..], AUTHORITY_ENDS);
        AuthorityIsNormal(authority);
        var a := ParseAuthority(authority, true);
        HostIsNormal(a.host, scheme);
        RestIsNormal(scheme, a.auth, Some(NormalizeHost(a.host, scheme).name), a.port, rest);
      }
    } else {
      RestIsNormal(scheme, None, None, None, s);
    }
  }

  lemma UntilFree(s: string, stops: set<char>)
    ensures Free(s[..Until(s, stops)], stops)
  {}

  lemma HierarchyScheme(scheme: Option<string>, s: string, u: Url)
    requires ParseHierarchy(scheme, s) == Ok(u)
    ensures u.scheme == scheme
  {
    hide NormalizePath, ParseAuthority, NormalizeHost, Component, SplitTail;
  }

  /** Parsing gives normalised http and https URLs, but for the empty authority. */
  lemma ParseIsNormal(s: string, u: Url)
    requires Parse(s) == Ok(u) && (u.scheme == Some("http") || u.scheme == Some("https"))
    ensures NormalButForHost(u)
  {
    hide ParseHierarchy, NormalButForHost, LooksAbsolute, Lower;
    var url := if LooksAbsolute(s) then s else "//" + s;
    match SchemeLength(url, true)
    case Some(n) =>
      HierarchyScheme(Some(Lower(url[..n])), url[n + 1..], u);
      HierarchyIsNormal(Some(Lower(url[..n])), url[n + 1..], u);
    case None => HierarchyScheme(None, url, u);
  }

  /** Whatever string parses to an http or https URL: printing the URL and parsing again gives the same URL, unless its
      authority is an empty host and nothing else. */
  lemma RoundTrip(s: string, u: Url)
    requires Parse(s) == Ok(u) && (u.scheme == Some("http") || u.scheme == Some("https"))
    ensures Parse(Print(u)) == Ok(u) <==> !EmptyAuthority(u)
  {
    ParseIsNormal(s, u);
    hide Parse, Print;
    if EmptyAuthority(u) {
      SamePrint(u);
      PrintParses(u.(host := None));
    } else {
      PrintParses(u);
    }
    hide Normalised;
  }

  lemma SamePrint(u: Url)
    requires EmptyAuthority(u)
    ensures Print(u) == Print(u.(host := None))
    ensures !Normalised(u)
  {}

  lemma LoneColon()
    ensures ParseAuthority(":", true) == Authorized(None, "", None)
  {
    assert Until(":", {':'}) == 0 && Until(":", BRACKETS) == 1;
    assert ":"[1..] == "" && ":"[..0] == "";
    assert LastAt(":").None?;
  }

  lemma NothingLeft(scheme: Option<string>, host: Option<string>)
    ensures ParseRest(scheme, None, host, None, "") == Url(scheme, None, host, None, None, None, None)
  {}

  lemma LoneColonHierarchy()
    ensures ParseHierarchy(Some("http"), "//:") == Ok(Url(Some("http"), None, Some(""), None, None, None, None))
  {
    var s, rest := "//:", ":";
    assert s[2..] == rest && s[..2] == "//";
    assert Until(rest, AUTHORITY_ENDS) == 1 && rest[..1] == rest && rest[1..] == "";
    LoneColon();
    NothingLeft(Some("http"), Some(""));
    hide ParseAuthority, ParseRest, Until;
  }

  lemma SchemeOf(s: string, dots: bool)
    requires s == "http://:"
    ensures SchemeLength(s, dots) == Some(4)
  {
    assert s[1..] == "ttp://:" && s[1..][1..] == "tp://:";
    assert s[1..][1..][1..] == "p://:" && s[1..][1..][1..][1..] == "://:";
    assert SchemeSpan("://:", dots) == 0;
    assert SchemeSpan("p://:", dots) == 1;
    assert SchemeSpan("tp://:", dots) == 2;
    assert SchemeSpan("ttp://:", dots) == 3;
  }

  /** There is such an input: a lone ":" after the slashes. Printing its URL and parsing again loses the host. */
  lemma ParsesToEmptyAuthority()
    ensures Parse("http://:") == Ok(Url(Some("http"), None, Some(""), None, None, None, None))
    ensures Parse(Print(Url(Some("http"), None, Some(""), None, None, None, None)))
         == Ok(Url(Some("http"), None, None, None, None, None, None))
  {
    var s, u := "http://:", Url(Some("http"), None, None, None, None, None, None);
    SamePrint(u.(host := Some("")));
    PrintParses(u) by { assert Normalised(u); }
    SchemeOf(s, false);
    SchemeOf(s, true);
    assert s[..4] == "http" && s[5..] == "//:" && Lower("http") == "http";
    LoneColonHierarchy();
    hide ParseHierarchy, SchemeLength, Print, Lower;
  }
}
