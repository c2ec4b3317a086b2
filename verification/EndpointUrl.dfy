/** Endpoints as they are stored: printed as URLs and parsed again
    (internal/transmissionconfig/transmissionconfig.go with the path escaping of net/url). */
module EndpointUrl {
  import opened Options
  import opened Text
  import opened Endpoint

  // ----- Path escaping -----

  /** A Go string is a sequence of bytes; a character stands for one of them. */
  predicate Byte(c: char) {
    c < '\U{0100}'
  }

  predicate Letter(c: char) {
    'a' <= c <= 'z' || 'A' <= c <= 'Z' || '0' <= c <= '9'
  }

  /** `shouldEscape` says no in a path. */
  predicate Kept(c: char) {
    Letter(c) || c in "-_.~$&+,/:;=@"
  }

  function HexDigit(n: nat): char
    requires n < 16
  {
    if n < 10 then ('0' as nat + n) as char else ('A' as nat + n - 10) as char
  }

  /** The value of a hexadecimal digit in either case. */
  function HexValue(c: char): Option<nat> {
    if '0' <= c <= '9' then Some(c as nat - '0' as nat)
    else if 'a' <= c <= 'f' then Some(c as nat - 'a' as nat + 10)
    else if 'A' <= c <= 'F' then Some(c as nat - 'A' as nat + 10)
    else None
  }

  function EscapeChar(c: char): string
    requires Byte(c)
  {
    if Kept(c) then [c] else ['%', HexDigit(c as nat / 16), HexDigit(c as nat % 16)]
  }

  predicate Bytes(s: string) {
    forall i | 0 <= i < |s| :: Byte(s[i])
  }

  /** `escape(s, encodePath)`. */
  function Escape(s: string): string
    requires Bytes(s)
  {
    if s == "" then "" else EscapeChar(s[0]) + Escape(s[1..])
  }

  /** `unescape(s, encodePath)`; a percent sign without two digits is an error. */
  function Unescape(s: string): Option<string> {
    if s == "" then Some("")
    else if s[0] != '%' then Prepend(s[0], Unescape(s[1..]))
    else if |s| < 3 || HexValue(s[1]).None? || HexValue(s[2]).None? then None
    else Prepend((16 * HexValue(s[1]).value + HexValue(s[2]).value) as char, Unescape(s[3..]))
  }

  function Prepend(c: char, rest: Option<string>): Option<string> {
    if rest.None? then None else Some([c] + rest.value)
  }

  lemma HexBack(n: nat)
    requires n < 16
    ensures HexValue(HexDigit(n)) == Some(n) && Letter(HexDigit(n))
  {
  }

  lemma UnescapeChar(c: char, rest: string)
    requires Byte(c)
    ensures Unescape(EscapeChar(c) + rest) == Prepend(c, Unescape(rest))
  {
    var s := EscapeChar(c) + rest;
    if Kept(c) {
      assert c != '%' && s[0] == c && s[1..] == rest;
    } else {
      var n := c as nat;
      HexBack(n / 16);
      HexBack(n % 16);
      assert s[0] == '%' && s[1] == HexDigit(n / 16) && s[2] == HexDigit(n % 16);
      assert 16 * (n / 16) + n % 16 == n && s[3..] == rest;
    }
  }

  /** Letters, digits and thirteen signs are printed as they are, any other byte as a percent sign and
      two hexadecimal digits, capital ones, that say its value. */
  lemma EscapedByte(c: char)
    requires Byte(c)
    ensures var r := Escape([c]);
      if ('a' <= c <= 'z' || 'A' <= c <= 'Z' || '0' <= c <= '9' || c == '-' || c == '_' || c == '.' || c == '~' ||
          c == '$' || c == '&' || c == '+' || c == ',' || c == '/' || c == ':' || c == ';' || c == '=' || c == '@')
      then r == [c]
      else |r| == 3 && r[0] == '%' && CapitalDigit(r[1]) && CapitalDigit(r[2])
           && HexValue(r[1]) == Some(c as nat / 16) && HexValue(r[2]) == Some(c as nat % 16)
  {
    assert Escape([c]) == EscapeChar(c) + Escape("") == EscapeChar(c);
    HexBack(c as nat / 16);
    HexBack(c as nat % 16);
  }

  predicate CapitalDigit(c: char) {
    '0' <= c <= '9' || 'A' <= c <= 'F'
  }

  /** Unescaping what was escaped gives it back. */
  lemma {:induction false} EscapeRoundTrip(s: string)
    requires Bytes(s)
    ensures Unescape(Escape(s)) == Some(s)
  {
    if s != "" {
      EscapeRoundTrip(s[1..]);
      UnescapeChar(s[0], Escape(s[1..]));
      assert [s[0]] + s[1..] == s;
    }
  }

  lemma {:induction false} UnescapedBytes(s: string)
    requires Bytes(s) && Unescape(s).Some?
    ensures Bytes(Unescape(s).value) && |Unescape(s).value| <= |s|
  {
    if s != "" {
      UnescapedBytes(if s[0] != '%' then s[1..] else s[3..]);
    }
  }

  lemma {:induction false} EscapeConcat(a: string, b: string)
    requires Bytes(a) && Bytes(b)
    ensures Bytes(a + b) && Escape(a + b) == Escape(a) + Escape(b)
  {
    if a == "" {
      assert a + b == b;
    } else {
      assert (a + b)[1..] == a[1..] + b;
      EscapeConcat(a[1..], b);
    }
  }

  lemma {:induction false} EscapeKeeps(s: string)
    requires forall i | 0 <= i < |s| :: Kept(s[i])
    ensures Bytes(s) && Escape(s) == s
  {
    if s != "" {
      EscapeKeeps(s[1..]);
    }
  }

  predicate UrlChar(c: char) {
    Kept(c) || c == '%'
  }

  /** Escaped text holds neither control characters nor a backslash, and no character that
      would start a query or a fragment. */
  lemma {:induction false} EscapedIsPlain(s: string)
    requires Bytes(s)
    ensures forall i | 0 <= i < |Escape(s)| :: UrlChar(Escape(s)[i])
  {
    if s != "" {
      EscapedIsPlain(s[1..]);
      HexBack(s[0] as nat / 16);
      HexBack(s[0] as nat % 16);
    }
  }

  // ----- Parsing and printing -----

  const MAX_VALUE_LENGTH := 16384

  /** An accepted endpoint: scheme and host as the library prints them, and the path. */
  datatype Url = Url(origin: string, path: string)

  /** `url.Parse` cuts the fragment off at the first `#`, and an empty one passes the test on
      fragments. With any other the text before the last `#` is no escaped path. */
  function WithoutMark(text: string): string {
    if text != "" && text[|text| - 1] == '#' then text[..|text| - 1] else text
  }

  /** `ParseEndpoint` of the text `origin + text`. `accepts` says what the library and the tests
      on scheme, host and user make of the origin. */
  function ParseEndpoint(t: Texts, accepts: string -> bool, origin: string, text: string): Option<Url>
    requires Bytes(text)
  {
    if |origin| + |text| > MAX_VALUE_LENGTH || !accepts(origin) then None
    else ParsePath(t, origin, WithoutMark(text))
  }

  function ParsePath(t: Texts, origin: string, text: string): Option<Url>
    requires Bytes(text)
  {
    match Unescape(text)
    case None => None
    case Some(path) =>
      UnescapedBytes(text);
      var rawPath := if Escape(path) == text then "" else text;
      if IsSafePath(t, path, rawPath) then Some(Url(origin, NormalizedPath(t, path))) else None
  }

  /** The path of the printed URL. */
  function Printed(u: Url): string
    requires Bytes(u.path)
  {
    Escape(u.path)
  }

  /** A text that is accepted is the escaped form of its path, with at most an empty fragment
      behind it, so it holds nothing that the tests on control characters, backslashes,
      queries and fragments would find. */
  lemma AcceptedIsEscaped(t: Texts, accepts: string -> bool, origin: string, text: string) returns (path: string)
    requires Bytes(text) && ParseEndpoint(t, accepts, origin, text).Some?
    ensures Bytes(path) && (text == Escape(path) || text == Escape(path) + "#") && IsSafePath(t, path, "")
    ensures ParseEndpoint(t, accepts, origin, text) == Some(Url(origin, NormalizedPath(t, path)))
    ensures forall i | 0 <= i < |Escape(path)| :: UrlChar(Escape(path)[i])
  {
    MarkOnly(text);
    path := ParsedIsEscaped(t, origin, WithoutMark(text));
    EscapedIsPlain(path);
  }

  /** Exactly the texts are accepted that fit, have an accepted origin, and are the escaped form of
      a safe path, with at most an empty fragment behind it. */
  lemma AcceptedExactly(t: Texts, accepts: string -> bool, origin: string, text: string)
    requires Bytes(text)
    ensures ParseEndpoint(t, accepts, origin, text).Some? <==>
      |origin| + |text| <= MAX_VALUE_LENGTH && accepts(origin) && exists path :: SafeText(t, path, text)
    ensures forall path | SafeText(t, path, text) && ParseEndpoint(t, accepts, origin, text).Some? ::
      ParseEndpoint(t, accepts, origin, text) == Some(Url(origin, NormalizedPath(t, path)))
  {
    if ParseEndpoint(t, accepts, origin, text).Some? {
      var path := AcceptedIsEscaped(t, accepts, origin, text);
      assert SafeText(t, path, text);
    }
    forall path | SafeText(t, path, text)
      ensures ParsePath(t, origin, WithoutMark(text)) == Some(Url(origin, NormalizedPath(t, path)))
    {
      EscapedHasNoMark(path);
      EscapeRoundTrip(path);
    }
  }

  ghost predicate SafeText(t: Texts, path: string, text: string) {
    Bytes(path) && IsSafePath(t, path, "") && (text == Escape(path) || text == Escape(path) + "#")
  }

  lemma MarkOnly(text: string)
    ensures text == WithoutMark(text) || text == WithoutMark(text) + "#"
    ensures Bytes(text) ==> Bytes(WithoutMark(text))
  {
  }

  lemma ParsedIsEscaped(t: Texts, origin: string, text: string) returns (path: string)
    requires Bytes(text) && ParsePath(t, origin, text).Some?
    ensures Bytes(path) && text == Escape(path) && IsSafePath(t, path, "")
    ensures ParsePath(t, origin, text) == Some(Url(origin, NormalizedPath(t, path)))
  {
    path := Unescape(text).value;
    UnescapedBytes(text);
  }

  /** Escaped text is parsed as it stands. */
  lemma EscapedHasNoMark(path: string)
    requires Bytes(path)
    ensures WithoutMark(Escape(path)) == Escape(path)
  {
    EscapedIsPlain(path);
  }

  lemma WordIsKept(s: string)
    requires SlashWord(s)
    ensures Bytes(s) && Escape(s) == s
  {
    forall i | 0 <= i < |s| ensures Kept(s[i]) {
      assert i > 0 ==> LowerLetter(s[i]);
    }
    EscapeKeeps(s);
  }

  lemma RpcIsKept(t: Texts)
    requires t.Valid()
    ensures Bytes(t.Rpc()) && Escape(t.Rpc()) == t.Rpc()
  {
    WordIsKept(t.transmission);
    WordIsKept(t.rpc);
    EscapeConcat(t.transmission, t.rpc);
  }

  /** Escaping the normal form adds no more than the rpc path. */
  lemma NormalFormEscaped(t: Texts, path: string)
    requires t.Valid() && Bytes(path)
    ensures var normal := NormalizedPath(t, path);
      && Bytes(normal) && |Escape(normal)| <= |Escape(path)| + |t.Rpc()|
      && (path == "" || path[0] == '/' ==> Escape(normal) != "" && Escape(normal)[0] == '/')
  {
    var base := NormalForm(t, path);
    var rest := path[|base|..];
    BasePrefix(t, path, base);
    assert path == base + rest;
    EscapeConcat(base, rest);
    RpcIsKept(t);
    EscapeConcat(base, t.Rpc());
  }

  lemma BasePrefix(t: Texts, path: string, base: string)
    requires var trimmed := TrimSuffix(path, "/");
      base == trimmed || trimmed == base + t.Web() || trimmed == base + t.Rpc()
    ensures base <= path
  {
  }

  lemma EscapeFirst(c: char)
    requires Byte(c)
    ensures EscapeChar(c) != "" && (EscapeChar(c)[0] == c || EscapeChar(c)[0] == '%')
  {
  }

  lemma FirstSlash(path: string, text: string)
    requires Bytes(path) && (text == Escape(path) || text == Escape(path) + "#")
    requires text == "" || text[0] == '/' || text == "#"
    ensures path == "" || path[0] == '/'
  {
    if path != "" {
      EscapeFirst(path[0]);
      assert text[0] == Escape(path)[0] == EscapeChar(path[0])[0];
    }
  }

  /** The normal form of an endpoint ends in the rpc path, is longer by no more than that, and is
      accepted again as it stands exactly when it is no longer than the longest value allowed.
      An update of the configuration parses it again before it commits. */
  lemma StoredEndpointIsStable(t: Texts, accepts: string -> bool, origin: string, text: string)
    requires t.Valid() && Bytes(text) && (text == "" || text[0] == '/' || text == "#")
    requires ParseEndpoint(t, accepts, origin, text).Some?
    ensures var u := ParseEndpoint(t, accepts, origin, text).value;
      && u.origin == origin && HasSuffix(u.path, t.Rpc()) && Bytes(u.path)
      && Printed(u) != "" && Printed(u)[0] == '/' && Bytes(Printed(u)) && |Printed(u)| <= |text| + |t.Rpc()|
      && ParseEndpoint(t, accepts, origin, Printed(u))
         == if |origin| + |Printed(u)| <= MAX_VALUE_LENGTH then Some(u) else None
  {
    var path := AcceptedIsEscaped(t, accepts, origin, text);
    FirstSlash(path, text);
    NormalFormEscaped(t, path);
    NormalizingKeepsSafe(t, path);
    NormalizingTwice(t, path);
    NormalIsReadBack(t, accepts, origin, NormalizedPath(t, path));
  }

  lemma NormalIsReadBack(t: Texts, accepts: string -> bool, origin: string, normal: string)
    requires Bytes(normal) && IsSafePath(t, normal, "") && NormalizedPath(t, normal) == normal && accepts(origin)
    ensures Bytes(Escape(normal))
    ensures ParseEndpoint(t, accepts, origin, Escape(normal))
         == if |origin| + |Escape(normal)| <= MAX_VALUE_LENGTH then Some(Url(origin, normal)) else None
  {
    EscapedBytes(normal);
    EscapedHasNoMark(normal);
    EscapeRoundTrip(normal);
  }

  lemma EscapedBytes(s: string)
    requires Bytes(s)
    ensures Bytes(Escape(s))
  {
    EscapedIsPlain(s);
    forall i | 0 <= i < |Escape(s)| ensures Byte(Escape(s)[i]) {
      assert UrlChar(Escape(s)[i]);
    }
  }

  // ----- An endpoint whose normal form is refused -----

  /** A slash and as many letters as the longest value has room for. */
  function LongPath(origin: string): string
    requires |origin| + 2 <= MAX_VALUE_LENGTH
  {
    "/" + seq(MAX_VALUE_LENGTH - |origin| - 1, _ => 'a')
  }

  lemma LongPathIsSafe(t: Texts, path: string)
    requires t.Valid() && |path| > 1 && path[0] == '/' && (forall i | 0 < i < |path| :: path[i] == 'a')
    requires t.transmission[|t.transmission| - 1] != 'a' && t.web[|t.web| - 1] != 'a' && t.rpc[|t.rpc| - 1] != 'a'
    ensures IsSafePath(t, path, "") && NormalizedPath(t, path) == path + t.Rpc()
  {
    PlainExtends("", path);
    assert "" + path == path;
    assert TrimSuffix(path, "/") == path;
    OtherEnd(path, t.transmission);
    OtherEnd(path, t.Web());
    OtherEnd(path, t.Rpc());
    NoLaterSlash(path, t.transmission + "/");
  }

  lemma OtherEnd(path: string, suffix: string)
    requires path != "" && suffix != "" && path[|path| - 1] != suffix[|suffix| - 1]
    ensures !HasSuffix(path, suffix) && path != suffix
  {
  }

  lemma NoLaterSlash(path: string, sub: string)
    requires |sub| > 1 && sub[|sub| - 1] == '/' && forall i | 0 < i < |path| :: path[i] != '/'
    ensures !Contains(path, sub)
  {
    IndexSpec(path, sub);
    forall i | 0 <= i ensures !MatchAt(path, sub, i) {
      assert i + |sub| <= |path| ==> !Same(path, sub, i, |sub| - 1);
    }
  }

  /** The longest value is accepted, and its normal form is refused. */
  lemma LongestNormalFormIsRefused(accepts: string -> bool, origin: string)
    requires accepts(origin) && |origin| + 2 <= MAX_VALUE_LENGTH
    ensures var text := LongPath(origin);
      && Bytes(text) && |origin + text| == MAX_VALUE_LENGTH
      && ParseEndpoint(TEXTS, accepts, origin, text) == Some(Url(origin, text + TEXTS.Rpc()))
      && Bytes(text + TEXTS.Rpc()) && Bytes(Printed(Url(origin, text + TEXTS.Rpc())))
      && ParseEndpoint(TEXTS, accepts, origin, Printed(Url(origin, text + TEXTS.Rpc()))) == None
  {
    var text := LongPath(origin);
    TextsAreValid();
    WordIsKept(text);
    EscapedHasNoMark(text);
    EscapeRoundTrip(text);
    LongPathIsSafe(TEXTS, text);
    StoredEndpointIsStable(TEXTS, accepts, origin, text);
    RpcIsKept(TEXTS);
    EscapeConcat(text, TEXTS.Rpc());
  }
}
