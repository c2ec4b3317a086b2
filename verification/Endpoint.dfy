/** The path of a Transmission endpoint (internal/transmissionconfig/transmissionconfig.go). */
module Endpoint {
  import opened Paths
  import opened Text

  /** The literals of the source. */
  datatype Texts = Texts(transmission: string, web: string, rpc: string) {
    function Rpc(): string {
      transmission + rpc
    }

    function Web(): string {
      transmission + web
    }

    /** A slash and a word each; the two last of one length but different. */
    ghost predicate Valid() {
      SlashWord(transmission) && SlashWord(web) && SlashWord(rpc) && |web| == |rpc| && web != rpc
    }
  }

  const TEXTS := Texts("/transmission", "/web", "/rpc")

  predicate LowerLetter(c: char) {
    'a' <= c <= 'z'
  }

  ghost predicate SlashWord(s: string) {
    |s| > 1 && s[0] == '/' && forall i | 0 < i < |s| :: LowerLetter(s[i])
  }

  lemma TextsAreValid()
    ensures TEXTS.Valid()
  {
    assert TEXTS.web[1] != TEXTS.rpc[1];
  }

  predicate HasSuffix(s: string, suffix: string) {
    |suffix| <= |s| && s[|s| - |suffix|..] == suffix
  }

  function TrimSuffix(s: string, suffix: string): string {
    if HasSuffix(s, suffix) then s[..|s| - |suffix|] else s
  }

  predicate HasDotSegment(s: string) {
    exists i | 0 <= i < |Split(s)| :: Split(s)[i] == "." || Split(s)[i] == ".."
  }

  predicate DoubleSlashAt(s: string, i: int) {
    0 <= i < |s| - 1 && s[i] == '/' && s[i + 1] == '/'
  }

  /** `isSafePath` up to its last tests. */
  predicate Plain(value: string) {
    && (forall i | 0 <= i < |value| :: value[i] != '\\')
    && (forall i | 0 <= i < |value| :: !DoubleSlashAt(value, i))
    && !HasDotSegment(value)
  }

  /** `isSafePath`: a transmission directory may only be followed by /web or /rpc, at the end. */
  predicate IsSafePath(t: Texts, value: string, rawPath: string) {
    if rawPath != "" || !Plain(value) then false
    else
      var trimmed := TrimSuffix(value, "/");
      if trimmed == "" then value == "" || value == "/"
      else if HasSuffix(trimmed, t.transmission) || Contains(trimmed, t.transmission + "/")
      then trimmed == t.Web() || trimmed == t.Rpc() || HasSuffix(trimmed, t.Web()) || HasSuffix(trimmed, t.Rpc())
      else true
  }

  function NormalizedPath(t: Texts, value: string): string {
    var trimmed := TrimSuffix(value, "/");
    if trimmed == t.Web() then t.Rpc()
    else if HasSuffix(trimmed, t.Web()) then TrimSuffix(trimmed, t.web) + t.rpc
    else if trimmed == t.Rpc() || HasSuffix(trimmed, t.Rpc()) then trimmed
    else if trimmed == "" then t.Rpc()
    else trimmed + t.Rpc()
  }

  lemma SuffixOf(a: string, b: string)
    ensures HasSuffix(a + b, b) && TrimSuffix(a + b, b) == a
  {
  }

  lemma SuffixSplits(s: string, suffix: string)
    requires HasSuffix(s, suffix)
    ensures s == TrimSuffix(s, suffix) + suffix
  {
  }

  lemma WebForm(t: Texts, trimmed: string) returns (base: string)
    requires HasSuffix(trimmed, t.Web())
    ensures trimmed == base + t.Web() && TrimSuffix(trimmed, t.web) + t.rpc == base + t.Rpc()
  {
    base := TrimSuffix(trimmed, t.Web());
    SuffixSplits(trimmed, t.Web());
    assert base + t.Web() == (base + t.transmission) + t.web;
    SuffixOf(base + t.transmission, t.web);
    assert (base + t.transmission) + t.rpc == base + t.Rpc();
  }

  lemma SuffixOfItself(s: string)
    ensures HasSuffix(s, s)
  {
  }

  /** What the normal form consists of: the part of the trimmed path before /transmission/web
      or /transmission/rpc, or all of it, and the rpc path. */
  lemma NormalForm(t: Texts, value: string) returns (base: string)
    ensures NormalizedPath(t, value) == base + t.Rpc()
    ensures var trimmed := TrimSuffix(value, "/");
      base == trimmed || trimmed == base + t.Web() || trimmed == base + t.Rpc()
  {
    var trimmed := TrimSuffix(value, "/");
    if trimmed == t.Web() {
      base := "";
      assert base + t.Web() == trimmed && base + t.Rpc() == t.Rpc();
    } else if HasSuffix(trimmed, t.Web()) {
      base := WebForm(t, trimmed);
    } else if HasSuffix(trimmed, t.Rpc()) {
      base := TrimSuffix(trimmed, t.Rpc());
      SuffixSplits(trimmed, t.Rpc());
    } else {
      SuffixOfItself(trimmed);
      base := trimmed;
      assert trimmed == "" ==> base + t.Rpc() == t.Rpc();
    }
  }

  lemma NoSlashAtEnd(t: Texts, base: string)
    requires t.Valid()
    ensures TrimSuffix(base + t.Rpc(), "/") == base + t.Rpc()
  {
    var s := base + t.Rpc();
    assert s[|s| - 1] == t.rpc[|t.rpc| - 1];
    assert LowerLetter(t.rpc[|t.rpc| - 1]);
  }

  lemma SuffixTail(s: string, a: string, b: string)
    requires HasSuffix(s, a + b)
    ensures s[|s| - |b|..] == b
  {
    assert s[|s| - |b|..] == s[|s| - |a + b|..][|a|..];
    assert (a + b)[|a|..] == b;
  }

  lemma RpcIsNotWeb(t: Texts, base: string)
    requires t.Valid()
    ensures !HasSuffix(base + t.Rpc(), t.Web()) && HasSuffix(base + t.Rpc(), t.Rpc())
  {
    var s := base + t.Rpc();
    if HasSuffix(s, t.Web()) {
      SuffixTail(s, t.transmission, t.web);
    }
    SuffixOf(base, t.Rpc());
    SuffixTail(s, t.transmission, t.rpc);
  }

  /** Every path is normalised to one that ends in /transmission/rpc, and a normal path is
      its own normal form. */
  lemma NormalizingTwice(t: Texts, value: string)
    requires t.Valid()
    ensures HasSuffix(NormalizedPath(t, value), t.Rpc())
    ensures NormalizedPath(t, NormalizedPath(t, value)) == NormalizedPath(t, value)
  {
    var base := NormalForm(t, value);
    NoSlashAtEnd(t, base);
    RpcIsNotWeb(t, base);
  }

  lemma SlashGoes(t: Texts, path: string)
    requires !HasSuffix(path, "/")
    ensures NormalizedPath(t, path + "/") == NormalizedPath(t, path)
  {
    SuffixOf(path, "/");
  }

  lemma WordAtItsEnd(path: string, word: string)
    requires SlashWord(word) && HasSuffix(path, word)
    ensures !HasSuffix(path, "/")
  {
    assert path[|path| - 1] == word[|word| - 1];
    assert LowerLetter(word[|word| - 1]);
  }

  lemma WebGivesRpc(t: Texts, base: string)
    requires !HasSuffix(base + t.Web(), "/")
    ensures NormalizedPath(t, base + t.Web()) == base + t.Rpc()
  {
    var path := base + t.Web();
    SuffixOf(base, t.Web());
    if path == t.Web() {
      assert base == path[..|path| - |t.Web()|] == "";
      assert base + t.Rpc() == t.Rpc();
    } else {
      var same := WebForm(t, path);
      assert same == path[..|path| - |t.Web()|] == base;
    }
  }

  /** A path that goes on with /transmission/web or /transmission/rpc goes on with
      /transmission/rpc in its normal form; a slash at the end goes. */
  lemma NormalFormOfKnown(t: Texts, base: string)
    requires t.Valid()
    ensures NormalizedPath(t, base + t.Web()) == base + t.Rpc() == NormalizedPath(t, base + t.Web() + "/")
    ensures NormalizedPath(t, base + t.Rpc()) == base + t.Rpc() == NormalizedPath(t, base + t.Rpc() + "/")
  {
    assert base + t.Web() == (base + t.transmission) + t.web && base + t.Rpc() == (base + t.transmission) + t.rpc;
    SuffixOf(base + t.transmission, t.web);
    SuffixOf(base + t.transmission, t.rpc);
    WordAtItsEnd(base + t.Web(), t.web);
    WordAtItsEnd(base + t.Rpc(), t.rpc);
    SlashGoes(t, base + t.Web());
    SlashGoes(t, base + t.Rpc());
    WebGivesRpc(t, base);
    RpcIsNotWeb(t, base);
  }

  /** Any other path is followed by /transmission/rpc in its normal form. */
  lemma NormalFormOfOther(t: Texts, base: string)
    requires t.Valid() && !HasSuffix(base, "/") && !HasSuffix(base, t.Web()) && !HasSuffix(base, t.Rpc())
    ensures NormalizedPath(t, base) == base + t.Rpc() == NormalizedPath(t, base + "/")
  {
    SuffixOf(base, "/");
    SuffixOfItself(base);
  }

  // ----- Safe paths -----

  lemma WordInside(s: string, word: string)
    requires word != "" && word[|word| - 1] != '/'
    ensures Contains(s + "/", word + "/") <==> HasSuffix(s, word) || Contains(s, word + "/")
  {
    var t, sub := s + "/", word + "/";
    IndexSpec(t, sub);
    IndexSpec(s, sub);
    if Contains(t, sub) && Index(t, sub) + |sub| <= |s| {
      MatchInPrefix(s, "/", sub, Index(t, sub));
    } else if Contains(t, sub) {
      WordAtEnd(s, word, Index(t, sub));
    }
    if Contains(s, sub) {
      MatchInPrefix(s, "/", sub, Index(s, sub));
    }
    if HasSuffix(s, word) {
      SuffixSplits(s, word);
      MatchInMiddle(TrimSuffix(s, word), sub, "");
      assert TrimSuffix(s, word) + (sub + "") == t;
    }
  }

  lemma WordAtEnd(s: string, word: string, i: nat)
    requires MatchAt(s + "/", word + "/", i) && i + |word| == |s|
    ensures HasSuffix(s, word)
  {
    forall k | 0 <= k < |word| ensures s[i..][k] == word[k] {
      assert Same(s + "/", word + "/", i, k);
    }
    assert s[i..] == word;
  }

  lemma PlainExactly(value: string)
    ensures Plain(value) <==> '\\' !in value && Lacks(value, "//") && "." !in Split(value) && ".." !in Split(value)
  {
    forall i: int ensures MatchAt(value, "//", i) <==> DoubleSlashAt(value, i) {
      TwoSlashes(value, i);
    }
  }

  lemma TwoSlashes(value: string, i: int)
    ensures MatchAt(value, "//", i) <==> DoubleSlashAt(value, i)
  {
    if MatchAt(value, "//", i) {
      assert Same(value, "//", i, 0) && Same(value, "//", i, 1);
    }
  }

  ghost predicate EndsKnown(t: Texts, trimmed: string) {
    HasSuffix(trimmed, t.Web()) || HasSuffix(trimmed, t.Rpc())
  }

  lemma SafeByWord(t: Texts, value: string, trimmed: string, inside: bool)
    requires Plain(value) && trimmed == TrimSuffix(value, "/") && trimmed != ""
    requires inside == (HasSuffix(trimmed, t.transmission) || Contains(trimmed, t.transmission + "/"))
    ensures IsSafePath(t, value, "") <==> !inside || EndsKnown(t, trimmed)
  {
    SuffixOfItself(trimmed);
  }

  /** Whether a segment that ends in /transmission is only followed by /web or /rpc, at the end. */
  lemma TransmissionAtEnd(t: Texts, value: string)
    requires t.Valid() && Plain(value)
    ensures var trimmed := TrimSuffix(value, "/");
      IsSafePath(t, value, "") <==> (Contains(trimmed + "/", t.transmission + "/") ==> EndsKnown(t, trimmed))
  {
    var trimmed := TrimSuffix(value, "/");
    if trimmed == "" {
      assert value == "" || value == "/";
      assert "" + "/" == "/";
      SlashLacks(t.transmission + "/");
    } else {
      assert LowerLetter(t.transmission[|t.transmission| - 1]);
      WordInside(trimmed, t.transmission);
      SafeByWord(t, value, trimmed, Contains(trimmed + "/", t.transmission + "/"));
    }
  }

  lemma SlashLacks(sub: string)
    requires |sub| > 1
    ensures !Contains("/", sub)
  {
    IndexSpec("/", sub);
  }

  /** A path is safe exactly when it is printed as it was read, has no backslash, no double slash
      and no segment of one or two dots, and a segment that ends in /transmission is followed at the
      end of the path, but for a slash, by /web or /rpc. */
  lemma SafeExactly(t: Texts, value: string, rawPath: string)
    requires t.Valid()
    ensures var trimmed := TrimSuffix(value, "/");
      IsSafePath(t, value, rawPath) <==>
        && rawPath == "" && '\\' !in value && Lacks(value, "//") && "." !in Split(value) && ".." !in Split(value)
        && (Contains(trimmed + "/", t.transmission + "/") ==> EndsKnown(t, trimmed))
  {
    PlainExactly(value);
    if Plain(value) {
      TransmissionAtEnd(t, value);
    }
  }

  // ----- Safety is kept -----

  /** One character more in front of the segments. */
  ghost function Opened(c: char, segments: seq<string>): seq<string>
    requires segments != []
  {
    if c == '/' then [""] + segments else [[c] + segments[0]] + segments[1..]
  }

  lemma SplitStep(s: string)
    requires s != ""
    ensures Split(s) == Opened(s[0], Split(s[1..]))
  {
  }

  lemma OpenedConcat(c: char, front: seq<string>, back: seq<string>)
    requires front != []
    ensures Opened(c, front + back) == Opened(c, front) + back
  {
    assert (front + back)[1..] == front[1..] + back;
  }

  lemma {:induction false} SplitConcat(a: string, b: string)
    ensures Split(a + "/" + b) == Split(a) + Split(b)
  {
    var s := a + "/" + b;
    SplitStep(s);
    if a == "" {
      assert s[1..] == b;
    } else {
      assert s[0] == a[0] && s[1..] == a[1..] + "/" + b;
      SplitConcat(a[1..], b);
      SplitStep(a);
      OpenedConcat(a[0], Split(a[1..]), Split(b));
    }
  }

  /** A plain path stays plain when it is cut before a slash. */
  lemma PlainPrefix(a: string, rest: string)
    requires Plain(a + "/" + rest)
    ensures Plain(a) && (a != "" ==> a[|a| - 1] != '/')
  {
    var s := a + "/" + rest;
    forall i | 0 <= i < |a| ensures a[i] != '\\' && !DoubleSlashAt(a, i) {
      assert s[i] == a[i] && !DoubleSlashAt(s, i);
    }
    assert !DoubleSlashAt(s, |a| - 1) || a == "";
    SplitConcat(a, rest);
    forall i | 0 <= i < |Split(a)| ensures Split(a)[i] != "." && Split(a)[i] != ".." {
      assert Split(s)[i] == Split(a)[i];
    }
  }

  lemma WordIsSegment(s: string)
    requires SlashWord(s)
    ensures NoSlash(s[1..]) && s == "/" + s[1..] && Split(s[1..]) == [s[1..]] && s[1..] != "." && s[1..] != ".."
  {
    assert LowerLetter(s[1]);
    SplitSegment(s[1..]);
  }

  /** A plain path stays plain when a word is put behind it. */
  lemma PlainExtends(a: string, word: string)
    requires Plain(a) && (a != "" ==> a[|a| - 1] != '/') && SlashWord(word)
    ensures Plain(a + word) && (a + word)[|a + word| - 1] != '/'
  {
    var s := a + word;
    WordIsSegment(word);
    assert s == a + "/" + word[1..];
    SplitConcat(a, word[1..]);
    forall i | 0 <= i < |s| ensures s[i] != '\\' && !DoubleSlashAt(s, i) {
      assert i < |a| ==> s[i] == a[i] && !DoubleSlashAt(a, i);
      assert i >= |a| ==> s[i] == word[i - |a|];
    }
    forall i | 0 <= i < |Split(s)| ensures Split(s)[i] != "." && Split(s)[i] != ".." {
      assert i < |Split(a)| ==> Split(s)[i] == Split(a)[i];
    }
  }

  lemma TrimmedIsPlain(value: string)
    requires Plain(value)
    ensures var trimmed := TrimSuffix(value, "/"); Plain(trimmed) && (trimmed != "" ==> trimmed[|trimmed| - 1] != '/')
  {
    if HasSuffix(value, "/") {
      SuffixSplits(value, "/");
      assert value == TrimSuffix(value, "/") + "/" + "";
      PlainPrefix(TrimSuffix(value, "/"), "");
    }
  }

  lemma BaseIsPlain(t: Texts, base: string, word: string)
    requires t.Valid() && SlashWord(word) && Plain(base + (t.transmission + word))
    ensures Plain(base) && (base != "" ==> base[|base| - 1] != '/')
  {
    WordIsSegment(t.transmission);
    assert base + (t.transmission + word) == base + "/" + (t.transmission[1..] + word);
    PlainPrefix(base, t.transmission[1..] + word);
  }

  lemma PlainRpcIsSafe(t: Texts, base: string)
    requires t.Valid() && Plain(base + t.Rpc())
    ensures IsSafePath(t, base + t.Rpc(), "")
  {
    NoSlashAtEnd(t, base);
    RpcIsNotWeb(t, base);
  }

  lemma BaseOfNormalForm(t: Texts, value: string, base: string)
    requires t.Valid() && Plain(value)
    requires var trimmed := TrimSuffix(value, "/");
      base == trimmed || trimmed == base + t.Web() || trimmed == base + t.Rpc()
    ensures Plain(base + t.Rpc())
  {
    TrimmedIsPlain(value);
    var trimmed := TrimSuffix(value, "/");
    if trimmed == base + t.Web() {
      BaseIsPlain(t, base, t.web);
    } else if trimmed == base + t.Rpc() {
      BaseIsPlain(t, base, t.rpc);
    }
    PlainExtends(base, t.transmission);
    PlainExtends(base + t.transmission, t.rpc);
    assert (base + t.transmission) + t.rpc == base + t.Rpc();
  }

  /** The normal form of a safe path is safe. */
  lemma NormalizingKeepsSafe(t: Texts, value: string)
    requires t.Valid() && IsSafePath(t, value, "")
    ensures IsSafePath(t, NormalizedPath(t, value), "")
  {
    var base := NormalForm(t, value);
    BaseOfNormalForm(t, value, base);
    PlainRpcIsSafe(t, base);
  }
}
