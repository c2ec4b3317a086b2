/** The Go string searches the proxy relies on, with the facts needed to reason
    about where a tag can and cannot occur in a string built from pieces. */
module Text {

  /** Character `k` of `sub` is found in `s`, counted from `i`. */
  predicate Same(s: string, sub: string, i: int, k: int)
    requires 0 <= k < |sub| && 0 <= i <= |s| - |sub|
  {
    s[i + k] == sub[k]
  }

  /** `sub` occurs in `s` at position `i`. */
  predicate MatchAt(s: string, sub: string, i: int) {
    0 <= i <= |s| - |sub| && forall k | 0 <= k < |sub| :: Same(s, sub, i, k)
  }

  /** No occurrence of `sub` in `s` starts before position `n`. */
  ghost predicate FreeBefore(s: string, sub: string, n: int) {
    forall i | 0 <= i < n :: !MatchAt(s, sub, i)
  }

  /** `sub` occurs nowhere in `s`. */
  ghost predicate Lacks(s: string, sub: string) {
    forall i :: !MatchAt(s, sub, i)
  }

  /** `strings.Index`, started at `from`. */
  function IndexFrom(s: string, sub: string, from: nat): (i: int)
    requires from <= |s|
    ensures i == -1 || from <= i <= |s| - |sub|
    decreases |s| - from
  {
    if MatchAt(s, sub, from) then from
    else if from == |s| then -1
    else IndexFrom(s, sub, from + 1)
  }

  /** `strings.Index`: the first position of `sub`, or -1. */
  function Index(s: string, sub: string): (i: int)
    ensures i == -1 || 0 <= i <= |s| - |sub|
  {
    IndexFrom(s, sub, 0)
  }

  /** `strings.LastIndex`, searching the positions up to `upTo`. */
  function LastIndexUpTo(s: string, sub: string, upTo: int): (i: int)
    requires -1 <= upTo <= |s|
    ensures i == -1 || 0 <= i <= |s| - |sub|
    decreases upTo
  {
    if upTo == -1 || MatchAt(s, sub, upTo) then upTo
    else LastIndexUpTo(s, sub, upTo - 1)
  }

  /** `strings.LastIndex`: the last position of `sub`, or -1. */
  function LastIndex(s: string, sub: string): (i: int)
    ensures i == -1 || 0 <= i <= |s| - |sub|
  {
    LastIndexUpTo(s, sub, |s|)
  }

  lemma {:induction false} IndexFromSpec(s: string, sub: string, from: nat, i: int)
    requires from <= |s|
    ensures IndexFrom(s, sub, from) >= 0 ==> MatchAt(s, sub, IndexFrom(s, sub, from))
    ensures from <= i && (IndexFrom(s, sub, from) < 0 || i < IndexFrom(s, sub, from)) ==> !MatchAt(s, sub, i)
    decreases |s| - from
  {
    if !MatchAt(s, sub, from) && from < |s| {
      IndexFromSpec(s, sub, from + 1, i);
    }
  }

  /** `Index` finds an occurrence, and none starts before it. */
  lemma IndexSpec(s: string, sub: string)
    ensures Index(s, sub) >= 0 ==> MatchAt(s, sub, Index(s, sub)) && FreeBefore(s, sub, Index(s, sub))
    ensures Index(s, sub) < 0 <==> FreeBefore(s, sub, |s| + 1)
  {
    forall i ensures Index(s, sub) >= 0 ==> MatchAt(s, sub, Index(s, sub))
      ensures 0 <= i && (Index(s, sub) < 0 || i < Index(s, sub)) ==> !MatchAt(s, sub, i)
    {
      IndexFromSpec(s, sub, 0, i);
    }
  }

  lemma {:induction false} LastIndexUpToIs(s: string, sub: string, upTo: int, i: nat)
    requires i <= upTo <= |s| && MatchAt(s, sub, i)
    requires forall k | i < k <= upTo :: !MatchAt(s, sub, k)
    ensures LastIndexUpTo(s, sub, upTo) == i
    decreases upTo
  {
    if upTo > i {
      LastIndexUpToIs(s, sub, upTo - 1, i);
    }
  }

  predicate Contains(s: string, sub: string) {
    Index(s, sub) >= 0
  }

  /** `strings.Count` for a non-empty `sub`, from `from` on: occurrences that do not overlap. */
  function CountFrom(s: string, sub: string, from: nat): nat
    requires sub != "" && from <= |s|
    decreases |s| - from
  {
    var i := IndexFrom(s, sub, from);
    if i < 0 then 0 else 1 + CountFrom(s, sub, i + |sub|)
  }

  /** `unicode.IsSpace`. */
  predicate IsSpace(c: char) {
    c == ' ' || '\t' <= c <= '\r' || c == '\U{0085}' || c == '\U{00A0}' || WideSpace(c)
  }

  /** The white space above Latin-1. */
  predicate WideSpace(c: char) {
    || c == '\U{1680}' || '\U{2000}' <= c <= '\U{200A}' || c == '\U{2028}' || c == '\U{2029}'
    || c == '\U{202F}' || c == '\U{205F}' || c == '\U{3000}'
  }

  function TrimLeft(s: string): string {
    if s != "" && IsSpace(s[0]) then TrimLeft(s[1..]) else s
  }

  function TrimRight(s: string): string {
    if s != "" && IsSpace(s[|s| - 1]) then TrimRight(s[..|s| - 1]) else s
  }

  /** `strings.TrimSpace`. */
  function TrimSpace(s: string): string {
    TrimRight(TrimLeft(s))
  }

  lemma {:induction false} TrimLeftSpec(s: string)
    ensures var t := TrimLeft(s);
      && (t != "" ==> !IsSpace(t[0])) && |t| <= |s| && t == s[|s| - |t|..]
      && (forall i | 0 <= i < |s| - |t| :: IsSpace(s[i]))
  {
    if s != "" && IsSpace(s[0]) {
      TrimLeftSpec(s[1..]);
      forall i | 0 <= i < |s| - |TrimLeft(s[1..])| ensures IsSpace(s[i]) {
        assert i > 0 ==> s[i] == s[1..][i - 1];
      }
    }
  }

  lemma {:induction false} TrimRightSpec(s: string)
    ensures var t := TrimRight(s);
      && (t != "" ==> !IsSpace(t[|t| - 1])) && |t| <= |s| && t == s[..|t|]
      && (forall i | |t| <= i < |s| :: IsSpace(s[i]))
  {
    if s != "" && IsSpace(s[|s| - 1]) {
      TrimRightSpec(s[..|s| - 1]);
    }
  }

  lemma TrimSpaceIdempotent(s: string)
    ensures TrimSpace(TrimSpace(s)) == TrimSpace(s)
  {
    TrimLeftSpec(s);
    TrimRightSpec(TrimLeft(s));
    var t := TrimSpace(s);
    if t != "" {
      assert t[0] == TrimLeft(s)[0];
    }
  }

  /** Searching a suffix is searching from its start. */
  lemma {:induction false} IndexInSuffix(s: string, sub: string, pos: nat, from: nat)
    requires pos <= from <= |s|
    ensures IndexFrom(s[pos..], sub, from - pos) == if IndexFrom(s, sub, from) < 0 then -1
                                                    else IndexFrom(s, sub, from) - pos
    decreases |s| - from
  {
    ShiftMatch(s, sub, pos, from - pos);
    if !MatchAt(s, sub, from) && from < |s| {
      IndexInSuffix(s, sub, pos, from + 1);
    }
  }

  /** Positions without an occurrence can be skipped. */
  lemma {:induction false} SkipFree(s: string, sub: string, from: nat, next: nat)
    requires from <= next <= |s|
    requires forall i | from <= i < next :: !MatchAt(s, sub, i)
    ensures IndexFrom(s, sub, from) == IndexFrom(s, sub, next)
    decreases next - from
  {
    if from < next {
      SkipFree(s, sub, from + 1, next);
    }
  }

  lemma DropAppend(a: string, b: string)
    ensures (a + b)[|a|..] == b && (a + b)[..|a|] == a
  {
  }

  lemma Assoc(a: string, b: string, c: string)
    ensures a + (b + c) == (a + b) + c
  {
  }

  lemma DropDrop(s: string, i: nat, j: nat)
    requires i + j <= |s|
    ensures s[i..][j..] == s[i + j..]
  {
  }

  lemma ShiftMatch(s: string, sub: string, n: nat, k: nat)
    requires n <= |s|
    ensures MatchAt(s[n..], sub, k) <==> MatchAt(s, sub, n + k)
  {
    if MatchAt(s[n..], sub, k) {
      forall j {:trigger Same(s, sub, n + k, j)} | 0 <= j < |sub| ensures Same(s, sub, n + k, j) {
        assert Same(s[n..], sub, k, j);
      }
    }
    if MatchAt(s, sub, n + k) {
      forall j | 0 <= j < |sub| ensures Same(s[n..], sub, k, j) {
        assert Same(s, sub, n + k, j);
      }
    }
  }

  /** An occurrence that lies inside the prefix `a` of `a + b` is one of `a`. */
  lemma MatchInPrefix(a: string, b: string, sub: string, i: nat)
    requires i + |sub| <= |a|
    ensures MatchAt(a + b, sub, i) <==> MatchAt(a, sub, i)
  {
    forall k | 0 <= k < |sub| ensures Same(a + b, sub, i, k) <==> Same(a, sub, i, k) {
    }
  }

  /** From `k` on `t` is `s`. */
  ghost predicate EndsIn(t: string, k: nat, s: string) {
    k + |s| == |t| && MatchAt(t, s, k)
  }

  lemma ConcatEndsIn(a: string, b: string)
    ensures EndsIn(a + b, |a|, b)
  {
    forall k | 0 <= k < |b| ensures Same(a + b, b, |a|, k) {
    }
  }

  lemma MatchInMiddle(a: string, sub: string, b: string)
    ensures MatchAt(a + (sub + b), sub, |a|)
  {
    forall k | 0 <= k < |sub| ensures Same(a + (sub + b), sub, |a|, k) {
    }
  }

  /** `tag` starts with `<` and holds no other `<`. */
  ghost predicate IsTag(tag: string) {
    |tag| > 0 && tag[0] == '<' && forall k | 0 < k < |tag| :: tag[k] != '<'
  }

  /** The key fact about cuts: a tag cannot arise across the seam of `a` and `b`
      when `b` opens with `<`, for the tag holds `<` only in front. */
  lemma NoTagAcrossSeam(a: string, b: string, tag: string)
    requires IsTag(tag) && Lacks(a, tag)
    requires b == "" || b[0] == '<'
    ensures FreeBefore(a + b, tag, |a|)
  {
    forall i | 0 <= i < |a| ensures !MatchAt(a + b, tag, i) {
      if i + |tag| <= |a| {
        MatchInPrefix(a, b, tag, i);
      } else if b != "" {
        assert i + |tag| <= |a + b| ==> !Same(a + b, tag, i, |a| - i);
      }
    }
  }

  /** Inside one tag no other tag starts: `other` would have to start with the
      only `<` of `tag`, and differs from it in character number `j`. */
  lemma NoTagInsideTag(tag: string, rest: string, other: string, j: nat)
    requires IsTag(tag) && IsTag(other) && j < |tag| && j < |other| && tag[j] != other[j]
    ensures FreeBefore(tag + rest, other, |tag|)
  {
    forall i | 0 <= i < |tag| ensures !MatchAt(tag + rest, other, i) {
      assert i + |other| <= |tag + rest| ==> !Same(tag + rest, other, i, if i == 0 then j else 0);
    }
  }

  // ----- The same facts for a piece `a` that lies in `s` at `pos` -----

  lemma PlacedPrefix(s: string, pos: nat, a: string, rest: string)
    requires pos <= |s| && s[pos..] == a + rest
    ensures MatchAt(s, a, pos) && pos + |a| <= |s| && s[pos + |a|..] == rest
  {
    DropAppend(a, rest);
    DropDrop(s, pos, |a|);
    forall k | 0 <= k < |a| ensures Same(s, a, pos, k) {
      assert s[pos..][k] == s[pos + k];
    }
  }

  lemma PlacedText(s: string, pos: nat, a: string)
    requires MatchAt(s, a, pos)
    ensures s[pos..pos + |a|] == a
  {
    forall k | 0 <= k < |a| ensures s[pos..pos + |a|][k] == a[k] {
      assert Same(s, a, pos, k);
    }
  }

  /** No tag starts in a piece that lacks it, whether the piece ends `s` or meets a `<`. */
  lemma NoTagInPiece(s: string, pos: nat, a: string, tag: string)
    requires IsTag(tag) && MatchAt(s, a, pos) && Lacks(a, tag)
    requires pos + |a| == |s| || s[pos + |a|] == '<'
    ensures forall i | pos <= i < pos + |a| :: !MatchAt(s, tag, i)
  {
    forall i | pos <= i < pos + |a| ensures !MatchAt(s, tag, i) {
      if i + |tag| <= pos + |a| {
        MatchInPiece(s, pos, a, tag, i - pos);
      } else {
        assert MatchAt(s, tag, i) ==> Same(s, tag, i, pos + |a| - i);
      }
    }
  }

  lemma MatchInPiece(s: string, pos: nat, a: string, sub: string, i: nat)
    requires MatchAt(s, a, pos) && i + |sub| <= |a|
    ensures MatchAt(s, sub, pos + i) ==> MatchAt(a, sub, i)
  {
    if MatchAt(s, sub, pos + i) {
      forall k | 0 <= k < |sub| ensures Same(a, sub, i, k) {
        assert Same(s, sub, pos + i, k) && Same(s, a, pos, i + k);
      }
    }
  }

  /** No other tag starts in a tag. */
  lemma NoOtherTagInTag(s: string, pos: nat, tag: string, other: string, j: nat)
    requires IsTag(tag) && IsTag(other) && j < |tag| && j < |other| && tag[j] != other[j]
    requires MatchAt(s, tag, pos)
    ensures forall i | pos <= i < pos + |tag| :: !MatchAt(s, other, i)
  {
    forall i | pos <= i < pos + |tag| ensures !MatchAt(s, other, i) {
      assert Same(s, tag, pos, i - pos) && Same(s, tag, pos, j);
      assert MatchAt(s, other, i) ==> Same(s, other, i, 0);
      assert MatchAt(s, other, i) ==> Same(s, other, i, j);
    }
  }

  /** Freedom of occurrences adds up along a concatenation. */
  lemma FreeConcat(a: string, b: string, sub: string, n: nat)
    requires n <= |b| && FreeBefore(a + b, sub, |a|) && FreeBefore(b, sub, n)
    ensures FreeBefore(a + b, sub, |a| + n)
  {
    DropAppend(a, b);
    forall i | 0 <= i < |a| + n ensures !MatchAt(a + b, sub, i) {
      if i >= |a| {
        ShiftMatch(a + b, sub, |a|, i - |a|);
      }
    }
  }
}
