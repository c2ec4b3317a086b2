/** The keys of the result cache and of the offset cache (internal/proxy/server.go,
    makeCacheKey and makeOffsetKey). */
module CacheKeys {
  import opened Text
  import opened Decimal
  import opened Candidates

  // ----- Equal keys -----

  /** `"%d:%s?%s"`; `query` is the raw query with the parts removed that the key leaves out. */
  function CacheKey(revision: nat, path: string, query: string): string {
    Format(revision) + [':'] + (path + "?" + query)
  }

  /** A path the handler of this kind is registered for. */
  predicate Routed(kind: Kind, path: string) {
    if kind == Radarr then "/radarr/" <= path else "/sonarr/" <= path
  }

  /** Keys tell revisions and kinds apart. */
  lemma KeysSeparate(r1: nat, p1: string, q1: string, k1: Kind, r2: nat, p2: string, q2: string, k2: Kind)
    requires CacheKey(r1, p1, q1) == CacheKey(r2, p2, q2) && Routed(k1, p1) && Routed(k2, p2)
    ensures r1 == r2 && k1 == k2
  {
    NumeralsBeforeSeparator(r1, r2, ':', p1 + "?" + q1, p2 + "?" + q2);
    assert (p1 + "?" + q1)[1] == p1[1] && (p2 + "?" + q2)[1] == p2[1];
    assert "/radarr/"[1] == 'r' && "/sonarr/"[1] == 's';
  }

  /** Path `p2` goes on behind `p1` with a question mark and `x`, which starts the query of `p1`. */
  ghost predicate Continues(p1: string, q1: string, p2: string, q2: string, x: string) {
    p2 == p1 + "?" + x && q1 == x + "?" + q2
  }

  /** Path and query agree, or one path continues the other. */
  ghost predicate SameAddress(p1: string, q1: string, p2: string, q2: string) {
    || (p1 == p2 && q1 == q2)
    || (exists x :: Continues(p1, q1, p2, q2, x))
    || (exists x :: Continues(p2, q2, p1, q1, x))
  }

  lemma SplitLonger(p1: string, q1: string, p2: string, q2: string)
    requires p1 + "?" + q1 == p2 + "?" + q2 && |p1| < |p2|
    ensures exists x :: Continues(p1, q1, p2, q2, x)
  {
    var s, x := p1 + "?" + q1, p2[|p1| + 1..];
    assert p1 == s[..|p1|] && p2 == s[..|p2|] && q2 == s[|p2| + 1..] && q1 == s[|p1| + 1..];
    assert p2[|p1|] == s[|p1|] == '?' && s[|p2|] == '?';
    assert Continues(p1, q1, p2, q2, x);
  }

  lemma SameText(p1: string, q1: string, p2: string, q2: string)
    ensures p1 + "?" + q1 == p2 + "?" + q2 <==> SameAddress(p1, q1, p2, q2)
  {
    if p1 + "?" + q1 == p2 + "?" + q2 {
      if |p1| < |p2| {
        SplitLonger(p1, q1, p2, q2);
      } else if |p2| < |p1| {
        SplitLonger(p2, q2, p1, q1);
      } else {
        var s := p1 + "?" + q1;
        assert p1 == s[..|p1|] == p2 && q1 == s[|p1| + 1..] == q2;
      }
    }
    if x :| Continues(p1, q1, p2, q2, x) {
      assert p1 + "?" + (x + "?" + q2) == (p1 + "?" + x) + "?" + q2;
    }
    if x :| Continues(p2, q2, p1, q1, x) {
      assert p2 + "?" + (x + "?" + q1) == (p2 + "?" + x) + "?" + q1;
    }
  }

  /** Two keys coincide exactly when the revisions are equal and path and query agree or one
      path continues the other with a question mark. */
  lemma KeysCoincideExactly(r1: nat, p1: string, q1: string, r2: nat, p2: string, q2: string)
    ensures CacheKey(r1, p1, q1) == CacheKey(r2, p2, q2) <==> r1 == r2 && SameAddress(p1, q1, p2, q2)
  {
    SameText(p1, q1, p2, q2);
    if CacheKey(r1, p1, q1) == CacheKey(r2, p2, q2) {
      NumeralsBeforeSeparator(r1, r2, ':', p1 + "?" + q1, p2 + "?" + q2);
    }
  }

  lemma ContinuedIsMarked(p1: string, q1: string, p2: string, q2: string, x: string)
    requires Continues(p1, q1, p2, q2, x)
    ensures '?' in p2
  {
    assert p2[|p1|] == '?';
  }

  /** Between paths without a question mark only equal requests share a key. */
  lemma KeysOfPlainPaths(r1: nat, p1: string, q1: string, r2: nat, p2: string, q2: string)
    requires '?' !in p1 && '?' !in p2
    ensures CacheKey(r1, p1, q1) == CacheKey(r2, p2, q2) <==> r1 == r2 && p1 == p2 && q1 == q2
  {
    KeysCoincideExactly(r1, p1, q1, r2, p2, q2);
    PlainAddress(p1, q1, p2, q2);
  }

  lemma PlainAddress(p1: string, q1: string, p2: string, q2: string)
    requires '?' !in p1 && '?' !in p2
    ensures SameAddress(p1, q1, p2, q2) <==> p1 == p2 && q1 == q2
  {
    if x :| Continues(p1, q1, p2, q2, x) {
      ContinuedIsMarked(p1, q1, p2, q2, x);
    }
    if x :| Continues(p2, q2, p1, q1, x) {
      ContinuedIsMarked(p2, q2, p1, q1, x);
    }
  }

  /** Every path with a question mark shares its key with the path cut before the mark. */
  lemma MarkedPathsCollide(revision: nat, path: string, query: string, i: nat)
    requires i < |path| && path[i] == '?'
    ensures CacheKey(revision, path, query) == CacheKey(revision, path[..i], path[i + 1..] + "?" + query)
    ensures path[..i] != path
  {
    assert path == path[..i] + "?" + path[i + 1..];
    assert Continues(path[..i], path[i + 1..] + "?" + query, path, query, path[i + 1..]);
    KeysCoincideExactly(revision, path, query, revision, path[..i], path[i + 1..] + "?" + query);
  }

  // ----- What the offset key leaves out of a query -----

  const OFFSET := "offset="
  const APIKEY := "apikey="

  /** Position behind the digits that start at `i`. */
  function DigitsEnd(s: string, i: nat): (e: nat)
    requires i <= |s|
    ensures i <= e <= |s|
    decreases |s| - i
  {
    if i < |s| && IsDigit(s[i]) then DigitsEnd(s, i + 1) else i
  }

  /** Position of the next `&`, or the end. */
  function AmpersandFrom(s: string, i: nat): (e: nat)
    requires i <= |s|
    ensures i <= e <= |s|
    decreases |s| - i
  {
    if i < |s| && s[i] != '&' then AmpersandFrom(s, i + 1) else i
  }

  /** End of a match of `(offset=\d+|apikey=[^&]*)` at `i`, or `i` if there is none. */
  function MatchEnd(s: string, i: nat): (e: nat)
    requires i <= |s|
    ensures i <= e <= |s|
  {
    if MatchAt(s, OFFSET, i) && i + |OFFSET| < |s| && IsDigit(s[i + |OFFSET|]) then DigitsEnd(s, i + |OFFSET|)
    else if MatchAt(s, APIKEY, i) then AmpersandFrom(s, i + |APIKEY|)
    else i
  }

  /** The query from `i` on without the matches. */
  function StrippedFrom(s: string, i: nat): string
    requires i <= |s|
    decreases |s| - i
  {
    if i == |s| then ""
    else if MatchEnd(s, i) > i then StrippedFrom(s, MatchEnd(s, i))
    else [s[i]] + StrippedFrom(s, i + 1)
  }

  /** `makeOffsetKey`: offset and API key are left out of the query, everything else stays. */
  function Stripped(query: string): string {
    StrippedFrom(query, 0)
  }

  function OffsetKey(revision: nat, path: string, stripped: string): string {
    CacheKey(revision, path, stripped)
  }

  /** For one revision and path the keys agree exactly when the stripped queries do. */
  lemma OffsetKeysAgree(revision: nat, path: string, a: string, b: string)
    ensures OffsetKey(revision, path, a) == OffsetKey(revision, path, b) <==> a == b
  {
    if OffsetKey(revision, path, a) == OffsetKey(revision, path, b) {
      NumeralsBeforeSeparator(revision, revision, ':', path + "?" + a, path + "?" + b);
      assert a == (path + "?" + a)[|path| + 1..] == (path + "?" + b)[|path| + 1..] == b;
    }
  }

  lemma {:induction false} DigitsStopAtAmpersand(q: string, rest: string, i: nat)
    requires i <= |q|
    ensures DigitsEnd(q + "&" + rest, i) == DigitsEnd(q, i)
    decreases |q| - i
  {
    if i < |q| {
      DigitsStopAtAmpersand(q, rest, i + 1);
    }
  }

  lemma {:induction false} AmpersandStops(q: string, rest: string, i: nat)
    requires i <= |q|
    ensures AmpersandFrom(q + "&" + rest, i) == AmpersandFrom(q, i)
    decreases |q| - i
  {
    if i < |q| {
      AmpersandStops(q, rest, i + 1);
    }
  }

  lemma MatchedChar(s: string, word: string, i: nat, p: nat)
    requires MatchAt(s, word, i) && i <= p < i + |word|
    ensures s[p] == word[p - i]
  {
    assert Same(s, word, i, p - i);
  }

  lemma WordBeforeAmpersand(q: string, rest: string, word: string, i: nat)
    requires i <= |q| && forall k | 0 <= k < |word| :: word[k] != '&'
    requires word != ""
    ensures MatchAt(q + "&" + rest, word, i) <==> MatchAt(q, word, i)
  {
    var s := q + "&" + rest;
    if MatchAt(s, word, i) {
      if i + |word| > |q| {
        MatchedChar(s, word, i, |q|);
      } else {
        forall k | 0 <= k < |word| ensures Same(q, word, i, k) {
          assert Same(s, word, i, k);
        }
      }
    }
    if MatchAt(q, word, i) {
      forall k | 0 <= k < |word| ensures Same(s, word, i, k) {
        assert Same(q, word, i, k);
      }
    }
  }

  lemma MatchBeforeAmpersand(q: string, rest: string, i: nat)
    requires i <= |q|
    ensures MatchEnd(q + "&" + rest, i) == MatchEnd(q, i)
  {
    WordBeforeAmpersand(q, rest, OFFSET, i);
    WordBeforeAmpersand(q, rest, APIKEY, i);
    if MatchAt(q, OFFSET, i) {
      DigitsStopAtAmpersand(q, rest, i + |OFFSET|);
    }
    if MatchAt(q, APIKEY, i) {
      AmpersandStops(q, rest, i + |APIKEY|);
    }
  }

  lemma {:induction false} StripUpToAmpersand(q: string, rest: string, i: nat)
    requires i <= |q|
    ensures StrippedFrom(q + "&" + rest, i) == StrippedFrom(q, i) + StrippedFrom(q + "&" + rest, |q|)
    decreases |q| - i
  {
    MatchBeforeAmpersand(q, rest, i);
    if i < |q| {
      StripUpToAmpersand(q, rest, if MatchEnd(q, i) > i then MatchEnd(q, i) else i + 1);
    }
  }

  // ----- A suffix is stripped like a query of its own -----

  lemma {:induction false} DigitsBehind(t: string, k: nat, s: string, i: nat)
    requires EndsIn(t, k, s) && i <= |s|
    ensures DigitsEnd(t, k + i) == k + DigitsEnd(s, i)
    decreases |s| - i
  {
    if i < |s| {
      assert Same(t, s, k, i);
      DigitsBehind(t, k, s, i + 1);
    }
  }

  lemma {:induction false} AmpersandBehind(t: string, k: nat, s: string, i: nat)
    requires EndsIn(t, k, s) && i <= |s|
    ensures AmpersandFrom(t, k + i) == k + AmpersandFrom(s, i)
    decreases |s| - i
  {
    if i < |s| {
      assert Same(t, s, k, i);
      AmpersandBehind(t, k, s, i + 1);
    }
  }

  lemma WordBehind(t: string, k: nat, s: string, word: string, i: nat)
    requires EndsIn(t, k, s) && i <= |s|
    ensures MatchAt(t, word, k + i) <==> MatchAt(s, word, i)
  {
    var p := k + i;
    if MatchAt(t, word, p) {
      forall j | 0 <= j < |word| ensures Same(s, word, i, j) {
        assert Same(t, word, p, j) && Same(t, s, k, i + j);
      }
    }
    if MatchAt(s, word, i) {
      forall j | 0 <= j < |word| ensures Same(t, word, p, j) {
        assert Same(s, word, i, j) && Same(t, s, k, i + j);
      }
    }
  }

  lemma MatchBehind(t: string, k: nat, s: string, i: nat)
    requires EndsIn(t, k, s) && i <= |s|
    ensures MatchEnd(t, k + i) == k + MatchEnd(s, i)
  {
    WordBehind(t, k, s, OFFSET, i);
    WordBehind(t, k, s, APIKEY, i);
    if MatchAt(s, OFFSET, i) {
      DigitsBehind(t, k, s, i + |OFFSET|);
      DigitAfterOffset(t, k, s, i);
    }
    if MatchAt(s, APIKEY, i) {
      AmpersandBehind(t, k, s, i + |APIKEY|);
    }
  }

  lemma DigitAfterOffset(t: string, k: nat, s: string, i: nat)
    requires EndsIn(t, k, s) && i + |OFFSET| <= |s|
    ensures i + |OFFSET| < |s| ==> t[k + i + |OFFSET|] == s[i + |OFFSET|]
  {
    if i + |OFFSET| < |s| {
      assert Same(t, s, k, i + |OFFSET|);
    }
  }

  lemma StripMatched(s: string, i: nat)
    requires i < |s| && MatchEnd(s, i) > i
    ensures StrippedFrom(s, i) == StrippedFrom(s, MatchEnd(s, i))
  {
  }

  lemma StripKept(s: string, i: nat)
    requires i < |s| && MatchEnd(s, i) == i
    ensures StrippedFrom(s, i) == [s[i]] + StrippedFrom(s, i + 1)
  {
  }

  /** Two places at which a match is left out before the same rest. */
  lemma SkipAlike(t: string, p: nat, q: nat, s: string, i: nat, e: nat, rest: string)
    requires p < |t| && i < |s| && MatchEnd(t, p) == q > p && MatchEnd(s, i) == e > i
    requires StrippedFrom(t, q) == rest && StrippedFrom(s, e) == rest
    ensures StrippedFrom(t, p) == StrippedFrom(s, i)
  {
    StripMatched(t, p);
    StripMatched(s, i);
  }

  /** Two places at which the same is kept before the same rest. */
  lemma KeepAlike(t: string, p: nat, s: string, i: nat, rest: string)
    requires p < |t| && i < |s| && t[p] == s[i] && MatchEnd(t, p) == p && MatchEnd(s, i) == i
    requires StrippedFrom(t, p + 1) == rest && StrippedFrom(s, i + 1) == rest
    ensures StrippedFrom(t, p) == StrippedFrom(s, i)
  {
    StripKept(t, p);
    StripKept(s, i);
  }

  /** One step in front of a rest that is stripped alike; `e` is where the match ends. */
  lemma StripAlike(t: string, p: nat, s: string, i: nat, k: nat, e: nat, rest: string)
    requires p < |t| && i < |s| && t[p] == s[i] && p == k + i
    requires i <= e == MatchEnd(s, i) && MatchEnd(t, p) == k + e
    requires var next := if e > i then e else i + 1;
      next <= |s| && k + next <= |t| && StrippedFrom(t, k + next) == rest && StrippedFrom(s, next) == rest
    ensures StrippedFrom(t, p) == StrippedFrom(s, i)
  {
    if e > i {
      SkipAlike(t, p, k + e, s, i, e, rest);
    } else {
      KeepAlike(t, p, s, i, rest);
    }
  }

  /** Where the next step of stripping goes on. */
  function Onward(s: string, i: nat): (next: nat)
    requires i < |s|
    ensures i < next <= |s|
  {
    if MatchEnd(s, i) > i then MatchEnd(s, i) else i + 1
  }

  lemma StripOnward(t: string, k: nat, s: string, i: nat, rest: string)
    requires EndsIn(t, k, s) && i < |s|
    requires StrippedFrom(t, k + Onward(s, i)) == rest && StrippedFrom(s, Onward(s, i)) == rest
    ensures StrippedFrom(t, k + i) == StrippedFrom(s, i)
  {
    MatchBehind(t, k, s, i);
    assert Same(t, s, k, i);
    StripAlike(t, k + i, s, i, k, MatchEnd(s, i), rest);
  }

  lemma {:induction false} StripBehind(t: string, k: nat, s: string, i: nat)
    requires EndsIn(t, k, s) && i <= |s|
    ensures StrippedFrom(t, k + i) == StrippedFrom(s, i)
    decreases |s| - i
  {
    if i < |s| {
      StripBehind(t, k, s, Onward(s, i));
      StripOnward(t, k, s, i, StrippedFrom(s, Onward(s, i)));
    }
  }

  lemma NoMatchAtAmpersand(s: string)
    requires s != "" && s[0] == '&'
    ensures MatchEnd(s, 0) == 0
  {
    if MatchAt(s, OFFSET, 0) {
      MatchedChar(s, OFFSET, 0, 0);
    } else if MatchAt(s, APIKEY, 0) {
      MatchedChar(s, APIKEY, 0, 0);
    }
  }

  /** Each parameter is stripped on its own; the separators stay. */
  lemma StripByParameter(q: string, rest: string)
    ensures Stripped(q + "&" + rest) == Stripped(q) + "&" + Stripped(rest)
  {
    var s, tail := q + "&" + rest, "&" + rest;
    assert s == q + tail;
    StripUpToAmpersand(q, rest, 0);
    ConcatEndsIn(q, tail);
    StripBehind(s, |q|, tail, 0);
    StripTail(rest);
    assert Stripped(q) + ("&" + Stripped(rest)) == Stripped(q) + "&" + Stripped(rest);
  }

  lemma StripTail(rest: string)
    ensures StrippedFrom("&" + rest, 0) == "&" + Stripped(rest)
  {
    NoMatchAtAmpersand("&" + rest);
    ConcatEndsIn("&", rest);
    StripBehind("&" + rest, 1, rest, 0);
  }

  lemma {:induction false} DigitsToEnd(s: string, i: nat)
    requires i <= |s| && forall k | i <= k < |s| :: IsDigit(s[k])
    ensures DigitsEnd(s, i) == |s|
    decreases |s| - i
  {
    if i < |s| {
      DigitsToEnd(s, i + 1);
    }
  }

  lemma OffsetParameterGoes(n: nat)
    ensures Stripped(OFFSET + Format(n)) == ""
  {
    var s := OFFSET + Format(n);
    forall k | 0 <= k < |OFFSET| ensures Same(s, OFFSET, 0, k) {
    }
    forall k | |OFFSET| <= k < |s| ensures IsDigit(s[k]) {
      assert s[k] == Format(n)[k - |OFFSET|];
    }
    assert MatchAt(s, OFFSET, 0);
    DigitsToEnd(s, |OFFSET|);
    assert MatchEnd(s, 0) == |s|;
    assert StrippedFrom(s, |s|) == "";
  }

  /** A client that changes nothing but the number of its offset parameter keeps its key,
      wherever the parameter stands. */
  lemma OffsetIsForgotten(before: string, a: nat, b: nat, after: string)
    ensures Stripped(OFFSET + Format(a) + "&" + after) == Stripped(OFFSET + Format(b) + "&" + after)
    ensures Stripped(before + "&" + (OFFSET + Format(a))) == Stripped(before + "&" + (OFFSET + Format(b)))
    ensures Stripped(before + "&" + (OFFSET + Format(a) + "&" + after))
         == Stripped(before + "&" + (OFFSET + Format(b) + "&" + after))
  {
    OffsetParameterGoes(a);
    OffsetParameterGoes(b);
    StripByParameter(OFFSET + Format(a), after);
    StripByParameter(OFFSET + Format(b), after);
    StripByParameter(before, OFFSET + Format(a));
    StripByParameter(before, OFFSET + Format(b));
    StripByParameter(before, OFFSET + Format(a) + "&" + after);
    StripByParameter(before, OFFSET + Format(b) + "&" + after);
  }

  lemma {:induction false} NoAmpersandAhead(s: string, i: nat)
    requires i <= |s| && forall k | i <= k < |s| :: s[k] != '&'
    ensures AmpersandFrom(s, i) == |s|
    decreases |s| - i
  {
    if i < |s| {
      NoAmpersandAhead(s, i + 1);
    }
  }

  lemma ApiKeyGoes(key: string)
    requires '&' !in key
    ensures Stripped(APIKEY + key) == ""
  {
    var s := APIKEY + key;
    forall k | 0 <= k < |APIKEY| ensures Same(s, APIKEY, 0, k) {
    }
    assert MatchAt(s, APIKEY, 0);
    assert !MatchAt(s, OFFSET, 0) by {
      assert MatchAt(s, OFFSET, 0) ==> Same(s, OFFSET, 0, 0);
    }
    forall k | |APIKEY| <= k < |s| ensures s[k] != '&' {
      assert s[k] == key[k - |APIKEY|];
    }
    NoAmpersandAhead(s, |APIKEY|);
    assert MatchEnd(s, 0) == |s|;
    assert StrippedFrom(s, |s|) == "";
  }

  /** Clients with different API keys share their vectors, wherever the parameter stands. */
  lemma ApiKeyIsForgotten(before: string, a: string, b: string, after: string)
    requires '&' !in a && '&' !in b
    ensures Stripped(APIKEY + a + "&" + after) == Stripped(APIKEY + b + "&" + after)
    ensures Stripped(before + "&" + (APIKEY + a)) == Stripped(before + "&" + (APIKEY + b))
    ensures Stripped(before + "&" + (APIKEY + a + "&" + after)) == Stripped(before + "&" + (APIKEY + b + "&" + after))
  {
    ApiKeyGoes(a);
    ApiKeyGoes(b);
    StripByParameter(APIKEY + a, after);
    StripByParameter(APIKEY + b, after);
    StripByParameter(before, APIKEY + a);
    StripByParameter(before, APIKEY + b);
    StripByParameter(before, APIKEY + a + "&" + after);
    StripByParameter(before, APIKEY + b + "&" + after);
  }

  lemma NoNumberNoMatch(text: string, i: nat)
    requires (text != "" ==> !IsDigit(text[0])) && forall k | 0 <= k < |text| :: text[k] != 'o' && text[k] != 'a'
    requires i < |OFFSET + text|
    ensures MatchEnd(OFFSET + text, i) == i
  {
    var s := OFFSET + text;
    if i == 0 {
      assert |s| > |OFFSET| ==> s[|OFFSET|] == text[0];
      assert MatchAt(s, APIKEY, 0) ==> Same(s, APIKEY, 0, 0);
    } else {
      assert i >= |OFFSET| ==> s[i] == text[i - |OFFSET|];
      NoMatchWithout(s, i);
    }
  }

  lemma {:induction false} NoMatchNothingStripped(s: string, i: nat)
    requires i <= |s| && forall k | i <= k < |s| :: MatchEnd(s, k) == k
    ensures StrippedFrom(s, i) == s[i..]
    decreases |s| - i
  {
    if i < |s| {
      StripKept(s, i);
      NoMatchNothingStripped(s, i + 1);
      assert s[i..] == [s[i]] + s[i + 1..];
    }
  }

  /** An offset parameter without a number stays in the key. */
  lemma NoNumberStays(text: string)
    requires (text != "" ==> !IsDigit(text[0])) && forall k | 0 <= k < |text| :: text[k] != 'o' && text[k] != 'a'
    ensures Stripped(OFFSET + text) == OFFSET + text
  {
    forall k | 0 <= k < |OFFSET + text| ensures MatchEnd(OFFSET + text, k) == k {
      NoNumberNoMatch(text, k);
    }
    NoMatchNothingStripped(OFFSET + text, 0);
  }

  /** A client that begins without the parameter and adds it later changes its key. */
  lemma AddedOffsetChangesKey(query: string, n: nat)
    ensures Stripped(query + "&" + (OFFSET + Format(n))) == Stripped(query) + "&" != Stripped(query)
  {
    StripByParameter(query, OFFSET + Format(n));
    OffsetParameterGoes(n);
    assert Stripped(query) + "&" + "" == Stripped(query) + "&";
    assert |Stripped(query) + "&"| == |Stripped(query)| + 1;
  }

  lemma NoMatchWithout(s: string, i: nat)
    requires i < |s| && s[i] != 'o' && s[i] != 'a'
    ensures MatchEnd(s, i) == i
  {
    if MatchAt(s, OFFSET, i) {
      MatchedChar(s, OFFSET, i, i);
    } else if MatchAt(s, APIKEY, i) {
      MatchedChar(s, APIKEY, i, i);
    }
  }

  /** A parameter in which nothing begins like offset or API key stays as it is. */
  lemma StrippedKeeps(s: string, i: nat)
    requires i <= |s| && forall k | 0 <= k < |s| :: s[k] != 'o' && s[k] != 'a'
    ensures StrippedFrom(s, i) == s[i..]
  {
    forall k | i <= k < |s| ensures MatchEnd(s, k) == k {
      NoMatchWithout(s, k);
    }
    NoMatchNothingStripped(s, i);
  }

  const LIMIT := "limit="

  /** The limit stays in the key, so pages of different sizes never share a vector. */
  lemma LimitStaysInKey(a: nat, m: nat, b: nat, n: nat)
    ensures Stripped(LIMIT + Format(a) + "&" + (OFFSET + Format(m))) == LIMIT + Format(a) + "&"
    ensures (Stripped(LIMIT + Format(a) + "&" + (OFFSET + Format(m)))
             == Stripped(LIMIT + Format(b) + "&" + (OFFSET + Format(n)))) <==> a == b
  {
    LimitParameter(a, m);
    LimitParameter(b, n);
    if LIMIT + Format(a) + "&" == LIMIT + Format(b) + "&" {
      var s := LIMIT + Format(a) + "&";
      assert Format(a) == s[|LIMIT|..|s| - 1] == Format(b);
      FormatInjective(a, b);
    }
  }

  lemma LimitParameter(a: nat, m: nat)
    ensures Stripped(LIMIT + Format(a) + "&" + (OFFSET + Format(m))) == LIMIT + Format(a) + "&"
  {
    var s := LIMIT + Format(a);
    forall k | 0 <= k < |s| ensures s[k] != 'o' && s[k] != 'a' {
      if k >= |LIMIT| {
        assert s[k] == Format(a)[k - |LIMIT|] && IsDigit(Format(a)[k - |LIMIT|]);
      }
    }
    StrippedKeeps(s, 0);
    StripByParameter(s, OFFSET + Format(m));
    OffsetParameterGoes(m);
  }
}
