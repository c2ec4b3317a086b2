/** What the token rules make of a text (internal/format/sonarr.go, internal/format/radarr.go):
    which tokens a template has, what replacing one does, and what a template of one token becomes. */
module RuleTexts {
  import opened Options
  import opened Text
  import opened Rules

  // ----- Replacing -----

  lemma EndsInIs(t: string, k: nat, s: string)
    requires EndsIn(t, k, s)
    ensures t[k..] == s
  {
    forall i | 0 <= i < |s| ensures t[k..][i] == s[i] {
      assert Same(t, s, k, i);
    }
  }

  lemma MatchBehind(t: string, k: nat, s: string, part: string, i: nat)
    requires EndsIn(t, k, s)
    ensures MatchAt(t, part, k + i) <==> MatchAt(s, part, i)
  {
    EndsInIs(t, k, s);
    ShiftMatch(t, part, k, i);
  }

  lemma ReplaceStep(s: string, part: string, value: string, i: nat, next: nat, rest: string)
    requires part != "" && i < |s| && next == if MatchAt(s, part, i) then i + |part| else i + 1
    requires rest == ReplaceAllFrom(s, part, value, next)
    ensures ReplaceAllFrom(s, part, value, i) == (if MatchAt(s, part, i) then value else [s[i]]) + rest
  {
  }

  /** One step in front of a rest that becomes the same. */
  lemma ReplaceAlike(t: string, p: nat, q: nat, s: string, part: string, value: string, i: nat, next: nat,
                     rest: string)
    requires part != "" && p < |t| && i < |s| && t[p] == s[i] && (MatchAt(t, part, p) <==> MatchAt(s, part, i))
    requires next == if MatchAt(s, part, i) then i + |part| else i + 1
    requires q <= |t| && q - p == next - i
    requires ReplaceAllFrom(t, part, value, q) == rest && ReplaceAllFrom(s, part, value, next) == rest
    ensures ReplaceAllFrom(t, part, value, p) == ReplaceAllFrom(s, part, value, i)
  {
    ReplaceStep(s, part, value, i, next, rest);
    ReplaceStep(t, part, value, p, q, rest);
  }

  lemma {:induction false} ReplaceBehind(t: string, k: nat, s: string, part: string, value: string, i: nat)
    requires EndsIn(t, k, s) && part != "" && i <= |s|
    ensures ReplaceAllFrom(t, part, value, k + i) == ReplaceAllFrom(s, part, value, i)
    decreases |s| - i
  {
    if i < |s| {
      var next := if MatchAt(s, part, i) then i + |part| else i + 1;
      ReplaceBehind(t, k, s, part, value, next);
      MatchBehind(t, k, s, part, i);
      assert Same(t, s, k, i);
      ReplaceAlike(t, k + i, k + next, s, part, value, i, next, ReplaceAllFrom(s, part, value, next));
    }
  }

  lemma {:induction false} ReplaceUpTo(s: string, part: string, value: string, i: nat, n: nat)
    requires part != "" && i <= n <= |s| && forall k | i <= k < n :: !MatchAt(s, part, k)
    ensures ReplaceAllFrom(s, part, value, i) == s[i..n] + ReplaceAllFrom(s, part, value, n)
    decreases n - i
  {
    if i < n {
      ReplaceUpTo(s, part, value, i + 1, n);
      assert s[i..n] + ReplaceAllFrom(s, part, value, n)
          == [s[i]] + (s[i + 1..n] + ReplaceAllFrom(s, part, value, n));
    }
  }

  lemma NothingReplaced(s: string, part: string, value: string)
    requires part != "" && Index(s, part) < 0
    ensures ReplaceAllFrom(s, part, value, 0) == s
  {
    IndexSpec(s, part);
    ReplaceUpTo(s, part, value, 0, |s|);
    assert s[0..|s|] + "" == s;
  }

  lemma MatchReplaced(s: string, part: string, value: string, i: nat, rest: string)
    requires part != "" && MatchAt(s, part, i) && rest == s[i + |part|..]
    ensures ReplaceAllFrom(s, part, value, i) == value + ReplaceAllFrom(rest, part, value, 0)
  {
    assert s[..i + |part|] + rest == s;
    ConcatEndsIn(s[..i + |part|], rest);
    ReplaceBehind(s, i + |part|, rest, part, value, 0);
  }

  /** The first occurrence of the part gives way to the value, and the same happens to the text
      behind it; a text without the part stays. */
  lemma ReplacingIs(s: string, part: string, value: string, i: nat, rest: string)
    requires part != "" && i == Index(s, part) && i + |part| <= |s| && rest == s[i + |part|..]
    ensures ReplaceAllFrom(s, part, value, 0) == s[..i] + (value + ReplaceAllFrom(rest, part, value, 0))
  {
    IndexSpec(s, part);
    MatchReplaced(s, part, value, i, rest);
    ReplaceUpTo(s, part, value, 0, i);
  }

  // ----- The tokens of a template -----

  lemma TokenStep(s: string, i: nat, e: nat, token: string, rest: seq<string>)
    requires i < |s| && TokenAt(s, i) && e == CloseFrom(s, i + 1) && token == s[i + 1..e]
    requires rest == TokensFrom(s, e + 1)
    ensures TokensFrom(s, i) == [token] + rest
  {
  }

  lemma NoTokenStep(s: string, i: nat, rest: seq<string>)
    requires i < |s| && !TokenAt(s, i) && rest == TokensFrom(s, i + 1)
    ensures TokensFrom(s, i) == rest
  {
  }

  lemma PartBehind(t: string, k: nat, s: string, i: nat, e: nat)
    requires EndsIn(t, k, s) && i <= e <= |s|
    ensures t[k + i..k + e] == s[i..e]
  {
    forall j | 0 <= j < e - i ensures t[k + i..k + e][j] == s[i..e][j] {
      assert Same(t, s, k, i + j);
    }
  }

  lemma {:induction false} TokensBehind(t: string, k: nat, s: string, i: nat)
    requires EndsIn(t, k, s) && i <= |s|
    ensures TokensFrom(t, k + i) == TokensFrom(s, i)
    decreases |s| - i
  {
    if i < |s| {
      TokenBehind(t, k, s, i);
      if TokenAt(s, i) {
        var e := CloseFrom(s, i + 1);
        TokensBehind(t, k, s, e + 1);
        PartBehind(t, k, s, i + 1, e);
        TokenStep(s, i, e, s[i + 1..e], TokensFrom(s, e + 1));
        TokenStep(t, k + i, k + e, s[i + 1..e], TokensFrom(s, e + 1));
      } else {
        TokensBehind(t, k, s, i + 1);
        NoTokenStep(s, i, TokensFrom(s, i + 1));
        NoTokenStep(t, k + i, TokensFrom(s, i + 1));
      }
    }
  }

  lemma {:induction false} NoTokensUpTo(s: string, i: nat, n: nat)
    requires i <= n <= |s| && forall k | i <= k < n :: s[k] != '{'
    ensures TokensFrom(s, i) == TokensFrom(s, n)
    decreases n - i
  {
    if i < n {
      NoTokensUpTo(s, i + 1, n);
    }
  }

  ghost predicate Without(s: string, c: char) {
    forall i | 0 <= i < |s| :: s[i] != c
  }

  /** The tokens of a template, from left to right: before the first one nothing opens, and it goes
      on to the next closing brace. */
  lemma TokensAre(a: string, token: string, b: string)
    requires Without(a, '{') && token != "" && Without(token, '}')
    ensures TokensFrom(a + "{" + token + "}" + b, 0) == [token] + TokensFrom(b, 0)
    ensures TokensFrom(a, 0) == []
  {
    var x := a + "{" + token + "}";
    var s := x + b;
    NoTokensUpTo(a, 0, |a|);
    NoTokensUpTo(s, 0, |a|);
    assert forall i | |a| + 1 <= i < |a| + 1 + |token| :: s[i] == token[i - |a| - 1];
    assert s[|x| - 1] == '}' && s[|a| + 1..|x| - 1] == token;
    ConcatEndsIn(x, b);
    TokensBehind(s, |x|, b, 0);
  }

  // ----- A template of one token -----

  lemma NoMatchAt(s: string, part: string, i: nat)
    requires part != "" && (i < |s| ==> s[i] != part[0])
    ensures !MatchAt(s, part, i)
  {
    assert MatchAt(s, part, i) ==> Same(s, part, i, 0);
  }

  lemma OneOccurrence(a: string, token: string, b: string)
    requires Without(a, '{') && Without(b, '{')
    ensures var part := "{" + token + "}";
      Index(a + part + b, part) == |a| && Index(b, part) < 0
  {
    var part := "{" + token + "}";
    var s := a + part + b;
    MatchInMiddle(a, part, b);
    assert s == a + (part + b);
    IndexSpec(s, part);
    IndexSpec(b, part);
    forall i: nat | i < |a| ensures !MatchAt(s, part, i) {
      NoMatchAt(s, part, i);
    }
    forall i: nat ensures !MatchAt(b, part, i) {
      NoMatchAt(b, part, i);
    }
  }

  lemma OneReplaced(a: string, token: string, b: string, value: string)
    requires Without(a, '{') && Without(b, '{')
    ensures ReplaceToken(token, value, a + "{" + token + "}" + b) == a + (value + b)
  {
    var part := "{" + token + "}";
    var template := a + part + b;
    assert template == a + "{" + token + "}" + b;
    OneOccurrence(a, token, b);
    assert template[..|a|] == a && template[|a| + |part|..] == b;
    ReplacingIs(template, part, value, |a|, b);
    NothingReplaced(b, part, value);
  }

  /** A template of one token: the value of the least matching rule, which is the replacement with
      its number shifted, takes the place of the token; without such a rule the template stays. */
  lemma OneTokenFilled(e: Engine, text: string, a: string, token: string, b: string, rules: seq<Rule>)
    requires Without(a, '{') && Without(b, '{') && token != "" && Without(token, '}')
    ensures var template := a + "{" + token + "}" + b;
      var best := Best(rules, token, (r: Rule) => e.matches(r.regex, text));
      Filled(e, text, TokensFrom(template, 0), template, rules)
      == if best.None? then template
         else var r := rules[best.value]; a + (e.shift(e.replace(r.regex, text, r.replacement), r.offset) + b)
  {
    var part := "{" + token + "}";
    var template := a + part + b;
    assert template == a + "{" + token + "}" + b;
    TokensAre(a, token, b);
    NoTokensUpTo(b, 0, |b|);
    var best := Best(rules, token, (r: Rule) => e.matches(r.regex, text));
    assert [token][..0] == [];
    if best.Some? {
      BestIsLeast(rules, token, (r: Rule) => e.matches(r.regex, text));
      OneReplaced(a, token, b, e.Value(rules[best.value], text));
    }
  }
}
