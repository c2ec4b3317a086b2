/** Formatting rules (internal/format/radarr.go and sonarr.go): which rule a token takes, and
    what is left of the tokens in the end. */
module Rules {
  import opened Options
  import opened Text

  datatype Rule = Rule(token: string, regex: string, replacement: string, offset: int, priority: int,
                       validStatus: Option<int>)

  // ----- Choosing a rule -----

  predicate EnabledFor(r: Rule, token: string) {
    r.validStatus != Some(0) && r.token == token
  }

  /** The enabled rules of a token, in the order of declaration. */
  function Group(rules: seq<Rule>, token: string): seq<Rule> {
    if rules == [] then []
    else
      var before, last := Group(rules[..|rules| - 1], token), rules[|rules| - 1];
      if EnabledFor(last, token) then before + [last] else before
  }

  /** Behind the rules of the same or a smaller priority, as a stable sort puts it. */
  function InsertStable(ordered: seq<Rule>, r: Rule): seq<Rule> {
    if ordered == [] || ordered[|ordered| - 1].priority <= r.priority then ordered + [r]
    else InsertStable(ordered[..|ordered| - 1], r) + [ordered[|ordered| - 1]]
  }

  /** `sort.SliceStable` by priority. */
  function StableSort(rules: seq<Rule>): seq<Rule> {
    if rules == [] then [] else InsertStable(StableSort(rules[..|rules| - 1]), rules[|rules| - 1])
  }

  ghost predicate ByPriority(rules: seq<Rule>) {
    forall i, j | 0 <= i < j < |rules| :: rules[i].priority <= rules[j].priority
  }

  /** The loop over a token's rules stops at the first match. */
  function FirstMatch(rules: seq<Rule>, matches: Rule -> bool): Option<Rule> {
    if rules == [] then None else if matches(rules[0]) then Some(rules[0]) else FirstMatch(rules[1..], matches)
  }

  /** The rule declared at `i` is of the token, matches and is not switched off by a status of 0. */
  ghost predicate Eligible(rules: seq<Rule>, token: string, matches: Rule -> bool, i: int) {
    && 0 <= i < |rules| && rules[i].token == token && matches(rules[i])
    && (rules[i].validStatus.None? || rules[i].validStatus.value != 0)
  }

  /** Of all eligible rules, the one at `i` has the least priority, and of those of its
      priority it is declared first. */
  ghost predicate Least(rules: seq<Rule>, token: string, matches: Rule -> bool, i: int) {
    && Eligible(rules, token, matches, i)
    && forall j | Eligible(rules, token, matches, j) :: rules[i].priority < rules[j].priority ||
         (rules[i].priority == rules[j].priority && i <= j)
  }

  lemma {:induction false} FirstMatchConcat(a: seq<Rule>, b: seq<Rule>, matches: Rule -> bool)
    ensures FirstMatch(a + b, matches) == if FirstMatch(a, matches).Some? then FirstMatch(a, matches)
                                          else FirstMatch(b, matches)
  {
    if a == [] {
      assert a + b == b;
    } else {
      FirstMatchConcat(a[1..], b, matches);
      assert (a + b)[1..] == a[1..] + b;
    }
  }

  ghost predicate Below(rules: seq<Rule>, p: int) {
    forall i | 0 <= i < |rules| :: rules[i].priority <= p
  }

  lemma {:induction false} InsertBelow(ordered: seq<Rule>, r: Rule, p: int)
    requires Below(ordered, p) && r.priority <= p
    ensures Below(InsertStable(ordered, r), p)
  {
    if ordered != [] && ordered[|ordered| - 1].priority > r.priority {
      InsertBelow(ordered[..|ordered| - 1], r, p);
    }
  }

  lemma {:induction false} InsertKeepsOrder(ordered: seq<Rule>, r: Rule)
    requires ByPriority(ordered)
    ensures ByPriority(InsertStable(ordered, r))
  {
    var n := |ordered| - 1;
    if ordered != [] && ordered[n].priority > r.priority {
      InsertKeepsOrder(ordered[..n], r);
      InsertBelow(ordered[..n], r, ordered[n].priority);
    }
  }

  lemma {:induction false} SortIsByPriority(rules: seq<Rule>)
    ensures ByPriority(StableSort(rules))
  {
    if rules != [] {
      SortIsByPriority(rules[..|rules| - 1]);
      InsertKeepsOrder(StableSort(rules[..|rules| - 1]), rules[|rules| - 1]);
    }
  }

  lemma {:induction false} FirstMatchBelow(rules: seq<Rule>, matches: Rule -> bool, p: int)
    requires Below(rules, p)
    ensures FirstMatch(rules, matches).Some? ==> FirstMatch(rules, matches).value.priority <= p
  {
    if rules != [] && !matches(rules[0]) {
      FirstMatchBelow(rules[1..], matches, p);
    }
  }

  /** Inserting a rule changes the first match only if the rule matches and everything that
      matched before has a greater priority. */
  lemma {:induction false} FirstMatchInsert(ordered: seq<Rule>, r: Rule, matches: Rule -> bool)
    requires ByPriority(ordered)
    ensures var before := FirstMatch(ordered, matches);
      FirstMatch(InsertStable(ordered, r), matches) ==
        if matches(r) && (before.None? || r.priority < before.value.priority) then Some(r) else before
  {
    var n := |ordered| - 1;
    if ordered == [] {
      assert ordered + [r] == [r];
    } else if ordered[n].priority <= r.priority {
      FirstMatchConcat(ordered, [r], matches);
      FirstMatchBelow(ordered, matches, r.priority);
    } else {
      FirstMatchInsert(ordered[..n], r, matches);
      assert ordered == ordered[..n] + [ordered[n]];
      FirstMatchConcat(ordered[..n], [ordered[n]], matches);
      FirstMatchConcat(InsertStable(ordered[..n], r), [ordered[n]], matches);
    }
  }

  /** The position of the least eligible rule. */
  function Best(rules: seq<Rule>, token: string, matches: Rule -> bool): (b: Option<nat>)
    ensures b.Some? ==> b.value < |rules|
  {
    if rules == [] then None
    else
      var n := |rules| - 1;
      var before := Best(rules[..n], token, matches);
      if EnabledFor(rules[n], token) && matches(rules[n]) &&
        (before.None? || rules[n].priority < rules[before.value].priority)
      then Some(n) else before
  }

  lemma {:induction false} BestIsLeast(rules: seq<Rule>, token: string, matches: Rule -> bool)
    ensures var b := Best(rules, token, matches);
      && (b.Some? ==> Least(rules, token, matches, b.value))
      && (b.None? ==> forall i :: !Eligible(rules, token, matches, i))
  {
    if rules != [] {
      var n := |rules| - 1;
      BestIsLeast(rules[..n], token, matches);
      forall i | i < n ensures Eligible(rules, token, matches, i) <==> Eligible(rules[..n], token, matches, i) {
      }
    }
  }

  lemma {:induction false} BestOfSorted(rules: seq<Rule>, token: string, matches: Rule -> bool)
    ensures var b := Best(rules, token, matches);
      FirstMatch(StableSort(Group(rules, token)), matches) == if b.Some? then Some(rules[b.value]) else None
  {
    if rules != [] {
      var n := |rules| - 1;
      BestOfSorted(rules[..n], token, matches);
      if EnabledFor(rules[n], token) {
        var before := Group(rules[..n], token);
        assert (before + [rules[n]])[..|before|] == before;
        SortIsByPriority(before);
        FirstMatchInsert(StableSort(before), rules[n], matches);
      }
    }
  }

  /** The first match in the sorted group of a token is the enabled matching rule with the
      least priority and, among equals, the earliest declaration; there is none exactly when
      no enabled rule of the token matches. */
  lemma ChosenRuleIsLeast(rules: seq<Rule>, token: string, matches: Rule -> bool)
    ensures var r := FirstMatch(StableSort(Group(rules, token)), matches);
      && (r.Some? ==> exists i :: Least(rules, token, matches, i) && r.value == rules[i])
      && (r.None? ==> forall i :: !Eligible(rules, token, matches, i))
  {
    BestOfSorted(rules, token, matches);
    BestIsLeast(rules, token, matches);
  }

  /** Grouping and sorting: every token with an enabled rule has its sorted group. */
  method RulesByToken(rules: seq<Rule>) returns (result: map<string, seq<Rule>>)
    ensures forall token :: token in result <==> Group(rules, token) != []
    ensures forall token | token in result :: result[token] == StableSort(Group(rules, token))
  {
    result := map[];
    for i := 0 to |rules|
      invariant forall token :: token in result <==> Group(rules[..i], token) != []
      invariant forall token | token in result :: result[token] == Group(rules[..i], token)
    {
      assert rules[..i + 1][..i] == rules[..i];
      var r := rules[i];
      if r.validStatus.Some? && r.validStatus.value == 0 {
        continue;
      }
      result := result[r.token := (if r.token in result then result[r.token] else []) + [r]];
    }
    assert rules[..|rules|] == rules;
    ghost var groups := result;
    var tokens := result.Keys;
    while tokens != {}
      invariant tokens <= result.Keys == groups.Keys
      invariant forall token | token in tokens :: result[token] == groups[token]
      invariant forall token | token in result && token !in tokens :: result[token] == StableSort(groups[token])
      decreases |tokens|
    {
      var token :| token in tokens;
      result := result[token := StableSort(result[token])];
      tokens := tokens - {token};
    }
  }

  // ----- Tokens in a template -----

  /** The position of the first closing brace at or after `i`, or -1. */
  function CloseFrom(s: string, i: nat): (k: int)
    requires i <= |s|
    ensures k == -1 || (i <= k < |s| && s[k] == '}')
    ensures k == -1 ==> forall j | i <= j < |s| :: s[j] != '}'
    ensures k >= 0 ==> forall j | i <= j < k :: s[j] != '}'
    decreases |s| - i
  {
    if i == |s| then -1 else if s[i] == '}' then i else CloseFrom(s, i + 1)
  }

  /** A match of `\{([^}]+)\}` starts at `i`. */
  predicate TokenAt(s: string, i: nat)
    requires i < |s|
  {
    s[i] == '{' && CloseFrom(s, i + 1) > i + 1
  }

  ghost predicate NoToken(s: string) {
    forall i: nat | i < |s| :: !TokenAt(s, i)
  }

  /** `RemoveAllTokens`: the matches, from left to right, are left out. */
  function RemoveFrom(s: string, i: nat): string
    requires i <= |s|
    decreases |s| - i
  {
    if i == |s| then ""
    else if TokenAt(s, i) then RemoveFrom(s, CloseFrom(s, i + 1) + 1)
    else [s[i]] + RemoveFrom(s, i + 1)
  }

  function RemoveAllTokens(s: string): string {
    RemoveFrom(s, 0)
  }

  /** Without a closing brace ahead, nothing is removed. */
  lemma {:induction false} NothingWithoutClose(s: string, i: nat)
    requires i <= |s| && forall j | i <= j < |s| :: s[j] != '}'
    ensures RemoveFrom(s, i) == s[i..]
    decreases |s| - i
  {
    if i < |s| {
      NothingWithoutClose(s, i + 1);
    }
  }

  /** A token at the start, stated on the string alone. */
  lemma TokenHead(r: string, c: char)
    ensures c != '{' || (r != "" && r[0] == '}') || (forall j | 0 <= j < |r| :: r[j] != '}') ==> !TokenAt([c] + r, 0)
  {
    var s := [c] + r;
    if c == '{' && r != "" && r[0] == '}' {
      assert s[1] == '}';
    }
  }

  lemma {:induction false} CloseShift(r: string, c: char, i: nat)
    requires i <= |r|
    ensures CloseFrom([c] + r, i + 1) == if CloseFrom(r, i) == -1 then -1 else CloseFrom(r, i) + 1
    decreases |r| - i
  {
    if i < |r| && r[i] != '}' {
      CloseShift(r, c, i + 1);
    }
  }

  lemma NoTokenCons(r: string, c: char)
    requires NoToken(r) && !TokenAt([c] + r, 0)
    ensures NoToken([c] + r)
  {
    forall i: nat | i < |[c] + r| ensures !TokenAt([c] + r, i) {
      if i > 0 {
        CloseShift(r, c, i);
        assert !TokenAt(r, i - 1);
      }
    }
  }

  /** Nothing that is left reads as a token: an opening brace that is kept is followed by a
      closing one or has none ahead. */
  /** A character that starts no token starts none before what is left of the rest. */
  lemma KeptMakesNoToken(s: string, i: nat)
    requires i < |s| && !TokenAt(s, i) && NoToken(RemoveFrom(s, i + 1))
    ensures NoToken([s[i]] + RemoveFrom(s, i + 1))
  {
    var r := RemoveFrom(s, i + 1);
    if s[i] == '{' {
      if CloseFrom(s, i + 1) == -1 {
        NothingWithoutClose(s, i + 1);
      } else {
        assert s[i + 1] == '}';
        assert r[0] == '}';
      }
    }
    TokenHead(r, s[i]);
    NoTokenCons(r, s[i]);
  }

  lemma {:induction false} RemovedFromHasNoToken(s: string, i: nat)
    requires i <= |s|
    ensures NoToken(RemoveFrom(s, i))
    decreases |s| - i
  {
    if i < |s| {
      if TokenAt(s, i) {
        RemoveToken(s, i);
        RemovedFromHasNoToken(s, CloseFrom(s, i + 1) + 1);
      } else {
        RemoveKeeps(s, i);
        RemovedFromHasNoToken(s, i + 1);
        KeptMakesNoToken(s, i);
      }
    }
  }

  lemma {:induction false} NoTokenNothingRemoved(s: string, i: nat)
    requires NoToken(s) && i <= |s|
    ensures RemoveFrom(s, i) == s[i..]
    decreases |s| - i
  {
    if i < |s| {
      NoTokenNothingRemoved(s, i + 1);
    }
  }

  /** Removal leaves no token, changes a text exactly when it has one, and once is enough. */
  lemma RemovalIsComplete(s: string)
    ensures NoToken(RemoveAllTokens(s)) && RemoveAllTokens(RemoveAllTokens(s)) == RemoveAllTokens(s)
    ensures RemoveAllTokens(s) == s <==> NoToken(s)
  {
    RemovedFromHasNoToken(s, 0);
    NoTokenNothingRemoved(RemoveAllTokens(s), 0);
    if NoToken(s) {
      NoTokenNothingRemoved(s, 0);
    }
  }

  lemma {:induction false} CloseBehind(t: string, k: nat, s: string, i: nat)
    requires EndsIn(t, k, s) && i <= |s|
    ensures CloseFrom(t, k + i) == if CloseFrom(s, i) == -1 then -1 else k + CloseFrom(s, i)
    decreases |s| - i
  {
    if i < |s| {
      assert Same(t, s, k, i);
      if s[i] != '}' {
        CloseBehind(t, k, s, i + 1);
      }
    }
  }

  lemma TokenBehind(t: string, k: nat, s: string, i: nat)
    requires EndsIn(t, k, s) && i < |s|
    ensures TokenAt(t, k + i) <==> TokenAt(s, i)
    ensures TokenAt(s, i) ==> CloseFrom(t, k + i + 1) == k + CloseFrom(s, i + 1)
  {
    assert Same(t, s, k, i);
    CloseBehind(t, k, s, i + 1);
  }

  lemma RemoveToken(s: string, i: nat)
    requires i < |s| && TokenAt(s, i)
    ensures RemoveFrom(s, i) == RemoveFrom(s, CloseFrom(s, i + 1) + 1)
  {
  }

  lemma RemoveKeeps(s: string, i: nat)
    requires i < |s| && !TokenAt(s, i)
    ensures RemoveFrom(s, i) == [s[i]] + RemoveFrom(s, i + 1)
  {
  }

  /** Two places at which a token is left out before the same rest. */
  lemma SkipAlike(t: string, p: nat, q: nat, s: string, i: nat, e: nat, rest: string)
    requires p < |t| && i < |s| && TokenAt(t, p) && TokenAt(s, i)
    requires q == CloseFrom(t, p + 1) + 1 && e == CloseFrom(s, i + 1) + 1
    requires RemoveFrom(t, q) == rest && RemoveFrom(s, e) == rest
    ensures RemoveFrom(t, p) == RemoveFrom(s, i)
  {
    RemoveToken(t, p);
    RemoveToken(s, i);
  }

  /** Two places at which the same is kept before the same rest. */
  lemma KeepAlike(t: string, p: nat, s: string, i: nat, rest: string)
    requires p < |t| && i < |s| && t[p] == s[i] && !TokenAt(t, p) && !TokenAt(s, i)
    requires RemoveFrom(t, p + 1) == rest && RemoveFrom(s, i + 1) == rest
    ensures RemoveFrom(t, p) == RemoveFrom(s, i)
  {
    RemoveKeeps(t, p);
    RemoveKeeps(s, i);
  }

  lemma {:induction false} RemoveBehind(t: string, k: nat, s: string, i: nat)
    requires EndsIn(t, k, s) && i <= |s|
    ensures RemoveFrom(t, k + i) == RemoveFrom(s, i)
    decreases |s| - i
  {
    if i == |s| {
      assert RemoveFrom(t, |t|) == "";
    } else {
      TokenBehind(t, k, s, i);
      if TokenAt(s, i) {
        var e := CloseFrom(s, i + 1) + 1;
        RemoveBehind(t, k, s, e);
        SkipAlike(t, k + i, k + e, s, i, e, RemoveFrom(s, e));
      } else {
        assert Same(t, s, k, i);
        RemoveBehind(t, k, s, i + 1);
        KeepAlike(t, k + i, s, i, RemoveFrom(s, i + 1));
      }
    }
  }

  lemma RemoveStep(s: string, i: nat)
    requires i < |s| && s[i] != '{'
    ensures RemoveFrom(s, i) == [s[i]] + RemoveFrom(s, i + 1)
  {
  }

  lemma {:induction false} RemoveUpTo(s: string, i: nat, n: nat)
    requires i <= n <= |s| && forall j | i <= j < n :: s[j] != '{'
    ensures RemoveFrom(s, i) == s[i..n] + RemoveFrom(s, n)
    decreases n - i
  {
    if i < n {
      RemoveUpTo(s, i + 1, n);
      RemoveStep(s, i);
      var rest := RemoveFrom(s, n);
      assert s[i..n] + rest == [s[i]] + (s[i + 1..n] + rest);
    }
  }

  /** Exactly the tokens go: text before the first one stays, and so on behind it. */
  lemma RemovalCutsTokens(a: string, token: string, b: string)
    requires (forall i | 0 <= i < |a| :: a[i] != '{') && token != "" && forall i | 0 <= i < |token| :: token[i] != '}'
    ensures RemoveAllTokens(a + "{" + token + "}" + b) == a + RemoveAllTokens(b)
  {
    var x := a + "{" + token + "}";
    var s := x + b;
    RemoveUpTo(s, 0, |a|);
    assert s[0..|a|] == a;
    assert forall i | |a| + 1 <= i < |a| + 1 + |token| :: s[i] == token[i - |a| - 1];
    assert s[|x| - 1] == '}';
    ConcatEndsIn(x, b);
    RemoveBehind(s, |x|, b, 0);
  }

  // ----- FormatTokens -----

  /** What the regular expressions of rules and the arithmetic on matched numbers do. */
  datatype Engine = Engine(matches: (string, string) -> bool, replace: (string, string, string) -> string,
                           shift: (string, int) -> string, trim: string -> string) {
    function Value(r: Rule, text: string): string {
      shift(replace(r.regex, text, r.replacement), r.offset)
    }
  }

  /** `strings.ReplaceAll` for a non-empty `part`. */
  function ReplaceAllFrom(s: string, part: string, value: string, i: nat): string
    requires part != "" && i <= |s|
    decreases |s| - i
  {
    if i == |s| then ""
    else if MatchAt(s, part, i) then value + ReplaceAllFrom(s, part, value, i + |part|)
    else [s[i]] + ReplaceAllFrom(s, part, value, i + 1)
  }

  function ReplaceToken(token: string, value: string, text: string): string {
    ReplaceAllFrom(text, "{" + token + "}", value, 0)
  }

  /** `tokenRE.FindAllStringSubmatch`. */
  function TokensFrom(s: string, i: nat): seq<string>
    requires i <= |s|
    decreases |s| - i
  {
    if i == |s| then []
    else if TokenAt(s, i) then [s[i + 1..CloseFrom(s, i + 1)]] + TokensFrom(s, CloseFrom(s, i + 1) + 1)
    else TokensFrom(s, i + 1)
  }

  /** The template with every token, in order, replaced by the value of its least matching rule. */
  function Filled(e: Engine, text: string, tokens: seq<string>, template: string, rules: seq<Rule>): string {
    if tokens == [] then template
    else
      var before, token := Filled(e, text, tokens[..|tokens| - 1], template, rules), tokens[|tokens| - 1];
      var best := Best(rules, token, (r: Rule) => e.matches(r.regex, text));
      if best.None? then before else ReplaceToken(token, e.Value(rules[best.value], text), before)
  }

  /** What one token does to the text, by the loop over its sorted rules. */
  lemma FilledStep(e: Engine, text: string, tokens: seq<string>, i: nat, template: string, rules: seq<Rule>)
    requires i < |tokens|
    ensures var before := Filled(e, text, tokens[..i], template, rules);
      var m := FirstMatch(StableSort(Group(rules, tokens[i])), (r: Rule) => e.matches(r.regex, text));
      Filled(e, text, tokens[..i + 1], template, rules) ==
        if m.None? then before else ReplaceToken(m.value.token, e.Value(m.value, text), before)
  {
    var matches := (r: Rule) => e.matches(r.regex, text);
    assert tokens[..i + 1][..i] == tokens[..i];
    BestOfSorted(rules, tokens[i], matches);
    BestIsLeast(rules, tokens[i], matches);
  }

  method FirstMatching(e: Engine, text: string, group: seq<Rule>) returns (r: Option<Rule>)
    ensures r == FirstMatch(group, (r: Rule) => e.matches(r.regex, text))
  {
    ghost var matches := (r: Rule) => e.matches(r.regex, text);
    for j := 0 to |group|
      invariant FirstMatch(group, matches) == FirstMatch(group[j..], matches)
    {
      if e.matches(group[j].regex, text) {
        return Some(group[j]);
      }
    }
    r := None;
  }

  /** Every token takes the value of its least matching rule; the text itself is returned if
      the episode stays open. */
  method FormatTokens(e: Engine, text: string, template: string, rules: seq<Rule>) returns (r: string)
    ensures var filled := Filled(e, text, TokensFrom(template, 0), template, rules);
      r == if Index(filled, "{episode}") >= 0 then text else e.trim(RemoveAllTokens(filled))
  {
    var formatted := template;
    var byToken := RulesByToken(rules);
    var tokens := TokensFrom(template, 0);
    assert tokens[..0] == [];
    for i := 0 to |tokens|
      invariant formatted == Filled(e, text, tokens[..i], template, rules)
    {
      FilledStep(e, text, tokens, i, template, rules);
      var rule := FirstMatching(e, text, if tokens[i] in byToken then byToken[tokens[i]] else []);
      if rule.Some? {
        formatted := ReplaceToken(rule.value.token, e.Value(rule.value, text), formatted);
      }
    }
    assert tokens[..|tokens|] == tokens;
    if Index(formatted, "{episode}") >= 0 {
      return text;
    }
    r := e.trim(RemoveAllTokens(formatted));
  }
}
