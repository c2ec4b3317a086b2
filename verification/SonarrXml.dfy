/** The streaming title rewriter for Sonarr feeds (internal/format/sonarr_xml.go): two passes
    over the token stream with depth counters and an element stack. */
module SonarrXml {
  /** Local element names, told apart as far as the rewriter compares them. */
  datatype Local = Item | Channel | Title | Description | Other(local: string)

  datatype Name = Name(space: string, local: Local)

  /** Tokens of the XML decoder; `Raw` stands for comments, directives and the like. */
  datatype Token = Start(name: Name, attrs: string) | Text(text: string) | End(name: Name) | Raw(raw: string)

  /** The title formatter: the new title for a title and a description, the old title where
      it does not apply. */
  type Formatter = (string, string) -> string

  /** The decoder delivers only streams whose tags are closed in order. */
  ghost predicate Nested(open: seq<Name>, tokens: seq<Token>)
    decreases |tokens|
  {
    if tokens == [] then open == []
    else
      match tokens[0]
      case Start(name, _) => Nested(open + [name], tokens[1..])
      case End(name) => open != [] && open[|open| - 1] == name && Nested(open[..|open| - 1], tokens[1..])
      case _ => Nested(open, tokens[1..])
  }

  predicate OpensItem(elements: seq<Name>, name: Name) {
    name.local == Item && |elements| > 0 && elements[|elements| - 1].local == Channel
  }

  predicate ClosesItem(elements: seq<Name>, name: Name) {
    name.local == Item && |elements| > 1 && elements[|elements| - 2].local == Channel
  }

  /** How many channel items open in the rest of a stream. */
  ghost function ItemsAhead(open: seq<Name>, tokens: seq<Token>): nat
    decreases |tokens|
  {
    if tokens == [] then 0
    else
      match tokens[0]
      case Start(name, _) => (if OpensItem(open, name) then 1 else 0) + ItemsAhead(open + [name], tokens[1..])
      case End(name) => if open == [] then 0 else ItemsAhead(open[..|open| - 1], tokens[1..])
      case _ => ItemsAhead(open, tokens[1..])
  }

  /** The rest of the stream closes the open elements, and `n` more channel items open in it. */
  ghost predicate Ahead(open: seq<Name>, tokens: seq<Token>, n: int)
    decreases |tokens|
  {
    if tokens == [] then open == [] && n == 0
    else
      match tokens[0]
      case Start(name, _) => Ahead(open + [name], tokens[1..], if OpensItem(open, name) then n - 1 else n)
      case End(name) => open != [] && open[|open| - 1] == name && Ahead(open[..|open| - 1], tokens[1..], n)
      case _ => Ahead(open, tokens[1..], n)
  }

  lemma {:induction false} NestedIsAhead(open: seq<Name>, tokens: seq<Token>)
    requires Nested(open, tokens)
    ensures Ahead(open, tokens, ItemsAhead(open, tokens))
    decreases |tokens|
  {
    if tokens != [] {
      match tokens[0]
      case Start(name, _) => NestedIsAhead(open + [name], tokens[1..]);
      case End(name) => NestedIsAhead(open[..|open| - 1], tokens[1..]);
      case _ => NestedIsAhead(open, tokens[1..]);
    }
  }

  lemma {:induction false} AheadIsNonNegative(open: seq<Name>, tokens: seq<Token>, n: int)
    requires Ahead(open, tokens, n)
    ensures n >= 0
    decreases |tokens|
  {
    if tokens != [] {
      match tokens[0]
      case Start(name, _) => AheadIsNonNegative(open + [name], tokens[1..], if OpensItem(open, name) then n - 1 else n);
      case End(name) => AheadIsNonNegative(open[..|open| - 1], tokens[1..], n);
      case _ => AheadIsNonNegative(open, tokens[1..], n);
    }
  }

  /** The element stack behind a token. */
  function StackAfter(open: seq<Name>, token: Token): seq<Name> {
    match token
    case Start(name, _) => open + [name]
    case End(_) => if open == [] then [] else open[..|open| - 1]
    case _ => open
  }

  lemma AheadNext(open: seq<Name>, tokens: seq<Token>, i: nat, n: int)
    requires i < |tokens| && Ahead(open, tokens[i..], n)
    ensures Ahead(StackAfter(open, tokens[i]), tokens[i + 1..],
                  if tokens[i].Start? && OpensItem(open, tokens[i].name) then n - 1 else n)
    ensures tokens[i].End? ==> open != []
  {
    assert tokens[i..][0] == tokens[i] && tokens[i..][1..] == tokens[i + 1..];
  }

  // ----- First pass -----

  /** Variables of the first pass; `items` holds one description per channel item. */
  datatype Reading = Reading(elements: seq<Name>, items: seq<string>, itemDepth: int, elementDepth: int,
                             descriptionDepth: int)

  function ReadStep(st: Reading, token: Token): Reading {
    match token
    case Start(name, _) =>
      var item := OpensItem(st.elements, name);
      var itemDepth := if item then st.itemDepth + 1 else st.itemDepth;
      var elementDepth := if item then 1 else if itemDepth > 0 then st.elementDepth + 1 else st.elementDepth;
      var description := itemDepth > 0 && elementDepth == 2 && name.local == Description;
      Reading(st.elements + [name], if item then st.items + [""] else st.items, itemDepth, elementDepth,
              if description then st.descriptionDepth + 1 else st.descriptionDepth)
    case Text(text) =>
      if st.descriptionDepth > 0 && st.items != [] then
        st.(items := st.items[|st.items| - 1 := st.items[|st.items| - 1] + text])
      else st
    case End(name) =>
      var descriptionDepth := if name.local == Description && st.descriptionDepth > 0 then st.descriptionDepth - 1
                              else st.descriptionDepth;
      var item := ClosesItem(st.elements, name);
      Reading(if st.elements == [] then [] else st.elements[..|st.elements| - 1], st.items,
              if item then st.itemDepth - 1 else st.itemDepth,
              if item then 0 else if st.itemDepth > 0 then st.elementDepth - 1 else st.elementDepth,
              descriptionDepth)
    case Raw(_) => st
  }

  function Read(st: Reading, tokens: seq<Token>): Reading
    decreases |tokens|
  {
    if tokens == [] then st else Read(ReadStep(st, tokens[0]), tokens[1..])
  }

  const READING_STARTS := Reading([], [], 0, 0, 0)

  /** The variables behind the first `n` tokens. */
  function ReadTo(tokens: seq<Token>, n: nat): Reading
    requires n <= |tokens|
  {
    if n == 0 then READING_STARTS else ReadStep(ReadTo(tokens, n - 1), tokens[n - 1])
  }

  lemma {:induction false} ReadToIs(tokens: seq<Token>, n: nat)
    requires n <= |tokens|
    ensures Read(READING_STARTS, tokens) == Read(ReadTo(tokens, n), tokens[n..])
  {
    if n == 0 {
      assert tokens[0..] == tokens;
    } else {
      ReadToIs(tokens, n - 1);
      assert tokens[n - 1..][0] == tokens[n - 1] && tokens[n - 1..][1..] == tokens[n..];
    }
  }

  /** The stack and the items agree with the rest of the stream. */
  ghost predicate ReadingOk(st: Reading, rest: seq<Token>, total: int) {
    && Ahead(st.elements, rest, total - |st.items|)
    && st.descriptionDepth >= 0 && (st.descriptionDepth > 0 || st.itemDepth > 0 ==> st.items != [])
  }

  lemma {:induction false} ReadToOk(tokens: seq<Token>, n: nat)
    requires Nested([], tokens) && n <= |tokens|
    ensures ReadingOk(ReadTo(tokens, n), tokens[n..], ItemsAhead([], tokens))
  {
    if n == 0 {
      NestedIsAhead([], tokens);
      assert tokens[0..] == tokens;
    } else {
      ReadToOk(tokens, n - 1);
      ReadStepOk(ReadTo(tokens, n - 1), tokens, n - 1, ItemsAhead([], tokens));
    }
  }

  lemma ReadStepOk(st: Reading, tokens: seq<Token>, i: nat, total: int)
    requires i < |tokens| && ReadingOk(st, tokens[i..], total)
    ensures ReadingOk(ReadStep(st, tokens[i]), tokens[i + 1..], total)
  {
    AheadNext(st.elements, tokens, i, total - |st.items|);
    assert ReadStep(st, tokens[i]).elements == StackAfter(st.elements, tokens[i]);
  }

  /** What token `i` meets: an element to close, an item to add text to. */
  ghost predicate ReadInRange(tokens: seq<Token>, i: nat)
    requires i < |tokens|
  {
    var st := ReadTo(tokens, i);
    && (tokens[i].End? ==> st.elements != []) && (st.descriptionDepth > 0 ==> st.items != [])
  }

  lemma NestedReadsInRange(tokens: seq<Token>, i: nat)
    requires Nested([], tokens) && i < |tokens|
    ensures ReadInRange(tokens, i)
  {
    ReadToOk(tokens, i);
    AheadNext(ReadTo(tokens, i).elements, tokens, i, ItemsAhead([], tokens) - |ReadTo(tokens, i).items|);
  }

  method ReadItems(tokens: seq<Token>) returns (items: seq<string>)
    requires Nested([], tokens)
    ensures items == Read(READING_STARTS, tokens).items
    ensures |items| == ItemsAhead([], tokens)
  {
    forall i: nat | i < |tokens| ensures ReadInRange(tokens, i) {
      NestedReadsInRange(tokens, i);
    }
    items := ReadTokens(tokens);
    ReadToIs(tokens, |tokens|);
    ReadToOk(tokens, |tokens|);
  }

  /** The loop of the first pass. */
  method ReadTokens(tokens: seq<Token>) returns (items: seq<string>)
    requires forall i: nat | i < |tokens| :: ReadInRange(tokens, i)
    ensures items == ReadTo(tokens, |tokens|).items
  {
    items := [];
    var elements: seq<Name> := [];
    var itemDepth, elementDepth, descriptionDepth := 0, 0, 0;
    for i := 0 to |tokens|
      invariant Reading(elements, items, itemDepth, elementDepth, descriptionDepth) == ReadTo(tokens, i)
    {
      assert ReadInRange(tokens, i);
      match tokens[i] {
        case Start(name, _) =>
          if OpensItem(elements, name) {
            itemDepth := itemDepth + 1;
            elementDepth := 1;
            items := items + [""];
          } else if itemDepth > 0 {
            elementDepth := elementDepth + 1;
          }
          if itemDepth > 0 && elementDepth == 2 && name.local == Description {
            descriptionDepth := descriptionDepth + 1;
          }
          elements := elements + [name];
        case Text(text) =>
          if descriptionDepth > 0 {
            items := items[|items| - 1 := items[|items| - 1] + text];
          }
        case End(name) =>
          if name.local == Description && descriptionDepth > 0 {
            descriptionDepth := descriptionDepth - 1;
          }
          if ClosesItem(elements, name) {
            itemDepth := itemDepth - 1;
            elementDepth := 0;
          } else if itemDepth > 0 {
            elementDepth := elementDepth - 1;
          }
          elements := elements[..|elements| - 1];
        case Raw(_) =>
      }
    }
  }

  // ----- Second pass -----

  /** Variables of the second pass. */
  datatype Rewriting = Rewriting(
    elements: seq<Name>, output: seq<Token>, itemIndex: int, itemDepth: int, elementDepth: int, titleDepth: int,
    itemTitle: string, titleStart: Token, replacing: bool, changed: bool)

  function WriteStep(fmt: Formatter, items: seq<string>, st: Rewriting, token: Token): Rewriting {
    match token
    case Start(name, _) =>
      var item := OpensItem(st.elements, name);
      var itemDepth := if item then st.itemDepth + 1 else st.itemDepth;
      var elementDepth := if item then 1 else if itemDepth > 0 then st.elementDepth + 1 else st.elementDepth;
      var next := st.(elements := st.elements + [name], itemDepth := itemDepth, elementDepth := elementDepth,
                      itemIndex := if item then st.itemIndex + 1 else st.itemIndex);
      if itemDepth > 0 && elementDepth == 2 && name.local == Title && st.titleDepth == 0 then
        next.(titleDepth := 1, titleStart := token, replacing := true)
      else if st.replacing then next
      else next.(output := st.output + [token])
    case Text(text) =>
      if st.titleDepth > 0 then st.(itemTitle := st.itemTitle + text)
      else if st.replacing then st
      else st.(output := st.output + [token])
    case End(name) =>
      var below := if st.elements == [] then [] else st.elements[..|st.elements| - 1];
      if st.titleDepth > 0 && name.local == Title then
        var formatted := fmt(st.itemTitle, if 0 <= st.itemIndex < |items| then items[st.itemIndex] else "");
        st.(elements := below, output := st.output + [st.titleStart, Text(formatted), token],
            titleDepth := st.titleDepth - 1, elementDepth := st.elementDepth - 1, replacing := false,
            changed := st.changed || formatted != st.itemTitle)
      else
        var item := ClosesItem(st.elements, name);
        var next := st.(elements := below,
                        itemDepth := if item then st.itemDepth - 1 else st.itemDepth,
                        elementDepth := if item then 0 else if st.itemDepth > 0 then st.elementDepth - 1
                                                            else st.elementDepth,
                        itemTitle := if item then "" else st.itemTitle);
        if st.replacing then next else next.(output := st.output + [token])
    case Raw(_) =>
      if st.replacing then st else st.(output := st.output + [token])
  }

  function Write(fmt: Formatter, items: seq<string>, st: Rewriting, tokens: seq<Token>): Rewriting
    decreases |tokens|
  {
    if tokens == [] then st else Write(fmt, items, WriteStep(fmt, items, st, tokens[0]), tokens[1..])
  }

  /** The variables behind the first `n` tokens. */
  function WriteTo(fmt: Formatter, items: seq<string>, tokens: seq<Token>, n: nat): Rewriting
    requires n <= |tokens|
  {
    if n == 0 then WRITING_STARTS else WriteStep(fmt, items, WriteTo(fmt, items, tokens, n - 1), tokens[n - 1])
  }

  lemma {:induction false} WriteToIs(fmt: Formatter, items: seq<string>, tokens: seq<Token>, n: nat)
    requires n <= |tokens|
    ensures Write(fmt, items, WRITING_STARTS, tokens) == Write(fmt, items, WriteTo(fmt, items, tokens, n), tokens[n..])
  {
    if n == 0 {
      assert tokens[0..] == tokens;
    } else {
      WriteToIs(fmt, items, tokens, n - 1);
      assert tokens[n - 1..][0] == tokens[n - 1] && tokens[n - 1..][1..] == tokens[n..];
    }
  }

  const WRITING_STARTS := Rewriting([], [], -1, 0, 0, 0, "", Raw(""), false, false)

  /** What the rewriter returns: the rewritten stream if a title changed, else the input. */
  function Rewrite(fmt: Formatter, tokens: seq<Token>): seq<Token> {
    var done := Write(fmt, Read(READING_STARTS, tokens).items, WRITING_STARTS, tokens);
    if done.changed then done.output else tokens
  }

  ghost predicate WritingOk(st: Rewriting, rest: seq<Token>, total: int) {
    && Ahead(st.elements, rest, total - st.itemIndex - 1)
    && st.itemIndex >= -1 && (st.itemDepth > 0 || st.titleDepth > 0 ==> st.itemIndex >= 0)
    && 0 <= st.titleDepth <= 1
  }

  lemma {:induction false} WriteToOk(fmt: Formatter, items: seq<string>, tokens: seq<Token>, n: nat)
    requires Nested([], tokens) && n <= |tokens|
    ensures WritingOk(WriteTo(fmt, items, tokens, n), tokens[n..], ItemsAhead([], tokens))
  {
    if n == 0 {
      NestedIsAhead([], tokens);
      assert tokens[0..] == tokens;
    } else {
      WriteToOk(fmt, items, tokens, n - 1);
      WriteStepOk(fmt, items, WriteTo(fmt, items, tokens, n - 1), tokens, n - 1, ItemsAhead([], tokens));
    }
  }

  lemma WritingInRange(st: Rewriting, tokens: seq<Token>, i: nat, total: int)
    requires i < |tokens| && WritingOk(st, tokens[i..], total)
    ensures st.itemIndex < total && (tokens[i].End? ==> st.elements != [])
  {
    AheadIsNonNegative(st.elements, tokens[i..], total - st.itemIndex - 1);
    AheadNext(st.elements, tokens, i, total - st.itemIndex - 1);
  }

  /** What a step does to the stack and the counters. */
  lemma WriteStepCounters(fmt: Formatter, items: seq<string>, st: Rewriting, token: Token)
    requires st.itemIndex >= -1 && (st.itemDepth > 0 || st.titleDepth > 0 ==> st.itemIndex >= 0)
    requires 0 <= st.titleDepth <= 1
    ensures var next := WriteStep(fmt, items, st, token);
      && next.elements == StackAfter(st.elements, token) && 0 <= next.titleDepth <= 1
      && next.itemIndex == st.itemIndex + (if token.Start? && OpensItem(st.elements, token.name) then 1 else 0)
      && (next.itemDepth > 0 || next.titleDepth > 0 ==> next.itemIndex >= 0)
  {
    match token
    case Start(name, _) =>
    case Text(_) =>
    case End(name) =>
    case Raw(_) =>
  }

  lemma WriteStepOk(fmt: Formatter, items: seq<string>, st: Rewriting, tokens: seq<Token>, i: nat, total: int)
    requires i < |tokens| && WritingOk(st, tokens[i..], total)
    ensures WritingOk(WriteStep(fmt, items, st, tokens[i]), tokens[i + 1..], total)
  {
    AheadNext(st.elements, tokens, i, total - st.itemIndex - 1);
    WriteStepCounters(fmt, items, st, tokens[i]);
  }

  /** What token `i` meets: an element to close, a description for the title. */
  ghost predicate WriteInRange(fmt: Formatter, items: seq<string>, tokens: seq<Token>, i: nat)
    requires i < |tokens|
  {
    var st := WriteTo(fmt, items, tokens, i);
    && (tokens[i].End? ==> st.elements != []) && (st.titleDepth > 0 ==> 0 <= st.itemIndex < |items|)
  }

  lemma NestedWritesInRange(fmt: Formatter, items: seq<string>, tokens: seq<Token>, i: nat)
    requires Nested([], tokens) && i < |tokens| && |items| == ItemsAhead([], tokens)
    ensures WriteInRange(fmt, items, tokens, i)
  {
    WriteToOk(fmt, items, tokens, i);
    WritingInRange(WriteTo(fmt, items, tokens, i), tokens, i, |items|);
  }

  /** On every well-nested stream the passes stay aligned: no description is looked up out of
      range and no element is taken off an empty stack. */
  method RewriteTitles(tokens: seq<Token>, fmt: Formatter) returns (r: seq<Token>)
    requires Nested([], tokens)
    ensures r == Rewrite(fmt, tokens)
  {
    var items := ReadItems(tokens);
    forall i: nat | i < |tokens| ensures WriteInRange(fmt, items, tokens, i) {
      NestedWritesInRange(fmt, items, tokens, i);
    }
    var output, changed := WriteTokens(tokens, fmt, items);
    WriteToIs(fmt, items, tokens, |tokens|);
    r := if changed then output else tokens;
  }

  /** The loop of the second pass. */
  method WriteTokens(tokens: seq<Token>, fmt: Formatter, items: seq<string>) returns (output: seq<Token>, changed: bool)
    requires forall i: nat | i < |tokens| :: WriteInRange(fmt, items, tokens, i)
    ensures var st := WriteTo(fmt, items, tokens, |tokens|); output == st.output && changed == st.changed
  {
    output, changed := [], false;
    var itemDepth, elementDepth, titleDepth := 0, 0, 0;
    var itemIndex := -1;
    var itemTitle := "";
    var titleStart := Raw("");
    var replacing := false;
    var elements: seq<Name> := [];
    for i := 0 to |tokens|
      invariant Rewriting(elements, output, itemIndex, itemDepth, elementDepth, titleDepth, itemTitle, titleStart,
                          replacing, changed)
             == WriteTo(fmt, items, tokens, i)
    {
      assert WriteInRange(fmt, items, tokens, i);
      match tokens[i] {
        case Start(name, _) =>
          if OpensItem(elements, name) {
            itemDepth := itemDepth + 1;
            elementDepth := 1;
            itemIndex := itemIndex + 1;
          } else if itemDepth > 0 {
            elementDepth := elementDepth + 1;
          }
          elements := elements + [name];
          if itemDepth > 0 && elementDepth == 2 && name.local == Title && titleDepth == 0 {
            titleDepth := titleDepth + 1;
            titleStart, replacing := tokens[i], true;
            continue;
          }
        case Text(text) =>
          if titleDepth > 0 {
            itemTitle := itemTitle + text;
            continue;
          }
        case End(name) =>
          if titleDepth > 0 && name.local == Title {
            var formatted := fmt(itemTitle, items[itemIndex]);
            changed := changed || formatted != itemTitle;
            output := output + [titleStart, Text(formatted), tokens[i]];
            titleDepth := titleDepth - 1;
            elementDepth := elementDepth - 1;
            replacing := false;
            elements := elements[..|elements| - 1];
            continue;
          }
          if ClosesItem(elements, name) {
            itemDepth := itemDepth - 1;
            elementDepth := 0;
            itemTitle := "";
          } else if itemDepth > 0 {
            elementDepth := elementDepth - 1;
          }
          elements := elements[..|elements| - 1];
        case Raw(_) =>
      }
      if replacing {
        continue;
      }
      output := output + [tokens[i]];
    }
  }
}
