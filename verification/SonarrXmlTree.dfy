/** The streaming rewriter refines a map over the element tree. */
module SonarrXmlTree {
  import opened SonarrXml

  /** Children of an element, in order: first node and the nodes after it. */
  datatype Forest =
    | Nil
    | Element(name: Name, attrs: string, children: Forest, rest: Forest)
    | TextLeaf(text: string, rest: Forest)
    | RawLeaf(raw: string, rest: Forest)

  /** The token stream of a forest. */
  function Tokens(f: Forest): seq<Token> {
    match f
    case Nil => []
    case Element(name, attrs, children, rest) =>
      [Start(name, attrs)] + (Tokens(children) + ([End(name)] + Tokens(rest)))
    case TextLeaf(text, rest) => [Text(text)] + Tokens(rest)
    case RawLeaf(raw, rest) => [Raw(raw)] + Tokens(rest)
  }

  /** All text below, in order. */
  function DeepText(f: Forest): string {
    match f
    case Nil => ""
    case Element(_, _, children, rest) => DeepText(children) + DeepText(rest)
    case TextLeaf(text, rest) => text + DeepText(rest)
    case RawLeaf(_, rest) => DeepText(rest)
  }

  predicate NoneNamed(f: Forest, local: Local) {
    match f
    case Nil => true
    case Element(name, _, children, rest) => name.local != local && NoneNamed(children, local) && NoneNamed(rest, local)
    case TextLeaf(_, rest) => NoneNamed(rest, local)
    case RawLeaf(_, rest) => NoneNamed(rest, local)
  }

  /** No item of a channel occurs; `inChannel` says that the nodes stand in a channel. */
  predicate NoChannelItem(f: Forest, inChannel: bool) {
    match f
    case Nil => true
    case Element(name, _, children, rest) =>
      !(inChannel && name.local == Item) && NoChannelItem(children, name.local == Channel) &&
        NoChannelItem(rest, inChannel)
    case TextLeaf(_, rest) => NoChannelItem(rest, inChannel)
    case RawLeaf(_, rest) => NoChannelItem(rest, inChannel)
  }

  /** Content of a channel item: titles hold no titles, descriptions no descriptions, and
      nothing in it is a channel item again. */
  predicate ItemOk(f: Forest) {
    match f
    case Nil => true
    case Element(name, _, children, rest) =>
      && NoChannelItem(children, name.local == Channel)
      && (name.local == Title ==> NoneNamed(children, Title))
      && (name.local == Description ==> NoneNamed(children, Description))
      && ItemOk(rest)
    case TextLeaf(_, rest) => ItemOk(rest)
    case RawLeaf(_, rest) => ItemOk(rest)
  }

  predicate DocumentOk(f: Forest, inChannel: bool) {
    match f
    case Nil => true
    case Element(name, _, children, rest) =>
      && (if inChannel && name.local == Item then ItemOk(children) else DocumentOk(children, name.local == Channel))
      && DocumentOk(rest, inChannel)
    case TextLeaf(_, rest) => DocumentOk(rest, inChannel)
    case RawLeaf(_, rest) => DocumentOk(rest, inChannel)
  }

  /** The description of an item: the text of its direct description elements. */
  function DescriptionOf(f: Forest): string {
    match f
    case Nil => ""
    case Element(name, _, children, rest) =>
      (if name.local == Description then DeepText(children) else "") + DescriptionOf(rest)
    case TextLeaf(_, rest) => DescriptionOf(rest)
    case RawLeaf(_, rest) => DescriptionOf(rest)
  }

  function Descriptions(f: Forest, inChannel: bool): seq<string> {
    match f
    case Nil => []
    case Element(name, _, children, rest) =>
      (if inChannel && name.local == Item then [DescriptionOf(children)]
       else Descriptions(children, name.local == Channel))
      + Descriptions(rest, inChannel)
    case TextLeaf(_, rest) => Descriptions(rest, inChannel)
    case RawLeaf(_, rest) => Descriptions(rest, inChannel)
  }

  /** Direct titles of an item go through the formatter, everything else stays. The text
      of a title comes with that of the titles before it in the item, `before`. */
  function MapItem(fmt: Formatter, f: Forest, description: string, before: string): seq<Token> {
    match f
    case Nil => []
    case Element(name, attrs, children, rest) =>
      if name.local == Title then
        var text := before + DeepText(children);
        [Start(name, attrs), Text(fmt(text, description)), End(name)] + MapItem(fmt, rest, description, text)
      else
        Tokens(Element(name, attrs, children, Nil)) + MapItem(fmt, rest, description, before)
    case TextLeaf(text, rest) => [Text(text)] + MapItem(fmt, rest, description, before)
    case RawLeaf(raw, rest) => [Raw(raw)] + MapItem(fmt, rest, description, before)
  }

  function MapDocument(fmt: Formatter, f: Forest, inChannel: bool): seq<Token> {
    match f
    case Nil => []
    case Element(name, attrs, children, rest) =>
      [Start(name, attrs)]
      + (if inChannel && name.local == Item then MapItem(fmt, children, DescriptionOf(children), "")
         else MapDocument(fmt, children, name.local == Channel))
      + [End(name)] + MapDocument(fmt, rest, inChannel)
    case TextLeaf(text, rest) => [Text(text)] + MapDocument(fmt, rest, inChannel)
    case RawLeaf(raw, rest) => [Raw(raw)] + MapDocument(fmt, rest, inChannel)
  }

  /** The formatter changes some direct title of the item. */
  function ItemChanges(fmt: Formatter, f: Forest, description: string, before: string): bool {
    match f
    case Nil => false
    case Element(name, _, children, rest) =>
      if name.local == Title then
        var text := before + DeepText(children);
        fmt(text, description) != text || ItemChanges(fmt, rest, description, text)
      else ItemChanges(fmt, rest, description, before)
    case TextLeaf(_, rest) => ItemChanges(fmt, rest, description, before)
    case RawLeaf(_, rest) => ItemChanges(fmt, rest, description, before)
  }

  function DocumentChanges(fmt: Formatter, f: Forest, inChannel: bool): bool {
    match f
    case Nil => false
    case Element(name, _, children, rest) =>
      || (if inChannel && name.local == Item then ItemChanges(fmt, children, DescriptionOf(children), "")
          else DocumentChanges(fmt, children, name.local == Channel))
      || DocumentChanges(fmt, rest, inChannel)
    case TextLeaf(_, rest) => DocumentChanges(fmt, rest, inChannel)
    case RawLeaf(_, rest) => DocumentChanges(fmt, rest, inChannel)
  }

  // ----- The passes run over concatenations piece by piece -----

  lemma Joins<T>(out: seq<T>, a: seq<T>, b: seq<T>)
    ensures (out + a) + b == out + (a + b)
    ensures out + [] == out
  {
  }

  lemma {:induction false} ReadConcat(st: Reading, a: seq<Token>, b: seq<Token>)
    ensures Read(st, a + b) == Read(Read(st, a), b)
    decreases |a|
  {
    if a == [] {
      assert a + b == b;
    } else {
      assert (a + b)[1..] == a[1..] + b;
      ReadConcat(ReadStep(st, a[0]), a[1..], b);
    }
  }

  lemma {:induction false} WriteConcat(fmt: Formatter, items: seq<string>, st: Rewriting, a: seq<Token>, b: seq<Token>)
    ensures Write(fmt, items, st, a + b) == Write(fmt, items, Write(fmt, items, st, a), b)
    decreases |a|
  {
    if a == [] {
      assert a + b == b;
    } else {
      assert (a + b)[1..] == a[1..] + b;
      WriteConcat(fmt, items, WriteStep(fmt, items, st, a[0]), a[1..], b);
    }
  }

  lemma ReadElement(st: Reading, name: Name, attrs: string, inner: seq<Token>, rest: seq<Token>)
    ensures Read(st, [Start(name, attrs)] + (inner + ([End(name)] + rest)))
         == Read(ReadStep(Read(ReadStep(st, Start(name, attrs)), inner), End(name)), rest)
  {
    var tail := [End(name)] + rest;
    var all := [Start(name, attrs)] + (inner + tail);
    assert all[1..] == inner + tail;
    ReadConcat(ReadStep(st, Start(name, attrs)), inner, tail);
    assert tail[1..] == rest;
  }

  lemma ReadLeaf(st: Reading, t: Token, rest: seq<Token>)
    ensures Read(st, [t] + rest) == Read(ReadStep(st, t), rest)
  {
    assert ([t] + rest)[1..] == rest;
  }

  lemma WriteElement(fmt: Formatter, items: seq<string>, st: Rewriting, name: Name, attrs: string, inner: seq<Token>,
                     rest: seq<Token>)
    ensures Write(fmt, items, st, [Start(name, attrs)] + (inner + ([End(name)] + rest)))
         == Write(fmt, items,
                  WriteStep(fmt, items, Write(fmt, items, WriteStep(fmt, items, st, Start(name, attrs)), inner),
                            End(name)),
                  rest)
  {
    var tail := [End(name)] + rest;
    var all := [Start(name, attrs)] + (inner + tail);
    assert all[1..] == inner + tail;
    WriteConcat(fmt, items, WriteStep(fmt, items, st, Start(name, attrs)), inner, tail);
    assert tail[1..] == rest;
  }

  lemma WriteLeaf(fmt: Formatter, items: seq<string>, st: Rewriting, t: Token, rest: seq<Token>)
    ensures Write(fmt, items, st, [t] + rest) == Write(fmt, items, WriteStep(fmt, items, st, t), rest)
  {
    assert ([t] + rest)[1..] == rest;
  }

  lemma JoinsElement<T>(out: seq<T>, opening: seq<T>, inner: seq<T>, closing: seq<T>, rest: seq<T>)
    ensures (((out + opening) + inner) + closing) + rest == out + (opening + (inner + (closing + rest)))
    ensures (opening + inner + closing) + rest == opening + (inner + (closing + rest))
  {
  }

  // ----- First pass -----

  predicate InChannel(elements: seq<Name>) {
    |elements| > 0 && elements[|elements| - 1].local == Channel
  }

  function AddText(items: seq<string>, text: string): seq<string>
    requires items != []
  {
    items[|items| - 1 := items[|items| - 1] + text]
  }

  lemma AddTextTwice(items: seq<string>, a: string, b: string)
    requires items != []
    ensures AddText(AddText(items, a), b) == AddText(items, a + b)
    ensures AddText(items, "") == items
  {
    var last := items[|items| - 1];
    assert (last + a) + b == last + (a + b);
    assert last + "" == last;
  }

  /** An element below a child of an item leaves the first pass as it was, but for the items. */
  lemma CloseReadBelow(st: Reading, name: Name, attrs: string, noted: seq<string>)
    requires st.itemDepth == 1 && st.elementDepth >= 2 && st.descriptionDepth >= 0
    requires !OpensItem(st.elements, name) && (st.descriptionDepth > 0 ==> name.local != Description)
    ensures var inside := st.(elements := st.elements + [name], elementDepth := st.elementDepth + 1);
      ReadStep(st, Start(name, attrs)) == inside && ReadStep(inside.(items := noted), End(name)) == st.(items := noted)
  {
    assert (st.elements + [name])[..|st.elements|] == st.elements;
  }

  /** Below a child of an item only the text of a description is noted. */
  lemma {:induction false} ReadBelow(st: Reading, f: Forest)
    requires st.itemDepth == 1 && st.elementDepth >= 2 && st.items != [] && st.descriptionDepth >= 0
    requires NoChannelItem(f, InChannel(st.elements)) && (st.descriptionDepth > 0 ==> NoneNamed(f, Description))
    ensures Read(st, Tokens(f)) == if st.descriptionDepth > 0 then st.(items := AddText(st.items, DeepText(f))) else st
    decreases f
  {
    match f
    case Nil => AddTextTwice(st.items, "", "");
    case Element(name, attrs, children, rest) =>
      ReadElement(st, name, attrs, Tokens(children), Tokens(rest));
      var after := if st.descriptionDepth > 0 then st.(items := AddText(st.items, DeepText(children))) else st;
      CloseReadBelow(st, name, attrs, after.items);
      ReadBelow(st.(elements := st.elements + [name], elementDepth := st.elementDepth + 1), children);
      ReadBelow(after, rest);
      AddTextTwice(st.items, DeepText(children), DeepText(rest));
    case TextLeaf(text, rest) =>
      ReadLeaf(st, Text(text), Tokens(rest));
      ReadBelow(ReadStep(st, Text(text)), rest);
      AddTextTwice(st.items, text, DeepText(rest));
    case RawLeaf(raw, rest) =>
      ReadLeaf(st, Raw(raw), Tokens(rest));
      ReadBelow(st, rest);
  }

  /** An element within an item leaves the first pass as it was, but for the items. */
  lemma CloseRead(st: Reading, name: Name, attrs: string, noted: seq<string>)
    requires st.itemDepth == 1 && st.elementDepth == 1 && st.descriptionDepth == 0 && !InChannel(st.elements)
    ensures var inside := ReadStep(st, Start(name, attrs));
      && inside == Reading(st.elements + [name], st.items, 1, 2, if name.local == Description then 1 else 0)
      && ReadStep(inside.(items := noted), End(name)) == st.(items := noted)
  {
    assert (st.elements + [name])[..|st.elements|] == st.elements;
  }

  /** Within an item the first pass collects its description. */
  lemma {:induction false} ReadInItem(st: Reading, f: Forest)
    requires st.itemDepth == 1 && st.elementDepth == 1 && st.items != [] && st.descriptionDepth == 0
    requires ItemOk(f) && !InChannel(st.elements)
    ensures Read(st, Tokens(f)) == st.(items := AddText(st.items, DescriptionOf(f)))
    decreases f
  {
    match f
    case Nil => AddTextTwice(st.items, "", "");
    case Element(name, attrs, children, rest) =>
      ReadElement(st, name, attrs, Tokens(children), Tokens(rest));
      var own := if name.local == Description then DeepText(children) else "";
      var after := st.(items := AddText(st.items, own));
      assert ReadStep(Read(ReadStep(st, Start(name, attrs)), Tokens(children)), End(name)) == after by {
        CloseRead(st, name, attrs, after.items);
        ReadBelow(ReadStep(st, Start(name, attrs)), children);
        AddTextTwice(st.items, own, "");
      }
      AddTextTwice(st.items, own, DescriptionOf(rest));
      ReadInItem(after, rest);
    case TextLeaf(text, rest) =>
      ReadLeaf(st, Text(text), Tokens(rest));
      ReadInItem(st, rest);
    case RawLeaf(raw, rest) =>
      ReadLeaf(st, Raw(raw), Tokens(rest));
      ReadInItem(st, rest);
  }

  /** Outside items the first pass appends the descriptions of the items it meets. */
  lemma {:induction false} ReadDocument(st: Reading, f: Forest)
    requires st.itemDepth == 0 && st.elementDepth == 0 && st.descriptionDepth == 0
    requires DocumentOk(f, InChannel(st.elements))
    ensures Read(st, Tokens(f)) == st.(items := st.items + Descriptions(f, InChannel(st.elements)))
    decreases f, 0
  {
    match f
    case Nil => Joins(st.items, [], []);
    case Element(name, attrs, children, rest) =>
      ReadElement(st, name, attrs, Tokens(children), Tokens(rest));
      var own: seq<string>;
      var after: Reading;
      if InChannel(st.elements) && name.local == Item {
        own := [DescriptionOf(children)];
        after := ReadItem(st, name, attrs, children);
      } else {
        own := Descriptions(children, name.local == Channel);
        after := ReadPlain(st, name, attrs, children);
      }
      ReadDocument(after, rest);
      Joins(st.items, own, Descriptions(rest, InChannel(st.elements)));
    case TextLeaf(text, rest) =>
      ReadLeaf(st, Text(text), Tokens(rest));
      ReadDocument(st, rest);
    case RawLeaf(raw, rest) =>
      ReadLeaf(st, Raw(raw), Tokens(rest));
      ReadDocument(st, rest);
  }

  lemma ReadItem(st: Reading, name: Name, attrs: string, children: Forest) returns (after: Reading)
    requires st.itemDepth == 0 && st.elementDepth == 0 && st.descriptionDepth == 0
    requires InChannel(st.elements) && name.local == Item && ItemOk(children)
    ensures after == ReadStep(Read(ReadStep(st, Start(name, attrs)), Tokens(children)), End(name))
    ensures after == st.(items := st.items + [DescriptionOf(children)])
  {
    var inside := ReadStep(st, Start(name, attrs));
    ReadInItem(inside, children);
    after := ReadStep(Read(inside, Tokens(children)), End(name));
    assert (st.elements + [name])[..|st.elements|] == st.elements;
    assert "" + DescriptionOf(children) == DescriptionOf(children);
  }

  lemma ReadPlain(st: Reading, name: Name, attrs: string, children: Forest) returns (after: Reading)
    requires st.itemDepth == 0 && st.elementDepth == 0 && st.descriptionDepth == 0
    requires !(InChannel(st.elements) && name.local == Item) && DocumentOk(children, name.local == Channel)
    ensures after == ReadStep(Read(ReadStep(st, Start(name, attrs)), Tokens(children)), End(name))
    ensures after == st.(items := st.items + Descriptions(children, name.local == Channel))
    decreases children, 1
  {
    var inside := ReadStep(st, Start(name, attrs));
    ReadDocument(inside, children);
    after := ReadStep(Read(inside, Tokens(children)), End(name));
    assert (st.elements + [name])[..|st.elements|] == st.elements;
  }

  // ----- Second pass -----

  /** An element below a title leaves the second pass as it was, but for the gathered text. */
  lemma CloseBelowTitle(fmt: Formatter, items: seq<string>, st: Rewriting, name: Name, attrs: string, text: string)
    requires st.titleDepth == 1 && st.replacing && st.itemDepth == 1 && st.elementDepth >= 2
    requires name.local != Title && !OpensItem(st.elements, name)
    ensures var inside := WriteStep(fmt, items, st, Start(name, attrs));
      && inside == st.(elements := st.elements + [name], elementDepth := st.elementDepth + 1)
      && WriteStep(fmt, items, inside.(itemTitle := text), End(name)) == st.(itemTitle := text)
  {
    assert (st.elements + [name])[..|st.elements|] == st.elements;
  }

  /** Below a title its text is gathered and nothing is written. */
  lemma {:induction false} WriteBelowTitle(fmt: Formatter, items: seq<string>, st: Rewriting, f: Forest)
    requires st.titleDepth == 1 && st.replacing && st.itemDepth == 1 && st.elementDepth >= 2
    requires NoChannelItem(f, InChannel(st.elements)) && NoneNamed(f, Title)
    ensures Write(fmt, items, st, Tokens(f)) == st.(itemTitle := st.itemTitle + DeepText(f))
    decreases f
  {
    match f
    case Nil => Joins(st.itemTitle, "", "");
    case Element(name, attrs, children, rest) =>
      WriteElement(fmt, items, st, name, attrs, Tokens(children), Tokens(rest));
      var after := st.(itemTitle := st.itemTitle + DeepText(children));
      CloseBelowTitle(fmt, items, st, name, attrs, after.itemTitle);
      WriteBelowTitle(fmt, items, st.(elements := st.elements + [name], elementDepth := st.elementDepth + 1), children);
      WriteBelowTitle(fmt, items, after, rest);
      Joins(st.itemTitle, DeepText(children), DeepText(rest));
    case TextLeaf(text, rest) =>
      WriteLeaf(fmt, items, st, Text(text), Tokens(rest));
      WriteBelowTitle(fmt, items, WriteStep(fmt, items, st, Text(text)), rest);
      Joins(st.itemTitle, text, DeepText(rest));
    case RawLeaf(raw, rest) =>
      WriteLeaf(fmt, items, st, Raw(raw), Tokens(rest));
      WriteBelowTitle(fmt, items, st, rest);
  }

  lemma CloseBelow(fmt: Formatter, items: seq<string>, st: Rewriting, name: Name, attrs: string, inner: seq<Token>)
    requires st.titleDepth == 0 && !st.replacing && st.itemDepth == 1 && st.elementDepth >= 2 &&
      !OpensItem(st.elements, name)
    ensures var inside := WriteStep(fmt, items, st, Start(name, attrs));
      WriteStep(fmt, items, inside.(output := inside.output + inner), End(name))
      == st.(output := ((st.output + [Start(name, attrs)]) + inner) + [End(name)])
  {
    assert (st.elements + [name])[..|st.elements|] == st.elements;
  }

  /** Below any other child of an item everything is written as it stands. */
  lemma {:induction false} WriteBelow(fmt: Formatter, items: seq<string>, st: Rewriting, f: Forest)
    requires st.titleDepth == 0 && !st.replacing && st.itemDepth == 1 && st.elementDepth >= 2
    requires NoChannelItem(f, InChannel(st.elements))
    ensures Write(fmt, items, st, Tokens(f)) == st.(output := st.output + Tokens(f))
    decreases f
  {
    match f
    case Nil => Joins(st.output, [], []);
    case Element(name, attrs, children, rest) =>
      WriteElement(fmt, items, st, name, attrs, Tokens(children), Tokens(rest));
      var inside := WriteStep(fmt, items, st, Start(name, attrs));
      WriteBelow(fmt, items, inside, children);
      var after := WriteStep(fmt, items, Write(fmt, items, inside, Tokens(children)), End(name));
      CloseBelow(fmt, items, st, name, attrs, Tokens(children));
      WriteBelow(fmt, items, after, rest);
      JoinsElement(st.output, [Start(name, attrs)], Tokens(children), [End(name)], Tokens(rest));
    case TextLeaf(text, rest) =>
      WriteLeaf(fmt, items, st, Text(text), Tokens(rest));
      WriteBelow(fmt, items, WriteStep(fmt, items, st, Text(text)), rest);
      Joins(st.output, [Text(text)], Tokens(rest));
    case RawLeaf(raw, rest) =>
      WriteLeaf(fmt, items, st, Raw(raw), Tokens(rest));
      WriteBelow(fmt, items, WriteStep(fmt, items, st, Raw(raw)), rest);
      Joins(st.output, [Raw(raw)], Tokens(rest));
  }

  /** Two states that differ at most in the start tag kept from the last title. */
  predicate Same(a: Rewriting, b: Rewriting) {
    a.(titleStart := b.titleStart) == b
  }

  /** One direct title of an item. */
  lemma WriteTitle(fmt: Formatter, items: seq<string>, st: Rewriting, name: Name, attrs: string, children: Forest)
    requires st.titleDepth == 0 && !st.replacing && st.itemDepth == 1 && st.elementDepth == 1 &&
      0 <= st.itemIndex < |items|
    requires name.local == Title && !InChannel(st.elements) && NoChannelItem(children, false) &&
      NoneNamed(children, Title)
    ensures var text := st.itemTitle + DeepText(children);
      var formatted := fmt(text, items[st.itemIndex]);
      Same(WriteStep(fmt, items, Write(fmt, items, WriteStep(fmt, items, st, Start(name, attrs)), Tokens(children)),
                     End(name)),
           st.(output := st.output + [Start(name, attrs), Text(formatted), End(name)], itemTitle := text,
               changed := st.changed || formatted != text))
  {
    var inside := OpenTitle(fmt, items, st, name, attrs);
    WriteBelowTitle(fmt, items, inside, children);
    CloseTitle(fmt, items, st, name, attrs, inside, st.itemTitle + DeepText(children));
  }

  lemma OpenTitle(fmt: Formatter, items: seq<string>, st: Rewriting, name: Name, attrs: string)
      returns (inside: Rewriting)
    requires st.titleDepth == 0 && !st.replacing && st.itemDepth == 1 && st.elementDepth == 1
    requires name.local == Title && !InChannel(st.elements)
    ensures inside == WriteStep(fmt, items, st, Start(name, attrs))
    ensures inside == st.(elements := st.elements + [name], elementDepth := 2, titleDepth := 1,
                          titleStart := Start(name, attrs), replacing := true)
  {
    inside := WriteStep(fmt, items, st, Start(name, attrs));
  }

  lemma CloseTitle(fmt: Formatter, items: seq<string>, st: Rewriting, name: Name, attrs: string, inside: Rewriting,
                   text: string)
    requires st.titleDepth == 0 && !st.replacing && st.itemDepth == 1 && st.elementDepth == 1
    requires name.local == Title && 0 <= st.itemIndex < |items|
    requires inside == st.(elements := st.elements + [name], elementDepth := 2, titleDepth := 1,
                           titleStart := Start(name, attrs), replacing := true)
    ensures var formatted := fmt(text, items[st.itemIndex]);
      Same(WriteStep(fmt, items, inside.(itemTitle := text), End(name)),
           st.(output := st.output + [Start(name, attrs), Text(formatted), End(name)], itemTitle := text,
               changed := st.changed || formatted != text))
  {
    assert (st.elements + [name])[..|st.elements|] == st.elements;
  }

  /** Any other child of an item. */
  lemma WriteOther(fmt: Formatter, items: seq<string>, st: Rewriting, name: Name, attrs: string, children: Forest)
    requires st.titleDepth == 0 && !st.replacing && st.itemDepth == 1 && st.elementDepth == 1
    requires name.local != Title && !InChannel(st.elements) && NoChannelItem(children, name.local == Channel)
    ensures WriteStep(fmt, items, Write(fmt, items, WriteStep(fmt, items, st, Start(name, attrs)), Tokens(children)),
                      End(name))
         == st.(output := st.output + Tokens(Element(name, attrs, children, Nil)))
  {
    var inside := WriteStep(fmt, items, st, Start(name, attrs));
    WriteBelow(fmt, items, inside, children);
    assert (st.elements + [name])[..|st.elements|] == st.elements;
    Joins(st.output + [Start(name, attrs)], Tokens(children), [End(name)]);
    Joins(st.output, [Start(name, attrs)], Tokens(children) + [End(name)]);
    assert [End(name)] + [] == [End(name)];
  }

  /** The state after the content of an item; `title` and `start` are what is left of its last title. */
  ghost predicate WrittenAs(fmt: Formatter, st: Rewriting, f: Forest, description: string, done: Rewriting,
                            title: string, start: Token) {
    done == st.(output := st.output + MapItem(fmt, f, description, st.itemTitle), itemTitle := title,
                titleStart := start,
                changed := st.changed || ItemChanges(fmt, f, description, st.itemTitle))
  }

  /** Within an item the second pass maps its direct titles. */
  lemma {:induction false} WriteInItem(fmt: Formatter, items: seq<string>, st: Rewriting, f: Forest)
      returns (title: string, start: Token)
    requires st.titleDepth == 0 && !st.replacing && st.itemDepth == 1 && st.elementDepth == 1 &&
      0 <= st.itemIndex < |items|
    requires ItemOk(f) && !InChannel(st.elements)
    ensures WrittenAs(fmt, st, f, items[st.itemIndex], Write(fmt, items, st, Tokens(f)), title, start)
    decreases f
  {
    var d := items[st.itemIndex];
    match f
    case Nil =>
      Joins(st.output, [], []);
      title, start := st.itemTitle, st.titleStart;
    case Element(name, attrs, children, rest) =>
      WriteElement(fmt, items, st, name, attrs, Tokens(children), Tokens(rest));
      var after := WriteStep(fmt, items, Write(fmt, items, WriteStep(fmt, items, st, Start(name, attrs)),
                                               Tokens(children)), End(name));
      var own: seq<Token>;
      if name.local == Title {
        WriteTitle(fmt, items, st, name, attrs, children);
        own := [Start(name, attrs), Text(fmt(st.itemTitle + DeepText(children), d)), End(name)];
      } else {
        WriteOther(fmt, items, st, name, attrs, children);
        own := Tokens(Element(name, attrs, children, Nil));
      }
      title, start := WriteInItem(fmt, items, after, rest);
      Joins(st.output, own, MapItem(fmt, rest, d, after.itemTitle));
    case TextLeaf(text, rest) =>
      WriteLeaf(fmt, items, st, Text(text), Tokens(rest));
      title, start := WriteInItem(fmt, items, WriteStep(fmt, items, st, Text(text)), rest);
      Joins(st.output, [Text(text)], MapItem(fmt, rest, d, st.itemTitle));
    case RawLeaf(raw, rest) =>
      WriteLeaf(fmt, items, st, Raw(raw), Tokens(rest));
      title, start := WriteInItem(fmt, items, WriteStep(fmt, items, st, Raw(raw)), rest);
      Joins(st.output, [Raw(raw)], MapItem(fmt, rest, d, st.itemTitle));
  }

  /** The descriptions read ahead are those of the items to come. */
  ghost predicate Matches(items: seq<string>, itemIndex: int, descriptions: seq<string>) {
    0 <= itemIndex + 1 <= |items| - |descriptions|
    && items[itemIndex + 1..itemIndex + 1 + |descriptions|] == descriptions
  }

  lemma MatchesParts(items: seq<string>, itemIndex: int, a: seq<string>, b: seq<string>)
    requires Matches(items, itemIndex, a + b)
    ensures Matches(items, itemIndex, a) && Matches(items, itemIndex + |a|, b)
  {
    var k := itemIndex + 1;
    assert items[k..k + |a|] == items[k..k + |a| + |b|][..|a|];
    assert items[k + |a|..k + |a| + |b|] == items[k..k + |a| + |b|][|a|..];
  }

  /** The state outside items after part of a document. */
  ghost predicate WrittenDocument(fmt: Formatter, st: Rewriting, f: Forest, done: Rewriting, start: Token) {
    var inChannel := InChannel(st.elements);
    done == st.(output := st.output + MapDocument(fmt, f, inChannel), titleStart := start,
                itemIndex := st.itemIndex + |Descriptions(f, inChannel)|,
                changed := st.changed || DocumentChanges(fmt, f, inChannel))
  }

  /** The state after the first element. */
  ghost predicate FirstWritten(fmt: Formatter, st: Rewriting, f: Forest, after: Rewriting, start: Token)
    requires f.Element?
  {
    var item := InChannel(st.elements) && f.name.local == Item;
    var inner := if item then MapItem(fmt, f.children, DescriptionOf(f.children), "")
                 else MapDocument(fmt, f.children, f.name.local == Channel);
    after == st.(output := ((st.output + [Start(f.name, f.attrs)]) + inner) + [End(f.name)], titleStart := start,
                 itemIndex := st.itemIndex
                              + (if item then 1 else |Descriptions(f.children, f.name.local == Channel)|),
                 changed := st.changed || (if item then ItemChanges(fmt, f.children, DescriptionOf(f.children), "")
                                           else DocumentChanges(fmt, f.children, f.name.local == Channel)))
  }

  /** An element and what follows it. */
  lemma GoOn(fmt: Formatter, st: Rewriting, f: Forest, after: Rewriting, start: Token, done: Rewriting, last: Token)
    requires f.Element? && FirstWritten(fmt, st, f, after, start) && WrittenDocument(fmt, after, f.rest, done, last)
    ensures WrittenDocument(fmt, st, f, done, last)
  {
    var inChannel := InChannel(st.elements);
    var inner := if inChannel && f.name.local == Item then MapItem(fmt, f.children, DescriptionOf(f.children), "")
                 else MapDocument(fmt, f.children, f.name.local == Channel);
    JoinsElement(st.output, [Start(f.name, f.attrs)], inner, [End(f.name)], MapDocument(fmt, f.rest, inChannel));
  }

  ghost predicate Outside(st: Rewriting) {
    st.titleDepth == 0 && !st.replacing && st.itemDepth == 0 && st.elementDepth == 0 && st.itemTitle == ""
  }

  /** One item of a channel. */
  lemma WriteItem(fmt: Formatter, items: seq<string>, st: Rewriting, name: Name, attrs: string, children: Forest)
    returns (after: Rewriting, start: Token)
    requires Outside(st) && InChannel(st.elements) && name.local == Item && ItemOk(children)
    requires Matches(items, st.itemIndex, [DescriptionOf(children)])
    ensures after == WriteStep(fmt, items, Write(fmt, items, WriteStep(fmt, items, st, Start(name, attrs)),
                                                 Tokens(children)), End(name))
    ensures after == st.(output := ((st.output + [Start(name, attrs)])
                                    + MapItem(fmt, children, DescriptionOf(children), "")) + [End(name)],
                         titleStart := start, itemIndex := st.itemIndex + 1,
                         changed := st.changed || ItemChanges(fmt, children, DescriptionOf(children), ""))
  {
    var inside := WriteStep(fmt, items, st, Start(name, attrs));
    assert items[st.itemIndex + 1] == [DescriptionOf(children)][0];
    var title;
    title, start := WriteInItem(fmt, items, inside, children);
    after := WriteStep(fmt, items, Write(fmt, items, inside, Tokens(children)), End(name));
    assert (st.elements + [name])[..|st.elements|] == st.elements;
  }

  lemma {:induction false} WriteDocument(fmt: Formatter, items: seq<string>, st: Rewriting, f: Forest)
      returns (start: Token)
    requires Outside(st) && DocumentOk(f, InChannel(st.elements))
    requires Matches(items, st.itemIndex, Descriptions(f, InChannel(st.elements)))
    ensures WrittenDocument(fmt, st, f, Write(fmt, items, st, Tokens(f)), start)
    decreases f, 1
  {
    var inChannel := InChannel(st.elements);
    match f
    case Nil =>
      Joins(st.output, [], []);
      start := st.titleStart;
    case Element(name, attrs, children, rest) =>
      start := WriteNode(fmt, items, st, f);
    case TextLeaf(text, rest) =>
      WriteLeaf(fmt, items, st, Text(text), Tokens(rest));
      start := WriteDocument(fmt, items, WriteStep(fmt, items, st, Text(text)), rest);
      Joins(st.output, [Text(text)], MapDocument(fmt, rest, inChannel));
    case RawLeaf(raw, rest) =>
      WriteLeaf(fmt, items, st, Raw(raw), Tokens(rest));
      start := WriteDocument(fmt, items, WriteStep(fmt, items, st, Raw(raw)), rest);
      Joins(st.output, [Raw(raw)], MapDocument(fmt, rest, inChannel));
  }

  /** The part of a document that starts with an element. */
  lemma WriteNode(fmt: Formatter, items: seq<string>, st: Rewriting, f: Forest) returns (last: Token)
    requires f.Element? && Outside(st) && DocumentOk(f, InChannel(st.elements))
    requires Matches(items, st.itemIndex, Descriptions(f, InChannel(st.elements)))
    ensures WrittenDocument(fmt, st, f, Write(fmt, items, st, Tokens(f)), last)
    decreases f, 0
  {
    WriteElement(fmt, items, st, f.name, f.attrs, Tokens(f.children), Tokens(f.rest));
    var after, start := WriteFirst(fmt, items, st, f);
    last := WriteDocument(fmt, items, after, f.rest);
    GoOn(fmt, st, f, after, start, Write(fmt, items, after, Tokens(f.rest)), last);
  }

  /** The element itself; the descriptions that remain are those of what follows. */
  lemma WriteFirst(fmt: Formatter, items: seq<string>, st: Rewriting, f: Forest)
      returns (after: Rewriting, start: Token)
    requires f.Element? && Outside(st) && DocumentOk(f, InChannel(st.elements))
    requires Matches(items, st.itemIndex, Descriptions(f, InChannel(st.elements)))
    ensures after == WriteStep(fmt, items, Write(fmt, items, WriteStep(fmt, items, st, Start(f.name, f.attrs)),
                                                 Tokens(f.children)), End(f.name))
    ensures FirstWritten(fmt, st, f, after, start)
    ensures Matches(items, after.itemIndex, Descriptions(f.rest, InChannel(st.elements)))
    decreases f.children, 4
  {
    if InChannel(st.elements) && f.name.local == Item {
      after, start := FirstItem(fmt, items, st, f);
    } else {
      after, start := FirstPlain(fmt, items, st, f);
    }
  }

  lemma FirstItem(fmt: Formatter, items: seq<string>, st: Rewriting, f: Forest)
      returns (after: Rewriting, start: Token)
    requires f.Element? && Outside(st) && ItemOk(f.children) && InChannel(st.elements) && f.name.local == Item
    requires Matches(items, st.itemIndex, [DescriptionOf(f.children)] + Descriptions(f.rest, true))
    ensures after == WriteStep(fmt, items, Write(fmt, items, WriteStep(fmt, items, st, Start(f.name, f.attrs)),
                                                 Tokens(f.children)), End(f.name))
    ensures FirstWritten(fmt, st, f, after, start)
    ensures Matches(items, after.itemIndex, Descriptions(f.rest, true))
  {
    MatchesParts(items, st.itemIndex, [DescriptionOf(f.children)], Descriptions(f.rest, true));
    after, start := WriteItem(fmt, items, st, f.name, f.attrs, f.children);
  }

  lemma FirstPlain(fmt: Formatter, items: seq<string>, st: Rewriting, f: Forest)
      returns (after: Rewriting, start: Token)
    requires f.Element? && Outside(st) && DocumentOk(f.children, f.name.local == Channel)
    requires !(InChannel(st.elements) && f.name.local == Item)
    requires Matches(items, st.itemIndex, Descriptions(f.children, f.name.local == Channel)
                                          + Descriptions(f.rest, InChannel(st.elements)))
    ensures after == WriteStep(fmt, items, Write(fmt, items, WriteStep(fmt, items, st, Start(f.name, f.attrs)),
                                                 Tokens(f.children)), End(f.name))
    ensures FirstWritten(fmt, st, f, after, start)
    ensures Matches(items, after.itemIndex, Descriptions(f.rest, InChannel(st.elements)))
    decreases f.children, 3
  {
    MatchesParts(items, st.itemIndex, Descriptions(f.children, f.name.local == Channel),
                 Descriptions(f.rest, InChannel(st.elements)));
    after, start := WritePlain(fmt, items, st, f.name, f.attrs, f.children);
  }

  /** An element outside items leaves the counters of the second pass as they were. */
  lemma ClosePlain(fmt: Formatter, items: seq<string>, st: Rewriting, name: Name, attrs: string, inside: Rewriting)
    requires Outside(st) && !(InChannel(st.elements) && name.local == Item)
    requires inside.elements == st.elements + [name] && Outside(inside)
    ensures WriteStep(fmt, items, st, Start(name, attrs))
         == st.(elements := st.elements + [name], output := st.output + [Start(name, attrs)])
    ensures WriteStep(fmt, items, inside, End(name))
         == inside.(elements := st.elements, output := inside.output + [End(name)])
  {
    assert (st.elements + [name])[..|st.elements|] == st.elements;
  }

  /** Any other element outside items. */
  lemma WritePlain(fmt: Formatter, items: seq<string>, st: Rewriting, name: Name, attrs: string, children: Forest)
    returns (after: Rewriting, start: Token)
    requires Outside(st) && !(InChannel(st.elements) && name.local == Item) &&
      DocumentOk(children, name.local == Channel)
    requires Matches(items, st.itemIndex, Descriptions(children, name.local == Channel))
    ensures after == WriteStep(fmt, items, Write(fmt, items, WriteStep(fmt, items, st, Start(name, attrs)),
                                                 Tokens(children)), End(name))
    ensures after == st.(output := ((st.output + [Start(name, attrs)])
                                    + MapDocument(fmt, children, name.local == Channel)) + [End(name)],
                         titleStart := start,
                         itemIndex := st.itemIndex + |Descriptions(children, name.local == Channel)|,
                         changed := st.changed || DocumentChanges(fmt, children, name.local == Channel))
    decreases children, 2
  {
    var inside := st.(elements := st.elements + [name], output := st.output + [Start(name, attrs)]);
    start := WriteDocument(fmt, items, inside, children);
    ClosePlain(fmt, items, st, name, attrs, inside);
    after := AfterPlain(fmt, items, st, name, attrs, children, Write(fmt, items, inside, Tokens(children)), start);
  }

  lemma AfterPlain(fmt: Formatter, items: seq<string>, st: Rewriting, name: Name, attrs: string, children: Forest,
                   done: Rewriting, start: Token)
    returns (after: Rewriting)
    requires Outside(st) && !(InChannel(st.elements) && name.local == Item)
    requires WrittenDocument(fmt, st.(elements := st.elements + [name], output := st.output + [Start(name, attrs)]),
                             children, done, start)
    ensures after == WriteStep(fmt, items, done, End(name))
    ensures after == st.(output := ((st.output + [Start(name, attrs)])
                                    + MapDocument(fmt, children, name.local == Channel)) + [End(name)],
                         titleStart := start,
                         itemIndex := st.itemIndex + |Descriptions(children, name.local == Channel)|,
                         changed := st.changed || DocumentChanges(fmt, children, name.local == Channel))
  {
    assert InChannel(st.elements + [name]) == (name.local == Channel);
    ClosePlain(fmt, items, st, name, attrs, done);
    after := done.(elements := st.elements, output := done.output + [End(name)]);
  }

  // ----- The whole rewriter -----

  lemma FirstPass(f: Forest) returns (items: seq<string>)
    requires DocumentOk(f, false)
    ensures items == Read(READING_STARTS, Tokens(f)).items == Descriptions(f, false)
  {
    ReadDocument(READING_STARTS, f);
    items := Descriptions(f, false);
    assert [] + items == items;
  }

  /** On the token stream of a document the rewriter returns the stream with the direct
      titles of all channel items mapped through the formatter, each with the description
      of its own item; if no title changes it returns the stream as it is. */
  lemma StreamingRefinesTree(fmt: Formatter, f: Forest)
    requires DocumentOk(f, false)
    ensures Rewrite(fmt, Tokens(f)) == if DocumentChanges(fmt, f, false) then MapDocument(fmt, f, false) else Tokens(f)
  {
    var items := FirstPass(f);
    var start := WriteDocument(fmt, items, WRITING_STARTS, f);
    Joins([], MapDocument(fmt, f, false), []);
  }

  lemma NestedStart(open: seq<Name>, name: Name, attrs: string, tail: seq<Token>)
    ensures Nested(open, [Start(name, attrs)] + tail) == Nested(open + [name], tail)
  {
    assert ([Start(name, attrs)] + tail)[1..] == tail;
  }

  lemma NestedEnd(open: seq<Name>, name: Name, tail: seq<Token>)
    ensures Nested(open + [name], [End(name)] + tail) == Nested(open, tail)
  {
    assert ([End(name)] + tail)[1..] == tail;
    assert (open + [name])[..|open|] == open;
  }

  lemma NestedLeaf(open: seq<Name>, t: Token, tail: seq<Token>)
    requires t.Text? || t.Raw?
    ensures Nested(open, [t] + tail) == Nested(open, tail)
  {
    assert ([t] + tail)[1..] == tail;
  }

  lemma ElementFirst<T>(opening: seq<T>, inner: seq<T>, closing: seq<T>, next: seq<T>, rest: seq<T>)
    ensures (opening + (inner + (closing + next))) + rest == opening + (inner + (closing + (next + rest)))
  {
  }

  /** Token streams of documents are well nested, so the streaming method accepts them. */
  lemma {:induction false} TokensAreNested(open: seq<Name>, f: Forest, rest: seq<Token>)
    ensures Nested(open, Tokens(f) + rest) == Nested(open, rest)
    decreases f
  {
    match f
    case Nil =>
      assert Tokens(f) + rest == rest;
    case Element(name, attrs, children, next) =>
      var tail := [End(name)] + (Tokens(next) + rest);
      ElementFirst([Start(name, attrs)], Tokens(children), [End(name)], Tokens(next), rest);
      NestedStart(open, name, attrs, Tokens(children) + tail);
      TokensAreNested(open + [name], children, tail);
      NestedEnd(open, name, Tokens(next) + rest);
      TokensAreNested(open, next, rest);
    case TextLeaf(text, next) =>
      assert Tokens(f) + rest == [Text(text)] + (Tokens(next) + rest);
      NestedLeaf(open, Text(text), Tokens(next) + rest);
      TokensAreNested(open, next, rest);
    case RawLeaf(raw, next) =>
      assert Tokens(f) + rest == [Raw(raw)] + (Tokens(next) + rest);
      NestedLeaf(open, Raw(raw), Tokens(next) + rest);
      TokensAreNested(open, next, rest);
  }

  // ----- Items with several titles -----

  /** The map a reader would expect: every title with its own text only. */
  function MapOwnTitles(fmt: Formatter, f: Forest, description: string): seq<Token> {
    match f
    case Nil => []
    case Element(name, attrs, children, rest) =>
      if name.local == Title then
        [Start(name, attrs), Text(fmt(DeepText(children), description)), End(name)]
        + MapOwnTitles(fmt, rest, description)
      else
        Tokens(Element(name, attrs, children, Nil)) + MapOwnTitles(fmt, rest, description)
    case TextLeaf(text, rest) => [Text(text)] + MapOwnTitles(fmt, rest, description)
    case RawLeaf(raw, rest) => [Raw(raw)] + MapOwnTitles(fmt, rest, description)
  }

  function MapOwnDocument(fmt: Formatter, f: Forest, inChannel: bool): seq<Token> {
    match f
    case Nil => []
    case Element(name, attrs, children, rest) =>
      [Start(name, attrs)]
      + (if inChannel && name.local == Item then MapOwnTitles(fmt, children, DescriptionOf(children))
         else MapOwnDocument(fmt, children, name.local == Channel))
      + [End(name)] + MapOwnDocument(fmt, rest, inChannel)
    case TextLeaf(text, rest) => [Text(text)] + MapOwnDocument(fmt, rest, inChannel)
    case RawLeaf(raw, rest) => [Raw(raw)] + MapOwnDocument(fmt, rest, inChannel)
  }

  /** The formatter changes the own text of some title of the item. */
  function OwnTitleChanges(fmt: Formatter, f: Forest, description: string): bool {
    match f
    case Nil => false
    case Element(name, _, children, rest) =>
      || (name.local == Title && fmt(DeepText(children), description) != DeepText(children))
      || OwnTitleChanges(fmt, rest, description)
    case TextLeaf(_, rest) => OwnTitleChanges(fmt, rest, description)
    case RawLeaf(_, rest) => OwnTitleChanges(fmt, rest, description)
  }

  function OwnDocumentChanges(fmt: Formatter, f: Forest, inChannel: bool): bool {
    match f
    case Nil => false
    case Element(name, _, children, rest) =>
      || (if inChannel && name.local == Item then OwnTitleChanges(fmt, children, DescriptionOf(children))
          else OwnDocumentChanges(fmt, children, name.local == Channel))
      || OwnDocumentChanges(fmt, rest, inChannel)
    case TextLeaf(_, rest) => OwnDocumentChanges(fmt, rest, inChannel)
    case RawLeaf(_, rest) => OwnDocumentChanges(fmt, rest, inChannel)
  }

  /** What the rewriter would return if it took each title for itself. */
  function OwnRewrite(fmt: Formatter, f: Forest): seq<Token> {
    if OwnDocumentChanges(fmt, f, false) then MapOwnDocument(fmt, f, false) else Tokens(f)
  }

  /** No text has been gathered when a title starts: before it come only empty titles. */
  predicate TitlesStartClean(f: Forest, before: string) {
    match f
    case Nil => true
    case Element(name, _, children, rest) =>
      if name.local == Title then before == "" && TitlesStartClean(rest, DeepText(children))
      else TitlesStartClean(rest, before)
    case TextLeaf(_, rest) => TitlesStartClean(rest, before)
    case RawLeaf(_, rest) => TitlesStartClean(rest, before)
  }

  /** In no channel item a title comes behind one with text. */
  predicate CleanDocument(f: Forest, inChannel: bool) {
    match f
    case Nil => true
    case Element(name, _, children, rest) =>
      && (if inChannel && name.local == Item then TitlesStartClean(children, "")
          else CleanDocument(children, name.local == Channel))
      && CleanDocument(rest, inChannel)
    case TextLeaf(_, rest) => CleanDocument(rest, inChannel)
    case RawLeaf(_, rest) => CleanDocument(rest, inChannel)
  }

  lemma {:induction false} CleanTitlesAreOwn(fmt: Formatter, f: Forest, description: string, before: string)
    requires TitlesStartClean(f, before)
    ensures MapItem(fmt, f, description, before) == MapOwnTitles(fmt, f, description)
    ensures ItemChanges(fmt, f, description, before) == OwnTitleChanges(fmt, f, description)
    decreases f
  {
    match f
    case Nil =>
    case Element(name, attrs, children, rest) =>
      assert before == "" ==> before + DeepText(children) == DeepText(children);
      CleanTitlesAreOwn(fmt, rest, description, if name.local == Title then DeepText(children) else before);
    case TextLeaf(_, rest) => CleanTitlesAreOwn(fmt, rest, description, before);
    case RawLeaf(_, rest) => CleanTitlesAreOwn(fmt, rest, description, before);
  }

  lemma {:induction false} CleanDocumentIsOwn(fmt: Formatter, f: Forest, inChannel: bool)
    requires CleanDocument(f, inChannel)
    ensures MapDocument(fmt, f, inChannel) == MapOwnDocument(fmt, f, inChannel)
    ensures DocumentChanges(fmt, f, inChannel) == OwnDocumentChanges(fmt, f, inChannel)
    decreases f
  {
    match f
    case Nil =>
    case Element(name, attrs, children, rest) =>
      CleanDocumentIsOwn(fmt, rest, inChannel);
      if inChannel && name.local == Item {
        CleanTitlesAreOwn(fmt, children, DescriptionOf(children), "");
      } else {
        CleanDocumentIsOwn(fmt, children, name.local == Channel);
      }
    case TextLeaf(_, rest) => CleanDocumentIsOwn(fmt, rest, inChannel);
    case RawLeaf(_, rest) => CleanDocumentIsOwn(fmt, rest, inChannel);
  }

  // ----- A formatter that shows mixed texts -----

  /** The formatter puts one character to every title. */
  ghost predicate Marks(fmt: Formatter) {
    forall title, d :: |fmt(title, d)| == |title| + 1
  }

  /** Such a formatter changes every title. */
  lemma {:induction false} MarkedTitlesChange(fmt: Formatter, f: Forest, description: string, before: string)
    requires Marks(fmt)
    ensures ItemChanges(fmt, f, description, before) == OwnTitleChanges(fmt, f, description)
    ensures TitlesStartClean(f, before) || OwnTitleChanges(fmt, f, description)
    decreases f
  {
    match f
    case Nil =>
    case Element(name, attrs, children, rest) =>
      var text := before + DeepText(children);
      MarkedTitlesChange(fmt, rest, description, if name.local == Title then text else before);
      assert |fmt(text, description)| == |text| + 1;
      assert |fmt(DeepText(children), description)| == |DeepText(children)| + 1;
    case TextLeaf(_, rest) => MarkedTitlesChange(fmt, rest, description, before);
    case RawLeaf(_, rest) => MarkedTitlesChange(fmt, rest, description, before);
  }

  lemma {:induction false} MarkedDocumentChanges(fmt: Formatter, f: Forest, inChannel: bool)
    requires Marks(fmt)
    ensures DocumentChanges(fmt, f, inChannel) == OwnDocumentChanges(fmt, f, inChannel)
    ensures CleanDocument(f, inChannel) || OwnDocumentChanges(fmt, f, inChannel)
    decreases f
  {
    match f
    case Nil =>
    case Element(name, attrs, children, rest) =>
      MarkedDocumentChanges(fmt, rest, inChannel);
      if inChannel && name.local == Item {
        MarkedTitlesChange(fmt, children, DescriptionOf(children), "");
      } else {
        MarkedDocumentChanges(fmt, children, name.local == Channel);
      }
    case TextLeaf(_, rest) => MarkedDocumentChanges(fmt, rest, inChannel);
    case RawLeaf(_, rest) => MarkedDocumentChanges(fmt, rest, inChannel);
  }

  lemma Cancel(a: seq<Token>, x: seq<Token>, b: seq<Token>, y: seq<Token>)
    requires |a| == |b| && a + x == b + y
    ensures a == b && x == y
  {
    assert a == (a + x)[..|a|] && x == (a + x)[|a|..];
    assert b == (b + y)[..|b|] && y == (b + y)[|b|..];
  }

  /** If a marking formatter shows each title of an item with its own text, no texts are mixed. */
  lemma {:induction false} OwnTitlesAreClean(fmt: Formatter, f: Forest, description: string, before: string)
    requires Marks(fmt) && MapItem(fmt, f, description, before) == MapOwnTitles(fmt, f, description)
    ensures TitlesStartClean(f, before)
    decreases f
  {
    match f
    case Nil =>
    case Element(name, attrs, children, rest) =>
      if name.local == Title {
        var text := before + DeepText(children);
        var a := [Start(name, attrs), Text(fmt(text, description)), End(name)];
        var b := [Start(name, attrs), Text(fmt(DeepText(children), description)), End(name)];
        Cancel(a, MapItem(fmt, rest, description, text), b, MapOwnTitles(fmt, rest, description));
        assert a[1] == b[1];
        assert |text| + 1 == |fmt(text, description)| == |DeepText(children)| + 1;
        assert text == DeepText(children);
        OwnTitlesAreClean(fmt, rest, description, text);
      } else {
        var a := Tokens(Element(name, attrs, children, Nil));
        Cancel(a, MapItem(fmt, rest, description, before), a, MapOwnTitles(fmt, rest, description));
        OwnTitlesAreClean(fmt, rest, description, before);
      }
    case TextLeaf(text, rest) =>
      Cancel([Text(text)], MapItem(fmt, rest, description, before), [Text(text)], MapOwnTitles(fmt, rest, description));
      OwnTitlesAreClean(fmt, rest, description, before);
    case RawLeaf(raw, rest) =>
      Cancel([Raw(raw)], MapItem(fmt, rest, description, before), [Raw(raw)], MapOwnTitles(fmt, rest, description));
      OwnTitlesAreClean(fmt, rest, description, before);
  }

  lemma {:induction false} ItemLengths(fmt: Formatter, f: Forest, description: string, before: string)
    ensures |MapItem(fmt, f, description, before)| == |MapOwnTitles(fmt, f, description)|
    decreases f
  {
    match f
    case Nil =>
    case Element(name, _, children, rest) =>
      ItemLengths(fmt, rest, description, if name.local == Title then before + DeepText(children) else before);
    case TextLeaf(_, rest) => ItemLengths(fmt, rest, description, before);
    case RawLeaf(_, rest) => ItemLengths(fmt, rest, description, before);
  }

  lemma {:induction false} DocumentLengths(fmt: Formatter, f: Forest, inChannel: bool)
    ensures |MapDocument(fmt, f, inChannel)| == |MapOwnDocument(fmt, f, inChannel)|
    decreases f
  {
    match f
    case Nil =>
    case Element(name, _, children, rest) =>
      DocumentLengths(fmt, rest, inChannel);
      DocumentLengths(fmt, children, name.local == Channel);
      ItemLengths(fmt, children, DescriptionOf(children), "");
    case TextLeaf(_, rest) => DocumentLengths(fmt, rest, inChannel);
    case RawLeaf(_, rest) => DocumentLengths(fmt, rest, inChannel);
  }

  /** Equal elements have equal contents and are followed by the same. */
  lemma CancelElement(opening: Token, closing: Token, a: seq<Token>, x: seq<Token>, b: seq<Token>, y: seq<Token>)
    requires |a| == |b| && [opening] + a + [closing] + x == [opening] + b + [closing] + y
    ensures a == b && x == y
  {
    Cancel([opening] + a + [closing], x, [opening] + b + [closing], y);
    Cancel([opening] + a, [closing], [opening] + b, [closing]);
    Cancel([opening], a, [opening], b);
  }

  lemma {:induction false} OwnDocumentIsClean(fmt: Formatter, f: Forest, inChannel: bool)
    requires Marks(fmt) && MapDocument(fmt, f, inChannel) == MapOwnDocument(fmt, f, inChannel)
    ensures CleanDocument(f, inChannel)
    decreases f
  {
    match f
    case Nil =>
    case Element(name, attrs, children, rest) =>
      var x, y := MapDocument(fmt, rest, inChannel), MapOwnDocument(fmt, rest, inChannel);
      if inChannel && name.local == Item {
        var d := DescriptionOf(children);
        ItemLengths(fmt, children, d, "");
        CancelElement(Start(name, attrs), End(name), MapItem(fmt, children, d, ""), x,
                      MapOwnTitles(fmt, children, d), y);
        OwnTitlesAreClean(fmt, children, d, "");
      } else {
        var below := name.local == Channel;
        DocumentLengths(fmt, children, below);
        CancelElement(Start(name, attrs), End(name), MapDocument(fmt, children, below), x,
                      MapOwnDocument(fmt, children, below), y);
        OwnDocumentIsClean(fmt, children, below);
      }
      OwnDocumentIsClean(fmt, rest, inChannel);
    case TextLeaf(text, rest) =>
      Cancel([Text(text)], MapDocument(fmt, rest, inChannel), [Text(text)], MapOwnDocument(fmt, rest, inChannel));
      OwnDocumentIsClean(fmt, rest, inChannel);
    case RawLeaf(raw, rest) =>
      Cancel([Raw(raw)], MapDocument(fmt, rest, inChannel), [Raw(raw)], MapOwnDocument(fmt, rest, inChannel));
      OwnDocumentIsClean(fmt, rest, inChannel);
  }

  // ----- When the rewriter takes each title for itself -----

  /** With this formatter the rewriter returns what it would if it took each title for itself. */
  ghost predicate RewritesOwn(fmt: Formatter, f: Forest) {
    Rewrite(fmt, Tokens(f)) == OwnRewrite(fmt, f)
  }

  /** The same, asked only where the rewriter changes something. */
  ghost predicate ChangesOwn(fmt: Formatter, f: Forest) {
    DocumentChanges(fmt, f, false) ==> Rewrite(fmt, Tokens(f)) == MapOwnDocument(fmt, f, false)
  }

  lemma CleanRewritesOwn(fmt: Formatter, f: Forest)
    requires DocumentOk(f, false) && CleanDocument(f, false)
    ensures RewritesOwn(fmt, f) && ChangesOwn(fmt, f)
  {
    StreamingRefinesTree(fmt, f);
    CleanDocumentIsOwn(fmt, f, false);
  }

  lemma MarksShowMixing(fmt: Formatter, f: Forest)
    requires Marks(fmt) && DocumentOk(f, false) && (RewritesOwn(fmt, f) || ChangesOwn(fmt, f))
    ensures CleanDocument(f, false)
  {
    StreamingRefinesTree(fmt, f);
    MarkedDocumentChanges(fmt, f, false);
    if OwnDocumentChanges(fmt, f, false) {
      OwnDocumentIsClean(fmt, f, false);
    }
  }

  function Mark(): Formatter {
    (title: string, d: string) => title + "!"
  }

  /** Whatever the formatter, what the rewriter returns has every title formatted from its own
      text, exactly when in no channel item a title comes behind one with text. */
  lemma OwnTitlesExactlyWhenClean(f: Forest)
    requires DocumentOk(f, false)
    ensures (forall fmt :: RewritesOwn(fmt, f)) <==> CleanDocument(f, false)
    ensures (forall fmt :: ChangesOwn(fmt, f)) <==> CleanDocument(f, false)
  {
    if CleanDocument(f, false) {
      forall fmt ensures RewritesOwn(fmt, f) && ChangesOwn(fmt, f) {
        CleanRewritesOwn(fmt, f);
      }
    } else {
      if RewritesOwn(Mark(), f) || ChangesOwn(Mark(), f) {
        MarksShowMixing(Mark(), f);
      }
    }
  }

  // ----- An item of two titles -----

  function TwoTitles(title: Name, a: string, b: string): Forest {
    Element(title, "", TextLeaf(a, Nil), Element(title, "", TextLeaf(b, Nil), Nil))
  }

  /** A channel with one item of two titles. */
  function TwoTitlesDocument(channel: Name, item: Name, title: Name, a: string, b: string): Forest {
    Element(channel, "", Element(item, "", TwoTitles(title, a, b), Nil), Nil)
  }

  lemma OneText(text: string)
    ensures DeepText(TextLeaf(text, Nil)) == text
  {
    assert DeepText(TextLeaf(text, Nil)) == text + "" == text;
  }

  lemma PlainTitle(title: Name, text: string, rest: Forest)
    requires title.local == Title && ItemOk(rest) && DescriptionOf(rest) == ""
    ensures var f := Element(title, "", TextLeaf(text, Nil), rest);
      ItemOk(f) && DescriptionOf(f) == ""
  {
    var leaf := TextLeaf(text, Nil);
    assert NoneNamed(Nil, Title) && NoChannelItem(Nil, false);
    assert NoneNamed(leaf, Title) && NoChannelItem(leaf, false);
  }

  lemma TwoTitlesMapped(fmt: Formatter, title: Name, a: string, b: string)
    requires title.local == Title
    ensures DescriptionOf(TwoTitles(title, a, b)) == "" && ItemOk(TwoTitles(title, a, b))
    ensures MapItem(fmt, TwoTitles(title, a, b), "", "")
         == [Start(title, ""), Text(fmt(a, "")), End(title), Start(title, ""), Text(fmt(a + b, "")), End(title)]
    ensures ItemChanges(fmt, TwoTitles(title, a, b), "", "") <==> fmt(a, "") != a || fmt(a + b, "") != a + b
    ensures TitlesStartClean(TwoTitles(title, a, b), "") <==> a == ""
  {
    var second := Element(title, "", TextLeaf(b, Nil), Nil);
    OneText(a);
    OneText(b);
    assert "" + a == a;
    PlainTitle(title, b, Nil);
    PlainTitle(title, a, second);
    assert MapItem(fmt, second, "", a) == [Start(title, ""), Text(fmt(a + b, "")), End(title)];
    assert ItemChanges(fmt, second, "", a) <==> fmt(a + b, "") != a + b;
    assert TitlesStartClean(second, a) <==> a == "";
  }

  lemma Flattened(a: Token, b: Token, inner: seq<Token>, c: Token, d: Token)
    ensures [a] + ([b] + inner + [c] + []) + [d] + [] == [a, b] + inner + [c, d]
  {
  }

  lemma TwoTitlesDocumentMapped(fmt: Formatter, channel: Name, item: Name, title: Name, a: string, b: string)
    requires channel.local == Channel && item.local == Item && title.local == Title
    ensures var f := TwoTitlesDocument(channel, item, title, a, b);
      && DocumentOk(f, false) && (CleanDocument(f, false) <==> a == "")
      && MapDocument(fmt, f, false)
         == [Start(channel, ""), Start(item, "")]
            + MapItem(fmt, TwoTitles(title, a, b), "", "") + [End(item), End(channel)]
      && (DocumentChanges(fmt, f, false) <==> fmt(a, "") != a || fmt(a + b, "") != a + b)
  {
    var inner := Element(item, "", TwoTitles(title, a, b), Nil);
    var titles := MapItem(fmt, TwoTitles(title, a, b), "", "");
    TwoTitlesMapped(fmt, title, a, b);
    assert DocumentOk(inner, true) && (CleanDocument(inner, true) <==> a == "");
    assert MapDocument(fmt, inner, true) == [Start(item, "")] + titles + [End(item)] + [];
    assert DocumentChanges(fmt, inner, true) <==> fmt(a, "") != a || fmt(a + b, "") != a + b;
    Flattened(Start(channel, ""), Start(item, ""), titles, End(item), End(channel));
  }

  /** In the document the rewriter returns, the second of two titles is formatted from both
      texts; so unless the first is empty, some formatter gets a text that is not the title's own. */
  lemma SecondTitleTakesBoth(fmt: Formatter, channel: Name, item: Name, title: Name, a: string, b: string)
    requires channel.local == Channel && item.local == Item && title.local == Title
    requires fmt(a, "") != a || fmt(a + b, "") != a + b
    ensures var f := TwoTitlesDocument(channel, item, title, a, b);
      && DocumentOk(f, false)
      && Rewrite(fmt, Tokens(f)) ==
           [Start(channel, ""), Start(item, "")]
           + [Start(title, ""), Text(fmt(a, "")), End(title), Start(title, ""), Text(fmt(a + b, "")), End(title)]
           + [End(item), End(channel)]
      && (a != "" ==> exists g :: !RewritesOwn(g, f))
  {
    var f := TwoTitlesDocument(channel, item, title, a, b);
    TwoTitlesMapped(fmt, title, a, b);
    TwoTitlesDocumentMapped(fmt, channel, item, title, a, b);
    StreamingRefinesTree(fmt, f);
    OwnTitlesExactlyWhenClean(f);
  }
}
