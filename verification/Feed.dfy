/** Counting, merging and trimming of RSS feeds by tag search (internal/proxy/xml.go),
    proved against a structured feed: a list of items and a footer. */
module Feed {
  import opened Text

  /** The tags the searches look for. Nothing below depends on their spelling,
      only on `Distinct`. */
  datatype Markup = Markup(itemOpen: string, itemClose: string, channelClose: string) {
    /** Each tag holds `<` only in front and `>` only at its end, and no two start alike for long. */
    ghost predicate Distinct() {
      && IsTag(itemOpen) && IsTag(itemClose) && IsTag(channelClose)
      && |itemOpen| > 2 && |itemClose| > 2 && |channelClose| > 2
      && itemOpen[1] != itemClose[1] && itemOpen[1] != channelClose[1]
      && itemClose[2] != channelClose[2]
      && ClosedTag(itemOpen) && ClosedTag(itemClose)
    }
  }

  ghost predicate ClosedTag(tag: string) {
    forall k | 0 <= k < |tag| - 1 :: tag[k] != '>'
  }

  const RSS := Markup("<item>", "</item>", "</channel>")

  lemma RssIsDistinct()
    ensures RSS.Distinct()
  {
  }

  function CountItems(m: Markup, xml: string): nat
    requires m.itemOpen != ""
  {
    if TrimSpace(xml) == "" then 0 else CountFrom(xml, m.itemOpen, 0)
  }

  function MergeXml(m: Markup, a: string, b: string): string {
    if a == "" then b
    else if b == "" then a
    else if !Contains(a, m.itemOpen) then b
    else if !Contains(b, m.itemOpen) then a
    else
      var cutA := Index(a, m.channelClose);
      var startB := Index(b, m.itemOpen);
      if cutA < 0 || startB < 0 then a else a[..cutA] + b[startB..]
  }

  /** Joining any texts: an empty text and one without items give way to the other, and a first text
      whose channel is not closed stays as it is. */
  lemma MergingWithoutItems(m: Markup, a: string, b: string)
    requires m.itemOpen != ""
    ensures a == "" || b == "" ==> MergeXml(m, a, b) == a + b
    ensures b != "" && Lacks(a, m.itemOpen) ==> MergeXml(m, a, b) == b
    ensures !Lacks(a, m.itemOpen) && Lacks(b, m.itemOpen) ==> MergeXml(m, a, b) == a
    ensures !Lacks(a, m.itemOpen) && Lacks(a, m.channelClose) ==> MergeXml(m, a, b) == a || Lacks(b, m.itemOpen)
  {
    LackingIs(a, m.itemOpen);
    LackingIs(b, m.itemOpen);
    LackingIs(a, m.channelClose);
  }

  lemma LackingIs(s: string, sub: string)
    ensures Lacks(s, sub) <==> !Contains(s, sub)
  {
    IndexSpec(s, sub);
  }

  /** Position of occurrence number `n`, counted from 0 and from `pos` on, or -1. */
  function NthIndex(s: string, sub: string, pos: nat, n: nat): (i: int)
    requires pos <= |s|
    ensures i == -1 || pos <= i <= |s| - |sub|
    decreases n
  {
    var i := IndexFrom(s, sub, pos);
    if i < 0 || n == 0 then i else NthIndex(s, sub, i + |sub|, n - 1)
  }

  /** What `TrimXmlItems` leaves of a feed. */
  function Trimmed(m: Markup, xml: string, limit: int): string
    requires m.itemOpen != ""
  {
    if limit <= 0 || CountItems(m, xml) <= limit then xml
    else
      var idx := NthIndex(xml, m.itemOpen, 0, limit);
      var lastClose := LastIndex(xml, m.itemClose);
      if idx < 0 || lastClose < 0 then xml
      else xml[..idx] + xml[lastClose + |m.itemClose|..]
  }

  /** The search loop of `TrimXmlItems`: skips `n` occurrences and returns the next. */
  method SkipOccurrences(xml: string, sub: string, n: nat) returns (idx: int)
    requires sub != ""
    ensures idx == NthIndex(xml, sub, 0, n)
  {
    idx := -1;
    var pos := 0;
    for i := 0 to n + 1
      invariant 0 <= pos <= |xml|
      invariant i <= n ==> NthIndex(xml, sub, 0, n) == NthIndex(xml, sub, pos, n - i)
      invariant i > n ==> NthIndex(xml, sub, 0, n) == idx
    {
      var k := Index(xml[pos..], sub);
      IndexInSuffix(xml, sub, pos, pos);
      if k < 0 {
        return -1;
      }
      idx := pos + k;
      pos := idx + |sub|;
    }
  }

  method TrimXmlItems(m: Markup, xml: string, limit: int) returns (r: string)
    requires m.itemOpen != ""
    ensures r == Trimmed(m, xml, limit)
  {
    if limit <= 0 || CountItems(m, xml) <= limit {
      return xml;
    }
    var idx := SkipOccurrences(xml, m.itemOpen, limit);
    if idx < 0 {
      return xml;
    }
    var lastClose := LastIndex(xml, m.itemClose);
    if lastClose < 0 {
      return xml;
    }
    r := xml[..idx] + xml[lastClose + |m.itemClose|..];
  }

  // ----- The structured feed -----

  /** One item and the text between the previous item and it; the text before
      the first item is the header of the feed. */
  datatype Item = Item(pre: string, body: string)

  datatype Feed = Feed(items: seq<Item>, footer: string) {
    function Render(m: Markup): string {
      RenderOnto(m, items, footer)
    }

    function Bodies(): seq<string> {
      BodiesOf(items)
    }

    /** The item tags appear only around the items, `</channel>` only in the footer. */
    ghost predicate Wf(m: Markup) {
      && (forall it | it in items :: CleanItem(m, it))
      && Lacks(footer, m.itemOpen) && Lacks(footer, m.itemClose)
      && Contains(footer, m.channelClose)
    }

    /** No text between two items ends in the middle of a tag. */
    ghost predicate GapsClosed() {
      forall i | 1 <= i < |items| :: Closed(items[i].pre)
    }
  }

  function BodiesOf(items: seq<Item>): (r: seq<string>)
    ensures |r| == |items|
  {
    if items == [] then [] else [items[0].body] + BodiesOf(items[1..])
  }

  function RenderItem(m: Markup, it: Item, tail: string): string {
    it.pre + (m.itemOpen + (it.body + (m.itemClose + tail)))
  }

  function RenderOnto(m: Markup, items: seq<Item>, tail: string): string {
    if items == [] then tail else RenderItem(m, items[0], RenderOnto(m, items[1..], tail))
  }

  ghost predicate CleanItem(m: Markup, it: Item) {
    forall tag | tag in {m.itemOpen, m.itemClose, m.channelClose} ::
      Lacks(it.pre, tag) && Lacks(it.body, tag)
  }

  /** Every `<` in `s` is followed by a `>`. */
  ghost predicate Closed(s: string) {
    forall i | 0 <= i < |s| && s[i] == '<' :: exists j :: i < j < |s| && s[j] == '>'
  }

  /** Reference reading of any text from `pos` on: the bodies between item tags, left to right. */
  function ParseBodies(m: Markup, xml: string, pos: nat): seq<string>
    requires m.itemOpen != "" && pos <= |xml|
    decreases |xml| - pos
  {
    var i := IndexFrom(xml, m.itemOpen, pos);
    if i < 0 then []
    else
      var start := i + |m.itemOpen|;
      var j := IndexFrom(xml, m.itemClose, start);
      if j < 0 then [] else [xml[start..j]] + ParseBodies(m, xml, j + |m.itemClose|)
  }

  // ----- Where the tags are in a rendered feed -----

  /** The pieces of the feed lie one behind the other in `s`, from `pos` to its end. */
  ghost predicate Shows(m: Markup, s: string, pos: nat, items: seq<Item>, footer: string)
    decreases |items|
  {
    if items == [] then MatchAt(s, footer, pos) && pos + |footer| == |s|
    else
      ShowsItem(m, s, pos, items[0]) && Shows(m, s, pos + ItemLength(m, items[0]), items[1..], footer)
  }

  function ItemLength(m: Markup, it: Item): nat {
    |it.pre| + |m.itemOpen| + |it.body| + |m.itemClose|
  }

  ghost predicate ShowsItem(m: Markup, s: string, pos: nat, it: Item) {
    var open := pos + |it.pre|;
    var start := open + |m.itemOpen|;
    && MatchAt(s, it.pre, pos) && MatchAt(s, m.itemOpen, open)
    && MatchAt(s, it.body, start) && MatchAt(s, m.itemClose, start + |it.body|)
  }

  lemma ShowsMore(m: Markup, s: string, pos: nat, items: seq<Item>, footer: string)
    requires items != [] && ShowsItem(m, s, pos, items[0])
    requires Shows(m, s, pos + ItemLength(m, items[0]), items[1..], footer)
    ensures Shows(m, s, pos, items, footer)
  {
  }

  lemma {:induction false} RenderShows(m: Markup, s: string, pos: nat, items: seq<Item>, footer: string)
    requires pos <= |s| && s[pos..] == RenderOnto(m, items, footer)
    ensures Shows(m, s, pos, items, footer)
    decreases |items|
  {
    if items == [] {
      assert footer == footer + "";
      PlacedPrefix(s, pos, footer, "");
    } else {
      var next := ItemShows(m, s, pos, items[0], RenderOnto(m, items[1..], footer));
      RenderShows(m, s, next, items[1..], footer);
      ShowsMore(m, s, pos, items, footer);
    }
  }

  lemma TwoPlaced(s: string, pos: nat, a: string, b: string, tail: string)
    requires pos <= |s| && s[pos..] == a + (b + tail)
    ensures MatchAt(s, a, pos) && MatchAt(s, b, pos + |a|)
    ensures pos + |a| + |b| <= |s| && s[pos + |a| + |b|..] == tail
  {
    PlacedPrefix(s, pos, a, b + tail);
    PlacedPrefix(s, pos + |a|, b, tail);
  }

  lemma ItemShows(m: Markup, s: string, pos: nat, it: Item, tail: string) returns (next: nat)
    requires pos <= |s| && s[pos..] == RenderItem(m, it, tail)
    ensures ShowsItem(m, s, pos, it) && next == pos + ItemLength(m, it) <= |s| && s[next..] == tail
  {
    next := pos + |it.pre| + |m.itemOpen|;
    TwoPlaced(s, pos, it.pre, m.itemOpen, it.body + (m.itemClose + tail));
    TwoPlaced(s, next, it.body, m.itemClose, tail);
    next := next + |it.body| + |m.itemClose|;
  }

  /** What the searches see of the first item: where it opens, where it closes, where to go on. */
  lemma NextItem(m: Markup, s: string, pos: nat, items: seq<Item>, footer: string)
      returns (open: nat, close: nat, next: nat)
    requires m.Distinct() && items != [] && CleanItem(m, items[0])
    requires Shows(m, s, pos, items, footer)
    ensures open == pos + |items[0].pre| && close == open + |m.itemOpen| + |items[0].body|
    ensures next == close + |m.itemClose| <= |s| && Shows(m, s, next, items[1..], footer)
    ensures s[open + |m.itemOpen|..close] == items[0].body
    ensures IndexFrom(s, m.itemOpen, pos) == open
    ensures IndexFrom(s, m.itemClose, open + |m.itemOpen|) == close
    ensures IndexFrom(s, m.itemOpen, open + |m.itemOpen|) == IndexFrom(s, m.itemOpen, next)
  {
    open, close, next := ItemFound(m, s, pos, items[0]);
  }

  lemma ItemFound(m: Markup, s: string, pos: nat, it: Item) returns (open: nat, close: nat, next: nat)
    requires m.Distinct() && CleanItem(m, it) && ShowsItem(m, s, pos, it)
    ensures open == pos + |it.pre| && close == open + |m.itemOpen| + |it.body|
    ensures next == close + |m.itemClose| == pos + ItemLength(m, it) && next <= |s|
    ensures s[open + |m.itemOpen|..close] == it.body
    ensures IndexFrom(s, m.itemOpen, pos) == open
    ensures IndexFrom(s, m.itemClose, open + |m.itemOpen|) == close
    ensures IndexFrom(s, m.itemOpen, open + |m.itemOpen|) == IndexFrom(s, m.itemOpen, next)
  {
    open := pos + |it.pre|;
    var start := open + |m.itemOpen|;
    close := start + |it.body|;
    next := close + |m.itemClose|;
    PlacedText(s, start, it.body);
    TagFound(s, pos, it.pre, m.itemOpen);
    TagFound(s, start, it.body, m.itemClose);
    OtherTagSkipped(s, start, it.body, m.itemClose, m.itemOpen);
  }

  /** Behind a text without it a tag is found where the text ends. */
  lemma TagFound(s: string, pos: nat, a: string, tag: string)
    requires IsTag(tag) && MatchAt(s, a, pos) && MatchAt(s, tag, pos + |a|) && Lacks(a, tag)
    ensures IndexFrom(s, tag, pos) == pos + |a|
  {
    assert Same(s, tag, pos + |a|, 0);
    NoTagInPiece(s, pos, a, tag);
    SkipFree(s, tag, pos, pos + |a|);
  }

  /** Another tag is searched for past a text and the tag that ends it. */
  lemma OtherTagSkipped(s: string, pos: nat, a: string, tag: string, other: string)
    requires IsTag(tag) && IsTag(other) && |tag| > 1 && |other| > 1 && tag[1] != other[1]
    requires MatchAt(s, a, pos) && MatchAt(s, tag, pos + |a|) && Lacks(a, other)
    ensures IndexFrom(s, other, pos) == IndexFrom(s, other, pos + |a| + |tag|)
  {
    assert Same(s, tag, pos + |a|, 0);
    NoTagInPiece(s, pos, a, other);
    NoOtherTagInTag(s, pos + |a|, tag, other, 1);
    SkipFree(s, other, pos, pos + |a| + |tag|);
  }

  lemma NothingMore(m: Markup, s: string, pos: nat, footer: string)
    requires IsTag(m.itemOpen) && Shows(m, s, pos, [], footer) && Lacks(footer, m.itemOpen)
    ensures pos <= |s| && IndexFrom(s, m.itemOpen, pos) < 0
  {
    NoTagInPiece(s, pos, footer, m.itemOpen);
    SkipFree(s, m.itemOpen, pos, |s|);
  }

  lemma CountStep(s: string, sub: string, pos: nat, open: nat, next: nat)
    requires sub != "" && pos <= |s| && next <= |s| && IndexFrom(s, sub, pos) == open
    requires IndexFrom(s, sub, open + |sub|) == IndexFrom(s, sub, next)
    ensures CountFrom(s, sub, pos) == 1 + CountFrom(s, sub, next)
  {
    assert CountFrom(s, sub, open + |sub|) == CountFrom(s, sub, next);
  }

  lemma NthStep(s: string, sub: string, pos: nat, open: nat, next: nat, n: nat)
    requires n > 0 && pos <= |s| && next <= |s| && IndexFrom(s, sub, pos) == open
    requires IndexFrom(s, sub, open + |sub|) == IndexFrom(s, sub, next)
    ensures NthIndex(s, sub, pos, n) == NthIndex(s, sub, next, n - 1)
  {
    assert NthIndex(s, sub, open + |sub|, n - 1) == NthIndex(s, sub, next, n - 1);
  }

  lemma ParseStep(m: Markup, s: string, pos: nat, open: nat, close: nat, next: nat, items: seq<Item>)
    requires m.itemOpen != "" && pos <= |s|
    requires IndexFrom(s, m.itemOpen, pos) == open && IndexFrom(s, m.itemClose, open + |m.itemOpen|) == close
    requires next == close + |m.itemClose| && items != []
    requires s[open + |m.itemOpen|..close] == items[0].body && ParseBodies(m, s, next) == BodiesOf(items[1..])
    ensures ParseBodies(m, s, pos) == BodiesOf(items)
  {
  }

  /** Counting opening tags counts the items. */
  lemma {:induction false} CountReadsBack(m: Markup, s: string, pos: nat, items: seq<Item>, footer: string)
    requires m.Distinct() && (forall it | it in items :: CleanItem(m, it)) && Lacks(footer, m.itemOpen)
    requires pos <= |s| && Shows(m, s, pos, items, footer)
    ensures CountFrom(s, m.itemOpen, pos) == |items|
    decreases |items|
  {
    if items == [] {
      NothingMore(m, s, pos, footer);
    } else {
      var open, close, next := NextItem(m, s, pos, items, footer);
      CountReadsBack(m, s, next, items[1..], footer);
      CountStep(s, m.itemOpen, pos, open, next);
    }
  }

  /** Reading the text back gives the bodies of the items. */
  lemma {:induction false} BodiesReadBack(m: Markup, s: string, pos: nat, items: seq<Item>, footer: string)
    requires m.Distinct() && (forall it | it in items :: CleanItem(m, it)) && Lacks(footer, m.itemOpen)
    requires pos <= |s| && Shows(m, s, pos, items, footer)
    ensures ParseBodies(m, s, pos) == BodiesOf(items)
    decreases |items|
  {
    if items == [] {
      NothingMore(m, s, pos, footer);
    } else {
      var open, close, next := NextItem(m, s, pos, items, footer);
      BodiesReadBack(m, s, next, items[1..], footer);
      ParseStep(m, s, pos, open, close, next, items);
    }
  }

  lemma {:induction false} BodiesConcat(a: seq<Item>, b: seq<Item>)
    ensures BodiesOf(a + b) == BodiesOf(a) + BodiesOf(b)
  {
    if a == [] {
      assert a + b == b;
    } else {
      assert (a + b)[1..] == a[1..] + b;
      BodiesConcat(a[1..], b);
    }
  }

  lemma {:induction false} BodiesTake(items: seq<Item>, n: nat)
    requires n <= |items|
    ensures BodiesOf(items[..n]) == BodiesOf(items)[..n]
  {
    assert items == items[..n] + items[n..];
    BodiesConcat(items[..n], items[n..]);
  }

  /** `countItems` counts the items of a rendered feed, and they can be read back. */
  lemma ReadBack(m: Markup, f: Feed)
    requires m.Distinct() && f.Wf(m)
    ensures CountItems(m, f.Render(m)) == |f.items|
    ensures ParseBodies(m, f.Render(m), 0) == f.Bodies()
    ensures Contains(f.Render(m), m.itemOpen) <==> f.items != []
  {
    var s := f.Render(m);
    assert s[0..] == s;
    RenderShows(m, s, 0, f.items, f.footer);
    CountReadsBack(m, s, 0, f.items, f.footer);
    BodiesReadBack(m, s, 0, f.items, f.footer);
    BlankHasNoTag(m, s);
  }

  lemma BlankHasNoTag(m: Markup, s: string)
    requires IsTag(m.itemOpen)
    ensures TrimSpace(s) == "" ==> CountFrom(s, m.itemOpen, 0) == 0
  {
    var i := IndexFrom(s, m.itemOpen, 0);
    if TrimSpace(s) == "" && i >= 0 {
      IndexFromSpec(s, m.itemOpen, 0, i);
      assert Same(s, m.itemOpen, i, 0);
      BlankIsSpaces(s, i);
    }
  }

  lemma BlankIsSpaces(s: string, i: nat)
    requires TrimSpace(s) == "" && i < |s|
    ensures IsSpace(s[i])
  {
    TrimLeftSpec(s);
    TrimRightSpec(TrimLeft(s));
  }

  /** Rendering is compositional. */
  lemma {:induction false} RenderConcat(m: Markup, a: seq<Item>, b: seq<Item>, tail: string)
    ensures RenderOnto(m, a + b, tail) == RenderOnto(m, a, RenderOnto(m, b, tail))
  {
    if a == [] {
      assert a + b == b;
    } else {
      assert (a + b)[1..] == a[1..] + b;
      RenderConcat(m, a[1..], b, tail);
    }
  }

  lemma ItemPrefix(m: Markup, it: Item, front: string, tail: string)
    ensures RenderItem(m, it, front + tail) == RenderItem(m, it, front) + tail
  {
    Assoc(m.itemClose, front, tail);
    Assoc(it.body, m.itemClose + front, tail);
    Assoc(m.itemOpen, it.body + (m.itemClose + front), tail);
    Assoc(it.pre, m.itemOpen + (it.body + (m.itemClose + front)), tail);
  }

  lemma {:induction false} RenderPrefix(m: Markup, items: seq<Item>, tail: string)
    ensures RenderOnto(m, items, tail) == RenderOnto(m, items, "") + tail
  {
    if items != [] {
      RenderPrefix(m, items[1..], tail);
      ItemPrefix(m, items[0], RenderOnto(m, items[1..], ""), tail);
    }
  }

  // ----- Trimming -----

  /** Occurrence number `n` of the opening tag is that of item number `n`. */
  lemma {:induction false} NthItemOpens(m: Markup, s: string, pos: nat, items: seq<Item>, footer: string, n: nat)
    requires m.Distinct() && n < |items| && forall it | it in items :: CleanItem(m, it)
    requires pos <= |s| && Shows(m, s, pos, items, footer)
    ensures NthIndex(s, m.itemOpen, pos, n) == pos + |RenderOnto(m, items[..n], "")| + |items[n].pre|
    decreases n
  {
    var open, close, next := NextItem(m, s, pos, items, footer);
    if n == 0 {
      assert items[..0] == [];
    } else {
      NthItemOpens(m, s, next, items[1..], footer, n - 1);
      LaterItemOpens(m, s, pos, items, n, open, next);
    }
  }

  lemma LaterItemOpens(m: Markup, s: string, pos: nat, items: seq<Item>, n: nat, open: nat, next: nat)
    requires m.itemOpen != "" && 0 < n < |items| && pos <= open && next <= |s|
    requires open == pos + |items[0].pre| && next == open + |m.itemOpen| + |items[0].body| + |m.itemClose|
    requires IndexFrom(s, m.itemOpen, pos) == open
    requires IndexFrom(s, m.itemOpen, open + |m.itemOpen|) == IndexFrom(s, m.itemOpen, next)
    requires NthIndex(s, m.itemOpen, next, n - 1)
         == next + |RenderOnto(m, items[1..][..n - 1], "")| + |items[1..][n - 1].pre|
    ensures NthIndex(s, m.itemOpen, pos, n) == pos + |RenderOnto(m, items[..n], "")| + |items[n].pre|
  {
    NthStep(s, m.itemOpen, pos, open, next, n);
    FrontStep(m, items, n);
  }

  lemma FrontStep(m: Markup, items: seq<Item>, n: nat)
    requires 0 < n < |items|
    ensures |RenderOnto(m, items[..n], "")| + |items[n].pre|
         == |items[0].pre| + |m.itemOpen| + |items[0].body| + |m.itemClose|
            + |RenderOnto(m, items[1..][..n - 1], "")| + |items[1..][n - 1].pre|
  {
    assert items[..n][1..] == items[1..][..n - 1];
  }

  /** The rendered items end with a closing tag. */
  lemma {:induction false} ItemsEndClosed(m: Markup, items: seq<Item>) returns (lead: string)
    requires items != []
    ensures RenderOnto(m, items, "") == lead + m.itemClose
  {
    var it := items[0];
    if |items| == 1 {
      lead := it.pre + (m.itemOpen + it.body);
    } else {
      var rest := ItemsEndClosed(m, items[1..]);
      lead := RenderItem(m, it, rest);
      ItemPrefix(m, it, rest, m.itemClose);
    }
  }

  lemma LastTagBeforeTail(a: string, tag: string, tail: string)
    requires IsTag(tag) && Lacks(tail, tag)
    ensures LastIndex((a + tag) + tail, tag) == |a|
  {
    var s := (a + tag) + tail;
    Assoc(a, tag, tail);
    MatchInMiddle(a, tag, tail);
    DropAppend(a + tag, tail);
    forall i | |a| < i <= |s| ensures !MatchAt(s, tag, i) {
      if i < |a| + |tag| {
        assert i + |tag| <= |s| ==> !Same(s, tag, i, 0);
      } else {
        ShiftMatch(s, tag, |a + tag|, i - |a + tag|);
      }
    }
    LastIndexUpToIs(s, tag, |s|, |a|);
  }

  /** The text of a feed up to the gap behind its first `n` items. */
  lemma FrontAndGap(m: Markup, f: Feed, n: nat)
    requires n < |f.items|
    ensures var front, gap := RenderOnto(m, f.items[..n], ""), f.items[n].pre;
      |front| + |gap| <= |f.Render(m)| && f.Render(m)[..|front| + |gap|] == front + gap
  {
    var front, gap := RenderOnto(m, f.items[..n], ""), f.items[n].pre;
    var rest := RenderOnto(m, f.items[n..], f.footer);
    assert f.items == f.items[..n] + f.items[n..];
    RenderConcat(m, f.items[..n], f.items[n..], f.footer);
    RenderPrefix(m, f.items[..n], rest);
    var more := m.itemOpen + (f.items[n].body + (m.itemClose + RenderOnto(m, f.items[n..][1..], f.footer)));
    Assoc(front, gap, more);
    DropAppend(front + gap, more);
  }

  /** Cutting a rendered feed to `limit` items: the text kept is the rendering of
      the first `limit` items, with the gap that followed them in front of the footer. */
  lemma TrimRefinesTake(m: Markup, f: Feed, limit: nat)
    requires m.Distinct() && f.Wf(m) && 0 < limit < |f.items|
    ensures Trimmed(m, f.Render(m), limit) == Feed(f.items[..limit], f.items[limit].pre + f.footer).Render(m)
  {
    var front, gap := RenderOnto(m, f.items[..limit], ""), f.items[limit].pre;
    TrimOfFeed(m, f, limit);
    RenderPrefix(m, f.items[..limit], gap + f.footer);
    Assoc(front, gap, f.footer);
  }

  lemma TrimOfFeed(m: Markup, f: Feed, limit: nat)
    requires m.Distinct() && f.Wf(m) && 0 < limit < |f.items|
    ensures Trimmed(m, f.Render(m), limit)
         == (RenderOnto(m, f.items[..limit], "") + f.items[limit].pre) + f.footer
  {
    ReadBack(m, f);
    WhereToCut(m, f, limit);
    FrontAndGap(m, f, limit);
    FooterStart(m, f);
  }

  lemma WhereToCut(m: Markup, f: Feed, n: nat)
    requires m.Distinct() && f.Wf(m) && n < |f.items|
    ensures NthIndex(f.Render(m), m.itemOpen, 0, n) == |RenderOnto(m, f.items[..n], "")| + |f.items[n].pre|
  {
    var s := f.Render(m);
    assert s[0..] == s;
    RenderShows(m, s, 0, f.items, f.footer);
    NthItemOpens(m, s, 0, f.items, f.footer, n);
  }

  lemma FooterStart(m: Markup, f: Feed)
    requires m.Distinct() && f.Wf(m) && f.items != []
    ensures LastIndex(f.Render(m), m.itemClose) >= 0
    ensures f.Render(m)[LastIndex(f.Render(m), m.itemClose) + |m.itemClose|..] == f.footer
  {
    var lead := ItemsEndClosed(m, f.items);
    RenderPrefix(m, f.items, f.footer);
    LastTagBeforeTail(lead, m.itemClose, f.footer);
    DropAppend(lead + m.itemClose, f.footer);
  }

  /** No tag arises where a closed gap meets the footer. */
  lemma NoTagAcrossClosedGap(gap: string, footer: string, tag: string)
    requires IsTag(tag) && ClosedTag(tag)
    requires Closed(gap) && Lacks(gap, tag) && Lacks(footer, tag)
    ensures Lacks(gap + footer, tag)
  {
    var s := gap + footer;
    DropAppend(gap, footer);
    forall i: int ensures !MatchAt(s, tag, i) {
      if |gap| <= i <= |s| {
        ShiftMatch(s, tag, |gap|, i - |gap|);
      } else if i < 0 || i > |s| {
      } else if i + |tag| <= |gap| {
        MatchInPrefix(gap, footer, tag, i);
      } else if gap[i] == '<' {
        var j :| i < j < |gap| && gap[j] == '>';
        assert i + |tag| <= |s| ==> !Same(s, tag, i, j - i);
      } else {
        assert i + |tag| <= |s| ==> !Same(s, tag, i, 0);
      }
    }
  }

  /** A trimmed feed is a feed again. */
  lemma TrimKeepsWf(m: Markup, f: Feed, limit: nat)
    requires m.Distinct() && f.Wf(m) && f.GapsClosed() && 0 < limit < |f.items|
    ensures Feed(f.items[..limit], f.items[limit].pre + f.footer).Wf(m)
  {
    var gap := f.items[limit].pre;
    assert CleanItem(m, f.items[limit]);
    NoTagAcrossClosedGap(gap, f.footer, m.itemOpen);
    NoTagAcrossClosedGap(gap, f.footer, m.itemClose);
    var k := Index(f.footer, m.channelClose);
    DropAppend(gap, f.footer);
    IndexSpec(f.footer, m.channelClose);
    ShiftMatch(gap + f.footer, m.channelClose, |gap|, k);
    IndexSpec(gap + f.footer, m.channelClose);
  }

  // ----- Merging -----

  /** The feed that merging two non-empty feeds yields: whatever stood in front of
      `</channel>` in the first footer ends up between the two item lists. */
  function MergedFeed(m: Markup, a: Feed, b: Feed): Feed
    requires a.items != [] && b.items != []
    requires Contains(a.footer, m.channelClose)
  {
    var seam := a.footer[..Index(a.footer, m.channelClose)];
    Feed(a.items + ([Item(seam, b.items[0].body)] + b.items[1..]), b.footer)
  }

  lemma NoChannelCloseInItem(m: Markup, it: Item, tail: string, n: nat)
    requires m.Distinct() && CleanItem(m, it) && n <= |tail| && FreeBefore(tail, m.channelClose, n)
    ensures FreeBefore(RenderItem(m, it, tail), m.channelClose, |RenderItem(m, it, tail)| - |tail| + n)
  {
    var closing := m.itemClose + tail;
    var inner := it.body + closing;
    NoTagInsideTag(m.itemClose, tail, m.channelClose, 2);
    FreeConcat(m.itemClose, tail, m.channelClose, n);
    NoTagAcrossSeam(it.body, closing, m.channelClose);
    FreeConcat(it.body, closing, m.channelClose, |m.itemClose| + n);
    NoTagInsideTag(m.itemOpen, inner, m.channelClose, 1);
    FreeConcat(m.itemOpen, inner, m.channelClose, |it.body| + |m.itemClose| + n);
    NoTagAcrossSeam(it.pre, m.itemOpen + inner, m.channelClose);
    FreeConcat(it.pre, m.itemOpen + inner, m.channelClose, |m.itemOpen| + |it.body| + |m.itemClose| + n);
  }

  lemma {:induction false} NoChannelCloseInItems(m: Markup, items: seq<Item>, footer: string)
    requires m.Distinct() && forall it | it in items :: CleanItem(m, it)
    ensures FreeBefore(RenderOnto(m, items, footer), m.channelClose, |RenderOnto(m, items, "")|)
  {
    if items != [] {
      NoChannelCloseInItems(m, items[1..], footer);
      RenderPrefix(m, items[1..], footer);
      NoChannelCloseInItem(m, items[0], RenderOnto(m, items[1..], footer), |RenderOnto(m, items[1..], "")|);
    }
  }

  /** The cut in the first feed falls at its `</channel>`. */
  lemma CutAtChannel(m: Markup, a: Feed)
    requires m.Distinct() && a.Wf(m)
    ensures var s := a.Render(m);
      var cut := Index(s, m.channelClose);
      cut >= 0 && s[..cut] == RenderOnto(m, a.items, "") + a.footer[..Index(a.footer, m.channelClose)]
  {
    var s, front := a.Render(m), RenderOnto(m, a.items, "");
    RenderPrefix(m, a.items, a.footer);
    DropAppend(front, a.footer);
    NoChannelCloseInItems(m, a.items, a.footer);
    SkipFree(s, m.channelClose, 0, |front|);
    IndexInSuffix(s, m.channelClose, |front|, |front|);
    var k := Index(a.footer, m.channelClose);
    assert a.footer == a.footer[..k] + a.footer[k..];
    Assoc(front, a.footer[..k], a.footer[k..]);
    DropAppend(front + a.footer[..k], a.footer[k..]);
  }

  /** The cut in the second feed falls where its first item opens. */
  lemma CutAtFirstItem(m: Markup, b: Feed)
    requires m.Distinct() && b.Wf(m) && b.items != []
    ensures Index(b.Render(m), m.itemOpen) == |b.items[0].pre|
    ensures b.Render(m)[|b.items[0].pre|..]
         == m.itemOpen + (b.items[0].body + (m.itemClose + RenderOnto(m, b.items[1..], b.footer)))
  {
    var it := b.items[0];
    var rest := it.body + (m.itemClose + RenderOnto(m, b.items[1..], b.footer));
    assert b.Render(m)[0..] == b.Render(m);
    RenderShows(m, b.Render(m), 0, b.items, b.footer);
    var open, close, next := NextItem(m, b.Render(m), 0, b.items, b.footer);
    DropAppend(it.pre, m.itemOpen + rest);
  }

  lemma MergedRender(m: Markup, a: Feed, b: Feed)
    requires a.items != [] && b.items != [] && Contains(a.footer, m.channelClose)
    ensures var seam := a.footer[..Index(a.footer, m.channelClose)];
      var rest := m.itemOpen + (b.items[0].body + (m.itemClose + RenderOnto(m, b.items[1..], b.footer)));
      MergedFeed(m, a, b).Render(m) == (RenderOnto(m, a.items, "") + seam) + rest
  {
    var seam := a.footer[..Index(a.footer, m.channelClose)];
    var joined := [Item(seam, b.items[0].body)] + b.items[1..];
    var rest := m.itemOpen + (b.items[0].body + (m.itemClose + RenderOnto(m, b.items[1..], b.footer)));
    RenderConcat(m, a.items, joined, b.footer);
    RenderPrefix(m, a.items, RenderOnto(m, joined, b.footer));
    assert joined[1..] == b.items[1..];
    Assoc(RenderOnto(m, a.items, ""), seam, rest);
  }

  lemma MergedIsClean(m: Markup, a: Feed, b: Feed)
    requires m.Distinct() && a.Wf(m) && b.Wf(m) && a.items != [] && b.items != []
    ensures MergedFeed(m, a, b).Wf(m)
  {
    var seam := a.footer[..Index(a.footer, m.channelClose)];
    SeamIsClean(m, a.footer);
    assert CleanItem(m, b.items[0]);
    forall x | x in MergedFeed(m, a, b).items ensures CleanItem(m, x) {
      assert x in a.items || x == Item(seam, b.items[0].body) || x in b.items[1..];
    }
  }

  /** The part of a footer before `</channel>` holds none of the tags. */
  lemma SeamIsClean(m: Markup, footer: string)
    requires m.Distinct() && Contains(footer, m.channelClose)
    requires Lacks(footer, m.itemOpen) && Lacks(footer, m.itemClose)
    ensures forall tag | tag in {m.itemOpen, m.itemClose, m.channelClose} ::
      Lacks(footer[..Index(footer, m.channelClose)], tag)
  {
    var k := Index(footer, m.channelClose);
    IndexSpec(footer, m.channelClose);
    PrefixIsFree(footer, k, m.itemOpen);
    PrefixIsFree(footer, k, m.itemClose);
    PrefixIsFree(footer, k, m.channelClose);
  }

  lemma PrefixIsFree(s: string, k: nat, sub: string)
    requires k <= |s| && FreeBefore(s, sub, k) && sub != ""
    ensures Lacks(s[..k], sub)
  {
    assert s == s[..k] + s[k..];
    forall i ensures !MatchAt(s[..k], sub, i) {
      if 0 <= i <= k - |sub| {
        MatchInPrefix(s[..k], s[k..], sub, i);
      }
    }
  }

  /** Merging two rendered feeds that both hold items appends the item lists. */
  lemma MergeRefinesAppend(m: Markup, a: Feed, b: Feed)
    requires m.Distinct() && a.Wf(m) && b.Wf(m) && a.items != [] && b.items != []
    ensures MergeXml(m, a.Render(m), b.Render(m)) == MergedFeed(m, a, b).Render(m)
    ensures MergedFeed(m, a, b).Wf(m)
    ensures MergedFeed(m, a, b).Bodies() == a.Bodies() + b.Bodies()
  {
    MergeOfFeeds(m, a, b);
    MergedRender(m, a, b);
    MergedIsClean(m, a, b);
    var seam := a.footer[..Index(a.footer, m.channelClose)];
    BodiesConcat(a.items, [Item(seam, b.items[0].body)] + b.items[1..]);
  }

  lemma MergeOfFeeds(m: Markup, a: Feed, b: Feed)
    requires m.Distinct() && a.Wf(m) && b.Wf(m) && a.items != [] && b.items != []
    ensures MergeXml(m, a.Render(m), b.Render(m))
         == (RenderOnto(m, a.items, "") + a.footer[..Index(a.footer, m.channelClose)])
            + (m.itemOpen + (b.items[0].body + (m.itemClose + RenderOnto(m, b.items[1..], b.footer))))
  {
    ReadBack(m, a);
    ReadBack(m, b);
    CutAtChannel(m, a);
    CutAtFirstItem(m, b);
  }
}
