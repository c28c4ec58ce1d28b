/**
  The markdown viewer, `src/markdown.rs`: a `RenderState` driven by the
  parser's events through `start_tag`, `end_tag` and `event_text`.

  The parser is outside the model: rendering takes the event sequence as
  input. The egui calls become an output trace (`Output`) appended in call
  order, and the paragraph `LayoutJob` is the sequence of its spans. Colours,
  fonts and click handling are left to the widgets; the trace records which
  widget is drawn with which text and which style choices the code makes.
 */
module Markdown {
  import opened Wrappers
  import opened Text

  /** The start tags the renderer distinguishes; `OtherTag` stands for every tag it ignores. */
  datatype LinkKind = Inline | OtherLink

  datatype Tag =
    | Paragraph
    | BlockQuote
    | Heading(level: nat)
    | CodeBlock
    | List(start: Option<nat>)
    | Item
    | Strong
    | Emphasis
    | Link(kind: LinkKind, dest: string)
    | OtherTag

  datatype TagEnd =
    | EndParagraph
    | EndHeading
    | EndBlockQuote
    | EndCodeBlock
    | EndItem
    | EndStrong
    | EndEmphasis
    | EndLink
    | EndOther

  datatype Event =
    | Start(tag: Tag)
    | End(end: TagEnd)
    | Text(text: string)
    | Code(code: string)
    | Rule
    | SoftBreak
    | HardBreak
    | OtherEvent

  datatype RenderState = RenderState(
    isParagraph: bool,
    isListItem: bool,
    isBlockquote: bool,
    isCode: bool,
    isBold: bool,
    isItalic: bool,
    listPrefix: Option<string>,
    orderedIndex: nat,
    headingLevel: Option<nat>,
    link: Option<string>)

  /** How a span of a paragraph is laid out: egui's default format, or the body/heading font with or without italics. */
  datatype SpanFormat = DefaultFormat | Formatted(headingFont: bool, italics: bool)

  datatype Span = Span(text: string, format: SpanFormat)

  /** The style of a heading label: egui's heading style, strong at a size, or plain at a size. */
  datatype HeadingStyle = HeadingTextStyle | StrongSized(size: nat) | Sized(size: nat)

  datatype LinkTarget = Anchor(name: string) | External(url: string)

  /** The widgets the renderer draws, in order. */
  datatype Output =
    | Label(text: string, strong: bool, italics: bool)
    | Hyperlink(text: string, target: LinkTarget)
    | LayoutLabel(spans: seq<Span>)
    | HeadingLabel(text: string, style: HeadingStyle)
    | QuoteFrame(text: string)
    | CodeLabel(text: string)
    | Space(points: nat)
    | Separator

  /** The renderer between two events: the state, the text buffer, the paragraph's layout job and what has been drawn. */
  datatype Renderer = Renderer(state: RenderState, buffer: string, job: seq<Span>, out: seq<Output>)

  /** The state `render_md` starts from. */
  function InitialState(): RenderState {
    RenderState(false, false, false, false, false, false, None, 1, None, None)
  }

  function InitialRenderer(): Renderer {
    Renderer(InitialState(), "", [], [])
  }

  /** `format!("{}. ", n)`: the prefix of an ordered list item. */
  function OrderedPrefix(n: nat): string {
    NatToString(n) + ". "
  }

  /** `start_tag`. */
  function StartTag(tag: Tag, r: Renderer): (r': Renderer)
    ensures r'.out == r.out
    ensures r.state.isBold ==> r'.state.isBold
    ensures r.state.isItalic ==> r'.state.isItalic
    ensures r.state.isParagraph ==> r'.state.isParagraph
    ensures r.state.isBlockquote ==> r'.state.isBlockquote
    ensures r.state.isCode ==> r'.state.isCode
    ensures r.state.isListItem ==> r'.state.isListItem
  {
    var s := r.state;
    match tag
    case Paragraph => r.(state := s.(isParagraph := true), job := [])
    case BlockQuote => r.(state := s.(isBlockquote := true), buffer := "")
    case Heading(level) => r.(state := s.(headingLevel := Some(level)), buffer := "")
    case CodeBlock => r.(state := s.(isCode := true), buffer := "")
    case List(Some(start)) => r.(state := s.(orderedIndex := start))
    case List(None) => r.(state := s.(orderedIndex := 0))
    case Item =>
      if s.orderedIndex == 0 then r.(state := s.(isListItem := true, listPrefix := Some("- ")))
      else
        r.(state := s.(isListItem := true, listPrefix := Some(OrderedPrefix(s.orderedIndex)),
                       orderedIndex := s.orderedIndex + 1))
    case Strong => r.(state := s.(isBold := true))
    case Emphasis => r.(state := s.(isItalic := true))
    case Link(Inline, dest) => r.(state := s.(link := Some(dest)))
    case Link(OtherLink, _) => r
    case OtherTag => r
  }

  /** The style `end_tag` gives a heading of the given level. */
  function HeadingStyleOf(level: nat): HeadingStyle {
    if level == 1 then HeadingTextStyle
    else if level == 2 then StrongSized(22)
    else if level == 3 then StrongSized(18)
    else Sized(16)
  }

  /** The gap drawn after a paragraph and before a block quote. */
  const Gap: nat := 7

  /** `end_tag`. */
  function EndTag(end: TagEnd, r: Renderer): (r': Renderer)
    ensures r'.job == r.job
    ensures r.out <= r'.out && |r'.out| <= |r.out| + 2
    ensures r'.state.orderedIndex == r.state.orderedIndex
    ensures r'.state.isBold ==> r.state.isBold
    ensures r'.state.isItalic ==> r.state.isItalic
    ensures r'.state.isParagraph ==> r.state.isParagraph
    ensures r'.state.isBlockquote ==> r.state.isBlockquote
    ensures r'.state.isCode ==> r.state.isCode
    ensures r'.state.isListItem ==> r.state.isListItem
  {
    var s := r.state;
    match end
    case EndParagraph =>
      r.(state := s.(isParagraph := false), out := r.out + [LayoutLabel(r.job), Space(Gap)])
    case EndHeading =>
      (match s.headingLevel
       case Some(level) =>
         r.(state := s.(headingLevel := None), buffer := "",
            out := r.out + [HeadingLabel(r.buffer, HeadingStyleOf(level))])
       case None => r)
    case EndBlockQuote =>
      r.(state := s.(isBlockquote := false), buffer := "",
         out := r.out + [Space(Gap), QuoteFrame(TrimEnd(r.buffer))])
    case EndCodeBlock =>
      r.(state := s.(isCode := false), buffer := "", out := r.out + [CodeLabel(r.buffer)])
    case EndItem => r.(state := s.(isListItem := false, listPrefix := None))
    case EndStrong => r.(state := s.(isBold := false))
    case EndEmphasis => r.(state := s.(isItalic := false))
    case EndLink => r.(state := s.(link := None))
    case EndOther => r
  }

  /** Where a link destination leads: a '#' names an anchor in the document. */
  function TargetOf(link: string): LinkTarget {
    if |link| > 0 && link[0] == '#' then Anchor(link[1..]) else External(link)
  }

  /** `event_text`. */
  function EventText(text: string, r: Renderer): (r': Renderer)
    ensures r'.state == r.state.(listPrefix := r'.state.listPrefix)
    ensures r.out <= r'.out && |r'.out| <= |r.out| + 1
  {
    var s := r.state;
    if s.link.Some? then r.(out := r.out + [Hyperlink(text, TargetOf(s.link.value))])
    else if s.isBlockquote then r.(buffer := r.buffer + text + "\n")
    else if s.isCode then r.(buffer := r.buffer + text)
    else if s.headingLevel.Some? then r.(buffer := r.buffer + text)
    else if s.isParagraph then
      r.(job := r.job + [Span(text, Formatted(s.isBold, s.isItalic || s.isBlockquote))])
    else if s.isListItem then
      (match s.listPrefix
       case Some(prefix) => r.(state := s.(listPrefix := None), out := r.out + [Label(prefix + text, false, false)])
       case None => r)
    else r.(out := r.out + [Label(text, s.isBold, s.isItalic)])
  }

  /** One iteration of `render_md`'s loop. */
  function Step(r: Renderer, e: Event): (r': Renderer)
    ensures r.out <= r'.out
  {
    match e
    case Start(tag) => StartTag(tag, r)
    case End(end) => EndTag(end, r)
    case Text(text) => EventText(text, r)
    case Code(code) => r.(out := r.out + [CodeLabel(code)])
    case Rule => r.(out := r.out + [Separator])
    case SoftBreak => if r.state.isParagraph then r.(job := r.job + [Span("\n", DefaultFormat)]) else r
    case HardBreak => if r.state.isParagraph then r.(job := r.job + [Span("\n", DefaultFormat)]) else r
    case OtherEvent => r
  }

  /** The renderer after every event, in order. */
  function Run(r: Renderer, events: seq<Event>): (r': Renderer)
    ensures r.out <= r'.out
    decreases |events|
  {
    if |events| == 0 then r else Run(Step(r, events[0]), events[1..])
  }

  /** `render_md` on the parser's events: what it draws. */
  function RenderMd(events: seq<Event>): seq<Output> {
    Run(InitialRenderer(), events).out
  }

  lemma {:induction false} RunAppend(r: Renderer, a: seq<Event>, b: seq<Event>)
    ensures Run(r, a + b) == Run(Run(r, a), b)
    decreases |a|
  {
    if |a| > 0 {
      assert (a + b)[0] == a[0];
      DropOfConcat(a, b, 1);
      RunAppend(Step(r, a[0]), a[1..], b);
    } else {
      EmptyConcat(a, b);
    }
  }

  /** No block, heading or link is open: text goes to the item or to a plain label. */
  predicate Outside(s: RenderState) {
    !s.isParagraph && !s.isBlockquote && !s.isCode && s.headingLevel.None? && s.link.None?
  }

  /**
    A list item with no List start before it is numbered "1. ": the index
    starts at 1, and a text right after the item start draws its prefix.
   */
  lemma FirstItemWithoutList(t: string)
    ensures RenderMd([Start(Item), Text(t)]) == [Label("1. " + t, false, false)]
  {
    var r := InitialRenderer();
    var r1 := StartTag(Item, r);
    assert NatToString(1) == "1";
    assert OrderedPrefix(1) == "1. ";
    assert r1.state.listPrefix == Some("1. ");
    assert Run(r, [Start(Item), Text(t)]) == Run(r1, [Text(t)]);
    assert Run(r1, [Text(t)]) == Run(EventText(t, r1), []);
  }

  /** The events of a tight list: each item is its start, one text and its end. */
  function ItemEvents(items: seq<string>): (es: seq<Event>)
    ensures |es| == 3 * |items|
  {
    if |items| == 0 then [] else [Start(Item), Text(items[0]), End(EndItem)] + ItemEvents(items[1..])
  }

  /** The prefix the item at position `j` of a list starting at `index` gets. */
  function PrefixAt(index: nat, j: nat): string {
    if index == 0 then "- " else OrderedPrefix(index + j)
  }

  /** The list index after an item: a bullet list keeps 0, an ordered one counts up. */
  function NextIndex(index: nat): nat {
    if index == 0 then 0 else index + 1
  }

  /** The labels `items` are drawn as when the list index starts at `index`. */
  function ItemLabels(index: nat, items: seq<string>): (ls: seq<Output>)
    ensures |ls| == |items|
    decreases |items|
  {
    if |items| == 0 then []
    else [Label(PrefixAt(index, 0) + items[0], false, false)] + ItemLabels(NextIndex(index), items[1..])
  }

  /** Item `j` of the list is drawn with the prefix of position `j`. */
  lemma {:induction false} ItemLabelAt(index: nat, items: seq<string>, j: nat)
    requires j < |items|
    ensures ItemLabels(index, items)[j] == Label(PrefixAt(index, j) + items[j], false, false)
    decreases j
  {
    if j > 0 {
      var rest := items[1..];
      ItemLabelsTail(index, items, j);
      ItemLabelAt(NextIndex(index), rest, j - 1);
      PrefixAtNext(index, j);
      assert rest[j - 1] == items[j];
    }
  }

  lemma ItemLabelsTail(index: nat, items: seq<string>, j: nat)
    requires 0 < j < |items|
    ensures ItemLabels(index, items)[j] == ItemLabels(NextIndex(index), items[1..])[j - 1]
  {
  }

  lemma PrefixAtNext(index: nat, j: nat)
    requires j > 0
    ensures PrefixAt(NextIndex(index), j - 1) == PrefixAt(index, j)
  {
    if index != 0 {
      assert NextIndex(index) + (j - 1) == index + j;
    }
  }

  /** One item of a tight list: drawn with its prefix, the index moved on, no item left open. */
  lemma ItemStep(r: Renderer, t: string)
    requires Outside(r.state) && !r.state.isListItem
    ensures var r' := Run(r, [Start(Item), Text(t), End(EndItem)]);
      && r'.out == r.out + [Label(PrefixAt(r.state.orderedIndex, 0) + t, false, false)]
      && r'.state == r.state.(listPrefix := None, orderedIndex := NextIndex(r.state.orderedIndex))
      && r'.buffer == r.buffer && r'.job == r.job
  {
    var s, index := r.state, r.state.orderedIndex;
    var prefix := PrefixAt(index, 0);
    var s1 := s.(isListItem := true, listPrefix := Some(prefix), orderedIndex := NextIndex(index));
    var r1 := StartTag(Item, r);
    assert r1 == r.(state := s1);
    var r2 := EventText(t, r1);
    assert r2 == r1.(state := s1.(listPrefix := None), out := r.out + [Label(prefix + t, false, false)]);
    var r3 := EndTag(EndItem, r2);
    assert r3 == r2.(state := s1.(isListItem := false, listPrefix := None));
    assert Run(r, [Start(Item), Text(t), End(EndItem)]) == Run(r1, [Text(t), End(EndItem)]);
    assert Run(r1, [Text(t), End(EndItem)]) == Run(r2, [End(EndItem)]);
    assert Run(r2, [End(EndItem)]) == Run(r3, []);
  }

  /**
    Items of a tight list are drawn one label each, with prefixes
    "k. ", "k+1. ", ... from the index `k` they start at, or "- " for every
    item when the index is 0.
   */
  lemma {:induction false} ItemsNumbered(r: Renderer, items: seq<string>)
    requires Outside(r.state) && !r.state.isListItem
    ensures var r' := Run(r, ItemEvents(items));
      && r'.out == r.out + ItemLabels(r.state.orderedIndex, items)
      && r'.state.orderedIndex == (if r.state.orderedIndex == 0 then 0 else r.state.orderedIndex + |items|)
      && Outside(r'.state) && !r'.state.isListItem
    decreases |items|
  {
    if |items| > 0 {
      var head := [Start(Item), Text(items[0]), End(EndItem)];
      var index := r.state.orderedIndex;
      var drawn := Label(PrefixAt(index, 0) + items[0], false, false);
      var r1 := Run(r, head);
      RunAppend(r, head, ItemEvents(items[1..]));
      ItemStep(r, items[0]);
      ItemsNumbered(r1, items[1..]);
      assert r1.out == r.out + [drawn];
      assert ItemLabels(index, items) == [drawn] + ItemLabels(NextIndex(index), items[1..]);
      AppendAssoc(r.out, [drawn], ItemLabels(NextIndex(index), items[1..]));
    }
  }

  /** A tight ordered list starting at `k`, k > 0, draws "k. t0", "k+1. t1", ... */
  lemma OrderedList(r: Renderer, k: nat, items: seq<string>)
    requires Outside(r.state) && !r.state.isListItem
    requires k > 0
    ensures var out := Run(r, [Start(List(Some(k)))] + ItemEvents(items)).out;
      && out[..|r.out|] == r.out
      && |out| == |r.out| + |items|
      && forall j :: 0 <= j < |items| ==> out[|r.out| + j] == Label(OrderedPrefix(k + j) + items[j], false, false)
  {
    var r1 := StartTag(List(Some(k)), r);
    var out := Run(r, [Start(List(Some(k)))] + ItemEvents(items)).out;
    assert out == r.out + ItemLabels(k, items) by {
      RunAppend(r, [Start(List(Some(k)))], ItemEvents(items));
      assert Run(r, [Start(List(Some(k)))]) == Run(r1, []);
      ItemsNumbered(r1, items);
    }
    forall j | 0 <= j < |items|
      ensures out[|r.out| + j] == ItemLabels(k, items)[j]
    {
    }
    forall j | 0 <= j < |items| {
      ItemLabelAt(k, items, j);
    }
  }

  /** A bullet list, and an ordered list starting at 0, draw every item with "- ". */
  lemma BulletList(r: Renderer, start: Option<nat>, items: seq<string>)
    requires Outside(r.state) && !r.state.isListItem
    requires start == None || start == Some(0)
    ensures var out := Run(r, [Start(List(start))] + ItemEvents(items)).out;
      && out[..|r.out|] == r.out
      && |out| == |r.out| + |items|
      && forall j :: 0 <= j < |items| ==> out[|r.out| + j] == Label("- " + items[j], false, false)
  {
    var r1 := StartTag(List(start), r);
    var out := Run(r, [Start(List(start))] + ItemEvents(items)).out;
    assert out == r.out + ItemLabels(0, items) by {
      RunAppend(r, [Start(List(start))], ItemEvents(items));
      assert Run(r, [Start(List(start))]) == Run(r1, []);
      ItemsNumbered(r1, items);
    }
    forall j | 0 <= j < |items|
      ensures out[|r.out| + j] == ItemLabels(0, items)[j]
    {
    }
    forall j | 0 <= j < |items| {
      ItemLabelAt(0, items, j);
    }
  }

  /** Ending a list does not reset the index: a later item without its own List start continues the count. */
  lemma ListEndKeepsIndex(r: Renderer, k: nat, t: string)
    requires Outside(r.state) && !r.state.isListItem
    requires k > 0
    ensures var r' := Run(r, [Start(List(Some(k))), Start(Item), End(EndItem), End(EndOther), Start(Item), Text(t)]);
      r'.out == r.out + [Label(OrderedPrefix(k + 1) + t, false, false)]
  {
    var es := [Start(List(Some(k))), Start(Item), End(EndItem), End(EndOther), Start(Item), Text(t)];
    var r1 := Step(r, es[0]);
    var r2 := Step(r1, es[1]);
    var r3 := Step(r2, es[2]);
    var r4 := Step(r3, es[3]);
    var r5 := Step(r4, es[4]);
    var r6 := Step(r5, es[5]);
    assert r5.state.listPrefix == Some(OrderedPrefix(k + 1));
    assert Run(r, es) == Run(r1, es[1..]);
    assert Run(r1, es[1..]) == Run(r2, es[2..]);
    assert Run(r2, es[2..]) == Run(r3, es[3..]);
    assert Run(r3, es[3..]) == Run(r4, es[4..]);
    assert Run(r4, es[4..]) == Run(r5, es[5..]);
    assert Run(r5, es[5..]) == Run(r6, []);
  }

  /** Strong start then end leaves a state that was not bold as it was; only `isBold` ever changes. */
  lemma StrongRoundTrip(r: Renderer)
    ensures StartTag(Strong, r).state == r.state.(isBold := true)
    ensures EndTag(EndStrong, r).state == r.state.(isBold := false)
    ensures !r.state.isBold ==> EndTag(EndStrong, StartTag(Strong, r)) == r
  {
  }

  /** Emphasis start then end leaves a state that was not italic as it was; only `isItalic` ever changes. */
  lemma EmphasisRoundTrip(r: Renderer)
    ensures StartTag(Emphasis, r).state == r.state.(isItalic := true)
    ensures EndTag(EndEmphasis, r).state == r.state.(isItalic := false)
    ensures !r.state.isItalic ==> EndTag(EndEmphasis, StartTag(Emphasis, r)) == r
  {
  }

  /** The end of an item closes it and drops any prefix not yet drawn; nothing else changes. */
  lemma ItemEndClears(r: Renderer)
    ensures var r' := EndTag(EndItem, r);
      && !r'.state.isListItem && r'.state.listPrefix == None
      && r' == r.(state := r.state.(isListItem := false, listPrefix := None))
  {
  }

  /** The events of a run of texts, one `Text` event per string. */
  function TextEvents(ts: seq<string>): (es: seq<Event>)
    ensures |es| == |ts|
  {
    if |ts| == 0 then [] else [Text(ts[0])] + TextEvents(ts[1..])
  }

  lemma TextEventsCons(ts: seq<string>)
    requires |ts| > 0
    ensures TextEvents(ts)[0] == Text(ts[0])
    ensures TextEvents(ts)[1..] == TextEvents(ts[1..])
  {
    DropOfConcat([Text(ts[0])], TextEvents(ts[1..]), 1);
    EmptyConcat([Text(ts[0])][1..], TextEvents(ts[1..]));
  }

  /** The strings of `ts`, one after the other. */
  function Concat(ts: seq<string>): string {
    if |ts| == 0 then "" else ts[0] + Concat(ts[1..])
  }

  /** Running `[a] + es + [b]` is running `a`, then `es`, then `b`. */
  lemma RunAround(r: Renderer, a: Event, es: seq<Event>, b: Event)
    ensures Run(r, [a] + es + [b]) == Step(Run(Step(r, a), es), b)
  {
    RunAppend(r, [a] + es, [b]);
    RunAppend(r, [a], es);
    assert Run(r, [a]) == Run(Step(r, a), []);
    var m := Run(Step(r, a), es);
    assert Run(m, [b]) == Run(Step(m, b), []);
  }

  /** Inside a heading, every text is appended to the buffer and nothing else changes. */
  lemma {:induction false} HeadingTexts(r: Renderer, ts: seq<string>)
    requires r.state.link.None? && !r.state.isBlockquote && !r.state.isCode && r.state.headingLevel.Some?
    ensures Run(r, TextEvents(ts)) == r.(buffer := r.buffer + Concat(ts))
    decreases |ts|
  {
    if |ts| == 0 {
      assert r.buffer + "" == r.buffer;
    } else {
      TextEventsCons(ts);
      var r1 := EventText(ts[0], r);
      assert r1 == r.(buffer := r.buffer + ts[0]);
      HeadingTexts(r1, ts[1..]);
      AppendAssoc(r.buffer, ts[0], Concat(ts[1..]));
    }
  }

  /**
    A heading collects all of its texts in the buffer and draws them as one
    label at its end, in the style of its level; the heading level is reset
    and the buffer emptied.
   */
  lemma HeadingCollects(r: Renderer, level: nat, ts: seq<string>)
    requires !r.state.isBlockquote && !r.state.isCode && r.state.link.None?
    ensures var r' := Run(r, [Start(Heading(level))] + TextEvents(ts) + [End(EndHeading)]);
      && r'.out == r.out + [HeadingLabel(Concat(ts), HeadingStyleOf(level))]
      && r'.state == r.state.(headingLevel := None)
      && r'.buffer == ""
  {
    var r1 := StartTag(Heading(level), r);
    RunAround(r, Start(Heading(level)), TextEvents(ts), End(EndHeading));
    HeadingTexts(r1, ts);
    EmptyConcat("", Concat(ts));
  }

  /** An end of heading with no heading open draws nothing and changes nothing. */
  lemma StrayHeadingEnd(r: Renderer)
    requires r.state.headingLevel.None?
    ensures EndTag(EndHeading, r) == r
  {
  }

  /** The heading styles: level 1 egui's heading style, 2 and 3 strong at 22 and 18 points, others 16 points. */
  lemma HeadingStyles(level: nat)
    ensures HeadingStyleOf(level).HeadingTextStyle? <==> level == 1
    ensures HeadingStyleOf(level).StrongSized? <==> level == 2 || level == 3
    ensures HeadingStyleOf(level).Sized? <==> level != 1 && level != 2 && level != 3
    ensures level == 2 ==> HeadingStyleOf(level) == StrongSized(22)
    ensures level == 3 ==> HeadingStyleOf(level) == StrongSized(18)
    ensures HeadingStyleOf(level).Sized? ==> HeadingStyleOf(level).size == 16
  {
  }

  /** Where a text event goes, by the order the renderer checks its state in. */
  datatype Sink = ToLink | ToQuote | ToCode | ToHeading | ToParagraph | ToItem | ToLabel

  /** The first open construct, in the priority order link, quote, code, heading, paragraph, item. */
  function SinkOf(s: RenderState): Sink {
    if s.link.Some? then ToLink
    else if s.isBlockquote then ToQuote
    else if s.isCode then ToCode
    else if s.headingLevel.Some? then ToHeading
    else if s.isParagraph then ToParagraph
    else if s.isListItem then ToItem
    else ToLabel
  }

  /**
    Each text event lands in exactly one place, chosen by `SinkOf`: a link
    label; the buffer with a newline (quote) or without (code, heading); a
    span of the paragraph; the item's prefixed label; or a plain label.
    Everything else is left as it was.
   */
  lemma TextRouting(r: Renderer, t: string)
    ensures var r' := EventText(t, r);
      match SinkOf(r.state)
      case ToLink => r' == r.(out := r.out + [Hyperlink(t, TargetOf(r.state.link.value))])
      case ToQuote => r' == r.(buffer := r.buffer + t + "\n")
      case ToCode => r' == r.(buffer := r.buffer + t)
      case ToHeading => r' == r.(buffer := r.buffer + t)
      case ToParagraph => r' == r.(job := r.job + [Span(t, Formatted(r.state.isBold, r.state.isItalic))])
      case ToItem => r'.buffer == r.buffer && r'.job == r.job
      case ToLabel => r' == r.(out := r.out + [Label(t, r.state.isBold, r.state.isItalic)])
  {
  }

  /**
    In a list item, the first text draws the prefix and the text; the
    prefix is then gone, so a second text in the same item draws nothing.
   */
  lemma PrefixConsumed(r: Renderer, a: string, b: string)
    requires Outside(r.state) && r.state.isListItem
    requires r.state.listPrefix.Some?
    ensures var r1 := EventText(a, r);
      && r1.out == r.out + [Label(r.state.listPrefix.value + a, false, false)]
      && r1.state.listPrefix == None
      && EventText(b, r1) == r1
  {
  }

  /** A link destination starting with '#' is an anchor named by the rest; anything else is an external URL. */
  lemma LinkTargets(name: string, url: string)
    ensures TargetOf("#" + name) == Anchor(name)
    ensures (|url| == 0 || url[0] != '#') ==> TargetOf(url) == External(url)
  {
    assert ("#" + name)[1..] == name;
  }

  /** Only inline links are followed: a text inside another kind of link is drawn as an ordinary label. */
  lemma OnlyInlineLinks(r: Renderer, dest: string, t: string)
    requires SinkOf(r.state) == ToLabel
    ensures EventText(t, StartTag(Link(OtherLink, dest), r)).out == r.out + [Label(t, r.state.isBold, r.state.isItalic)]
    ensures EventText(t, StartTag(Link(Inline, dest), r)).out == r.out + [Hyperlink(t, TargetOf(dest))]
  {
  }

  /** Inside a block quote, every text is appended to the buffer as one line. */
  lemma {:induction false} QuoteTexts(r: Renderer, ts: seq<string>)
    requires r.state.link.None? && r.state.isBlockquote
    ensures Run(r, TextEvents(ts)) == r.(buffer := r.buffer + Terminated(ts))
    decreases |ts|
  {
    if |ts| == 0 {
      assert r.buffer + "" == r.buffer;
    } else {
      TextEventsCons(ts);
      var r1 := EventText(ts[0], r);
      assert r1 == r.(buffer := r.buffer + ts[0] + "\n");
      QuoteTexts(r1, ts[1..]);
      AppendAssoc(r.buffer, ts[0], "\n");
      AppendAssoc(r.buffer, ts[0] + "\n", Terminated(ts[1..]));
    }
  }

  /**
    A block quote collects each of its texts as a line and draws, after a
    gap, one frame holding them without trailing whitespace.
   */
  lemma QuoteCollects(r: Renderer, ts: seq<string>)
    requires r.state.link.None?
    ensures var r' := Run(r, [Start(BlockQuote)] + TextEvents(ts) + [End(EndBlockQuote)]);
      && r'.out == r.out + [Space(Gap), QuoteFrame(TrimEnd(Terminated(ts)))]
      && r'.state == r.state.(isBlockquote := false)
      && r'.buffer == ""
  {
    var r1 := StartTag(BlockQuote, r);
    RunAround(r, Start(BlockQuote), TextEvents(ts), End(EndBlockQuote));
    QuoteTexts(r1, ts);
    EmptyConcat("", Terminated(ts));
  }

  /** The events a paragraph lays out: texts and line breaks. */
  predicate IsInline(e: Event) {
    e.Text? || e.SoftBreak? || e.HardBreak?
  }

  /** The span an inline event adds to the paragraph: its text in format `f`, or a default-format newline for a break. */
  function SpanOf(e: Event, f: SpanFormat): Span {
    if e.Text? then Span(e.text, f) else Span("\n", DefaultFormat)
  }

  function Spans(es: seq<Event>, f: SpanFormat): (sp: seq<Span>)
    ensures |sp| == |es|
  {
    if |es| == 0 then [] else [SpanOf(es[0], f)] + Spans(es[1..], f)
  }

  /** Inside a paragraph, every text and break adds its span to the layout and nothing else changes. */
  lemma {:induction false} ParagraphSpans(r: Renderer, es: seq<Event>)
    requires r.state.isParagraph && r.state.link.None? && !r.state.isBlockquote && !r.state.isCode
    requires r.state.headingLevel.None?
    requires forall k :: 0 <= k < |es| ==> IsInline(es[k])
    ensures Run(r, es) == r.(job := r.job + Spans(es, Formatted(r.state.isBold, r.state.isItalic)))
    decreases |es|
  {
    var f := Formatted(r.state.isBold, r.state.isItalic);
    if |es| == 0 {
      assert r.job + [] == r.job;
    } else {
      var sp := SpanOf(es[0], f);
      var r1 := Step(r, es[0]);
      assert r1 == r.(job := r.job + [sp]);
      ParagraphSpans(r1, es[1..]);
      AppendAssoc(r.job, [sp], Spans(es[1..], f));
    }
  }

  /**
    A paragraph gathers all of its texts and breaks into one layout and
    draws it, followed by a gap, when it ends.
   */
  lemma ParagraphCollects(r: Renderer, es: seq<Event>)
    requires Outside(r.state)
    requires forall k :: 0 <= k < |es| ==> IsInline(es[k])
    ensures var r' := Run(r, [Start(Paragraph)] + es + [End(EndParagraph)]);
      && r'.out == r.out + [LayoutLabel(Spans(es, Formatted(r.state.isBold, r.state.isItalic))), Space(Gap)]
      && r'.state == r.state
  {
    var r1 := StartTag(Paragraph, r);
    RunAround(r, Start(Paragraph), es, End(EndParagraph));
    ParagraphSpans(r1, es);
    EmptyConcat([], Spans(es, Formatted(r.state.isBold, r.state.isItalic)));
  }

  /** Breaks outside a paragraph draw nothing and change nothing. */
  lemma BreaksOutsideParagraph(r: Renderer)
    requires !r.state.isParagraph
    ensures Step(r, SoftBreak) == r && Step(r, HardBreak) == r
  {
  }
}
