/** Headings and sections of a rendered Markdown text. */
module RenderedSections {
  import opened RenderedMarkdown
  import opened Text

  // ---------------------------------------------------- headings and sections

  /** A rendered heading: offsets of its line's body, level, content. */
  datatype Span = Span(start: nat, end: nat, level: nat, content: string)

  function SpansFrom(text: string, offset: nat): seq<Span>
    decreases |text|
  {
    if text == [] then []
    else
      var n := LineEnd(text);
      HeadingAt(text[..n], offset) + SpansFrom(text[n..], offset + n)
  }

  function HeadingAt(line: string, offset: nat): seq<Span> {
    var heading := ParseHeading(Body(line));
    if heading.None? then []
    else [Span(offset, offset + |Body(line)|, heading.value.0, heading.value.1)]
  }

  lemma HeadingAtIs(line: string, offset: nat)
    ensures var body := Body(line);
            HeadingAt(line, offset)
            == if ParseHeading(body).None? then []
               else [Span(offset, offset + |body|, ParseHeading(body).value.0, ParseHeading(body).value.1)]
  {
    hide ParseHeading, Body;
  }

  lemma SpansStep(text: string, offset: nat)
    ensures SpansFrom(text, offset)
            == if text == [] then []
               else HeadingAt(text[..LineEnd(text)], offset) + SpansFrom(text[LineEnd(text)..], offset + LineEnd(text))
  {
    hide LineEnd, HeadingAt;
  }

  lemma Reassociate(a: seq<Span>, b: seq<Span>, c: seq<Span>)
    ensures a + (b + c) == (a + b) + c
    ensures b == [] ==> a + b == a
  {
  }

  /** `_heading_spans`: the loop over the lines with its running offset. */
  method HeadingSpans(text: string) returns (spans: seq<Span>)
    ensures spans == SpansFrom(text, 0)
  {
    hide *;
    spans := [];
    var rest, offset: nat := text, 0;
    SpansStep([], 0);
    while rest != []
      invariant spans + SpansFrom(rest, offset) == SpansFrom(text, 0)
      decreases |rest|
    {
      var n := LineEnd(rest);
      var body := Body(rest[..n]);
      var parsed := ParseHeading(body);
      HeadingAtIs(rest[..n], offset);
      SpansStep(rest, offset);
      Reassociate(spans, HeadingAt(rest[..n], offset), SpansFrom(rest[n..], offset + n));
      if parsed.Some? {
        spans := spans + [Span(offset, offset + |body|, parsed.value.0, parsed.value.1)];
      }
      rest, offset := rest[n..], offset + n;
    }
    SpansStep(rest, offset);
  }

  lemma HeadingAtSound(line: string, offset: nat)
    ensures var r := HeadingAt(line, offset);
            |r| <= 1 && (r != [] ==>
              && r[0].start == offset < r[0].end == offset + |Body(line)|
              && ParseHeading(Body(line)) == Some((r[0].level, r[0].content)))
  {
    hide Body, Strip, WithoutClosing, DropBlankTail;
    if Body(line) == [] {
      assert ParseHeading(Body(line)).None?;
    }
  }

  ghost predicate Within(spans: seq<Span>, low: nat, high: nat) {
    forall k :: 0 <= k < |spans| ==> low <= spans[k].start < spans[k].end <= high
  }

  ghost predicate InOrder(spans: seq<Span>) {
    forall j, k :: 0 <= j < k < |spans| ==> spans[j].end <= spans[k].start
  }

  lemma OneBefore(first: seq<Span>, later: seq<Span>, low: nat, middle: nat, high: nat)
    requires |first| <= 1 && Within(first, low, middle) && Within(later, middle, high) && low <= middle <= high
    requires InOrder(later)
    ensures Within(first + later, low, high) && InOrder(first + later)
  {
    if first != [] {
      assert forall k :: 0 < k <= |later| ==> (first + later)[k] == later[k - 1];
    } else {
      assert first + later == later;
    }
  }

  /** The spans lie in the text, one after the other. */
  lemma {:induction false} SpansInOrder(text: string, offset: nat)
    ensures Within(SpansFrom(text, offset), offset, offset + |text|) && InOrder(SpansFrom(text, offset))
    decreases |text|
  {
    hide LineEnd, HeadingAt, Within, InOrder;
    if text == [] {
      NoSpans(offset);
    } else {
      var n := LineEnd(text);
      HeadingWithin(text[..n], offset);
      SpansInOrder(text[n..], offset + n);
      OneBefore(HeadingAt(text[..n], offset), SpansFrom(text[n..], offset + n), offset, offset + n, offset + |text|);
    }
  }

  lemma NoSpans(offset: nat)
    ensures Within([], offset, offset) && InOrder([])
  {
  }

  lemma HeadingWithin(line: string, offset: nat)
    ensures |HeadingAt(line, offset)| <= 1 && Within(HeadingAt(line, offset), offset, offset + |line|)
  {
    hide ParseHeading, HeadingAt;
    HeadingAtSound(line, offset);
  }

  /** What the spans mean: each is a line of the text that parses as a heading. */
  lemma {:induction false} SpansSound(text: string, offset: nat, k: nat)
    requires k < |SpansFrom(text, offset)|
    ensures var span := SpansFrom(text, offset)[k];
            && offset <= span.start <= span.end <= offset + |text|
            && ParseHeading(text[span.start - offset..span.end - offset]) == Some((span.level, span.content))
    decreases |text|
  {
    hide LineEnd, ParseHeading, HeadingAt;
    var n := LineEnd(text);
    var first, span := HeadingAt(text[..n], offset), SpansFrom(text, offset)[k];
    HeadingAtSound(text[..n], offset);
    if k < |first| {
      assert text[..|Body(text[..n])|] == Body(text[..n]);
    } else {
      SpansSound(text[n..], offset + n, k - |first|);
      assert text[n..][span.start - offset - n..span.end - offset - n] == text[span.start - offset..span.end - offset];
    }
  }

  /** The first span with this level and content. */
  function FirstNamed(spans: seq<Span>, level: nat, content: string): (r: Option<Span>)
    ensures r.Some? ==> r.value in spans && r.value.level == level && r.value.content == content
    ensures r.None? ==> forall k :: 0 <= k < |spans| ==> spans[k].level != level || spans[k].content != content
  {
    if spans == [] then None
    else if spans[0].level == level && spans[0].content == content then Some(spans[0])
    else FirstNamed(spans[1..], level, content)
  }

  /** Start of the first heading of level one or two behind `end`, or `limit`. */
  function NextTop(spans: seq<Span>, end: nat, limit: nat): (r: nat)
    ensures r >= end || r == limit
    ensures r == limit || exists k :: 0 <= k < |spans| && spans[k].start == r && r >= end && spans[k].level <= 2
  {
    if spans == [] then limit
    else if spans[0].start >= end && spans[0].level <= 2 then spans[0].start
    else NextTop(spans[1..], end, limit)
  }

  lemma NextTopStep(spans: seq<Span>, end: nat, limit: nat, i: nat)
    requires i <= |spans|
    ensures NextTop(spans[i..], end, limit)
            == if i == |spans| then limit
               else if spans[i].start >= end && spans[i].level <= 2 then spans[i].start
               else NextTop(spans[i + 1..], end, limit)
  {
  }

  /** Where the section under a heading lies in masked text. */
  function SectionBounds(masked: string, level: nat, content: string): (r: Option<(nat, nat)>)
    ensures r.Some? ==> r.value.0 <= r.value.1 <= |masked|
  {
    var spans := SpansFrom(masked, 0);
    var named := FirstNamed(spans, level, content);
    SpansInOrder(masked, 0);
    if named.None? then None
    else Some((named.value.end, NextTop(spans, named.value.end, |masked|)))
  }

  function SectionIn(masked: string, level: nat, content: string): string {
    var bounds := SectionBounds(masked, level, content);
    if bounds.None? then [] else Strip(masked[bounds.value.0..bounds.value.1])
  }

  /** `_section`. */
  method Section(text: string, level: nat, content: string, standalone: string -> bool) returns (section: string)
    ensures section == SectionIn(Mask(text, standalone), level, content)
  {
    hide SpansFrom, Mask, Strip, FirstNamed, InOrder, NextTop;
    var masked := MaskNonsemantic(text, standalone);
    var spans := HeadingSpans(masked);
    var named := FirstNamed(spans, level, content);
    SpansInOrder(masked, 0);
    if named.None? {
      return "";
    }
    var end, boundary, i := named.value.end, |masked|, 0;
    while i < |spans|
      invariant 0 <= i <= |spans| && boundary == |masked|
      invariant NextTop(spans[i..], end, |masked|) == NextTop(spans, end, |masked|)
    {
      NextTopStep(spans, end, |masked|, i);
      if spans[i].start >= end && spans[i].level <= 2 {
        boundary := spans[i].start;
        break;
      }
      i := i + 1;
    }
    NextTopStep(spans, end, |masked|, i);
    section := Strip(masked[end..boundary]);
  }

  lemma {:induction false} NextTopFirst(spans: seq<Span>, end: nat, limit: nat)
    requires Within(spans, 0, limit) && InOrder(spans)
    ensures forall k :: 0 <= k < |spans| && end <= spans[k].start < NextTop(spans, end, limit) ==> spans[k].level > 2
  {
    if spans != [] && !(spans[0].start >= end && spans[0].level <= 2) {
      NextTopFirst(spans[1..], end, limit);
      forall k | 0 <= k < |spans| && end <= spans[k].start < NextTop(spans, end, limit) ensures spans[k].level > 2 {
        if k > 0 {
          assert spans[k] == spans[1..][k - 1];
        }
      }
    }
  }

  /** A section runs from its heading to the next heading of level one or two:
      it starts where the named heading's line ends, stops at such a heading or
      at the end of the text, and has none inside. */
  lemma SectionExtent(masked: string, level: nat, content: string)
    requires SectionBounds(masked, level, content).Some?
    ensures var spans, bounds := SpansFrom(masked, 0), SectionBounds(masked, level, content).value;
            && (exists k :: 0 <= k < |spans| && spans[k].level == level && spans[k].content == content
                  && spans[k].end == bounds.0)
            && (forall k :: 0 <= k < |spans| && bounds.0 <= spans[k].start < bounds.1 ==> spans[k].level > 2)
            && (bounds.1 < |masked| ==>
                  exists k :: 0 <= k < |spans| && spans[k].start == bounds.1 && spans[k].level <= 2)
  {
    hide SpansFrom, FirstNamed, NextTop, ParseHeading;
    var spans := SpansFrom(masked, 0);
    SpansInOrder(masked, 0);
    NextTopFirst(spans, FirstNamed(spans, level, content).value.end, |masked|);
  }

  // ------------------------------------- structure is the same on masked text

  /** The same text but for some white space that became spaces. */
  ghost predicate SameButBlank(a: string, b: string) {
    |a| == |b| && forall i :: 0 <= i < |a| ==> b[i] == a[i] || (IsSpace(a[i]) && b[i] == ' ')
  }

  lemma BlankNoHeading(line: string, offset: nat)
    requires IsBlank(Body(line))
    ensures HeadingAt(line, offset) == []
  {
    hide ParseHeading, Body;
    BlankOpensNothing(Body(line), false, _ => false);
  }

  lemma MaskedBlankSame(line: string)
    requires IsBlank(Body(line))
    ensures SameButBlank(line, MaskLine(line)) && IsBlank(Body(MaskLine(line)))
  {
    hide Body;
    BodyOfMasked(line);
    assert forall i :: 0 <= i < |Body(line)| ==> Body(line)[i] == line[i];
  }

  lemma UntabLineSame(line: string, offset: nat)
    ensures SameButBlank(line, UntabLine(line))
    ensures HeadingAt(UntabLine(line), offset) == HeadingAt(line, offset)
  {
    hide Body, HeadingAt, IsBlank, MaskLine;
    if Tabbed(line) {
      MaskedBlankSame(line);
      BlankNoHeading(line, offset);
      BlankNoHeading(MaskLine(line), offset);
    }
  }

  lemma {:induction false} UntabSame(text: string, offset: nat)
    requires PlainLines(text)
    ensures SameButBlank(text, Untab(text))
    ensures SpansFrom(Untab(text), offset) == SpansFrom(text, offset)
    decreases |text|
  {
    hide LineEnd, UntabLine, HeadingAt;
    if text != [] {
      var n := LineEnd(text);
      UntabLineSame(text[..n], offset);
      UntabSame(text[n..], offset + n);
      UntabLineThins(text);
      UntabThins(text);
      LineEndKept(text, Untab(text));
      assert Untab(text)[..n] == UntabLine(text[..n]) && Untab(text)[n..] == Untab(text[n..]);
    }
  }

  lemma UntabLineThins(text: string)
    requires text != []
    ensures Thins(text[..LineEnd(text)], UntabLine(text[..LineEnd(text)]))
  {
    hide MaskLine, LineEnd;
    MaskLineThins(text);
  }

  lemma {:induction false} UntabThins(text: string)
    ensures Thins(text, Untab(text))
    decreases |text|
  {
    hide LineEnd, UntabLine;
    if text != [] {
      var n := LineEnd(text);
      UntabLineThins(text);
      UntabThins(text[n..]);
      ThinsTogether(text[..n], UntabLine(text[..n]), text[n..], Untab(text[n..]));
      assert text == text[..n] + text[n..];
    }
  }

  lemma StripSame(a: string, b: string)
    requires SameButBlank(a, b)
    ensures SameButBlank(Strip(a), Strip(b))
  {
    hide Leading, TrimRight;
    var ra, rb := TrimRight(a), TrimRight(b);
    assert ra != [] ==> ra[|ra| - 1] == a[|ra| - 1];
    TrimRightIs(b, |ra|);
    assert SameButBlank(ra, rb);
    TrimLeftIs(rb, Leading(ra));
  }

  /** The structure read off masked text does not depend on how often it was
      masked: the same headings at the same offsets, the same section bounds,
      and section texts that differ only in kinds of white space. */
  lemma StructureStable(text: string, level: nat, content: string, standalone: string -> bool)
    requires PlainLines(text)
    ensures var masked := Mask(text, standalone);
            var again := Mask(masked, standalone);
            && SpansFrom(again, 0) == SpansFrom(masked, 0)
            && SectionBounds(again, level, content) == SectionBounds(masked, level, content)
            && SameButBlank(SectionIn(masked, level, content), SectionIn(again, level, content))
  {
    hide Mask, Untab, SpansFrom, Strip;
    var masked := Mask(text, standalone);
    var again := Mask(masked, standalone);
    MaskTwice(text, standalone);
    MaskThins(text, standalone);
    ThinsKeepsPlainLines(text, masked);
    UntabSame(masked, 0);
    var bounds := SectionBounds(masked, level, content);
    if bounds.Some? {
      StripSame(masked[bounds.value.0..bounds.value.1], again[bounds.value.0..bounds.value.1]);
    }
  }
}
