/** Headings and sections of a text, read off its lines. */
module SectionLayout {
  import opened MarkdownLayout
  import opened RenderedMarkdown
  import opened RenderedSections
  import opened Text

  function Joined(lines: seq<string>): string {
    if lines == [] then [] else lines[0] + Joined(lines[1..])
  }

  /** How much text stands before the `i`-th line. */
  function Offset(lines: seq<string>, i: nat): nat
    requires i <= |lines|
  {
    if i == 0 then 0 else |lines[0]| + Offset(lines[1..], i - 1)
  }

  /** A line ends at its first boundary: a break, with CR and LF taken together. */
  ghost predicate IsLine(line: string) {
    && line != []
    && forall i :: 0 <= i < |line| - 1 && IsBreak(line[i]) ==>
         i == |line| - 2 && line[i] == '\r' && line[i + 1] == '\n'
  }

  lemma FirstIsLine(text: string)
    requires text != []
    ensures var n := LineEnd(text);
            && IsLine(text[..n])
            && (n < |text| ==> IsBreak(text[n - 1]) && !(text[n - 1] == '\r' && text[n] == '\n'))
  {
    hide LineEnd, IsBreak;
    LineShape(text);
    var n := LineEnd(text);
    var line := text[..n];
    forall i | 0 <= i < |line| - 1 && IsBreak(line[i])
      ensures i == |line| - 2 && line[i] == '\r' && line[i + 1] == '\n'
    {
      assert text[i] == line[i] && line[i + 1] == text[i + 1];
      assert i >= n - 2;
    }
  }

  lemma LinesStep(text: string)
    requires text != []
    ensures Lines(text) == [text[..LineEnd(text)]] + Lines(text[LineEnd(text)..])
  {
    hide LineEnd;
  }

  /** The lines make up the text, and each is a line. */
  lemma {:induction false} LinesJoin(text: string)
    ensures Joined(Lines(text)) == text
    ensures forall i :: 0 <= i < |Lines(text)| ==> IsLine(Lines(text)[i])
    decreases |text|
  {
    hide LineEnd, IsLine;
    if text != [] {
      FirstIsLine(text);
      LinesJoin(text[LineEnd(text)..]);
      LinesStep(text);
      var rest := Lines(text[LineEnd(text)..]);
      assert Lines(text)[1..] == rest;
    }
  }

  /** And only the last one may lack its ending, and none leaves its LF to the next. */
  lemma {:induction false} LinesEnd(text: string, i: nat)
    requires i + 1 < |Lines(text)|
    ensures var line, next := Lines(text)[i], Lines(text)[i + 1];
            line != [] && next != [] && IsBreak(line[|line| - 1]) && !(line[|line| - 1] == '\r' && next[0] == '\n')
    decreases |text|
  {
    hide LineEnd, IsBreak, IsLine;
    var n := LineEnd(text);
    FirstIsLine(text);
    LinesStep(text);
    if i > 0 {
      LinesEnd(text[n..], i - 1);
    } else {
      LinesStep(text[n..]);
      assert text[n..][..LineEnd(text[n..])][0] == text[n];
    }
  }

  /** The line is a heading, and the span is where its text stands. */
  predicate HeadingSpan(line: string, offset: nat, span: Span) {
    && ParseHeading(Body(line)) == Some((span.level, span.content))
    && span.start == offset && span.end == offset + |Body(line)|
  }

  function SpansOf(lines: seq<string>, offset: nat): seq<Span> {
    if lines == [] then [] else HeadingAt(lines[0], offset) + SpansOf(lines[1..], offset + |lines[0]|)
  }

  lemma {:induction false} SpansByLine(text: string, offset: nat)
    ensures SpansFrom(text, offset) == SpansOf(Lines(text), offset)
    decreases |text|
  {
    hide LineEnd, HeadingAt;
    if text != [] {
      LinesStep(text);
      SpansStep(text, offset);
      SpansByLine(text[LineEnd(text)..], offset + LineEnd(text));
      assert Lines(text)[1..] == Lines(text[LineEnd(text)..]);
    }
  }

  lemma {:induction false} SpanAtLine(lines: seq<string>, offset: nat, i: nat, span: Span)
    requires i < |lines| && HeadingSpan(lines[i], offset + Offset(lines, i), span)
    ensures span in SpansOf(lines, offset)
  {
    hide HeadingSpan, HeadingAt;
    if i == 0 {
      HeadingAtExactly(lines[0], offset, span);
    } else {
      SpanAtLine(lines[1..], offset + |lines[0]|, i - 1, span);
    }
  }

  lemma {:induction false} LineOfSpan(lines: seq<string>, offset: nat, span: Span) returns (i: nat)
    requires span in SpansOf(lines, offset)
    ensures i < |lines| && HeadingSpan(lines[i], offset + Offset(lines, i), span)
  {
    hide HeadingSpan, HeadingAt;
    if span in HeadingAt(lines[0], offset) {
      i := 0;
      HeadingAtExactly(lines[0], offset, span);
    } else {
      var later := LineOfSpan(lines[1..], offset + |lines[0]|, span);
      i := later + 1;
    }
  }

  /** The spans are exactly the lines that parse as headings, each at its place. */
  lemma SpansExactly(text: string, span: Span)
    ensures span in SpansFrom(text, 0)
            <==> exists i :: 0 <= i < |Lines(text)| && HeadingSpan(Lines(text)[i], Offset(Lines(text), i), span)
  {
    hide HeadingSpan, SpansFrom, Lines, SpansOf, Offset;
    SpansByLine(text, 0);
    if span in SpansOf(Lines(text), 0) {
      var i := LineOfSpan(Lines(text), 0, span);
    }
    if exists i :: 0 <= i < |Lines(text)| && HeadingSpan(Lines(text)[i], Offset(Lines(text), i), span) {
      var i :| 0 <= i < |Lines(text)| && HeadingSpan(Lines(text)[i], Offset(Lines(text), i), span);
      SpanAtLine(Lines(text), 0, i, span);
    }
  }

  lemma HeadingAtExactly(line: string, offset: nat, span: Span)
    ensures span in HeadingAt(line, offset) <==> HeadingSpan(line, offset, span)
  {
    hide ParseHeading, Body;
  }

  /** The `k`-th span is the first one with that level and content. */
  predicate FirstSpan(spans: seq<Span>, level: nat, content: string, k: nat) {
    && k < |spans| && spans[k].level == level && spans[k].content == content
    && forall j :: 0 <= j < k ==> spans[j].level != level || spans[j].content != content
  }

  lemma {:induction false} FirstNamedExactly(spans: seq<Span>, level: nat, content: string) returns (k: nat)
    requires FirstNamed(spans, level, content).Some?
    ensures FirstSpan(spans, level, content, k) && FirstNamed(spans, level, content).value == spans[k]
  {
    if spans[0].level == level && spans[0].content == content {
      k := 0;
    } else {
      var later := FirstNamedExactly(spans[1..], level, content);
      k := later + 1;
      assert forall j :: 0 < j < |spans| ==> spans[j] == spans[1..][j - 1];
    }
  }

  /** The section of the `k`-th span ends at `stop`. */
  ghost predicate SectionAt(masked: string, level: nat, content: string, k: nat, stop: nat) {
    var spans := SpansFrom(masked, 0);
    && FirstSpan(spans, level, content, k) && spans[k].end <= stop <= |masked|
    && StopsAt(spans, spans[k].end, |masked|, stop)
    && SectionIn(masked, level, content) == Strip(masked[spans[k].end..stop])
  }

  /** A section is there exactly when its heading is, belongs to the first such
      heading, and its text runs from the end of that line to the next heading of
      level one or two, or to the end, without the white space around it. */
  lemma SectionExactly(masked: string, level: nat, content: string)
    ensures SectionBounds(masked, level, content).None?
            <==> forall k :: 0 <= k < |SpansFrom(masked, 0)| ==>
                   SpansFrom(masked, 0)[k].level != level || SpansFrom(masked, 0)[k].content != content
    ensures SectionBounds(masked, level, content).Some? ==>
              exists k: nat, stop: nat :: SectionAt(masked, level, content, k, stop)
  {
    hide SpansFrom, FirstNamed, NextTop, Strip, FirstSpan, StopsAt, InOrder;
    var spans := SpansFrom(masked, 0);
    if SectionBounds(masked, level, content).Some? {
      var bounds := SectionBounds(masked, level, content).value;
      var k := FirstNamedExactly(spans, level, content);
      FirstInside(spans, level, content, k);
      SpansInOrder(masked, 0);
      NextTopFirst(spans, spans[k].end, |masked|);
      StopsThere(spans, spans[k].end, |masked|);
      assert SectionAt(masked, level, content, k, bounds.1);
    }
  }

  lemma FirstInside(spans: seq<Span>, level: nat, content: string, k: nat)
    requires FirstSpan(spans, level, content, k)
    ensures k < |spans|
  {
  }

  lemma StopsThere(spans: seq<Span>, end: nat, limit: nat)
    requires forall k :: 0 <= k < |spans| && end <= spans[k].start < NextTop(spans, end, limit) ==> spans[k].level > 2
    ensures StopsAt(spans, end, limit, NextTop(spans, end, limit))
  {
    hide NextTop;
  }

  /** No heading of level one or two from `end` on before `stop`, where one is or the text ends. */
  ghost predicate StopsAt(spans: seq<Span>, end: nat, limit: nat, stop: nat) {
    && (forall k :: 0 <= k < |spans| && end <= spans[k].start < stop ==> spans[k].level > 2)
    && (stop == limit || exists k :: 0 <= k < |spans| && spans[k].start == stop >= end && spans[k].level <= 2)
  }
}
