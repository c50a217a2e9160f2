/** What masking takes away and what it leaves, read off the layout of a text: the
    blocks its lines fall into, each described by its own first and last line. */
module MarkdownLayout {
  import opened RenderedMarkdown
  import opened Text

  // -------------------------------------------------------- kinds of lines

  predicate AllBlanks(s: string) {
    forall i :: 0 <= i < |s| ==> s[i] == ' ' || s[i] == '\t'
  }

  predicate AllMarks(s: string, mark: char) {
    forall i :: 0 <= i < |s| ==> s[i] == mark
  }

  predicate FenceMark(mark: char) {
    mark == '`' || mark == '~'
  }

  /** At most three blanks, a run of `n` equal marks, three at least, and the rest. */
  predicate FenceShape(body: string, indent: string, mark: char, n: nat, rest: string) {
    && FenceMark(mark) && n >= 3 && |body| == |indent| + n + |rest|
    && indent <= body && |indent| <= 3 && AllBlanks(indent)
    && AllMarks(body[|indent|..|indent| + n], mark) && body[|indent| + n..] == rest
    && (rest != [] ==> rest[0] != mark)
  }

  ghost predicate FenceOpens(body: string, mark: char, n: nat) {
    exists indent, rest :: FenceShape(body, indent, mark, n, rest)
  }

  /** As many marks at least, and only blanks behind them. */
  ghost predicate FenceEnds(body: string, mark: char, n: nat) {
    exists indent, rest, m: nat :: FenceShape(body, indent, mark, m, rest) && m >= n && AllBlanks(rest)
  }

  /** A tab in front, or four spaces or more before something visible. */
  ghost predicate Indented(body: string) {
    || (body != [] && body[0] == '\t')
    || exists n :: 4 <= n < |body| && (forall i :: 0 <= i < n ==> body[i] == ' ') && !IsSpace(body[n])
  }

  /** The line leaves no paragraph open behind it. */
  predicate Closes(body: string) {
    IsBlank(body) || ParseHeading(body).Some? || ThematicBreak(body)
  }

  lemma {:induction false} BlanksDropped(s: string, indent: string)
    requires indent <= s && AllBlanks(indent)
    requires |indent| < |s| ==> s[|indent|] != ' ' && s[|indent|] != '\t'
    ensures DropBlanks(s) == s[|indent|..]
  {
    if indent != [] {
      assert s[0] == indent[0];
      BlanksDropped(s[1..], indent[1..]);
    }
  }

  lemma {:induction false} BlanksBefore(s: string, i: nat)
    requires i < |s| - |DropBlanks(s)|
    ensures s[i] == ' ' || s[i] == '\t'
  {
    if i > 0 {
      BlanksBefore(s[1..], i - 1);
    }
  }

  lemma DropsBlanks(s: string)
    ensures AllBlanks(s[..|s| - |DropBlanks(s)|])
  {
    hide DropBlanks;
    forall i | 0 <= i < |s| - |DropBlanks(s)| ensures s[i] == ' ' || s[i] == '\t' {
      BlanksBefore(s, i);
    }
  }

  lemma CountIs(s: string, c: char, n: nat)
    requires n <= |s| && (forall i :: 0 <= i < n ==> s[i] == c) && (n < |s| ==> s[n] != c)
    ensures CountWhile(s, c) == n
  {
    hide CountWhile;
    var m := CountWhile(s, c);
    if m < n {
      assert false;
    } else if n < m {
      assert false;
    }
  }

  lemma FenceFound(body: string, indent: string, mark: char, n: nat, rest: string)
    requires FenceShape(body, indent, mark, n, rest)
    ensures FenceAt(body) == Some((mark, n)) && DropBlanks(body)[n..] == rest
  {
    hide DropBlanks, CountWhile;
    var tail := body[|indent|..];
    assert tail[0] == body[|indent|..|indent| + n][0] == mark;
    BlanksDropped(body, indent);
    forall i | 0 <= i < n ensures tail[i] == mark {
      assert tail[i] == body[|indent|..|indent| + n][i];
    }
    assert n < |tail| ==> tail[n] == rest[0];
    CountIs(tail, mark, n);
    assert tail[n..] == rest;
  }

  lemma FenceRead(body: string)
    requires FenceAt(body).Some?
    ensures var (mark, n) := FenceAt(body).value;
            var rest := DropBlanks(body);
            |rest| <= |body| && n <= |rest| && FenceShape(body, body[..|body| - |rest|], mark, n, rest[n..])
  {
    hide DropBlanks, CountWhile;
    DropsBlanks(body);
    var rest := DropBlanks(body);
    var k := |body| - |rest|;
    var n := CountWhile(rest, rest[0]);
    assert body[k..] == rest;
    assert body[k..k + n] == rest[..n] && body[k + n..] == rest[n..];
  }

  lemma FenceOpensExactly(body: string, mark: char, n: nat)
    ensures FenceOpens(body, mark, n) <==> FenceAt(body) == Some((mark, n))
  {
    hide FenceAt, FenceShape, DropBlanks;
    if FenceOpens(body, mark, n) {
      var indent, rest :| FenceShape(body, indent, mark, n, rest);
      FenceFound(body, indent, mark, n, rest);
    }
    if FenceAt(body) == Some((mark, n)) {
      FenceRead(body);
    }
  }

  lemma OnlyBlanksExactly(s: string)
    ensures OnlyBlanks(s) <==> AllBlanks(s)
  {
    hide DropBlanks;
    DropsBlanks(s);
    assert s[..|s|] == s;
    if AllBlanks(s) {
      BlanksDropped(s, s);
    }
  }

  lemma FenceEndsExactly(body: string, mark: char, n: nat)
    ensures FenceEnds(body, mark, n)
            <==> FenceClose(body).Some? && FenceClose(body).value.0 == mark && FenceClose(body).value.1 >= n
  {
    hide FenceAt, FenceShape, DropBlanks, OnlyBlanks, AllBlanks;
    if FenceEnds(body, mark, n) {
      var indent, rest, m: nat :| FenceShape(body, indent, mark, m, rest) && m >= n && AllBlanks(rest);
      FenceFound(body, indent, mark, m, rest);
      OnlyBlanksExactly(rest);
    }
    if FenceClose(body).Some? {
      FenceRead(body);
      OnlyBlanksExactly(DropBlanks(body)[FenceAt(body).value.1..]);
    }
  }

  lemma IndentedExactly(body: string)
    ensures Indented(body) <==> IndentedCode(body)
  {
    hide CountWhile, IsSpace;
    if exists n :: 4 <= n < |body| && (forall i :: 0 <= i < n ==> body[i] == ' ') && !IsSpace(body[n]) {
      var n :| 4 <= n < |body| && (forall i :: 0 <= i < n ==> body[i] == ' ') && !IsSpace(body[n]);
      SpaceIsSpace();
      CountIs(body, ' ', n);
    }
  }

  lemma SpaceIsSpace()
    ensures IsSpace(' ')
  {
  }

  /** The text behind an opening angle bracket after at most three spaces. */
  predicate Markup(body: string, rest: string) {
    exists k :: 0 <= k <= 3 && k < |body| && (forall i :: 0 <= i < k ==> body[i] == ' ') && body[k] == '<'
                && body[k + 1..] == rest
  }

  /** The name, in any case, and then the end, white space or one of the endings. */
  predicate Named(rest: string, name: string, ends: set<string>) {
    && |name| <= |rest| && LowerAll(rest[..|name|]) == name
    && (|rest| == |name| || IsSpace(rest[|name|]) || exists end :: end in ends && end <= rest[|name|..])
  }

  /** What opens a block of the types 1 to 6 (CommonMark 0.31, section 4.6). */
  ghost predicate Begins(rest: string, kind: nat) {
    match kind
    case 1 => exists name :: name in {"pre", "script", "style", "textarea"} && Named(rest, name, {">", "/>"})
    case 2 => "!--" <= rest
    case 3 => "?" <= rest
    case 4 => |rest| > 1 && rest[0] == '!' && IsLetter(rest[1])
    case 5 => "![CDATA[" <= rest
    case 6 => exists name :: name in BLOCK_TAGS && Named(if "/" <= rest then rest[1..] else rest, name, {">", "/"})
    case _ => false
  }

  /** The first type that fits opens the block; a complete tag alone on its line
      opens type 7, but not inside a paragraph. */
  ghost predicate HtmlBegins(body: string, inParagraph: bool, standalone: string -> bool, kind: nat) {
    exists rest :: Markup(body, rest)
      && if kind == 7 then !inParagraph && standalone(body) && forall k :: 1 <= k <= 6 ==> !Begins(rest, k)
         else Begins(rest, kind) && forall k :: 1 <= k < kind ==> !Begins(rest, k)
  }

  lemma MarkupRead(body: string, rest: string)
    ensures Markup(body, rest)
            <==> Unindented(body).Some? && Unindented(body).value != [] && Unindented(body).value[0] == '<'
                 && Unindented(body).value[1..] == rest
  {
    hide CountWhile;
    if Markup(body, rest) {
      var k :| 0 <= k <= 3 && k < |body| && (forall i :: 0 <= i < k ==> body[i] == ' ') && body[k] == '<'
               && body[k + 1..] == rest;
      CountIs(body, ' ', k);
    }
  }

  lemma RawRead(rest: string)
    ensures Begins(rest, 1) <==> RawTagOpen(rest)
  {
    hide LowerAll, IsSpace;
    if Begins(rest, 1) {
      var name :| name in {"pre", "script", "style", "textarea"} && Named(rest, name, {">", "/>"});
      var k := if name == "pre" then 0 else if name == "script" then 1 else if name == "style" then 2 else 3;
      assert RAW_TAGS[k] == name;
    }
    if RawTagOpen(rest) {
      var k :| 0 <= k < |RAW_TAGS| && StartsTag(rest, RAW_TAGS[k])
        && var after := rest[|RAW_TAGS[k]|..]; after == [] || IsSpace(after[0]) || after[0] == '>' || "/>" <= after;
      assert Named(rest, RAW_TAGS[k], {">", "/>"});
    }
  }

  lemma BlockNamed(rest: string)
    ensures BlockTagOpen(rest) <==> exists name :: name in BLOCK_TAGS && Named(rest, name, {">", "/"})
  {
    hide LowerAll, IsSpace, BLOCK_TAGS;
    if exists name :: name in BLOCK_TAGS && Named(rest, name, {">", "/"}) {
      var name :| name in BLOCK_TAGS && Named(rest, name, {">", "/"});
      var k :| 0 <= k < |BLOCK_TAGS| && BLOCK_TAGS[k] == name;
    }
    if BlockTagOpen(rest) {
      var k :| 0 <= k < |BLOCK_TAGS| && StartsTag(rest, BLOCK_TAGS[k])
        && var after := rest[|BLOCK_TAGS[k]|..]; after == [] || IsSpace(after[0]) || after[0] == '>' || after[0] == '/';
      assert Named(rest, BLOCK_TAGS[k], {">", "/"});
    }
  }

  lemma HtmlBeginsExactly(body: string, inParagraph: bool, standalone: string -> bool, kind: nat)
    ensures HtmlBegins(body, inParagraph, standalone, kind)
            <==> kind != 0 && HtmlOpen(body, inParagraph, standalone) == kind
  {
    hide Unindented, RawTagOpen, BlockTagOpen, Named, BLOCK_TAGS, IsLetter;
    forall rest ensures Markup(body, rest)
                        <==> Unindented(body).Some? && Unindented(body).value != [] && Unindented(body).value[0] == '<'
                             && Unindented(body).value[1..] == rest
    {
      MarkupRead(body, rest);
    }
    if Unindented(body).Some? && Unindented(body).value != [] && Unindented(body).value[0] == '<' {
      var rest := Unindented(body).value[1..];
      RawRead(rest);
      BlockNamed(if "/" <= rest then rest[1..] else rest);
      KindsApart(rest);
      assert Markup(body, rest);
      NoneBefore(rest, if kind <= 7 then kind else 7);
      assert kind > 7 ==> !Begins(rest, kind);
    }
  }

  /** `<![CDATA[` is no declaration, and so on: the types 2 to 5 exclude one another. */
  lemma KindsApart(rest: string)
    ensures Begins(rest, 4) ==> !Begins(rest, 2) && !Begins(rest, 3) && !Begins(rest, 5)
    ensures Begins(rest, 5) ==> !Begins(rest, 2) && !Begins(rest, 3)
  {
  }

  lemma NoneBefore(rest: string, kind: nat)
    requires kind <= 7
    ensures (forall k :: 1 <= k < kind ==> !Begins(rest, k))
            <==> (kind > 1 ==> !Begins(rest, 1)) && (kind > 2 ==> !Begins(rest, 2)) && (kind > 3 ==> !Begins(rest, 3))
                 && (kind > 4 ==> !Begins(rest, 4)) && (kind > 5 ==> !Begins(rest, 5))
                 && (kind > 6 ==> !Begins(rest, 6))
  {
    hide Begins;
  }

  /** What ends a block of the types 1 to 5, wherever in the line it stands. */
  ghost predicate HtmlEnds(body: string, kind: nat) {
    match kind
    case 1 => exists name :: name in {"pre", "script", "style", "textarea"}
                && Contains(LowerAll(body), "</" + name + ">")
    case 2 => Contains(body, "-->")
    case 3 => Contains(body, "?>")
    case 4 => Contains(body, ">")
    case 5 => Contains(body, "]]>")
    case _ => false
  }

  lemma HtmlEndsExactly(body: string, kind: nat)
    ensures HtmlEnds(body, kind) <==> Terminates(kind, body)
  {
    hide Contains, LowerAll;
    if kind == 1 && HtmlEnds(body, 1) {
      var name :| name in {"pre", "script", "style", "textarea"} && Contains(LowerAll(body), "</" + name + ">");
      var k := if name == "pre" then 0 else if name == "script" then 1 else if name == "style" then 2 else 3;
      assert RAW_TAGS[k] == name;
    }
    if RawTagClose(body) {
      var k :| 0 <= k < |RAW_TAGS| && Contains(LowerAll(body), "</" + RAW_TAGS[k] + ">");
      assert RAW_TAGS[k] in {"pre", "script", "style", "textarea"};
    }
  }

  // ---------------------------------------------------------------- layouts

  /** The lines of the text, endings included. */
  function Lines(text: string): seq<string>
    decreases |text|
  {
    if text == [] then [] else [text[..LineEnd(text)]] + Lines(text[LineEnd(text)..])
  }

  /** A line of ordinary text, the blank line behind an HTML block of type 6 or 7, a
      line of indented code, a fenced block, an HTML block. */
  datatype Item =
    | Plain | Gap | Code | Fenced(mark: char, length: nat, size: nat) | Markups(kind: nat, size: nat)

  /** What the lines before leave behind. */
  datatype Context = Between | Paragraph | BehindMarkup

  function Size(item: Item): nat {
    match item
    case Fenced(_, _, size) => size
    case Markups(_, size) => size
    case _ => 1
  }

  ghost predicate NoHtml(body: string, inParagraph: bool, standalone: string -> bool) {
    forall kind :: !HtmlBegins(body, inParagraph, standalone, kind)
  }

  ghost predicate NoFence(body: string) {
    forall mark, n: nat :: !FenceOpens(body, mark, n)
  }

  /** From an opening fence to the first line that closes it, or to the end. */
  ghost predicate FencedFits(lines: seq<string>, mark: char, n: nat, size: nat)
    requires 1 <= size <= |lines|
  {
    && FenceOpens(Body(lines[0]), mark, n)
    && (forall i :: 1 <= i < size - 1 ==> !FenceEnds(Body(lines[i]), mark, n))
    && (size == |lines| || (size > 1 && FenceEnds(Body(lines[size - 1]), mark, n)))
  }

  /** From a line that opens HTML to the first line with its terminator or, for the
      types 6 and 7, up to the first blank line, or to the end. */
  ghost predicate MarkupsFit(lines: seq<string>, inParagraph: bool, standalone: string -> bool, kind: nat, size: nat)
    requires 1 <= size <= |lines|
  {
    && HtmlBegins(Body(lines[0]), inParagraph, standalone, kind)
    && if kind <= 5 then
         && (forall i :: 0 <= i < size - 1 ==> !HtmlEnds(Body(lines[i]), kind))
         && (size == |lines| || HtmlEnds(Body(lines[size - 1]), kind))
       else
         && (forall i :: 1 <= i < size ==> !IsBlank(Body(lines[i])))
         && (size == |lines| || IsBlank(Body(lines[size])))
  }

  /** The item is what the first lines are. */
  ghost predicate ItemFits(item: Item, lines: seq<string>, context: Context, standalone: string -> bool) {
    && 1 <= Size(item) <= |lines| && (item.Gap? <==> context.BehindMarkup?)
    && var body, inParagraph := Body(lines[0]), context.Paragraph?;
    && match item
       case Gap => IsBlank(body)
       case Plain => NoHtml(body, inParagraph, standalone) && NoFence(body) && !Indented(body)
       case Code => NoHtml(body, inParagraph, standalone) && NoFence(body) && Indented(body)
       case Fenced(mark, n, size) => NoHtml(body, inParagraph, standalone) && FencedFits(lines, mark, n, size)
       case Markups(kind, size) => MarkupsFit(lines, inParagraph, standalone, kind, size)
  }

  ghost function Behind(item: Item, lines: seq<string>): Context
    requires Size(item) <= |lines| && lines != []
  {
    match item
    case Plain => if Closes(Body(lines[0])) then Between else Paragraph
    case Markups(kind, size) => if kind in {6, 7} && size < |lines| then BehindMarkup else Between
    case _ => Between
  }

  /** The items are what the lines are, one after the other. */
  ghost predicate Layout(items: seq<Item>, lines: seq<string>, context: Context, standalone: string -> bool)
    decreases |items|
  {
    if items == [] then lines == []
    else
      && ItemFits(items[0], lines, context, standalone)
      && Layout(items[1..], lines[Size(items[0])..], Behind(items[0], lines), standalone)
  }

  function AllBlanked(lines: seq<string>): string {
    if lines == [] then [] else Blanked(lines[0]) + AllBlanked(lines[1..])
  }

  /** Ordinary lines as they are, and of all others every character blanked but CR and LF. */
  function Rendered(items: seq<Item>, lines: seq<string>): string
    decreases |items|
  {
    if items == [] || Size(items[0]) > |lines| || lines == [] then []
    else
      var k := Size(items[0]);
      (if items[0].Plain? || items[0].Gap? then lines[0] else AllBlanked(lines[..k])) + Rendered(items[1..], lines[k..])
  }

  // ------------------------------------------------------- line after line

  function MaskLines(lines: seq<string>, mode: Mode, standalone: string -> bool): string {
    if lines == [] then []
    else
      var (next, out) := Step(mode, lines[0], standalone);
      out + MaskLines(lines[1..], next, standalone)
  }

  lemma {:induction false} MaskedByLine(text: string, mode: Mode, standalone: string -> bool)
    ensures MaskFrom(text, mode, standalone) == MaskLines(Lines(text), mode, standalone)
    decreases |text|
  {
    hide LineEnd, Step;
    if text != [] {
      var n := LineEnd(text);
      var (next, out) := Step(mode, text[..n], standalone);
      MaskedByLine(text[n..], next, standalone);
      assert Lines(text)[1..] == Lines(text[n..]);
    }
  }

  /** A line whose body holds no CR or LF. */
  predicate Real(line: string) {
    MaskLine(line) == Blanked(line)
  }

  ghost predicate AllReal(lines: seq<string>) {
    forall i :: 0 <= i < |lines| ==> Real(lines[i])
  }

  lemma FirstReal(text: string)
    requires text != []
    ensures Real(text[..LineEnd(text)])
  {
    hide LineEnd, Body;
    LineShape(text);
    var line := text[..LineEnd(text)];
    var body := Body(line);
    forall i | 0 <= i < |body| ensures !IsNewline(line[i]) {
      if IsNewline(line[i]) {
        assert false;
      }
    }
  }

  lemma {:induction false} LinesReal(text: string)
    ensures AllReal(Lines(text))
    decreases |text|
  {
    hide LineEnd, Real;
    if text != [] {
      FirstReal(text);
      LinesReal(text[LineEnd(text)..]);
    }
  }

  lemma StepInFence(mark: char, n: nat, line: string, standalone: string -> bool)
    requires Real(line)
    ensures Step(Mode(Fence(mark, n), false), line, standalone)
            == (if FenceEnds(Body(line), mark, n) then TOP else Mode(Fence(mark, n), false), Blanked(line))
  {
    hide FenceEnds, FenceClose, Body, MaskLine, Blanked;
    FenceEndsExactly(Body(line), mark, n);
  }

  lemma StepInHtml(kind: nat, line: string, standalone: string -> bool)
    requires Real(line)
    ensures Step(Mode(Html(kind), false), line, standalone)
            == if kind in {6, 7} && IsBlank(Body(line)) then (TOP, line)
               else (if HtmlEnds(Body(line), kind) then TOP else Mode(Html(kind), false), Blanked(line))
  {
    hide HtmlEnds, Terminates, Body, MaskLine, Blanked, IsBlank;
    HtmlEndsExactly(Body(line), kind);
  }

  /** Taking `k` lines off, the first of them first. */
  lemma FirstOff(lines: seq<string>, k: nat)
    requires 0 < k <= |lines|
    ensures lines[..k][0] == lines[0] && lines[..k][1..] == lines[1..][..k - 1] && lines[k..] == lines[1..][k - 1..]
    ensures AllBlanked(lines[..k]) == Blanked(lines[0]) + AllBlanked(lines[1..][..k - 1])
  {
    hide Blanked;
  }

  lemma StepLines(lines: seq<string>, mode: Mode, next: Mode, out: string, standalone: string -> bool)
    requires lines != [] && Step(mode, lines[0], standalone) == (next, out)
    ensures MaskLines(lines, mode, standalone) == out + MaskLines(lines[1..], next, standalone)
  {
    hide Step;
  }

  lemma NoneLeft(lines: seq<string>, mode: Mode, standalone: string -> bool)
    ensures lines == [] ==> MaskLines(lines, mode, standalone) == []
    ensures AllBlanked([]) == [] && lines[..0] == [] && lines[0..] == lines
  {
  }

  /** Inside a fence, up to and with the line that closes it. */
  lemma {:induction false} FenceRun(lines: seq<string>, mark: char, n: nat, k: nat, standalone: string -> bool)
    requires k <= |lines| && AllReal(lines)
    requires forall i :: 0 <= i < k - 1 ==> !FenceEnds(Body(lines[i]), mark, n)
    requires k == |lines| || (k > 0 && FenceEnds(Body(lines[k - 1]), mark, n))
    ensures MaskLines(lines, Mode(Fence(mark, n), false), standalone)
            == AllBlanked(lines[..k]) + MaskLines(lines[k..], TOP, standalone)
    decreases k
  {
    hide FenceEnds, Body, Real, Blanked, Step, MaskLines, AllBlanked;
    NoneLeft(lines, TOP, standalone);
    NoneLeft(lines, Mode(Fence(mark, n), false), standalone);
    if k > 0 {
      var rest, next := lines[1..], if FenceEnds(Body(lines[0]), mark, n) then TOP else Mode(Fence(mark, n), false);
      StepInFence(mark, n, lines[0], standalone);
      StepLines(lines, Mode(Fence(mark, n), false), next, Blanked(lines[0]), standalone);
      FirstOff(lines, k);
      NoneLeft(rest, TOP, standalone);
      NoneLeft(rest, next, standalone);
      if k > 1 {
        assert forall i :: 0 <= i < |rest| ==> rest[i] == lines[i + 1];
        FenceRun(rest, mark, n, k - 1, standalone);
      }
    }
  }

  /** Inside an HTML block, up to its end; a blank line that ends it is not part of it. */
  lemma {:induction false} HtmlRun(lines: seq<string>, kind: nat, k: nat, standalone: string -> bool)
    requires 1 <= kind <= 7 && k <= |lines| && AllReal(lines)
    requires kind <= 5 ==> forall i :: 0 <= i < k - 1 ==> !HtmlEnds(Body(lines[i]), kind)
    requires kind <= 5 ==> k == |lines| || (k > 0 && HtmlEnds(Body(lines[k - 1]), kind))
    requires kind > 5 ==> forall i :: 0 <= i < k ==> !IsBlank(Body(lines[i]))
    requires kind > 5 ==> k == |lines| || IsBlank(Body(lines[k]))
    ensures MaskLines(lines, Mode(Html(kind), false), standalone)
            == AllBlanked(lines[..k])
               + MaskLines(lines[k..], if kind > 5 && k < |lines| then Mode(Html(kind), false) else TOP, standalone)
    decreases k
  {
    hide HtmlEnds, Body, Real, Blanked, Step, MaskLines, AllBlanked, IsBlank;
    var mode := Mode(Html(kind), false);
    NoneLeft(lines, TOP, standalone);
    NoneLeft(lines, mode, standalone);
    if k > 0 {
      var rest, next := lines[1..], if HtmlEnds(Body(lines[0]), kind) then TOP else mode;
      StepInHtml(kind, lines[0], standalone);
      StepLines(lines, mode, next, Blanked(lines[0]), standalone);
      FirstOff(lines, k);
      NoneLeft(rest, TOP, standalone);
      NoneLeft(rest, next, standalone);
      NoLateEnd(Body(lines[0]), kind);
      if !(kind <= 5 && k == 1) {
        assert forall i :: 0 <= i < |rest| ==> rest[i] == lines[i + 1];
        HtmlRun(rest, kind, k - 1, standalone);
      }
    }
  }

  lemma NoLateEnd(body: string, kind: nat)
    ensures kind > 5 ==> !HtmlEnds(body, kind)
  {
  }

  /** The first line of an item, outside of all blocks. */
  lemma StepOutside(line: string, inParagraph: bool, standalone: string -> bool)
    requires Real(line)
    ensures var body, step := Body(line), Step(Mode(Open, inParagraph), line, standalone);
            && (forall kind :: HtmlBegins(body, inParagraph, standalone, kind) ==>
                  step == (if HtmlEnds(body, kind) then TOP else Mode(Html(kind), false), Blanked(line)))
            && (NoHtml(body, inParagraph, standalone) ==> forall mark, n: nat :: FenceOpens(body, mark, n) ==>
                  step == (Mode(Fence(mark, n), false), Blanked(line)))
            && (NoHtml(body, inParagraph, standalone) && NoFence(body) && Indented(body) ==>
                  step == (TOP, Blanked(line)))
            && (NoHtml(body, inParagraph, standalone) && NoFence(body) && !Indented(body) ==>
                  step == (Mode(Open, !Closes(body)), line))
  {
    hide HtmlBegins, HtmlEnds, Terminates, FenceOpens, FenceAt, HtmlOpen, Indented, IndentedCode, Body, MaskLine,
      Blanked, IsBlank, ParseHeading, ThematicBreak;
    var body := Body(line);
    IndentedExactly(body);
    var kind := HtmlOpen(body, inParagraph, standalone);
    forall k ensures HtmlBegins(body, inParagraph, standalone, k) <==> k != 0 && kind == k {
      HtmlBeginsExactly(body, inParagraph, standalone, k);
    }
    HtmlEndsExactly(body, kind);
    forall mark, n: nat ensures FenceOpens(body, mark, n) <==> FenceAt(body) == Some((mark, n)) {
      FenceOpensExactly(body, mark, n);
    }
    if FenceAt(body).Some? {
      assert FenceOpens(body, FenceAt(body).value.0, FenceAt(body).value.1);
    }
    if kind != 0 {
      assert HtmlBegins(body, inParagraph, standalone, kind);
    }
  }

  // ------------------------------------------------- what masking then does

  ghost function ModeOf(context: Context, kind: nat): Mode {
    if context.BehindMarkup? then Mode(Html(kind), false) else Mode(Open, context.Paragraph?)
  }

  /** A line that is an item by itself. */
  lemma LineMasked(item: Item, lines: seq<string>, context: Context, kind: nat, standalone: string -> bool)
    requires AllReal(lines) && ItemFits(item, lines, context, standalone) && kind in {6, 7}
    requires item.Gap? || item.Plain? || item.Code?
    ensures MaskLines(lines, ModeOf(context, kind), standalone)
            == (if item.Code? then Blanked(lines[0]) else lines[0])
               + MaskLines(lines[1..], ModeOf(Behind(item, lines), 6), standalone)
  {
    hide HtmlBegins, HtmlEnds, FenceOpens, Indented, Body, Real, Blanked, Step, MaskLines, IsBlank, NoHtml, NoFence,
      Closes;
    var line, mode := lines[0], ModeOf(context, kind);
    if item.Gap? {
      StepInHtml(kind, line, standalone);
      StepLines(lines, mode, TOP, line, standalone);
    } else {
      StepOutside(line, context.Paragraph?, standalone);
      StepLines(lines, mode, if item.Code? then TOP else Mode(Open, !Closes(Body(line))),
                if item.Code? then Blanked(line) else line, standalone);
    }
  }

  lemma OneBlanked(lines: seq<string>)
    requires lines != []
    ensures AllBlanked(lines[..1]) == Blanked(lines[0])
  {
    hide Blanked;
  }

  /** One item: what is emitted for its lines, and how the masker stands behind it. */
  lemma ItemMasked(item: Item, lines: seq<string>, context: Context, kind: nat, standalone: string -> bool)
    returns (next: nat)
    requires AllReal(lines) && ItemFits(item, lines, context, standalone) && kind in {6, 7}
    ensures next in {6, 7}
    ensures MaskLines(lines, ModeOf(context, kind), standalone)
            == (if item.Plain? || item.Gap? then lines[0] else AllBlanked(lines[..Size(item)]))
               + MaskLines(lines[Size(item)..], ModeOf(Behind(item, lines), next), standalone)
  {
    hide Body, Real, Blanked, Step, MaskLines, AllBlanked, IsBlank, FencedFits, MarkupsFit, NoHtml, NoFence, Indented,
      Closes;
    next := 6;
    match item {
      case Fenced(mark, n, size) => FencedMasked(lines, context.Paragraph?, mark, n, size, standalone);
      case Markups(k, size) =>
        next := KindBehind(k);
        MarkupsMasked(lines, context.Paragraph?, k, size, standalone);
      case _ =>
        OneBlanked(lines);
        LineMasked(item, lines, context, kind, standalone);
    }
  }

  lemma StepAtFence(line: string, inParagraph: bool, mark: char, n: nat, standalone: string -> bool)
    requires Real(line) && NoHtml(Body(line), inParagraph, standalone) && FenceOpens(Body(line), mark, n)
    ensures Step(Mode(Open, inParagraph), line, standalone) == (Mode(Fence(mark, n), false), Blanked(line))
  {
    hide FenceOpens, Body, Real, Blanked, Step, NoHtml, NoFence, Indented, Closes, HtmlBegins;
    StepOutside(line, inParagraph, standalone);
  }

  lemma RestOf(lines: seq<string>, size: nat)
    requires 1 <= size <= |lines|
    ensures lines[1..][size - 1..] == lines[size..]
    ensures forall i :: 0 <= i < |lines| - 1 ==> lines[1..][i] == lines[i + 1]
  {
  }

  lemma FencedRest(lines: seq<string>, mark: char, n: nat, size: nat, standalone: string -> bool)
    requires AllReal(lines) && 1 <= size <= |lines| && FencedFits(lines, mark, n, size)
    ensures MaskLines(lines[1..], Mode(Fence(mark, n), false), standalone)
            == AllBlanked(lines[1..][..size - 1]) + MaskLines(lines[size..], TOP, standalone)
  {
    hide FenceOpens, FenceEnds, Body, Real, MaskLines, AllBlanked;
    RestOf(lines, size);
    FenceRun(lines[1..], mark, n, size - 1, standalone);
  }

  lemma Regroup(whole: string, out: string, inner: string, front: string, back: string)
    requires whole == out + inner && inner == front + back
    ensures whole == (out + front) + back
  {
  }

  lemma FencedMasked(lines: seq<string>, inParagraph: bool, mark: char, n: nat, size: nat, standalone: string -> bool)
    requires AllReal(lines) && 1 <= size <= |lines| && FencedFits(lines, mark, n, size)
    requires NoHtml(Body(lines[0]), inParagraph, standalone)
    ensures MaskLines(lines, Mode(Open, inParagraph), standalone)
            == AllBlanked(lines[..size]) + MaskLines(lines[size..], TOP, standalone)
  {
    hide FenceOpens, FenceEnds, Body, Real, MaskLines, AllBlanked, Blanked, Step, NoHtml;
    var line, inside := lines[0], Mode(Fence(mark, n), false);
    StepAtFence(line, inParagraph, mark, n, standalone);
    StepLines(lines, Mode(Open, inParagraph), inside, Blanked(line), standalone);
    FirstOff(lines, size);
    FencedRest(lines, mark, n, size, standalone);
    Regroup(MaskLines(lines, Mode(Open, inParagraph), standalone), Blanked(line),
            MaskLines(lines[1..], inside, standalone), AllBlanked(lines[1..][..size - 1]),
            MaskLines(lines[size..], TOP, standalone));
  }

  lemma KindRange(body: string, inParagraph: bool, standalone: string -> bool, kind: nat)
    requires HtmlBegins(body, inParagraph, standalone, kind)
    ensures 1 <= kind <= 7
  {
  }

  function KindBehind(kind: nat): nat {
    if kind in {6, 7} then kind else 6
  }

  lemma MarkupsRest(lines: seq<string>, inParagraph: bool, kind: nat, size: nat, standalone: string -> bool)
    requires AllReal(lines) && 1 <= size <= |lines| && MarkupsFit(lines, inParagraph, standalone, kind, size)
    ensures var after := if HtmlEnds(Body(lines[0]), kind) then TOP else Mode(Html(kind), false);
            MaskLines(lines[1..], after, standalone)
            == AllBlanked(lines[1..][..size - 1])
               + MaskLines(lines[size..], ModeOf(Behind(Markups(kind, size), lines), KindBehind(kind)), standalone)
  {
    hide HtmlBegins, HtmlEnds, Body, Real, MaskLines, AllBlanked, IsBlank;
    var rest := lines[1..];
    KindRange(Body(lines[0]), inParagraph, standalone, kind);
    NoneLeft(rest, TOP, standalone);
    NoneLeft(rest, Mode(Html(kind), false), standalone);
    NoLateEnd(Body(lines[0]), kind);
    RestOf(lines, size);
    if !(kind <= 5 && size == 1) {
      HtmlRun(rest, kind, size - 1, standalone);
    }
  }

  lemma StepAtHtml(line: string, inParagraph: bool, kind: nat, standalone: string -> bool)
    requires Real(line) && HtmlBegins(Body(line), inParagraph, standalone, kind)
    ensures Step(Mode(Open, inParagraph), line, standalone)
            == (if HtmlEnds(Body(line), kind) then TOP else Mode(Html(kind), false), Blanked(line))
  {
    hide FenceOpens, Body, Real, Blanked, Step, NoHtml, NoFence, Indented, Closes, HtmlBegins, HtmlEnds;
    StepOutside(line, inParagraph, standalone);
  }

  lemma MarkupsMasked(lines: seq<string>, inParagraph: bool, kind: nat, size: nat, standalone: string -> bool)
    requires AllReal(lines) && 1 <= size <= |lines| && MarkupsFit(lines, inParagraph, standalone, kind, size)
    ensures MaskLines(lines, Mode(Open, inParagraph), standalone)
            == AllBlanked(lines[..size])
               + MaskLines(lines[size..], ModeOf(Behind(Markups(kind, size), lines), KindBehind(kind)), standalone)
  {
    hide HtmlBegins, HtmlEnds, Body, Real, Blanked, Step, MaskLines, AllBlanked, IsBlank, ModeOf, Behind, KindBehind;
    var line := lines[0];
    var after := if HtmlEnds(Body(line), kind) then TOP else Mode(Html(kind), false);
    StepAtHtml(line, inParagraph, kind, standalone);
    StepLines(lines, Mode(Open, inParagraph), after, Blanked(line), standalone);
    FirstOff(lines, size);
    MarkupsRest(lines, inParagraph, kind, size, standalone);
    Regroup(MaskLines(lines, Mode(Open, inParagraph), standalone), Blanked(line),
            MaskLines(lines[1..], after, standalone), AllBlanked(lines[1..][..size - 1]),
            MaskLines(lines[size..], ModeOf(Behind(Markups(kind, size), lines), KindBehind(kind)), standalone));
  }

  lemma {:induction false} LinesMasked(items: seq<Item>, lines: seq<string>, context: Context, kind: nat,
                                       standalone: string -> bool)
    requires AllReal(lines) && Layout(items, lines, context, standalone) && kind in {6, 7}
    ensures MaskLines(lines, ModeOf(context, kind), standalone) == Rendered(items, lines)
    decreases |items|
  {
    hide ItemFits, MaskLines, AllBlanked, ModeOf;
    if items == [] {
      NoneLeft(lines, ModeOf(context, kind), standalone);
    } else {
      FitsSize(items[0], lines, context, standalone);
      var next := ItemMasked(items[0], lines, context, kind, standalone);
      LinesMasked(items[1..], lines[Size(items[0])..], Behind(items[0], lines), next, standalone);
    }
  }

  lemma FitsSize(item: Item, lines: seq<string>, context: Context, standalone: string -> bool)
    requires ItemFits(item, lines, context, standalone)
    ensures 1 <= Size(item) <= |lines|
  {
  }

  /** Whatever layout a text has once its comments are gone, its ordinary lines are
      emitted as they are, and in all others every character but CR and LF is a space. */
  lemma LayoutMasked(text: string, items: seq<Item>, standalone: string -> bool)
    requires Layout(items, Lines(MaskComments(text)), Between, standalone)
    ensures Mask(text, standalone) == Rendered(items, Lines(MaskComments(text)))
  {
    hide MaskComments, Lines, MaskLines, MaskFrom, Layout, Rendered;
    var bare := MaskComments(text);
    LinesReal(bare);
    MaskedByLine(bare, TOP, standalone);
    LinesMasked(items, Lines(bare), Between, 6, standalone);
  }

  // -------------------------------------------- every text has one layout

  lemma {:induction false} FenceExtent(lines: seq<string>, mark: char, n: nat, from: nat) returns (size: nat)
    requires 1 <= from <= |lines| && forall i :: 1 <= i < from ==> !FenceEnds(Body(lines[i]), mark, n)
    ensures 1 <= size <= |lines| && forall i :: 1 <= i < size - 1 ==> !FenceEnds(Body(lines[i]), mark, n)
    ensures size == |lines| || (size > 1 && FenceEnds(Body(lines[size - 1]), mark, n))
    decreases |lines| - from
  {
    hide FenceEnds, Body;
    if from == |lines| {
      size := from;
    } else if FenceEnds(Body(lines[from]), mark, n) {
      size := from + 1;
    } else {
      size := FenceExtent(lines, mark, n, from + 1);
    }
  }

  lemma {:induction false} TerminatorExtent(lines: seq<string>, kind: nat, from: nat) returns (size: nat)
    requires from < |lines| && forall i :: 0 <= i < from ==> !HtmlEnds(Body(lines[i]), kind)
    ensures 1 <= size <= |lines| && forall i :: 0 <= i < size - 1 ==> !HtmlEnds(Body(lines[i]), kind)
    ensures size == |lines| || HtmlEnds(Body(lines[size - 1]), kind)
    decreases |lines| - from
  {
    hide HtmlEnds, Body;
    if from == |lines| - 1 || HtmlEnds(Body(lines[from]), kind) {
      size := from + 1;
    } else {
      size := TerminatorExtent(lines, kind, from + 1);
    }
  }

  lemma {:induction false} BlankExtent(lines: seq<string>, from: nat) returns (size: nat)
    requires 1 <= from <= |lines| && forall i :: 1 <= i < from ==> !IsBlank(Body(lines[i]))
    ensures 1 <= size <= |lines| && forall i :: 1 <= i < size ==> !IsBlank(Body(lines[i]))
    ensures size == |lines| || IsBlank(Body(lines[size]))
    decreases |lines| - from
  {
    hide IsBlank, Body;
    if from == |lines| || IsBlank(Body(lines[from])) {
      size := from;
    } else {
      size := BlankExtent(lines, from + 1);
    }
  }

  lemma FirstItem(lines: seq<string>, context: Context, standalone: string -> bool) returns (item: Item)
    requires lines != [] && (context.BehindMarkup? ==> IsBlank(Body(lines[0])))
    ensures ItemFits(item, lines, context, standalone)
    ensures Behind(item, lines).BehindMarkup? ==> Size(item) < |lines| && IsBlank(Body(lines[Size(item)]))
  {
    hide HtmlBegins, HtmlEnds, FenceOpens, FenceEnds, Indented, Body, IsBlank, ParseHeading, ThematicBreak, Closes;
    var body, inParagraph := Body(lines[0]), context.Paragraph?;
    if context.BehindMarkup? {
      item := Gap;
    } else if exists kind :: HtmlBegins(body, inParagraph, standalone, kind) {
      var kind :| HtmlBegins(body, inParagraph, standalone, kind);
      var size;
      if kind <= 5 {
        size := TerminatorExtent(lines, kind, 0);
      } else {
        size := BlankExtent(lines, 1);
      }
      item := Markups(kind, size);
    } else if exists mark, n: nat :: FenceOpens(body, mark, n) {
      var mark, n: nat :| FenceOpens(body, mark, n);
      var size := FenceExtent(lines, mark, n, 1);
      item := Fenced(mark, n, size);
    } else {
      item := if Indented(body) then Code else Plain;
    }
  }

  lemma {:induction false} SomeLayout(lines: seq<string>, context: Context, standalone: string -> bool)
    returns (items: seq<Item>)
    requires context.BehindMarkup? ==> lines != [] && IsBlank(Body(lines[0]))
    ensures Layout(items, lines, context, standalone)
    decreases |lines|
  {
    hide ItemFits, Behind, IsBlank, Body;
    if lines == [] {
      items := [];
    } else {
      var item := FirstItem(lines, context, standalone);
      FitsSize(item, lines, context, standalone);
      var rest := SomeLayout(lines[Size(item)..], Behind(item, lines), standalone);
      items := [item] + rest;
    }
  }

  lemma SameItem(a: Item, b: Item, lines: seq<string>, context: Context, standalone: string -> bool)
    requires ItemFits(a, lines, context, standalone) && ItemFits(b, lines, context, standalone)
    ensures a == b
  {
    hide HtmlBegins, HtmlEnds, FenceOpens, FenceEnds, Indented, Body, IsBlank, HtmlOpen, FenceAt;
    var body, inParagraph := Body(lines[0]), context.Paragraph?;
    if a.Markups? && b.Markups? {
      HtmlBeginsExactly(body, inParagraph, standalone, a.kind);
      HtmlBeginsExactly(body, inParagraph, standalone, b.kind);
    } else if a.Fenced? && b.Fenced? {
      FenceOpensExactly(body, a.mark, a.length);
      FenceOpensExactly(body, b.mark, b.length);
    }
  }

  lemma {:induction false} OneLayout(a: seq<Item>, b: seq<Item>, lines: seq<string>, context: Context,
                                     standalone: string -> bool)
    requires Layout(a, lines, context, standalone) && Layout(b, lines, context, standalone)
    ensures a == b
    decreases |a|
  {
    hide ItemFits, Behind;
    if a != [] && b != [] {
      SameItem(a[0], b[0], lines, context, standalone);
      FitsSize(a[0], lines, context, standalone);
      OneLayout(a[1..], b[1..], lines[Size(a[0])..], Behind(a[0], lines), standalone);
      assert a == [a[0]] + a[1..] && b == [b[0]] + b[1..];
    } else if a != [] {
      FitsSize(a[0], lines, context, standalone);
    } else if b != [] {
      FitsSize(b[0], lines, context, standalone);
    }
  }

  /** Every text has exactly one layout, and that tells what masking does to it. */
  lemma MaskedByLayout(text: string, standalone: string -> bool)
    ensures exists items :: && Layout(items, Lines(MaskComments(text)), Between, standalone)
                            && Mask(text, standalone) == Rendered(items, Lines(MaskComments(text)))
                            && forall other :: Layout(other, Lines(MaskComments(text)), Between, standalone) ==>
                                                 other == items
  {
    hide MaskComments, Lines, Mask, Layout, Rendered;
    var lines := Lines(MaskComments(text));
    var items := SomeLayout(lines, Between, standalone);
    LayoutMasked(text, items, standalone);
    forall other | Layout(other, lines, Between, standalone) ensures other == items {
      OneLayout(other, items, lines, Between, standalone);
    }
  }

  // --------------------------------------------------------------- comments

  /** No comment opens within the front, also not across its end. */
  ghost predicate Opensless(front: string, rest: string) {
    forall i :: 0 <= i < |front| ==> !OpensComment(front + rest, i)
  }

  predicate ClosesComment(text: string, i: nat) {
    i + 3 <= |text| && text[i] == '-' && text[i + 1] == '-' && text[i + 2] == '>'
  }

  /** The first close in `text` at or behind `from` is at `k`. */
  predicate FirstClose(text: string, from: nat, k: nat) {
    from <= k && ClosesComment(text, k) && forall i :: from <= i < k ==> !ClosesComment(text, i)
  }

  lemma ClosesHere(text: string, from: nat)
    requires from <= |text|
    ensures "-->" <= text[from..] <==> ClosesComment(text, from)
  {
    var rest := text[from..];
    assert forall i :: 0 <= i < |rest| ==> rest[i] == text[from + i];
    assert ClosesComment(text, from) ==> rest[..3] == "-->";
  }

  lemma {:induction false} CommentEndsAt(text: string, from: nat, k: nat)
    requires FirstClose(text, from, k)
    ensures CommentEnd(text, from) == k + 3
    decreases k - from
  {
    ClosesHere(text, from);
    if from < k {
      CommentEndsAt(text, from + 1, k);
    }
  }

  lemma {:induction false} CommentOpenEnded(text: string, from: nat)
    requires from <= |text| && forall i: nat :: from <= i ==> !ClosesComment(text, i)
    ensures CommentEnd(text, from) == |text|
    decreases |text| - from
  {
    if from < |text| {
      ClosesHere(text, from);
      CommentOpenEnded(text, from + 1);
    }
  }

  lemma CommentKept(text: string)
    requires text != [] && !OpensComment(text, 0)
    ensures MaskComments(text) == [text[0]] + MaskComments(text[1..])
  {
  }

  lemma {:induction false} UpToComment(front: string, rest: string)
    requires Opensless(front, rest)
    ensures MaskComments(front + rest) == front + MaskComments(rest)
  {
    hide MaskComments;
    if front == [] {
      assert front + rest == rest;
    } else {
      var text := front + rest;
      assert !OpensComment(text, 0);
      assert text[1..] == front[1..] + rest;
      forall i | 0 <= i < |front[1..]| ensures !OpensComment(front[1..] + rest, i) {
        assert !OpensComment(text, i + 1);
      }
      UpToComment(front[1..], rest);
      CommentKept(text);
    }
  }

  /** Up to the first comment a text is kept; the comment, to its first close behind
      its opening, is blanked; and then the rest is masked in the same way. */
  lemma CommentMasked(front: string, comment: string, rest: string)
    requires Opensless(front, comment + rest) && "<!--" <= comment && |comment| >= 7
    requires FirstClose(comment, 4, |comment| - 3)
    ensures MaskComments(front + (comment + rest)) == front + (Blanked(comment) + MaskComments(rest))
  {
    hide MaskComments, Blanked;
    UpToComment(front, comment + rest);
    var text, k := comment + rest, |comment| - 3;
    forall i | 4 <= i <= k ensures ClosesComment(text, i) <==> ClosesComment(comment, i) {}
    CommentEndsAt(text, 4, k);
    CommentFirst(text);
    assert text[..|comment|] == comment && text[|comment|..] == rest;
  }

  lemma CommentFirst(text: string)
    requires "<!--" <= text
    ensures var n := CommentEnd(text, 4); MaskComments(text) == Blanked(text[..n]) + MaskComments(text[n..])
  {
    hide CommentEnd, Blanked;
  }

  /** A comment that is never closed takes everything. */
  lemma OpenCommentMasked(front: string, comment: string)
    requires Opensless(front, comment) && "<!--" <= comment
    requires forall i: nat :: i >= 4 ==> !ClosesComment(comment, i)
    ensures MaskComments(front + comment) == front + Blanked(comment)
  {
    hide MaskComments, Blanked;
    UpToComment(front, comment);
    CommentOpenEnded(comment, 4);
    CommentFirst(comment);
    assert comment[..|comment|] == comment && comment[|comment|..] == [];
    NothingMasked();
    assert Blanked(comment) + [] == Blanked(comment);
  }

  lemma NothingMasked()
    ensures MaskComments([]) == []
  {
  }

  // --------------------------------------------------------------- headings

  /** At most three spaces, one to six hashes, and then the end or a blank. */
  predicate HeadingShape(body: string, indent: nat, level: nat) {
    && indent <= 3 && 1 <= level <= 6 && indent + level <= |body|
    && (forall i :: 0 <= i < indent ==> body[i] == ' ')
    && (forall i :: indent <= i < indent + level ==> body[i] == '#')
    && (indent + level < |body| ==> body[indent + level] == ' ' || body[indent + level] == '\t')
  }

  lemma HeadingFound(body: string, indent: nat, level: nat)
    requires HeadingShape(body, indent, level)
    ensures ParseHeading(body).Some? && ParseHeading(body).value.0 == level
  {
    hide CountWhile, WithoutClosing, DropBlankTail, DropBlanks, Strip;
    CountIs(body, ' ', indent);
    var line := body[indent..];
    assert forall i :: 0 <= i < |line| ==> line[i] == body[indent + i];
    CountIs(line, '#', level);
  }

  lemma HeadingParts(body: string)
    requires ParseHeading(body).Some?
    ensures var indent := CountWhile(body, ' ');
            var level, line := ParseHeading(body).value.0, body[indent..];
            && indent <= 3 && 1 <= level <= 6 && level == CountWhile(line, '#')
            && (level < |line| ==> line[level] == ' ' || line[level] == '\t')
  {
    hide CountWhile, WithoutClosing, DropBlankTail, DropBlanks, Strip;
  }

  lemma HashesAt(body: string, indent: nat, level: nat)
    requires indent <= |body| && level == CountWhile(body[indent..], '#')
    ensures forall i :: indent <= i < indent + level ==> body[i] == '#'
  {
    hide CountWhile;
    var line := body[indent..];
    forall i | indent <= i < indent + level ensures body[i] == '#' {
      assert line[i - indent] == '#';
    }
  }

  lemma HeadingShown(body: string)
    requires ParseHeading(body).Some?
    ensures HeadingShape(body, CountWhile(body, ' '), ParseHeading(body).value.0)
  {
    hide CountWhile, ParseHeading;
    HeadingParts(body);
    var indent, level := CountWhile(body, ' '), ParseHeading(body).value.0;
    HashesAt(body, indent, level);
    var line := body[indent..];
    assert level < |line| ==> line[level] == body[indent + level];
  }

  lemma HeadingExactly(body: string, level: nat)
    ensures ParseHeading(body).Some? && ParseHeading(body).value.0 == level
            <==> exists indent: nat :: HeadingShape(body, indent, level)
  {
    hide ParseHeading, HeadingShape;
    if exists indent: nat :: HeadingShape(body, indent, level) {
      var indent: nat :| HeadingShape(body, indent, level);
      HeadingFound(body, indent, level);
    }
    if ParseHeading(body).Some? {
      HeadingShown(body);
    }
  }

  function Hashes(n: nat): (r: string)
    ensures |r| == n && forall i :: 0 <= i < n ==> r[i] == '#'
  {
    seq(n, _ => '#')
  }

  /** Content that ends with hashes keeps them if nothing sets them off. */
  predicate KeepsHashes(content: string) {
    var s := DropTail(content, '#');
    s != [] && s[|s| - 1] != ' ' && s[|s| - 1] != '\t'
  }

  lemma ContentRead(content: string, k: nat)
    requires content != [] && Trimmed(content) && KeepsHashes(content)
    ensures WithoutClosing(content) == content
    ensures k > 0 ==> WithoutClosing(content + " " + Hashes(k)) == content
  {
    hide DropTail;
    if k > 0 {
      var text := content + " " + Hashes(k);
      assert text[|content|] == ' ';
      DropTailIs(text, '#', |content| + 1);
      assert text[..|content| + 1] == content + " ";
    }
  }

  /** A heading as it is written is read back: its level and its content, without a
      closing sequence that a space sets off, with one that belongs to its last word. */
  lemma HeadingReads(indent: nat, level: nat, content: string, k: nat)
    requires indent <= 3 && 1 <= level <= 6 && content != [] && Trimmed(content) && KeepsHashes(content)
    ensures var line := Spaces(indent) + Hashes(level) + " " + content;
            && ParseHeading(line) == Some((level, content))
            && (k > 0 ==> ParseHeading(line + (" " + Hashes(k))) == Some((level, content)))
  {
    hide ParseHeading, WithoutClosing, Strip, KeepsHashes, Trimmed;
    ContentRead(content, k);
    HeadingText(indent, level, content);
    if k > 0 {
      var text := content + " " + Hashes(k);
      ClosedTrimmed(content, k);
      assert Spaces(indent) + Hashes(level) + " " + content + (" " + Hashes(k))
          == Spaces(indent) + Hashes(level) + " " + text;
      HeadingText(indent, level, text);
    }
  }

  lemma ClosedTrimmed(content: string, k: nat)
    requires content != [] && Trimmed(content) && k > 0
    ensures Trimmed(content + " " + Hashes(k))
  {
    var text := content + " " + Hashes(k);
    assert text[|text| - 1] == '#' && text[0] == content[0];
  }

  lemma HashVisible()
    ensures !IsSpace('#') && IsSpace(' ') && IsSpace('\t')
  {
  }

  lemma HeadingText(indent: nat, level: nat, text: string)
    requires indent <= 3 && 1 <= level <= 6 && text != [] && Trimmed(text)
    ensures ParseHeading(Spaces(indent) + Hashes(level) + " " + text) == Some((level, Strip(WithoutClosing(text))))
  {
    hide CountWhile, WithoutClosing, DropBlankTail, DropBlanks, Strip, IsSpace;
    HashVisible();
    var body := Spaces(indent) + Hashes(level) + " " + text;
    CountIs(body, ' ', indent);
    var line := body[indent..];
    assert line == Hashes(level) + " " + text;
    CountIs(line, '#', level);
    var rest := line[level..];
    assert rest == " " + text;
    BlanksDropped(rest, " ");
    assert rest[1..] == text;
    TailKept(text);
  }

  lemma TailKept(text: string)
    requires text != [] && !IsSpace(text[|text| - 1])
    ensures DropBlankTail(text) == text
  {
    HashVisible();
  }
}
