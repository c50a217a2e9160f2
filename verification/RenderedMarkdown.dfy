/** The rendered-structure boundary of the audit validator: which characters of a
    Markdown text survive masking, and the headings and sections read off it. */
module RenderedMarkdown {
  import opened Text

  // ------------------------------------------------------------------- lines

  /** The line boundaries of `str.splitlines`. */
  predicate IsBreak(c: char) {
    '\n' <= c <= '\r' || '\U{1C}' <= c <= '\U{1E}' || c == '\U{85}' || c == '\U{2028}' || c == '\U{2029}'
  }

  predicate IsNewline(c: char) {
    c == '\r' || c == '\n'
  }

  /** Only CR and LF end lines in this text. */
  ghost predicate PlainLines(text: string) {
    forall i :: 0 <= i < |text| && IsBreak(text[i]) ==> IsNewline(text[i])
  }

  /** Length of the first line, its ending included. */
  function LineEnd(text: string): (n: nat)
    requires text != []
    ensures 1 <= n <= |text|
  {
    if IsBreak(text[0]) then
      if text[0] == '\r' && |text| > 1 && text[1] == '\n' then 2 else 1
    else if |text| == 1 then 1
    else 1 + LineEnd(text[1..])
  }

  /** `line.rstrip("\r\n")`. */
  function Body(line: string): (r: string)
    ensures r <= line
    ensures r != [] ==> !IsNewline(r[|r| - 1])
    ensures forall i :: |r| <= i < |line| ==> IsNewline(line[i])
  {
    if line != [] && IsNewline(line[|line| - 1]) then Body(line[..|line| - 1]) else line
  }

  predicate IsBlank(s: string) {
    forall i :: 0 <= i < |s| ==> IsSpace(s[i])
  }

  function Spaces(n: nat): (r: string)
    ensures |r| == n && forall i :: 0 <= i < n ==> r[i] == ' '
  {
    seq(n, _ => ' ')
  }

  /** A masked line: its body blanked, its ending kept. */
  function MaskLine(line: string): (r: string)
    ensures |r| == |line|
  {
    Spaces(|Body(line)|) + line[|Body(line)|..]
  }

  // ------------------------------------------------------------ line classes

  function CountWhile(s: string, c: char): (n: nat)
    ensures n <= |s| && (forall i :: 0 <= i < n ==> s[i] == c) && (n < |s| ==> s[n] != c)
  {
    if s == [] || s[0] != c then 0 else 1 + CountWhile(s[1..], c)
  }

  function DropBlanks(s: string): (r: string)
    ensures |r| <= |s| && r == s[|s| - |r|..] && (r != [] ==> r[0] != ' ' && r[0] != '\t')
  {
    if s != [] && (s[0] == ' ' || s[0] == '\t') then DropBlanks(s[1..]) else s
  }

  predicate OnlyBlanks(s: string) {
    DropBlanks(s) == []
  }

  /** What follows an indentation of at most three spaces. */
  function Unindented(body: string): Option<string> {
    var n := CountWhile(body, ' ');
    if n <= 3 then Some(body[n..]) else None
  }

  /** Three or more equal fence characters after at most three blanks. */
  function FenceAt(body: string): Option<(char, nat)> {
    var rest := DropBlanks(body);
    if |body| - |rest| > 3 || rest == [] || (rest[0] != '`' && rest[0] != '~') then None
    else if CountWhile(rest, rest[0]) < 3 then None
    else Some((rest[0], CountWhile(rest, rest[0])))
  }

  /** `FENCE_CLOSE_RE`: such a fence with nothing but blanks behind it. */
  function FenceClose(body: string): Option<(char, nat)> {
    var fence := FenceAt(body);
    if fence.Some? && OnlyBlanks(DropBlanks(body)[fence.value.1..]) then fence else None
  }

  predicate StartsTag(rest: string, name: string) {
    |name| <= |rest| && LowerAll(rest[..|name|]) == name
  }

  const RAW_TAGS := ["pre", "script", "style", "textarea"]

  const BLOCK_TAGS := [
    "address", "article", "aside", "base", "basefont", "blockquote", "body", "caption", "center", "col", "colgroup",
    "dd", "details", "dialog", "dir", "div", "dl", "dt", "fieldset", "figcaption", "figure", "footer", "form", "frame",
    "frameset", "h1", "h2", "h3", "h4", "h5", "h6", "head", "header", "hr", "html", "iframe", "legend", "li", "link",
    "main", "menu", "menuitem", "nav", "noframes", "ol", "optgroup", "option", "p", "param", "search", "section",
    "summary", "table", "tbody", "td", "tfoot", "th", "thead", "title", "tr", "track", "ul"]

  predicate RawTagOpen(rest: string) {
    exists k :: 0 <= k < |RAW_TAGS| && StartsTag(rest, RAW_TAGS[k])
      && var after := rest[|RAW_TAGS[k]|..]; after == [] || IsSpace(after[0]) || after[0] == '>' || "/>" <= after
  }

  predicate BlockTagOpen(rest: string) {
    exists k :: 0 <= k < |BLOCK_TAGS| && StartsTag(rest, BLOCK_TAGS[k])
      && var after := rest[|BLOCK_TAGS[k]|..]; after == [] || IsSpace(after[0]) || after[0] == '>' || after[0] == '/'
  }

  predicate IsLetter(c: char) {
    'a' <= Lower(c) <= 'z'
  }

  /** The HTML block type a line opens, 0 for none (CommonMark 0.31, section
      4.6). `standalone` recognises a complete tag alone on its line, type 7. */
  function HtmlOpen(body: string, inParagraph: bool, standalone: string -> bool): nat {
    var line := Unindented(body);
    if line.Some? && line.value != [] && line.value[0] == '<' then
      var rest := line.value[1..];
      if RawTagOpen(rest) then 1
      else if "!--" <= rest then 2
      else if "?" <= rest then 3
      else if "![CDATA[" <= rest then 5
      else if |rest| > 1 && rest[0] == '!' && IsLetter(rest[1]) then 4
      else if BlockTagOpen(if "/" <= rest then rest[1..] else rest) then 6
      else if !inParagraph && standalone(body) then 7
      else 0
    else 0
  }

  predicate RawTagClose(body: string) {
    exists k :: 0 <= k < |RAW_TAGS| && Contains(LowerAll(body), "</" + RAW_TAGS[k] + ">")
  }

  /** The terminator of block types 1 to 5 occurs in the line. */
  predicate Terminates(kind: nat, body: string) {
    match kind
    case 1 => RawTagClose(body)
    case 2 => Contains(body, "-->")
    case 3 => Contains(body, "?>")
    case 4 => Contains(body, ">")
    case 5 => Contains(body, "]]>")
    case _ => false
  }

  /** Indented code: a leading tab, or four spaces before something visible. */
  predicate IndentedCode(body: string) {
    var n := CountWhile(body, ' ');
    ("\t" <= body) || (n >= 4 && n < |body| && !IsSpace(body[n]))
  }

  function DropBlankTail(s: string): (r: string)
    ensures r <= s
  {
    if s != [] && (s[|s| - 1] == ' ' || s[|s| - 1] == '\t') then DropBlankTail(s[..|s| - 1]) else s
  }

  /** The content without a closing hash sequence set off by white space. */
  function WithoutClosing(content: string): string {
    var s := DropTail(content, '#');
    if s == content then content
    else if s == [] then []
    else if s[|s| - 1] == ' ' || s[|s| - 1] == '\t' then s[..|s| - 1]
    else content
  }

  /** `_parse_atx_heading`: level and rendered content (section 4.2). */
  function ParseHeading(body: string): Option<(nat, string)> {
    var line := Unindented(body);
    if line.None? then None
    else
      var level := CountWhile(line.value, '#');
      var rest := line.value[level..];
      if !(1 <= level <= 6) || (rest != [] && rest[0] != ' ' && rest[0] != '\t') then None
      else Some((level, Strip(WithoutClosing(DropBlankTail(DropBlanks(rest))))))
  }

  function CountOf(s: string, c: char): nat {
    if s == [] then 0 else (if s[0] == c then 1 else 0) + CountOf(s[1..], c)
  }

  predicate ThematicBreak(body: string) {
    var line := Unindented(body);
    line.Some? && line.value != [] && line.value[0] in {'*', '-', '_'} && CountOf(line.value, line.value[0]) >= 3
    && forall i :: 0 <= i < |line.value| ==> line.value[i] in {line.value[0], ' ', '\t'}
  }

  // -------------------------------------------------------------- the masker

  datatype Block = Open | Fence(mark: char, length: nat) | Html(kind: nat)

  /** Between two lines: the block we are in, and whether a paragraph is open. */
  datatype Mode = Mode(block: Block, inParagraph: bool)

  const TOP := Mode(Open, false)

  function HtmlStep(kind: nat, line: string): (Mode, string) {
    var body := Body(line);
    if kind in {6, 7} && IsBlank(body) then (TOP, line)
    else (Mode(if Terminates(kind, body) then Open else Html(kind), false), MaskLine(line))
  }

  function FenceStep(mark: char, length: nat, line: string): (Mode, string) {
    var closing := FenceClose(Body(line));
    var done := closing.Some? && closing.value.0 == mark && closing.value.1 >= length;
    (Mode(if done then Open else Fence(mark, length), false), MaskLine(line))
  }

  function OpenStep(inParagraph: bool, line: string, standalone: string -> bool): (Mode, string) {
    var body := Body(line);
    var kind := HtmlOpen(body, inParagraph, standalone);
    if kind != 0 then (Mode(if Terminates(kind, body) then Open else Html(kind), false), MaskLine(line))
    else if FenceAt(body).Some? then (Mode(Fence(FenceAt(body).value.0, FenceAt(body).value.1), false), MaskLine(line))
    else if IndentedCode(body) then (TOP, MaskLine(line))
    else (Mode(Open, !(IsBlank(body) || ParseHeading(body).Some? || ThematicBreak(body))), line)
  }

  /** One line: the mode after it, and what is emitted for it. */
  function Step(mode: Mode, line: string, standalone: string -> bool): (Mode, string) {
    match mode.block
    case Html(kind) => HtmlStep(kind, line)
    case Fence(mark, length) => FenceStep(mark, length, line)
    case Open => OpenStep(mode.inParagraph, line, standalone)
  }

  function MaskFrom(text: string, mode: Mode, standalone: string -> bool): string
    decreases |text|
  {
    if text == [] then []
    else
      var n := LineEnd(text);
      var (next, out) := Step(mode, text[..n], standalone);
      out + MaskFrom(text[n..], next, standalone)
  }

  /** Length of the comment the text starts with: up to its first close, or to the end. */
  function CommentEnd(text: string, from: nat): (n: nat)
    requires from <= |text|
    ensures from <= n <= |text|
    decreases |text| - from
  {
    if from == |text| then from
    else if "-->" <= text[from..] then from + 3
    else CommentEnd(text, from + 1)
  }

  function Blanked(s: string): (r: string)
    ensures |r| == |s|
  {
    seq(|s|, i requires 0 <= i < |s| => if IsNewline(s[i]) then s[i] else ' ')
  }

  function MaskComments(text: string): (r: string)
    ensures |r| == |text|
    decreases |text|
  {
    if text == [] then []
    else if "<!--" <= text then
      var n := CommentEnd(text, 4);
      Blanked(text[..n]) + MaskComments(text[n..])
    else [text[0]] + MaskComments(text[1..])
  }

  /** `_mask_markdown_nonsemantic`. */
  function Mask(text: string, standalone: string -> bool): string {
    MaskFrom(MaskComments(text), TOP, standalone)
  }

  /** The loop over the lines, with its running block and paragraph state. */
  method MaskNonsemantic(text: string, standalone: string -> bool) returns (masked: string)
    ensures masked == Mask(text, standalone)
  {
    hide LineEnd, Step, MaskComments;
    var rest := MaskComments(text);
    var mode := TOP;
    masked := [];
    ghost var whole := MaskFrom(rest, TOP, standalone);
    while rest != []
      invariant masked + MaskFrom(rest, mode, standalone) == whole
      decreases |rest|
    {
      var n := LineEnd(rest);
      var (next, out) := Step(mode, rest[..n], standalone);
      masked, mode, rest := masked + out, next, rest[n..];
    }
  }

  // ------------------------------------------------ masking only takes away

  /** Same length; every character is kept, or a non-newline became a space. */
  ghost predicate Thins(text: string, masked: string) {
    |masked| == |text|
    && forall i :: 0 <= i < |text| ==> masked[i] == text[i] || (masked[i] == ' ' && !IsNewline(text[i]))
  }

  /** A first line: no break inside it, and at the end one break or CR LF. */
  lemma {:induction false} LineShape(text: string)
    requires text != []
    ensures var n := LineEnd(text);
            && (forall i :: 0 <= i < n - 2 ==> !IsBreak(text[i]))
            && (n >= 2 && IsBreak(text[n - 2]) ==> text[n - 2] == '\r' && text[n - 1] == '\n')
            && (!IsBreak(text[n - 1]) ==> n == |text|)
            && (text[n - 1] == '\r' && n < |text| ==> text[n] != '\n')
  {
    if !IsBreak(text[0]) && |text| > 1 {
      LineShape(text[1..]);
    }
  }

  lemma MaskLineThins(text: string)
    requires text != []
    ensures Thins(text[..LineEnd(text)], MaskLine(text[..LineEnd(text)]))
  {
    hide LineEnd, Body;
    LineShape(text);
    var line := text[..LineEnd(text)];
    var body := Body(line);
    forall i | 0 <= i < |body| ensures !IsNewline(line[i]) {
      if IsNewline(line[i]) {
        assert false;
      }
    }
  }

  lemma StepKeepsOrMasks(mode: Mode, line: string, standalone: string -> bool)
    ensures Step(mode, line, standalone).1 == line || Step(mode, line, standalone).1 == MaskLine(line)
  {
    hide HtmlOpen, FenceAt, FenceClose, IndentedCode, ParseHeading, ThematicBreak, Terminates, IsBlank, MaskLine, Body;
  }

  lemma ThinsTogether(a: string, ma: string, b: string, mb: string)
    requires Thins(a, ma) && Thins(b, mb)
    ensures Thins(a + b, ma + mb)
  {
  }

  lemma {:induction false} MaskFromThins(text: string, mode: Mode, standalone: string -> bool)
    ensures Thins(text, MaskFrom(text, mode, standalone))
    decreases |text|
  {
    hide Step, LineEnd, MaskLine;
    if text != [] {
      var n := LineEnd(text);
      var (next, out) := Step(mode, text[..n], standalone);
      StepKeepsOrMasks(mode, text[..n], standalone);
      MaskLineThins(text);
      MaskFromThins(text[n..], next, standalone);
      ThinsTogether(text[..n], out, text[n..], MaskFrom(text[n..], next, standalone));
      assert text == text[..n] + text[n..];
    }
  }

  lemma {:induction false} CommentsThin(text: string)
    ensures Thins(text, MaskComments(text))
    decreases |text|
  {
    if text == [] {
    } else if "<!--" <= text {
      var n := CommentEnd(text, 4);
      CommentsThin(text[n..]);
      ThinsTogether(text[..n], Blanked(text[..n]), text[n..], MaskComments(text[n..]));
      assert text == text[..n] + text[n..];
    } else {
      CommentsThin(text[1..]);
      ThinsTogether([text[0]], [text[0]], text[1..], MaskComments(text[1..]));
      assert text == [text[0]] + text[1..];
    }
  }

  /** Masking keeps the length and every CR and LF where it is, and turns the
      other characters into spaces or leaves them: no offset ever moves. */
  lemma MaskThins(text: string, standalone: string -> bool)
    ensures Thins(text, Mask(text, standalone))
  {
    hide MaskComments, MaskFrom;
    CommentsThin(text);
    MaskFromThins(MaskComments(text), TOP, standalone);
  }

  // --------------------------------------------------- masking a second time

  predicate OpensComment(text: string, i: nat) {
    i + 4 <= |text| && text[i] == '<' && text[i + 1] == '!' && text[i + 2] == '-' && text[i + 3] == '-'
  }

  ghost predicate NoComment(text: string) {
    forall i: nat :: !OpensComment(text, i)
  }

  lemma ThinsKeepsNoComment(text: string, masked: string)
    requires Thins(text, masked) && NoComment(text)
    ensures NoComment(masked)
  {
    forall i: nat ensures !OpensComment(masked, i) {
      assert !OpensComment(text, i);
    }
  }

  lemma NoCommentBehind(front: string, rest: string)
    requires NoComment(rest)
    requires forall i :: 0 <= i < |front| ==> !OpensComment(front + rest, i)
    ensures NoComment(front + rest)
  {
    forall i: nat ensures !OpensComment(front + rest, i) {
      if i >= |front| {
        assert !OpensComment(rest, i - |front|);
      }
    }
  }

  lemma {:induction false} CommentsGone(text: string)
    ensures NoComment(MaskComments(text))
    decreases |text|
  {
    if text == [] {
    } else if "<!--" <= text {
      var n := CommentEnd(text, 4);
      CommentsGone(text[n..]);
      var front := Blanked(text[..n]);
      assert forall i :: 0 <= i < |front| ==> (front + MaskComments(text[n..]))[i] == front[i] != '<';
      NoCommentBehind(front, MaskComments(text[n..]));
    } else {
      CommentsGone(text[1..]);
      CommentsThin(text);
      NoCommentBehind([text[0]], MaskComments(text[1..]));
    }
  }

  lemma {:induction false} NothingToMask(text: string)
    requires NoComment(text)
    ensures MaskComments(text) == text
  {
    if text != [] {
      assert !OpensComment(text, 0);
      forall i: nat ensures !OpensComment(text[1..], i) {
        assert !OpensComment(text, i + 1);
      }
      NothingToMask(text[1..]);
    }
  }

  /** A whitespace-only line that starts with a tab. */
  predicate Tabbed(line: string) {
    IsBlank(Body(line)) && "\t" <= Body(line)
  }

  function UntabLine(line: string): (r: string)
    ensures |r| == |line|
  {
    if Tabbed(line) then MaskLine(line) else line
  }

  /** The text with the tabbed whitespace-only lines blanked. */
  function Untab(text: string): (r: string)
    ensures |r| == |text|
  {
    if text == [] then []
    else
      var n := LineEnd(text);
      UntabLine(text[..n]) + Untab(text[n..])
  }

  predicate HasTabbed(text: string) {
    text != [] && var n := LineEnd(text); Tabbed(text[..n]) || HasTabbed(text[n..])
  }

  /** The body is what is left without the newlines at the end. */
  lemma BodyIs(line: string, n: nat)
    requires n <= |line|
    requires n > 0 ==> !IsNewline(line[n - 1])
    requires forall i :: n <= i < |line| ==> IsNewline(line[i])
    ensures Body(line) == line[..n]
  {
    hide Body;
    var r := Body(line);
    assert r != [] ==> r[|r| - 1] == line[|r| - 1];
  }

  lemma BodyOfMasked(line: string)
    ensures Body(MaskLine(line)) == Spaces(|Body(line)|)
  {
    hide Body;
    var masked, n := MaskLine(line), |Body(line)|;
    assert forall i :: n <= i < |masked| ==> masked[i] == line[i];
    assert masked[..n] == Spaces(n);
    BodyIs(masked, n);
  }

  /** A whitespace-only line opens nothing; only a leading tab gets it masked. */
  lemma BlankOpensNothing(body: string, inParagraph: bool, standalone: string -> bool)
    requires IsBlank(body)
    ensures HtmlOpen(body, inParagraph, standalone) == 0
    ensures FenceAt(body).None?
    ensures IndentedCode(body) <==> "\t" <= body
    ensures ParseHeading(body).None?
  {
    hide RawTagOpen, BlockTagOpen, CountWhile, DropBlanks, WithoutClosing, DropBlankTail, Strip;
    var n := CountWhile(body, ' ');
    assert n < |body| ==> IsSpace(body[n]);
    var rest := DropBlanks(body);
    assert rest != [] ==> rest[0] == body[|body| - |rest|] && IsSpace(rest[0]);
    if n < |body| {
      assert body[n..][0] == body[n];
      assert CountWhile(body[n..], '#') == 0;
    } else {
      assert CountWhile(body[n..], '#') == 0;
    }
  }

  /** How the second pass stands to the first: never inside a block, and in a
      paragraph exactly where the first pass is. */
  predicate Follows(first: Mode, second: Mode) {
    second == Mode(Open, first.block.Open? && first.inParagraph)
  }

  lemma StepTwice(first: Mode, second: Mode, line: string, standalone: string -> bool)
    requires Follows(first, second)
    ensures var (next, out) := Step(first, line, standalone);
            var (next2, out2) := Step(second, out, standalone);
            Follows(next, next2) && out2 == UntabLine(out)
  {
    hide HtmlOpen, FenceAt, FenceClose, IndentedCode, ParseHeading, ThematicBreak, Terminates, MaskLine, Body, Spaces;
    var (next, out) := Step(first, line, standalone);
    var body := Body(out);
    if IsBlank(body) {
      BlankOpensNothing(body, second.inParagraph, standalone);
    }
    BodyOfMasked(line);
    var spaces := Spaces(|Body(line)|);
    assert IsBlank(spaces) && (spaces != [] ==> spaces[0] == ' ');
    assert first.block.Open? && out != MaskLine(line) ==> !IndentedCode(Body(line));
    assert "\t" <= Body(line) && !IsBlank(Body(line)) ==> !Tabbed(line);
  }

  lemma {:induction false} LineEndKept(text: string, masked: string)
    requires Thins(text, masked) && PlainLines(text) && text != []
    ensures LineEnd(masked) == LineEnd(text)
  {
    assert IsBreak(text[0]) <==> IsBreak(masked[0]);
    if |text| > 1 && !IsBreak(text[0]) {
      LineEndKept(text[1..], masked[1..]);
    }
  }

  lemma {:induction false} MaskFromTwice(text: string, first: Mode, second: Mode, standalone: string -> bool)
    requires PlainLines(text) && Follows(first, second)
    ensures var masked := MaskFrom(text, first, standalone);
            MaskFrom(masked, second, standalone) == Untab(masked)
    decreases |text|
  {
    hide Step, LineEnd, UntabLine, Follows;
    if text != [] {
      var n := LineEnd(text);
      var (next, out) := Step(first, text[..n], standalone);
      var rest := MaskFrom(text[n..], next, standalone);
      var masked := out + rest;
      MaskFromThins(text, first, standalone);
      LineEndKept(text, masked);
      StepKeepsOrMasks(first, text[..n], standalone);
      assert masked[..n] == out && masked[n..] == rest;
      StepTwice(first, second, text[..n], standalone);
      var (next2, out2) := Step(second, out, standalone);
      MaskFromTwice(text[n..], next, next2, standalone);
    }
  }

  lemma ThinsKeepsPlainLines(text: string, masked: string)
    requires Thins(text, masked) && PlainLines(text)
    ensures PlainLines(masked)
  {
  }

  /** Masking masked text again only blanks its whitespace-only lines that start with a tab. */
  lemma MaskTwice(text: string, standalone: string -> bool)
    requires PlainLines(text)
    ensures var masked := Mask(text, standalone);
            Mask(masked, standalone) == Untab(masked)
  {
    hide MaskComments, MaskFrom, Untab;
    var bare := MaskComments(text);
    var masked := Mask(text, standalone);
    CommentsThin(text);
    ThinsKeepsPlainLines(text, bare);
    CommentsGone(text);
    MaskFromThins(bare, TOP, standalone);
    ThinsKeepsNoComment(bare, masked);
    NothingToMask(masked);
    MaskFromTwice(bare, TOP, TOP, standalone);
  }

  lemma {:induction false} UntabFixed(text: string)
    ensures Untab(text) == text <==> !HasTabbed(text)
    decreases |text|
  {
    hide LineEnd, Tabbed, Body, IsBlank;
    if text != [] {
      var n := LineEnd(text);
      UntabFixed(text[n..]);
      assert text == text[..n] + text[n..];
      var line := text[..n];
      if Tabbed(line) {
        TabbedChanges(line);
        assert Untab(text)[..n] == MaskLine(line);
      } else {
        assert Untab(text)[n..] == Untab(text[n..]);
      }
    }
  }

  lemma TabbedChanges(line: string)
    requires Tabbed(line)
    ensures MaskLine(line) != line
  {
    hide Body;
    assert line[0] == '\t' && MaskLine(line)[0] == ' ';
  }

  /** Masking is idempotent exactly on the texts whose masked form has no tabbed
      whitespace-only line. */
  lemma IdempotentExactly(text: string, standalone: string -> bool)
    requires PlainLines(text)
    ensures var masked := Mask(text, standalone);
            Mask(masked, standalone) == masked <==> !HasTabbed(masked)
  {
    hide Mask, Untab, HasTabbed;
    MaskTwice(text, standalone);
    UntabFixed(Mask(text, standalone));
  }

  lemma FirstLine(text: string, n: nat)
    requires 0 < n <= |text| && text[n - 1] == '\n' && forall i :: 0 <= i < n - 1 ==> !IsBreak(text[i])
    ensures LineEnd(text) == n
  {
    if n > 1 {
      FirstLine(text[1..], n - 1);
    }
  }

  lemma ParagraphTagOpens(standalone: string -> bool)
    ensures HtmlOpen("<p>", false, standalone) == 6
  {
    var rest := "p>";
    assert CountWhile("<p>", ' ') == 0 && "<p>"[0..] == "<p>" && "<p>"[1..] == rest;
    assert !RawTagOpen(rest);
    assert BLOCK_TAGS[47] == "p";
    assert LowerAll("p") == "p";
    assert StartsTag(rest, BLOCK_TAGS[47]) && rest[1..] == ">";
  }

  lemma ParagraphTagLine(standalone: string -> bool)
    ensures OpenStep(false, "<p>\n", standalone) == (Mode(Html(6), false), "   \n")
  {
    hide HtmlOpen, Body, MaskLine, FenceAt, IndentedCode, ParseHeading, ThematicBreak, RawTagClose, Contains, IsBlank;
    BodyIs("<p>\n", 3);
    assert "<p>\n"[..3] == "<p>";
    ParagraphTagOpens(standalone);
    ParagraphTagMasked();
  }

  lemma ParagraphTagMasked()
    ensures MaskLine("<p>\n") == "   \n"
  {
    hide Body;
    BodyIs("<p>\n", 3);
  }

  lemma TabLine()
    ensures HtmlStep(6, "\t") == (TOP, "\t") && Tabbed("\t")
  {
    hide Body;
    BodyIs("\t", 1);
  }

  lemma MaskFromStep(text: string, mode: Mode, standalone: string -> bool)
    requires text != []
    ensures var n := LineEnd(text);
            MaskFrom(text, mode, standalone)
            == Step(mode, text[..n], standalone).1
               + MaskFrom(text[n..], Step(mode, text[..n], standalone).0, standalone)
  {
    hide LineEnd, Step;
  }

  lemma ParagraphTagThenTab(standalone: string -> bool)
    ensures MaskFrom("<p>\n\t", TOP, standalone) == "   \n\t"
  {
    hide OpenStep, HtmlStep, LineEnd, MaskFrom;
    var text, last := "<p>\n\t", "\t";
    FirstLine(text, 4);
    ParagraphTagLine(standalone);
    MaskFromStep(text, TOP, standalone);
    assert text[..4] == "<p>\n" && text[4..] == last;
    TabLine();
    OneCharacter(last);
    MaskFromStep(last, Mode(Html(6), false), standalone);
    assert last[..1] == last && last[1..] == [];
    NothingLeft(TOP, standalone);
  }

  lemma NothingLeft(mode: Mode, standalone: string -> bool)
    ensures MaskFrom([], mode, standalone) == []
  {
  }

  lemma OneCharacter(text: string)
    requires |text| == 1
    ensures LineEnd(text) == 1
  {
  }

  /** The exception occurs: the blank line that closes an HTML block is emitted
      as it stands, and with a tab in front the second pass takes it for code. */
  lemma SecondMaskDiffers(standalone: string -> bool)
    ensures Mask("<p>\n\t", standalone) == "   \n\t"
    ensures Mask("   \n\t", standalone) != "   \n\t"
  {
    hide MaskFrom, MaskComments, Tabbed, LineEnd;
    var text, masked := "<p>\n\t", "   \n\t";
    NothingToMask(text);
    ParagraphTagThenTab(standalone);
    FirstLine(masked, 4);
    TabLine();
    var last := masked[4..];
    assert last == "\t" && last[..1] == last;
    OneCharacter(last);
    assert HasTabbed(last);
    IdempotentExactly(text, standalone);
  }
}
