/** Printers and parsers of the governance scripts that must undo each other: the
    revision marker in a status description, the normal form of free text, and
    the rebuilt status path. */
module RevisionMarker {
  import opened Numerals
  import opened Text

  const OPENING := "[hgr:"
  const DIGEST_LENGTH := 32
  const DESCRIPTION_LIMIT := 140

  // ---------------------------------------------------------------- the marker

  /** `render_marker`. */
  function Render(pullRequest: nat, revision: string): string {
    OPENING + Decimal(pullRequest) + ":" + revision + "]"
  }

  predicate IsRevision(s: string) {
    |s| == DIGEST_LENGTH && AllHex(s)
  }

  function DigitRun(s: string): (n: nat)
    ensures n <= |s| && AllDigits(s[..n]) && (n < |s| ==> !IsDigit(s[n]))
  {
    if s == [] || !IsDigit(s[0]) then 0
    else
      var n := DigitRun(s[1..]);
      assert forall i :: 0 < i <= n ==> s[i] == s[1..][..n][i - 1];
      1 + n
  }

  /** The marker pattern at the start of the text. */
  function MarkerAt(s: string): Option<(nat, string)> {
    if !(OPENING <= s) then None
    else
      var rest := s[5..];
      var n := DigitRun(rest);
      var tail := rest[n..];
      if n == 0 || |tail| < DIGEST_LENGTH + 2 || tail[0] != ':' || !AllHex(tail[1..DIGEST_LENGTH + 1])
         || tail[DIGEST_LENGTH + 1] != ']' then None
      else
        assert forall i :: 0 <= i < n ==> IsHex(rest[..n][i]);
        Some((Value(rest[..n], 10), tail[1..DIGEST_LENGTH + 1]))
  }

  /** `parse_marker`: the leftmost match. */
  function ParseMarker(s: string): Option<(nat, string)> {
    if s == [] then None
    else if MarkerAt(s).Some? then MarkerAt(s)
    else ParseMarker(s[1..])
  }

  function Cut(s: string): string {
    if |s| <= DESCRIPTION_LIMIT then s else s[..DESCRIPTION_LIMIT]
  }

  lemma DigitRunIs(s: string, n: nat)
    requires n <= |s| && AllDigits(s[..n]) && (n < |s| ==> !IsDigit(s[n]))
    ensures DigitRun(s) == n
  {
    hide DigitRun;
    var m := DigitRun(s);
    assert forall i :: 0 <= i < n ==> IsDigit(s[..n][i]) && s[..n][i] == s[i];
    assert forall i :: 0 <= i < m ==> IsDigit(s[..m][i]) && s[..m][i] == s[i];
  }

  lemma MarkerFound(pullRequest: nat, revision: string, rest: string)
    requires IsRevision(revision)
    ensures MarkerAt(Render(pullRequest, revision) + rest) == Some((pullRequest, revision))
  {
    hide Decimal, Value, DigitRun, IsHex;
    var number := Decimal(pullRequest);
    var s := Render(pullRequest, revision) + rest;
    var after := number + (":" + revision + "]" + rest);
    assert s == OPENING + after;
    assert s[5..] == after;
    assert after[..|number|] == number && after[|number|] == ':';
    assert !IsDigit(':');
    DigitRunIs(after, |number|);
    var tail := after[|number|..];
    assert tail == ":" + revision + "]" + rest;
    assert tail[1..DIGEST_LENGTH + 1] == revision;
    DecimalValue(pullRequest);
  }

  lemma {:induction false} NoBracketNoMarker(s: string)
    requires forall i :: 0 <= i < |s| ==> s[i] != '['
    ensures ParseMarker(s) == None
  {
    if s != [] {
      assert OPENING[0] == '[';
      assert s[0] != OPENING[0];
      NoBracketNoMarker(s[1..]);
    }
  }

  /** A proper part of a marker is no marker. */
  lemma TruncatedLost(pullRequest: nat, revision: string, n: nat)
    requires IsRevision(revision) && 0 < n < |Render(pullRequest, revision)|
    ensures ParseMarker(Render(pullRequest, revision)[..n]) == None
  {
    hide Decimal, MarkerAt;
    var marker := Render(pullRequest, revision);
    var cut := marker[..n];
    assert forall i :: 0 < i < |marker| - 1 ==> marker[i] != '[' && marker[i] != ']';
    if MarkerAt(cut).Some? {
      HasClosing(cut);
    }
    NoBracketNoMarker(cut[1..]);
  }

  lemma HasClosing(s: string)
    requires MarkerAt(s).Some?
    ensures exists i :: 0 <= i < |s| && s[i] == ']'
  {
    var rest := s[5..];
    var tail := rest[DigitRun(rest)..];
    assert tail[DIGEST_LENGTH + 1] == s[5 + DigitRun(rest) + DIGEST_LENGTH + 1];
  }

  /** A description that starts with a marker, whatever follows and wherever it
      is cut, is attributed to that pull request and revision exactly when the
      marker itself fits the limit. */
  lemma MarkerSurvivesExactly(pullRequest: nat, revision: string, text: string)
    requires IsRevision(revision)
    ensures ParseMarker(Cut(Render(pullRequest, revision) + text)) == Some((pullRequest, revision))
            <==> |Render(pullRequest, revision)| <= DESCRIPTION_LIMIT
  {
    hide Render, MarkerAt;
    var marker := Render(pullRequest, revision);
    var whole := marker + text;
    if |marker| <= DESCRIPTION_LIMIT {
      var kept := if |whole| <= DESCRIPTION_LIMIT then text else text[..DESCRIPTION_LIMIT - |marker|];
      assert Cut(whole) == marker + kept;
      MarkerFound(pullRequest, revision, kept);
      assert marker != [] by { RenderedLonger(pullRequest, revision); }
    } else {
      assert Cut(whole) == marker[..DESCRIPTION_LIMIT];
      TruncatedLost(pullRequest, revision, DESCRIPTION_LIMIT);
    }
  }

  lemma RenderedLonger(pullRequest: nat, revision: string)
    ensures |Render(pullRequest, revision)| > 0
  {
  }

  // ------------------------------------------------------------ line endings

  function ReplaceCrLf(s: string): string {
    if |s| < 2 then s
    else if s[0] == '\r' && s[1] == '\n' then "\n" + ReplaceCrLf(s[2..])
    else [s[0]] + ReplaceCrLf(s[1..])
  }

  function ReplaceCr(s: string): string {
    seq(|s|, i requires 0 <= i < |s| => if s[i] == '\r' then '\n' else s[i])
  }

  /** `_normalize_text`. */
  function NormalizeText(s: string): string {
    ReplaceCr(ReplaceCrLf(s))
  }

  /** Lines, each ended by LF or by CR LF as `crlf` says; the last has no ending. */
  function Encode(lines: seq<string>, crlf: nat -> bool): string
    requires lines != []
    decreases |lines|
  {
    if |lines| == 1 then lines[0]
    else lines[0] + (if crlf(|lines|) then "\r\n" else "\n") + Encode(lines[1..], crlf)
  }

  /** The same lines with LF endings throughout. */
  function LfText(lines: seq<string>): string
    requires lines != []
    decreases |lines|
  {
    if |lines| == 1 then lines[0] else lines[0] + "\n" + LfText(lines[1..])
  }

  predicate NoEnding(s: string) {
    forall i :: 0 <= i < |s| ==> s[i] != '\r' && s[i] != '\n'
  }

  lemma {:induction false} SkipPlain(line: string, rest: string)
    requires NoEnding(line)
    ensures ReplaceCrLf(line + rest) == line + ReplaceCrLf(rest)
  {
    if line == [] {
      assert line + rest == rest && line + ReplaceCrLf(rest) == ReplaceCrLf(rest);
    } else {
      SkipPlain(line[1..], rest);
      assert (line + rest)[1..] == line[1..] + rest;
      assert line + ReplaceCrLf(rest) == [line[0]] + (line[1..] + ReplaceCrLf(rest));
      if |line + rest| < 2 {
        assert line[1..] + rest == [];
      }
    }
  }

  lemma EndingReplaced(rest: string)
    ensures ReplaceCrLf("\r\n" + rest) == "\n" + ReplaceCrLf(rest)
    ensures ReplaceCrLf("\n" + rest) == "\n" + ReplaceCrLf(rest)
  {
    assert ("\r\n" + rest)[2..] == rest;
    assert ("\n" + rest)[1..] == rest;
    if rest == [] {
      assert "\n" + rest == "\n";
    }
  }

  lemma {:induction false} EncodedNormal(lines: seq<string>, crlf: nat -> bool)
    requires lines != [] && forall k :: 0 <= k < |lines| ==> NoEnding(lines[k])
    ensures ReplaceCrLf(Encode(lines, crlf)) == LfText(lines)
    decreases |lines|
  {
    hide ReplaceCrLf;
    var line := lines[0];
    if |lines| == 1 {
      SkipPlain(line, []);
      assert line + [] == line && line + ReplaceCrLf([]) == line by { NothingReplaced(); }
    } else {
      var rest := Encode(lines[1..], crlf);
      EncodedNormal(lines[1..], crlf);
      EndingReplaced(rest);
      var ending := if crlf(|lines|) then "\r\n" else "\n";
      SkipPlain(line, ending + rest);
      assert Encode(lines, crlf) == line + (ending + rest);
      assert LfText(lines) == line + ("\n" + LfText(lines[1..]));
    }
  }

  lemma NothingReplaced()
    ensures ReplaceCrLf([]) == []
  {
  }

  lemma {:induction false} PlainKept(lines: seq<string>)
    requires lines != [] && forall k :: 0 <= k < |lines| ==> NoEnding(lines[k])
    ensures ReplaceCr(LfText(lines)) == LfText(lines)
    decreases |lines|
  {
    NoCarriageReturn(lines);
  }

  lemma {:induction false} NoCarriageReturn(lines: seq<string>)
    requires lines != [] && forall k :: 0 <= k < |lines| ==> NoEnding(lines[k])
    ensures forall i :: 0 <= i < |LfText(lines)| ==> LfText(lines)[i] != '\r'
    decreases |lines|
  {
    if |lines| > 1 {
      NoCarriageReturn(lines[1..]);
      var text, rest := LfText(lines), LfText(lines[1..]);
      assert text == lines[0] + ("\n" + rest);
    }
  }

  /** Whichever lines end in LF and whichever in CR LF, the normal form is the LF
      text: both readers of a pull request fingerprint the same body. */
  lemma LineEndingsCollapse(lines: seq<string>, crlf: nat -> bool)
    requires lines != [] && forall k :: 0 <= k < |lines| ==> NoEnding(lines[k])
    ensures NormalizeText(Encode(lines, crlf)) == LfText(lines)
  {
    hide ReplaceCrLf, ReplaceCr, Encode, LfText;
    EncodedNormal(lines, crlf);
    PlainKept(lines);
  }

  // ------------------------------------------------------------ the status path

  const STATUS_PREFIX := "/issue-agent/status/hunter-issue-agent-authorization:"

  /** `canonical_status_path`: prefix and digest rebuilt from its numeric value. */
  function CanonicalStatusPath(path: string): Option<string> {
    if STATUS_PREFIX <= path && |path| == |STATUS_PREFIX| + 64 && AllHex(path[|STATUS_PREFIX|..]) then
      Some(STATUS_PREFIX + Hex(Value(path[|STATUS_PREFIX|..], 16), 64))
    else None
  }

  /** Whatever is forwarded is the requested path itself, and the prefix with any
      64 lower-case hexadecimal digits is forwarded. */
  lemma StatusPathIdentity(path: string)
    ensures CanonicalStatusPath(path).Some? ==> CanonicalStatusPath(path).value == path
    ensures CanonicalStatusPath(path).Some?
            <==> exists digest :: |digest| == 64 && AllHex(digest) && path == STATUS_PREFIX + digest
  {
    hide Hex, Value, AllHex;
    if CanonicalStatusPath(path).Some? {
      var digest := path[|STATUS_PREFIX|..];
      HexOfValue(digest);
      assert path == STATUS_PREFIX + digest;
    }
    forall digest | |digest| == 64 && AllHex(digest) && path == STATUS_PREFIX + digest
      ensures CanonicalStatusPath(path).Some?
    {
      assert path[|STATUS_PREFIX|..] == digest;
    }
  }
}
