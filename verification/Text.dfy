/** The string operations the governance scripts rely on. */
module Text {

  datatype Option<+T> = None | Some(value: T)

  /** The characters `str.strip` removes. */
  predicate IsSpace(c: char) {
    || c == ' ' || '\t' <= c <= '\r' || '\U{1C}' <= c <= '\U{1F}' || c == '\U{85}' || c == '\U{A0}'
    || c == '\U{1680}' || '\U{2000}' <= c <= '\U{200A}' || c == '\U{2028}' || c == '\U{2029}'
    || c == '\U{202F}' || c == '\U{205F}' || c == '\U{3000}'
  }

  predicate IsDigit(c: char) {
    '0' <= c <= '9'
  }

  predicate AllDigits(s: string) {
    forall i :: 0 <= i < |s| ==> IsDigit(s[i])
  }

  /** `[0-9a-f]`. */
  predicate IsHex(c: char) {
    IsDigit(c) || 'a' <= c <= 'f'
  }

  predicate AllHex(s: string) {
    forall i :: 0 <= i < |s| ==> IsHex(s[i])
  }

  /** `s.rstrip()`. */
  function TrimRight(s: string): (r: string)
    ensures r <= s
    ensures r != [] ==> !IsSpace(r[|r| - 1])
    ensures forall i :: |r| <= i < |s| ==> IsSpace(s[i])
  {
    if s != [] && IsSpace(s[|s| - 1]) then TrimRight(s[..|s| - 1]) else s
  }

  /** `s.rstrip(c)` for one character `c`. */
  function DropTail(s: string, c: char): (r: string)
    ensures r <= s
    ensures r != [] ==> r[|r| - 1] != c
    ensures forall i :: |r| <= i < |s| ==> s[i] == c
  {
    if s != [] && s[|s| - 1] == c then DropTail(s[..|s| - 1], c) else s
  }

  /** How many white-space characters `s` starts with. */
  function Leading(s: string): (n: nat)
    ensures n <= |s| && (n < |s| ==> !IsSpace(s[n]))
    ensures forall i :: 0 <= i < n ==> IsSpace(s[i])
  {
    if s != [] && IsSpace(s[0]) then 1 + Leading(s[1..]) else 0
  }

  /** `s.lstrip()`. */
  function TrimLeft(s: string): string {
    s[Leading(s)..]
  }

  predicate Trimmed(s: string) {
    s == [] || (!IsSpace(s[0]) && !IsSpace(s[|s| - 1]))
  }

  /** `s.strip()`. */
  function Strip(s: string): (r: string)
    ensures Trimmed(r)
    ensures Trimmed(s) ==> r == s
    ensures |r| <= |s|
  {
    TrimLeft(TrimRight(s))
  }

  function StripEach(raws: seq<string>): (r: seq<string>)
    ensures |r| == |raws| && forall k :: 0 <= k < |r| ==> r[k] == Strip(raws[k])
  {
    seq(|raws|, k requires 0 <= k < |raws| => Strip(raws[k]))
  }

  predicate EndsWith(s: string, tail: string) {
    |tail| <= |s| && s[|s| - |tail|..] == tail
  }

  /** `part in s`. */
  predicate Contains(s: string, part: string) {
    exists i :: 0 <= i <= |s| && part <= s[i..]
  }

  function Zeros(n: nat): (r: string)
    ensures |r| == n && AllDigits(r) && forall i :: 0 <= i < n ==> r[i] == '0'
  {
    seq(n, _ => '0')
  }

  /** The part of `str.lower` that concerns the ASCII letters. */
  function Lower(c: char): char {
    if 'A' <= c <= 'Z' then c - 'A' + 'a' else c
  }

  function Upper(c: char): char {
    if 'a' <= c <= 'z' then c - 'a' + 'A' else c
  }

  function LowerAll(s: string): string {
    seq(|s|, i requires 0 <= i < |s| => Lower(s[i]))
  }

  function UpperAll(s: string): string {
    seq(|s|, i requires 0 <= i < |s| => Upper(s[i]))
  }

  /** Stripping keeps a marked middle part: what starts with a character that is
      not white space survives up to any later character that is not. */
  lemma StripKeepsPrefix(s: string, p: string)
    requires p <= s && p != [] && !IsSpace(p[0]) && !IsSpace(p[|p| - 1])
    ensures p <= Strip(s)
  {
    var r := TrimRight(s);
    assert s[|p| - 1] == p[|p| - 1];
    assert p <= r;
    assert r[0] == p[0];
  }

  /** Without white space in front, stripping only cuts the end. */
  lemma StripEnds(s: string)
    requires s != [] && !IsSpace(s[0])
    ensures Strip(s) == TrimRight(s)
  {
  }

  lemma SlashNoSpace()
    ensures !IsSpace('/')
  {
  }

  lemma TrimRightIs(s: string, n: nat)
    requires n <= |s| && (n > 0 ==> !IsSpace(s[n - 1]))
    requires forall i :: n <= i < |s| ==> IsSpace(s[i])
    ensures TrimRight(s) == s[..n]
  {
    hide TrimRight, IsSpace;
    var r := TrimRight(s);
    assert r != [] ==> r[|r| - 1] == s[|r| - 1];
  }

  lemma DropTailIs(s: string, c: char, n: nat)
    requires n <= |s| && (n > 0 ==> s[n - 1] != c)
    requires forall i :: n <= i < |s| ==> s[i] == c
    ensures DropTail(s, c) == s[..n]
  {
    hide DropTail;
    var r := DropTail(s, c);
    assert r != [] ==> r[|r| - 1] == s[|r| - 1];
  }

  lemma TrimLeftIs(s: string, n: nat)
    requires n <= |s| && (n < |s| ==> !IsSpace(s[n]))
    requires forall i :: 0 <= i < n ==> IsSpace(s[i])
    ensures TrimLeft(s) == s[n..]
  {
    hide Leading, IsSpace;
    var m := Leading(s);
    if m < n {
      assert false;
    } else if n < m {
      assert false;
    }
  }
}
