/** When comparing the texts of scope entries tells which scope lies in which:
    the exact condition, for lists of entries without an opening bracket. */
module ScopeCoverage {
  import opened ScopeEntries
  import opened Text

  /** No character class can open: a `]` stands for itself. */
  predicate Bracketless(s: string) {
    forall i :: 0 <= i < |s| ==> s[i] != '['
  }

  predicate AllBracketless(list: seq<string>) {
    forall i :: 0 <= i < |list| ==> Bracketless(Strip(list[i]))
  }

  /** What a pattern starts with before its first pattern character. */
  function Stem(s: string): (r: string)
    ensures r <= s && Literal(r)
    ensures |r| < |s| ==> s[|r|] in {'*', '?', '['}
  {
    if s == [] || s[0] in {'*', '?', '['} then [] else [s[0]] + Stem(s[1..])
  }

  /** The list opens whatever starts with the stem, and what the stem itself, as
      an entry, opens; the two differ when the stem ends in white space or slashes. */
  ghost predicate OpensStem(stem: string, list: seq<string>) {
    forall path :: stem <= path || Matches(path, stem) ==> MatchesAny(path, list)
  }

  // ------------------------------------------------------------------- globs

  /** A leading star may match nothing. */
  lemma StarMore(path: string, pattern: string)
    requires pattern != [] && pattern[0] == '*' && Glob(path, pattern[1..])
    ensures Glob(path, pattern)
  {
  }

  lemma {:induction false} StarSkips(front: string, path: string, pattern: string)
    requires Glob(path, pattern)
    ensures Glob(front + path, "*" + pattern)
  {
    assert ("*" + pattern)[1..] == pattern;
    if front == [] {
      assert front + path == path;
      StarMore(path, "*" + pattern);
    } else {
      StarSkips(front[1..], path, pattern);
      assert (front + path)[1..] == front[1..] + path;
    }
  }

  lemma {:induction false} AfterPrefix(prefix: string, path: string, pattern: string)
    requires Literal(prefix)
    ensures Glob(prefix + path, prefix + pattern) <==> Glob(path, pattern)
  {
    if prefix == [] {
      assert prefix + path == path && prefix + pattern == pattern;
    } else {
      AfterPrefix(prefix[1..], path, pattern);
      assert (prefix + path)[1..] == prefix[1..] + path && (prefix + pattern)[1..] == prefix[1..] + pattern;
    }
  }

  /** The shortest text of a pattern, with an `x` for each question mark. */
  function Mini(s: string): (r: string)
    ensures Bracketless(s) ==> Literal(r)
    ensures |r| <= |s|
  {
    if s == [] then []
    else (if s[0] == '*' then [] else if s[0] == '?' then "x" else [s[0]]) + Mini(s[1..])
  }

  lemma OneMore(path: string, pattern: string)
    requires path != [] && pattern != [] && (pattern[0] == '?' || (pattern[0] == path[0] && pattern[0] !in {'*', '['}))
    requires Glob(path[1..], pattern[1..])
    ensures Glob(path, pattern)
  {
  }

  lemma {:induction false} GlobMini(s: string, path: string, pattern: string)
    requires Bracketless(s) && Glob(path, pattern)
    ensures Glob(Mini(s) + path, s + pattern)
  {
    hide Glob;
    if s == [] {
      assert Mini(s) + path == path && s + pattern == pattern;
    } else {
      GlobMini(s[1..], path, pattern);
      assert (s + pattern)[1..] == s[1..] + pattern;
      if s[0] == '*' {
        assert Mini(s) == Mini(s[1..]);
        StarMore(Mini(s) + path, s + pattern);
      } else {
        assert (Mini(s) + path)[1..] == Mini(s[1..]) + path;
        OneMore(Mini(s) + path, s + pattern);
      }
    }
  }

  /** A pattern without classes matches its own text. */
  lemma {:induction false} GlobSelf(s: string)
    requires Bracketless(s)
    ensures Glob(s, s)
  {
    if s != [] {
      GlobSelf(s[1..]);
      if s[0] == '*' {
        assert s == [s[0]] + s[1..];
        StarSkips([s[0]], s[1..], s[1..]);
        assert "*" + s[1..] == s;
      }
    }
  }

  lemma {:induction false} CloseAt(s: string, from: nat, k: nat)
    requires from <= k < |s| && s[k] == ']' && forall i :: from <= i < k ==> s[i] != ']'
    ensures CloseFrom(s, from) == k
    decreases k - from
  {
    if from < k {
      CloseAt(s, from + 1, k);
    }
  }

  /** A class that begins with `c` twice matches `c`, whatever else it holds. */
  lemma GlobClass(c: char, more: string, path: string, pattern: string)
    requires c !in {'!', ']', '-'} && ']' !in more && Glob(path, pattern)
    ensures Glob([c] + path, "[" + [c, c] + more + "]" + pattern)
  {
    var whole := "[" + [c, c] + more + "]" + pattern;
    var end := |more| + 3;
    assert whole[end] == ']' && whole[1] == c && whole[2] == c;
    forall i | 1 <= i < end ensures whole[i] != ']' {
      assert i >= 3 ==> whole[i] == more[i - 3];
    }
    CloseAt(whole, 1, end);
    assert ClassEnd(whole) == end;
    assert whole[1..end][0] == c && whole[1..end][1] == c;
    assert whole[end + 1..] == pattern && ([c] + path)[1..] == path;
  }

  // ------------------------------------------------ what sound comparison implies

  lemma Opened(narrow: string, path: string, list: seq<string>)
    requires Compares(list) && MatchesAny(narrow, list)
    requires Trimmed(narrow) && narrow != [] && Glob(path, narrow)
    ensures MatchesAny(path, list)
  {
    hide Glob, Strip;
    assert Matches(path, narrow);
  }

  /** Something, an `a`, the text, something: behind the stem. */
  function Around(stem: string, front: string, text: string, back: string): string {
    stem + (front + ("a" + (text + back)))
  }

  /** The list opens all paths that hold the text, marked, somewhere behind the stem. */
  ghost predicate OpensAround(stem: string, text: string, list: seq<string>) {
    forall front, back :: MatchesAny(Around(stem, front, text, back), list)
  }

  predicate CleanStart(stem: string) {
    Literal(stem) && (stem == [] || !IsSpace(stem[0]))
  }

  /** A class takes the text: the entry of the stem and a star is among the paths. */
  lemma SwallowAll(stem: string, text: string, list: seq<string>)
    requires Compares(list) && CleanStart(stem) && ']' !in text && OpensAround(stem, text, list)
    ensures MatchesAny(stem + "*", list)
  {
    hide Glob, Strip, MatchesAny;
    var class_ := "[" + "**" + ("a" + text) + "]";
    assert Around(stem, "[**", text, "]") == stem + class_;
    assert class_ == "[" + ['*', '*'] + ("a" + text) + "]" + [];
    EmptyGlob();
    GlobClass('*', "a" + text, [], []);
    assert ['*'] + [] == "*";
    AfterPrefix(stem, "*", class_);
    Opened(stem + class_, stem + "*", list);
  }

  lemma EmptyGlob()
    ensures Glob([], [])
  {
  }

  /** A class takes the text up to its first closing bracket. */
  lemma SwallowPart(stem: string, part: string, rest: string, list: seq<string>, front: string, back: string)
    requires Compares(list) && CleanStart(stem) && Literal(rest) && ']' !in part
    requires OpensAround(stem, part + "]" + rest, list)
    ensures MatchesAny(Around(stem, front, rest, back), list)
  {
    hide Glob, Strip, MatchesAny;
    var class_ := "[" + "aa" + part + "]" + (rest + "*");
    assert Around(stem, "*[a", part + "]" + rest, "*") == stem + ("*" + class_);
    assert rest + back == rest + back;
    GlobStem(rest + back, rest, "*");
    assert class_ == "[" + ['a', 'a'] + part + "]" + (rest + "*");
    GlobClass('a', part, rest + back, rest + "*");
    assert ['a'] + (rest + back) == "a" + (rest + back);
    StarSkips(front, "a" + (rest + back), class_);
    AfterPrefix(stem, front + ("a" + (rest + back)), "*" + class_);
    Opened(stem + ("*" + class_), Around(stem, front, rest, back), list);
  }

  lemma {:induction false} FirstClosing(text: string) returns (part: string, rest: string)
    requires ']' in text
    ensures text == part + "]" + rest && ']' !in part
  {
    if text[0] == ']' {
      part, rest := [], text[1..];
    } else {
      var p;
      p, rest := FirstClosing(text[1..]);
      part := [text[0]] + p;
    }
  }

  lemma LiteralRest(part: string, rest: string)
    requires Literal(part + "]" + rest)
    ensures Literal(rest)
  {
    forall i | 0 <= i < |rest| ensures rest[i] == (part + "]" + rest)[|part| + 1 + i] {}
  }

  /** So the closing brackets of the text can be swallowed one after the other. */
  lemma {:induction false} Descend(stem: string, text: string, list: seq<string>)
    requires Compares(list) && CleanStart(stem) && Literal(text) && OpensAround(stem, text, list)
    ensures MatchesAny(stem + "*", list)
    decreases |text|
  {
    hide Glob, Strip, MatchesAny, Compares, Around, CleanStart, Literal;
    if ']' !in text {
      SwallowAll(stem, text, list);
    } else {
      var part, rest := FirstClosing(text);
      LiteralRest(part, rest);
      forall front, back ensures MatchesAny(Around(stem, front, rest, back), list) {
        SwallowPart(stem, part, rest, list, front, back);
      }
      Descend(stem, rest, list);
    }
  }

  lemma GlobStarred(stem: string, mark: char, rest: string)
    requires Literal(stem) && mark in {'*', '?'} && Bracketless(rest)
    ensures Glob(stem + ("*" + rest), stem + ([mark] + rest))
  {
    hide Literal;
    GlobSelf(rest);
    StarSkips("*", rest, rest);
    assert ([mark] + rest)[1..] == rest && ("*" + rest)[1..] == rest;
    assert Glob("*" + rest, [mark] + rest);
    AfterPrefix(stem, "*" + rest, [mark] + rest);
  }

  lemma GlobBelow(stem: string, rest: string, front: string, back: string)
    requires Literal(stem) && Bracketless(rest)
    ensures Glob(Around(stem, front, Mini(rest) + "/", back), stem + ("*" + (rest + "/*")))
  {
    hide Glob, Literal;
    GlobStem("/" + back, "/", "*");
    assert "/" + "*" == "/*";
    GlobMini(rest, "/" + back, "/*");
    StarSkips(front + "a", Mini(rest) + ("/" + back), rest + "/*");
    assert front + "a" + (Mini(rest) + ("/" + back)) == front + ("a" + (Mini(rest) + "/" + back));
    AfterPrefix(stem, front + ("a" + (Mini(rest) + "/" + back)), "*" + (rest + "/*"));
  }

  lemma BelowDirectory(e: string)
    requires e != []
    ensures InScope(e + "/*", e)
  {
    hide Glob;
    var dir := DropTail(e, '/');
    assert dir + "/" <= e + "/" <= e + "/*";
  }

  /** Two texts the list matches: the entry with a star for its first pattern
      character, and that one as a directory. What they open holds the rest of
      the entry anywhere behind the stem. */
  lemma RestAround(stem: string, mark: char, rest: string, list: seq<string>)
    requires Compares(list) && CleanStart(stem) && mark in {'*', '?'} && Bracketless(rest)
    requires Trimmed(stem + ([mark] + rest))
    requires forall narrow :: Matches(narrow, stem + ([mark] + rest)) ==> MatchesAny(narrow, list)
    ensures OpensAround(stem, Mini(rest) + "/", list)
  {
    hide Glob, Strip, MatchesAny, Literal, Compares;
    var e, starred := stem + ([mark] + rest), stem + ("*" + rest);
    var below := stem + ("*" + (rest + "/*"));
    assert below == starred + "/*";
    assert starred[0] == if stem == [] then '*' else stem[0];
    assert starred[|starred| - 1] == if rest == [] then '*' else e[|e| - 1];
    assert below[0] == starred[0] && below[|below| - 1] == '*';
    assert !IsSpace('*') && Trimmed(starred) && Trimmed(below);
    GlobStarred(stem, mark, rest);
    assert Matches(starred, e);
    BelowDirectory(starred);
    assert Matches(below, starred);
    ComparesOn(starred, below, list);
    forall front, back ensures MatchesAny(Around(stem, front, Mini(rest) + "/", back), list) {
      GlobBelow(stem, rest, front, back);
      Opened(below, Around(stem, front, Mini(rest) + "/", back), list);
    }
  }

  lemma ComparesOn(narrow: string, path: string, list: seq<string>)
    requires Compares(list) && MatchesAny(narrow, list) && Matches(path, narrow)
    ensures MatchesAny(path, list)
  {
  }

  lemma MiniLiteral(rest: string)
    requires Bracketless(rest)
    ensures Literal(Mini(rest) + "/")
  {
    var text := Mini(rest) + "/";
    forall i | 0 <= i < |text| ensures text[i] !in {'*', '?', '['} {
      assert i < |Mini(rest)| ==> text[i] == Mini(rest)[i];
    }
  }

  lemma StarredEntry(path: string, stem: string)
    requires CleanStart(stem) && stem <= path
    ensures Matches(path, stem + "*")
  {
    hide Glob, Strip;
    assert Trimmed(stem + "*");
    GlobStem(path, stem, "*");
  }

  lemma StemSplit(e: string)
    requires Bracketless(e) && !Literal(e)
    ensures var n := |Stem(e)|;
            n < |e| && e[n] in {'*', '?'} && Bracketless(e[n + 1..]) && e == Stem(e) + ([e[n]] + e[n + 1..])
  {
    hide Literal, Stem;
    var n := |Stem(e)|;
    assert n == |e| ==> Stem(e) == e;
    var rest := e[n + 1..];
    assert forall i :: 0 <= i < |rest| ==> rest[i] == e[n + 1 + i];
  }

  /** A list that compares soundly opens the stems of its patterns. */
  lemma StemsOpened(list: seq<string>, i: nat)
    requires Compares(list) && i < |list| && Bracketless(Strip(list[i])) && !Literal(Strip(list[i]))
    ensures OpensStem(Stem(Strip(list[i])), list)
  {
    hide Glob, Literal, Bracketless, InScope, Strip, Compares, Stem;
    var e := Strip(list[i]);
    var stem := Stem(e);
    StemSplit(e);
    assert CleanStart(stem) by { assert stem != [] ==> stem[0] == e[0]; }
    forall narrow | Matches(narrow, e) ensures MatchesAny(narrow, list) {
      assert Matches(narrow, list[i]);
    }
    RestAround(stem, e[|stem|], e[|stem| + 1..], list);
    MiniLiteral(e[|stem| + 1..]);
    Descend(stem, Mini(e[|stem| + 1..]) + "/", list);
    forall path | stem <= path ensures MatchesAny(path, list) {
      StarredEntry(path, stem);
      ComparesOn(stem + "*", path, list);
    }
    forall path | Matches(path, stem) ensures MatchesAny(path, list) {
      ComparesOn(stem, path, list);
    }
  }

  // ------------------------------------------------- what is enough for it

  lemma SameCut(stem: string, s: string)
    requires stem != [] && !IsSpace(stem[0]) && stem <= s
    ensures stem <= Strip(s) || Strip(s) == Strip(stem)
  {
    hide TrimRight, IsSpace;
    var r := TrimRight(s);
    StripEnds(s);
    StripEnds(stem);
    if |r| < |stem| {
      assert r != [] ==> r[|r| - 1] == stem[|r| - 1];
      forall i | |r| <= i < |stem| ensures IsSpace(stem[i]) {
        assert stem[i] == s[i];
      }
      TrimRightIs(stem, |r|);
      assert stem[..|r|] == r;
    }
  }

  /** Everything below a text that starts with the stem starts with it too, or
      lies in the scope of the stem. */
  lemma BelowStem(stem: string, s: string, path: string)
    requires Literal(stem) && stem <= s && stem != [] && !IsSpace(stem[0]) && InScope(path, s)
    ensures stem <= path || Matches(path, stem)
  {
    hide Glob, Strip;
    var dir := DropTail(s, '/');
    if Glob(path, s) {
      LiteralPrefix(path, stem, s);
    } else if path != s && |dir| < |stem| {
      assert stem[|stem| - 1] == '/' by { assert stem[|stem| - 1] == s[|stem| - 1]; }
      SlashNoSpace();
      assert Trimmed(stem);
      SameDirectory(stem, s);
      assert InScope(path, stem);
    }
  }

  lemma SameDirectory(stem: string, s: string)
    requires stem <= s && |DropTail(s, '/')| < |stem|
    ensures DropTail(stem, '/') == DropTail(s, '/')
  {
    hide DropTail;
    var dir := DropTail(s, '/');
    assert dir == stem[..|dir|] && (dir != [] ==> dir[|dir| - 1] == stem[|dir| - 1]);
    forall i | |dir| <= i < |stem| ensures stem[i] == '/' {
      assert stem[i] == s[i];
    }
    DropTailIs(stem, '/', |dir|);
  }

  lemma StartsWithStem(narrow: string, e: string)
    requires Bracketless(e) && !Literal(e) && InScope(narrow, e)
    ensures Stem(e) <= narrow
  {
    hide Glob, Stem, Literal;
    var stem := Stem(e);
    StemSplit(e);
    if Glob(narrow, e) {
      LiteralPrefix(narrow, stem, e);
    } else if narrow != e {
      assert DropTail(e, '/') <= e && |DropTail(e, '/')| > |stem|;
    }
  }

  lemma PatternCovers(list: seq<string>, i: nat, narrow: string, path: string)
    requires i < |list| && Bracketless(Strip(list[i])) && !Literal(Strip(list[i]))
    requires OpensStem(Stem(Strip(list[i])), list) && Matches(narrow, list[i]) && Matches(path, narrow)
    ensures MatchesAny(path, list)
  {
    hide Glob, Strip, Stem, InScope, Literal, MatchesAny;
    var e := Strip(list[i]);
    var stem := Stem(e);
    StartsWithStem(narrow, e);
    if stem != [] {
      assert stem[0] == e[0];
      SameCut(stem, narrow);
      if stem <= Strip(narrow) {
        BelowStem(stem, Strip(narrow), path);
      } else {
        assert Matches(path, stem);
      }
    } else {
      assert stem <= path;
    }
  }

  /** The exact condition for a list of entries without an opening bracket:
      comparing with it is sound exactly when it opens the stem of each pattern. */
  lemma ListComparesExactly(list: seq<string>)
    requires AllBracketless(list)
    ensures Compares(list) <==>
            forall i :: 0 <= i < |list| && !Literal(Strip(list[i])) ==> OpensStem(Stem(Strip(list[i])), list)
  {
    hide Strip, Stem, Literal, Bracketless, Matches, OpensStem;
    if Compares(list) {
      forall i | 0 <= i < |list| && !Literal(Strip(list[i])) ensures OpensStem(Stem(Strip(list[i])), list) {
        StemsOpened(list, i);
      }
    } else {
      var narrow, path :| MatchesAny(narrow, list) && Matches(path, narrow) && !MatchesAny(path, list);
      var i :| 0 <= i < |list| && Matches(narrow, list[i]);
      if Literal(Strip(list[i])) {
        LiteralPlain(narrow, list[i]);
        CoverageSound(narrow, list[i]);
      } else if OpensStem(Stem(Strip(list[i])), list) {
        PatternCovers(list, i, narrow, path);
      }
    }
  }

  lemma LiteralPlain(narrow: string, e: string)
    requires Literal(Strip(e)) && Matches(narrow, e)
    ensures Plain(e)
  {
    hide Strip, Glob;
  }

  // -------------------------------------------------------- a finite condition

  function Run(z: char, n: nat): (r: string)
    ensures |r| == n && forall i :: 0 <= i < n ==> r[i] == z
  {
    seq(n, _ => z)
  }

  function Longest(list: seq<string>): (n: nat)
    ensures forall i :: 0 <= i < |list| ==> |Strip(list[i])| <= n
  {
    if list == [] then 0
    else
      var n := Longest(list[1..]);
      if |Strip(list[0])| > n then |Strip(list[0])| else n
  }

  /** A character that no entry of the list is written with. */
  predicate Fresh(z: char, list: seq<string>) {
    z != '/' && forall i :: 0 <= i < |list| ==> z !in Strip(list[i])
  }

  /** The list matches the text followed by up to so many fresh characters. */
  predicate OpensRuns(text: string, list: seq<string>, z: char) {
    forall n :: 0 <= n <= Longest(list) + 1 ==> MatchesAny(text + Run(z, n), list)
  }

  /** A pattern that matches a character it does not name matches any other in its place. */
  lemma {:induction false} GlobSwap(path: string, other: string, pattern: string, z: char)
    requires Bracketless(pattern) && z !in pattern && Glob(path, pattern)
    requires |path| == |other| && forall i :: 0 <= i < |path| && path[i] != z ==> other[i] == path[i]
    ensures Glob(other, pattern)
    decreases |pattern|, |path|
  {
    if pattern != [] && path != [] {
      if pattern[0] == '*' {
        if Glob(path, pattern[1..]) {
          GlobSwap(path, other, pattern[1..], z);
        } else {
          GlobSwap(path[1..], other[1..], pattern, z);
        }
      } else {
        GlobSwap(path[1..], other[1..], pattern[1..], z);
      }
    } else if pattern != [] {
      assert other == path;
    }
  }

  /** A run longer than the pattern is held by a star, and so is a longer one. */
  lemma {:induction false} GlobPump(front: string, z: char, n: nat, pattern: string)
    requires Bracketless(pattern) && z !in pattern && n > |pattern| && Glob(front + Run(z, n), pattern)
    ensures Glob(front + Run(z, n + 1), pattern)
    decreases |pattern|, |front|
  {
    var path, more := front + Run(z, n), front + Run(z, n + 1);
    if pattern[0] == '*' && Glob(path, pattern[1..]) {
      GlobPump(front, z, n, pattern[1..]);
    } else if front == [] {
      assert path[1..] == Run(z, n - 1) && more[1..] == path;
      if pattern[0] != '*' {
        assert [] + Run(z, n - 1) == Run(z, n - 1) && [] + Run(z, n) == path;
        GlobPump([], z, n - 1, pattern[1..]);
      }
    } else {
      assert path[1..] == front[1..] + Run(z, n) && more[1..] == front[1..] + Run(z, n + 1);
      GlobPump(front[1..], z, n, if pattern[0] == '*' then pattern else pattern[1..]);
    }
  }

  /** A directory that a run reaches starts before it. */
  lemma DirectoryBefore(text: string, z: char, n: nat, e: string)
    requires z !in e && z != '/' && DropTail(e, '/') + "/" <= text + Run(z, n)
    ensures DropTail(e, '/') + "/" <= text
  {
    hide DropTail;
    var dir, run := DropTail(e, '/') + "/", text + Run(z, n);
    assert forall i :: |text| <= i < |run| ==> run[i] == z;
    assert dir[|dir| - 1] == '/' && run[|dir| - 1] == '/';
  }

  lemma RunStarts(text: string, z: char, n: nat)
    requires n > 0
    ensures z in text + Run(z, n)
  {
    assert (text + Run(z, n))[|text|] == z;
  }

  lemma NoRun(text: string, z: char, n: nat)
    requires z !in text + Run(z, n)
    ensures n == 0 && text + Run(z, n) == text
  {
    if n > 0 {
      RunStarts(text, z, n);
    }
  }

  lemma RunStands(text: string, z: char, path: string, e: string)
    requires Bracketless(e) && z !in e && z != '/' && text <= path
    requires InScope(text + Run(z, |path| - |text|), e)
    ensures InScope(path, e)
  {
    hide Glob, DropTail;
    var run := text + Run(z, |path| - |text|);
    if Glob(run, e) {
      GlobSwap(run, path, e, z);
    } else if run == e {
      NoRun(text, z, |path| - |text|);
    } else {
      DirectoryBefore(text, z, |path| - |text|, e);
    }
  }

  lemma RunGrows(text: string, z: char, n: nat, e: string)
    requires Bracketless(e) && z !in e && z != '/' && n > |e| && InScope(text + Run(z, n), e)
    ensures InScope(text + Run(z, n + 1), e)
  {
    hide Glob, DropTail;
    if Glob(text + Run(z, n), e) {
      GlobPump(text, z, n, e);
    } else {
      DirectoryBefore(text, z, n, e);
    }
  }

  lemma {:induction false} AllRuns(text: string, list: seq<string>, z: char, n: nat)
    requires AllBracketless(list) && Fresh(z, list) && OpensRuns(text, list, z)
    ensures MatchesAny(text + Run(z, n), list)
  {
    hide InScope, Strip, Bracketless;
    if n > Longest(list) + 1 {
      AllRuns(text, list, z, n - 1);
      var i :| 0 <= i < |list| && Matches(text + Run(z, n - 1), list[i]);
      RunGrows(text, z, n - 1, Strip(list[i]));
      assert Matches(text + Run(z, n), list[i]);
    }
  }

  /** Everything behind a text is open exactly when finitely many runs of one
      fresh character are. */
  lemma RunsExactly(text: string, list: seq<string>, z: char)
    requires AllBracketless(list) && Fresh(z, list)
    ensures (forall path :: text <= path ==> MatchesAny(path, list)) <==> OpensRuns(text, list, z)
  {
    hide InScope, Strip, Bracketless, Longest;
    if OpensRuns(text, list, z) {
      forall path | text <= path ensures MatchesAny(path, list) {
        var n := |path| - |text|;
        AllRuns(text, list, z, n);
        var i :| 0 <= i < |list| && Matches(text + Run(z, n), list[i]);
        RunStands(text, z, path, Strip(list[i]));
        assert Matches(path, list[i]);
      }
    } else {
      var n :| 0 <= n <= Longest(list) + 1 && !MatchesAny(text + Run(z, n), list);
      assert text <= text + Run(z, n);
    }
  }

  /** The finitely many texts to match for one stem: itself with runs behind it,
      itself stripped, and the directory this names with runs behind it. */
  predicate StemChecks(stem: string, list: seq<string>, z: char) {
    && OpensRuns(stem, list, z)
    && (stem != [] ==> MatchesAny(Strip(stem), list) && OpensRuns(DropTail(Strip(stem), '/') + "/", list, z))
  }

  lemma StemChecksExactly(stem: string, list: seq<string>, z: char)
    requires AllBracketless(list) && Fresh(z, list) && CleanStart(stem)
    ensures OpensStem(stem, list) <==> StemChecks(stem, list, z)
  {
    hide Strip, DropTail, MatchesAny, OpensRuns, Fresh, AllBracketless, InScope;
    RunsExactly(stem, list, z);
    if stem != [] {
      var s := Strip(stem);
      StrippedLiteral(stem);
      RunsExactly(DropTail(s, '/') + "/", list, z);
      forall path ensures Matches(path, stem) <==> path == s || DropTail(s, '/') + "/" <= path {
        LiteralScope(path, s);
      }
    } else {
      BlankMatchesNothing(stem);
    }
  }

  lemma StrippedLiteral(stem: string)
    requires CleanStart(stem) && stem != []
    ensures LiteralForm(Strip(stem))
  {
    hide TrimRight;
    StripEnds(stem);
    var s := Strip(stem);
    assert forall i :: |s| <= i < |stem| ==> IsSpace(stem[i]);
    forall i | 0 <= i < |s| ensures s[i] == stem[i] {}
  }

  lemma BlankMatchesNothing(wide: string)
    requires Strip(wide) == []
    ensures forall path :: !Matches(path, wide)
  {
    hide Strip;
  }

  /** The same condition on texts, one that takes finitely many matches to check. */
  lemma ListComparesDecided(list: seq<string>, z: char)
    requires AllBracketless(list) && Fresh(z, list)
    ensures Compares(list) <==>
            forall i :: 0 <= i < |list| && !Literal(Strip(list[i])) ==> StemChecks(Stem(Strip(list[i])), list, z)
  {
    hide Strip, Compares, OpensStem, StemChecks, Fresh, AllBracketless, Stem, Literal;
    ListComparesExactly(list);
    forall i | 0 <= i < |list|
      ensures OpensStem(Stem(Strip(list[i])), list) <==> StemChecks(Stem(Strip(list[i])), list, z)
    {
      StemClean(Strip(list[i]));
      StemChecksExactly(Stem(Strip(list[i])), list, z);
    }
  }

  lemma StemClean(e: string)
    requires Trimmed(e)
    ensures CleanStart(Stem(e))
  {
    assert Stem(e) != [] ==> Stem(e)[0] == e[0];
  }

  // ------------------------------------------------------------ single entries

  lemma {:induction false} OnlyStars(tail: string)
    requires Bracketless(tail) && Glob([], tail)
    ensures forall i :: 0 <= i < |tail| ==> tail[i] == '*'
  {
    if tail != [] {
      OnlyStars(tail[1..]);
      assert forall i :: 0 < i < |tail| ==> tail[i] == tail[1..][i - 1];
    }
  }

  /** A pattern that holds its own stem goes on with stars alone. */
  lemma StemHeld(e: string)
    requires Bracketless(e) && !Literal(e) && InScope(Stem(e), e)
    ensures DropTail(e, '*') == Stem(e)
  {
    hide Glob, Literal;
    var stem := Stem(e);
    StemSplit(e);
    assert !(DropTail(e, '/') + "/" <= stem) by {
      assert |DropTail(e, '/')| > |stem|;
    }
    var tail := e[|stem|..];
    assert e == stem + tail && stem + [] == stem;
    AfterPrefix(stem, [], tail);
    OnlyStars(tail);
    NoStarEnd(stem, e);
  }

  lemma NoStarEnd(stem: string, e: string)
    requires Literal(stem) && stem <= e && forall i :: |stem| <= i < |e| ==> e[i] == '*'
    ensures DropTail(e, '*') == stem
  {
    var r := DropTail(e, '*');
    assert stem != [] ==> stem[|stem| - 1] == e[|stem| - 1];
    assert r != [] ==> r[|r| - 1] == e[|r| - 1];
  }

  lemma SlashesDropped(stem: string)
    requires CleanStart(stem) && EndsWith(stem, "//")
    ensures exists path :: Matches(path, stem) && !(stem <= path)
  {
    hide Strip, Glob;
    var dir := DropTail(stem, '/') + "/";
    assert stem[|stem| - 2..] == "//";
    assert stem[|stem| - 2] == '/' && stem[|stem| - 1] == '/';
    SlashNoSpace();
    assert Trimmed(stem) && InScope(dir, stem);
    assert Matches(dir, stem) && |dir| < |stem|;
  }

  /** The paths below the stem start with it only if it does not end badly. */
  lemma StemEnds(stem: string)
    requires CleanStart(stem) && stem != []
    requires forall path :: Matches(path, stem) ==> stem <= path
    ensures !EndsWith(stem, "//") && !IsSpace(stem[|stem| - 1])
  {
    hide Strip, IsSpace, DropTail;
    StrippedLiteral(stem);
    assert Matches(Strip(stem), stem);
    assert Strip(stem) == stem;
    if EndsWith(stem, "//") {
      SlashesDropped(stem);
    }
  }

  lemma BlankCompares(wide: string)
    requires Strip(wide) == []
    ensures Compares([wide])
  {
    hide Strip, Matches;
    BlankMatchesNothing(wide);
  }

  lemma SingleOpened(wide: string)
    requires Bracketless(Strip(wide)) && !Literal(Strip(wide)) && OpensStem(Stem(Strip(wide)), [wide])
    ensures StarredForm(Strip(wide))
  {
    hide Strip, Literal, Bracketless, InScope, Stem, DropTail;
    var e := Strip(wide);
    var stem := Stem(e);
    StemClean(e);
    forall path | MatchesAny(path, [wide]) ensures InScope(path, e) && stem <= path {
      StartsWithStem(path, e);
    }
    assert stem <= stem && MatchesAny(stem, [wide]);
    StemHeld(e);
    if stem != [] {
      StemEnds(stem);
    }
  }

  /** For one entry without an opening bracket the condition is that it is blank or
      plain: a literal path or directory, or a literal stem with its stars at the
      end, the stem not ending in white space or two slashes. */
  lemma ComparesExactly(wide: string)
    requires Bracketless(Strip(wide))
    ensures Compares([wide]) <==> Strip(wide) == [] || Plain(wide)
  {
    hide Strip, Literal, Bracketless, InScope, Stem, Compares;
    var e := Strip(wide);
    if Plain(wide) {
      PlainCompares([wide]);
    } else if e == [] {
      BlankCompares(wide);
    } else if Compares([wide]) {
      if !Literal(e) {
        StemsOpened([wide], 0);
        SingleOpened(wide);
      }
    }
  }

  /** Every entry with a question mark is of the other kind. */
  lemma QuestionUnsound(e: string)
    requires Bracketless(Strip(e)) && '?' in Strip(e)
    ensures exists narrow, path :: MatchesAny(narrow, [e]) && Matches(path, narrow) && !MatchesAny(path, [e])
  {
    hide Strip, MatchesAny, Matches;
    ComparesExactly(e);
    var s, stem := Strip(e), DropTail(Strip(e), '*');
    assert !Literal(s);
    assert forall i :: 0 <= i < |stem| ==> stem[i] == s[i];
  }

  // ------------------------------------------------- lists beyond plain entries

  lemma DocsLetter(path: string)
    requires "docs" <= path && path != "docs"
    ensures Matches(path, "docs?*")
  {
    hide Glob;
    var rest := path[4..];
    assert path == "docs" + rest && "docs?*" == "docs" + "?*";
    GlobStars(rest[1..], "*");
    OneMore(rest, "?*");
    AfterPrefix("docs", rest, "?*");
    assert Trimmed("docs?*");
  }

  lemma DocsTexts()
    ensures Strip("docs?*") == "docs?*" && Strip("docs") == "docs" && Literal("docs") && !Plain("docs?*")
    ensures Stem("docs?*") == "docs" && Matches("docs", "docs")
  {
    hide Glob, Strip;
    assert Trimmed("docs?*") && Trimmed("docs");
    assert DropTail("docs?*", '*') == "docs?" && "docs?"[4] == '?' && "docs?*"[4] == '?';
    var stem := Stem("docs?*");
    assert |stem| == 4 && "docs?*"[..4] == "docs";
  }

  /** A list may compare soundly although some entry of it does not by itself: the
      other entries open what it leaves out behind the stem. */
  lemma ListsDiffer()
    ensures Compares(["docs?*", "docs"]) && !Compares(["docs?*"]) && !AllPlain(["docs?*", "docs"])
  {
    hide Matches, Strip, Plain, Compares, Stem, Literal, MatchesAny;
    var list := ["docs?*", "docs"];
    DocsTexts();
    ListComparesExactly(list);
    forall path | "docs" <= path || Matches(path, "docs") ensures MatchesAny(path, list) {
      if "docs" <= path && path != "docs" {
        DocsLetter(path);
      }
      EitherEntry(path, "docs?*", "docs");
    }
    ComparesExactly("docs?*");
    assert list[0] == "docs?*";
  }

  lemma EitherEntry(path: string, a: string, b: string)
    ensures MatchesAny(path, [a, b]) <==> Matches(path, a) || Matches(path, b)
  {
    hide Matches;
    assert [a, b][0] == a && [a, b][1] == b;
  }

  // ------------------------------------------------------- character classes

  lemma ClassGlob(path: string)
    ensures Glob(path, "[ab]*") <==> path != [] && path[0] in {'a', 'b'}
    ensures Glob(path, "[ab]") <==> |path| == 1 && path[0] in {'a', 'b'}
  {
    ClassShape();
    if path != [] {
      GlobStars(path[1..], "*");
      assert Glob(path[1..], []) <==> path[1..] == [];
    }
  }

  lemma ClassShape()
    ensures ClassEnd("[ab]*") == 3 && ClassEnd("[ab]") == 3
    ensures "[ab]*"[1..3] == "ab" && "[ab]"[1..3] == "ab" && "[ab]*"[4..] == "*" && "[ab]"[4..] == []
    ensures forall c :: InClass(c, "ab") <==> c in {'a', 'b'}
  {
    forall c ensures InClass(c, "ab") <==> c in {'a', 'b'} {
      assert "ab"[1..] == "b" && "b"[1..] == [];
      assert !InItems(c, []);
      assert InItems(c, "b") <==> c == 'b';
      assert InItems(c, "ab") <==> c in {'a', 'b'};
      assert "ab"[0] == 'a';
    }
  }

  /** With a class the first character of a path is known although the entry is
      not plain. */
  lemma ClassScope(path: string)
    ensures Matches(path, "[ab]*") <==> path == "[ab]*" || "[ab]*/" <= path || (path != [] && path[0] in {'a', 'b'})
    ensures Matches(path, "[ab]") <==> path == "[ab]" || "[ab]/" <= path || (|path| == 1 && path[0] in {'a', 'b'})
  {
    hide Glob, Strip;
    ClassGlob(path);
    assert Trimmed("[ab]*") && Trimmed("[ab]");
    assert DropTail("[ab]*", '/') + "/" == "[ab]*/" && DropTail("[ab]", '/') + "/" == "[ab]/";
  }

  lemma LetterStart(narrow: string, path: string)
    requires narrow != [] && narrow[0] in {'a', 'b'} && Matches(path, narrow)
    ensures path != [] && path[0] == narrow[0]
  {
    hide Glob, Strip, InScope;
    StripKeepsPrefix(narrow, narrow[..1]);
    var s := Strip(narrow);
    assert narrow[..1] <= s && s[0] == narrow[0];
    assert DropTail(s, '/') != [];
    ScopeStarts(path, s, narrow[..1]);
    assert path[..1] == narrow[..1];
  }

  lemma ClassStart(narrow: string, path: string)
    requires "[ab]*/" <= narrow && Matches(path, narrow)
    ensures Matches(path, "[ab]*")
  {
    hide Glob, Strip, DropTail;
    StripKeepsPrefix(narrow, "[ab]*/");
    var s := Strip(narrow);
    ClassScope(path);
    SlashBoundary("[ab]*", s);
    if Glob(path, s) {
      ClassFirst(path, s);
    }
  }

  lemma ClassFirst(path: string, pattern: string)
    requires "[ab]" <= pattern && Glob(path, pattern)
    ensures path != [] && path[0] in {'a', 'b'}
  {
    ClassShape();
    assert pattern[..4] == "[ab]" && pattern[0] == '[' && pattern[1] == 'a' && pattern[2] == 'b' && pattern[3] == ']';
    assert CloseFrom(pattern, 3) == 3;
    assert CloseFrom(pattern, 2) == 3;
    assert ClassEnd(pattern) == 3;
    assert pattern[1..3] == "ab";
  }

  /** With classes plainness is no longer the condition: this entry compares
      soundly and is not plain, and without its star it does not compare soundly. */
  lemma ClassesDiffer()
    ensures Compares(["[ab]*"]) && !Plain("[ab]*")
    ensures !Compares(["[ab]"])
  {
    hide Matches, MatchesAny, Glob, Plain, DropTail, Trimmed, Strip;
    forall narrow, path | MatchesAny(narrow, ["[ab]*"]) && Matches(path, narrow) ensures MatchesAny(path, ["[ab]*"]) {
      OneEntry(narrow, "[ab]*");
      OneEntry(path, "[ab]*");
      ClassCovers(narrow, path);
    }
    ClassScope("a");
    ClassScope("a/x");
    OneEntry("a", "[ab]");
    OneEntry("a/x", "[ab]");
    LetterDirectory();
    ClassNotPlain();
  }

  lemma ClassCovers(narrow: string, path: string)
    requires Matches(narrow, "[ab]*") && Matches(path, narrow)
    ensures Matches(path, "[ab]*")
  {
    hide Matches;
    ClassScope(narrow);
    ClassScope(path);
    if "[ab]*/" <= narrow {
      ClassStart(narrow, path);
    } else if narrow != "[ab]*" {
      LetterStart(narrow, path);
    }
  }

  lemma ClassNotPlain()
    ensures !Plain("[ab]*")
  {
    hide Strip;
    assert Trimmed("[ab]*") && DropTail("[ab]*", '*') == "[ab]";
    assert "[ab]"[0] == '[';
  }

  lemma LetterDirectory()
    ensures Matches("a/x", "a")
  {
    assert Trimmed("a") && DropTail("a", '/') == "a";
    assert "a" + "/" <= "a/x";
  }
}
