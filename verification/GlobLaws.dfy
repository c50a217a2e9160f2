/** What the pattern language means: the laws that determine `fnmatch`. */
module GlobLaws {
  import opened ScopeCoverage
  import opened ScopeEntries
  import opened Text

  /** A pattern matches what its parts match one after the other. */
  lemma {:induction false} GlobCut(path: string, first: string, rest: string)
    requires Bracketless(first)
    ensures Glob(path, first + rest)
            <==> exists i :: 0 <= i <= |path| && Glob(path[..i], first) && Glob(path[i..], rest)
    decreases |first|, |path|
  {
    if Glob(path, first + rest) {
      var i := CutPoint(path, first, rest);
      assert Glob(path[..i], first) && Glob(path[i..], rest);
    }
    if exists i :: 0 <= i <= |path| && Glob(path[..i], first) && Glob(path[i..], rest) {
      var i :| 0 <= i <= |path| && Glob(path[..i], first) && Glob(path[i..], rest);
      GlobJoin(path[..i], path[i..], first, rest);
      assert path[..i] + path[i..] == path;
    }
  }

  lemma {:induction false} GlobJoin(a: string, b: string, first: string, rest: string)
    requires Bracketless(first) && Glob(a, first) && Glob(b, rest)
    ensures Glob(a + b, first + rest)
    decreases |first|, |a|
  {
    if first == [] {
      assert a + b == b && first + rest == rest;
    } else {
      assert (first + rest)[1..] == first[1..] + rest;
      if first[0] == '*' && Glob(a, first[1..]) {
        GlobJoin(a, b, first[1..], rest);
      } else {
        assert (a + b)[1..] == a[1..] + b;
        GlobJoin(a[1..], b, if first[0] == '*' then first else first[1..], rest);
      }
    }
  }

  lemma {:induction false} CutPoint(path: string, first: string, rest: string) returns (i: nat)
    requires Bracketless(first) && Glob(path, first + rest)
    ensures i <= |path| && Glob(path[..i], first) && Glob(path[i..], rest)
    decreases |first|, |path|
  {
    if first == [] {
      i := 0;
      assert first + rest == rest && path[..0] == [] && path[0..] == path;
    } else {
      assert (first + rest)[1..] == first[1..] + rest;
      if first[0] == '*' && Glob(path, first[1..] + rest) {
        i := CutPoint(path, first[1..], rest);
      } else {
        var k := CutPoint(path[1..], if first[0] == '*' then first else first[1..], rest);
        i := k + 1;
        assert path[..i][1..] == path[1..][..k] && path[i..] == path[1..][k..];
      }
    }
  }

  /** A star matches anything, a question mark one character, any other character
      but an opening bracket itself, and nothing nothing. */
  lemma SingleParts(path: string, c: char)
    ensures Glob(path, "*")
    ensures Glob(path, "?") <==> |path| == 1
    ensures c !in {'*', '?', '['} ==> (Glob(path, [c]) <==> path == [c])
    ensures Glob(path, []) <==> path == []
  {
    GlobStars(path, "*");
    if path != [] {
      assert "?"[1..] == [] && [c][1..] == [];
      assert Glob(path[1..], []) <==> path[1..] == [];
    }
  }

  /** What a class can list as it is: no range, no negation, no closing bracket. */
  predicate Listed(s: string) {
    s != [] && s[0] != '!' && '-' !in s && ']' !in s
  }

  lemma {:induction false} ItemsListed(c: char, s: string)
    requires '-' !in s
    ensures InItems(c, s) <==> c in s
  {
    if s != [] {
      assert |s| >= 3 ==> s[1] in s;
      ItemsListed(c, s[1..]);
      assert c in s <==> c == s[0] || c in s[1..];
    }
  }

  lemma ClassCloses(body: string, rest: string)
    requires body != [] && ']' !in body && body != "!"
    ensures ClassEnd("[" + body + "]" + rest) == |body| + 1
  {
    var pattern := "[" + body + "]" + rest;
    assert forall i :: 1 <= i <= |body| ==> pattern[i] == body[i - 1];
    assert forall i :: 0 <= i < |body| ==> body[i] in body;
    assert pattern[|body| + 1] == ']';
    var j := if pattern[1] == '!' then 2 else 1;
    CloseAt(pattern, j, |body| + 1);
  }

  /** A class is one part: it matches one character, and the rest goes on behind it. */
  lemma ClassCut(path: string, body: string, rest: string)
    requires body != [] && ']' !in body && body != "!"
    ensures Glob(path, "[" + body + "]" + rest) <==> path != [] && InClass(path[0], body) && Glob(path[1..], rest)
  {
    var pattern := "[" + body + "]" + rest;
    ClassCloses(body, rest);
    assert pattern[0] == '[' && pattern[1..|body| + 1] == body && pattern[|body| + 2..] == rest;
  }

  /** Listed characters, and with an exclamation mark in front all but these. */
  lemma ClassMeans(path: string, s: string, rest: string)
    requires Listed(s)
    ensures Glob(path, "[" + s + "]" + rest) <==> path != [] && path[0] in s && Glob(path[1..], rest)
    ensures Glob(path, "[" + ("!" + s) + "]" + rest) <==> path != [] && path[0] !in s && Glob(path[1..], rest)
  {
    hide Glob, ClassEnd, InItems;
    ClassCut(path, s, rest);
    ClassCut(path, "!" + s, rest);
    assert ("!" + s)[1..] == s;
    if path != [] {
      ItemsListed(path[0], s);
    }
  }

  /** A range of characters, and all but these. */
  lemma RangeMeans(path: string, low: char, high: char, rest: string)
    requires low !in {'!', ']'} && high != ']'
    ensures var range := [low, '-', high];
            && (Glob(path, "[" + range + "]" + rest) <==> path != [] && low <= path[0] <= high && Glob(path[1..], rest))
            && (Glob(path, "[" + ("!" + range) + "]" + rest)
                <==> path != [] && !(low <= path[0] <= high) && Glob(path[1..], rest))
  {
    hide Glob, ClassEnd;
    var range := [low, '-', high];
    ClassCut(path, range, rest);
    ClassCut(path, "!" + range, rest);
    assert ("!" + range)[1..] == range;
    if path != [] {
      assert range[3..] == [];
      assert InItems(path[0], range) <==> low <= path[0] <= high;
    }
  }

  /** An opening bracket that nothing closes stands for itself. */
  lemma OpenBracket(path: string, rest: string)
    requires ']' !in rest
    ensures Glob(path, "[" + rest) <==> path != [] && path[0] == '[' && Glob(path[1..], rest)
  {
    var pattern := "[" + rest;
    assert forall i :: 1 <= i < |pattern| ==> pattern[i] == rest[i - 1] && rest[i - 1] in rest;
    assert pattern[1..] == rest;
    NeverCloses(pattern, if |pattern| > 1 && pattern[1] == '!' then 2 else 1);
  }

  lemma {:induction false} NeverCloses(s: string, from: nat)
    requires from <= |s| && forall i :: from <= i < |s| ==> s[i] != ']'
    ensures CloseFrom(s, from) == |s|
    decreases |s| - from
  {
    if from < |s| {
      NeverCloses(s, from + 1);
    }
  }
}
