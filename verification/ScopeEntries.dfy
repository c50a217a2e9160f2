/** Owner-authored scope entries and `path_matches_scope_entry`, with the full
    `fnmatch` pattern language it falls back to. */
module ScopeEntries {
  import opened Text

  // ---------------------------------------------------------------- fnmatch

  /** Index of the first `]` at or after `from`, or the length of the pattern. */
  function CloseFrom(pattern: string, from: nat): (r: nat)
    requires from <= |pattern|
    ensures from <= r <= |pattern|
    decreases |pattern| - from
  {
    if from == |pattern| || pattern[from] == ']' then from else CloseFrom(pattern, from + 1)
  }

  /** End of the character class that opens the pattern; a leading `!` and a `]`
      in first place belong to the class. No end means the `[` is literal. */
  function ClassEnd(pattern: string): (r: nat)
    requires pattern != [] && pattern[0] == '['
    ensures r > 0
  {
    var j := if |pattern| > 1 && pattern[1] == '!' then 2 else 1;
    var k := if j < |pattern| && pattern[j] == ']' then j + 1 else j;
    CloseFrom(pattern, k)
  }

  /** Members of a class body, with `a-z` ranges. */
  predicate InItems(c: char, items: string) {
    if items == [] then false
    else if |items| >= 3 && items[1] == '-' then items[0] <= c <= items[2] || InItems(c, items[3..])
    else c == items[0] || InItems(c, items[1..])
  }

  predicate InClass(c: char, body: string) {
    if body != [] && body[0] == '!' then !InItems(c, body[1..]) else InItems(c, body)
  }

  predicate Glob(path: string, pattern: string)
    decreases |pattern|, |path|
  {
    if pattern == [] then path == []
    else if pattern[0] == '*' then Glob(path, pattern[1..]) || (path != [] && Glob(path[1..], pattern))
    else if path == [] then false
    else if pattern[0] == '?' then Glob(path[1..], pattern[1..])
    else if pattern[0] == '[' && ClassEnd(pattern) < |pattern| then
      InClass(path[0], pattern[1..ClassEnd(pattern)]) && Glob(path[1..], pattern[ClassEnd(pattern) + 1..])
    else path[0] == pattern[0] && Glob(path[1..], pattern[1..])
  }

  // ---------------------------------------------------- entries and coverage

  /** A changed path against a stripped entry: equal, a pattern match, or inside
      the directory the entry names. */
  predicate InScope(path: string, e: string) {
    e != [] && (path == e || Glob(path, e) || DropTail(e, '/') + "/" <= path)
  }

  /** `path_matches_scope_entry`. */
  predicate Matches(path: string, entry: string) {
    InScope(path, Strip(entry))
  }

  predicate MatchesAny(path: string, entries: seq<string>) {
    exists i :: 0 <= i < |entries| && Matches(path, entries[i])
  }

  /** Every path of entry `narrow` is a path of entry `wide`. */
  ghost predicate Covers(wide: string, narrow: string) {
    forall path :: Matches(path, narrow) ==> Matches(path, wide)
  }

  /** No pattern character at all. */
  predicate Literal(s: string) {
    forall i :: 0 <= i < |s| ==> s[i] != '*' && s[i] != '?' && s[i] != '['
  }

  /** A literal path or directory, `docs` or `docs/`. */
  predicate LiteralForm(e: string) {
    e != [] && Literal(e)
  }

  // A literal prefix and at least one star: `docs/*`, `docs/**`, `docs/adr-*`.
  predicate StarredForm(e: string) {
    var stem := DropTail(e, '*');
    && stem != e && Literal(stem)
    && (stem == [] || (!EndsWith(stem, "//") && !IsSpace(stem[|stem| - 1])))
  }

  predicate Plain(entry: string) {
    LiteralForm(Strip(entry)) || StarredForm(Strip(entry))
  }

  predicate AllPlain(entries: seq<string>) {
    forall i :: 0 <= i < |entries| ==> Plain(entries[i])
  }

  /** Comparing texts with the list is sound: whatever entry some listed entry
      matches as a text opens no path outside the list. */
  ghost predicate Compares(list: seq<string>) {
    forall narrow, path :: MatchesAny(narrow, list) && Matches(path, narrow) ==> MatchesAny(path, list)
  }

  lemma OneEntry(path: string, e: string)
    ensures MatchesAny(path, [e]) <==> Matches(path, e)
  {
    hide Matches;
    assert [e][0] == e;
  }

  // ------------------------------------------------------------ glob lemmas

  lemma {:induction false} LiteralPrefix(path: string, prefix: string, pattern: string)
    requires Literal(prefix) && prefix <= pattern && Glob(path, pattern)
    ensures prefix <= path
  {
    if prefix != [] {
      assert pattern[0] == prefix[0] && prefix[1..] <= pattern[1..];
      LiteralPrefix(path[1..], prefix[1..], pattern[1..]);
    }
  }

  lemma {:induction false} GlobStars(path: string, stars: string)
    requires stars != [] && forall i :: 0 <= i < |stars| ==> stars[i] == '*'
    ensures Glob(path, stars)
    decreases |stars|, |path|
  {
    if path != [] {
      GlobStars(path[1..], stars);
    } else if |stars| > 1 {
      GlobStars(path, stars[1..]);
    }
  }

  /** A literal stem followed by stars matches exactly the paths that extend it. */
  lemma {:induction false} GlobStem(path: string, stem: string, stars: string)
    requires Literal(stem) && stars != [] && forall i :: 0 <= i < |stars| ==> stars[i] == '*'
    ensures Glob(path, stem + stars) <==> stem <= path
  {
    if stem == [] {
      assert stem + stars == stars;
      GlobStars(path, stars);
    } else {
      assert (stem + stars)[1..] == stem[1..] + stars;
      if path != [] {
        GlobStem(path[1..], stem[1..], stars);
        assert stem <= path <==> stem[0] == path[0] && stem[1..] <= path[1..];
      }
    }
  }

  lemma {:induction false} GlobLiteral(path: string, pattern: string)
    requires Literal(pattern)
    ensures Glob(path, pattern) <==> path == pattern
  {
    if pattern != [] && path != [] {
      GlobLiteral(path[1..], pattern[1..]);
      assert path == pattern <==> path[0] == pattern[0] && path[1..] == pattern[1..];
    }
  }

  // --------------------------------------------- what a plain entry matches

  lemma StarredScope(path: string, e: string)
    requires StarredForm(e)
    ensures InScope(path, e) <==> DropTail(e, '*') <= path
  {
    var stem := DropTail(e, '*');
    var stars := e[|stem|..];
    assert e == stem + stars;
    GlobStem(path, stem, stars);
    assert e[|e| - 1] == '*';
    assert DropTail(e, '/') == e;
    assert stem <= e <= e + "/";
  }

  lemma LiteralScope(path: string, e: string)
    requires LiteralForm(e)
    ensures InScope(path, e) <==> path == e || DropTail(e, '/') + "/" <= path
  {
    GlobLiteral(path, e);
  }

  lemma SlashBoundary(dir: string, s: string)
    requires dir + "/" <= s && (dir == [] || dir[|dir| - 1] != '/')
    ensures dir + "/" <= DropTail(s, '/') + "/"
  {
    var d := DropTail(s, '/');
    assert s[..|dir|] == dir && s[|dir|] == '/';
    assert d <= s && dir <= s;
    if |d| == |dir| {
      assert d == dir;
    } else {
      assert dir + "/" <= d;
    }
  }

  lemma StemBoundary(stem: string, s: string)
    requires stem != [] && stem <= s && !EndsWith(stem, "//")
    ensures stem <= DropTail(s, '/') + "/"
  {
    var last := |stem| - 1;
    if stem[last] == '/' {
      assert stem == stem[..last] + "/";
      if last > 0 {
        assert stem[last - 1..] == [stem[last - 1], '/'];
      }
      SlashBoundary(stem[..last], s);
    } else {
      assert s[last] == stem[last];
    }
  }

  /** The paths of an entry that literally starts with `prefix` all do. */
  lemma ScopeStarts(path: string, e: string, prefix: string)
    requires Literal(prefix) && prefix <= e && prefix <= DropTail(e, '/') + "/"
    requires InScope(path, e)
    ensures prefix <= path
  {
    if Glob(path, e) {
      LiteralPrefix(path, prefix, e);
    }
  }

  lemma DirectoryCovers(dir: string, text: string, path: string)
    requires Literal(dir) && dir + "/" <= text && (dir == [] || dir[|dir| - 1] != '/') && InScope(path, text)
    ensures dir + "/" <= path
  {
    SlashBoundary(dir, text);
    assert Literal(dir + "/");
    ScopeStarts(path, text, dir + "/");
  }

  lemma StemCovers(stem: string, text: string, path: string)
    requires Literal(stem) && stem <= text && !EndsWith(stem, "//") && InScope(path, text)
    ensures stem <= path
  {
    if stem != [] {
      StemBoundary(stem, text);
      ScopeStarts(path, text, stem);
    }
  }

  lemma PrefixKept(narrow: string, wide: string)
    requires Trimmed(wide) && wide != []
    ensures DropTail(wide, '/') + "/" <= narrow ==> DropTail(wide, '/') + "/" <= Strip(narrow)
    ensures StarredForm(wide) && DropTail(wide, '*') <= narrow ==> DropTail(wide, '*') <= Strip(narrow)
  {
    var dir, stem := DropTail(wide, '/'), DropTail(wide, '*');
    if dir + "/" <= narrow {
      assert (dir + "/")[0] == if dir == [] then '/' else wide[0];
      StripKeepsPrefix(narrow, dir + "/");
    }
    if StarredForm(wide) && stem <= narrow && stem != [] {
      assert stem[0] == wide[0];
      StripKeepsPrefix(narrow, stem);
    }
  }

  lemma LiteralCovers(narrow: string, text: string, wide: string, path: string)
    requires LiteralForm(wide) && InScope(narrow, wide) && InScope(path, text)
    requires narrow == wide ==> text == wide
    requires DropTail(wide, '/') + "/" <= narrow ==> DropTail(wide, '/') + "/" <= text
    ensures InScope(path, wide)
  {
    LiteralScope(narrow, wide);
    LiteralScope(path, wide);
    if narrow != wide {
      DirectoryCovers(DropTail(wide, '/'), text, path);
    }
  }

  lemma StarredCovers(narrow: string, text: string, wide: string, path: string)
    requires StarredForm(wide) && InScope(narrow, wide) && InScope(path, text)
    requires DropTail(wide, '*') <= narrow ==> DropTail(wide, '*') <= text
    ensures InScope(path, wide)
  {
    StarredScope(narrow, wide);
    StarredScope(path, wide);
    StemCovers(DropTail(wide, '*'), text, path);
  }

  /** Coverage is sound for plain entries: when the text of `narrow`, read as a
      path, matches the plain entry `wide`, the whole scope of `narrow` lies in
      the scope of `wide`, whatever patterns `narrow` uses. */
  lemma CoverageSound(narrow: string, wide: string)
    requires Plain(wide) && Matches(narrow, wide)
    ensures Covers(wide, narrow)
  {
    PrefixKept(narrow, Strip(wide));
    forall path | Matches(path, narrow) ensures Matches(path, wide) {
      if LiteralForm(Strip(wide)) {
        LiteralCovers(narrow, Strip(narrow), Strip(wide), path);
      } else {
        StarredCovers(narrow, Strip(narrow), Strip(wide), path);
      }
    }
  }

  /** Lists of plain entries are such lists. */
  lemma PlainCompares(list: seq<string>)
    requires AllPlain(list)
    ensures Compares(list)
  {
    hide Matches, Plain;
    forall narrow, path | MatchesAny(narrow, list) && Matches(path, narrow) ensures MatchesAny(path, list) {
      var k :| 0 <= k < |list| && Matches(narrow, list[k]);
      CoverageSound(narrow, list[k]);
    }
  }

  /** The tree law: two plain entries with a common path are comparable, and
      comparing their texts as paths, in both directions, reveals it. */
  lemma TreeLaw(path: string, a: string, b: string)
    requires Plain(a) && Plain(b) && Trimmed(a) && Trimmed(b)
    requires Matches(path, a) && Matches(path, b)
    ensures Matches(a, b) || Matches(b, a)
  {
    hide Strip, InScope, DropTail, LiteralForm, StarredForm;
    if StarredForm(a) && StarredForm(b) {
      StarredScope(path, a); StarredScope(path, b);
      StarredScope(a, b); StarredScope(b, a);
      PrefixesCompare(DropTail(a, '*'), DropTail(b, '*'), path);
    } else if StarredForm(a) {
      MixedTreeLaw(path, a, b);
    } else if StarredForm(b) {
      MixedTreeLaw(path, b, a);
    } else {
      LiteralTreeLaw(path, a, b);
    }
  }

  lemma PrefixesCompare(p: string, q: string, s: string)
    requires p <= s && q <= s
    ensures p <= q || q <= p
  {
    if |p| <= |q| { assert p == q[..|p|]; } else { assert q == p[..|q|]; }
  }

  lemma LiteralTreeLaw(path: string, a: string, b: string)
    requires LiteralForm(a) && LiteralForm(b)
    requires InScope(path, a) && InScope(path, b)
    ensures InScope(a, b) || InScope(b, a)
  {
    LiteralScope(path, a); LiteralScope(path, b);
    LiteralScope(a, b); LiteralScope(b, a);
    if path != a && path != b {
      PrefixesCompare(DropTail(a, '/') + "/", DropTail(b, '/') + "/", path);
      if DropTail(a, '/') + "/" <= DropTail(b, '/') + "/" {
        NestedDirectories(a, b);
      } else {
        NestedDirectories(b, a);
      }
    }
  }

  lemma NestedDirectories(a: string, b: string)
    requires DropTail(a, '/') + "/" <= DropTail(b, '/') + "/"
    ensures a == b || DropTail(a, '/') + "/" <= b || DropTail(b, '/') + "/" <= a
  {
    var da, db := DropTail(a, '/'), DropTail(b, '/');
    if |da| == |db| {
      assert da == (da + "/")[..|da|] == (db + "/")[..|db|] == db;
      if a != da {
        assert a[|da|] == '/';
        assert db + "/" <= a;
      } else if b != db {
        assert b[|db|] == '/';
        assert da + "/" <= b;
      }
    } else {
      assert da + "/" <= db <= b;
    }
  }

  lemma MixedTreeLaw(path: string, starred: string, plain: string)
    requires StarredForm(starred) && LiteralForm(plain)
    requires InScope(path, starred) && InScope(path, plain)
    ensures InScope(starred, plain) || InScope(plain, starred)
  {
    var stem, dir := DropTail(starred, '*'), DropTail(plain, '/');
    StarredScope(path, starred); StarredScope(plain, starred);
    LiteralScope(path, plain); LiteralScope(starred, plain);
    if path != plain {
      PrefixesCompare(stem, dir + "/", path);
      if dir + "/" <= stem {
        assert stem <= starred;
      } else {
        assert stem <= dir + "/" && |stem| <= |dir|;
        assert stem <= dir <= plain;
      }
    }
  }
}
