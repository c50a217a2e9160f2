/** When scope entries have a path in common, and when an entry matches its own
    text: what the overlap test of the grant reader decides. */
module ScopeMeeting {
  import opened Text
  import opened ScopeEntries
  import opened ConnectorGrant

  /** `_overlaps`: one entry's text, read as a path, lies in the other's scope. */
  predicate Overlap(left: string, right: string) {
    Matches(left, right) || Matches(right, left)
  }

  lemma StripTwice(path: string, e: string)
    ensures Matches(path, Strip(e)) <==> Matches(path, e)
    ensures Plain(Strip(e)) <==> Plain(e)
  {
    hide InScope, Strip, LiteralForm, StarredForm;
  }

  /** A plain entry holds its own stripped text. */
  lemma OwnText(e: string)
    requires Plain(e)
    ensures Matches(Strip(e), e) && Strip(e) != []
  {
  }

  /** Two plain entries have a path in common exactly when their stripped texts
      pass the overlap test. */
  lemma CommonPath(a: string, b: string)
    requires Plain(a) && Plain(b)
    ensures (exists path :: Matches(path, a) && Matches(path, b)) <==> Overlap(Strip(a), Strip(b))
  {
    hide Matches, Plain, Strip;
    OwnText(a);
    OwnText(b);
    StripTwice(Strip(a), b);
    StripTwice(Strip(b), a);
    if exists path :: Matches(path, a) && Matches(path, b) {
      var path :| Matches(path, a) && Matches(path, b);
      StripTwice(path, a);
      StripTwice(path, b);
      TreeLaw(path, Strip(a), Strip(b));
    }
  }

  // ------------------------------------------------------- common paths of three

  /** A path a request may name. */
  predicate Proper(path: string) {
    Strip(path) != [] && Relative(path)
  }

  /** The text `e` is a proper path of all three entries. */
  predicate InAll(e: string, a: string, b: string, c: string) {
    Proper(e) && Matches(e, a) && Matches(e, b) && Matches(e, c)
  }

  /** One of the three texts is. */
  predicate Meet(a: string, b: string, c: string) {
    InAll(Strip(a), a, b, c) || InAll(Strip(b), a, b, c) || InAll(Strip(c), a, b, c)
  }

  /** The text `e` begins with `stem` and goes on with characters other than a dot. */
  predicate Prolongs(e: string, stem: string) {
    stem <= e && forall i :: |stem| <= i < |e| ==> e[i] != '.'
  }

  lemma ParentBelow(path: string, e: string, stem: string)
    requires stem <= path && Prolongs(e, stem) && ParentPart(e)
    requires |stem| < |e| && e[|stem|] == '/' ==> stem + "/" <= path
    requires stem == e ==> stem + "/" <= path
    ensures ParentPart(path)
  {
    var i :| 0 <= i < |e| && ParentPartAt(e, i);
    assert e[i..i + 2][0] == '.' && e[i..i + 2][1] == '.';
    assert path[i..i + 2] == "..";
    assert stem + "/" <= path ==> path[|stem|] == (stem + "/")[|stem|];
    assert ParentPartAt(path, i);
  }

  lemma StarredRelative(path: string, e: string)
    requires StarredForm(e) && InScope(path, e)
    ensures Relative(path) ==> Relative(e)
  {
    hide InScope;
    var stem := DropTail(e, '*');
    StarredScope(path, e);
    assert "/" <= e ==> e[0] == '/';
    assert stem != [] ==> path[0] == stem[0] == e[0];
    assert stem == [] ==> e[0] == '*';
    if ParentPart(e) {
      assert e[|stem|] == '*';
      ParentBelow(path, e, stem);
    }
  }

  lemma LiteralRelative(path: string, e: string)
    requires LiteralForm(e) && InScope(path, e)
    ensures Relative(path) ==> Relative(e)
  {
    hide InScope;
    LiteralScope(path, e);
    if path != e {
      var dir := DropTail(e, '/');
      assert path[0] == (dir + "/")[0] == e[0] by {
        assert dir == [] ==> e[0] == '/';
      }
      assert "/" <= e ==> e[0] == '/';
      if ParentPart(e) {
        ParentBelow(path, e, dir);
      }
    }
  }

  /** A plain entry with a proper path in its scope is itself such a path. */
  lemma TextProper(path: string, e: string)
    requires Plain(e) && Matches(path, e) && Relative(path)
    ensures Proper(Strip(e))
  {
    hide InScope, Relative, Strip;
    OwnText(e);
    if LiteralForm(Strip(e)) {
      LiteralRelative(path, Strip(e));
    } else {
      StarredRelative(path, Strip(e));
    }
  }

  lemma Nested(path: string, a: string, b: string)
    requires Plain(a) && Plain(b) && Matches(path, a) && Matches(path, b)
    ensures Matches(Strip(a), b) || Matches(Strip(b), a)
  {
    hide Matches, Plain, Strip;
    CommonPath(a, b);
    StripTwice(Strip(a), b);
    StripTwice(Strip(b), a);
  }

  lemma Within(narrow: string, wide: string, path: string)
    requires Plain(wide) && Matches(Strip(narrow), wide) && Matches(path, narrow)
    ensures Matches(path, wide)
  {
    hide Matches, Plain, Strip;
    CoverageSound(Strip(narrow), wide);
    StripTwice(path, narrow);
  }

  /** Three plain entries have a proper path in common exactly when the text of
      one of them is one. */
  lemma MeetExactly(a: string, b: string, c: string)
    requires Plain(a) && Plain(b) && Plain(c)
    ensures (exists path :: InAll(path, a, b, c)) <==> Meet(a, b, c)
  {
    hide Matches, Plain, Strip, Relative, InScope;
    if exists path :: InAll(path, a, b, c) {
      var path :| InAll(path, a, b, c);
      OwnText(a); OwnText(b); OwnText(c);
      TextProper(path, a); TextProper(path, b); TextProper(path, c);
      Nested(path, a, b); Nested(path, a, c); Nested(path, b, c);
      if Matches(Strip(a), b) {
        if Matches(Strip(c), a) {
          Within(a, b, Strip(c));
        }
      } else if Matches(Strip(c), b) {
        Within(b, a, Strip(c));
      }
    }
  }

  // ------------------------------------------------------------- own text

  lemma OwnMatch(e: string)
    ensures Matches(e, e) <==> InScope(e, Strip(e))
    ensures Plain(e) ==> Strip(e) != [] && e != []
  {
  }

  lemma LiteralOwnText(e: string, s: string)
    requires LiteralForm(s) && Trimmed(s) && e != [] && (!IsSpace(e[0]) ==> s == TrimRight(e))
    ensures InScope(e, s) <==> !IsSpace(e[0]) && (e == s || EndsWith(s, "/"))
  {
    hide InScope, IsSpace, TrimRight, DropTail;
    var dir := DropTail(s, '/');
    LiteralScope(e, s);
    assert (dir + "/")[0] == if dir == [] then '/' else s[0];
    SlashNoSpace();
    if !IsSpace(e[0]) && EndsWith(s, "/") {
      assert s[|s| - 1] == '/' && s[|dir|] == '/';
      assert dir + "/" <= s;
    } else if !IsSpace(e[0]) && e != s {
      assert IsSpace(e[|s|]);
      assert dir == s && (dir + "/")[|s|] == '/';
    }
  }

  lemma StarredOwnText(e: string, s: string)
    requires StarredForm(s) && Trimmed(s) && e != [] && (!IsSpace(e[0]) ==> s == TrimRight(e))
    ensures InScope(e, s) <==> DropTail(s, '*') == [] || !IsSpace(e[0])
  {
    hide InScope, IsSpace, TrimRight, DropTail;
    StarredScope(e, s);
    assert DropTail(s, '*') != [] ==> DropTail(s, '*')[0] == s[0];
  }

  /** The exact condition under which a plain entry matches itself: a literal
      one starts without white space and, unless it ends with a slash, ends
      without it; a starred one has no stem or starts without white space. */
  lemma SelfMatchExactly(e: string)
    requires Plain(e)
    ensures LiteralForm(Strip(e)) ==>
              (Matches(e, e) <==> !IsSpace(e[0]) && (e == Strip(e) || EndsWith(Strip(e), "/")))
    ensures StarredForm(Strip(e)) ==>
              (Matches(e, e) <==> DropTail(Strip(e), '*') == [] || !IsSpace(e[0]))
  {
    hide Matches, InScope, LiteralForm, StarredForm, Strip, TrimRight;
    OwnMatch(e);
    if !IsSpace(e[0]) {
      StripEnds(e);
    }
    if LiteralForm(Strip(e)) {
      LiteralOwnText(e, Strip(e));
    }
    if StarredForm(Strip(e)) {
      StarredOwnText(e, Strip(e));
    }
  }
}
