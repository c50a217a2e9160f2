/** Exact file transitions of a connector write, and their canonical form. */
module ChangeSet {
  import opened Ordering
  import opened Text

  datatype Change = Change(status: string, path: string, previousPath: string, blobSha: string)

  /** The field-by-field order of the transitions. */
  predicate ChangeLe(a: Change, b: Change) {
    if a.status != b.status then StringLe(a.status, b.status)
    else if a.path != b.path then StringLe(a.path, b.path)
    else if a.previousPath != b.previousPath then StringLe(a.previousPath, b.previousPath)
    else StringLe(a.blobSha, b.blobSha)
  }

  lemma ChangeOrder()
    ensures TotalOrder(ChangeLe)
  {
    hide StringLe;
    StringOrder();
  }

  function Affected(change: Change): seq<string> {
    if change.status == "renamed" then [change.previousPath, change.path] else [change.path]
  }

  predicate Sha(s: string) {
    |s| == 40 && AllHex(s)
  }

  /** The normalisation of one transition's fields. */
  function Clean(raw: Change): Change {
    Change(LowerAll(Strip(raw.status)), Strip(raw.path), Strip(raw.previousPath), LowerAll(Strip(raw.blobSha)))
  }

  /** An unambiguous transition: removal binds absence, everything else content. */
  predicate Exact(change: Change) {
    && change.path != []
    && match change.status
       case "removed" => change.previousPath == [] && change.blobSha == []
       case "renamed" => change.previousPath != [] && change.previousPath != change.path && Sha(change.blobSha)
       case "added" => change.previousPath == [] && Sha(change.blobSha)
       case "modified" => change.previousPath == [] && Sha(change.blobSha)
       case _ => false
  }

  ghost predicate Disjoint(a: seq<string>, b: seq<string>) {
    forall x :: x in a ==> x !in b
  }

  function CleanAll(raws: seq<Change>): (r: seq<Change>)
    ensures |r| == |raws| && forall k :: 0 <= k < |r| ==> r[k] == Clean(raws[k])
  {
    seq(|raws|, k requires 0 <= k < |raws| => Clean(raws[k]))
  }

  /** Exact transitions, no two of which touch a common path. */
  ghost predicate Unambiguous(changes: seq<Change>) {
    && (forall k :: 0 <= k < |changes| ==> Exact(changes[k]))
    && forall j, k :: 0 <= j < k < |changes| ==> Disjoint(Affected(changes[j]), Affected(changes[k]))
  }

  /** `normalize_changes`. */
  ghost function Normalize(raws: seq<Change>): Option<seq<Change>> {
    if Unambiguous(CleanAll(raws)) then Some(Sort(CleanAll(raws), ChangeLe)) else None
  }

  /** The loop, with its set of affected paths and its early exits. */
  method NormalizeChanges(raws: seq<Change>) returns (result: Option<seq<Change>>)
    ensures result == Normalize(raws)
  {
    hide Clean, Exact, Affected, ChangeLe;
    var normalized: seq<Change> := [];
    var affected: set<string> := {};
    ghost var all := CleanAll(raws);
    for i := 0 to |raws|
      invariant normalized == all[..i] && Unambiguous(normalized)
      invariant forall x :: x in affected <==> exists k :: 0 <= k < i && x in Affected(all[k])
    {
      var change := Clean(raws[i]);
      assert all[i] == change;
      if !Exact(change) {
        return None;
      }
      var paths := Affected(change);
      if exists k :: 0 <= k < |paths| && paths[k] in affected {
        var k :| 0 <= k < |paths| && paths[k] in affected;
        assert exists j :: 0 <= j < i && paths[k] in Affected(all[j]);
        return None;
      }
      affected := affected + set x | x in paths;
      normalized := normalized + [change];
      Extend(all, i, affected);
    }
    assert all[..|raws|] == all;
    result := Some(Sort(normalized, ChangeLe));
  }

  lemma Extend(all: seq<Change>, i: nat, affected: set<string>)
    requires i < |all| && Exact(all[i]) && Unambiguous(all[..i])
    requires forall k :: 0 <= k < i ==> Disjoint(Affected(all[k]), Affected(all[i]))
    ensures Unambiguous(all[..i + 1])
  {
    hide Exact, Affected, Disjoint;
    assert forall k :: 0 <= k < i ==> all[..i + 1][k] == all[..i][k];
  }

  /** An exact transition, on its cleaned fields: removal binds absence and everything
      else a blob, a rename comes from another path and nothing else from any. */
  predicate Transition(status: string, path: string, previous: string, sha: string) {
    && path != ""
    && (|| (status == "removed" && previous == "" && sha == "")
        || (status == "renamed" && previous != "" && previous != path && |sha| == 40 && AllHex(sha))
        || ((status == "added" || status == "modified") && previous == "" && |sha| == 40 && AllHex(sha)))
  }

  /** The transition touches the path: it ends there or, for a rename, starts there. */
  predicate Touches(c: Change, x: string) {
    x == c.path || (c.status == "renamed" && x == c.previousPath)
  }

  /** A list has a normal form exactly when each transition is exact and no two of
      them touch a path in common; it is the cleaned list, sorted. */
  lemma NormalizeExactly(raws: seq<Change>)
    ensures Normalize(raws).Some?
            <==> && (forall k :: 0 <= k < |raws| ==>
                       var c := Clean(raws[k]); Transition(c.status, c.path, c.previousPath, c.blobSha))
                 && forall j, k, x :: 0 <= j < k < |raws| && Touches(Clean(raws[j]), x) ==> !Touches(Clean(raws[k]), x)
    ensures Normalize(raws).Some? ==> multiset(Normalize(raws).value) == multiset(CleanAll(raws))
  {
    hide Clean, AllHex, Strip, LowerAll, Sort, TotalOrder, Ordered, ChangeLe;
    var all := CleanAll(raws);
    ChangeOrder();
    SortSorts(all, ChangeLe);
    forall k | 0 <= k < |raws|
      ensures Exact(all[k]) <==> Transition(all[k].status, all[k].path, all[k].previousPath, all[k].blobSha)
      ensures forall x :: x in Affected(all[k]) <==> Touches(all[k], x)
    {
      TouchesExactly(all[k]);
    }
    if forall j, k, x :: 0 <= j < k < |raws| && Touches(all[j], x) ==> !Touches(all[k], x) {
      forall j, k | 0 <= j < k < |raws| ensures Disjoint(Affected(all[j]), Affected(all[k])) {}
    }
  }

  lemma TouchesExactly(c: Change)
    ensures Exact(c) <==> Transition(c.status, c.path, c.previousPath, c.blobSha)
    ensures forall x :: x in Affected(c) <==> Touches(c, x)
  {
    hide AllHex;
  }

  // ----------------------------------------------------------- canonical form

  lemma LowerTwice(s: string)
    ensures LowerAll(LowerAll(s)) == LowerAll(s)
    ensures Trimmed(s) ==> Trimmed(LowerAll(s))
  {
  }

  lemma CleanTwice(raw: Change)
    ensures Clean(Clean(raw)) == Clean(raw)
  {
    hide Strip, Trimmed, LowerAll;
    LowerTwice(Strip(raw.status));
    LowerTwice(Strip(raw.blobSha));
  }

  lemma CleanWithout(s: seq<Change>, k: nat)
    requires k < |s|
    ensures multiset(CleanAll(s)) == multiset(CleanAll(Without(s, k))) + multiset{Clean(s[k])}
  {
    hide Clean;
    TakeOut(CleanAll(s), k);
    assert CleanAll(Without(s, k)) == Without(CleanAll(s), k);
  }

  lemma {:induction false} CleanPermuted(a: seq<Change>, b: seq<Change>)
    requires multiset(a) == multiset(b)
    ensures multiset(CleanAll(a)) == multiset(CleanAll(b))
    decreases |a|
  {
    hide Clean, CleanAll, Without;
    SameElements(a, b);
    if a == [] {
      assert b == [];
    } else {
      assert a[0] in b;
      var k :| 0 <= k < |b| && b[k] == a[0];
      TakeOutBoth(a, 0, b, k);
      WithoutFirst(a);
      CleanPermuted(Without(a, 0), Without(b, k));
      CleanWithout(a, 0);
      CleanWithout(b, k);
    }
  }

  /** Clean transitions stay unambiguous in any order. */
  lemma UnambiguousPermuted(a: seq<Change>, b: seq<Change>)
    requires multiset(a) == multiset(b) && Unambiguous(a)
    ensures Unambiguous(b)
  {
    hide Exact, Affected;
    SameElements(a, b);
    forall k | 0 <= k < |b| ensures Exact(b[k]) {
      assert b[k] in a;
    }
    forall j, k | 0 <= j < k < |b| ensures Disjoint(Affected(b[j]), Affected(b[k])) {
      if b[j] == b[k] {
        Duplicate(a, b, j, k);
      } else {
        assert b[j] in a && b[k] in a;
        var p :| 0 <= p < |a| && a[p] == b[j];
        var q :| 0 <= q < |a| && a[q] == b[k];
        assert p < q || q < p;
      }
    }
  }

  /** No transition occurs twice in an unambiguous list. */
  lemma OnlyOnce(a: seq<Change>, x: Change)
    requires Unambiguous(a)
    ensures multiset(a)[x] <= 1
  {
    hide Exact, Unambiguous;
    if x in a {
      var p :| 0 <= p < |a| && a[p] == x;
      var front, back := a[..p], a[p + 1..];
      assert a == front + [x] + back;
      assert multiset(a) == multiset(front) + multiset{x} + multiset(back);
      assert x !in front by {
        if x in front {
          var q :| 0 <= q < p && a[q] == x;
          TouchesItself(a, q, p);
        }
      }
      assert x !in back by {
        if x in back {
          var q :| 0 <= q < |back| && back[q] == x;
          TouchesItself(a, p, p + 1 + q);
        }
      }
    }
  }

  lemma TouchesItself(a: seq<Change>, p: nat, q: nat)
    requires Unambiguous(a) && p < q < |a|
    ensures a[p] != a[q]
  {
    assert Disjoint(Affected(a[p]), Affected(a[q]));
    assert a[p].path in Affected(a[p]);
  }

  lemma Duplicate(a: seq<Change>, b: seq<Change>, j: nat, k: nat)
    requires multiset(a) == multiset(b) && Unambiguous(a) && j < k < |b|
    ensures b[j] != b[k]
  {
    hide Unambiguous;
    OnlyOnce(a, b[j]);
    if b[j] == b[k] {
      CountedTwice(b, j, k);
    }
  }

  /** Normalising does not depend on the order of the input. */
  lemma NormalizeUnordered(a: seq<Change>, b: seq<Change>)
    requires multiset(a) == multiset(b)
    ensures Normalize(a) == Normalize(b)
  {
    hide Unambiguous, ChangeLe, TotalOrder;
    CleanPermuted(a, b);
    ChangeOrder();
    SortCanonical(CleanAll(a), CleanAll(b), ChangeLe);
    if Unambiguous(CleanAll(a)) {
      UnambiguousPermuted(CleanAll(a), CleanAll(b));
    } else if Unambiguous(CleanAll(b)) {
      UnambiguousPermuted(CleanAll(b), CleanAll(a));
    }
  }

  /** What normalising returns is unambiguous, in order, and its own normal form. */
  lemma NormalizeIdempotent(raws: seq<Change>)
    requires Normalize(raws).Some?
    ensures var changes := Normalize(raws).value;
            Unambiguous(changes) && Ordered(changes, ChangeLe) && Normalize(changes) == Some(changes)
  {
    hide Unambiguous, ChangeLe, TotalOrder, Ordered, Clean;
    var cleaned := CleanAll(raws);
    var changes := Sort(cleaned, ChangeLe);
    ChangeOrder();
    SortSorts(cleaned, ChangeLe);
    UnambiguousPermuted(cleaned, changes);
    SameElements(cleaned, changes);
    forall k | 0 <= k < |changes| ensures Clean(changes[k]) == changes[k] {
      assert changes[k] in cleaned;
      var j :| 0 <= j < |cleaned| && cleaned[j] == changes[k];
      CleanTwice(raws[j]);
    }
    assert CleanAll(changes) == changes;
    SortCanonical(changes, changes, ChangeLe);
  }

  /** The affected paths of a normal form: pairwise disjoint, so that each path is
      bound by exactly one transition. */
  lemma OnePathOneChange(raws: seq<Change>, j: nat, k: nat, path: string)
    requires Normalize(raws).Some? && j < |Normalize(raws).value| && k < |Normalize(raws).value|
    requires path in Affected(Normalize(raws).value[j]) && path in Affected(Normalize(raws).value[k])
    ensures j == k
  {
    hide Exact, Affected, Normalize;
    NormalizeIdempotent(raws);
    if j < k {
      Apart(Normalize(raws).value, j, k, path);
    } else if k < j {
      Apart(Normalize(raws).value, k, j, path);
    }
  }

  lemma Apart(changes: seq<Change>, j: nat, k: nat, path: string)
    requires Unambiguous(changes) && j < k < |changes| && path in Affected(changes[j])
    ensures path !in Affected(changes[k])
  {
    assert Disjoint(Affected(changes[j]), Affected(changes[k]));
  }

  lemma {:induction false} OneEach(a: seq<Change>, b: seq<Change>)
    requires Unambiguous(a) && Unambiguous(b) && forall x :: x in a <==> x in b
    ensures multiset(a) == multiset(b)
  {
    hide Unambiguous;
    forall x ensures multiset(a)[x] == multiset(b)[x] {
      OnlyOnce(a, x);
      OnlyOnce(b, x);
      assert x in multiset(a) <==> x in a;
      assert x in multiset(b) <==> x in b;
    }
  }

  /** Comparing normal forms compares the sets of transitions: admission accepts
      exactly the files whose clean transitions are the authorized ones. */
  lemma NormalFormsCompareSets(trusted: seq<Change>, authorized: seq<Change>)
    requires Normalize(trusted).Some? && Normalize(authorized).Some?
    ensures Normalize(trusted) == Normalize(authorized)
            <==> forall x :: x in CleanAll(trusted) <==> x in CleanAll(authorized)
  {
    hide Unambiguous, ChangeLe, TotalOrder;
    var a, b := CleanAll(trusted), CleanAll(authorized);
    ChangeOrder();
    SortSorts(a, ChangeLe);
    SortSorts(b, ChangeLe);
    SameElements(a, Sort(a, ChangeLe));
    SameElements(b, Sort(b, ChangeLe));
    if forall x :: x in a <==> x in b {
      OneEach(a, b);
      SortCanonical(a, b, ChangeLe);
    }
  }
}
