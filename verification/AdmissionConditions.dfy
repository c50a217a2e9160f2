/** What hosted admission and the mint ask for, spelled out on the evidence and on
    the request: each accepts exactly under these conditions. */
module AdmissionConditions {
  import opened BranchBinding
  import opened ChangeSet
  import opened ConnectorAdmission
  import opened ConnectorGrant
  import opened GrantDocument
  import opened Ordering
  import opened ScopeEntries
  import opened Text
  import opened WriteReceipt

  // ---------------------------------------------------------- files and changes

  /** The paths of a transition: where it ends and, for a rename, where it starts. */
  lemma AffectedExactly(changes: seq<Change>, x: string)
    ensures x in AffectedPaths(changes) <==>
            exists k :: 0 <= k < |changes|
                        && (x == changes[k].path || (changes[k].status == "renamed" && x == changes[k].previousPath))
  {
    if exists k :: 0 <= k < |changes|
                   && (x == changes[k].path || (changes[k].status == "renamed" && x == changes[k].previousPath)) {
      var k :| 0 <= k < |changes|
               && (x == changes[k].path || (changes[k].status == "renamed" && x == changes[k].previousPath));
      assert x in Affected(changes[k]);
    }
  }

  /** The files that count are those at neither of the two evidence paths, each as
      often as it is listed. */
  lemma {:induction false} TrustedExactly(files: seq<Change>, c: Change)
    ensures multiset(TrustedFiles(files))[c]
            == if c.path in {".hunter/connector-write-authorization.json",
                             ".hunter/pre-ready-hostile-review.json"} then 0 else multiset(files)[c]
  {
    if files != [] {
      TrustedExactly(files[1..], c);
      assert files == [files[0]] + files[1..];
    }
  }

  // ------------------------------------------------------ admission's conditions

  /** The writer pushed the head, and every commit of the range that anyone pushed
      to this branch. */
  predicate PushedBy(e: Evidence, writer: string) {
    && e.headSha in e.pushedBy && e.pushedBy[e.headSha] == writer
    && forall k :: 0 <= k < |e.commits| ==>
         && Sha(e.commits[k].sha)
         && (e.commits[k].sha in e.pushedBy ==> e.pushedBy[e.commits[k].sha] == writer)
  }

  predicate CommittedBy(e: Evidence, writer: string) {
    forall k :: 0 <= k < |e.commits| ==> e.commits[k].committer == writer
  }

  /** The grant at the head reads, and gives nobody more. */
  ghost predicate HeadGrantNarrow(e: Evidence, p: Policy) {
    e.grant.GrantPresent? && Readable(e.grant.raw) && NoWidening(p, Build(e.grant.raw))
  }

  /** The governance artifacts are added or modified in place; the other files are
      the authorized transitions, and their paths the authorized paths. */
  ghost predicate FilesBear(e: Evidence, auth: Authorization) {
    && (forall k :: 0 <= k < |e.files| && e.files[k].path in {RECEIPT_PATH, REVIEW_PATH} ==>
                      && (e.files[k].status == "added" || e.files[k].status == "modified")
                      && e.files[k].previousPath == "")
    && Normalize(TrustedFiles(e.files)) == Some(auth.changes)
    && forall x :: x in AffectedPaths(auth.changes) <==> x in auth.paths
  }

  /** The scope names are those of the Issue where the capability wants one. */
  ghost predicate ScopesBound(p: Policy, auth: Authorization)
    requires CapabilityScope(p, auth.capability).Some?
  {
    if CapabilityScope(p, auth.capability).value.requiresIssue then
      var names := ScopesForIssue(p.authorizations, auth.issue);
      names.Some? && forall x :: x in auth.scopes <==> x in names.value
    else auth.scopes == []
  }

  ghost predicate Admissible(e: Evidence, p: Policy, t: Template, fingerprint: string, auth: Authorization) {
    var writer := LowerAll(Strip(auth.writer));
    && p.enabled && p.branchNamespace <= e.headRef
    && auth.targetRef == e.headRef && auth.baseRef == e.baseRef && e.baseRef == p.baseRef
    && IssueForBranch(t, e.headRef) == Some(auth.issue)
    && (writer, auth.capability) in p.writers && CapabilityScope(p, auth.capability).Some?
    && PushedBy(e, writer) && CommittedBy(e, writer) && HeadGrantNarrow(e, p)
    && auth.fingerprint == fingerprint
    && e.forkPoint == Some(LowerAll(Strip(auth.baseSha))) && Sha(LowerAll(Strip(auth.baseSha)))
    && ScopesBound(p, auth) && FilesBear(e, auth)
    && ScopeAccepts(p, auth.paths, auth.capability, auth.issue)
  }

  lemma PushedExactly(e: Evidence, writer: string)
    ensures PushedBy(e, writer) <==> RangePushed(e, writer)
  {
    hide Sha;
  }

  lemma EvidenceExactly(files: seq<Change>)
    ensures EvidenceInPlace(files) <==>
            forall k :: 0 <= k < |files| && files[k].path in {RECEIPT_PATH, REVIEW_PATH} ==>
              (files[k].status == "added" || files[k].status == "modified") && files[k].previousPath == ""
  {
  }

  lemma ScopesExactly(p: Policy, auth: Authorization)
    requires CapabilityScope(p, auth.capability).Some? && NameList(auth.scopes)
    ensures var required := CapabilityScope(p, auth.capability).value.requiresIssue;
            (required ==> ScopesForIssue(p.authorizations, auth.issue).Some?) ==>
            (Sort(auth.scopes, StringLe) == MintedScopes(p, auth.capability, auth.issue) <==> ScopesBound(p, auth))
  {
    hide CapabilityScope, NameList, SortSet, Sort, StringLe;
    NamesAsIs(auth.scopes);
    NoneSorted();
    var names := ScopesForIssue(p.authorizations, auth.issue);
    if CapabilityScope(p, auth.capability).value.requiresIssue && names.Some? {
      SortSetOf(auth.scopes);
      SortSetHolds(names.value);
      if forall x :: x in auth.scopes <==> x in names.value {
        assert (set x | x in auth.scopes) == names.value;
      }
    }
  }

  lemma SortSetHolds(names: set<string>)
    ensures forall x :: x in SortSet(names) <==> x in names
  {
    hide SortSet, Ordered, StringLe;
    SortSetSorts(names);
    OnceInSet(names, SortSet(names));
  }

  lemma ContentExactly(e: Evidence, p: Policy, auth: Authorization, writer: string)
    requires CapabilityScope(p, auth.capability).Some? && Canonical(auth)
    ensures AdmitContent(e, p, auth, auth.issue, writer).Connector?
            <==> ScopesBound(p, auth) && FilesBear(e, auth)
                 && ScopeAccepts(p, auth.paths, auth.capability, auth.issue)
  {
    hide Strip, StringLe, Sort, CheckScope, Normalize, AffectedPaths, SortSet, MintedScopes, NameList, TrustedFiles,
      EvidenceInPlace, ScopeAccepts, CapabilityScope, ScopesForIssue;
    NamesAsIs(auth.paths);
    SortSetOf(auth.paths);
    EvidenceExactly(e.files);
    ScopesExactly(p, auth);
    ClearMeans(p, auth.paths, auth.capability, auth.issue);
    var files := Normalize(TrustedFiles(e.files));
    if files == Some(auth.changes) && forall x :: x in AffectedPaths(auth.changes) <==> x in auth.paths {
      assert AffectedPaths(auth.changes) == (set x | x in auth.paths);
    }
    if ScopeAccepts(p, auth.paths, auth.capability, auth.issue) {
      NamesAuthorized(p, auth);
    }
  }

  lemma NamesAuthorized(p: Policy, auth: Authorization)
    requires CapabilityScope(p, auth.capability).Some? && ScopeAccepts(p, auth.paths, auth.capability, auth.issue)
    ensures CapabilityScope(p, auth.capability).value.requiresIssue ==>
              ScopesForIssue(p.authorizations, auth.issue).Some?
  {
    hide CapabilityScope;
  }

  lemma WriterListed(p: Policy, writer: string, capability: string)
    requires (writer, capability) in p.writers
    ensures exists k :: 0 <= k < |p.writers| && p.writers[k].0 == writer
  {
    var k :| 0 <= k < |p.writers| && p.writers[k] == (writer, capability);
  }

  lemma EvidenceForms(e: Evidence, p: Policy, writer: string)
    ensures CommittedBy(e, writer) <==> !exists k :: 0 <= k < |e.commits| && e.commits[k].committer != writer
    ensures HeadGrantNarrow(e, p) <==> NoEscalation(e, p)
  {
    hide Readable, NoWidening;
  }

  lemma ClaimsExactly(e: Evidence, p: Policy, t: Template, fingerprint: Policy -> string, auth: Authorization)
    requires Canonical(auth) && p.enabled && p.branchNamespace <= e.headRef
    ensures AdmitClaims(e, p, t, fingerprint, auth).Connector? <==> Admissible(e, p, t, fingerprint(p), auth)
  {
    hide Strip, LowerAll, CapabilityScope, Canonical, Sha, RangePushed, PushedBy, IssueForBranch, AdmitContent,
      ScopesBound, FilesBear, ScopeAccepts, CommittedBy, HeadGrantNarrow, NoEscalation;
    var writer := LowerAll(Strip(auth.writer));
    PushedExactly(e, writer);
    EvidenceForms(e, p, writer);
    if (writer, auth.capability) in p.writers {
      WriterListed(p, writer, auth.capability);
    }
    if CapabilityScope(p, auth.capability).Some? {
      ContentExactly(e, p, auth, writer);
    }
  }

  /** Admission lets a candidate through as a connector write exactly when its
      receipt is usable and every one of these conditions holds of the evidence. */
  lemma AdmittedExactly(e: Evidence, p: Policy, t: Template, fingerprint: Policy -> string,
                        hash: Authorization -> string)
    ensures Admit(e, p, t, fingerprint, hash).Connector?
            <==> e.receipt.ReceiptPresent? && FromDocument(e.receipt.document, hash).Usable?
                 && Admissible(e, p, t, fingerprint(p), FromDocument(e.receipt.document, hash).authorization)
  {
    hide FromDocument, AdmitClaims, Canonical;
    if e.receipt.ReceiptPresent? && FromDocument(e.receipt.document, hash).Usable? {
      var auth := FromDocument(e.receipt.document, hash).authorization;
      ReadThenWrite(e.receipt.document, hash);
      if p.enabled && p.branchNamespace <= e.headRef {
        ClaimsExactly(e, p, t, fingerprint, auth);
      }
    }
  }

  /** And it stays out of the way of a candidate exactly when that is off the
      connector's branches and does not itself write a receipt. */
  lemma OrdinaryExactly(e: Evidence, p: Policy, t: Template, fingerprint: Policy -> string,
                        hash: Authorization -> string)
    ensures Admit(e, p, t, fingerprint, hash).Ordinary?
            <==> !e.receipt.ReceiptUnreadable? && !(p.branchNamespace <= e.headRef)
                 && (e.receipt.ReceiptPresent? ==> forall k :: 0 <= k < |e.files| ==> e.files[k].path != RECEIPT_PATH)
  {
    hide FromDocument, AdmitClaims;
  }

  // ------------------------------------------------------- the mint's conditions

  ghost predicate DistinctTexts(s: seq<string>) {
    forall j, k :: 0 <= j < k < |s| ==> s[j] != s[k]
  }

  /** What the mint asks of a request; `paths` are its paths, stripped. */
  ghost predicate Mintable(request: Request, p: Policy, tip: Option<string>) {
    var writer, capability := LowerAll(Strip(request.writer)), Strip(request.capability);
    var base, target := BranchName(request.baseRef), BranchName(request.targetRef);
    var issue, baseSha := DropHashes(Strip(request.issue)), LowerAll(Strip(request.baseSha));
    && p.enabled && writer != "" && (writer, capability) in p.writers && CapabilityScope(p, capability).Some?
    && base == Some(p.baseRef) && target.Some? && target != base && target.value !in p.forbiddenTargets
    && p.branchNamespace <= target.value
    && IssueForm(issue) && Glob(target.value, ReplaceAll(p.branchTemplate, "{issue}", issue))
    && Sha(baseSha) && tip.Some? && LowerAll(Strip(tip.value)) == baseSha
    && PathsMintable(request, p, capability, issue)
  }

  ghost predicate PathsMintable(request: Request, p: Policy, capability: string, issue: string) {
    var paths, changes := StripEach(request.paths), Normalize(request.changes);
    && (forall k :: 0 <= k < |paths| ==> paths[k] != "" && !(".hunter/" <= paths[k])) && DistinctTexts(paths)
    && ScopeAccepts(p, paths, capability, issue)
    && changes.Some? && forall x :: x in AffectedPaths(changes.value) <==> x in paths
  }

  /** A branch is named with or without its prefix, as no other kind of reference. */
  lemma BranchExactly(ref: string, name: string)
    ensures BranchName(ref) == Some(name)
            <==> && (Strip(ref) == "refs/heads/" + name || (Strip(ref) == name && !("refs/" <= name)))
                 && name != "" && name[0] != '/' && name[|name| - 1] != '/' && !Contains(name, "..")
  {
    hide Strip, Contains;
    var s := Strip(ref);
    assert "refs/heads/" <= s ==> s == "refs/heads/" + s[11..];
    assert ("refs/heads/" + name)[11..] == name && "refs/" <= "refs/heads/" + name;
    assert name != [] ==> (EndsWith(name, "/") <==> name[|name| - 1] == '/') by {
      assert name != [] ==> name[|name| - 1..] == [name[|name| - 1]];
    }
  }

  lemma DistinctExactly(s: seq<string>)
    ensures DistinctTexts(s) <==> Dedupe(s) == s
  {
    hide Dedupe;
    if Dedupe(s) == s {
      DedupeDistinct(s);
    }
    if DistinctTexts(s) {
      DedupeNothing(s);
    }
  }

  lemma SameScope(p: Policy, a: seq<string>, b: seq<string>, capability: string, issue: string)
    requires forall x :: x in a <==> x in b
    requires ScopeAccepts(p, a, capability, issue)
    ensures ScopeAccepts(p, b, capability, issue)
  {
    hide Strip, MatchesAny, CapabilityScope, PathInScope, Relative, NamesInForce;
    assert a[0] in b;
    forall i | 0 <= i < |b| ensures b[i] in a {}
  }

  lemma PathsExactly(request: Request, p: Policy, writer: string, capability: string, issue: string,
                     baseRef: string, baseSha: string, targetRef: string, fingerprint: Policy -> string)
    ensures EvaluateContent(request, p, writer, capability, issue, baseRef, baseSha, targetRef, fingerprint)
            .Authorized?
            <==> PathsMintable(request, p, capability, issue)
  {
    hide Strip, StripEach, Sort, StringLe, Dedupe, CheckScope, ScopeAccepts, Normalize, AffectedPaths, MintedScopes,
      DistinctTexts, TotalOrder, Ordered;
    var paths := StripEach(request.paths);
    var sorted := Sort(paths, StringLe);
    StringOrder();
    SortSorts(paths, StringLe);
    SameElements(paths, sorted);
    DistinctExactly(paths);
    ClearMeans(p, sorted, capability, issue);
    if ScopeAccepts(p, sorted, capability, issue) {
      SameScope(p, sorted, paths, capability, issue);
    }
    if ScopeAccepts(p, paths, capability, issue) {
      SameScope(p, paths, sorted, capability, issue);
    }
    IngressPrefix();
    forall k | 0 <= k < |paths| ensures paths[k] in sorted {}
    forall k | 0 <= k < |sorted| ensures sorted[k] in paths {}
    var changes := Normalize(request.changes);
    if changes.Some? && forall x :: x in AffectedPaths(changes.value) <==> x in paths {
      assert AffectedPaths(changes.value) == (set x | x in sorted);
    }
  }

  lemma IngressPrefix()
    ensures ".hunter/" <= RECEIPT_PATH
  {
  }

  /** The mint authorizes a request exactly under these conditions. */
  lemma MintedExactly(request: Request, p: Policy, tip: Option<string>, fingerprint: Policy -> string)
    ensures Evaluate(request, Some(p), tip, fingerprint).Authorized? <==> Mintable(request, p, tip)
  {
    hide Strip, LowerAll, BranchName, CapabilityScope, IssueForm, Glob, ReplaceAll, EvaluateContent, DropHashes, Sha,
      PathsMintable;
    var writer, capability := LowerAll(Strip(request.writer)), Strip(request.capability);
    var base, target := BranchName(request.baseRef), BranchName(request.targetRef);
    if (writer, capability) in p.writers {
      WriterListed(p, writer, capability);
    }
    if base.Some? && target.Some? {
      PathsExactly(request, p, writer, capability, DropHashes(Strip(request.issue)), base.value,
                   LowerAll(Strip(request.baseSha)), target.value, fingerprint);
    }
  }
}
