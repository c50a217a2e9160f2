/** Hosted admission of a connector candidate: every claim of its receipt is
    derived again from trusted evidence. */
module ConnectorAdmission {
  import opened BranchBinding
  import opened ChangeSet
  import opened ConnectorGrant
  import opened GrantDocument
  import opened Ordering
  import opened ScopeEntries
  import opened Text
  import opened WriteReceipt

  const REVIEW_PATH := ".hunter/pre-ready-hostile-review.json"

  /** A listed commit: its SHA and the login of its committer, normalised. */
  datatype Commit = Commit(sha: string, committer: string)

  /** The receipt, and the grant, as found at the candidate head. */
  datatype HeadReceipt = NoReceipt | ReceiptUnreadable | ReceiptPresent(document: Document)
  datatype HeadGrant = NoGrant | GrantUnreadable | GrantPresent(raw: RawGrant)

  /** What the trusted controller reads: the pull request's branch names, the
      head's receipt and grant, the changed files, the commits of the range, who
      pushed which of them to this branch, and the fork point. */
  datatype Evidence = Evidence(
    headRef: string,
    baseRef: string,
    headSha: string,
    receipt: HeadReceipt,
    grant: HeadGrant,
    files: seq<Change>,
    commits: seq<Commit>,
    pushedBy: map<string, string>,
    forkPoint: Option<string>)

  datatype Admission =
    | Blocked(reason: Block)
    | Ordinary
    | Connector(writer: string, authorization: Authorization)

  datatype Block =
    | ReceiptUnavailable | ReceiptMissing | ReceiptMisplaced | IngressDisabled | ReceiptUnusable(receipt: Receipt)
    | OtherBranch | OtherBase | BranchBindsNothing | OtherIssue | WriterNotGranted | CapabilityNotGranted
    | PushNotProven | SelfEscalation | StaleGrant | ForeignCommitter | NoForkPoint | OtherForkPoint
    | IssueUnauthorized | OtherScopes | EvidencePathMoved | FilesAmbiguous | OtherPaths | OtherChanges
    | ScopeRefused(decision: ScopeDecision)

  // ---------------------------------------------------------- the range's push

  /** The writer pushed the head, and nobody else pushed another commit of the range. */
  ghost predicate RangePushed(e: Evidence, writer: string) {
    && e.headSha in e.pushedBy && e.pushedBy[e.headSha] == writer
    && forall k :: 0 <= k < |e.commits| ==>
         Sha(e.commits[k].sha)
         && (e.commits[k].sha != e.headSha && e.commits[k].sha in e.pushedBy ==> e.pushedBy[e.commits[k].sha] == writer)
  }

  /** `verify_range_push_provenance`. */
  method VerifyRangePush(e: Evidence, writer: string) returns (ok: bool)
    ensures ok <==> RangePushed(e, writer)
  {
    hide Sha;
    if e.headSha !in e.pushedBy || e.pushedBy[e.headSha] != writer {
      return false;
    }
    for i := 0 to |e.commits|
      invariant forall k :: 0 <= k < i ==>
                  Sha(e.commits[k].sha)
                  && (e.commits[k].sha != e.headSha && e.commits[k].sha in e.pushedBy
                      ==> e.pushedBy[e.commits[k].sha] == writer)
    {
      var sha := e.commits[i].sha;
      if !Sha(sha) {
        return false;
      }
      if sha == e.headSha {
        continue;
      }
      if sha in e.pushedBy && e.pushedBy[sha] != writer {
        return false;
      }
    }
    ok := true;
  }

  /** `verify_no_same_candidate_self_escalation`: the head's grant reads and is no wider. */
  ghost predicate NoEscalation(e: Evidence, p: Policy) {
    e.grant.GrantPresent? && Readable(e.grant.raw) && NoWidening(p, Build(e.grant.raw))
  }

  // --------------------------------------------------------------- the decision

  predicate IsEvidence(change: Change) {
    change.path == RECEIPT_PATH || change.path == REVIEW_PATH
  }

  function TrustedFiles(files: seq<Change>): seq<Change> {
    if files == [] then []
    else (if IsEvidence(files[0]) then [] else [files[0]]) + TrustedFiles(files[1..])
  }

  /** A governance artifact is only ever added or modified in place. */
  ghost predicate EvidenceInPlace(files: seq<Change>) {
    forall k :: 0 <= k < |files| && IsEvidence(files[k]) ==>
      files[k].status in {"added", "modified"} && files[k].previousPath == []
  }

  /** A receipt elsewhere is inherited from the base unless this candidate writes it. */
  predicate ClaimsReceipt(e: Evidence, inNamespace: bool)
    ensures ClaimsReceipt(e, inNamespace) ==> e.receipt.ReceiptPresent?
  {
    e.receipt.ReceiptPresent? && (inNamespace || exists k :: 0 <= k < |e.files| && e.files[k].path == RECEIPT_PATH)
  }

  /** `verify_connector_ingress_authorization` under a readable trusted grant
      whose branch template has the form `t`. */
  ghost function Admit(e: Evidence, p: Policy, t: Template, fingerprint: Policy -> string,
                       hash: Authorization -> string): Admission {
    var inNamespace := p.branchNamespace <= e.headRef;
    if e.receipt.ReceiptUnreadable? then Blocked(ReceiptUnavailable)
    else if !ClaimsReceipt(e, inNamespace) then
      if inNamespace then Blocked(ReceiptMissing) else Ordinary
    else if !inNamespace then Blocked(ReceiptMisplaced)
    else if !p.enabled then Blocked(IngressDisabled)
    else
      var receipt := FromDocument(e.receipt.document, hash);
      if !receipt.Usable? then Blocked(ReceiptUnusable(receipt))
      else AdmitClaims(e, p, t, fingerprint, receipt.authorization)
  }

  /** The claims against the branch, the grant, the pushes and the fork point. */
  ghost function AdmitClaims(e: Evidence, p: Policy, t: Template, fingerprint: Policy -> string,
                             auth: Authorization): (r: Admission)
    ensures !r.Ordinary? && (r.Connector? ==> r == Connector(LowerAll(Strip(auth.writer)), auth))
  {
    var writer := LowerAll(Strip(auth.writer));
    var issue := IssueForBranch(t, e.headRef);
    if auth.targetRef != e.headRef then Blocked(OtherBranch)
    else if auth.baseRef != e.baseRef || e.baseRef != p.baseRef then Blocked(OtherBase)
    else if issue.None? then Blocked(BranchBindsNothing)
    else if auth.issue != issue.value then Blocked(OtherIssue)
    else if forall k :: 0 <= k < |p.writers| ==> p.writers[k].0 != writer then Blocked(WriterNotGranted)
    else if (writer, auth.capability) !in p.writers || CapabilityScope(p, auth.capability).None? then
      Blocked(CapabilityNotGranted)
    else if !RangePushed(e, writer) then Blocked(PushNotProven)
    else if !NoEscalation(e, p) then Blocked(SelfEscalation)
    else if auth.fingerprint != fingerprint(p) then Blocked(StaleGrant)
    else if exists k :: 0 <= k < |e.commits| && e.commits[k].committer != writer then Blocked(ForeignCommitter)
    else if e.forkPoint.None? || !Sha(e.forkPoint.value) then Blocked(NoForkPoint)
    else if LowerAll(Strip(auth.baseSha)) != e.forkPoint.value then Blocked(OtherForkPoint)
    else AdmitContent(e, p, auth, issue.value, writer)
  }

  /** The scopes, files and changes. */
  ghost function AdmitContent(e: Evidence, p: Policy, auth: Authorization, issue: string, writer: string)
      : (r: Admission)
    requires CapabilityScope(p, auth.capability).Some?
    ensures !r.Ordinary? && (r.Connector? ==> r == Connector(writer, auth))
  {
    var scope := CapabilityScope(p, auth.capability).value;
    var changes := Normalize(TrustedFiles(e.files));
    if scope.requiresIssue && ScopesForIssue(p.authorizations, issue).None? then Blocked(IssueUnauthorized)
    else if Sort(auth.scopes, StringLe) != MintedScopes(p, auth.capability, issue) then Blocked(OtherScopes)
    else if !EvidenceInPlace(e.files) then Blocked(EvidencePathMoved)
    else if changes.None? then Blocked(FilesAmbiguous)
    else
      var paths := SortSet(AffectedPaths(changes.value));
      var decision := CheckScope(p, paths, Some(auth.capability), issue);
      if AffectedPaths(changes.value) != (set k | 0 <= k < |auth.paths| :: Strip(auth.paths[k])) then
        Blocked(OtherPaths)
      else if changes != Normalize(auth.changes) then Blocked(OtherChanges)
      else if !decision.Clear? then Blocked(ScopeRefused(decision))
      else Connector(writer, auth)
  }

  // ------------------------------------------------ admission against the mint

  /** The request an admitted receipt stands for. */
  function RequestOf(auth: Authorization): Request {
    Request(auth.writer, auth.capability, auth.issue, auth.targetRef, auth.baseRef, auth.baseSha, auth.paths,
            auth.changes)
  }

  /** The authorization as the mint writes it: writer and base in normal form. */
  function Minted(auth: Authorization): Authorization {
    auth.(writer := LowerAll(Strip(auth.writer)), baseSha := LowerAll(Strip(auth.baseSha)))
  }

  /** A writer table as the grant reader leaves it. */
  ghost predicate TidyWriters(p: Policy) {
    forall k :: 0 <= k < |p.writers| ==> p.writers[k].0 != [] && Trimmed(p.writers[k].1)
  }

  lemma {:induction false} WritersTidy(list: seq<(string, string)>)
    ensures forall k :: 0 <= k < |Writers(list)| ==> Writers(list)[k].0 != [] && Trimmed(Writers(list)[k].1)
  {
    hide Strip, LowerAll, Trimmed;
    if list != [] {
      WritersTidy(list[..|list| - 1]);
    }
  }

  lemma ReadGrantTidyWriters(raw: RawGrant)
    ensures TidyWriters(Build(raw))
  {
    hide Writers, Trimmed;
    WritersTidy(raw.writers);
  }

  /** Evidence in normal form: branch names as GitHub reports them, on one line. */
  ghost predicate NormalRefs(e: Evidence) {
    BranchName(e.headRef) == Some(e.headRef) && BranchName(e.baseRef) == Some(e.baseRef) && OneLine(e.headRef)
  }

  lemma ShaNormal(s: string)
    requires Sha(s)
    ensures LowerAll(Strip(s)) == s
  {
    hide Strip;
    assert Trimmed(s) by {
      assert !IsSpace(s[0]) && !IsSpace(s[|s| - 1]);
    }
    assert forall i :: 0 <= i < |s| ==> Lower(s[i]) == s[i];
  }

  lemma IssueNormal(s: string)
    requires IssueForm(s)
    ensures DropHashes(Strip(s)) == s
  {
    hide Strip;
    assert !IsSpace(s[0]) && !IsSpace(s[|s| - 1]) && s[0] != '#';
  }

  lemma WriterNormal(raw: string)
    ensures LowerAll(Strip(LowerAll(Strip(raw)))) == LowerAll(Strip(raw))
  {
    hide Strip, Trimmed, LowerAll;
    LowerTwice(Strip(raw));
  }

  lemma OneMore(names: set<string>, x: string)
    requires x !in names
    ensures multiset(names + {x}) == multiset(names) + multiset{x}
  {
  }

  lemma {:induction false} NamesOnce(s: seq<string>)
    requires forall j, k :: 0 <= j < k < |s| ==> s[j] != s[k]
    ensures multiset(s) == multiset(set x | x in s)
    decreases |s|
  {
    if s != [] {
      var last := |s| - 1;
      var fewer := s[..last];
      NamesOnce(fewer);
      assert s == fewer + [s[last]];
      assert multiset(s) == multiset(fewer) + multiset{s[last]};
      assert (set x | x in s) == (set x | x in fewer) + {s[last]};
      assert s[last] !in fewer;
      OneMore((set x | x in fewer), s[last]);
    }
  }

  lemma SortSetOf(s: seq<string>)
    requires NameList(s)
    ensures SortSet(set x | x in s) == s
  {
    hide StringLe, Trimmed, SortSet, TotalOrder, Ordered;
    StringOrder();
    NamesOnce(s);
    SortSetSorts(set x | x in s);
    OrderedUnique(SortSet(set x | x in s), s, StringLe);
  }

  lemma NamesAsIs(s: seq<string>)
    requires NameList(s)
    ensures StripEach(s) == s && Dedupe(s) == s && Sort(s, StringLe) == s
    ensures (set k | 0 <= k < |s| :: Strip(s[k])) == (set x | x in s)
  {
    hide StringLe, Sort, Dedupe, Strip, Trimmed, TotalOrder, Ordered;
    StringOrder();
    DedupeNothing(s);
    SortCanonical(s, s, StringLe);
    forall k | 0 <= k < |s| ensures Strip(s[k]) == s[k] {
    }
    assert StripEach(s) == s;
    forall x | x in s ensures x in (set k | 0 <= k < |s| :: Strip(s[k])) {
      var k :| 0 <= k < |s| && s[k] == x;
      assert Strip(s[k]) == x;
    }
  }

  /** The content part: what admission let through the mint lets through too,
      unless it touches governed ingress state. */
  lemma ContentMintable(e: Evidence, p: Policy, auth: Authorization, writer: string, baseSha: string,
                        fingerprint: Policy -> string)
    requires CapabilityScope(p, auth.capability).Some? && Canonical(auth) && auth.fingerprint == fingerprint(p)
    requires AdmitContent(e, p, auth, auth.issue, writer).Connector?
    requires forall k :: 0 <= k < |auth.paths| ==> !(".hunter/" <= auth.paths[k])
    ensures EvaluateContent(RequestOf(auth), p, writer, auth.capability, auth.issue, auth.baseRef, baseSha,
                            auth.targetRef, fingerprint)
            == Authorized(auth.(writer := writer, baseSha := baseSha))
  {
    hide Strip, StringLe, Sort, Dedupe, StripEach, CheckScope, Normalize, AffectedPaths, SortSet, MintedScopes,
      NameList, TrustedFiles, EvidenceInPlace;
    NamesAsIs(auth.paths);
    NamesAsIs(auth.scopes);
    SortSetOf(auth.paths);
    assert auth.paths != [] ==> auth.paths[0] in auth.paths;
    NotEmptyNames(auth.paths);
    assert ".hunter/" <= RECEIPT_PATH;
  }

  lemma NotEmptyNames(s: seq<string>)
    requires NameList(s)
    ensures forall k :: 0 <= k < |s| ==> s[k] != []
  {
  }

  /** Admission only lets through what the mint would write for this very branch,
      fork point and set of files; the two differ only on protected branches and
      governed ingress paths, which the mint refuses to begin with. */
  lemma AdmittedAsMinted(e: Evidence, p: Policy, t: Template, fingerprint: Policy -> string,
                         hash: Authorization -> string)
    requires p.branchTemplate == Pattern(t) && LiteralTemplate(t) && Separates(t.tail)
    requires TidyWriters(p) && NormalRefs(e)
    requires Admit(e, p, t, fingerprint, hash).Connector?
    ensures var auth := Admit(e, p, t, fingerprint, hash).authorization;
            Evaluate(RequestOf(auth), Some(p), e.forkPoint, fingerprint) == Authorized(Minted(auth))
            <==> e.headRef !in p.forbiddenTargets + {e.baseRef}
                 && forall k :: 0 <= k < |auth.paths| ==> !(".hunter/" <= auth.paths[k])
  {
    hide Strip, LowerAll, BranchName, CapabilityScope, IssueForm, Glob, ReplaceAll, EvaluateContent, AdmitContent,
      FromDocument, DropHashes, Sha, Canonical, RangePushed, NoEscalation, IssueForBranch, Pattern, Separates,
      LiteralTemplate, OneLine, ContentSound, Trimmed, ClaimsReceipt, Grants;
    var auth := Admit(e, p, t, fingerprint, hash).authorization;
    var writer, baseSha := LowerAll(Strip(auth.writer)), LowerAll(Strip(auth.baseSha));
    ReadThenWrite(e.receipt.document, hash);
    SeparatedAgree(t, e.headRef);
    DerivedIsIssue(t, e.headRef);
    assert MintAccepts(t, auth.issue, e.headRef);
    IssueNormal(auth.issue);
    ShaNormal(e.forkPoint.value);
    var k :| 0 <= k < |p.writers| && p.writers[k] == (writer, auth.capability);
    assert Strip(auth.capability) == auth.capability;
    if forall k :: 0 <= k < |auth.paths| ==> !(".hunter/" <= auth.paths[k]) {
      ContentMintable(e, p, auth, writer, baseSha, fingerprint);
    }
    if Evaluate(RequestOf(auth), Some(p), e.forkPoint, fingerprint) == Authorized(Minted(auth)) {
      MintedSound(RequestOf(auth), p, e.forkPoint, fingerprint);
      ContentAvoidsIngress(Minted(auth), p);
    }
  }

  lemma ContentAvoidsIngress(auth: Authorization, p: Policy)
    requires ContentSound(auth, p)
    ensures forall k :: 0 <= k < |auth.paths| ==> !(".hunter/" <= auth.paths[k])
  {
  }

  lemma DerivedIsIssue(t: Template, branch: string)
    requires IssueForBranch(t, branch).Some?
    ensures IssueForm(IssueForBranch(t, branch).value)
  {
    hide IssueForm;
  }

  // --------------------------------------------------- the mint is sufficient

  lemma ContentAdmitted(e: Evidence, p: Policy, auth: Authorization)
    requires CapabilityScope(p, auth.capability).Some? && Canonical(auth) && ContentSound(auth, p)
    requires auth.scopes == MintedScopes(p, auth.capability, auth.issue)
    requires EvidenceInPlace(e.files) && Normalize(TrustedFiles(e.files)) == Some(auth.changes)
    ensures AdmitContent(e, p, auth, auth.issue, auth.writer) == Connector(auth.writer, auth)
  {
    hide Strip, StringLe, Sort, Dedupe, CheckScope, Normalize, AffectedPaths, SortSet, MintedScopes, NameList,
      TrustedFiles, EvidenceInPlace, PathInScope, MatchesAny, Relative;
    NamesAsIs(auth.paths);
    NamesAsIs(auth.scopes);
    SortSetOf(auth.paths);
    ClearMeans(p, auth.paths, auth.capability, auth.issue);
  }

  /** Whatever the mint writes is admitted, once its receipt and exactly its files
      are at the head, its writer pushed and committed the range, and the head
      does not widen the grant. */
  lemma MintedIsAdmitted(request: Request, tip: Option<string>, e: Evidence, p: Policy, t: Template,
                         fingerprint: Policy -> string, hash: Authorization -> string)
    requires p.branchTemplate == Pattern(t) && LiteralTemplate(t) && Separates(t.tail) && TidyScopeNames(p)
    requires Evaluate(request, Some(p), tip, fingerprint).Authorized? && OneLine(e.headRef)
    requires var auth := Evaluate(request, Some(p), tip, fingerprint).authorization;
             && e.headRef == auth.targetRef && e.baseRef == auth.baseRef && e.forkPoint == Some(auth.baseSha)
             && e.receipt == ReceiptPresent(DocumentOf(auth, hash))
             && EvidenceInPlace(e.files) && Normalize(TrustedFiles(e.files)) == Some(auth.changes)
             && RangePushed(e, auth.writer) && NoEscalation(e, p)
             && forall k :: 0 <= k < |e.commits| ==> e.commits[k].committer == auth.writer
    ensures var auth := Evaluate(request, Some(p), tip, fingerprint).authorization;
            Admit(e, p, t, fingerprint, hash) == Connector(auth.writer, auth)
  {
    hide Strip, LowerAll, BranchName, CapabilityScope, IssueForm, Glob, ReplaceAll, EvaluateContent, AdmitContent,
      FromDocument, DocumentOf, DropHashes, Sha, Canonical, RangePushed, NoEscalation, IssueForBranch, Pattern,
      Separates, LiteralTemplate, OneLine, ContentSound, NameList, MintedScopes, Normalize, ScopeAccepts;
    var auth := Evaluate(request, Some(p), tip, fingerprint).authorization;
    MintedSound(request, p, tip, fingerprint);
    MintedCanonical(request, p, tip, fingerprint);
    RoundTripExactly(auth, hash);
    WriterNormal(request.writer);
    ShaNormal(auth.baseSha);
    SeparatedAgree(t, e.headRef);
    assert MintAccepts(t, auth.issue, e.headRef);
    ContentAdmitted(e, p, auth);
  }
}
