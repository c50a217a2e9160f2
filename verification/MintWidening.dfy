/** What the comparison of two grants says about the whole write decision, which
    also depends on the branches that the comparison never looks at. */
module MintWidening {
  import opened BranchBinding
  import opened ChangeSet
  import opened ConnectorGrant
  import opened GrantDocument
  import opened Ordering
  import opened ScopeEntries
  import opened Text
  import opened WriteReceipt

  // ------------------------------------------------------ what is not compared

  /** The same grant with other branch rules. */
  function Rebranched(p: Policy, baseRef: string, forbidden: set<string>, namespace: string, template: string): Policy {
    p.(baseRef := baseRef, forbiddenTargets := forbidden, branchNamespace := namespace, branchTemplate := template)
  }

  lemma RebranchedHolds(trusted: Policy, candidate: Policy, baseRef: string, forbidden: set<string>,
                        namespace: string, template: string, reason: Reason)
    ensures Holds(Rebranched(trusted, baseRef, forbidden, namespace, template), candidate, reason)
            <==> Holds(trusted, candidate, reason)
    ensures Holds(trusted, Rebranched(candidate, baseRef, forbidden, namespace, template), reason)
            <==> Holds(trusted, candidate, reason)
  {
    hide Uncovered, FindCapability, FindScope, ScopesForIssue;
  }

  /** The comparison sees no change of base branch, forbidden target branches,
      branch namespace or branch template, on either side. */
  lemma BranchRulesUnseen(trusted: Policy, candidate: Policy, baseRef: string, forbidden: set<string>,
                          namespace: string, template: string)
    ensures NoWidening(Rebranched(trusted, baseRef, forbidden, namespace, template), candidate)
            <==> NoWidening(trusted, candidate)
    ensures NoWidening(trusted, Rebranched(candidate, baseRef, forbidden, namespace, template))
            <==> NoWidening(trusted, candidate)
  {
    hide Holds, Rebranched;
    forall reason {
      RebranchedHolds(trusted, candidate, baseRef, forbidden, namespace, template, reason);
    }
  }

  // -------------------------------------------------------- the write decision

  /** The branch rules of the grant admit the authorization's branches. */
  predicate BranchAllowed(p: Policy, auth: Authorization) {
    && auth.baseRef == p.baseRef && auth.targetRef !in p.forbiddenTargets
    && p.branchNamespace <= auth.targetRef
    && Glob(auth.targetRef, ReplaceAll(p.branchTemplate, "{issue}", auth.issue))
  }

  /** Of the content checks only the scope decision depends on the grant. */
  lemma ContentByScope(request: Request, p: Policy, q: Policy, writer: string, capability: string, issue: string,
                       baseRef: string, baseSha: string, targetRef: string, fingerprint: Policy -> string)
    requires EvaluateContent(request, p, writer, capability, issue, baseRef, baseSha, targetRef, fingerprint)
             .Authorized?
    ensures var auth :=
              EvaluateContent(request, p, writer, capability, issue, baseRef, baseSha, targetRef, fingerprint)
              .authorization;
            EvaluateContent(request, q, writer, capability, issue, baseRef, baseSha, targetRef, fingerprint)
            == if ScopeAccepts(q, auth.paths, capability, issue)
               then Authorized(auth.(scopes := MintedScopes(q, capability, issue), fingerprint := fingerprint(q)))
               else Refused(OutOfScope(CheckScope(q, auth.paths, Some(capability), issue)))
  {
    hide CheckScope, ScopeAccepts, Normalize, AffectedPaths, Sort, Dedupe, MintedScopes, StripEach;
    ClearMeans(q, Sort(StripEach(request.paths), StringLe), capability, issue);
  }

  /** What is minted under one grant is minted under another exactly when that
      one grants the paths and admits the branches; it then differs in the scope
      names and the fingerprint of the grant alone. */
  lemma MintedUnder(request: Request, p: Policy, q: Policy, tip: Option<string>, fingerprint: Policy -> string)
    requires Evaluate(request, Some(p), tip, fingerprint).Authorized?
    ensures var auth := Evaluate(request, Some(p), tip, fingerprint).authorization;
            var there := Evaluate(request, Some(q), tip, fingerprint);
            && (there.Authorized? <==>
                Grants(q, auth.writer, auth.capability, auth.issue, auth.paths) && BranchAllowed(q, auth))
            && (there.Authorized? ==>
                there.authorization == auth.(scopes := MintedScopes(q, auth.capability, auth.issue),
                                             fingerprint := fingerprint(q)))
  {
    hide Strip, LowerAll, BranchName, CapabilityScope, IssueForm, Glob, ReplaceAll, EvaluateContent, ScopeAccepts,
      ContentSound, DropHashes, Sha, Normalize, MintedScopes;
    var writer, capability := LowerAll(Strip(request.writer)), Strip(request.capability);
    var issue, baseSha := DropHashes(Strip(request.issue)), LowerAll(Strip(request.baseSha));
    var baseRef, targetRef := BranchName(request.baseRef).value, BranchName(request.targetRef).value;
    ContentMinted(request, p, writer, capability, issue, baseRef, baseSha, targetRef, fingerprint);
    ContentByScope(request, p, q, writer, capability, issue, baseRef, baseSha, targetRef, fingerprint);
    AcceptedGranted(q, Evaluate(request, Some(p), tip, fingerprint).authorization);
    assert forall k :: 0 <= k < |q.writers| && q.writers[k] == (writer, capability) ==> q.writers[k].0 == writer;
  }

  lemma AcceptedGranted(p: Policy, auth: Authorization)
    ensures ScopeAccepts(p, auth.paths, auth.capability, auth.issue) ==> CapabilityScope(p, auth.capability).Some?
  {
    hide CapabilityScope;
  }

  /** Without widening, and with sound comparisons, what the mint writes under the
      candidate's grant it writes under the trusted one too, exactly when the
      capability carries over and the trusted branch rules, which the comparison
      leaves out, admit the branches. */
  lemma MintNotWider(request: Request, trusted: Policy, candidate: Policy, tip: Option<string>,
                     fingerprint: Policy -> string)
    requires NoWidening(trusted, candidate) && SoundOpening(trusted) && SoundClosing(candidate)
    requires Evaluate(request, Some(candidate), tip, fingerprint).Authorized?
    ensures var auth := Evaluate(request, Some(candidate), tip, fingerprint).authorization;
            && Granted(trusted, auth.capability) && Granted(candidate, auth.capability)
            && (Evaluate(request, Some(trusted), tip, fingerprint).Authorized? <==>
                Carries(trusted, candidate, auth.capability, auth.paths) && BranchAllowed(trusted, auth))
  {
    hide Evaluate, NoWidening, SoundOpening, SoundClosing, Grants, Granted, BranchAllowed, Carries;
    var auth := Evaluate(request, Some(candidate), tip, fingerprint).authorization;
    MintedSound(request, candidate, tip, fingerprint);
    NoExtraAuthority(trusted, candidate, auth.writer, auth.capability, auth.issue, auth.paths);
    MintedUnder(request, candidate, trusted, tip, fingerprint);
  }

  /** Every authorization of a grant that covers itself is such a case: with its
      branch protected in the trusted grant only, nothing is reported as wider
      and both grants grant the paths, yet the trusted grant refuses the write. */
  lemma ProtectionUnseen(request: Request, p: Policy, tip: Option<string>, fingerprint: Policy -> string)
    requires CoversItself(p) && Evaluate(request, Some(p), tip, fingerprint).Authorized?
    ensures var auth := Evaluate(request, Some(p), tip, fingerprint).authorization;
            var trusted := p.(forbiddenTargets := p.forbiddenTargets + {auth.targetRef});
            && NoWidening(trusted, p)
            && Grants(p, auth.writer, auth.capability, auth.issue, auth.paths)
            && Grants(trusted, auth.writer, auth.capability, auth.issue, auth.paths)
            && Evaluate(request, Some(trusted), tip, fingerprint) == Refused(Protected)
  {
    hide Evaluate, NoWidening, CoversItself, Grants;
    var auth := Evaluate(request, Some(p), tip, fingerprint).authorization;
    var trusted := p.(forbiddenTargets := p.forbiddenTargets + {auth.targetRef});
    NoWideningReflexive(p);
    BranchRulesUnseen(p, p, p.baseRef, p.forbiddenTargets + {auth.targetRef}, p.branchNamespace, p.branchTemplate);
    MintedSound(request, p, tip, fingerprint);
    GrantsUnbranched(p, p.forbiddenTargets + {auth.targetRef}, auth);
    ProtectedRefused(request, p, trusted, tip, fingerprint);
  }

  lemma GrantsUnbranched(p: Policy, forbidden: set<string>, auth: Authorization)
    requires Grants(p, auth.writer, auth.capability, auth.issue, auth.paths)
    ensures Grants(p.(forbiddenTargets := forbidden), auth.writer, auth.capability, auth.issue, auth.paths)
  {
    hide Strip, MatchesAny, FindScope, FindCapability, ScopesForIssue, Relative;
    var q := p.(forbiddenTargets := forbidden);
    assert CapabilityScope(q, auth.capability) == CapabilityScope(p, auth.capability);
    var scope := CapabilityScope(p, auth.capability).value;
    var names := NamesInForce(p, scope, auth.issue).value;
    assert NamesInForce(q, scope, auth.issue) == Some(names);
    forall i | 0 <= i < |auth.paths| ensures PathInScope(q, scope, names, auth.paths[i]) {
      assert PathInScope(p, scope, names, auth.paths[i]);
      assert forall name :: UnblockedBy(p, name, auth.paths[i]) ==> UnblockedBy(q, name, auth.paths[i]);
    }
  }

  lemma SameCapability(p: Policy, q: Policy, name: string)
    requires q == p.(forbiddenTargets := q.forbiddenTargets)
    ensures CapabilityScope(q, name) == CapabilityScope(p, name)
  {
  }

  lemma ProtectedRefused(request: Request, p: Policy, trusted: Policy, tip: Option<string>,
                         fingerprint: Policy -> string)
    requires Evaluate(request, Some(p), tip, fingerprint).Authorized?
    requires trusted == p.(forbiddenTargets := trusted.forbiddenTargets)
    requires Evaluate(request, Some(p), tip, fingerprint).authorization.targetRef in trusted.forbiddenTargets
    ensures Evaluate(request, Some(trusted), tip, fingerprint) == Refused(Protected)
  {
    hide Strip, LowerAll, BranchName, IssueForm, Glob, ReplaceAll, EvaluateContent, DropHashes, Sha, CapabilityScope,
      ContentSound, Normalize, MintedScopes;
    SameCapability(p, trusted, Strip(request.capability));
    ContentMinted(request, p, LowerAll(Strip(request.writer)), Strip(request.capability),
                  DropHashes(Strip(request.issue)), BranchName(request.baseRef).value,
                  LowerAll(Strip(request.baseSha)), BranchName(request.targetRef).value, fingerprint);
  }
}
