/** A write that is minted and admitted, and what protecting its branch does to
    the mint, to admission and to the comparison of grants. */
module AdmissionExamples {
  import opened BranchBinding
  import opened ChangeSet
  import opened ConnectorAdmission
  import opened ConnectorGrant
  import opened GrantDocument
  import opened GrantExamples
  import opened MintWidening
  import opened Ordering
  import opened ScopeEntries
  import opened Text
  import opened WriteReceipt

  // -------------------------------------------- admission and protected branches

  /** The grant with one more protected branch. */
  function Protecting(p: Policy, branch: string): Policy {
    p.(forbiddenTargets := p.forbiddenTargets + {branch})
  }

  lemma ScopeUnbranched(p: Policy, branch: string, paths: seq<string>, capability: string, issue: string)
    ensures CapabilityScope(Protecting(p, branch), capability) == CapabilityScope(p, capability)
    ensures ScopeAccepts(Protecting(p, branch), paths, capability, issue) <==> ScopeAccepts(p, paths, capability, issue)
    ensures MintedScopes(Protecting(p, branch), capability, issue) == MintedScopes(p, capability, issue)
  {
    hide Strip, MatchesAny, FindScope, FindCapability, ScopesForIssue, Relative, SortSet;
    var q := Protecting(p, branch);
    forall name, path ensures UnblockedBy(q, name, path) <==> UnblockedBy(p, name, path) {
    }
    forall scope, names, path ensures PathInScope(q, scope, names, path) <==> PathInScope(p, scope, names, path) {
    }
  }

  lemma EscalationUnbranched(e: Evidence, p: Policy, branch: string)
    ensures NoEscalation(e, Protecting(p, branch)) <==> NoEscalation(e, p)
  {
    hide Readable, NoWidening, Build;
    if e.grant.GrantPresent? {
      BranchRulesUnseen(p, Build(e.grant.raw), p.baseRef, p.forbiddenTargets + {branch}, p.branchNamespace,
                        p.branchTemplate);
    }
  }

  lemma ContentUnbranched(e: Evidence, p: Policy, branch: string, auth: Authorization, issue: string, writer: string)
    requires CapabilityScope(p, auth.capability).Some?
    requires CapabilityScope(Protecting(p, branch), auth.capability).Some?
    ensures AdmitContent(e, Protecting(p, branch), auth, issue, writer).Connector?
            <==> AdmitContent(e, p, auth, issue, writer).Connector?
  {
    hide Sort, StringLe, MintedScopes, CapabilityScope, CheckScope, ScopeAccepts, Normalize, AffectedPaths, SortSet,
      EvidenceInPlace, TrustedFiles;
    var q := Protecting(p, branch);
    var changes := Normalize(TrustedFiles(e.files));
    ScopeUnbranched(p, branch, [], auth.capability, issue);
    if changes.Some? {
      var paths := SortSet(AffectedPaths(changes.value));
      ScopeUnbranched(p, branch, paths, auth.capability, issue);
      ClearMeans(p, paths, auth.capability, issue);
      ClearMeans(q, paths, auth.capability, issue);
    }
  }

  /** The receipt written anew with another fingerprint. */
  function Restamped(e: Evidence, auth: Authorization, fingerprint: string, hash: Authorization -> string): Evidence {
    e.(receipt := ReceiptPresent(DocumentOf(auth.(fingerprint := fingerprint), hash)))
  }

  /** Apart from the fingerprint the claims are judged alike. */
  lemma ClaimsUnbranched(e: Evidence, p: Policy, branch: string, t: Template, fingerprint: Policy -> string,
                         auth: Authorization, receipt: HeadReceipt)
    requires auth.fingerprint == fingerprint(p)
    ensures var q := Protecting(p, branch);
            AdmitClaims(e, p, t, fingerprint, auth).Connector?
            <==> AdmitClaims(e.(receipt := receipt), q, t, fingerprint, auth.(fingerprint := fingerprint(q))).Connector?
  {
    hide Strip, LowerAll, CapabilityScope, AdmitContent, Sha, IssueForBranch, NoEscalation;
    var issue := IssueForBranch(t, e.headRef);
    EscalationUnbranched(e, p, branch);
    EscalationUnreceipted(e, Protecting(p, branch), receipt);
    ScopeUnbranched(p, branch, [], auth.capability, auth.issue);
    if CapabilityScope(p, auth.capability).Some? && issue.Some? {
      ContentUnbranched(e, p, branch, auth, issue.value, LowerAll(Strip(auth.writer)));
      ContentUnreceipted(e, Protecting(p, branch), auth, issue.value, LowerAll(Strip(auth.writer)), receipt,
                         fingerprint(Protecting(p, branch)));
    }
  }

  lemma EscalationUnreceipted(e: Evidence, p: Policy, receipt: HeadReceipt)
    ensures NoEscalation(e.(receipt := receipt), p) <==> NoEscalation(e, p)
  {
    hide Readable, NoWidening, Build;
  }

  lemma ContentUnreceipted(e: Evidence, p: Policy, auth: Authorization, issue: string, writer: string,
                           receipt: HeadReceipt, fingerprint: string)
    requires CapabilityScope(p, auth.capability).Some?
    ensures AdmitContent(e.(receipt := receipt), p, auth.(fingerprint := fingerprint), issue, writer).Connector?
            <==> AdmitContent(e, p, auth, issue, writer).Connector?
  {
    hide Sort, StringLe, MintedScopes, CapabilityScope, CheckScope, Normalize, AffectedPaths, SortSet, EvidenceInPlace,
      TrustedFiles;
  }

  /** One more protected branch in the trusted grant keeps every receipt that was
      written anew for it, and those alone: a candidate is admitted before exactly
      when its receipt carries the former fingerprint and the same candidate, with
      the new fingerprint in its receipt, is admitted after. */
  lemma ProtectionRestamps(e: Evidence, p: Policy, branch: string, t: Template, fingerprint: Policy -> string,
                           hash: Authorization -> string, auth: Authorization)
    requires e.receipt.ReceiptPresent? && FromDocument(e.receipt.document, hash) == Usable(auth)
    ensures var q := Protecting(p, branch);
            Admit(e, p, t, fingerprint, hash).Connector?
            <==> auth.fingerprint == fingerprint(p)
                 && Admit(Restamped(e, auth, fingerprint(q), hash), q, t, fingerprint, hash).Connector?
  {
    hide FromDocument, DocumentOf, AdmitClaims, Canonical;
    var q := Protecting(p, branch);
    var stamped := auth.(fingerprint := fingerprint(q));
    ReadThenWrite(e.receipt.document, hash);
    StampedCanonical(auth, fingerprint(q));
    RoundTripExactly(stamped, hash);
    if auth.fingerprint == fingerprint(p) {
      ClaimsUnbranched(e, p, branch, t, fingerprint, auth, ReceiptPresent(DocumentOf(stamped, hash)));
    } else {
      StaleBlocked(e, p, t, fingerprint, auth);
    }
  }

  lemma StampedCanonical(auth: Authorization, fingerprint: string)
    requires Canonical(auth)
    ensures Canonical(auth.(fingerprint := fingerprint))
  {
    hide NameList, Normalize;
  }

  lemma StaleBlocked(e: Evidence, p: Policy, t: Template, fingerprint: Policy -> string, auth: Authorization)
    requires auth.fingerprint != fingerprint(p)
    ensures !AdmitClaims(e, p, t, fingerprint, auth).Connector?
  {
    hide Strip, LowerAll, CapabilityScope, AdmitContent, Sha, RangePushed, NoEscalation, IssueForBranch;
  }

  /** So protecting a branch makes every earlier receipt stale, unless the digests
      of the two grants collide. */
  lemma ProtectionStale(e: Evidence, p: Policy, branch: string, t: Template, fingerprint: Policy -> string,
                        hash: Authorization -> string)
    requires Admit(e, p, t, fingerprint, hash).Connector? && fingerprint(Protecting(p, branch)) != fingerprint(p)
    ensures Admit(e, Protecting(p, branch), t, fingerprint, hash) == Blocked(StaleGrant)
  {
    hide Strip, LowerAll, CapabilityScope, AdmitContent, FromDocument, Sha, RangePushed, NoEscalation, IssueForBranch,
      ClaimsReceipt;
    EscalationUnbranched(e, p, branch);
    var auth := FromDocument(e.receipt.document, hash).authorization;
    ScopeUnbranched(p, branch, [], auth.capability, auth.issue);
  }

  // ------------------------------------------------------- one write, minted

  const TEMPLATE := Template("b/", "-")
  const COMMIT := Zeros(40)
  const CHANGE := Change("added", "docs/a", "", COMMIT)
  const REQUEST := Request("w", "m", "1", "b/1-x", "main", COMMIT, ["docs/a"], [CHANGE])

  /** What is minted for it under a grant with that fingerprint. */
  function Stamped(fingerprint: string): Authorization {
    Authorization("w", "m", "1", "main", COMMIT, "b/1-x", ["docs/a"], [], fingerprint, [CHANGE])
  }

  /** A grant of the family that opens `docs/`, with its protected branches. */
  function OpenShape(forbidden: seq<string>): Shape {
    Shape(forbidden, [], Ordinarily(["docs/"], []), Specially(["docs/"], []), [])
  }

  function OpenDocs(forbidden: seq<string>): RawGrant {
    Source(OpenShape(forbidden))
  }

  lemma DocumentReads(forbidden: seq<string>)
    requires Tidy(forbidden)
    ensures Readable(OpenDocs(forbidden))
    ensures Build(OpenDocs(forbidden)) == Sample(OpenShape(forbidden))
  {
    hide Trimmed, Strip, Matches, Build, Readable;
    TidyTexts();
    SourceReads(OpenShape(forbidden));
  }

  lemma DocumentScope(forbidden: seq<string>)
    ensures ScopeAccepts(Sample(OpenShape(forbidden)), ["docs/a"], "m", "1")
  {
    hide Trimmed, Strip, Matches, AcceptedBelowFloor, Relative, LiteralForm, Plain;
    DocumentTexts();
    OneEntry("docs/a", "docs/");
    SampleGrants(OpenShape(forbidden), "m", "docs/a");
  }

  lemma ShaText()
    ensures Sha(COMMIT) && LowerAll(Strip(COMMIT)) == COMMIT
  {
    hide Strip;
    assert AllHex(COMMIT);
    ShaNormal(COMMIT);
  }

  lemma ChangeNormal()
    ensures Normalize([CHANGE]) == Some([CHANGE]) && AffectedPaths([CHANGE]) == {"docs/a"}
  {
    hide Strip, Sha;
    ShaText();
    Unspaced("added");
    Unspaced("docs/a");
    assert LowerAll("added") == "added" && Strip("") == "";
    assert Clean(CHANGE) == CHANGE;
    assert CleanAll([CHANGE]) == [CHANGE];
    assert Exact(CHANGE);
    assert [CHANGE][1..] == [];
    assert Sort([CHANGE], ChangeLe) == Insert(CHANGE, [], ChangeLe) == [CHANGE];
    assert Affected([CHANGE][0]) == ["docs/a"];
    assert "docs/a" in AffectedPaths([CHANGE]) by {
      assert Affected([CHANGE][0])[0] == "docs/a";
    }
  }

  lemma Dotted(s: string)
    requires Contains(s, "..")
    ensures '.' in s
  {
    var i :| 0 <= i <= |s| && ".." <= s[i..];
    assert s[i] == s[i..][0] == '.';
  }

  lemma PlainBranch(s: string)
    requires s != [] && s[0] != '/' && s[0] != 'r' && s[|s| - 1] != '/' && Trimmed(s)
    requires '.' !in s
    ensures BranchName(s) == Some(s)
  {
    hide Strip, Trimmed, Contains;
    assert "refs/"[0] == 'r';
    if Contains(s, "..") {
      Dotted(s);
    }
  }

  lemma BranchTexts()
    ensures BranchName("main") == Some("main") && BranchName("b/1-x") == Some("b/1-x")
    ensures Glob("b/1-x", ReplaceAll("b/{issue}-*", "{issue}", "1"))
    ensures LiteralTemplate(TEMPLATE) && Separates(TEMPLATE.tail) && Pattern(TEMPLATE) == "b/{issue}-*"
    ensures OneLine("b/1-x")
  {
    hide Strip, Glob, ReplaceAll, BranchName, Trimmed;
    Unspaced("main");
    Unspaced("b/1-x");
    PlainBranch("main");
    PlainBranch("b/1-x");
    IssueOne();
    MintMeans(TEMPLATE, "1", "b/1-x");
    assert Pattern(TEMPLATE) == "b/{issue}-*";
    assert !IsDigit("-"[0]);
    NonDigitSeparates("-");
  }

  lemma PathTexts()
    ensures StripEach(["docs/a"]) == ["docs/a"] && Dedupe(["docs/a"]) == ["docs/a"]
    ensures Sort(["docs/a"], StringLe) == ["docs/a"]
  {
    hide Strip, Trimmed, StringLe, StripEach, Dedupe, Sort;
    Unspaced("docs/a");
    NamesAsIs(["docs/a"]);
  }

  lemma RequestTexts()
    ensures LowerAll(Strip("w")) == "w" && Strip("m") == "m" && DropHashes(Strip("1")) == "1" && IssueForm("1")
    ensures !(".hunter/" <= "docs/a")
  {
    hide Strip, Trimmed, IssueForm;
    ShortTexts();
    IssueOne();
    assert LowerAll("w") == "w";
    assert ".hunter/"[0] == '.' && "docs/a"[0] == 'd';
  }

  lemma ContentAuthorized(p: Policy, fingerprint: Policy -> string)
    requires ScopeAccepts(p, ["docs/a"], "m", "1") && MintedScopes(p, "m", "1") == []
    ensures EvaluateContent(REQUEST, p, "w", "m", "1", "main", COMMIT, "b/1-x", fingerprint)
            == Authorized(Stamped(fingerprint(p)))
  {
    hide Strip, CheckScope, ScopeAccepts, Normalize, AffectedPaths, Sort, StripEach, Dedupe, MintedScopes, StringLe;
    ChangeNormal();
    RequestTexts();
    PathTexts();
    ClearMeans(p, ["docs/a"], "m", "1");
    assert RECEIPT_PATH[0] == '.' && "docs/a"[0] == 'd';
  }

  /** Without protected branches the write is minted, whatever the fingerprint. */
  lemma RequestMinted(fingerprint: Policy -> string)
    ensures var p := Build(OpenDocs([]));
            Evaluate(REQUEST, Some(p), Some(COMMIT), fingerprint) == Authorized(Stamped(fingerprint(p)))
  {
    hide Strip, LowerAll, BranchName, CapabilityScope, IssueForm, Glob, ReplaceAll, DropHashes, Sha, Build, Readable,
      ScopeAccepts, EvaluateContent, OpenDocs, MintedScopes, StripEach, Dedupe, Sort, StringLe, OneLine, Pattern,
      Separates, LiteralTemplate, AllHex, Zeros;
    DocumentReads([]);
    DocumentScope([]);
    ShaText();
    BranchTexts();
    RequestTexts();
    PathTexts();
    var p := Build(OpenDocs([]));
    DocumentCapability();
    ContentAuthorized(p, fingerprint);
    assert p.writers[0] == ("w", "m");
  }

  lemma DocumentCapability()
    ensures CapabilityScope(Build(OpenDocs([])), "m").Some? && MintedScopes(Build(OpenDocs([])), "m", "1") == []
  {
    hide Readable, Build, Strip, CapabilityScope, OpenDocs;
    DocumentReads([]);
    SampleCapability(OpenShape([]));
  }

  // -------------------------------------------------- and with its branch protected

  lemma OpenNarrower()
    ensures Narrower(OpenShape([]), OpenShape([]))
  {
    hide CoveredBy, Tidy;
    TidyTexts();
    TidyCovers(["docs/"]);
    TidyCovers([]);
  }

  /** The two grants at issue, each of which the reader accepts. */
  lemma ProtectedReads()
    ensures Readable(OpenDocs([])) && Readable(OpenDocs(["b/1-x"]))
    ensures Build(OpenDocs(["b/1-x"])) == Protecting(Build(OpenDocs([])), "b/1-x")
    ensures CoversItself(Build(OpenDocs([])))
  {
    hide Strip, Trimmed, Readable, Build, CoversItself, NoWidening, Matches;
    assert Tidy(["b/1-x"]) by { Unspaced("b/1-x"); }
    DocumentReads([]);
    DocumentReads(["b/1-x"]);
    assert (set x | x in ["b/1-x"]) == {} + {"b/1-x"};
    OpenNarrower();
    SampleNotWider(OpenShape([]), OpenShape([]));
    NoWideningReflexive(Build(OpenDocs([])));
  }

  /** Two readable grants, neither reported as wider than the other: the write is
      minted under the one and refused under the other, which protects its branch. */
  lemma ProtectedNotMinted(fingerprint: Policy -> string)
    ensures var c, t := Build(OpenDocs([])), Build(OpenDocs(["b/1-x"]));
            && Readable(OpenDocs([])) && Readable(OpenDocs(["b/1-x"])) && NoWidening(t, c) && NoWidening(c, t)
            && Evaluate(REQUEST, Some(c), Some(COMMIT), fingerprint) == Authorized(Stamped(fingerprint(c)))
            && Evaluate(REQUEST, Some(t), Some(COMMIT), fingerprint) == Refused(Protected)
  {
    hide Readable, Build, CoversItself, NoWidening, Evaluate, OpenDocs, Grants;
    var c := Build(OpenDocs([]));
    ProtectedReads();
    RequestMinted(fingerprint);
    ProtectionUnseen(REQUEST, c, Some(COMMIT), fingerprint);
    NoWideningReflexive(c);
    BranchRulesUnseen(c, c, c.baseRef, c.forbiddenTargets + {"b/1-x"}, c.branchNamespace, c.branchTemplate);
  }

  /** The write at its candidate head: pushed by its writer, with a receipt and the
      grant at hand. */
  function Head(auth: Authorization, hash: Authorization -> string, grant: RawGrant): Evidence {
    Evidence("b/1-x", "main", COMMIT, ReceiptPresent(DocumentOf(auth, hash)), GrantPresent(grant),
             [CHANGE], [Commit(COMMIT, "w")], map[COMMIT := "w"], Some(COMMIT))
  }

  lemma HeadFiles()
    ensures TrustedFiles([CHANGE]) == [CHANGE] && EvidenceInPlace([CHANGE])
  {
    assert TrustedFiles([CHANGE][1..]) == [];
    assert RECEIPT_PATH[0] == '.' && REVIEW_PATH[0] == '.';
    assert !IsEvidence(CHANGE);
  }

  lemma HeadAdmitted(fingerprint: Policy -> string, hash: Authorization -> string)
    ensures var p := Build(OpenDocs([]));
            var auth := Stamped(fingerprint(p));
            && Admit(Head(auth, hash, OpenDocs([])), p, TEMPLATE, fingerprint, hash) == Connector("w", auth)
            && Canonical(auth)
  {
    hide Strip, LowerAll, BranchName, CapabilityScope, IssueForm, Glob, ReplaceAll, EvaluateContent, Contains,
      FromDocument, DocumentOf, DropHashes, AdmitClaims, IssueForBranch, AllHex, ScopeAccepts, Readable, Build,
      CoversItself, NoWidening, Evaluate, OpenDocs, Sha, Normalize, Admit, Pattern, Separates, LiteralTemplate, OneLine,
      EvidenceInPlace, TrustedFiles, TidyScopeNames, NameList, MintedScopes;
    var raw := OpenDocs([]);
    var auth := Stamped(fingerprint(Build(raw)));
    ProtectedReads();
    RequestMinted(fingerprint);
    BranchTexts();
    ShaText();
    ChangeNormal();
    HeadFiles();
    NoWideningReflexive(Build(raw));
    ReadGrantTidy(raw);
    DocumentReads([]);
    MintedCanonical(REQUEST, Build(raw), Some(COMMIT), fingerprint);
    MintedIsAdmitted(REQUEST, Some(COMMIT), Head(auth, hash, raw), Build(raw), TEMPLATE, fingerprint, hash);
  }

  /** Admission lets the write through although the mint refuses it: the trusted
      grant, which the reader accepts, protects the branch. The receipt carries
      that grant's own fingerprint, whatever it is. */
  lemma AdmittedNotMinted(fingerprint: Policy -> string, hash: Authorization -> string)
    ensures var p := Build(OpenDocs(["b/1-x"]));
            var auth := Stamped(fingerprint(p));
            var e := Head(auth, hash, OpenDocs([]));
            && Readable(OpenDocs(["b/1-x"]))
            && Admit(e, p, TEMPLATE, fingerprint, hash) == Connector("w", auth)
            && Evaluate(RequestOf(auth), Some(p), e.forkPoint, fingerprint) == Refused(Protected)
  {
    hide Readable, Build, CoversItself, NoWidening, Evaluate, OpenDocs, DocumentOf, FromDocument, IssueForBranch,
      Canonical, AdmitClaims;
    var former, p := Build(OpenDocs([])), Build(OpenDocs(["b/1-x"]));
    var auth, e := Stamped(fingerprint(former)), Head(Stamped(fingerprint(former)), hash, OpenDocs([]));
    ProtectedReads();
    HeadAdmitted(fingerprint, hash);
    ProtectedNotMinted(fingerprint);
    RoundTripExactly(auth, hash);
    ProtectionRestamps(e, former, "b/1-x", TEMPLATE, fingerprint, hash, auth);
    StampedCanonical(auth, fingerprint(p));
    RoundTripExactly(Stamped(fingerprint(p)), hash);
  }
}
