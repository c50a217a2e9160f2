/** Minting of connector write authorizations, and the receipt they travel in. */
module WriteReceipt {
  import opened BranchBinding
  import opened ChangeSet
  import opened ConnectorGrant
  import opened GrantDocument
  import opened Ordering
  import opened ScopeEntries
  import opened Text

  const RECEIPT_PATH := ".hunter/connector-write-authorization.json"
  const SCHEMA := "hunter-connector-write-authorization-v4"

  /** The claim set an authorized write is bound to. */
  datatype Authorization = Authorization(
    writer: string,
    capability: string,
    issue: string,
    baseRef: string,
    baseSha: string,
    targetRef: string,
    paths: seq<string>,
    scopes: seq<string>,
    fingerprint: string,
    changes: seq<Change>)

  /** The receipt document: its schema, its claims, its identifier. */
  datatype Document = Document(schema: string, claims: Authorization, id: string)

  // --------------------------------------------------------------- the receipt

  /** `claims`: the lists in their sorted form. */
  function Claims(auth: Authorization): Authorization {
    auth.(paths := Sort(auth.paths, StringLe), scopes := Sort(auth.scopes, StringLe),
          changes := Sort(auth.changes, ChangeLe))
  }

  /** `document`; `hash` is the digest of the serialised claims. */
  function DocumentOf(auth: Authorization, hash: Authorization -> string): Document {
    Document(SCHEMA, Claims(auth), hash(Claims(auth)))
  }

  datatype Receipt =
    | Usable(authorization: Authorization)
    | WrongSchema
    | BadChanges
    | PathsNotCanonical
    | ChangesNotCanonical
    | ScopesNotCanonical
    | WrongIdentifier

  function Dedupe(s: seq<string>): (r: seq<string>)
    ensures forall x :: x in r <==> x in s
  {
    if s == [] then []
    else if s[|s| - 1] in s[..|s| - 1] then Dedupe(s[..|s| - 1])
    else Dedupe(s[..|s| - 1]) + [s[|s| - 1]]
  }

  /** `sorted({item.strip() for item in raw if item.strip()})`. */
  function CanonicalNames(raw: seq<string>): seq<string> {
    Sort(Dedupe(StripNonBlank(raw)), StringLe)
  }

  /** `from_document`, on a document of the right shape. */
  ghost function FromDocument(doc: Document, hash: Authorization -> string): Receipt {
    if doc.schema != SCHEMA then WrongSchema
    else
      var changes := Normalize(doc.claims.changes);
      if changes.None? then BadChanges
      else if doc.claims.paths != CanonicalNames(doc.claims.paths) then PathsNotCanonical
      else if doc.claims.changes != changes.value then ChangesNotCanonical
      else if doc.claims.scopes != CanonicalNames(doc.claims.scopes) then ScopesNotCanonical
      else
        var auth := doc.claims.(changes := changes.value);
        if doc.id != hash(Claims(auth)) then WrongIdentifier else Usable(auth)
  }

  // -------------------------------------------------------- canonical name lists

  /** Trimmed, non-empty, in order, none twice. */
  ghost predicate NameList(s: seq<string>) {
    && (forall k :: 0 <= k < |s| ==> Trimmed(s[k]) && s[k] != [])
    && Ordered(s, StringLe)
    && forall j, k :: 0 <= j < k < |s| ==> s[j] != s[k]
  }

  lemma {:induction false} StripNothing(s: seq<string>)
    requires forall k :: 0 <= k < |s| ==> Trimmed(s[k]) && s[k] != []
    ensures StripNonBlank(s) == s
  {
    hide Trimmed, Strip;
    if s != [] {
      assert Strip(s[0]) == s[0];
      StripNothing(s[1..]);
    }
  }

  lemma {:induction false} DedupeNothing(s: seq<string>)
    requires forall j, k :: 0 <= j < k < |s| ==> s[j] != s[k]
    ensures Dedupe(s) == s
  {
    if s != [] {
      DedupeNothing(s[..|s| - 1]);
    }
  }

  lemma {:induction false} DedupeDistinct(s: seq<string>)
    ensures forall j, k :: 0 <= j < k < |Dedupe(s)| ==> Dedupe(s)[j] != Dedupe(s)[k]
  {
    if s != [] {
      DedupeDistinct(s[..|s| - 1]);
    }
  }

  lemma DistinctPermuted(a: seq<string>, b: seq<string>)
    requires multiset(a) == multiset(b)
    requires forall j, k :: 0 <= j < k < |a| ==> a[j] != a[k]
    ensures forall j, k :: 0 <= j < k < |b| ==> b[j] != b[k]
  {
    SameElements(a, b);
    forall j, k | 0 <= j < k < |b| ensures b[j] != b[k] {
      if b[j] == b[k] {
        CountedTwice(b, j, k);
        assert b[j] in a;
        var p :| 0 <= p < |a| && a[p] == b[j];
        OnceOnly(a, p);
      }
    }
  }

  lemma OnceOnly(a: seq<string>, p: nat)
    requires p < |a| && forall j, k :: 0 <= j < k < |a| ==> a[j] != a[k]
    ensures multiset(a)[a[p]] == 1
  {
    TakeOut(a, p);
    assert a[p] !in Without(a, p);
    assert a[p] !in multiset(Without(a, p));
  }

  /** A list equals its canonical form exactly when it is a proper name list. */
  lemma CanonicalExactly(s: seq<string>)
    ensures CanonicalNames(s) == s <==> NameList(s)
  {
    hide Trimmed, StringLe, TotalOrder, Ordered, Sort, Dedupe;
    StringOrder();
    var names := Dedupe(StripNonBlank(s));
    if NameList(s) {
      StripNothing(s);
      DedupeNothing(s);
      SortCanonical(s, s, StringLe);
    }
    if CanonicalNames(s) == s {
      SortSorts(names, StringLe);
      SameElements(names, s);
      DedupeDistinct(StripNonBlank(s));
      DistinctPermuted(names, s);
      forall k | 0 <= k < |s| ensures Trimmed(s[k]) && s[k] != [] {
        assert s[k] in names && s[k] in StripNonBlank(s);
      }
    }
  }

  // ------------------------------------------------------------- the round trip

  /** Lists as a receipt carries them. */
  ghost predicate Canonical(auth: Authorization) {
    NameList(auth.paths) && NameList(auth.scopes) && Normalize(auth.changes) == Some(auth.changes)
  }

  lemma CanonicalClaims(auth: Authorization)
    requires Canonical(auth)
    ensures Claims(auth) == auth
  {
    hide TotalOrder, Ordered, Trimmed, StringLe, ChangeLe, Normalize, Unambiguous;
    StringOrder();
    ChangeOrder();
    NormalizeIdempotent(auth.changes);
    SortCanonical(auth.paths, auth.paths, StringLe);
    SortCanonical(auth.scopes, auth.scopes, StringLe);
    SortCanonical(auth.changes, auth.changes, ChangeLe);
  }

  /** Reading a written receipt gives the authorization back exactly when its
      lists are canonical. */
  lemma RoundTripExactly(auth: Authorization, hash: Authorization -> string)
    ensures FromDocument(DocumentOf(auth, hash), hash) == Usable(auth) <==> Canonical(auth)
  {
    hide NameList, Normalize, Sort, CanonicalNames;
    CanonicalExactly(auth.paths);
    CanonicalExactly(auth.scopes);
    if Canonical(auth) {
      CanonicalClaims(auth);
    }
  }

  /** And writing a usable receipt gives the same document back: there is one
      document for each authorization, and none for anything else. */
  lemma ReadThenWrite(doc: Document, hash: Authorization -> string)
    requires FromDocument(doc, hash).Usable?
    ensures var auth := FromDocument(doc, hash).authorization;
            Canonical(auth) && DocumentOf(auth, hash) == doc
  {
    hide NameList, Normalize, Sort, CanonicalNames;
    var auth := FromDocument(doc, hash).authorization;
    CanonicalExactly(auth.paths);
    CanonicalExactly(auth.scopes);
    CanonicalClaims(auth);
  }

  // ------------------------------------------------------------------- minting

  datatype Request = Request(
    writer: string,
    capability: string,
    issue: string,
    targetRef: string,
    baseRef: string,
    baseSha: string,
    paths: seq<string>,
    changes: seq<Change>)

  datatype Decision = Authorized(authorization: Authorization) | Refused(why: Refusal)

  datatype Refusal =
    | NoPolicy | NotEnabled | NoWriters | NoWriter | UnknownWriter | NotGranted | NoBaseBranch | WrongBase
    | NotABranch | Protected | OutsideNamespace | NoIssue | OutsideIssue | NoBaseSha | NoTip | StaleBase
    | BadPaths | ReceiptDeclared | IngressState | OutOfScope(decision: ScopeDecision) | BadChangeSet

  /** `_normalize_branch`. */
  function BranchName(ref: string): Option<string> {
    var s := Strip(ref);
    if "refs/" <= s && !("refs/heads/" <= s) then None
    else
      var name := if "refs/heads/" <= s then s[11..] else s;
      if name == [] || "/" <= name || EndsWith(name, "/") || Contains(name, "..") then None else Some(name)
  }

  ghost function AffectedPaths(changes: seq<Change>): set<string> {
    set k, i | 0 <= k < |changes| && 0 <= i < |Affected(changes[k])| :: Affected(changes[k])[i]
  }

  /** `sorted` of a set of names. */
  ghost function SortSet(names: set<string>): seq<string>
    decreases |names|
  {
    if names == {} then []
    else var x :| x in names; Insert(x, SortSet(names - {x}), StringLe)
  }

  /** The scope names the mint binds: those of the Issue where one is required. */
  ghost function MintedScopes(p: Policy, capability: string, issue: string): seq<string> {
    var scope := CapabilityScope(p, capability);
    if scope.Some? && scope.value.requiresIssue then
      var names := ScopesForIssue(p.authorizations, issue);
      SortSet(if names.Some? then names.value else {})
    else []
  }

  /** `evaluate_write_request`; `tip` is what the trusted repository answers. */
  ghost function Evaluate(request: Request, policy: Option<Policy>, tip: Option<string>,
                          fingerprint: Policy -> string): Decision {
    if policy.None? then Refused(NoPolicy)
    else
      var p := policy.value;
      var writer, capability := LowerAll(Strip(request.writer)), Strip(request.capability);
      var baseRef, targetRef := BranchName(request.baseRef), BranchName(request.targetRef);
      var issue, baseSha := DropHashes(Strip(request.issue)), LowerAll(Strip(request.baseSha));
      if !p.enabled then Refused(NotEnabled)
      else if p.writers == [] then Refused(NoWriters)
      else if writer == [] then Refused(NoWriter)
      else if forall k :: 0 <= k < |p.writers| ==> p.writers[k].0 != writer then Refused(UnknownWriter)
      else if (writer, capability) !in p.writers || CapabilityScope(p, capability).None? then Refused(NotGranted)
      else if baseRef.None? then Refused(NoBaseBranch)
      else if baseRef.value != p.baseRef then Refused(WrongBase)
      else if targetRef.None? then Refused(NotABranch)
      else if targetRef.value == baseRef.value || targetRef.value in p.forbiddenTargets then Refused(Protected)
      else if !(p.branchNamespace <= targetRef.value) then Refused(OutsideNamespace)
      else if !IssueForm(issue) then Refused(NoIssue)
      else if !Glob(targetRef.value, ReplaceAll(p.branchTemplate, "{issue}", issue)) then Refused(OutsideIssue)
      else if !Sha(baseSha) then Refused(NoBaseSha)
      else if tip.None? || !Sha(LowerAll(Strip(tip.value))) then Refused(NoTip)
      else if baseSha != LowerAll(Strip(tip.value)) then Refused(StaleBase)
      else EvaluateContent(request, p, writer, capability, issue, baseRef.value, baseSha, targetRef.value, fingerprint)
  }

  /** The part of it about paths and changes. */
  ghost function EvaluateContent(request: Request, p: Policy, writer: string, capability: string, issue: string,
                                 baseRef: string, baseSha: string, targetRef: string,
                                 fingerprint: Policy -> string): Decision {
    var stripped := StripEach(request.paths);
    if (exists k :: 0 <= k < |stripped| && stripped[k] == []) || Dedupe(stripped) != stripped then Refused(BadPaths)
    else
      var paths := Sort(stripped, StringLe);
      var changes := Normalize(request.changes);
      var scope := CheckScope(p, paths, Some(capability), issue);
      if RECEIPT_PATH in paths then Refused(ReceiptDeclared)
      else if exists k :: 0 <= k < |paths| && ".hunter/" <= paths[k] then Refused(IngressState)
      else if !scope.Clear? then Refused(OutOfScope(scope))
      else if changes.None? || AffectedPaths(changes.value) != (set x | x in paths) then Refused(BadChangeSet)
      else
        Authorized(Authorization(writer, capability, issue, baseRef, baseSha, targetRef, paths,
                                 MintedScopes(p, capability, issue), fingerprint(p), changes.value))
  }

  /** What the content checks vouch for. */
  ghost predicate ContentSound(auth: Authorization, p: Policy) {
    && ScopeAccepts(p, auth.paths, auth.capability, auth.issue)
    && (forall k :: 0 <= k < |auth.paths| ==> !(".hunter/" <= auth.paths[k]))
    && AffectedPaths(auth.changes) == (set x | x in auth.paths)
    && Unambiguous(auth.changes)
  }

  lemma ContentMinted(request: Request, p: Policy, writer: string, capability: string, issue: string,
                      baseRef: string, baseSha: string, targetRef: string, fingerprint: Policy -> string)
    requires EvaluateContent(request, p, writer, capability, issue, baseRef, baseSha, targetRef, fingerprint)
             .Authorized?
    ensures var auth :=
              EvaluateContent(request, p, writer, capability, issue, baseRef, baseSha, targetRef, fingerprint)
              .authorization;
            && ContentSound(auth, p)
            && auth.writer == writer && auth.capability == capability && auth.issue == issue
            && auth.baseRef == baseRef && auth.baseSha == baseSha && auth.targetRef == targetRef
            && auth.scopes == MintedScopes(p, capability, issue) && auth.fingerprint == fingerprint(p)
            && Normalize(auth.changes) == Some(auth.changes)
  {
    hide CheckScope, ScopeAccepts, Normalize, Unambiguous, AffectedPaths, Sort, Dedupe, MintedScopes, StringLe;
    ClearMeans(p, Sort(StripEach(request.paths), StringLe), capability, issue);
    NormalizeIdempotent(request.changes);
  }

  /** What a minted authorization vouches for: the grant holds for its writer,
      capability, Issue and paths, the branch is the Issue's, the base is the
      trusted tip, and each path is bound by exactly one exact transition. */
  lemma MintedSound(request: Request, p: Policy, tip: Option<string>, fingerprint: Policy -> string)
    requires Evaluate(request, Some(p), tip, fingerprint).Authorized?
    ensures var auth := Evaluate(request, Some(p), tip, fingerprint).authorization;
            && Grants(p, auth.writer, auth.capability, auth.issue, auth.paths)
            && p.branchNamespace <= auth.targetRef && auth.targetRef !in p.forbiddenTargets + {p.baseRef}
            && IssueForm(auth.issue) && Glob(auth.targetRef, ReplaceAll(p.branchTemplate, "{issue}", auth.issue))
            && auth.baseRef == p.baseRef && tip.Some? && auth.baseSha == LowerAll(Strip(tip.value)) && Sha(auth.baseSha)
            && ContentSound(auth, p)
  {
    hide Strip, LowerAll, BranchName, CapabilityScope, IssueForm, Glob, ReplaceAll, EvaluateContent, ScopeAccepts,
      ContentSound, DropHashes, Sha, Normalize, MintedScopes;
    ContentMinted(request, p, LowerAll(Strip(request.writer)), Strip(request.capability),
                  DropHashes(Strip(request.issue)), BranchName(request.baseRef).value,
                  LowerAll(Strip(request.baseSha)), BranchName(request.targetRef).value, fingerprint);
    assert ContentSound(Evaluate(request, Some(p), tip, fingerprint).authorization, p);
    SoundAccepts(Evaluate(request, Some(p), tip, fingerprint).authorization, p);
  }

  lemma SoundAccepts(auth: Authorization, p: Policy)
    requires ContentSound(auth, p)
    ensures ScopeAccepts(p, auth.paths, auth.capability, auth.issue)
  {
  }

  lemma {:induction false} SortSetSorts(names: set<string>)
    ensures var r := SortSet(names);
            multiset(r) == multiset(names) && Ordered(r, StringLe)
    decreases |names|
  {
    hide StringLe, TotalOrder, Ordered;
    StringOrder();
    if names == {} {
      NothingOrdered(StringLe);
    } else {
      var x :| x in names && SortSet(names) == Insert(x, SortSet(names - {x}), StringLe);
      SortSetSorts(names - {x});
      InsertKeeps(x, SortSet(names - {x}), StringLe);
      InsertOrders(x, SortSet(names - {x}), StringLe);
      assert names == names - {x} + {x};
    }
  }

  /** Scope names as the grant reader leaves them. */
  ghost predicate TidyScopeNames(p: Policy) {
    forall i :: 0 <= i < |p.authorizations| ==>
                  forall x :: x in p.authorizations[i].scopes ==> Trimmed(x) && x != []
  }

  lemma ReadGrantTidy(raw: RawGrant)
    ensures TidyScopeNames(Build(raw))
  {
    hide Trimmed;
  }

  lemma OnceInSet(names: set<string>, s: seq<string>)
    requires multiset(s) == multiset(names)
    ensures forall x :: x in s <==> x in names
    ensures forall j, k :: 0 <= j < k < |s| ==> s[j] != s[k]
  {
    forall x ensures x in s <==> x in names {
      assert x in s <==> x in multiset(s);
    }
    forall j, k | 0 <= j < k < |s| ensures s[j] != s[k] {
      if s[j] == s[k] {
        CountedTwice(s, j, k);
      }
    }
  }

  lemma NoneSorted()
    ensures SortSet({}) == []
  {
  }

  lemma NoNames()
    ensures NameList([])
  {
  }

  lemma SortedNamesTidy(names: set<string>)
    requires forall x :: x in names ==> Trimmed(x) && x != []
    ensures NameList(SortSet(names))
  {
    hide Trimmed, StringLe, SortSet, Ordered;
    SortSetSorts(names);
    OnceInSet(names, SortSet(names));
    forall k | 0 <= k < |SortSet(names)| ensures Trimmed(SortSet(names)[k]) && SortSet(names)[k] != [] {
      assert SortSet(names)[k] in SortSet(names);
    }
  }

  lemma AuthorizedNamesTidy(p: Policy, issue: string)
    requires TidyScopeNames(p) && ScopesForIssue(p.authorizations, issue).Some?
    ensures forall x :: x in ScopesForIssue(p.authorizations, issue).value ==> Trimmed(x) && x != []
  {
    hide Trimmed;
    IssueIn(p.authorizations, issue);
  }

  lemma MintedScopesTidy(p: Policy, capability: string, issue: string)
    requires TidyScopeNames(p)
    ensures NameList(MintedScopes(p, capability, issue))
  {
    hide Trimmed, SortSet, NameList, TidyScopeNames, CapabilityScope;
    NoNames();
    NoneSorted();
    var names := ScopesForIssue(p.authorizations, issue);
    if names.Some? {
      AuthorizedNamesTidy(p, issue);
      SortedNamesTidy(names.value);
    }
  }

  lemma SortedPathsTidy(raws: seq<string>)
    requires forall k :: 0 <= k < |raws| ==> Trimmed(raws[k]) && raws[k] != []
    requires Dedupe(raws) == raws
    ensures NameList(Sort(raws, StringLe))
  {
    hide Trimmed, StringLe, Sort, Dedupe, TotalOrder, Ordered;
    StringOrder();
    SortSorts(raws, StringLe);
    DedupeDistinct(raws);
    DistinctPermuted(raws, Sort(raws, StringLe));
    SameElements(raws, Sort(raws, StringLe));
    forall k | 0 <= k < |Sort(raws, StringLe)|
      ensures Trimmed(Sort(raws, StringLe)[k]) && Sort(raws, StringLe)[k] != []
    {
      assert Sort(raws, StringLe)[k] in raws;
    }
  }

  lemma MintedPathsTidy(request: Request, p: Policy, writer: string, capability: string, issue: string,
                        baseRef: string, baseSha: string, targetRef: string, fingerprint: Policy -> string)
    requires EvaluateContent(request, p, writer, capability, issue, baseRef, baseSha, targetRef, fingerprint)
             .Authorized?
    ensures NameList(
              EvaluateContent(request, p, writer, capability, issue, baseRef, baseSha, targetRef, fingerprint)
              .authorization.paths)
  {
    hide CheckScope, Normalize, AffectedPaths, Sort, Dedupe, MintedScopes, StringLe, NameList, Strip;
    SortedPathsTidy(StripEach(request.paths));
  }

  lemma MintedCanonical(request: Request, p: Policy, tip: Option<string>, fingerprint: Policy -> string)
    requires TidyScopeNames(p) && Evaluate(request, Some(p), tip, fingerprint).Authorized?
    ensures var auth := Evaluate(request, Some(p), tip, fingerprint).authorization;
            && Canonical(auth)
            && auth.scopes == MintedScopes(p, auth.capability, auth.issue) && auth.fingerprint == fingerprint(p)
            && auth.writer == LowerAll(Strip(request.writer)) && CapabilityScope(p, auth.capability).Some?
  {
    hide Strip, LowerAll, BranchName, CapabilityScope, IssueForm, Glob, ReplaceAll, EvaluateContent, DropHashes, Sha,
      Normalize, MintedScopes, NameList, ContentSound, Trimmed;
    var writer, capability := LowerAll(Strip(request.writer)), Strip(request.capability);
    var issue, baseSha := DropHashes(Strip(request.issue)), LowerAll(Strip(request.baseSha));
    var baseRef, targetRef := BranchName(request.baseRef).value, BranchName(request.targetRef).value;
    MintedScopesTidy(p, capability, issue);
    ContentMinted(request, p, writer, capability, issue, baseRef, baseSha, targetRef, fingerprint);
    MintedPathsTidy(request, p, writer, capability, issue, baseRef, baseSha, targetRef, fingerprint);
  }

  /** Every authorization minted under a grant that was read from a document
      survives being written to a receipt and read back. */
  lemma MintedReceiptSurvives(request: Request, raw: RawGrant, tip: Option<string>, fingerprint: Policy -> string,
                              hash: Authorization -> string)
    requires Evaluate(request, Some(Build(raw)), tip, fingerprint).Authorized?
    ensures var auth := Evaluate(request, Some(Build(raw)), tip, fingerprint).authorization;
            FromDocument(DocumentOf(auth, hash), hash) == Usable(auth)
  {
    hide Evaluate, Build, TidyScopeNames, Canonical, FromDocument, DocumentOf;
    ReadGrantTidy(raw);
    MintedCanonical(request, Build(raw), tip, fingerprint);
    RoundTripExactly(Evaluate(request, Some(Build(raw)), tip, fingerprint).authorization, hash);
  }
}
