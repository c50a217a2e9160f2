/** Reading the grant out of the policy document, and the exact condition under
    which the root-of-trust test of the scope check changes no decision. */
module GrantDocument {
  import opened Text
  import opened ScopeEntries
  import opened ConnectorGrant
  import opened ScopeMeeting

  /** The grant section once JSON shapes are known to be right; the maps of the
      document appear as their items in name order. */
  datatype RawGrant = RawGrant(
    enabled: bool,
    claimsPushEquivalence: bool,
    requiredCapability: string,
    writers: seq<(string, string)>,
    baseRef: string,
    branchNamespace: string,
    branchTemplate: string,
    forbiddenTargets: seq<string>,
    allowed: seq<string>,
    prohibited: seq<string>,
    requiresExactTip: bool,
    rootOfTrust: seq<string>,
    capabilities: seq<Capability>,
    governanceScopes: seq<GovernanceScope>,
    authorizations: seq<(string, seq<string>)>)

  datatype Problem =
    | PushEquivalence | NoCapability | BadLogin(login: string) | DuplicateWriter(login: string)
    | NoBase | BadNamespace | UnboundTemplate | TemplateOutsideNamespace | NoAllowedPaths | NoExactTip
    | RootNotProhibited(entries: set<string>)
    | UnnamedCapability | RedefinedCapability(name: string) | EmptyCapability(name: string)
    | RootOpenTo(name: string, entries: set<string>)
    | UnnamedScope | EmptyScope(name: string) | ScopeOpensRoot(name: string, entry: string)
    | ScopeOutOfBounds(name: string, entry: string)
    | BadIssue | EmptyAuthorization(issue: string) | UnknownScopes(issue: string) | DuplicateIssue(issue: string)

  datatype Reading = Accepted(policy: Policy) | Rejected(problem: Problem)

  // -------------------------------------------------------------- text rules

  /** `path_list`: blank entries are dropped, the others kept as written. */
  function KeepNonBlank(list: seq<string>): (r: seq<string>)
    ensures forall x :: x in r <==> x in list && Strip(x) != []
  {
    if list == [] then []
    else if Strip(list[0]) == [] then KeepNonBlank(list[1..])
    else [list[0]] + KeepNonBlank(list[1..])
  }

  /** `_string_list`: blank entries are dropped, the others stripped. */
  function StripNonBlank(list: seq<string>): (r: seq<string>)
    ensures forall x :: x in r ==> x != [] && Trimmed(x)
  {
    if list == [] then []
    else if Strip(list[0]) == [] then StripNonBlank(list[1..])
    else [Strip(list[0])] + StripNonBlank(list[1..])
  }

  predicate IsAlnum(c: char) {
    IsDigit(c) || 'a' <= c <= 'z' || 'A' <= c <= 'Z'
  }

  predicate LoginCore(s: string) {
    && 1 <= |s| <= 39 && IsAlnum(s[0]) && IsAlnum(s[|s| - 1])
    && forall i :: 0 <= i < |s| ==> IsAlnum(s[i]) || s[i] == '-'
  }

  /** `_LOGIN`: a GitHub login, optionally with the bot suffix. */
  predicate LoginForm(s: string) {
    LoginCore(s) || (EndsWith(s, "[bot]") && LoginCore(s[..|s| - 5]))
  }

  /** `_ISSUE`: one to ten digits, not starting with zero. */
  predicate IssueForm(s: string) {
    1 <= |s| <= 10 && AllDigits(s) && s[0] != '0'
  }

  function DropHashes(s: string): string {
    if s != [] && s[0] == '#' then DropHashes(s[1..]) else s
  }

  // ------------------------------------------------- what a readable grant is

  function Login(w: (string, string)): string {
    LowerAll(Strip(w.0))
  }

  /** The writer table: unbound entries are skipped. */
  function Writers(list: seq<(string, string)>): seq<(string, string)> {
    if list == [] then []
    else if Login(list[|list| - 1]) == [] then Writers(list[..|list| - 1])
    else Writers(list[..|list| - 1]) + [(Login(list[|list| - 1]), Strip(list[|list| - 1].1))]
  }

  /** Every bound login is well formed and no (login, capability) pair repeats. */
  predicate WritersFine(list: seq<(string, string)>) {
    if list == [] then true
    else
      var init, last := list[..|list| - 1], list[|list| - 1];
      && WritersFine(init)
      && (Login(last) == [] || (LoginForm(Login(last)) && (Login(last), Strip(last.1)) !in Writers(init)))
  }

  function ReadCapability(c: Capability): Capability {
    Capability(Strip(c.name), StripNonBlank(c.allowed), StripNonBlank(c.prohibited), c.requiresIssue)
  }

  predicate CapabilityFine(c: Capability, required: string, root: seq<string>) {
    && c.name != [] && c.name != required && c.allowed != [] && CoveredBy(root, c.prohibited)
  }

  function ReadScope(s: GovernanceScope): GovernanceScope {
    GovernanceScope(Strip(s.name), StripNonBlank(s.unblocked))
  }

  /** Some capability's allowed paths reach the entry: the outer bound. */
  predicate InBounds(entry: string, capabilities: seq<Capability>) {
    exists i :: 0 <= i < |capabilities| && MatchesAny(entry, capabilities[i].allowed)
  }

  predicate ApartFromRoot(entry: string, root: seq<string>) {
    forall i :: 0 <= i < |root| ==> !Overlap(entry, root[i])
  }

  predicate ScopeFine(s: GovernanceScope, root: seq<string>, capabilities: seq<Capability>) {
    && s.name != [] && s.unblocked != []
    && forall i :: 0 <= i < |s.unblocked| ==>
         ApartFromRoot(s.unblocked[i], root) && InBounds(s.unblocked[i], capabilities)
  }

  function ReadAuthorization(a: (string, seq<string>)): IssueAuthorization {
    IssueAuthorization(DropHashes(Strip(a.0)), (set x | x in StripNonBlank(a.1)))
  }

  predicate KnownScopes(names: set<string>, scopes: seq<GovernanceScope>) {
    forall name :: name in names ==> exists i :: 0 <= i < |scopes| && scopes[i].name == name
  }

  predicate AuthorizationFine(a: IssueAuthorization, scopes: seq<GovernanceScope>) {
    IssueForm(a.issue) && a.scopes != {} && KnownScopes(a.scopes, scopes)
  }

  function ReadCapabilities(list: seq<Capability>): seq<Capability> {
    seq(|list|, i requires 0 <= i < |list| => ReadCapability(list[i]))
  }

  function ReadScopes(list: seq<GovernanceScope>): seq<GovernanceScope> {
    seq(|list|, i requires 0 <= i < |list| => ReadScope(list[i]))
  }

  function ReadAuthorizations(list: seq<(string, seq<string>)>): seq<IssueAuthorization> {
    seq(|list|, i requires 0 <= i < |list| => ReadAuthorization(list[i]))
  }

  function Build(raw: RawGrant): Policy {
    Policy(raw.enabled, Writers(raw.writers), Strip(raw.requiredCapability), Strip(raw.baseRef),
           (set x | x in StripNonBlank(raw.forbiddenTargets)), Strip(raw.branchNamespace), raw.branchTemplate,
           KeepNonBlank(raw.allowed), KeepNonBlank(raw.prohibited), KeepNonBlank(raw.rootOfTrust),
           ReadCapabilities(raw.capabilities), ReadScopes(raw.governanceScopes), ReadAuthorizations(raw.authorizations))
  }

  /** The structural rules every accepted grant obeys. */
  ghost predicate WellFormed(p: Policy) {
    && p.requiredCapability != [] && p.baseRef != [] && p.allowed != []
    && CoveredBy(p.rootOfTrust, p.prohibited)
    && (forall i :: 0 <= i < |p.additional| ==> CapabilityFine(p.additional[i], p.requiredCapability, p.rootOfTrust))
    && (forall i :: 0 <= i < |p.governanceScopes| ==> ScopeFine(p.governanceScopes[i], p.rootOfTrust, p.additional))
    && (forall i :: 0 <= i < |p.authorizations| ==> AuthorizationFine(p.authorizations[i], p.governanceScopes))
    && (forall i, j :: 0 <= i < j < |p.authorizations| ==> p.authorizations[i].issue != p.authorizations[j].issue)
  }

  ghost predicate Readable(raw: RawGrant) {
    && !raw.claimsPushEquivalence && raw.requiresExactTip
    && WritersFine(raw.writers)
    && Strip(raw.branchNamespace) != [] && EndsWith(raw.branchNamespace, "/")
    && Contains(raw.branchTemplate, "{issue}") && Strip(raw.branchNamespace) <= raw.branchTemplate
    && WellFormed(Build(raw))
  }

  // ------------------------------------------------------------- the reader

  lemma {:induction false} FinePrefix(list: seq<(string, string)>, i: nat)
    requires i <= |list| && !WritersFine(list[..i])
    ensures !WritersFine(list)
    decreases |list| - i
  {
    hide Login, LoginForm, Strip, Writers;
    if i < |list| {
      assert list[..i + 1][..i] == list[..i];
      FinePrefix(list, i + 1);
    } else {
      assert list[..i] == list;
    }
  }

  method ReadWriters(list: seq<(string, string)>) returns (table: seq<(string, string)>, problem: Option<Problem>)
    ensures problem.None? <==> WritersFine(list)
    ensures problem.None? ==> table == Writers(list)
  {
    hide Login, LoginForm, Strip;
    table := [];
    for i := 0 to |list|
      invariant table == Writers(list[..i]) && WritersFine(list[..i])
    {
      assert list[..i + 1][..i] == list[..i];
      var login, capability := Login(list[i]), Strip(list[i].1);
      if login == [] {
        continue;
      }
      if !LoginForm(login) {
        FinePrefix(list, i + 1);
        return table, Some(BadLogin(login));
      }
      if (login, capability) in table {
        FinePrefix(list, i + 1);
        return table, Some(DuplicateWriter(login));
      }
      table := table + [(login, capability)];
    }
    assert list[..|list|] == list;
    problem := None;
  }

  method ReadCapabilityTable(raw: seq<Capability>, required: string, root: seq<string>)
    returns (table: seq<Capability>, problem: Option<Problem>)
    ensures problem.None? <==> forall i :: 0 <= i < |raw| ==> CapabilityFine(ReadCapabilities(raw)[i], required, root)
    ensures problem.None? ==> table == ReadCapabilities(raw)
  {
    hide ReadCapability, CoveredBy, Uncovered;
    table := [];
    ghost var all := ReadCapabilities(raw);
    for i := 0 to |raw|
      invariant table == all[..i] && forall k :: 0 <= k < i ==> CapabilityFine(all[k], required, root)
    {
      assert all[i] == ReadCapability(raw[i]);
      var c := ReadCapability(raw[i]);
      CoveredMeans(root, c.prohibited);
      if c.name == [] {
        return table, Some(UnnamedCapability);
      }
      if c.name == required {
        return table, Some(RedefinedCapability(c.name));
      }
      if c.allowed == [] {
        return table, Some(EmptyCapability(c.name));
      }
      var uncovered := Uncovered(root, c.prohibited);
      if uncovered != {} {
        return table, Some(RootOpenTo(c.name, uncovered));
      }
      table := table + [c];
    }
    problem := None;
  }

  method ScopeProblem(s: GovernanceScope, root: seq<string>, capabilities: seq<Capability>)
    returns (problem: Option<Problem>)
    ensures problem.None? <==> ScopeFine(s, root, capabilities)
  {
    hide ApartFromRoot, InBounds;
    if s.name == [] {
      return Some(UnnamedScope);
    }
    if s.unblocked == [] {
      return Some(EmptyScope(s.name));
    }
    for i := 0 to |s.unblocked|
      invariant forall k :: 0 <= k < i ==> ApartFromRoot(s.unblocked[k], root) && InBounds(s.unblocked[k], capabilities)
    {
      if !ApartFromRoot(s.unblocked[i], root) {
        return Some(ScopeOpensRoot(s.name, s.unblocked[i]));
      }
      if !InBounds(s.unblocked[i], capabilities) {
        return Some(ScopeOutOfBounds(s.name, s.unblocked[i]));
      }
    }
    problem := None;
  }

  method ReadScopeTable(raw: seq<GovernanceScope>, root: seq<string>, capabilities: seq<Capability>)
    returns (table: seq<GovernanceScope>, problem: Option<Problem>)
    ensures problem.None? <==> forall i :: 0 <= i < |raw| ==> ScopeFine(ReadScopes(raw)[i], root, capabilities)
    ensures problem.None? ==> table == ReadScopes(raw)
  {
    hide ReadScope, ScopeFine;
    table := [];
    ghost var all := ReadScopes(raw);
    for i := 0 to |raw|
      invariant table == all[..i] && forall k :: 0 <= k < i ==> ScopeFine(all[k], root, capabilities)
    {
      assert all[i] == ReadScope(raw[i]);
      problem := ScopeProblem(ReadScope(raw[i]), root, capabilities);
      if problem.Some? {
        return;
      }
      table := table + [ReadScope(raw[i])];
    }
    problem := None;
  }

  /** Fine, and no two entries for one Issue. */
  ghost predicate AuthorizationsFine(list: seq<IssueAuthorization>, scopes: seq<GovernanceScope>) {
    && (forall i :: 0 <= i < |list| ==> AuthorizationFine(list[i], scopes))
    && (forall i, j :: 0 <= i < j < |list| ==> list[i].issue != list[j].issue)
  }

  method ReadAuthorizationTable(raw: seq<(string, seq<string>)>, scopes: seq<GovernanceScope>)
    returns (table: seq<IssueAuthorization>, problem: Option<Problem>)
    ensures problem.None? <==> AuthorizationsFine(ReadAuthorizations(raw), scopes)
    ensures problem.None? ==> table == ReadAuthorizations(raw)
  {
    hide ReadAuthorization, IssueForm, KnownScopes;
    table := [];
    ghost var all := ReadAuthorizations(raw);
    for i := 0 to |raw|
      invariant table == all[..i] && AuthorizationsFine(table, scopes)
    {
      var a := ReadAuthorization(raw[i]);
      assert a == all[i];
      if !IssueForm(a.issue) {
        return table, Some(BadIssue);
      }
      if a.scopes == {} {
        return table, Some(EmptyAuthorization(a.issue));
      }
      if !KnownScopes(a.scopes, scopes) {
        return table, Some(UnknownScopes(a.issue));
      }
      if exists k :: 0 <= k < |table| && table[k].issue == a.issue {
        return table, Some(DuplicateIssue(a.issue));
      }
      table := table + [a];
    }
    assert all[..|raw|] == all;
    problem := None;
  }

  /** `parse_policy`: accepts exactly the readable grants, and what it then
      returns is well formed. */
  method ParsePolicy(raw: RawGrant) returns (reading: Reading)
    ensures reading.Accepted? <==> Readable(raw)
    ensures reading.Accepted? ==> reading.policy == Build(raw) && WellFormed(reading.policy)
  {
    hide Strip, KeepNonBlank, StripNonBlank, Contains, EndsWith, CoveredBy, Uncovered, WritersFine, Writers,
      ReadCapability, ReadScope, ReadAuthorization, CapabilityFine, ScopeFine, AuthorizationFine;
    if raw.claimsPushEquivalence {
      return Rejected(PushEquivalence);
    }
    if Strip(raw.requiredCapability) == [] {
      return Rejected(NoCapability);
    }
    var writers, problem := ReadWriters(raw.writers);
    if problem.Some? {
      return Rejected(problem.value);
    }
    if Strip(raw.baseRef) == [] {
      return Rejected(NoBase);
    }
    if Strip(raw.branchNamespace) == [] || !EndsWith(raw.branchNamespace, "/") {
      return Rejected(BadNamespace);
    }
    if !Contains(raw.branchTemplate, "{issue}") {
      return Rejected(UnboundTemplate);
    }
    if !(Strip(raw.branchNamespace) <= raw.branchTemplate) {
      return Rejected(TemplateOutsideNamespace);
    }
    var allowed, prohibited := KeepNonBlank(raw.allowed), KeepNonBlank(raw.prohibited);
    if allowed == [] {
      return Rejected(NoAllowedPaths);
    }
    if !raw.requiresExactTip {
      return Rejected(NoExactTip);
    }
    var root := KeepNonBlank(raw.rootOfTrust);
    CoveredMeans(root, prohibited);
    var uncovered := Uncovered(root, prohibited);
    if uncovered != {} {
      return Rejected(RootNotProhibited(uncovered));
    }
    var capabilities, scopes, authorizations;
    capabilities, problem := ReadCapabilityTable(raw.capabilities, Strip(raw.requiredCapability), root);
    if problem.Some? {
      return Rejected(problem.value);
    }
    scopes, problem := ReadScopeTable(raw.governanceScopes, root, capabilities);
    if problem.Some? {
      return Rejected(problem.value);
    }
    authorizations, problem := ReadAuthorizationTable(raw.authorizations, scopes);
    if problem.Some? {
      return Rejected(problem.value);
    }
    reading := Accepted(Policy(raw.enabled, writers, Strip(raw.requiredCapability), Strip(raw.baseRef),
                               (set x | x in StripNonBlank(raw.forbiddenTargets)), Strip(raw.branchNamespace),
                               raw.branchTemplate, allowed, prohibited, root, capabilities, scopes, authorizations));
  }

  // ------------------------------------------------------- the scope decision

  datatype ScopeDecision =
    | Clear
    | NoPaths
    | NotRelative(path: string)
    | RootOfTrust(paths: set<string>)
    | UndefinedCapability
    | Unauthorized(issue: string)
    | OutsideIssueScope(paths: set<string>)
    | Prohibited(paths: set<string>)
    | OutsideScope(paths: set<string>)

  function FirstAbsolute(paths: seq<string>): Option<string> {
    if paths == [] then None else if !Relative(paths[0]) then Some(paths[0]) else FirstAbsolute(paths[1..])
  }

  ghost function Blocked(p: Policy, scope: Capability, names: set<string>, paths: seq<string>): set<string> {
    set i | 0 <= i < |paths| && !PathInScope(p, scope, names, paths[i]) :: paths[i]
  }

  function OnFloor(p: Policy, paths: seq<string>): set<string> {
    set i | 0 <= i < |paths| && MatchesAny(paths[i], p.rootOfTrust) :: paths[i]
  }

  /** `check_scope`, branch by branch. */
  ghost function CheckScope(p: Policy, paths: seq<string>, capability: Option<string>, issue: string): ScopeDecision {
    if paths == [] || exists i :: 0 <= i < |paths| && Strip(paths[i]) == [] then NoPaths
    else if FirstAbsolute(paths).Some? then NotRelative(FirstAbsolute(paths).value)
    else
      if OnFloor(p, paths) != {} then RootOfTrust(OnFloor(p, paths))
      else
        var found := CapabilityScope(p, if capability.Some? then capability.value else p.requiredCapability);
        if found.None? then UndefinedCapability
        else if NamesInForce(p, found.value, issue).None? then Unauthorized(issue)
        else
          var blocked := Blocked(p, found.value, NamesInForce(p, found.value, issue).value, paths);
          if blocked == {} then Clear
          else if found.value.requiresIssue then OutsideIssueScope(blocked)
          else
            var shut := set x | x in blocked && MatchesAny(x, found.value.prohibited);
            if shut != {} then Prohibited(shut) else OutsideScope(blocked)
  }

  lemma {:induction false} AllRelative(paths: seq<string>)
    ensures FirstAbsolute(paths).None? <==> forall i :: 0 <= i < |paths| ==> Relative(paths[i])
  {
    if paths != [] {
      AllRelative(paths[1..]);
      assert forall i :: 0 < i < |paths| ==> paths[i] == paths[1..][i - 1];
      if FirstAbsolute(paths).None? {
        forall i | 0 <= i < |paths| ensures Relative(paths[i]) {}
      }
    }
  }

  lemma NothingListed(p: Policy, scope: Capability, names: set<string>, paths: seq<string>)
    ensures OnFloor(p, paths) == {} <==> forall i :: 0 <= i < |paths| ==> !MatchesAny(paths[i], p.rootOfTrust)
    ensures Blocked(p, scope, names, paths) == {} <==>
            forall i :: 0 <= i < |paths| ==> PathInScope(p, scope, names, paths[i])
  {
    hide PathInScope, MatchesAny;
    forall i | 0 <= i < |paths| && !PathInScope(p, scope, names, paths[i])
      ensures paths[i] in Blocked(p, scope, names, paths) {}
    forall i | 0 <= i < |paths| && MatchesAny(paths[i], p.rootOfTrust)
      ensures paths[i] in OnFloor(p, paths) {}
  }

  /** The scope check clears a request exactly when every path is relative, off
      the floor, and in the capability's scope for that Issue. */
  lemma ClearMeans(p: Policy, paths: seq<string>, capability: string, issue: string)
    ensures CheckScope(p, paths, Some(capability), issue).Clear? <==> ScopeAccepts(p, paths, capability, issue)
  {
    hide Strip, Relative, PathInScope, CapabilityScope, NamesInForce, MatchesAny, OnFloor, Blocked, FirstAbsolute;
    AllRelative(paths);
    var found := CapabilityScope(p, capability);
    var scope := if found.Some? then found.value else Ordinary(p);
    var names := NamesInForce(p, scope, issue);
    NothingListed(p, scope, if names.Some? then names.value else {}, paths);
  }

  // -------------------------------------------- when the floor is redundant

  /** Comparing texts is sound for what the grant prohibits, and its floor and
      its unblocked paths are plain entries. */
  ghost predicate PlainFloor(p: Policy) {
    && SoundClosing(p) && AllPlain(p.rootOfTrust)
    && forall i :: 0 <= i < |p.governanceScopes| ==> AllPlain(p.governanceScopes[i].unblocked)
  }

  /** The overlap test on stripped texts. */
  predicate ApartFromFloor(p: Policy, scope: GovernanceScope) {
    forall u, r :: u in scope.unblocked && r in p.rootOfTrust ==> !Overlap(Strip(u), Strip(r))
  }

  /** No scope that a look-up finds holds an entry that overlaps the floor. */
  predicate FloorApart(p: Policy) {
    forall i :: 0 <= i < |p.governanceScopes| ==> ApartFromFloor(p, FirstScope(p, i))
  }

  lemma ListedEntry(path: string, list: seq<string>) returns (e: string)
    requires MatchesAny(path, list)
    ensures e in list && Matches(path, e)
  {
    var i :| 0 <= i < |list| && Matches(path, list[i]);
    e := list[i];
  }

  lemma EntryListed(path: string, list: seq<string>, e: string)
    requires e in list && Matches(path, e)
    ensures MatchesAny(path, list)
  {
    var i :| 0 <= i < |list| && list[i] == e;
  }

  lemma PlainEntry(list: seq<string>, e: string)
    requires AllPlain(list) && e in list
    ensures Plain(e)
  {
  }

  lemma FoundScope(p: Policy, name: string)
    requires FindScope(p.governanceScopes, name).Some?
    ensures exists i :: 0 <= i < |p.governanceScopes| && FirstScope(p, i) == FindScope(p.governanceScopes, name).value
    ensures PlainFloor(p) ==> AllPlain(FindScope(p.governanceScopes, name).value.unblocked)
  {
    hide AllPlain;
    ScopeIn(p.governanceScopes, name);
    var i :| 0 <= i < |p.governanceScopes| && p.governanceScopes[i] == FindScope(p.governanceScopes, name).value;
    assert FirstScope(p, i) == FindScope(p.governanceScopes, name).value;
  }

  lemma RootProhibited(path: string, root: seq<string>, prohibited: seq<string>)
    requires CoveredBy(root, prohibited) && Compares(prohibited) && MatchesAny(path, root)
    ensures MatchesAny(path, prohibited)
  {
    hide Matches;
    var i :| 0 <= i < |root| && Matches(path, root[i]);
  }

  /** In particular with plain prohibitions. */
  lemma PlainRootProhibited(path: string, root: seq<string>, prohibited: seq<string>)
    requires CoveredBy(root, prohibited) && AllPlain(prohibited) && MatchesAny(path, root)
    ensures MatchesAny(path, prohibited)
  {
    hide Matches, Plain;
    PlainCompares(prohibited);
    RootProhibited(path, root, prohibited);
  }

  lemma RootNeverUnblocked(p: Policy, names: set<string>, path: string)
    requires PlainFloor(p) && FloorApart(p) && MatchesAny(path, p.rootOfTrust)
    ensures !Unblocked(p, names, path)
  {
    hide Matches, Plain, Strip, FindScope, FirstScope, MatchesAny, AllPlain, Overlap;
    if Unblocked(p, names, path) {
      var name :| name in names && UnblockedBy(p, name, path);
      FoundScope(p, name);
      var scope := FindScope(p.governanceScopes, name).value;
      var u := ListedEntry(path, scope.unblocked);
      var r := ListedEntry(path, p.rootOfTrust);
      PlainEntry(scope.unblocked, u);
      PlainEntry(p.rootOfTrust, r);
      assert !Overlap(Strip(u), Strip(r)) by {
        assert ApartFromFloor(p, scope);
      }
      CommonPath(u, r);
      assert false;
    }
  }

  lemma OverlapUnblocked(p: Policy, i: nat, u: string, r: string)
    requires PlainFloor(p) && i < |p.governanceScopes|
    requires u in FirstScope(p, i).unblocked && r in p.rootOfTrust && Overlap(Strip(u), Strip(r))
    ensures exists names, path :: MatchesAny(path, p.rootOfTrust) && Unblocked(p, names, path)
  {
    hide Matches, Plain, Strip, FindScope, MatchesAny, AllPlain, Overlap;
    var name := p.governanceScopes[i].name;
    ScopeFound(p.governanceScopes, i);
    FoundScope(p, name);
    PlainEntry(FirstScope(p, i).unblocked, u);
    PlainEntry(p.rootOfTrust, r);
    CommonPath(u, r);
    var path :| Matches(path, u) && Matches(path, r);
    EntryListed(path, FirstScope(p, i).unblocked, u);
    EntryListed(path, p.rootOfTrust, r);
    assert name in {name} && UnblockedBy(p, name, path);
    assert Unblocked(p, {name}, path);
  }

  /** No floor path is ever unblocked exactly when every unblocked entry that a
      look-up finds is apart from every stripped root entry. */
  lemma FloorUnblockedExactly(p: Policy)
    requires PlainFloor(p)
    ensures (forall names, path :: MatchesAny(path, p.rootOfTrust) ==> !Unblocked(p, names, path)) <==> FloorApart(p)
  {
    hide PlainFloor, Unblocked, MatchesAny, Overlap, FirstScope, Strip;
    if FloorApart(p) {
      forall names, path | MatchesAny(path, p.rootOfTrust) ensures !Unblocked(p, names, path) {
        RootNeverUnblocked(p, names, path);
      }
    } else {
      var i :| 0 <= i < |p.governanceScopes| && !ApartFromFloor(p, FirstScope(p, i));
      var u, r :| u in FirstScope(p, i).unblocked && r in p.rootOfTrust && Overlap(Strip(u), Strip(r));
      OverlapUnblocked(p, i, u, r);
    }
  }

  /** The reader's own test gives this condition when no root entry carries
      surrounding white space; unblocked entries never do once read. */
  lemma TidyFloorApart(p: Policy)
    requires WellFormed(p) && Tidy(p.rootOfTrust)
    requires forall i :: 0 <= i < |p.governanceScopes| ==> Tidy(p.governanceScopes[i].unblocked)
    ensures FloorApart(p)
  {
    hide Overlap, Trimmed, Strip, InBounds, CoveredBy, CapabilityFine, AuthorizationFine;
    forall i | 0 <= i < |p.governanceScopes| ensures ApartFromFloor(p, FirstScope(p, i)) {
      ScopeFound(p.governanceScopes, i);
      ScopeIn(p.governanceScopes, p.governanceScopes[i].name);
      var scope := FirstScope(p, i);
      forall u, r | u in scope.unblocked && r in p.rootOfTrust ensures !Overlap(Strip(u), Strip(r)) {
        var k :| 0 <= k < |scope.unblocked| && scope.unblocked[k] == u;
        var j :| 0 <= j < |p.rootOfTrust| && p.rootOfTrust[j] == r;
        assert ApartFromRoot(u, p.rootOfTrust) && Strip(u) == u && Strip(r) == r;
      }
    }
  }

  lemma ReadUnblockedTidy(raw: RawGrant)
    ensures forall i :: 0 <= i < |Build(raw).governanceScopes| ==> Tidy(Build(raw).governanceScopes[i].unblocked)
  {
    hide Trimmed, Tidy, ReadScope, Writers, StripNonBlank, KeepNonBlank, Strip, ReadCapability, ReadAuthorization;
    forall i | 0 <= i < |Build(raw).governanceScopes| ensures Tidy(Build(raw).governanceScopes[i].unblocked) {
      ReadScopeTidy(raw.governanceScopes[i]);
    }
  }

  lemma ReadScopeTidy(s: GovernanceScope)
    ensures Tidy(ReadScope(s).unblocked)
  {
    hide Trimmed, StripNonBlank, Strip;
    var list := ReadScope(s).unblocked;
    forall i | 0 <= i < |list| ensures list[i] != [] && Trimmed(list[i]) {
      assert list[i] in StripNonBlank(s.unblocked);
    }
  }

  /** So a document that is accepted and writes its floor without surrounding white
      space gives a grant whose found scopes are apart from the floor. */
  lemma ReadFloorApart(raw: RawGrant)
    requires Readable(raw) && Tidy(Build(raw).rootOfTrust)
    ensures FloorApart(Build(raw))
  {
    hide Build, WellFormed, Tidy, FloorApart;
    ReadUnblockedTidy(raw);
    TidyFloorApart(Build(raw));
  }

  /** Where the grant lets an Issue scope down to the floor: entries of a found
      scope of an authorized Issue, of the floor, and of the allowed list of a
      capability that wants an Issue, one of whose texts is a path of all three. */
  ghost predicate Reaches(p: Policy, capability: string, issue: string, name: string, u: string, r: string, a: string) {
    && Granted(p, capability) && CapabilityScope(p, capability).value.requiresIssue
    && ScopesForIssue(p.authorizations, issue).Some? && name in ScopesForIssue(p.authorizations, issue).value
    && FindScope(p.governanceScopes, name).Some?
    && u in FindScope(p.governanceScopes, name).value.unblocked
    && r in p.rootOfTrust && a in CapabilityScope(p, capability).value.allowed
    && Meet(u, r, a)
  }

  ghost predicate FloorReached(p: Policy) {
    exists capability, issue, name, u, r, a :: Reaches(p, capability, issue, name, u, r, a)
  }

  lemma PlainReach(p: Policy, capability: string, name: string, u: string, r: string, a: string)
    requires PlainFloor(p) && PlainOpening(p)
    requires Granted(p, capability) && a in CapabilityScope(p, capability).value.allowed
    requires FindScope(p.governanceScopes, name).Some?
    requires u in FindScope(p.governanceScopes, name).value.unblocked && r in p.rootOfTrust
    ensures Plain(u) && Plain(r) && Plain(a)
  {
    hide AllPlain, Plain, FindScope, SoundClosing;
    FoundScope(p, name);
    PlainEntry(FindScope(p.governanceScopes, name).value.unblocked, u);
    PlainEntry(p.rootOfTrust, r);
    if capability != p.requiredCapability {
      CapabilityIn(p.additional, capability);
    }
    PlainEntry(CapabilityScope(p, capability).value.allowed, a);
  }

  /** A floor path that the rest of the check lets through is reached so. */
  lemma AcceptedReached(p: Policy, paths: seq<string>, capability: string, issue: string, i: nat)
    requires WellFormed(p) && PlainFloor(p) && PlainOpening(p)
    requires AcceptedBelowFloor(p, paths, capability, issue)
    requires i < |paths| && MatchesAny(paths[i], p.rootOfTrust)
    ensures FloorReached(p)
  {
    hide Matches, Plain, Strip, FindScope, MatchesAny, AllPlain, Relative, SoundClosing, CoveredBy, Compares;
    var path, scope := paths[i], CapabilityScope(p, capability).value;
    FloorProhibited(p, capability, path);
    var names := NamesInForce(p, scope, issue).value;
    assert PathInScope(p, scope, names, path);
    var name :| name in names && UnblockedBy(p, name, path);
    var u := ListedEntry(path, FindScope(p.governanceScopes, name).value.unblocked);
    var r := ListedEntry(path, p.rootOfTrust);
    var a := ListedEntry(path, scope.allowed);
    PlainReach(p, capability, name, u, r, a);
    MeetExactly(u, r, a);
    assert InAll(path, u, r, a);
    assert Reaches(p, capability, issue, name, u, r, a);
  }

  lemma FloorProhibited(p: Policy, capability: string, path: string)
    requires WellFormed(p) && SoundClosing(p) && Granted(p, capability) && MatchesAny(path, p.rootOfTrust)
    ensures MatchesAny(path, CapabilityScope(p, capability).value.prohibited)
  {
    hide MatchesAny, Compares, CoveredBy;
    if capability != p.requiredCapability {
      CapabilityIn(p.additional, capability);
    }
    RootProhibited(path, p.rootOfTrust, CapabilityScope(p, capability).value.prohibited);
  }

  lemma ReachedAccepted(p: Policy, capability: string, issue: string, name: string, u: string, r: string, a: string)
    requires PlainFloor(p) && PlainOpening(p) && Reaches(p, capability, issue, name, u, r, a)
    ensures exists path :: AcceptedBelowFloor(p, [path], capability, issue) && MatchesAny(path, p.rootOfTrust)
  {
    hide Matches, Plain, Strip, FindScope, MatchesAny, AllPlain, Relative, Meet, CapabilityScope, PlainFloor,
      PlainOpening;
    PlainReach(p, capability, name, u, r, a);
    MeetExactly(u, r, a);
    var path :| InAll(path, u, r, a);
    EntryListed(path, FindScope(p.governanceScopes, name).value.unblocked, u);
    EntryListed(path, p.rootOfTrust, r);
    EntryListed(path, CapabilityScope(p, capability).value.allowed, a);
    assert UnblockedBy(p, name, path);
    assert [path][0] == path;
  }

  /** The explicit floor test never changes a decision exactly when no Issue
      scope reaches the floor. */
  lemma FloorRedundantExactly(p: Policy)
    requires WellFormed(p) && PlainFloor(p) && PlainOpening(p)
    ensures (forall paths, capability, issue ::
               AcceptedBelowFloor(p, paths, capability, issue) <==> ScopeAccepts(p, paths, capability, issue))
            <==> !FloorReached(p)
  {
    hide WellFormed, PlainFloor, PlainOpening, AcceptedBelowFloor, MatchesAny, Reaches;
    if FloorReached(p) {
      var capability, issue, name, u, r, a :| Reaches(p, capability, issue, name, u, r, a);
      ReachedAccepted(p, capability, issue, name, u, r, a);
      var path :| AcceptedBelowFloor(p, [path], capability, issue) && MatchesAny(path, p.rootOfTrust);
      assert [path][0] == path;
      assert !ScopeAccepts(p, [path], capability, issue);
    } else {
      forall paths, capability, issue | AcceptedBelowFloor(p, paths, capability, issue)
        ensures ScopeAccepts(p, paths, capability, issue)
      {
        forall i | 0 <= i < |paths| ensures !MatchesAny(paths[i], p.rootOfTrust) {
          if MatchesAny(paths[i], p.rootOfTrust) {
            AcceptedReached(p, paths, capability, issue, i);
          }
        }
      }
    }
  }

  /** In particular the test is redundant when found scopes are apart from the
      floor: no capability and no Issue authorization puts a root-of-trust path
      in scope. This asks nothing of the allowed lists. */
  lemma FloorRedundant(p: Policy, paths: seq<string>, capability: string, issue: string)
    requires WellFormed(p) && PlainFloor(p) && FloorApart(p)
    ensures AcceptedBelowFloor(p, paths, capability, issue) <==> ScopeAccepts(p, paths, capability, issue)
  {
    hide Strip, Relative, MatchesAny, Unblocked, PlainFloor, FloorApart, WellFormed, CapabilityScope;
    if AcceptedBelowFloor(p, paths, capability, issue) {
      var scope := CapabilityScope(p, capability).value;
      forall i | 0 <= i < |paths| ensures !MatchesAny(paths[i], p.rootOfTrust) {
        if MatchesAny(paths[i], p.rootOfTrust) {
          FloorClosed(p);
          FloorProhibited(p, capability, paths[i]);
          RootNeverUnblocked(p, NamesInForce(p, scope, issue).value, paths[i]);
        }
      }
    }
  }

  /** The same of documents: whatever is accepted, with a tidy floor and plain
      entries, refuses no request on account of the floor test alone. */
  lemma ReadFloorRedundant(raw: RawGrant, paths: seq<string>, capability: string, issue: string)
    requires Readable(raw) && Tidy(Build(raw).rootOfTrust) && PlainFloor(Build(raw))
    ensures AcceptedBelowFloor(Build(raw), paths, capability, issue)
            <==> ScopeAccepts(Build(raw), paths, capability, issue)
  {
    hide Build, WellFormed, Tidy, FloorApart, PlainFloor, AcceptedBelowFloor, ScopeAccepts;
    ReadFloorApart(raw);
    FloorRedundant(Build(raw), paths, capability, issue);
  }

  lemma FloorClosed(p: Policy)
    requires PlainFloor(p)
    ensures SoundClosing(p)
  {
  }

  lemma DirectoryAndFile(dir: string, file: string)
    requires LiteralForm(dir) && dir[|dir| - 1] != '/' && dir[0] != ' '
    requires dir + "/" <= file && LiteralForm(file) && file[|file| - 1] != '/'
    ensures LiteralForm(dir + "/") && InScope(file, dir + "/") && InScope(file, file)
    ensures !InScope(dir + "/", file) && !InScope(" " + file, dir + "/")
  {
    hide InScope;
    var open, root := dir + "/", " " + file;
    assert Literal(open);
    assert DropTail(open, '/') == dir by { assert open[..|open| - 1] == dir; }
    assert DropTail(file, '/') == file;
    LiteralScope(open, file);
    LiteralScope(root, open);
    LiteralScope(file, open);
    LiteralScope(file, file);
    assert root[0] == ' ' && open[0] == dir[0];
    assert |file| > |dir| + 1 by { assert file[|dir|] == '/'; }
  }

  /** Why the floor entries must be tidy: with a leading space in the root entry
      the overlap test compares different texts and finds the directory above a
      protected file apart from the floor, although both scopes hold the file. */
  lemma UntidyRootOverlooked(dir: string, file: string)
    requires LiteralForm(dir) && !IsSpace(dir[0]) && dir[|dir| - 1] != '/'
    requires dir + "/" <= file && LiteralForm(file) && Trimmed(file) && file[|file| - 1] != '/'
    ensures !Overlap(dir + "/", " " + file)
    ensures Matches(file, dir + "/") && Matches(file, " " + file)
  {
    hide InScope, Literal;
    LeadingSpaceStripped(file);
    DirectoryAndFile(dir, file);
    assert Strip(dir + "/") == dir + "/";
  }
}
