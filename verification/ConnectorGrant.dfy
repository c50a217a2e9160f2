/** The connector write grant: scope evaluation, and the comparison of the
    trusted grant with the one at a candidate's own head. */
module ConnectorGrant {
  import opened Text
  import opened ScopeEntries

  datatype Capability = Capability(name: string, allowed: seq<string>, prohibited: seq<string>, requiresIssue: bool)

  datatype GovernanceScope = GovernanceScope(name: string, unblocked: seq<string>)

  datatype IssueAuthorization = IssueAuthorization(issue: string, scopes: set<string>)

  datatype Policy = Policy(
    enabled: bool,
    writers: seq<(string, string)>,
    requiredCapability: string,
    baseRef: string,
    forbiddenTargets: set<string>,
    branchNamespace: string,
    branchTemplate: string,
    allowed: seq<string>,
    prohibited: seq<string>,
    rootOfTrust: seq<string>,
    additional: seq<Capability>,
    governanceScopes: seq<GovernanceScope>,
    authorizations: seq<IssueAuthorization>)

  // ------------------------------------------------------------ grant lookup

  function FindCapability(list: seq<Capability>, name: string): Option<Capability> {
    if list == [] then None
    else if list[0].name == name then Some(list[0])
    else FindCapability(list[1..], name)
  }

  /** The ordinary capability is synthesised from the grant's own lists. */
  function Ordinary(p: Policy): Capability {
    Capability(p.requiredCapability, p.allowed, p.prohibited, false)
  }

  function CapabilityScope(p: Policy, name: string): Option<Capability> {
    if name == p.requiredCapability then Some(Ordinary(p)) else FindCapability(p.additional, name)
  }

  function FindScope(list: seq<GovernanceScope>, name: string): Option<GovernanceScope> {
    if list == [] then None
    else if list[0].name == name then Some(list[0])
    else FindScope(list[1..], name)
  }

  function ScopesForIssue(list: seq<IssueAuthorization>, issue: string): Option<set<string>> {
    if list == [] then None
    else if list[0].issue == issue then Some(list[0].scopes)
    else ScopesForIssue(list[1..], issue)
  }

  /** Some authorized scope name opens the path. */
  ghost predicate Unblocked(p: Policy, names: set<string>, path: string) {
    exists name :: name in names && UnblockedBy(p, name, path)
  }

  predicate UnblockedBy(p: Policy, name: string, path: string) {
    FindScope(p.governanceScopes, name).Some? && MatchesAny(path, FindScope(p.governanceScopes, name).value.unblocked)
  }

  // -------------------------------------------------------- scope evaluation

  /** A `..` component at position `i`. */
  predicate ParentPartAt(path: string, i: nat) {
    && i + 2 <= |path| && path[i..i + 2] == ".."
    && (i == 0 || path[i - 1] == '/') && (i + 2 == |path| || path[i + 2] == '/')
  }

  predicate ParentPart(path: string) {
    exists i :: 0 <= i < |path| && ParentPartAt(path, i)
  }

  predicate Relative(path: string) {
    !("/" <= path) && !ParentPart(path)
  }

  predicate Parted(path: string, front: string, part: string, back: string) {
    && path == front + part + back && '/' !in part
    && (front == [] || front[|front| - 1] == '/') && (back == [] || back[0] == '/')
  }

  /** A part of the path between two slashes or its ends. */
  ghost predicate Component(path: string, part: string) {
    exists front, back :: Parted(path, front, part, back)
  }

  /** Relative are the paths that do not start with a slash and have no component `..`. */
  lemma RelativeExactly(path: string)
    ensures Relative(path) <==> !("/" <= path) && !Component(path, "..")
  {
    if ParentPart(path) {
      var i :| 0 <= i < |path| && ParentPartAt(path, i);
      assert Parted(path, path[..i], "..", path[i + 2..]);
    }
    if Component(path, "..") {
      var front, back :| Parted(path, front, "..", back);
      assert path[|front|..|front| + 2] == "..";
      assert back != [] ==> path[|front| + 2] == back[0];
      assert front != [] ==> path[|front| - 1] == front[|front| - 1];
      assert ParentPartAt(path, |front|);
    }
  }

  /** `in_scope`: the allowed paths bound the capability; inside them a path is
      open when an authorized scope unblocks it or no prohibition shuts it. */
  ghost predicate PathInScope(p: Policy, scope: Capability, names: set<string>, path: string) {
    MatchesAny(path, scope.allowed) && (Unblocked(p, names, path) || !MatchesAny(path, scope.prohibited))
  }

  /** The scope names in force; none means the Issue is not authorized at all. */
  function NamesInForce(p: Policy, scope: Capability, issue: string): Option<set<string>> {
    if scope.requiresIssue then ScopesForIssue(p.authorizations, issue) else Some({})
  }

  /** `check_scope` returned no reason, but with its root-of-trust test removed. */
  ghost predicate AcceptedBelowFloor(p: Policy, paths: seq<string>, capability: string, issue: string) {
    && paths != []
    && (forall i :: 0 <= i < |paths| ==> Strip(paths[i]) != [] && Relative(paths[i]))
    && CapabilityScope(p, capability).Some?
    && var scope := CapabilityScope(p, capability).value;
    && NamesInForce(p, scope, issue).Some?
    && forall i :: 0 <= i < |paths| ==> PathInScope(p, scope, NamesInForce(p, scope, issue).value, paths[i])
  }

  /** `check_scope` returns the empty reason. */
  ghost predicate ScopeAccepts(p: Policy, paths: seq<string>, capability: string, issue: string) {
    && (forall i :: 0 <= i < |paths| ==> !MatchesAny(paths[i], p.rootOfTrust))
    && AcceptedBelowFloor(p, paths, capability, issue)
  }

  /** The writer table and the scope check together. */
  ghost predicate Grants(p: Policy, writer: string, capability: string, issue: string, paths: seq<string>) {
    p.enabled && (writer, capability) in p.writers && ScopeAccepts(p, paths, capability, issue)
  }

  // ------------------------------------------------------------- widening

  datatype Reason =
    | ActivatesIngress
    | AddsWriter(login: string, capability: string)
    | AddsCapability(name: string)
    | WidensAllowed(name: string, entries: set<string>)
    | DropsProhibitions(name: string, entries: set<string>)
    | DropsIssueRequirement(name: string)
    | DropsRootOfTrust(entries: set<string>)
    | AddsScope(name: string)
    | WidensScope(name: string, entries: set<string>)
    | AuthorizesIssue(issue: string)
    | WidensIssue(issue: string, scopes: set<string>)

  /** The entries whose text no entry of `existing` matches. */
  function Uncovered(entries: seq<string>, existing: seq<string>): set<string> {
    set i | 0 <= i < |entries| && !MatchesAny(entries[i], existing) :: entries[i]
  }

  /** Every entry's text is matched by some entry of `existing`. */
  predicate CoveredBy(entries: seq<string>, existing: seq<string>) {
    forall i :: 0 <= i < |entries| ==> MatchesAny(entries[i], existing)
  }

  lemma CoveredMeans(entries: seq<string>, existing: seq<string>)
    ensures CoveredBy(entries, existing) <==> Uncovered(entries, existing) == {}
  {
    forall i | 0 <= i < |entries| {
      CoveredOrListed(entries, existing, i);
    }
  }

  predicate Granted(p: Policy, name: string) {
    CapabilityScope(p, name).Some?
  }

  /** What each reason claims about the two grants. */
  predicate Holds(trusted: Policy, candidate: Policy, reason: Reason) {
    match reason
    case ActivatesIngress => candidate.enabled && !trusted.enabled
    case AddsWriter(login, capability) =>
      (login, capability) in candidate.writers && (login, capability) !in trusted.writers
    case AddsCapability(name) => Granted(candidate, name) && !Granted(trusted, name)
    case WidensAllowed(name, entries) =>
      && Granted(candidate, name) && Granted(trusted, name) && entries != {}
      && entries == Uncovered(CapabilityScope(candidate, name).value.allowed,
                              CapabilityScope(trusted, name).value.allowed)
    case DropsProhibitions(name, entries) =>
      && Granted(candidate, name) && Granted(trusted, name) && entries != {}
      && entries == Uncovered(CapabilityScope(trusted, name).value.prohibited,
                              CapabilityScope(candidate, name).value.prohibited)
    case DropsIssueRequirement(name) =>
      && Granted(candidate, name) && Granted(trusted, name)
      && CapabilityScope(trusted, name).value.requiresIssue && !CapabilityScope(candidate, name).value.requiresIssue
    case DropsRootOfTrust(entries) =>
      entries != {} && entries == Uncovered(trusted.rootOfTrust, candidate.rootOfTrust)
    case AddsScope(name) =>
      FindScope(trusted.governanceScopes, name).None?
      && exists i :: 0 <= i < |candidate.governanceScopes| && candidate.governanceScopes[i].name == name
    case WidensScope(name, entries) =>
      && entries != {} && FindScope(trusted.governanceScopes, name).Some?
      && exists i :: 0 <= i < |candidate.governanceScopes| && candidate.governanceScopes[i].name == name
                     && entries == Uncovered(candidate.governanceScopes[i].unblocked,
                                             FindScope(trusted.governanceScopes, name).value.unblocked)
    case AuthorizesIssue(issue) =>
      ScopesForIssue(trusted.authorizations, issue).None?
      && exists i :: 0 <= i < |candidate.authorizations| && candidate.authorizations[i].issue == issue
    case WidensIssue(issue, scopes) =>
      && scopes != {} && ScopesForIssue(trusted.authorizations, issue).Some?
      && exists i :: 0 <= i < |candidate.authorizations| && candidate.authorizations[i].issue == issue
                     && scopes == candidate.authorizations[i].scopes
                                  - ScopesForIssue(trusted.authorizations, issue).value
  }

  ghost predicate NoWidening(trusted: Policy, candidate: Policy) {
    forall reason :: !Holds(trusted, candidate, reason)
  }

  function CapabilityNames(list: seq<Capability>): seq<string> {
    seq(|list|, i requires 0 <= i < |list| => list[i].name)
  }

  lemma {:induction false} FoundByName(list: seq<Capability>, name: string)
    ensures FindCapability(list, name).Some? <==> name in CapabilityNames(list)
  {
    if list != [] {
      FoundByName(list[1..], name);
      assert CapabilityNames(list) == [list[0].name] + CapabilityNames(list[1..]);
    }
  }

  lemma GrantedByName(p: Policy, name: string)
    ensures Granted(p, name) <==> name in [p.requiredCapability] + CapabilityNames(p.additional)
  {
    FoundByName(p.additional, name);
  }

  /** Which reasons the pass over one capability, one governance scope or one
      Issue authorization of the candidate is responsible for. */
  predicate AboutCapability(reason: Reason, name: string) {
    (reason.AddsCapability? || reason.WidensAllowed? || reason.DropsProhibitions? || reason.DropsIssueRequirement?)
    && reason.name == name
  }

  predicate ScopeReason(trusted: Policy, scope: GovernanceScope, reason: Reason) {
    match FindScope(trusted.governanceScopes, scope.name)
    case None => reason == AddsScope(scope.name)
    case Some(existing) =>
      reason.WidensScope? && reason.name == scope.name && reason.entries != {}
      && reason.entries == Uncovered(scope.unblocked, existing.unblocked)
  }

  predicate IssueReason(trusted: Policy, entry: IssueAuthorization, reason: Reason) {
    match ScopesForIssue(trusted.authorizations, entry.issue)
    case None => reason == AuthorizesIssue(entry.issue)
    case Some(existing) =>
      reason.WidensIssue? && reason.issue == entry.issue && reason.scopes != {}
      && reason.scopes == entry.scopes - existing
  }

  method CompareCapability(trusted: Policy, candidate: Policy, name: string) returns (reasons: set<Reason>)
    requires Granted(candidate, name)
    ensures forall r :: r in reasons <==> AboutCapability(r, name) && Holds(trusted, candidate, r)
  {
    if !Granted(trusted, name) {
      return {AddsCapability(name)};
    }
    reasons := {};
    var newScope, oldScope := CapabilityScope(candidate, name).value, CapabilityScope(trusted, name).value;
    var added := Uncovered(newScope.allowed, oldScope.allowed);
    if added != {} {
      reasons := reasons + {WidensAllowed(name, added)};
    }
    var dropped := Uncovered(oldScope.prohibited, newScope.prohibited);
    if dropped != {} {
      reasons := reasons + {DropsProhibitions(name, dropped)};
    }
    if oldScope.requiresIssue && !newScope.requiresIssue {
      reasons := reasons + {DropsIssueRequirement(name)};
    }
  }

  method CompareScopes(trusted: Policy, candidate: Policy) returns (reasons: set<Reason>)
    ensures forall r :: r in reasons <==> (r.AddsScope? || r.WidensScope?) && Holds(trusted, candidate, r)
  {
    reasons := {};
    var list := candidate.governanceScopes;
    for i := 0 to |list|
      invariant forall r :: r in reasons <==> exists k :: 0 <= k < i && ScopeReason(trusted, list[k], r)
    {
      var existing := FindScope(trusted.governanceScopes, list[i].name);
      if existing.None? {
        reasons := reasons + {AddsScope(list[i].name)};
        continue;
      }
      var added := Uncovered(list[i].unblocked, existing.value.unblocked);
      if added != {} {
        reasons := reasons + {WidensScope(list[i].name, added)};
      }
    }
  }

  method CompareIssues(trusted: Policy, candidate: Policy) returns (reasons: set<Reason>)
    ensures forall r :: r in reasons <==> (r.AuthorizesIssue? || r.WidensIssue?) && Holds(trusted, candidate, r)
  {
    reasons := {};
    var list := candidate.authorizations;
    for i := 0 to |list|
      invariant forall r :: r in reasons <==> exists k :: 0 <= k < i && IssueReason(trusted, list[k], r)
    {
      var existing := ScopesForIssue(trusted.authorizations, list[i].issue);
      if existing.None? {
        reasons := reasons + {AuthorizesIssue(list[i].issue)};
        continue;
      }
      var added := list[i].scopes - existing.value;
      if added != {} {
        reasons := reasons + {WidensIssue(list[i].issue, added)};
      }
    }
  }

  method CompareCapabilities(trusted: Policy, candidate: Policy) returns (reasons: set<Reason>)
    ensures forall r :: r in reasons <==>
                        (r.AddsCapability? || r.WidensAllowed? || r.DropsProhibitions? || r.DropsIssueRequirement?)
                        && Holds(trusted, candidate, r)
  {
    reasons := {};
    var names := [candidate.requiredCapability] + CapabilityNames(candidate.additional);
    for i := 0 to |names|
      invariant forall r :: r in reasons <==>
                            exists k :: 0 <= k < i && AboutCapability(r, names[k]) && Holds(trusted, candidate, r)
    {
      GrantedByName(candidate, names[i]);
      var more := CompareCapability(trusted, candidate, names[i]);
      reasons := reasons + more;
    }
    forall r | Holds(trusted, candidate, r)
               && (r.AddsCapability? || r.WidensAllowed? || r.DropsProhibitions? || r.DropsIssueRequirement?)
      ensures r in reasons
    {
      GrantedByName(candidate, r.name);
      var k :| 0 <= k < |names| && names[k] == r.name;
      assert AboutCapability(r, names[k]);
    }
  }

  /** `grant_widening` reports exactly the widenings there are. */
  method GrantWidening(trusted: Policy, candidate: Policy) returns (reasons: set<Reason>)
    ensures forall r :: r in reasons <==> Holds(trusted, candidate, r)
    ensures reasons == {} <==> NoWidening(trusted, candidate)
  {
    reasons := {};
    if candidate.enabled && !trusted.enabled {
      reasons := {ActivatesIngress};
    }
    var writers := set w | w in candidate.writers && w !in trusted.writers :: AddsWriter(w.0, w.1);
    var capabilities := CompareCapabilities(trusted, candidate);
    reasons := reasons + writers + capabilities;
    var dropped := Uncovered(trusted.rootOfTrust, candidate.rootOfTrust);
    if dropped != {} {
      reasons := reasons + {DropsRootOfTrust(dropped)};
    }
    var scopes := CompareScopes(trusted, candidate);
    var issues := CompareIssues(trusted, candidate);
    reasons := reasons + scopes + issues;
  }

  // ----------------------------------------------- what "no widening" means

  /** Comparing texts is sound for every list of the grant that opens paths. */
  ghost predicate SoundOpening(p: Policy) {
    && Compares(p.allowed)
    && (forall i :: 0 <= i < |p.additional| ==> Compares(p.additional[i].allowed))
    && (forall i :: 0 <= i < |p.governanceScopes| ==> Compares(p.governanceScopes[i].unblocked))
  }

  /** Comparing texts is sound for every list of the grant that closes paths. */
  ghost predicate SoundClosing(p: Policy) {
    && Compares(p.prohibited) && Compares(p.rootOfTrust)
    && (forall i :: 0 <= i < |p.additional| ==> Compares(p.additional[i].prohibited))
  }

  predicate PlainOpening(p: Policy) {
    && AllPlain(p.allowed)
    && (forall i :: 0 <= i < |p.additional| ==> AllPlain(p.additional[i].allowed))
    && (forall i :: 0 <= i < |p.governanceScopes| ==> AllPlain(p.governanceScopes[i].unblocked))
  }

  predicate PlainClosing(p: Policy) {
    && AllPlain(p.prohibited) && AllPlain(p.rootOfTrust)
    && (forall i :: 0 <= i < |p.additional| ==> AllPlain(p.additional[i].prohibited))
  }

  /** Plain entries are enough for both. */
  lemma PlainSound(p: Policy)
    ensures PlainOpening(p) ==> SoundOpening(p)
    ensures PlainClosing(p) ==> SoundClosing(p)
  {
    hide Compares, AllPlain;
    forall list | AllPlain(list) ensures Compares(list) {
      PlainCompares(list);
    }
  }

  lemma {:induction false} CapabilityIn(list: seq<Capability>, name: string)
    requires FindCapability(list, name).Some?
    ensures FindCapability(list, name).value in list
  {
    if list[0].name != name {
      CapabilityIn(list[1..], name);
    }
  }

  lemma {:induction false} ScopeIn(list: seq<GovernanceScope>, name: string)
    requires FindScope(list, name).Some?
    ensures FindScope(list, name).value in list && FindScope(list, name).value.name == name
  {
    if list[0].name != name {
      ScopeIn(list[1..], name);
    }
  }

  lemma {:induction false} IssueIn(list: seq<IssueAuthorization>, issue: string)
    requires ScopesForIssue(list, issue).Some?
    ensures IssueAuthorization(issue, ScopesForIssue(list, issue).value) in list
  {
    if list[0].issue != issue {
      IssueIn(list[1..], issue);
    }
  }

  lemma SoundCapability(p: Policy, name: string)
    requires Granted(p, name)
    ensures SoundOpening(p) ==> Compares(CapabilityScope(p, name).value.allowed)
    ensures SoundClosing(p) ==> Compares(CapabilityScope(p, name).value.prohibited)
  {
    if name != p.requiredCapability {
      CapabilityIn(p.additional, name);
    }
  }

  lemma CoveredOrListed(entries: seq<string>, existing: seq<string>, i: nat)
    requires i < |entries|
    ensures MatchesAny(entries[i], existing) || entries[i] in Uncovered(entries, existing)
  {
  }

  /** Lists without an uncovered entry open no further path. */
  lemma CoveredLists(path: string, entries: seq<string>, existing: seq<string>)
    requires Uncovered(entries, existing) == {} && Compares(existing) && MatchesAny(path, entries)
    ensures MatchesAny(path, existing)
  {
    var i :| 0 <= i < |entries| && Matches(path, entries[i]);
    CoveredOrListed(entries, existing, i);
  }

  lemma SharedScope(trusted: Policy, candidate: Policy, name: string)
    requires NoWidening(trusted, candidate) && FindScope(candidate.governanceScopes, name).Some?
    ensures FindScope(trusted.governanceScopes, name).Some?
    ensures Uncovered(FindScope(candidate.governanceScopes, name).value.unblocked,
                      FindScope(trusted.governanceScopes, name).value.unblocked) == {}
  {
    ScopeIn(candidate.governanceScopes, name);
    var scope := FindScope(candidate.governanceScopes, name).value;
    var i :| 0 <= i < |candidate.governanceScopes| && candidate.governanceScopes[i] == scope;
    assert !Holds(trusted, candidate, AddsScope(name));
    var existing := FindScope(trusted.governanceScopes, name).value;
    assert !Holds(trusted, candidate, WidensScope(name, Uncovered(scope.unblocked, existing.unblocked)));
  }

  lemma ScopeNotWider(trusted: Policy, candidate: Policy, name: string, path: string)
    requires NoWidening(trusted, candidate) && SoundOpening(trusted)
    requires UnblockedBy(candidate, name, path)
    ensures UnblockedBy(trusted, name, path)
  {
    SharedScope(trusted, candidate, name);
    ScopeIn(trusted.governanceScopes, name);
    CoveredLists(path, FindScope(candidate.governanceScopes, name).value.unblocked,
                 FindScope(trusted.governanceScopes, name).value.unblocked);
  }

  lemma NamesNotWider(trusted: Policy, candidate: Policy, issue: string)
    requires NoWidening(trusted, candidate) && ScopesForIssue(candidate.authorizations, issue).Some?
    ensures ScopesForIssue(trusted.authorizations, issue).Some?
    ensures ScopesForIssue(candidate.authorizations, issue).value <= ScopesForIssue(trusted.authorizations, issue).value
  {
    IssueIn(candidate.authorizations, issue);
    var names := ScopesForIssue(candidate.authorizations, issue).value;
    var i :| 0 <= i < |candidate.authorizations| && candidate.authorizations[i] == IssueAuthorization(issue, names);
    assert !Holds(trusted, candidate, AuthorizesIssue(issue));
    var added := names - ScopesForIssue(trusted.authorizations, issue).value;
    assert candidate.authorizations[i].scopes == names;
    assert !Holds(trusted, candidate, WidensIssue(issue, added));
    assert forall x :: x in names && x !in ScopesForIssue(trusted.authorizations, issue).value ==> x in added;
  }

  /** A shared capability that starts to require an Issue authorization. */
  predicate NewlyRequired(trusted: Policy, candidate: Policy, name: string)
    requires Granted(trusted, name) && Granted(candidate, name)
  {
    !CapabilityScope(trusted, name).value.requiresIssue && CapabilityScope(candidate, name).value.requiresIssue
  }

  lemma SharedCapability(trusted: Policy, candidate: Policy, name: string)
    requires NoWidening(trusted, candidate) && Granted(candidate, name)
    ensures Granted(trusted, name)
    ensures Uncovered(CapabilityScope(candidate, name).value.allowed,
                      CapabilityScope(trusted, name).value.allowed) == {}
    ensures Uncovered(CapabilityScope(trusted, name).value.prohibited,
                      CapabilityScope(candidate, name).value.prohibited) == {}
    ensures CapabilityScope(trusted, name).value.requiresIssue ==> CapabilityScope(candidate, name).value.requiresIssue
  {
    assert !Holds(trusted, candidate, AddsCapability(name));
    var new_, old_ := CapabilityScope(candidate, name).value, CapabilityScope(trusted, name).value;
    assert !Holds(trusted, candidate, WidensAllowed(name, Uncovered(new_.allowed, old_.allowed)));
    assert !Holds(trusted, candidate, DropsProhibitions(name, Uncovered(old_.prohibited, new_.prohibited)));
    assert !Holds(trusted, candidate, DropsIssueRequirement(name));
  }

  /** One path the candidate grant has in scope, judged under the trusted grant. */
  lemma PathNotWider(trusted: Policy, candidate: Policy, name: string, issue: string, path: string)
    requires NoWidening(trusted, candidate) && SoundOpening(trusted) && SoundClosing(candidate)
    requires Granted(candidate, name) && Granted(trusted, name)
    requires NamesInForce(candidate, CapabilityScope(candidate, name).value, issue).Some?
    requires NamesInForce(trusted, CapabilityScope(trusted, name).value, issue).Some?
    requires PathInScope(candidate, CapabilityScope(candidate, name).value,
                         NamesInForce(candidate, CapabilityScope(candidate, name).value, issue).value, path)
    ensures PathInScope(trusted, CapabilityScope(trusted, name).value,
                        NamesInForce(trusted, CapabilityScope(trusted, name).value, issue).value, path)
            <==> !NewlyRequired(trusted, candidate, name)
                 || !MatchesAny(path, CapabilityScope(trusted, name).value.prohibited)
  {
    SharedCapability(trusted, candidate, name);
    SoundCapability(trusted, name);
    SoundCapability(candidate, name);
    var new_, old_ := CapabilityScope(candidate, name).value, CapabilityScope(trusted, name).value;
    CoveredLists(path, new_.allowed, old_.allowed);
    if MatchesAny(path, old_.prohibited) {
      CoveredLists(path, old_.prohibited, new_.prohibited);
      var names := NamesInForce(candidate, new_, issue).value;
      if !NewlyRequired(trusted, candidate, name) {
        NamesNotWider(trusted, candidate, issue);
        var opener :| opener in names && UnblockedBy(candidate, opener, path);
        ScopeNotWider(trusted, candidate, opener, path);
      }
    }
  }

  lemma RootNotWider(trusted: Policy, candidate: Policy, path: string)
    requires NoWidening(trusted, candidate) && SoundClosing(candidate)
    requires MatchesAny(path, trusted.rootOfTrust)
    ensures MatchesAny(path, candidate.rootOfTrust)
  {
    assert !Holds(trusted, candidate, DropsRootOfTrust(Uncovered(trusted.rootOfTrust, candidate.rootOfTrust)));
    CoveredLists(path, trusted.rootOfTrust, candidate.rootOfTrust);
  }

  /** In particular with plain closing entries. */
  lemma PlainRootNotWider(trusted: Policy, candidate: Policy, path: string)
    requires NoWidening(trusted, candidate) && PlainClosing(candidate)
    requires MatchesAny(path, trusted.rootOfTrust)
    ensures MatchesAny(path, candidate.rootOfTrust)
  {
    hide PlainClosing, SoundClosing, NoWidening, Matches;
    PlainSound(candidate);
    RootNotWider(trusted, candidate, path);
  }

  /** The condition under which the trusted grant follows the candidate's. */
  ghost predicate Carries(trusted: Policy, candidate: Policy, capability: string, paths: seq<string>)
    requires Granted(trusted, capability) && Granted(candidate, capability)
  {
    !NewlyRequired(trusted, candidate, capability)
    || forall i :: 0 <= i < |paths| ==> !MatchesAny(paths[i], CapabilityScope(trusted, capability).value.prohibited)
  }

  lemma PathsNotWider(trusted: Policy, candidate: Policy, capability: string, issue: string, paths: seq<string>)
    requires NoWidening(trusted, candidate) && SoundOpening(trusted) && SoundClosing(candidate)
    requires AcceptedBelowFloor(candidate, paths, capability, issue) && Granted(trusted, capability)
    ensures AcceptedBelowFloor(trusted, paths, capability, issue) <==> Carries(trusted, candidate, capability, paths)
  {
    SharedCapability(trusted, candidate, capability);
    var old_ := CapabilityScope(trusted, capability).value;
    if old_.requiresIssue {
      NamesNotWider(trusted, candidate, issue);
    }
    forall i | 0 <= i < |paths|
      ensures PathInScope(trusted, old_, NamesInForce(trusted, old_, issue).value, paths[i])
              <==> !NewlyRequired(trusted, candidate, capability) || !MatchesAny(paths[i], old_.prohibited)
    {
      PathNotWider(trusted, candidate, capability, issue, paths[i]);
    }
  }

  /** Without widening, whatever the candidate grant accepts the trusted grant
      accepts too, with one exact exception: under a capability that newly
      requires an Issue authorization, paths the trusted list prohibits. */
  lemma NoExtraAuthority(trusted: Policy, candidate: Policy, writer: string, capability: string, issue: string,
                         paths: seq<string>)
    requires NoWidening(trusted, candidate) && SoundOpening(trusted) && SoundClosing(candidate)
    requires Grants(candidate, writer, capability, issue, paths)
    ensures Granted(candidate, capability) && Granted(trusted, capability)
    ensures Grants(trusted, writer, capability, issue, paths) <==> Carries(trusted, candidate, capability, paths)
  {
    assert !Holds(trusted, candidate, ActivatesIngress);
    assert !Holds(trusted, candidate, AddsWriter(writer, capability));
    SharedCapability(trusted, candidate, capability);
    PathsNotWider(trusted, candidate, capability, issue, paths);
    forall i | 0 <= i < |paths| ensures !MatchesAny(paths[i], trusted.rootOfTrust) {
      if MatchesAny(paths[i], trusted.rootOfTrust) {
        RootNotWider(trusted, candidate, paths[i]);
      }
    }
  }

  // -------------------------------------- the comparison as a preorder

  lemma UncoveredChain(xs: seq<string>, ys: seq<string>, zs: seq<string>)
    requires Uncovered(xs, ys) == {} && Uncovered(ys, zs) == {} && Compares(zs)
    ensures Uncovered(xs, zs) == {}
  {
    forall i | 0 <= i < |xs| ensures MatchesAny(xs[i], zs) {
      CoveredOrListed(xs, ys, i);
      CoveredLists(xs[i], ys, zs);
    }
  }

  lemma CapabilityChain(a: Policy, b: Policy, c: Policy, name: string)
    requires NoWidening(a, b) && NoWidening(b, c) && SoundOpening(a) && SoundClosing(c)
    requires Granted(c, name)
    ensures Granted(a, name)
    ensures !Holds(a, c, DropsIssueRequirement(name))
    ensures Uncovered(CapabilityScope(c, name).value.allowed, CapabilityScope(a, name).value.allowed) == {}
    ensures Uncovered(CapabilityScope(a, name).value.prohibited, CapabilityScope(c, name).value.prohibited) == {}
  {
    SharedCapability(b, c, name);
    SharedCapability(a, b, name);
    SoundCapability(a, name);
    SoundCapability(c, name);
    var x, y, z := CapabilityScope(a, name).value, CapabilityScope(b, name).value, CapabilityScope(c, name).value;
    UncoveredChain(z.allowed, y.allowed, x.allowed);
    UncoveredChain(x.prohibited, y.prohibited, z.prohibited);
  }

  lemma ScopeChain(a: Policy, b: Policy, c: Policy, i: nat)
    requires NoWidening(a, b) && NoWidening(b, c) && SoundOpening(a) && i < |c.governanceScopes|
    ensures FindScope(a.governanceScopes, c.governanceScopes[i].name).Some?
    ensures Uncovered(c.governanceScopes[i].unblocked,
                      FindScope(a.governanceScopes, c.governanceScopes[i].name).value.unblocked) == {}
  {
    var scope := c.governanceScopes[i];
    assert !Holds(b, c, AddsScope(scope.name));
    var middle := FindScope(b.governanceScopes, scope.name).value;
    assert !Holds(b, c, WidensScope(scope.name, Uncovered(scope.unblocked, middle.unblocked)));
    SharedScope(a, b, scope.name);
    ScopeIn(a.governanceScopes, scope.name);
    UncoveredChain(scope.unblocked, middle.unblocked, FindScope(a.governanceScopes, scope.name).value.unblocked);
  }

  lemma IssueChain(a: Policy, b: Policy, c: Policy, i: nat)
    requires NoWidening(a, b) && NoWidening(b, c) && i < |c.authorizations|
    ensures ScopesForIssue(a.authorizations, c.authorizations[i].issue).Some?
    ensures c.authorizations[i].scopes <= ScopesForIssue(a.authorizations, c.authorizations[i].issue).value
  {
    var issue, names := c.authorizations[i].issue, c.authorizations[i].scopes;
    assert !Holds(b, c, AuthorizesIssue(issue));
    var middle := ScopesForIssue(b.authorizations, issue).value;
    assert !Holds(b, c, WidensIssue(issue, names - middle));
    assert forall x :: x in names && x !in middle ==> x in names - middle;
    NamesNotWider(a, b, issue);
  }

  /** "No widening" is transitive. */
  lemma NoWideningTransitive(a: Policy, b: Policy, c: Policy)
    requires NoWidening(a, b) && NoWidening(b, c) && SoundOpening(a) && SoundClosing(c)
    ensures NoWidening(a, c)
  {
    forall reason ensures !Holds(a, c, reason) {
      match reason
      case ActivatesIngress =>
        assert !Holds(a, b, ActivatesIngress) && !Holds(b, c, ActivatesIngress);
      case AddsWriter(login, capability) =>
        assert !Holds(a, b, reason) && !Holds(b, c, reason);
      case AddsCapability(name) => if Granted(c, name) { CapabilityChain(a, b, c, name); }
      case WidensAllowed(name, _) => if Granted(c, name) { CapabilityChain(a, b, c, name); }
      case DropsProhibitions(name, _) => if Granted(c, name) { CapabilityChain(a, b, c, name); }
      case DropsIssueRequirement(name) => if Granted(c, name) { CapabilityChain(a, b, c, name); }
      case DropsRootOfTrust(_) =>
        assert !Holds(a, b, DropsRootOfTrust(Uncovered(a.rootOfTrust, b.rootOfTrust)));
        assert !Holds(b, c, DropsRootOfTrust(Uncovered(b.rootOfTrust, c.rootOfTrust)));
        UncoveredChain(a.rootOfTrust, b.rootOfTrust, c.rootOfTrust);
      case _ =>
        forall i | 0 <= i < |c.governanceScopes| { ScopeChain(a, b, c, i); }
        forall i | 0 <= i < |c.authorizations| { IssueChain(a, b, c, i); }
    }
  }

  predicate CapabilityCovered(c: Capability) {
    CoveredBy(c.allowed, c.allowed) && CoveredBy(c.prohibited, c.prohibited)
  }

  /** What makes a grant no wider than itself: its lists cover themselves, and
      a scope or Issue that is listed twice opens nothing more the second time. */
  ghost predicate CoversItself(p: Policy) {
    && CoveredBy(p.rootOfTrust, p.rootOfTrust)
    && (forall name :: Granted(p, name) ==> CapabilityCovered(CapabilityScope(p, name).value))
    && (forall i :: 0 <= i < |p.governanceScopes| ==>
                      CoveredBy(p.governanceScopes[i].unblocked, FirstScope(p, i).unblocked))
    && (forall i :: 0 <= i < |p.authorizations| ==> p.authorizations[i].scopes <= FirstNames(p, i))
  }

  lemma {:induction false} ScopeFound(list: seq<GovernanceScope>, i: nat)
    requires i < |list|
    ensures FindScope(list, list[i].name).Some?
  {
    if i > 0 {
      ScopeFound(list[1..], i - 1);
    }
  }

  lemma {:induction false} IssueFound(list: seq<IssueAuthorization>, i: nat)
    requires i < |list|
    ensures ScopesForIssue(list, list[i].issue).Some?
  {
    if i > 0 {
      IssueFound(list[1..], i - 1);
    }
  }

  /** What a look-up of the name of the scope at `i` finds. */
  function FirstScope(p: Policy, i: nat): GovernanceScope
    requires i < |p.governanceScopes|
  {
    ScopeFound(p.governanceScopes, i);
    FindScope(p.governanceScopes, p.governanceScopes[i].name).value
  }

  function FirstNames(p: Policy, i: nat): set<string>
    requires i < |p.authorizations|
  {
    IssueFound(p.authorizations, i);
    ScopesForIssue(p.authorizations, p.authorizations[i].issue).value
  }

  lemma CapabilityUnchanged(p: Policy, name: string)
    requires Granted(p, name)
    ensures var c := CapabilityScope(p, name).value;
            CapabilityCovered(c) <==> !Holds(p, p, WidensAllowed(name, Uncovered(c.allowed, c.allowed)))
                                      && !Holds(p, p, DropsProhibitions(name, Uncovered(c.prohibited, c.prohibited)))
  {
    hide CapabilityScope, Uncovered, CoveredBy;
    var c := CapabilityScope(p, name).value;
    CoveredMeans(c.allowed, c.allowed);
    CoveredMeans(c.prohibited, c.prohibited);
  }

  lemma ScopeUnchanged(p: Policy, i: nat)
    requires i < |p.governanceScopes|
    ensures var scope, first := p.governanceScopes[i], FirstScope(p, i);
            CoveredBy(scope.unblocked, first.unblocked)
            <==> !Holds(p, p, WidensScope(scope.name, Uncovered(scope.unblocked, first.unblocked)))
  {
    hide FindScope, Uncovered, CoveredBy;
    CoveredMeans(p.governanceScopes[i].unblocked, FirstScope(p, i).unblocked);
    ScopeFound(p.governanceScopes, i);
  }

  lemma IssueUnchanged(p: Policy, i: nat)
    requires i < |p.authorizations|
    ensures var entry, first := p.authorizations[i], FirstNames(p, i);
            entry.scopes <= first <==> !Holds(p, p, WidensIssue(entry.issue, entry.scopes - first))
  {
    hide ScopesForIssue;
    IssueFound(p.authorizations, i);
    var entry, first := p.authorizations[i], FirstNames(p, i);
    assert entry.scopes <= first <==> entry.scopes - first == {} by {
      assert forall x :: x in entry.scopes && x !in first ==> x in entry.scopes - first;
    }
  }

  lemma UnchangedCovered(p: Policy)
    requires NoWidening(p, p)
    ensures CoversItself(p)
  {
    hide Holds, CapabilityScope, CapabilityCovered, CoveredBy, FindScope, ScopesForIssue, FirstScope, FirstNames;
    forall name | Granted(p, name) ensures CapabilityCovered(CapabilityScope(p, name).value) {
      CapabilityUnchanged(p, name);
    }
    forall i | 0 <= i < |p.governanceScopes|
      ensures CoveredBy(p.governanceScopes[i].unblocked, FirstScope(p, i).unblocked)
    {
      ScopeUnchanged(p, i);
    }
    forall i | 0 <= i < |p.authorizations| ensures p.authorizations[i].scopes <= FirstNames(p, i) {
      IssueUnchanged(p, i);
    }
    RootUnchanged(p);
  }

  lemma RootUnchanged(p: Policy)
    requires !Holds(p, p, DropsRootOfTrust(Uncovered(p.rootOfTrust, p.rootOfTrust)))
    ensures CoveredBy(p.rootOfTrust, p.rootOfTrust)
  {
    CoveredMeans(p.rootOfTrust, p.rootOfTrust);
  }

  lemma CoveredUnchanged(p: Policy)
    requires CoversItself(p)
    ensures NoWidening(p, p)
  {
    hide CapabilityScope, Uncovered, CoveredBy, FindScope, ScopesForIssue;
    forall reason ensures !Holds(p, p, reason) {
      match reason
      case WidensAllowed(name, _) => if Granted(p, name) { CapabilityUnchanged(p, name); }
      case DropsProhibitions(name, _) => if Granted(p, name) { CapabilityUnchanged(p, name); }
      case DropsRootOfTrust(_) => CoveredMeans(p.rootOfTrust, p.rootOfTrust);
      case AddsScope(_) => forall i | 0 <= i < |p.governanceScopes| { ScopeFound(p.governanceScopes, i); }
      case AuthorizesIssue(_) => forall i | 0 <= i < |p.authorizations| { IssueFound(p.authorizations, i); }
      case WidensScope(_, _) => forall i | 0 <= i < |p.governanceScopes| { ScopeUnchanged(p, i); }
      case WidensIssue(_, _) => forall i | 0 <= i < |p.authorizations| { IssueUnchanged(p, i); }
      case _ =>
    }
  }

  /** The comparison is reflexive exactly on the grants that cover themselves. */
  lemma NoWideningReflexive(p: Policy)
    ensures NoWidening(p, p) <==> CoversItself(p)
  {
    hide NoWidening, CoversItself;
    if NoWidening(p, p) {
      UnchangedCovered(p);
    }
    if CoversItself(p) {
      CoveredUnchanged(p);
    }
  }

  /** Lists written without surrounding white space cover themselves. */
  predicate Tidy(entries: seq<string>) {
    forall i :: 0 <= i < |entries| ==> entries[i] != [] && Trimmed(entries[i])
  }

  predicate TidyGrant(p: Policy) {
    && Tidy(p.allowed) && Tidy(p.prohibited) && Tidy(p.rootOfTrust)
    && (forall i :: 0 <= i < |p.additional| ==> Tidy(p.additional[i].allowed) && Tidy(p.additional[i].prohibited))
    && (forall i :: 0 <= i < |p.governanceScopes| ==> Tidy(p.governanceScopes[i].unblocked))
    && (forall i :: 0 <= i < |p.governanceScopes| ==>
                      FindScope(p.governanceScopes, p.governanceScopes[i].name) == Some(p.governanceScopes[i]))
    && (forall i :: 0 <= i < |p.authorizations| ==>
                      ScopesForIssue(p.authorizations, p.authorizations[i].issue) == Some(p.authorizations[i].scopes))
  }

  lemma TidyCovers(entries: seq<string>)
    requires Tidy(entries)
    ensures CoveredBy(entries, entries)
  {
    forall i | 0 <= i < |entries| ensures MatchesAny(entries[i], entries) {
      assert Matches(entries[i], entries[i]);
    }
  }

  /** A grant that changes nothing is never reported as wider, whatever patterns
      it uses, when its entries carry no surrounding white space and its scope
      and Issue names are distinct. */
  lemma TidyReflexive(p: Policy)
    requires TidyGrant(p)
    ensures NoWidening(p, p)
  {
    hide Holds, CoveredBy, Matches, Trimmed;
    forall name | Granted(p, name) ensures CapabilityCovered(CapabilityScope(p, name).value) {
      if name != p.requiredCapability {
        CapabilityIn(p.additional, name);
      }
      TidyCovers(CapabilityScope(p, name).value.allowed);
      TidyCovers(CapabilityScope(p, name).value.prohibited);
    }
    forall i | 0 <= i < |p.governanceScopes|
      ensures CoveredBy(p.governanceScopes[i].unblocked, FirstScope(p, i).unblocked)
    {
      TidyCovers(p.governanceScopes[i].unblocked);
    }
    TidyCovers(p.rootOfTrust);
    NoWideningReflexive(p);
  }

  // ------------------------------------------------- where the promises stop

  lemma {:induction false} GlobOne(path: string, stem: string)
    requires Literal(stem)
    ensures Glob(path, stem + "?") <==> stem <= path && |path| == |stem| + 1
  {
    if path != [] {
      if stem == [] {
        assert (stem + "?")[1..] == [];
        assert Glob(path[1..], []) <==> path[1..] == [];
      } else {
        assert (stem + "?")[1..] == stem[1..] + "?";
        GlobOne(path[1..], stem[1..]);
        assert stem <= path <==> stem[0] == path[0] && stem[1..] <= path[1..];
      }
    }
  }

  lemma OneScope(path: string, stem: string)
    requires Literal(stem)
    ensures InScope(path, stem + "?") <==> (stem <= path && |path| == |stem| + 1) || stem + "?/" <= path
  {
    GlobOne(path, stem);
    assert DropTail(stem + "?", '/') == stem + "?";
    assert stem + "?" + "/" == stem + "?/";
  }

  lemma PatternsTrimmed(stem: string)
    requires stem != [] && !IsSpace(stem[0])
    ensures Strip(stem + "*") == stem + "*" && Strip(stem + "?") == stem + "?"
  {
  }

  lemma Singletons(a: string, b: string)
    ensures Uncovered([a], [b]) == if Matches(a, b) then {} else {a}
  {
    assert MatchesAny(a, [b]) <==> Matches(a, [b][0]);
    assert [a][0] == a;
  }

  /** Outside plain entries the textual comparison misses a wider scope: read as
      a path, a prefix with a star matches the same prefix with a question mark,
      so the star entry is never reported although it opens longer paths. */
  lemma PatternCoverageUnsound(stem: string, path: string)
    requires Literal(stem) && stem != [] && !IsSpace(stem[0])
    requires stem <= path && |path| > |stem| + 1 && path[|stem|] != '?'
    ensures Uncovered([stem + "*"], [stem + "?"]) == {}
    ensures Matches(path, stem + "*") && !Matches(path, stem + "?")
  {
    PatternsTrimmed(stem);
    OneScope(stem + "*", stem);
    OneScope(path, stem);
    GlobStem(path, stem, "*");
    assert (stem + "?/")[|stem|] == '?';
    Singletons(stem + "*", stem + "?");
  }

  lemma LeadingSpaceStripped(e: string)
    requires e != [] && Trimmed(e)
    ensures Strip(" " + e) == e
  {
    var s := " " + e;
    assert s[|s| - 1] == e[|e| - 1];
    assert TrimRight(s) == s;
    assert s[1..] == e;
    assert TrimLeft(e) == e;
  }

  /** A literal entry with a leading space is reported as widening itself. */
  lemma UntidyNotReflexive(e: string)
    requires LiteralForm(e) && Trimmed(e)
    ensures Uncovered([" " + e], [" " + e]) == {" " + e}
  {
    LeadingSpaceStripped(e);
    LiteralScope(" " + e, e);
    assert (DropTail(e, '/') + "/")[0] == if DropTail(e, '/') == [] then '/' else e[0];
    assert (" " + e)[0] == ' ';
    Singletons(" " + e, " " + e);
  }
}
