/** Grants that the reader accepts and at which an expectation about the scope
    check or the comparison of grants fails. */
module GrantExamples {
  import opened ConnectorGrant
  import opened GrantDocument
  import opened ScopeEntries
  import opened ScopeMeeting
  import opened Text

  // ---------------------------------------------------------- a family of grants

  /** One writer `w` with the ordinary capability `o` and one more, `m`; unless
      nothing is unblocked, Issue 1 is authorized for a scope that unblocks it. */
  datatype Shape = Shape(
    forbidden: seq<string>,
    root: seq<string>,
    o: Capability,
    m: Capability,
    unblocked: seq<string>)

  function Scopes(s: Shape): seq<GovernanceScope> {
    if s.unblocked == [] then [] else [GovernanceScope("s", s.unblocked)]
  }

  function Source(s: Shape): RawGrant {
    RawGrant(true, false, "o", [("w", "m"), ("w", "o")], "main", "b/", "b/{issue}-*", s.forbidden, s.o.allowed,
             s.o.prohibited, true, s.root, [s.m], Scopes(s), if s.unblocked == [] then [] else [("1", ["s"])])
  }

  function Sample(s: Shape): Policy {
    Policy(true, [("w", "m"), ("w", "o")], "o", "main", (set x | x in s.forbidden), "b/", "b/{issue}-*", s.o.allowed,
           s.o.prohibited, s.root, [s.m], Scopes(s),
           if s.unblocked == [] then [] else [IssueAuthorization("1", {"s"})])
  }

  /** The names are as announced, and the ordinary capability wants no Issue. */
  predicate Named(s: Shape) {
    s.o.name == "o" && !s.o.requiresIssue && s.m.name == "m"
  }

  predicate NonBlank(list: seq<string>) {
    forall i :: 0 <= i < |list| ==> Strip(list[i]) != []
  }

  /** Written without surrounding white space, except perhaps for the floor. */
  predicate TidyShape(s: Shape) {
    && Named(s) && Tidy(s.forbidden) && NonBlank(s.root) && Tidy(s.unblocked)
    && s.o.allowed != [] && Tidy(s.o.allowed) && Tidy(s.o.prohibited)
    && s.m.allowed != [] && Tidy(s.m.allowed) && Tidy(s.m.prohibited)
  }

  /** The rules of the reader that are left. */
  predicate Consistent(s: Shape) {
    && CoveredBy(s.root, s.o.prohibited) && CoveredBy(s.root, s.m.prohibited)
    && forall i :: 0 <= i < |s.unblocked| ==>
         MatchesAny(s.unblocked[i], s.m.allowed) && ApartFromRoot(s.unblocked[i], s.root)
  }

  lemma {:induction false} AllKept(list: seq<string>)
    requires NonBlank(list)
    ensures KeepNonBlank(list) == list
  {
    if list != [] {
      AllKept(list[1..]);
    }
  }

  lemma {:induction false} AllStripped(list: seq<string>)
    requires Tidy(list)
    ensures StripNonBlank(list) == list && NonBlank(list)
  {
    hide Trimmed, Strip;
    if list != [] {
      AllStripped(list[1..]);
      assert Strip(list[0]) == list[0];
      assert [list[0]] + list[1..] == list;
      forall i | 0 <= i < |list| ensures Strip(list[i]) != [] {
        assert Strip(list[i]) == list[i];
      }
    }
  }

  lemma Unspaced(s: string)
    requires s != [] && 'a' <= s[0] <= 'z' && ('a' <= s[|s| - 1] <= 'z' || s[|s| - 1] == '/')
    ensures Trimmed(s) && Strip(s) == s
  {
    hide Strip;
  }

  lemma ShortTexts()
    ensures Strip("o") == "o" && Strip("m") == "m" && Strip("main") == "main" && Strip("b/") == "b/"
    ensures Strip("s") == "s" && Strip("docs/") == "docs/" && Strip("1") == "1" && Strip("w") == "w"
    ensures Trimmed("s") && Trimmed("docs/")
  {
    hide Strip, Trimmed;
    Unspaced("o"); Unspaced("m"); Unspaced("main"); Unspaced("b/");
    Unspaced("s"); Unspaced("docs/"); Unspaced("w");
    IssueOne();
  }

  lemma IssueOne()
    ensures IssueForm("1") && Strip("1") == "1"
  {
    assert Trimmed("1");
  }

  lemma WriterRead()
    ensures Writers([("w", "m"), ("w", "o")]) == [("w", "m"), ("w", "o")]
    ensures WritersFine([("w", "m"), ("w", "o")])
  {
    hide Strip;
    ShortTexts();
    var one, both := [("w", "m")], [("w", "m"), ("w", "o")];
    assert one[..0] == [] && both[..1] == one;
    assert LowerAll("w") == "w";
    assert LoginCore("w");
    assert Writers([]) == [] && WritersFine([]);
    assert Writers(one) == one && WritersFine(one);
  }

  lemma TemplateRead()
    ensures Contains("b/{issue}-*", "{issue}") && "b/" <= "b/{issue}-*" && EndsWith("b/", "/")
  {
    assert "{issue}" <= "b/{issue}-*"[2..];
  }

  lemma ScopeRead(unblocked: seq<string>)
    requires Tidy(unblocked)
    ensures ReadScope(GovernanceScope("s", unblocked)) == GovernanceScope("s", unblocked)
    ensures ReadAuthorization(("1", ["s"])) == IssueAuthorization("1", {"s"})
  {
    hide Strip, StripNonBlank, Trimmed;
    ShortTexts();
    AllStripped(unblocked);
    AllStripped(["s"]);
    assert DropHashes("1") == "1";
    assert (set x | x in ["s"]) == {"s"};
  }

  lemma SourceBuilds(s: Shape)
    requires TidyShape(s)
    ensures Build(Source(s)) == Sample(s)
  {
    hide Strip, StripNonBlank, KeepNonBlank, NonBlank, Tidy, Writers, ReadScope, ReadAuthorization;
    ShortTexts();
    WriterRead();
    ScopeRead(s.unblocked);
    AllStripped(s.o.allowed);
    AllStripped(s.o.prohibited);
    AllKept(s.o.allowed);
    AllKept(s.o.prohibited);
    AllKept(s.root);
    AllStripped(s.forbidden);
    AllStripped(s.m.allowed);
    AllStripped(s.m.prohibited);
    assert ReadCapability(s.m) == s.m;
    assert ReadCapabilities(Source(s).capabilities) == [s.m];
    assert ReadScopes(Source(s).governanceScopes) == Scopes(s);
  }

  /** When the reader accepts a grant of the family. */
  lemma SourceReads(s: Shape)
    requires TidyShape(s) && Consistent(s)
    ensures Readable(Source(s)) && Build(Source(s)) == Sample(s)
  {
    hide Strip, Tidy, NonBlank, WritersFine, Contains, EndsWith, Build, CoveredBy, MatchesAny, ApartFromRoot, IssueForm,
      Trimmed;
    SourceBuilds(s);
    ShortTexts();
    WriterRead();
    TemplateRead();
    IssueOne();
    var p := Sample(s);
    if s.unblocked != [] {
      forall i | 0 <= i < |s.unblocked| ensures InBounds(s.unblocked[i], p.additional) {
        assert p.additional[0] == s.m;
      }
      assert p.governanceScopes[0].name == "s";
      assert KnownScopes({"s"}, p.governanceScopes);
    }
    assert WellFormed(p);
  }

  // ------------------------------------------------- grants of the family compared

  lemma SampleCapability(s: Shape)
    requires Named(s)
    ensures CapabilityScope(Sample(s), "m") == Some(s.m) && CapabilityScope(Sample(s), "o") == Some(s.o)
    ensures forall name :: Granted(Sample(s), name) <==> name in {"m", "o"}
  {
    forall name ensures FindCapability([s.m], name) == if name == "m" then Some(s.m) else None {
      assert FindCapability([s.m][1..], name).None?;
    }
  }

  lemma ScopeInForce(unblocked: seq<string>)
    ensures FindScope([GovernanceScope("s", unblocked)], "s") == Some(GovernanceScope("s", unblocked))
    ensures ScopesForIssue([IssueAuthorization("1", {"s"})], "1") == Some({"s"})
    ensures FindScope([], "s").None? && ScopesForIssue([], "1").None?
  {
  }

  /** What there is to compare between two grants of the family. */
  predicate NarrowerCapability(old_: Capability, new_: Capability) {
    && CoveredBy(new_.allowed, old_.allowed) && CoveredBy(old_.prohibited, new_.prohibited)
    && (old_.requiresIssue ==> new_.requiresIssue)
  }

  predicate Narrower(old_: Shape, new_: Shape) {
    && NarrowerCapability(old_.o, new_.o) && NarrowerCapability(old_.m, new_.m) && CoveredBy(old_.root, new_.root)
    && (new_.unblocked != [] ==> old_.unblocked != []) && CoveredBy(new_.unblocked, old_.unblocked)
  }

  lemma CapabilityReason(t: Shape, c: Shape, reason: Reason)
    requires Named(t) && Named(c) && Narrower(t, c)
    requires reason.AddsCapability? || reason.WidensAllowed? || reason.DropsProhibitions?
             || reason.DropsIssueRequirement?
    ensures !Holds(Sample(t), Sample(c), reason)
  {
    hide CapabilityScope, Uncovered, CoveredBy;
    SampleCapability(t);
    SampleCapability(c);
    CoveredMeans(c.o.allowed, t.o.allowed);
    CoveredMeans(c.m.allowed, t.m.allowed);
    CoveredMeans(t.o.prohibited, c.o.prohibited);
    CoveredMeans(t.m.prohibited, c.m.prohibited);
    if Granted(Sample(c), reason.name) {
      assert reason.name in {"m", "o"};
    }
  }

  lemma OtherReason(t: Shape, c: Shape, reason: Reason)
    requires Named(t) && Named(c) && Narrower(t, c)
    requires !reason.AddsCapability? && !reason.WidensAllowed? && !reason.DropsProhibitions?
    requires !reason.DropsIssueRequirement?
    ensures !Holds(Sample(t), Sample(c), reason)
  {
    hide CapabilityScope, Uncovered, FindScope, ScopesForIssue, CoveredBy, NarrowerCapability;
    CoveredMeans(t.root, c.root);
    CoveredMeans(c.unblocked, t.unblocked);
    ScopeInForce(t.unblocked);
  }

  /** Narrower lists are never reported as wider. */
  lemma SampleNotWider(t: Shape, c: Shape)
    requires Named(t) && Named(c) && Narrower(t, c)
    ensures NoWidening(Sample(t), Sample(c))
  {
    hide Holds, Narrower, Named;
    forall reason ensures !Holds(Sample(t), Sample(c), reason) {
      if reason.AddsCapability? || reason.WidensAllowed? || reason.DropsProhibitions?
         || reason.DropsIssueRequirement? {
        CapabilityReason(t, c, reason);
      } else {
        OtherReason(t, c, reason);
      }
    }
  }

  /** And an uncovered allowed entry is. */
  lemma SampleWider(t: Shape, c: Shape)
    requires Named(t) && Named(c) && NoWidening(Sample(t), Sample(c))
    ensures CoveredBy(c.m.allowed, t.m.allowed)
  {
    hide NoWidening, CapabilityScope, Uncovered, CoveredBy;
    SampleCapability(t);
    SampleCapability(c);
    SharedCapability(Sample(t), Sample(c), "m");
    CoveredMeans(c.m.allowed, t.m.allowed);
  }

  function CapabilityOf(s: Shape, name: string): Capability {
    if name == "m" then s.m else s.o
  }

  /** What a grant of the family grants. */
  lemma SampleGrants(s: Shape, name: string, path: string)
    requires Named(s) && name in {"m", "o"} && Proper(path) && (s.m.requiresIssue ==> s.unblocked != [])
    ensures AcceptedBelowFloor(Sample(s), [path], name, "1")
            <==> var capability := CapabilityOf(s, name);
                 && MatchesAny(path, capability.allowed)
                 && ((capability.requiresIssue && MatchesAny(path, s.unblocked))
                     || !MatchesAny(path, capability.prohibited))
    ensures Grants(Sample(s), "w", name, "1", [path])
            <==> !MatchesAny(path, s.root) && AcceptedBelowFloor(Sample(s), [path], name, "1")
  {
    hide Matches, MatchesAny, Strip, Relative, CapabilityScope, FindScope, ScopesForIssue;
    var p := Sample(s);
    SampleCapability(s);
    ScopeInForce(s.unblocked);
    assert [path][0] == path;
    assert s.m.requiresIssue ==> (UnblockedBy(p, "s", path) <==> MatchesAny(path, s.unblocked));
    assert ("w", "m") == p.writers[0] && ("w", "o") == p.writers[1];
  }

  // ------------------------------------------------------------- small texts

  lemma DocumentTexts()
    ensures Proper("docs/a") && Trimmed("docs/a") && LiteralForm("docs/a") && LiteralForm("docs")
    ensures Matches("docs/a", "docs/a") && Matches("docs/a", "docs/") && Matches("docs/", "docs/")
    ensures Matches("docs/a", " docs/a") && !Overlap("docs/", " docs/a")
    ensures Plain("docs/") && Plain("docs/a")
  {
    hide InScope, Strip, LiteralForm;
    Unspaced("docs/a");
    Unspaced("docs/");
    LiteralTexts();
    LiteralScope("docs/a", "docs/a");
    assert "docs" + "/" == "docs/" && " " + "docs/a" == " docs/a";
    UntidyRootOverlooked("docs", "docs/a");
    ProperText("docs/a");
    LiteralScope("docs/", "docs/");
  }

  lemma LiteralTexts()
    ensures LiteralForm("docs/a") && LiteralForm("docs") && LiteralForm("docs/")
  {
  }

  lemma ProperText(path: string)
    requires Strip(path) != [] && path[0] != '/' && forall i :: 0 <= i < |path| ==> path[i] != '.'
    ensures Proper(path)
  {
    hide Strip;
    if ParentPart(path) {
      var i :| 0 <= i < |path| && ParentPartAt(path, i);
      DotAt(path, i);
    }
  }

  lemma DotAt(path: string, i: nat)
    requires ParentPartAt(path, i)
    ensures path[i] == '.'
  {
    assert path[i..i + 2][0] == path[i];
  }

  lemma StarMatches(path: string)
    ensures Matches(path, "*") && MatchesAny(path, ["*"])
  {
    hide InScope, Glob, Strip, MatchesAny;
    StarAlone();
    GlobStars(path, "*");
    StarScope(path);
    OneEntry(path, "*");
  }

  lemma StarScope(path: string)
    requires Glob(path, "*")
    ensures InScope(path, "*")
  {
    hide Glob, DropTail;
  }

  lemma StarAlone()
    ensures Trimmed("*") && Strip("*") == "*"
  {
    hide Strip;
  }

  lemma TidyTexts()
    ensures Tidy(["*"]) && Tidy(["docs/"]) && Tidy(["docs/a"]) && Tidy([]) && NonBlank([]) && NonBlank([" docs/a"])
  {
    hide Strip, Trimmed;
    StarAlone();
    Unspaced("docs/");
    Unspaced("docs/a");
    assert " " + "docs/a" == " docs/a";
    LeadingSpaceStripped("docs/a");
  }

  // ------------------------------------------------------- the floor test decides

  const FLOORED := Shape([], [" docs/a"], Capability("o", ["docs/"], ["*"], false),
                         Capability("m", ["docs/"], ["*"], true), ["docs/"])

  /** A grant the reader accepts where the floor test decides: its root entry has
      a leading space, so the reader finds the directory above apart from it. */
  lemma FloorDecides()
    ensures var raw := Source(FLOORED);
            && Readable(raw)
            && AcceptedBelowFloor(Build(raw), ["docs/a"], "m", "1")
            && !ScopeAccepts(Build(raw), ["docs/a"], "m", "1")
  {
    hide Matches, Strip, Trimmed, Overlap, Readable, AcceptedBelowFloor, Relative, Build, Plain;
    DocumentTexts();
    TidyTexts();
    StarMatches(" docs/a");
    OneEntry("docs/", "docs/");
    SourceReads(FLOORED);
    OneEntry("docs/a", "docs/");
    OneEntry("docs/a", " docs/a");
    SampleGrants(FLOORED, "m", "docs/a");
    assert ["docs/a"][0] == "docs/a";
  }

  // ------------------------------------------- an Issue requirement opens a path

  function Requirement(required: bool): Shape {
    Shape([], [], Capability("o", ["docs/"], [], false), Capability("m", ["docs/"], ["docs/a"], required), ["docs/"])
  }

  /** Two readable grants, the newer one no wider in any reported way: it begins
      to want an Issue and thereby opens a path that the older one prohibits. */
  lemma RequirementOpens()
    ensures var t, c := Source(Requirement(false)), Source(Requirement(true));
            && Readable(t) && Readable(c) && NoWidening(Build(t), Build(c))
            && SoundOpening(Build(t)) && SoundClosing(Build(c))
            && Grants(Build(c), "w", "m", "1", ["docs/a"])
            && !Grants(Build(t), "w", "m", "1", ["docs/a"])
  {
    hide Matches, Strip, Trimmed, Readable, Build, NoWidening, Grants, SoundOpening, SoundClosing;
    RequirementReads(false);
    RequirementReads(true);
    RequirementNarrower();
    SampleNotWider(Requirement(false), Requirement(true));
    RequirementGrants(false);
    RequirementGrants(true);
    RequirementSound(false);
    RequirementSound(true);
  }

  lemma RequirementReads(required: bool)
    ensures Readable(Source(Requirement(required)))
    ensures Build(Source(Requirement(required))) == Sample(Requirement(required))
  {
    hide Matches, Strip, Trimmed, Readable, Build;
    DocumentTexts();
    TidyTexts();
    OneEntry("docs/", "docs/");
    SourceReads(Requirement(required));
  }

  lemma RequirementNarrower()
    ensures Narrower(Requirement(false), Requirement(true))
  {
    hide CoveredBy, Tidy;
    TidyTexts();
    TidyCovers(["docs/"]);
    TidyCovers(["docs/a"]);
    TidyCovers([]);
  }

  lemma RequirementGrants(required: bool)
    ensures Grants(Sample(Requirement(required)), "w", "m", "1", ["docs/a"]) <==> required
  {
    hide Matches, Strip, Trimmed, Overlap, AcceptedBelowFloor, Relative, Plain, Grants;
    DocumentTexts();
    OneEntry("docs/a", "docs/");
    OneEntry("docs/a", "docs/a");
    SampleGrants(Requirement(required), "m", "docs/a");
  }

  lemma RequirementSound(required: bool)
    ensures SoundOpening(Sample(Requirement(required))) && SoundClosing(Sample(Requirement(required)))
  {
    hide Matches, Strip, Trimmed, Overlap, AcceptedBelowFloor, Relative, Plain, Grants, SoundOpening, SoundClosing;
    DocumentTexts();
    PlainSound(Sample(Requirement(required)));
  }

  // ---------------------------------------------- lists that compare unsoundly

  /** The lists of a grant that bear on a decision: three open paths, three close them. */
  datatype Place =
    | OrdinaryAllowed | ExtraAllowed | Unblocking
    | OrdinaryProhibited | ExtraProhibited | Floor

  predicate IsOpening(place: Place) {
    place.OrdinaryAllowed? || place.ExtraAllowed? || place.Unblocking?
  }

  /** The capability whose decision the list bears on. */
  function Concerned(place: Place): string {
    if place.OrdinaryAllowed? || place.OrdinaryProhibited? then "o" else "m"
  }

  const EVERYTHING := ["*"]

  function Ordinarily(allowed: seq<string>, prohibited: seq<string>): Capability {
    Capability("o", allowed, prohibited, false)
  }

  function Specially(allowed: seq<string>, prohibited: seq<string>): Capability {
    Capability("m", allowed, prohibited, false)
  }

  /** A grant with the list at that place, open wherever the list says nothing; a
      floor comes with prohibitions that guard it. */
  function With(place: Place, list: seq<string>, guard: seq<string>): Shape {
    var open, openM := Ordinarily(EVERYTHING, []), Specially(EVERYTHING, []);
    match place
    case OrdinaryAllowed => Shape([], [], Ordinarily(list, []), openM, [])
    case ExtraAllowed => Shape([], [], open, Specially(list, []), [])
    case Unblocking => Shape([], [], open, Capability("m", EVERYTHING, EVERYTHING, true), list)
    case OrdinaryProhibited => Shape([], [], Ordinarily(EVERYTHING, list), openM, [])
    case ExtraProhibited => Shape([], [], open, Specially(EVERYTHING, list), [])
    case Floor => Shape([], list, Ordinarily(EVERYTHING, guard), Specially(EVERYTHING, guard), [])
  }

  lemma WithReads(place: Place, list: seq<string>, guard: seq<string>)
    requires Tidy(list) && list != [] && Tidy(guard) && CoveredBy(list, guard)
    ensures Readable(Source(With(place, list, guard)))
    ensures Build(Source(With(place, list, guard))) == Sample(With(place, list, guard))
  {
    hide Matches, MatchesAny, Strip, Trimmed, Readable, Build, Tidy, NonBlank;
    TidyTexts();
    AllStripped(list);
    forall i | 0 <= i < |list| ensures MatchesAny(list[i], EVERYTHING) {
      StarMatches(list[i]);
    }
    SourceReads(With(place, list, guard));
  }

  lemma WithNarrower(place: Place, list: seq<string>, narrow: string)
    requires Tidy(list) && Tidy([narrow]) && MatchesAny(narrow, list)
    ensures if IsOpening(place) then Narrower(With(place, list, list), With(place, [narrow], list))
            else Narrower(With(place, [narrow], list), With(place, list, list))
  {
    hide MatchesAny, Tidy;
    TidyTexts();
    TidyCovers(EVERYTHING);
    TidyCovers([]);
    TidyCovers(list);
    assert list != [] by { ListNotEmpty(narrow, list); }
    assert CoveredBy([narrow], list);
  }

  lemma ListNotEmpty(path: string, list: seq<string>)
    requires MatchesAny(path, list)
    ensures list != []
  {
  }

  /** The list decides: at an opening place what it holds is granted, at a closing
      place what it does not hold. */
  lemma WithGrants(place: Place, list: seq<string>, guard: seq<string>, path: string)
    requires Proper(path) && list != [] && (place.Floor? ==> !MatchesAny(path, guard))
    ensures Grants(Sample(With(place, list, guard)), "w", Concerned(place), "1", [path])
            <==> (MatchesAny(path, list) <==> IsOpening(place))
  {
    hide Matches, MatchesAny, Strip, Relative, Grants, AcceptedBelowFloor;
    StarMatches(path);
    NothingMatches(path);
    SampleGrants(With(place, list, guard), Concerned(place), path);
  }

  lemma NothingMatches(path: string)
    ensures !MatchesAny(path, [])
  {
  }

  /** Sound comparison is needed at every place: any tidy entry and proper path at
      which the comparison with a list fails are two readable grants, the newer
      one no wider in any reported way, of which only the newer grants the path. */
  lemma UnsoundListOpens(place: Place, list: seq<string>, narrow: string, path: string)
    requires Tidy(list) && Tidy([narrow]) && Proper(path)
    requires MatchesAny(narrow, list) && Matches(path, narrow) && !MatchesAny(path, list)
    ensures var with, without := With(place, [narrow], list), With(place, list, list);
            var t, c := Source(if IsOpening(place) then without else with),
                        Source(if IsOpening(place) then with else without);
            && Readable(t) && Readable(c) && NoWidening(Build(t), Build(c))
            && Grants(Build(c), "w", Concerned(place), "1", [path])
            && !Grants(Build(t), "w", Concerned(place), "1", [path])
  {
    hide Matches, MatchesAny, Strip, Trimmed, Readable, Build, Tidy, Relative, Grants, NoWidening, Narrower, Source,
      Sample, With;
    var with, without := With(place, [narrow], list), With(place, list, list);
    ListNotEmpty(narrow, list);
    TidyCovers(list);
    WithReads(place, [narrow], list);
    WithReads(place, list, list);
    WithNarrower(place, list, narrow);
    WithNamed(place, [narrow], list);
    WithNamed(place, list, list);
    if IsOpening(place) {
      SampleNotWider(without, with);
    } else {
      SampleNotWider(with, without);
    }
    OneEntry(path, narrow);
    WithGrants(place, [narrow], list, path);
    WithGrants(place, list, list, path);
  }

  lemma WithNamed(place: Place, list: seq<string>, guard: seq<string>)
    ensures Named(With(place, list, guard))
  {
  }

  // ---------------------------------------------------------------- patterns

  lemma PatternTexts()
    ensures Matches("docs*", "docs?") && Matches("docsxy", "docs*") && !Matches("docsxy", "docs?")
    ensures Tidy(["docs*"]) && Tidy(["docs?"]) && Tidy(["docsxy"]) && Proper("docsxy")
  {
    hide Matches, Strip, Trimmed, Relative;
    LiteralTexts();
    PatternCoverageUnsound("docs", "docsxy");
    assert "docs" + "*" == "docs*" && "docs" + "?" == "docs?";
    Singletons("docs*", "docs?");
    PatternTidy();
    Unspaced("docsxy");
    ProperText("docsxy");
  }

  lemma PatternTidy()
    ensures Trimmed("docs*") && Trimmed("docs?") && Trimmed("docs/?")
  {
  }

  lemma QuestionTexts()
    ensures Matches("docs/x", "docs/?") && Matches("docs/x/y", "docs/x") && !Matches("docs/x/y", "docs/?")
    ensures Tidy(["docs/?"]) && Tidy(["docs/x"]) && Proper("docs/x/y")
  {
    hide InScope, Strip, Trimmed, Relative;
    PatternTidy();
    Unspaced("docs/x");
    Unspaced("docs/x/y");
    ProperText("docs/x/y");
    assert "docs/" + "?" == "docs/?" && Literal("docs/");
    OneScope("docs/x", "docs/");
    OneScope("docs/x/y", "docs/");
    assert ("docs/" + "?/")[5] == '?' && "docs/x/y"[5] == 'x';
    assert LiteralForm("docs/x") && DropTail("docs/x", '/') == "docs/x";
    LiteralScope("docs/x/y", "docs/x");
    assert "docs/x" + "/" <= "docs/x/y";
  }

  /** Such a list is the one entry with a question mark: where it opens paths, a
      star in its place goes unreported. */
  lemma PatternOpens()
    ensures var t := Source(With(ExtraAllowed, ["docs?"], ["docs?"]));
            var c := Source(With(ExtraAllowed, ["docs*"], ["docs?"]));
            && Readable(t) && Readable(c) && NoWidening(Build(t), Build(c))
            && Grants(Build(c), "w", "m", "1", ["docsxy"]) && !Grants(Build(t), "w", "m", "1", ["docsxy"])
  {
    hide Matches, Strip, Trimmed, Readable, Build, Tidy, Relative, Grants, NoWidening, Source, With;
    PatternTexts();
    OneEntry("docs*", "docs?");
    OneEntry("docsxy", "docs?");
    UnsoundListOpens(ExtraAllowed, ["docs?"], "docs*", "docsxy");
  }

  /** And where it closes them, so does the directory it replaces: as a prohibition
      or on the floor. */
  lemma PatternFrees(place: Place)
    requires !IsOpening(place)
    ensures var t := Source(With(place, ["docs/x"], ["docs/?"]));
            var c := Source(With(place, ["docs/?"], ["docs/?"]));
            && Readable(t) && Readable(c) && NoWidening(Build(t), Build(c))
            && Grants(Build(c), "w", Concerned(place), "1", ["docs/x/y"])
            && !Grants(Build(t), "w", Concerned(place), "1", ["docs/x/y"])
  {
    hide Matches, Strip, Trimmed, Readable, Build, Tidy, Relative, Grants, NoWidening, Source, With;
    QuestionTexts();
    OneEntry("docs/x", "docs/?");
    OneEntry("docs/x/y", "docs/?");
    UnsoundListOpens(place, ["docs/?"], "docs/x", "docs/x/y");
  }

  lemma GuardIgnored(list: seq<string>, guard: seq<string>)
    ensures With(ExtraAllowed, list, guard) == With(ExtraAllowed, list, list)
  {
  }

  lemma OneForOne(wide: string, narrow: string)
    requires Tidy([wide]) && Tidy([narrow])
    ensures var t, c := With(ExtraAllowed, [wide], [wide]), With(ExtraAllowed, [narrow], [narrow]);
            && Readable(Source(t)) && Readable(Source(c))
            && (NoWidening(Build(Source(t)), Build(Source(c))) <==> Matches(narrow, wide))
  {
    hide Matches, MatchesAny, Strip, Trimmed, Readable, Build, Tidy, NoWidening, Narrower, Source, Sample;
    var t, c := With(ExtraAllowed, [wide], [wide]), With(ExtraAllowed, [narrow], [narrow]);
    TidyCovers([wide]);
    TidyCovers([narrow]);
    WithReads(ExtraAllowed, [wide], [wide]);
    WithReads(ExtraAllowed, [narrow], [narrow]);
    OneEntry(narrow, wide);
    if Matches(narrow, wide) {
      WithNarrower(ExtraAllowed, [wide], narrow);
      GuardIgnored([narrow], [wide]);
      SampleNotWider(t, c);
    }
    if NoWidening(Sample(t), Sample(c)) {
      SampleWider(t, c);
      assert c.m.allowed[0] == narrow;
    }
  }

  /** Three readable grants, each no wider than the one before, the last one
      reported as wider than the first. */
  lemma PatternsNotTransitive()
    ensures var a := Source(With(ExtraAllowed, ["docs?"], ["docs?"]));
            var b := Source(With(ExtraAllowed, ["docs*"], ["docs*"]));
            var c := Source(With(ExtraAllowed, ["docsxy"], ["docsxy"]));
            && Readable(a) && Readable(b) && Readable(c)
            && NoWidening(Build(a), Build(b)) && NoWidening(Build(b), Build(c)) && !NoWidening(Build(a), Build(c))
  {
    hide Matches, Readable, Build, Tidy, NoWidening, Source, With;
    PatternTexts();
    OneForOne("docs?", "docs*");
    OneForOne("docs*", "docsxy");
    OneForOne("docs?", "docsxy");
  }
}
