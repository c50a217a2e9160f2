/** The authority closure: every script the gates, the push boundary or a gating
    workflow runs, with everything those scripts depend on. */
module AuthorityClosure {
  import opened Text
  import opened ScopeEntries
  import opened ConnectorGrant

  /** What analysing one file yields: its literal script references and the
      names of the modules it imports absolutely. */
  datatype Source = Unanalysable | Analysed(references: seq<string>, modules: seq<string>)

  /** The files of the checkout, and the order in which a listing yields them. */
  datatype Repo = Repo(files: map<string, Source>, listing: seq<string>)

  const SCRIPTS := "scripts/"

  predicate IsFile(repo: Repo, path: string) {
    path in repo.files
  }

  /** Paths that a script reference can name: under `scripts/`, a Python file. */
  predicate ScriptPath(path: string) {
    SCRIPTS <= path && EndsWith(path, ".py")
  }

  ghost predicate Consistent(repo: Repo) {
    && (forall f :: f in repo.listing <==> IsFile(repo, f))
    && forall f :: f in repo.files && repo.files[f].Analysed? ==>
                     forall i :: 0 <= i < |repo.files[f].references| ==> ScriptPath(repo.files[f].references[i])
  }

  // ------------------------------------------------------------ dependencies

  /** Everything before the last slash. */
  function Parent(path: string): (r: string)
    ensures |r| < |path| || path == []
    ensures r + "/" <= path || (r == [] && '/' !in path)
    ensures forall i :: |r| < i < |path| ==> path[i] != '/'
  {
    if path == [] then []
    else if path[|path| - 1] == '/' then path[..|path| - 1]
    else
      var r := Parent(path[..|path| - 1]);
      assert path == path[..|path| - 1] + [path[|path| - 1]];
      r
  }

  function FirstComponent(name: string): string {
    if name == [] || name[0] == '.' then [] else [name[0]] + FirstComponent(name[1..])
  }

  /** `_local_script_module`: the file under `scripts/` a module name denotes. */
  function LocalScriptModule(repo: Repo, name: string): Option<string> {
    var m := FirstComponent(name);
    var asFile, asPackage := SCRIPTS + m + ".py", SCRIPTS + m + "/__init__.py";
    if IsFile(repo, asFile) then Some(asFile)
    else if IsFile(repo, asPackage) then Some(asPackage)
    else None
  }

  function FilesAmong(repo: Repo, paths: seq<string>): (r: seq<string>)
    ensures forall x :: x in r <==> x in paths && IsFile(repo, x)
  {
    if paths == [] then []
    else (if IsFile(repo, paths[0]) then [paths[0]] else []) + FilesAmong(repo, paths[1..])
  }

  function Resolved(repo: Repo, modules: seq<string>): (r: seq<string>)
    ensures forall x :: x in r <==> exists i :: 0 <= i < |modules| && LocalScriptModule(repo, modules[i]) == Some(x)
  {
    if modules == [] then []
    else
      var target := LocalScriptModule(repo, modules[0]);
      var rest := Resolved(repo, modules[1..]);
      assert forall i :: 0 < i < |modules| ==> modules[i] == modules[1..][i - 1];
      if target.Some? then [target.value] + rest else rest
  }

  /** The Python files anywhere below a directory. */
  function Below(listing: seq<string>, dir: string): (r: seq<string>)
    ensures forall x :: x in r <==> x in listing && dir + "/" <= x && EndsWith(x, ".py")
  {
    if listing == [] then []
    else
      (if dir + "/" <= listing[0] && EndsWith(listing[0], ".py") then [listing[0]] else [])
      + Below(listing[1..], dir)
  }

  function Dependencies(repo: Repo, path: string): (r: seq<string>) {
    if !IsFile(repo, path) || repo.files[path].Unanalysable? then []
    else
      (if EndsWith(path, "/__init__.py") then Below(repo.listing, Parent(path)) else [])
      + FilesAmong(repo, repo.files[path].references)
      + Resolved(repo, repo.files[path].modules)
  }

  // ------------------------------------------------------------- the closure

  ghost predicate Closed(repo: Repo, s: set<string>) {
    forall f, d :: f in s && d in Dependencies(repo, f) ==> d in s
  }

  ghost predicate Holding(entrypoints: seq<string>, s: set<string>) {
    forall e :: e in entrypoints ==> e in s
  }

  /** The least set that holds the entrypoints and is closed. */
  ghost predicate IsClosure(repo: Repo, entrypoints: seq<string>, s: set<string>) {
    && Holding(entrypoints, s) && Closed(repo, s)
    && forall t :: Holding(entrypoints, t) && Closed(repo, t) ==> s <= t
  }

  lemma DependenciesAreFiles(repo: Repo, path: string)
    requires Consistent(repo)
    ensures forall d :: d in Dependencies(repo, path) ==> IsFile(repo, d)
  {
    hide Below, FilesAmong, Resolved;
    if IsFile(repo, path) && repo.files[path].Analysed? {
      forall d | d in Resolved(repo, repo.files[path].modules) ensures IsFile(repo, d) {
        var i :| 0 <= i < |repo.files[path].modules| && LocalScriptModule(repo, repo.files[path].modules[i]) == Some(d);
      }
    }
  }

  /** The worklist, which also names every member that could not be analysed. */
  method Closure(repo: Repo, entrypoints: seq<string>) returns (seen: set<string>, errors: seq<string>)
    requires Consistent(repo) && forall e :: e in entrypoints ==> IsFile(repo, e)
    ensures IsClosure(repo, entrypoints, seen)
    ensures forall f :: f in seen <==> Reached(repo, entrypoints, f)
    ensures forall f :: f in seen ==> IsFile(repo, f)
    ensures forall f :: f in errors <==> f in seen && repo.files[f].Unanalysable?
  {
    hide Dependencies, Reached;
    seen, errors := {}, [];
    var queue := entrypoints;
    while queue != []
      invariant forall f :: f in queue || f in seen ==> IsFile(repo, f)
      invariant forall e :: e in entrypoints ==> e in seen || e in queue
      invariant forall f, d :: f in seen && d in Dependencies(repo, f) ==> d in seen || d in queue
      invariant forall t :: Holding(entrypoints, t) && Closed(repo, t) ==>
                              seen <= t && forall f :: f in queue ==> f in t
      invariant forall f :: f in errors <==> f in seen && repo.files[f].Unanalysable?
      decreases repo.files.Keys - seen, |queue|
    {
      var path := queue[|queue| - 1];
      ghost var before := queue;
      queue := queue[..|queue| - 1];
      assert before == queue + [path];
      if path in seen {
        continue;
      }
      seen := seen + {path};
      DependenciesAreFiles(repo, path);
      if repo.files[path].Unanalysable? {
        errors := errors + [path];
        NoDependencies(repo, path);
        continue;
      }
      queue := queue + Dependencies(repo, path);
    }
    ClosureReached(repo, entrypoints, seen);
  }

  lemma NoDependencies(repo: Repo, path: string)
    requires IsFile(repo, path) && repo.files[path].Unanalysable?
    ensures Dependencies(repo, path) == []
  {
  }

  lemma ClosureUnique(repo: Repo, entrypoints: seq<string>, s: set<string>, t: set<string>)
    requires IsClosure(repo, entrypoints, s) && IsClosure(repo, entrypoints, t)
    ensures s == t
  {
  }

  // ------------------------------------------------- what the closure holds

  /** `m` is what the module name starts with, up to its first dot. */
  predicate FirstName(name: string, m: string) {
    m <= name && '.' !in m && (m == name || name[|m|] == '.')
  }

  lemma {:induction false} FirstNameIs(name: string, m: string)
    ensures FirstName(name, m) <==> m == FirstComponent(name)
  {
    if name != [] && name[0] != '.' {
      if m != [] {
        FirstNameIs(name[1..], m[1..]);
        assert m == [m[0]] + m[1..];
        assert m <= name <==> m[0] == name[0] && m[1..] <= name[1..];
        assert '.' in m <==> m[0] == '.' || '.' in m[1..];
      }
    }
  }

  /** A literal reference in the text of `f`. */
  predicate Refers(repo: Repo, f: string, d: string)
    requires IsFile(repo, f) && repo.files[f].Analysed?
  {
    d in repo.files[f].references && IsFile(repo, d)
  }

  /** An absolute import by `f`: the script of that name or, without one, the
      package of that name. */
  ghost predicate Imports(repo: Repo, f: string, d: string)
    requires IsFile(repo, f) && repo.files[f].Analysed?
  {
    exists name, m :: name in repo.files[f].modules && FirstName(name, m) && IsFile(repo, d)
      && (d == "scripts/" + m + ".py"
          || (d == "scripts/" + m + "/__init__.py" && !IsFile(repo, "scripts/" + m + ".py")))
  }

  /** `f` makes a directory a package, in which, at any depth, `d` is a Python file. */
  ghost predicate Packages(repo: Repo, f: string, d: string) {
    exists dir :: f == dir + "/__init__.py" && dir + "/" <= d && EndsWith(d, ".py") && d in repo.listing
  }

  ghost predicate DependsOn(repo: Repo, f: string, d: string) {
    IsFile(repo, f) && repo.files[f].Analysed? && (Refers(repo, f, d) || Imports(repo, f, d) || Packages(repo, f, d))
  }

  lemma ImportsExactly(repo: Repo, f: string, d: string)
    requires IsFile(repo, f) && repo.files[f].Analysed?
    ensures Imports(repo, f, d) <==> d in Resolved(repo, repo.files[f].modules)
  {
    hide Resolved, FirstComponent, FirstName;
    var modules := repo.files[f].modules;
    if Imports(repo, f, d) {
      var name, m :| name in modules && FirstName(name, m) && IsFile(repo, d)
        && (d == "scripts/" + m + ".py"
            || (d == "scripts/" + m + "/__init__.py" && !IsFile(repo, "scripts/" + m + ".py")));
      FirstNameIs(name, m);
      var i :| 0 <= i < |modules| && modules[i] == name;
      assert LocalScriptModule(repo, modules[i]) == Some(d);
    }
    if d in Resolved(repo, modules) {
      var i :| 0 <= i < |modules| && LocalScriptModule(repo, modules[i]) == Some(d);
      FirstNameIs(modules[i], FirstComponent(modules[i]));
    }
  }

  lemma ParentIs(d: string, name: string)
    requires '/' !in name
    ensures Parent(d + "/" + name) == d
  {
    hide Parent;
    var f := d + "/" + name;
    var r := Parent(f);
    assert f[|d|] == '/';
    assert forall i :: |d| < i < |f| ==> f[i] == name[i - |d| - 1];
    assert |r| >= |d| && f[|r|] == (r + "/")[|r|];
    assert |r| == |d| && r == f[..|r|];
  }

  lemma ParentOfInit(dir: string)
    ensures Parent(dir + "/__init__.py") == dir
  {
    hide Parent;
    assert dir + "/__init__.py" == dir + "/" + "__init__.py";
    ParentIs(dir, "__init__.py");
  }

  lemma PackagesExactly(repo: Repo, f: string, d: string)
    ensures Packages(repo, f, d) <==> EndsWith(f, "/__init__.py") && d in Below(repo.listing, Parent(f))
  {
    hide Parent, Below;
    if EndsWith(f, "/__init__.py") {
      var dir := f[..|f| - |"/__init__.py"|];
      assert f == dir + "/__init__.py";
      ParentOfInit(dir);
    }
    if Packages(repo, f, d) {
      var dir :| f == dir + "/__init__.py" && dir + "/" <= d && EndsWith(d, ".py") && d in repo.listing;
      ParentOfInit(dir);
      assert f[|dir|..] == "/__init__.py";
    }
  }

  lemma DependsExactly(repo: Repo, f: string, d: string)
    ensures DependsOn(repo, f, d) <==> d in Dependencies(repo, f)
  {
    hide Below, FilesAmong, Resolved, Parent, Imports, Packages, EndsWith;
    if IsFile(repo, f) && repo.files[f].Analysed? {
      ImportsExactly(repo, f, d);
      PackagesExactly(repo, f, d);
    }
  }

  /** A chain of dependencies from an entrypoint down to `f`. */
  ghost predicate Chain(repo: Repo, entrypoints: seq<string>, chain: seq<string>, f: string) {
    && chain != [] && chain[0] in entrypoints && chain[|chain| - 1] == f
    && forall i :: 0 <= i < |chain| - 1 ==> DependsOn(repo, chain[i], chain[i + 1])
  }

  ghost predicate Reached(repo: Repo, entrypoints: seq<string>, f: string) {
    exists chain :: Chain(repo, entrypoints, chain, f)
  }

  lemma ReachedFurther(repo: Repo, entrypoints: seq<string>, f: string, d: string)
    requires Reached(repo, entrypoints, f) && DependsOn(repo, f, d)
    ensures Reached(repo, entrypoints, d)
  {
    hide DependsOn;
    var chain :| Chain(repo, entrypoints, chain, f);
    assert Chain(repo, entrypoints, chain + [d], d);
  }

  lemma {:induction false} ChainInside(repo: Repo, entrypoints: seq<string>, s: set<string>, chain: seq<string>, i: nat)
    requires Holding(entrypoints, s) && Closed(repo, s)
    requires chain != [] && chain[0] in entrypoints && i < |chain|
    requires forall i :: 0 <= i < |chain| - 1 ==> DependsOn(repo, chain[i], chain[i + 1])
    ensures chain[i] in s
  {
    hide DependsOn, Dependencies;
    if i > 0 {
      ChainInside(repo, entrypoints, s, chain, i - 1);
      DependsExactly(repo, chain[i - 1], chain[i]);
    }
  }

  /** The closure is exactly what chains of references, imports and package
      membership reach from the entrypoints. */
  lemma ClosureReached(repo: Repo, entrypoints: seq<string>, s: set<string>)
    requires IsClosure(repo, entrypoints, s)
    ensures forall f :: f in s <==> Reached(repo, entrypoints, f)
  {
    hide DependsOn, Dependencies;
    var t := set f | f in s && Reached(repo, entrypoints, f);
    forall e | e in entrypoints ensures Reached(repo, entrypoints, e) {
      assert Chain(repo, entrypoints, [e], e);
    }
    forall f, d | f in t && d in Dependencies(repo, f) ensures d in t {
      DependsExactly(repo, f, d);
      ReachedFurther(repo, entrypoints, f, d);
    }
    assert Holding(entrypoints, t) && Closed(repo, t);
    forall f | Reached(repo, entrypoints, f) ensures f in s {
      var chain :| Chain(repo, entrypoints, chain, f);
      ChainInside(repo, entrypoints, s, chain, |chain| - 1);
    }
  }

  // --------------------------------------------------------------- the floor

  function WithoutScripts(path: string): string {
    if SCRIPTS <= path then path[|SCRIPTS|..] else path
  }

  /** A file directly under `scripts/` protects itself; anything deeper is
      protected as its whole directory. */
  function FloorEntry(path: string): string {
    if '/' in WithoutScripts(path) then Parent(path) + "/" else path
  }

  function Floor(seen: set<string>, gating: set<string>, fixed: set<string>): set<string> {
    (set f | f in seen :: FloorEntry(f)) + gating + fixed
  }

  lemma EverythingInScripts(repo: Repo, entrypoints: seq<string>, seen: set<string>)
    requires Consistent(repo) && IsClosure(repo, entrypoints, seen)
    requires forall e :: e in entrypoints ==> IsFile(repo, e) && ScriptPath(e)
    ensures forall f :: f in seen ==> ScriptPath(f)
  {
    hide Below, FilesAmong, Resolved, Parent, Dependencies;
    var inScripts := set f | f in repo.files && ScriptPath(f);
    forall f, d | f in inScripts && d in Dependencies(repo, f) ensures d in inScripts {
      DependenciesAreFiles(repo, f);
      DependencyInScripts(repo, f, d);
    }
    assert Holding(entrypoints, inScripts) && Closed(repo, inScripts);
  }

  lemma DependencyInScripts(repo: Repo, f: string, d: string)
    requires Consistent(repo) && ScriptPath(f) && d in Dependencies(repo, f)
    ensures ScriptPath(d)
  {
    hide Below, FilesAmong, Resolved, Parent;
    var modules := repo.files[f].modules;
    if d in Resolved(repo, modules) {
      var i :| 0 <= i < |modules| && LocalScriptModule(repo, modules[i]) == Some(d);
      ModulePath(FirstComponent(modules[i]));
    } else if EndsWith(f, "/__init__.py") && d in Below(repo.listing, Parent(f)) {
      ParentInScripts(f);
      assert SCRIPTS <= Parent(f) + "/" <= d;
    } else {
      assert d in repo.files[f].references;
    }
  }

  lemma ModulePath(m: string)
    ensures ScriptPath(SCRIPTS + m + ".py") && ScriptPath(SCRIPTS + m + "/__init__.py")
  {
    var package := SCRIPTS + m + "/__init__.py";
    assert package[|package| - 3..] == ".py";
  }

  lemma ParentInScripts(f: string)
    requires SCRIPTS <= f
    ensures SCRIPTS <= Parent(f) + "/" <= f
  {
    hide Parent;
    var r := Parent(f);
    assert f[7] == '/';
    if |r| > 7 {
      assert SCRIPTS <= r;
    } else {
      assert r + "/" <= f;
      assert |r| == 7;
    }
  }

  lemma DirectoryHolds(dir: string, path: string)
    requires dir + "/" <= path
    ensures InScope(path, dir + "/")
  {
    hide Glob;
    var entry := dir + "/";
    var inner := DropTail(entry, '/');
    assert |inner| < |entry| && inner <= entry && entry[|inner|] == '/';
    assert inner + "/" <= entry;
  }

  lemma ScriptTrimmed(f: string)
    requires ScriptPath(f)
    ensures Trimmed(f) && f[0] == 's' && |f| > |SCRIPTS|
  {
    assert f[|f| - 3..][2] == 'y';
    assert f[7] == '/';
  }

  /** Each member of the closure lies in the scope of its floor entry. */
  lemma FloorCovers(f: string)
    requires ScriptPath(f)
    ensures Matches(f, FloorEntry(f))
  {
    hide Glob, Parent, Strip;
    ScriptTrimmed(f);
    ParentInScripts(f);
    var entry := FloorEntry(f);
    if entry != f {
      assert entry[0] == SCRIPTS[0];
      DirectoryHolds(Parent(f), f);
    }
    assert Strip(entry) == entry;
  }

  lemma ShortDirectory(d: string)
    requires SCRIPTS <= d + "/" && |d| == 7
    ensures d == "scripts"
  {
    assert d == (d + "/")[..7];
  }

  /** And it is no wider than it should be and no narrower: a script directly in
      the script directory is protected by itself, and with one deeper down its
      whole directory. */
  lemma FloorExtent(f: string, d: string, name: string)
    requires ScriptPath(f) && f == d + "/" + name && '/' !in name
    ensures d == "scripts" ==> FloorEntry(f) == f
    ensures d != "scripts" ==>
              FloorEntry(f) == d + "/" && forall path :: d + "/" <= path ==> Matches(path, FloorEntry(f))
  {
    hide Glob, Parent, Strip, EndsWith;
    ParentIs(d, name);
    ParentInScripts(f);
    ScriptTrimmed(f);
    var rest := f[|SCRIPTS|..];
    assert forall i :: 0 <= i < |rest| ==> rest[i] == f[i + |SCRIPTS|];
    if d == "scripts" {
      assert rest == name;
    } else {
      assert SCRIPTS <= d + "/" && |d| >= 7;
      if |d| == 7 {
        ShortDirectory(d);
      }
      assert rest[|d| - |SCRIPTS|] == f[|d|] == '/';
      var entry := d + "/";
      assert entry[0] == SCRIPTS[0];
      SlashNoSpace();
      assert Trimmed(entry) && Strip(entry) == entry;
      forall path | entry <= path ensures Matches(path, entry) {
        DirectoryHolds(d, path);
      }
    }
  }

  /** With the whole required floor covered by a root of trust that compares
      soundly, as plain entries do, the scope check refuses every request that
      touches a member of the closure. */
  lemma ClosureProtected(p: Policy, repo: Repo, entrypoints: seq<string>, seen: set<string>,
                         gating: set<string>, fixed: set<string>)
    requires Consistent(repo) && IsClosure(repo, entrypoints, seen)
    requires forall e :: e in entrypoints ==> IsFile(repo, e) && ScriptPath(e)
    requires Compares(p.rootOfTrust)
    requires forall required :: required in Floor(seen, gating, fixed) ==> MatchesAny(required, p.rootOfTrust)
    ensures forall paths, capability, issue :: ScopeAccepts(p, paths, capability, issue) ==>
              forall i :: 0 <= i < |paths| ==> paths[i] !in seen
  {
    hide Matches;
    EverythingInScripts(repo, entrypoints, seen);
    forall f | f in seen ensures MatchesAny(f, p.rootOfTrust) {
      FloorCovers(f);
      var required := FloorEntry(f);
      assert required in Floor(seen, gating, fixed);
    }
  }

  /** Rewriting files outside the closure does not change the closure. */
  lemma ClosureStable(before: Repo, after: Repo, entrypoints: seq<string>, seen: set<string>, written: set<string>)
    requires IsClosure(before, entrypoints, seen) && written !! seen
    requires after.listing == before.listing && after.files.Keys == before.files.Keys
    requires forall f :: f in before.files && f !in written ==> after.files[f] == before.files[f]
    ensures IsClosure(after, entrypoints, seen)
  {
    forall f | f in seen ensures Dependencies(after, f) == Dependencies(before, f) {
      SameDependencies(before, after, f);
    }
    hide Dependencies;
    forall t | Holding(entrypoints, t) && Closed(after, t) ensures seen <= t {
      assert Holding(entrypoints, t * seen) && Closed(before, t * seen);
    }
  }

  lemma SameDependencies(before: Repo, after: Repo, f: string)
    requires after.listing == before.listing && after.files.Keys == before.files.Keys
    requires f in before.files ==> after.files[f] == before.files[f]
    ensures Dependencies(after, f) == Dependencies(before, f)
  {
    if IsFile(before, f) && before.files[f].Analysed? {
      SameFiles(before, after, before.files[f].references);
      SameResolved(before, after, before.files[f].modules);
    }
  }

  lemma {:induction false} SameFiles(before: Repo, after: Repo, paths: seq<string>)
    requires after.files.Keys == before.files.Keys
    ensures FilesAmong(after, paths) == FilesAmong(before, paths)
  {
    if paths != [] {
      SameFiles(before, after, paths[1..]);
    }
  }

  lemma {:induction false} SameResolved(before: Repo, after: Repo, modules: seq<string>)
    requires after.files.Keys == before.files.Keys
    ensures Resolved(after, modules) == Resolved(before, modules)
  {
    if modules != [] {
      SameResolved(before, after, modules[1..]);
      assert LocalScriptModule(after, modules[0]) == LocalScriptModule(before, modules[0]);
    }
  }
}
