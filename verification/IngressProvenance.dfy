/** Ingress provenance of a whole pull-request range: the paged readers of the
    trusted listings, and the proof each commit needs. */
module IngressProvenance {
  import opened ChangeSet
  import opened Text

  const PAGE_CAP := 30
  const PAGE_SIZE := 100

  // ------------------------------------------------------------ paged reading

  /** What the server answers to one page request. */
  datatype PageAnswer<T> = Page(items: seq<T>) | Malformed | RequestFailed

  function Slice<T>(all: seq<T>, page: nat): seq<T>
    requires page >= 1
  {
    var from := PAGE_SIZE * (page - 1);
    if from >= |all| then [] else if from + PAGE_SIZE <= |all| then all[from..from + PAGE_SIZE] else all[from..]
  }

  /** A server with one listing: each page it answers is a slice of it. */
  ghost predicate Serves<T>(answer: nat -> PageAnswer<T>, all: seq<T>) {
    forall page: nat :: page >= 1 && answer(page).Page? ==> answer(page).items == Slice(all, page)
  }

  /** The pages from `page` on, up to the first short one; nothing when a page
      cannot be had or the cap comes first. */
  function Listing<T>(answer: nat -> PageAnswer<T>, page: nat): Option<seq<T>>
    requires 1 <= page <= PAGE_CAP + 1
    decreases PAGE_CAP + 1 - page
  {
    if page > PAGE_CAP || !answer(page).Page? then None
    else if |answer(page).items| < PAGE_SIZE then Some(answer(page).items)
    else
      var rest := Listing(answer, page + 1);
      if rest.None? then None else Some(answer(page).items + rest.value)
  }

  /** The loop all three readers share. */
  method ReadPages<T>(answer: nat -> PageAnswer<T>) returns (listing: Option<seq<T>>)
    ensures listing == Listing(answer, 1)
  {
    var collected: seq<T> := [];
    ghost var whole := Listing(answer, 1);
    var page: nat := 1;
    assert whole.Some? ==> [] + whole.value == whole.value;
    while page <= PAGE_CAP
      invariant 1 <= page <= PAGE_CAP + 1
      invariant whole == var rest := Listing(answer, page); if rest.None? then None else Some(collected + rest.value)
    {
      if !answer(page).Page? {
        return None;
      }
      var items := answer(page).items;
      ghost var before := collected;
      collected := collected + items;
      if |items| < PAGE_SIZE {
        return Some(collected);
      }
      ghost var rest := Listing(answer, page + 1);
      assert rest.Some? ==> before + (items + rest.value) == collected + rest.value;
      page := page + 1;
    }
    listing := None;
  }

  lemma {:induction false} ListingWhole<T>(answer: nat -> PageAnswer<T>, all: seq<T>, page: nat)
    requires Serves(answer, all) && 1 <= page <= PAGE_CAP + 1 && PAGE_SIZE * (page - 1) <= |all|
    ensures Listing(answer, page).Some? ==>
              Listing(answer, page).value == all[PAGE_SIZE * (page - 1)..] && |all| < PAGE_SIZE * PAGE_CAP
    ensures (forall k: nat :: page <= k <= PAGE_CAP ==> answer(k).Page?) && |all| < PAGE_SIZE * PAGE_CAP ==>
              Listing(answer, page).Some?
    decreases PAGE_CAP + 1 - page
  {
    if page <= PAGE_CAP && answer(page).Page? {
      var from := PAGE_SIZE * (page - 1);
      var items := answer(page).items;
      assert items == Slice(all, page);
      if |items| == PAGE_SIZE {
        ListingWhole(answer, all, page + 1);
        assert all[from..] == items + all[from + PAGE_SIZE..];
      } else {
        assert items == all[from..];
      }
    }
  }

  /** A reader returns the whole listing or nothing, never a part of it; and with
      every page answered it succeeds exactly on listings under 3000 entries. */
  lemma WholeOrNothing<T>(answer: nat -> PageAnswer<T>, all: seq<T>)
    requires Serves(answer, all)
    ensures Listing(answer, 1).Some? ==> Listing(answer, 1) == Some(all)
    ensures (forall k: nat :: 1 <= k <= PAGE_CAP ==> answer(k).Page?) ==>
              (Listing(answer, 1).Some? <==> |all| < PAGE_SIZE * PAGE_CAP)
  {
    ListingWhole(answer, all, 1);
    assert all[0..] == all;
  }

  // ------------------------------------------------------------- the listings

  datatype Verification = Verification(verified: bool, reason: string)

  /** One element of a commit listing: not an object, or a commit with its SHA,
      its signature verification and its committer's login. */
  datatype Item = Junk | Entry(sha: string, verification: Option<Verification>, committer: string)

  function Normal(s: string): string {
    LowerAll(Strip(s))
  }

  function Entries(items: seq<Item>): (r: seq<Item>)
    ensures forall k :: 0 <= k < |r| ==> r[k].Entry?
    ensures forall x :: x in r <==> x in items && x.Entry?
  {
    if items == [] then [] else (if items[0].Entry? then [items[0]] else []) + Entries(items[1..])
  }

  function Shas(entries: seq<Item>): set<string> {
    set k | 0 <= k < |entries| && entries[k].Entry? :: Normal(entries[k].sha)
  }

  /** `read_pr_commits`. */
  method ReadCommits(answer: nat -> PageAnswer<Item>) returns (commits: Option<seq<Item>>)
    ensures commits == var all := Listing(answer, 1); if all.None? then None else Some(Entries(all.value))
  {
    var listing := ReadPages(answer);
    commits := if listing.None? then None else Some(Entries(listing.value));
  }

  /** `read_commits_beyond_attestation_floor`: the SHAs the comparison lists. */
  method ReadBeyondFloor(answer: nat -> PageAnswer<Item>) returns (beyond: Option<set<string>>)
    ensures beyond == var all := Listing(answer, 1); if all.None? then None else Some(Shas(all.value) - {""})
  {
    var listing := ReadPages(answer);
    beyond := if listing.None? then None else Some(Shas(listing.value) - {""});
  }

  // ----------------------------------------------------------- the range check

  datatype State = Success | Pending | Failure

  /** What the connector re-derivation said about the candidate. */
  datatype Origin = OriginRefused(unavailable: bool) | OrdinaryOrigin | ConnectorOrigin(writer: string)

  /** The trusted policy, and what was read: `None` where a read failed. */
  datatype Readings = Readings(
    policy: Option<(set<string>, string)>,
    commits: Option<seq<Item>>,
    beyondFloor: Option<set<string>>,
    grant: Option<(bool, set<string>)>,
    filesRead: bool,
    origin: Origin,
    hostedProof: State)

  /** A verified signature by an authorized committer. */
  predicate Signed(entry: Item, authorized: set<string>) {
    entry.Entry? && entry.verification == Some(Verification(true, "valid")) && Normal(entry.committer) in authorized
  }

  /** The commits that need a signature: the range, less what lies at or below the floor. */
  function Required(range: set<string>, floor: string, beyondFloor: Option<set<string>>): set<string> {
    if floor != "" && floor in range && beyondFloor.Some? then range * beyondFloor.value else range
  }

  function AuthorizedSigners(signers: set<string>, grant: (bool, set<string>)): set<string> {
    if grant.0 then signers + grant.1 else signers
  }

  /** The evidence every candidate needs, whatever its channel. */
  ghost predicate RangeRead(r: Readings, head: string) {
    && r.policy.Some? && r.commits.Some? && r.commits.value != []
    && (forall sha :: sha in Shas(r.commits.value) ==> Sha(sha)) && Normal(head) in Shas(r.commits.value)
    && (r.policy.value.1 != "" && r.policy.value.1 in Shas(r.commits.value) ==> r.beyondFloor.Some?)
    && r.grant.Some? && r.filesRead
  }

  ghost predicate RangeSigned(r: Readings)
    requires r.policy.Some? && r.commits.Some? && r.grant.Some?
  {
    var required := Required(Shas(r.commits.value), r.policy.value.1, r.beyondFloor);
    forall k :: 0 <= k < |r.commits.value| && r.commits.value[k].Entry?
                && Normal(r.commits.value[k].sha) in required ==>
      Signed(r.commits.value[k], AuthorizedSigners(r.policy.value.0, r.grant.value))
  }

  predicate ProofDue(r: Readings)
    requires r.policy.Some? && r.commits.Some? && r.grant.Some?
  {
    r.grant.value.0 && Required(Shas(r.commits.value), r.policy.value.1, r.beyondFloor) != {}
  }

  /** The last word, once all evidence is read and the channel is known. */
  ghost function Verdict(r: Readings): State
    requires r.policy.Some? && r.commits.Some? && r.grant.Some?
  {
    match r.origin
    case OriginRefused(unavailable) => if unavailable then Pending else Failure
    case ConnectorOrigin(writer) => if r.grant.value.0 && writer in r.grant.value.1 then r.hostedProof else Failure
    case OrdinaryOrigin =>
      if !RangeSigned(r) then Failure else if ProofDue(r) then r.hostedProof else Success
  }

  /** The loop over the commits: each one that needs it is signed. */
  method CheckSignatures(entries: seq<Item>, required: set<string>, authorized: set<string>) returns (ok: bool)
    ensures ok <==> forall k :: 0 <= k < |entries| && entries[k].Entry? && Normal(entries[k].sha) in required ==>
                      Signed(entries[k], authorized)
  {
    for i := 0 to |entries|
      invariant forall k :: 0 <= k < i && entries[k].Entry? && Normal(entries[k].sha) in required ==>
                  Signed(entries[k], authorized)
    {
      var entry := entries[i];
      if !entry.Entry? || Normal(entry.sha) !in required {
        continue;
      }
      if entry.verification.None? {
        return false;
      }
      var verification := entry.verification.value;
      if !verification.verified || verification.reason != "valid" {
        return false;
      }
      if Normal(entry.committer) !in authorized {
        return false;
      }
    }
    ok := true;
  }

  /** `verify_code_write_ingress_provenance`: reads and refusals in their order. */
  method VerifyIngress(r: Readings, head: string, bound: bool) returns (state: State)
    ensures state == if bound && RangeRead(r, head) then Verdict(r) else Failure
  {
    hide Normal, Signed;
    if !bound || r.policy.None? || r.commits.None? || r.commits.value == [] {
      return Failure;
    }
    var (signers, floor) := r.policy.value;
    var range := Shas(r.commits.value);
    if !(forall sha :: sha in range ==> Sha(sha)) || Normal(head) !in range {
      return Failure;
    }
    if floor != "" && floor in range && r.beyondFloor.None? {
      return Failure;
    }
    var required := Required(range, floor, r.beyondFloor);
    if r.grant.None? || !r.filesRead {
      return Failure;
    }
    var (enabled, logins) := r.grant.value;
    match r.origin {
      case OriginRefused(unavailable) =>
        return if unavailable then Pending else Failure;
      case ConnectorOrigin(writer) =>
        if !enabled || writer !in logins {
          return Failure;
        }
        return r.hostedProof;
      case OrdinaryOrigin =>
        var ok := CheckSignatures(r.commits.value, required, AuthorizedSigners(signers, r.grant.value));
        if !ok {
          return Failure;
        }
        if enabled && required != {} {
          return r.hostedProof;
        }
        return Success;
    }
  }

  /** A listed commit needs a signature unless it is spared by a floor that is set,
      lies in the range and could be compared with the head. */
  predicate NeedsSignature(r: Readings, sha: string)
    requires r.policy.Some? && r.commits.Some?
  {
    && sha in Shas(r.commits.value)
    && var floor := r.policy.value.1;
       (floor != "" && floor in Shas(r.commits.value) && r.beyondFloor.Some? ==> sha in r.beyondFloor.value)
  }

  /** Each listed entry of a commit that needs it carries a verified, valid signature
      by an owner-listed signer or, under an active grant, by a granted writer. */
  ghost predicate AllAttested(r: Readings)
    requires r.policy.Some? && r.commits.Some? && r.grant.Some?
  {
    forall k :: 0 <= k < |r.commits.value| && r.commits.value[k].Entry?
                && NeedsSignature(r, Normal(r.commits.value[k].sha)) ==>
      var entry := r.commits.value[k];
      && entry.verification.Some? && entry.verification.value.verified && entry.verification.value.reason == "valid"
      && (Normal(entry.committer) in r.policy.value.0
          || (r.grant.value.0 && Normal(entry.committer) in r.grant.value.1))
  }

  lemma AttestedExactly(r: Readings)
    requires r.policy.Some? && r.commits.Some? && r.grant.Some?
    ensures AllAttested(r) <==> RangeSigned(r)
    ensures ProofDue(r) <==> r.grant.value.0 && exists sha :: NeedsSignature(r, sha)
  {
    hide Normal, Shas;
    var required := Required(Shas(r.commits.value), r.policy.value.1, r.beyondFloor);
    assert forall sha :: sha in required <==> NeedsSignature(r, sha);
    if AllAttested(r) {
      forall k | 0 <= k < |r.commits.value| && r.commits.value[k].Entry? && Normal(r.commits.value[k].sha) in required
        ensures Signed(r.commits.value[k], AuthorizedSigners(r.policy.value.0, r.grant.value))
      {
        assert NeedsSignature(r, Normal(r.commits.value[k].sha));
      }
    }
  }

  /** Success needs, on the connector's channel, an active grant that lists the
      writer and a successful hosted proof; on the ordinary one, every signature
      that is needed and, under an active grant, the hosted proof as well. */
  lemma SuccessExactly(r: Readings)
    requires r.policy.Some? && r.commits.Some? && r.grant.Some?
    ensures Verdict(r).Success?
            <==> || (&& r.origin.ConnectorOrigin? && r.grant.value.0 && r.origin.writer in r.grant.value.1
                     && r.hostedProof.Success?)
                 || (&& r.origin.OrdinaryOrigin? && AllAttested(r)
                     && (r.grant.value.0 && (exists sha :: NeedsSignature(r, sha)) ==> r.hostedProof.Success?))
  {
    hide RangeSigned, ProofDue, AllAttested, NeedsSignature;
    AttestedExactly(r);
  }

  /** Waiting is for evidence that is temporarily unavailable, or for a hosted proof
      still running where everything else is in place. */
  lemma PendingExactly(r: Readings)
    requires r.policy.Some? && r.commits.Some? && r.grant.Some?
    ensures Verdict(r).Pending?
            <==> || r.origin == OriginRefused(true)
                 || (&& r.origin.ConnectorOrigin? && r.grant.value.0 && r.origin.writer in r.grant.value.1
                     && r.hostedProof.Pending?)
                 || (&& r.origin.OrdinaryOrigin? && AllAttested(r)
                     && r.grant.value.0 && (exists sha :: NeedsSignature(r, sha)) && r.hostedProof.Pending?)
  {
    hide RangeSigned, ProofDue, AllAttested, NeedsSignature;
    AttestedExactly(r);
  }

  // ------------------------------------------------------------ over the graph

  /** The parents of each commit. */
  type Graph = map<string, set<string>>

  ghost predicate IsPath(g: Graph, path: seq<string>) {
    path != [] && forall i :: 0 <= i < |path| - 1 ==> path[i] in g && path[i + 1] in g[path[i]]
  }

  /** `a` is `b` or reachable from it over parents. */
  ghost predicate Ancestor(g: Graph, a: string, b: string) {
    exists path :: IsPath(g, path) && path[0] == b && path[|path| - 1] == a
  }

  lemma AncestorTransitive(g: Graph, a: string, b: string, c: string)
    requires Ancestor(g, a, b) && Ancestor(g, b, c)
    ensures Ancestor(g, a, c)
  {
    var upper :| IsPath(g, upper) && upper[0] == c && upper[|upper| - 1] == b;
    var lower :| IsPath(g, lower) && lower[0] == b && lower[|lower| - 1] == a;
    var path := upper + lower[1..];
    forall i | 0 <= i < |path| - 1 ensures path[i] in g && path[i + 1] in g[path[i]] {
      if i >= |upper| - 1 {
        assert path[i] == lower[i - (|upper| - 1)] && path[i + 1] == lower[i - (|upper| - 1) + 1];
      }
    }
    assert IsPath(g, path);
  }

  /** The pull request's listing covers its range: every commit of the head that
      the base does not have is listed. */
  ghost predicate CoversRange(entries: seq<Item>, g: Graph, base: string, head: string) {
    forall sha :: Ancestor(g, sha, head) && !Ancestor(g, sha, base) ==> sha in Shas(entries)
  }

  /** A three-dot comparison: what the head has and the merge base has not, the
      merge base being a common ancestor of the two sides. */
  ghost predicate Compares(beyond: set<string>, g: Graph, floor: string, head: string) {
    exists mergeBase :: Ancestor(g, mergeBase, floor) && Ancestor(g, mergeBase, head)
      && forall sha :: Ancestor(g, sha, head) && !Ancestor(g, sha, mergeBase) ==> sha in beyond
  }

  /** The comparison spares nothing but ancestors of the floor. */
  lemma SparedBelowFloor(beyond: set<string>, g: Graph, floor: string, head: string, sha: string)
    requires Compares(beyond, g, floor, head) && Ancestor(g, sha, head) && sha !in beyond
    ensures Ancestor(g, sha, floor)
  {
    hide Ancestor;
    var mergeBase :| Ancestor(g, mergeBase, floor) && Ancestor(g, mergeBase, head)
      && forall sha :: Ancestor(g, sha, head) && !Ancestor(g, sha, mergeBase) ==> sha in beyond;
    AncestorTransitive(g, sha, mergeBase, floor);
  }

  /** Success on the ordinary path: every commit of the range, wherever it sits
      below the tip, is an ancestor of the attestation floor or carries a valid
      signature by an authorized committer on each of its listed entries. */
  lemma OrdinarySuccessCovers(r: Readings, g: Graph, base: string, head: string, sha: string)
    requires RangeRead(r, head) && r.origin.OrdinaryOrigin? && Verdict(r).Success?
    requires CoversRange(r.commits.value, g, base, head)
    requires r.beyondFloor.Some? ==> Compares(r.beyondFloor.value, g, r.policy.value.1, head)
    requires Ancestor(g, sha, head) && !Ancestor(g, sha, base)
    ensures Ancestor(g, sha, r.policy.value.1)
            || (sha in Shas(r.commits.value)
                && forall k :: 0 <= k < |r.commits.value| && r.commits.value[k].Entry?
                               && Normal(r.commits.value[k].sha) == sha ==>
                     Signed(r.commits.value[k], AuthorizedSigners(r.policy.value.0, r.grant.value)))
  {
    hide Normal, Signed, Ancestor, Compares;
    assert sha in Shas(r.commits.value);
    if sha !in Required(Shas(r.commits.value), r.policy.value.1, r.beyondFloor) {
      SparedBelowFloor(r.beyondFloor.value, g, r.policy.value.1, head, sha);
    }
  }

  lemma {:induction false} EntriesKeepShas(items: seq<Item>)
    ensures Shas(Entries(items)) == Shas(items)
  {
    hide Normal;
    var kept := Entries(items);
    forall sha ensures sha in Shas(kept) <==> sha in Shas(items) {
      if sha in Shas(items) {
        var k :| 0 <= k < |items| && items[k].Entry? && Normal(items[k].sha) == sha;
        assert items[k] in kept;
      }
    }
  }

  /** End to end: from the pages of a server with complete listings to the
      signatures on the graph. Whatever pages fail, success means proof. */
  lemma PagesToProof(commitPages: nat -> PageAnswer<Item>, allCommits: seq<Item>,
                     comparePages: nat -> PageAnswer<Item>, allCompared: seq<Item>,
                     r: Readings, g: Graph, base: string, head: string, sha: string)
    requires Serves(commitPages, allCommits) && CoversRange(allCommits, g, base, head)
    requires r.commits == var all := Listing(commitPages, 1); if all.None? then None else Some(Entries(all.value))
    requires Serves(comparePages, allCompared) && r.policy.Some?
    requires Compares(Shas(allCompared) - {""}, g, r.policy.value.1, head)
    requires r.beyondFloor
             == var all := Listing(comparePages, 1); if all.None? then None else Some(Shas(all.value) - {""})
    requires RangeRead(r, head) && r.origin.OrdinaryOrigin? && Verdict(r).Success?
    requires Ancestor(g, sha, head) && !Ancestor(g, sha, base)
    ensures Ancestor(g, sha, r.policy.value.1)
            || exists k :: 0 <= k < |allCommits| && allCommits[k].Entry? && Normal(allCommits[k].sha) == sha
                 && Signed(allCommits[k], AuthorizedSigners(r.policy.value.0, r.grant.value))
  {
    hide Normal, Signed, Ancestor, Compares, Listing, Serves, Verdict;
    WholeOrNothing(commitPages, allCommits);
    WholeOrNothing(comparePages, allCompared);
    EntriesKeepShas(allCommits);
    OrdinarySuccessCovers(r, g, base, head, sha);
    if !Ancestor(g, sha, r.policy.value.1) {
      var k :| 0 <= k < |r.commits.value| && r.commits.value[k].Entry? && Normal(r.commits.value[k].sha) == sha;
      assert r.commits.value[k] in allCommits;
    }
  }
}
