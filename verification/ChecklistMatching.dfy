/** The Audit Completion Check matcher: every canonical topic needs a checked
    entry of its own. `candidates[t]` lists the entries that assert topic `t`;
    the relation is arbitrary. A matching is a map from entries to topics. */
module ChecklistMatching {

  type Candidates = seq<seq<nat>>

  ghost predicate Asserted(cand: Candidates, m: map<nat, nat>) {
    forall e :: e in m ==> m[e] < |cand| && e in cand[m[e]]
  }

  ghost predicate Injective(m: map<nat, nat>) {
    forall e, f :: e in m && f in m && m[e] == m[f] ==> e == f
  }

  ghost predicate IsMatching(cand: Candidates, m: map<nat, nat>) {
    Asserted(cand, m) && Injective(m)
  }

  ghost predicate Holds(m: map<nat, nat>, topic: nat) {
    exists e :: e in m && m[e] == topic
  }

  /** Some matching gives every one of these topics an entry. */
  ghost predicate Coverable(cand: Candidates, topics: set<nat>) {
    exists m :: IsMatching(cand, m) && forall t :: t in topics ==> Holds(m, t)
  }

  ghost function Entries(cand: Candidates): set<nat> {
    set t, i | 0 <= t < |cand| && 0 <= i < |cand[t]| :: cand[t][i]
  }

  ghost function Earlier(reported: seq<nat>, topic: nat): set<nat> {
    set s | 0 <= s < topic && s !in reported
  }

  ghost function Topics(n: nat): (s: set<nat>)
    ensures forall t: nat :: t in s <==> t < n
    ensures |s| == n
  {
    if n == 0 then {} else Topics(n - 1) + {n - 1}
  }

  ghost predicate Ascending(list: seq<nat>) {
    forall i, j :: 0 <= i < j < |list| ==> list[i] < list[j]
  }

  ghost function Listed(list: seq<nat>): set<nat> {
    set t | t in list
  }

  /** Below `n`, a topic is reported exactly when no matching serves it beside
      every earlier topic that was not reported. */
  ghost predicate Justified(cand: Candidates, reported: seq<nat>, n: nat) {
    forall t: nat :: t < n ==> (t in reported <==> !Coverable(cand, Earlier(reported, t) + {t}))
  }

  ghost predicate Within(list: seq<nat>, s: set<nat>) {
    forall e :: e in list ==> e in s
  }

  /** Every entry of `s` is owned, and its owner has no candidate outside `s`:
      no augmenting path ever leaves `s`. */
  ghost predicate Tight(cand: Candidates, m: map<nat, nat>, s: set<nat>) {
    forall e :: e in s ==> e in m && m[e] < |cand| && Within(cand[m[e]], s)
  }

  /** What one successful `Assign(topic, visited)` did to the owner map. Only the
      re-homed topic may still hold a second entry, and that one is in `visited`. */
  ghost predicate Augmented(cand: Candidates, pre: map<nat, nat>, post: map<nat, nat>,
                            topic: nat, visited: set<nat>, tight: set<nat>) {
    && Asserted(cand, post)
    && pre.Keys <= post.Keys
    && (forall e :: e in pre && (e in visited || e in tight) ==> post[e] == pre[e])
    && NearInjective(post, topic, visited)
    && (forall t :: Holds(post, t) <==> Holds(pre, t) || t == topic)
    && (exists e :: e in post && post[e] == topic && e !in visited)
  }

  ghost predicate NearInjective(m: map<nat, nat>, topic: nat, visited: set<nat>) {
    forall e, f :: e in m && f in m && m[e] == m[f] && e != f ==>
                     m[e] == topic && (e in visited || f in visited)
  }

  /** What one failed call leaves behind: the entries it added are all owned and
      their owners were explored completely. */
  ghost predicate Exhausted(cand: Candidates, m: map<nat, nat>, visited: set<nat>, seen: set<nat>) {
    forall e :: e in seen && e !in visited ==> e in m && m[e] < |cand| && Within(cand[m[e]], seen)
  }

  lemma TakeFree(cand: Candidates, pre: map<nat, nat>, topic: nat, entry: nat, visited: set<nat>, tight: set<nat>)
    requires IsMatching(cand, pre) && topic < |cand| && entry in cand[topic]
    requires visited <= pre.Keys && entry !in pre && Tight(cand, pre, tight)
    requires forall e :: e in pre && pre[e] == topic ==> e in visited
    ensures Augmented(cand, pre, pre[entry := topic], topic, visited, tight)
  {
    var post := pre[entry := topic];
    assert post[entry] == topic;
    forall t ensures Holds(post, t) <==> Holds(pre, t) || t == topic {
      if Holds(pre, t) {
        var e :| e in pre && pre[e] == t;
        assert post[e] == t;
      }
    }
  }

  lemma TakeOver(cand: Candidates, pre: map<nat, nat>, mid: map<nat, nat>, topic: nat, entry: nat,
                 visited: set<nat>, seen: set<nat>, tight: set<nat>)
    requires IsMatching(cand, pre) && topic < |cand| && entry in cand[topic]
    requires visited <= seen <= pre.Keys && entry in pre && entry !in seen && entry !in tight
    requires forall e :: e in pre && pre[e] == topic ==> e in visited
    requires Augmented(cand, pre, mid, pre[entry], seen + {entry}, tight)
    ensures Augmented(cand, pre, mid[entry := topic], topic, visited, tight)
  {
    StillNearInjective(pre, mid, topic, entry, visited, seen);
    var post := mid[entry := topic];
    assert mid[entry] == pre[entry] && post[entry] == topic;
    forall t ensures Holds(post, t) <==> Holds(pre, t) || t == topic {
      if Holds(post, t) && t != topic {
        var e :| e in post && post[e] == t;
        assert mid[e] == t && Holds(mid, t);
      }
      if Holds(pre, t) && t != topic {
        assert Holds(mid, t);
        var e :| e in mid && mid[e] == t && e != entry;
        assert post[e] == t;
      }
    }
  }

  lemma StillNearInjective(pre: map<nat, nat>, mid: map<nat, nat>, topic: nat, entry: nat,
                           visited: set<nat>, seen: set<nat>)
    requires Injective(pre) && visited <= seen <= pre.Keys && entry in pre && entry !in seen
    requires pre.Keys <= mid.Keys && forall e :: e in seen + {entry} ==> mid[e] == pre[e]
    requires forall e :: e in pre && pre[e] == topic ==> e in visited
    requires NearInjective(mid, pre[entry], seen + {entry})
    requires Holds(mid, topic) ==> Holds(pre, topic)
    ensures NearInjective(mid[entry := topic], topic, visited)
  {
    var post := mid[entry := topic];
    forall e, f | e in post && f in post && post[e] == post[f] && e != f
      ensures post[e] == topic && (e in visited || f in visited)
    {
      if e != entry && f != entry {
        assert false;
      } else {
        var other := if e == entry then f else e;
        assert mid[other] == topic && Holds(mid, topic);
        var x :| x in pre && pre[x] == topic;
        assert mid[x] == topic;
      }
    }
  }

  /** Distinct keys of a matching carry distinct topics. */
  lemma {:induction false} TopicsOf(m: map<nat, nat>) returns (topics: set<nat>)
    requires Injective(m)
    ensures forall t :: t in topics <==> Holds(m, t)
    ensures |topics| == |m|
    decreases m.Keys
  {
    if m == map[] {
      topics := {};
    } else {
      var e :| e in m;
      var rest := m - {e};
      assert rest.Keys == m.Keys - {e};
      assert forall f :: f in rest ==> rest[f] == m[f];
      var fewer := TopicsOf(rest);
      topics := fewer + {m[e]};
      assert m[e] !in fewer;
      forall t ensures t in topics <==> Holds(m, t) {
        if Holds(rest, t) {
          var f :| f in rest && rest[f] == t;
          assert m[f] == t;
        }
        if Holds(m, t) && t != m[e] {
          var f :| f in m && m[f] == t;
          assert rest[f] == t;
        }
      }
    }
  }

  ghost function Restrict(m: map<nat, nat>, keys: set<nat>): map<nat, nat> {
    map e | e in m && e in keys :: m[e]
  }

  /** Pigeonhole: a matching serves at most `|room|` topics whose candidates all lie in `room`. */
  lemma RoomBound(cand: Candidates, n: map<nat, nat>, room: set<nat>, topics: set<nat>)
    requires IsMatching(cand, n)
    requires forall t :: t in topics ==> t < |cand| && Within(cand[t], room) && Holds(n, t)
    ensures |topics| <= |room|
  {
    var inside := Restrict(n, room);
    var served := TopicsOf(inside);
    forall t | t in topics ensures t in served {
      var f :| f in n && n[f] == t;
      assert inside[f] == t;
    }
    Subset(topics, served);
    Subset(inside.Keys, room);
  }

  /** A tight set is exactly as large as the set of its owners. */
  lemma TightOwners(cand: Candidates, m: map<nat, nat>, tight: set<nat>) returns (owners: set<nat>)
    requires IsMatching(cand, m) && Tight(cand, m, tight)
    ensures |owners| == |tight|
    ensures forall t :: t in owners ==> t < |cand| && Within(cand[t], tight) && Holds(m, t)
  {
    var owned := Restrict(m, tight);
    assert owned.Keys == tight;
    owners := TopicsOf(owned);
    forall t | t in owners ensures t < |cand| && Within(cand[t], tight) && Holds(m, t) {
      var e :| e in owned && owned[e] == t;
      assert m[e] == t;
    }
    assert |owned| == |owned.Keys|;
  }

  /** A topic with all candidates inside a tight set cannot join its owners. */
  lemma Blocked(cand: Candidates, m: map<nat, nat>, tight: set<nat>, topic: nat, topics: set<nat>)
    requires IsMatching(cand, m) && Tight(cand, m, tight)
    requires topic < |cand| && Within(cand[topic], tight) && !Holds(m, topic)
    requires topic in topics && forall t :: Holds(m, t) ==> t in topics
    ensures !Coverable(cand, topics)
  {
    if Coverable(cand, topics) {
      var n :| IsMatching(cand, n) && forall t :: t in topics ==> Holds(n, t);
      var owners := TightOwners(cand, m, tight);
      RoomBound(cand, n, tight, owners + {topic});
      assert false;
    }
  }

  /** Koenig's bound: with a tight set holding every candidate of the topics the
      matching `m` leaves out, no matching is larger than `m`. */
  lemma NoLarger(cand: Candidates, m: map<nat, nat>, tight: set<nat>, n: map<nat, nat>)
    requires IsMatching(cand, m) && Tight(cand, m, tight) && IsMatching(cand, n)
    requires forall t: nat :: t < |cand| && !Holds(m, t) ==> Within(cand[t], tight)
    ensures |n| <= |m|
  {
    var mine := TopicsOf(m);
    var theirs := TopicsOf(n);
    var owners := TightOwners(cand, m, tight);
    var confined := set t | t in theirs && (t in owners || t !in mine);
    RoomBound(cand, n, tight, confined);
    CountBySplit(theirs, confined, mine, owners);
  }

  lemma CountBySplit(theirs: set<nat>, confined: set<nat>, mine: set<nat>, owners: set<nat>)
    requires confined <= theirs && owners <= mine && |confined| <= |owners|
    requires theirs - confined <= mine - owners
    ensures |theirs| <= |mine|
  {
    Subset(theirs - confined, mine - owners);
    assert theirs == confined + (theirs - confined);
    assert mine == owners + (mine - owners);
  }

  lemma {:induction false} Subset<T>(a: set<T>, b: set<T>)
    requires a <= b
    ensures |a| <= |b|
    decreases a
  {
    if a != {} {
      var x :| x in a;
      Subset(a - {x}, b - {x});
    }
  }

  class Matcher {
    const candidates: Candidates
    var owner: map<nat, nat>

    constructor (cand: Candidates)
      ensures candidates == cand && owner == map[]
    {
      candidates, owner := cand, map[];
    }

    /** Try to give `topic` an entry, re-homing current owners recursively. */
    method Assign(topic: nat, visited: set<nat>, ghost tight: set<nat>) returns (ok: bool, seen: set<nat>)
      requires topic < |candidates| && IsMatching(candidates, owner)
      requires visited <= owner.Keys && visited <= Entries(candidates)
      requires forall e :: e in owner && owner[e] == topic ==> e in visited
      requires Tight(candidates, owner, tight)
      modifies this`owner
      ensures ok ==> Augmented(candidates, old(owner), owner, topic, visited, tight)
      ensures !ok ==> owner == old(owner) && visited <= seen <= Entries(candidates)
      ensures !ok ==> Within(candidates[topic], seen) && Exhausted(candidates, owner, visited, seen)
      ensures Within(candidates[topic], tight) ==> !ok
      decreases Entries(candidates) - visited
    {
      seen := visited;
      var list := candidates[topic];
      for i := 0 to |list|
        invariant owner == old(owner) && visited <= seen <= Entries(candidates) && seen <= owner.Keys
        invariant Within(list[..i], seen) && Exhausted(candidates, owner, visited, seen)
      {
        var entry := list[i];
        if entry in seen {
          continue;
        }
        assert entry in Entries(candidates);
        if entry !in owner {
          seen := seen + {entry};
          TakeFree(candidates, owner, topic, entry, visited, tight);
          owner := owner[entry := topic];
          return true, seen;
        }
        ghost var before := seen;
        var moved;
        moved, seen := Assign(owner[entry], seen + {entry}, tight);
        if moved {
          assert entry !in tight;
          TakeOver(candidates, old(owner), owner, topic, entry, visited, before, tight);
          owner := owner[entry := topic];
          return true, seen;
        }
      }
      assert list[..|list|] == list;
      ok := false;
    }

    /** One pass over the topics; `reported` are those left without an entry. */
    method Report() returns (reported: seq<nat>, ghost tight: set<nat>)
      requires owner == map[]
      modifies this`owner
      ensures Progress(candidates, owner, reported, tight, |candidates|)
    {
      reported, tight := [], {};
      for topic := 0 to |candidates|
        invariant Progress(candidates, owner, reported, tight, topic)
      {
        ghost var pre := owner;
        var ok, seen := Assign(topic, {}, tight);
        if ok {
          Served(candidates, pre, owner, reported, tight, topic);
        } else {
          Left(candidates, owner, reported, tight, topic, seen);
          reported, tight := reported + [topic], tight + seen;
        }
      }
    }
  }

  /** What holds once the topics below `n` have been tried. */
  ghost predicate Progress(cand: Candidates, m: map<nat, nat>, reported: seq<nat>, tight: set<nat>, n: nat) {
    && n <= |cand|
    && IsMatching(cand, m) && Tight(cand, m, tight)
    && Ascending(reported) && (forall t :: t in reported ==> t < n && Within(cand[t], tight))
    && (forall t: nat :: Holds(m, t) <==> t < n && t !in reported)
    && Justified(cand, reported, n)
  }

  lemma Served(cand: Candidates, pre: map<nat, nat>, post: map<nat, nat>, reported: seq<nat>, tight: set<nat>,
               topic: nat)
    requires topic < |cand| && Progress(cand, pre, reported, tight, topic)
    requires Augmented(cand, pre, post, topic, {}, tight)
    ensures Progress(cand, post, reported, tight, topic + 1)
  {
    assert forall t :: t in Earlier(reported, topic) + {topic} ==> Holds(post, t);
    assert IsMatching(cand, post);
    NextJustified(cand, reported, reported, topic);
  }

  lemma Left(cand: Candidates, m: map<nat, nat>, reported: seq<nat>, tight: set<nat>, topic: nat, seen: set<nat>)
    requires topic < |cand| && Progress(cand, m, reported, tight, topic)
    requires Exhausted(cand, m, {}, seen) && Within(cand[topic], seen)
    ensures Progress(cand, m, reported + [topic], tight + seen, topic + 1)
  {
    Grow(cand, m, tight, seen);
    assert !Holds(m, topic);
    Blocked(cand, m, tight + seen, topic, Earlier(reported, topic) + {topic});
    Extend(reported, topic);
    NextJustified(cand, reported, reported + [topic], topic);
  }

  lemma Grow(cand: Candidates, m: map<nat, nat>, tight: set<nat>, seen: set<nat>)
    requires Tight(cand, m, tight) && Exhausted(cand, m, {}, seen)
    ensures Tight(cand, m, tight + seen)
  {
  }

  lemma Extend(list: seq<nat>, last: nat)
    requires Ascending(list) && forall t :: t in list ==> t < last
    ensures Ascending(list + [last])
    ensures Listed(list + [last]) == Listed(list) + {last} && last !in Listed(list)
  {
    assert forall i :: 0 <= i < |list| ==> list[i] in list;
  }

  lemma NextJustified(cand: Candidates, before: seq<nat>, after: seq<nat>, topic: nat)
    requires Justified(cand, before, topic) && forall t :: t in before ==> t < topic
    requires if Coverable(cand, Earlier(before, topic) + {topic}) then after == before
             else after == before + [topic]
    ensures Justified(cand, after, topic + 1)
  {
    forall t: nat | t <= topic ensures Earlier(after, t) == Earlier(before, t) {}
  }

  /** The counting form: how many topics are reported, against every matching. */
  lemma ReportCount(cand: Candidates, m: map<nat, nat>, reported: seq<nat>)
    requires IsMatching(cand, m)
    requires forall t :: t in reported ==> t < |cand|
    requires Ascending(reported)
    requires forall t: nat :: Holds(m, t) <==> t < |cand| && t !in reported
    ensures |m| == |cand| - |reported|
  {
    var mine := TopicsOf(m);
    ListedOnce(reported);
    assert Topics(|cand|) == mine + Listed(reported);
  }

  lemma {:induction false} ListedOnce(list: seq<nat>)
    requires Ascending(list)
    ensures |Listed(list)| == |list|
  {
    if list != [] {
      var n := |list| - 1;
      ListedOnce(list[..n]);
      assert list == list[..n] + [list[n]];
      Extend(list[..n], list[n]);
    }
  }

  /** `_unmatched_completion_topics` on an arbitrary candidate relation. The
      topics come back in order; the ghost results certify the deficiency. */
  method UnmatchedTopics(candidates: Candidates)
    returns (reported: seq<nat>, ghost served: map<nat, nat>, ghost crowded: set<nat>, ghost room: set<nat>)
    ensures Ascending(reported)
    ensures forall t :: t in reported ==> t < |candidates|
    // reported exactly when it cannot be served beside all earlier served topics
    ensures Justified(candidates, reported, |candidates|)
    // as few topics as possible are reported
    ensures IsMatching(candidates, served) && |served| == |candidates| - |reported|
    ensures forall m :: IsMatching(candidates, m) ==> |m| <= |candidates| - |reported|
    // the shortage is real: too many topics share too few entries
    ensures forall t :: t in crowded ==> t < |candidates| && Within(candidates[t], room)
    ensures |crowded| == |room| + |reported|
    ensures reported == [] <==> Coverable(candidates, Topics(|candidates|))
  {
    var matcher := new Matcher(candidates);
    reported, room := matcher.Report();
    served := matcher.owner;
    ReportCount(candidates, served, reported);
    forall m | IsMatching(candidates, m) ensures |m| <= |served| {
      NoLarger(candidates, served, room, m);
    }
    var owners := TightOwners(candidates, served, room);
    ListedOnce(reported);
    crowded := owners + Listed(reported);
    assert owners !! Listed(reported);
    EmptyReport(candidates, served, reported);
  }

  lemma EmptyReport(cand: Candidates, m: map<nat, nat>, reported: seq<nat>)
    requires IsMatching(cand, m) && |m| == |cand| - |reported|
    requires forall t: nat :: Holds(m, t) <==> t < |cand| && t !in reported
    requires forall n :: IsMatching(cand, n) ==> |n| <= |m|
    ensures reported == [] <==> Coverable(cand, Topics(|cand|))
  {
    var all := Topics(|cand|);
    if Coverable(cand, all) {
      var n :| IsMatching(cand, n) && forall t :: t in all ==> Holds(n, t);
      var topics := TopicsOf(n);
      Subset(all, topics);
    }
  }
}
