/** `sorted`: the order of strings by code point, and what sorting means. */
module Ordering {

  // ------------------------------------------------------------------- orders

  ghost predicate Total<T(!new)>(le: (T, T) -> bool) {
    forall x, y :: le(x, y) || le(y, x)
  }

  ghost predicate Antisymmetric<T(!new)>(le: (T, T) -> bool) {
    forall x, y :: le(x, y) && le(y, x) ==> x == y
  }

  ghost predicate Transitive<T(!new)>(le: (T, T) -> bool) {
    forall x, y, z :: le(x, y) && le(y, z) ==> le(x, z)
  }

  ghost predicate TotalOrder<T(!new)>(le: (T, T) -> bool) {
    Total(le) && Antisymmetric(le) && Transitive(le)
  }

  predicate StringLe(a: string, b: string) {
    if a == [] then true
    else if b == [] then false
    else if a[0] != b[0] then a[0] < b[0]
    else StringLe(a[1..], b[1..])
  }

  lemma {:induction false} StringTotal(a: string, b: string)
    ensures StringLe(a, b) || StringLe(b, a)
    ensures StringLe(a, b) && StringLe(b, a) ==> a == b
  {
    if a != [] && b != [] {
      StringTotal(a[1..], b[1..]);
      assert a == [a[0]] + a[1..] && b == [b[0]] + b[1..];
    }
  }

  lemma {:induction false} StringTransitive(a: string, b: string, c: string)
    requires StringLe(a, b) && StringLe(b, c)
    ensures StringLe(a, c)
  {
    if a != [] && b != [] && c != [] && a[0] == b[0] == c[0] {
      StringTransitive(a[1..], b[1..], c[1..]);
    }
  }

  lemma StringOrder()
    ensures TotalOrder(StringLe)
  {
    hide StringLe;
    forall a, b ensures (StringLe(a, b) || StringLe(b, a)) && (StringLe(a, b) && StringLe(b, a) ==> a == b) {
      StringTotal(a, b);
    }
    forall a, b, c | StringLe(a, b) && StringLe(b, c) ensures StringLe(a, c) {
      StringTransitive(a, b, c);
    }
  }

  // ------------------------------------------------------------------ sorting

  ghost predicate Ordered<T(!new)>(s: seq<T>, le: (T, T) -> bool) {
    forall j, k :: 0 <= j < k < |s| ==> le(s[j], s[k])
  }

  function Insert<T>(x: T, s: seq<T>, le: (T, T) -> bool): seq<T> {
    if s == [] || le(x, s[0]) then [x] + s else [s[0]] + Insert(x, s[1..], le)
  }

  /** `sorted(s)`. */
  function Sort<T>(s: seq<T>, le: (T, T) -> bool): seq<T> {
    if s == [] then [] else Insert(s[0], Sort(s[1..], le), le)
  }

  lemma {:induction false} InsertKeeps<T(!new)>(x: T, s: seq<T>, le: (T, T) -> bool)
    ensures multiset(Insert(x, s, le)) == multiset{x} + multiset(s)
  {
    if s != [] && !le(x, s[0]) {
      InsertKeeps(x, s[1..], le);
      assert s == [s[0]] + s[1..];
    }
  }

  lemma SameElements<T>(a: seq<T>, b: seq<T>)
    requires multiset(a) == multiset(b)
    ensures |a| == |b| && forall x :: x in a <==> x in b
  {
    assert |a| == |multiset(a)| && |b| == |multiset(b)|;
    forall x ensures x in a <==> x in b {
      assert x in a <==> x in multiset(a);
      assert x in b <==> x in multiset(b);
    }
  }

  lemma {:induction false} InsertMembers<T>(x: T, s: seq<T>, le: (T, T) -> bool)
    ensures forall k :: 0 <= k < |Insert(x, s, le)| ==> Insert(x, s, le)[k] == x || Insert(x, s, le)[k] in s
  {
    if s != [] && !le(x, s[0]) {
      InsertMembers(x, s[1..], le);
    }
  }

  lemma OrderedCons<T(!new)>(x: T, s: seq<T>, le: (T, T) -> bool)
    requires Ordered(s, le) && forall k :: 0 <= k < |s| ==> le(x, s[k])
    ensures Ordered([x] + s, le)
  {
  }

  lemma OrderedTail<T(!new)>(s: seq<T>, le: (T, T) -> bool)
    requires Ordered(s, le) && s != []
    ensures Ordered(s[1..], le) && forall k :: 0 <= k < |s[1..]| ==> le(s[0], s[1..][k])
  {
  }

  lemma {:induction false} InsertOrders<T(!new)>(x: T, s: seq<T>, le: (T, T) -> bool)
    requires TotalOrder(le) && Ordered(s, le)
    ensures Ordered(Insert(x, s, le), le)
  {
    hide Ordered;
    if s == [] {
      NothingOrdered(le);
      OrderedCons(x, [], le);
    } else {
      OrderedTail(s, le);
      if le(x, s[0]) {
        forall k | 0 <= k < |s| ensures le(x, s[k]) {
          assert k > 0 ==> s[k] == s[1..][k - 1];
        }
        OrderedCons(x, s, le);
      } else {
        InsertOrders(x, s[1..], le);
        InsertMembers(x, s[1..], le);
        OrderedCons(s[0], Insert(x, s[1..], le), le);
      }
    }
  }

  /** Sorting rearranges the elements into order. */
  lemma {:induction false} SortSorts<T(!new)>(s: seq<T>, le: (T, T) -> bool)
    requires TotalOrder(le)
    ensures multiset(Sort(s, le)) == multiset(s) && Ordered(Sort(s, le), le)
  {
    hide TotalOrder, Ordered;
    if s == [] {
      NothingOrdered(le);
    } else {
      SortSorts(s[1..], le);
      InsertKeeps(s[0], Sort(s[1..], le), le);
      InsertOrders(s[0], Sort(s[1..], le), le);
      assert s == [s[0]] + s[1..];
    }
  }

  lemma NothingOrdered<T(!new)>(le: (T, T) -> bool)
    ensures Ordered([], le)
  {
  }

  function Without<T>(s: seq<T>, k: nat): seq<T>
    requires k < |s|
  {
    s[..k] + s[k + 1..]
  }

  lemma TakeOut<T>(s: seq<T>, k: nat)
    requires k < |s|
    ensures multiset(s) == multiset(Without(s, k)) + multiset{s[k]}
  {
    assert s == s[..k] + [s[k]] + s[k + 1..];
  }

  lemma CountedTwice<T>(s: seq<T>, j: nat, k: nat)
    requires j < k < |s| && s[j] == s[k]
    ensures multiset(s)[s[j]] >= 2
  {
    TakeOut(s, k);
    assert Without(s, k)[j] == s[j];
    assert s[j] in multiset(Without(s, k));
  }

  /** Taking the same element out of both leaves the same elements. */
  lemma TakeOutBoth<T>(a: seq<T>, j: nat, b: seq<T>, k: nat)
    requires j < |a| && k < |b| && a[j] == b[k] && multiset(a) == multiset(b)
    ensures multiset(Without(a, j)) == multiset(Without(b, k))
  {
    hide Without;
    TakeOut(a, j);
    TakeOut(b, k);
    Cancel(multiset(Without(a, j)), multiset(Without(b, k)), multiset{a[j]});
  }

  lemma Cancel<T>(a: multiset<T>, b: multiset<T>, c: multiset<T>)
    requires a + c == b + c
    ensures a == b
  {
    assert a == (a + c) - c && b == (b + c) - c;
  }

  lemma WithoutFirst<T>(s: seq<T>)
    requires s != []
    ensures Without(s, 0) == s[1..]
  {
  }

  lemma HeadLeast<T(!new)>(s: seq<T>, x: T, le: (T, T) -> bool)
    requires TotalOrder(le) && Ordered(s, le) && x in s
    ensures le(s[0], x)
  {
    var k :| 0 <= k < |s| && s[k] == x;
  }

  lemma Antisymmetry<T(!new)>(x: T, y: T, le: (T, T) -> bool)
    requires TotalOrder(le) && le(x, y) && le(y, x)
    ensures x == y
  {
  }

  /** There is only one way to have given elements in order. */
  lemma {:induction false} OrderedUnique<T(!new)>(a: seq<T>, b: seq<T>, le: (T, T) -> bool)
    requires TotalOrder(le) && Ordered(a, le) && Ordered(b, le) && multiset(a) == multiset(b)
    ensures a == b
  {
    hide Ordered, TotalOrder, Without;
    SameElements(a, b);
    if a != [] {
      assert a[0] in a && b[0] in b;
      HeadLeast(a, b[0], le);
      HeadLeast(b, a[0], le);
      Antisymmetry(a[0], b[0], le);
      TakeOutBoth(a, 0, b, 0);
      WithoutFirst(a);
      WithoutFirst(b);
      OrderedTail(a, le);
      OrderedTail(b, le);
      OrderedUnique(a[1..], b[1..], le);
      assert a == [a[0]] + a[1..] && b == [b[0]] + b[1..];
    }
  }

  /** So sorting depends on the elements only, and leaves sorted lists alone. */
  lemma SortCanonical<T(!new)>(a: seq<T>, b: seq<T>, le: (T, T) -> bool)
    requires TotalOrder(le) && multiset(a) == multiset(b)
    ensures Sort(a, le) == Sort(b, le)
    ensures Ordered(b, le) ==> Sort(a, le) == b
  {
    hide TotalOrder, Ordered;
    SortSorts(a, le);
    SortSorts(b, le);
    OrderedUnique(Sort(a, le), Sort(b, le), le);
    if Ordered(b, le) {
      OrderedUnique(Sort(b, le), b, le);
    }
  }
}
