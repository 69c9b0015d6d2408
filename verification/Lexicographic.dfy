/** The order in which sorted sets and sorts list their strings: element by element, prefixes first. */
module Lexicographic {

  predicate Less<T(==)>(a: seq<T>, b: seq<T>, rank: T -> int)
    decreases |a|
  {
    if b == [] then false
    else if a == [] then true
    else if rank(a[0]) != rank(b[0]) then rank(a[0]) < rank(b[0])
    else Less(a[1..], b[1..], rank)
  }

  ghost predicate Injective<T(!new)>(rank: T -> int) {
    forall x, y :: rank(x) == rank(y) ==> x == y
  }

  lemma {:induction false} LessIsIrreflexive<T>(a: seq<T>, rank: T -> int)
    ensures !Less(a, a, rank)
    decreases |a|
  {
    if a != [] {
      LessIsIrreflexive(a[1..], rank);
    }
  }

  lemma {:induction false} LessIsTransitive<T>(a: seq<T>, b: seq<T>, c: seq<T>, rank: T -> int)
    requires Less(a, b, rank) && Less(b, c, rank)
    ensures Less(a, c, rank)
    decreases |a|
  {
    if a != [] && rank(a[0]) == rank(b[0]) == rank(c[0]) {
      LessIsTransitive(a[1..], b[1..], c[1..], rank);
    }
  }

  lemma {:induction false} LessIsTotal<T(!new)>(a: seq<T>, b: seq<T>, rank: T -> int)
    requires Injective(rank)
    ensures Less(a, b, rank) || a == b || Less(b, a, rank)
    decreases |a|
  {
    if a != [] && b != [] && rank(a[0]) == rank(b[0]) {
      LessIsTotal(a[1..], b[1..], rank);
      assert a == [a[0]] + a[1..] && b == [b[0]] + b[1..];
    }
  }

  /** Strictly increasing: how a sorted set is walked. */
  ghost predicate Increasing<T>(s: seq<seq<T>>, rank: T -> int) {
    forall i, j :: 0 <= i < j < |s| ==> Less(s[i], s[j], rank)
  }

  /** A set has only one increasing listing. */
  lemma {:induction false} IncreasingListingIsUnique<T>(s: seq<seq<T>>, t: seq<seq<T>>, rank: T -> int)
    requires Increasing(s, rank) && Increasing(t, rank)
    requires forall x :: x in s <==> x in t
    ensures s == t
    decreases |s|
  {
    assert s != [] ==> s[0] in s;
    assert t != [] ==> t[0] in t;
    if s == [] || t == [] {
      assert s == t;
    } else {
      HeadsAgree(s, t, rank);
      forall x
        ensures x in s[1..] <==> x in t[1..]
      {
        TailMembers(s, x, rank);
        TailMembers(t, x, rank);
      }
      IncreasingListingIsUnique(s[1..], t[1..], rank);
      assert s == [s[0]] + s[1..] && t == [t[0]] + t[1..];
    }
  }

  lemma HeadsAgree<T>(s: seq<seq<T>>, t: seq<seq<T>>, rank: T -> int)
    requires Increasing(s, rank) && Increasing(t, rank) && s != [] && t != []
    requires forall x :: x in s <==> x in t
    ensures s[0] == t[0]
  {
    assert s[0] in t && t[0] in s;
    if s[0] != t[0] {
      assert Less(t[0], s[0], rank) && Less(s[0], t[0], rank);
      LessIsTransitive(s[0], t[0], s[0], rank);
      LessIsIrreflexive(s[0], rank);
    }
  }

  lemma TailMembers<T>(s: seq<seq<T>>, x: seq<T>, rank: T -> int)
    requires Increasing(s, rank) && s != []
    ensures x in s[1..] <==> x in s && x != s[0]
  {
    if x in s[1..] {
      var k :| 0 <= k < |s[1..]| && s[1..][k] == x;
      assert Less(s[0], s[k + 1], rank);
      LessIsIrreflexive(s[0], rank);
    }
  }

  /** They agree up to here, and here `a` ends or has the smaller element. */
  predicate IsSmallerAt<T(==)>(a: seq<T>, b: seq<T>, rank: T -> int, n: int) {
    && 0 <= n <= |a| && n < |b|
    && (forall i :: 0 <= i < n ==> rank(a[i]) == rank(b[i]))
    && (n == |a| || rank(a[n]) < rank(b[n]))
  }

  /** The order is decided at the first place where the two differ. */
  lemma {:induction false} LessIff<T>(a: seq<T>, b: seq<T>, rank: T -> int)
    ensures Less(a, b, rank) <==> exists n :: IsSmallerAt(a, b, rank, n)
    decreases |a|
  {
    if a != [] && b != [] && rank(a[0]) == rank(b[0]) {
      LessIff(a[1..], b[1..], rank);
      if n :| IsSmallerAt(a[1..], b[1..], rank, n) {
        assert IsSmallerAt(a, b, rank, n + 1);
      }
      if n :| IsSmallerAt(a, b, rank, n) {
        assert IsSmallerAt(a[1..], b[1..], rank, n - 1);
      }
    } else if b != [] && Less(a, b, rank) {
      assert IsSmallerAt(a, b, rank, 0);
    }
  }
}
