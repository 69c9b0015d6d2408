/** Filtering, sorting, deduplicating and truncating a list, as the pack builder does with its inputs. */
module Ranking {

  type Order<!T> = (T, T) -> bool

  ghost predicate Total<T(!new)>(le: Order<T>) {
    forall a, b :: le(a, b) || le(b, a)
  }

  ghost predicate Transitive<T(!new)>(le: Order<T>) {
    forall a, b, c :: le(a, b) && le(b, c) ==> le(a, c)
  }

  ghost predicate Sorted<T>(s: seq<T>, le: Order<T>) {
    forall i, j :: 0 <= i < j < |s| ==> le(s[i], s[j])
  }

  function Filter<T(!new)>(s: seq<T>, keep: T -> bool): (r: seq<T>)
    ensures forall x :: x in r <==> x in s && keep(x)
    ensures |r| <= |s|
  {
    if s == [] then []
    else
      assert s == [s[0]] + s[1..];
      if keep(s[0]) then [s[0]] + Filter(s[1..], keep) else Filter(s[1..], keep)
  }

  function Insert<T>(x: T, s: seq<T>, le: Order<T>): (r: seq<T>)
    ensures multiset(r) == multiset{x} + multiset(s)
  {
    if s == [] || le(x, s[0]) then [x] + s
    else
      assert s == [s[0]] + s[1..];
      [s[0]] + Insert(x, s[1..], le)
  }

  /** The stable sort of the library. */
  function SortBy<T>(s: seq<T>, le: Order<T>): (r: seq<T>)
    ensures multiset(r) == multiset(s)
  {
    if s == [] then []
    else
      assert s == [s[0]] + s[1..];
      Insert(s[0], SortBy(s[1..], le), le)
  }

  lemma {:induction false} InsertIsSorted<T(!new)>(x: T, s: seq<T>, le: Order<T>)
    requires Total(le) && Transitive(le) && Sorted(s, le)
    ensures Sorted(Insert(x, s, le), le)
    decreases |s|
  {
    if s != [] && !le(x, s[0]) {
      var rest := Insert(x, s[1..], le);
      InsertIsSorted(x, s[1..], le);
      forall j | 0 <= j < |rest|
        ensures le(s[0], rest[j])
      {
        assert rest[j] in multiset(rest);
        assert rest[j] == x || rest[j] in s[1..];
      }
    }
  }

  lemma {:induction false} SortByIsSorted<T(!new)>(s: seq<T>, le: Order<T>)
    requires Total(le) && Transitive(le)
    ensures Sorted(SortBy(s, le), le)
    decreases |s|
  {
    if s != [] {
      SortByIsSorted(s[1..], le);
      InsertIsSorted(s[0], SortBy(s[1..], le), le);
    }
  }

  lemma SortByMembers<T>(s: seq<T>, le: Order<T>, x: T)
    ensures x in SortBy(s, le) <==> x in s
  {
    assert x in SortBy(s, le) <==> x in multiset(SortBy(s, le));
    assert x in s <==> x in multiset(s);
  }

  lemma {:induction false} FilterKeepsSorted<T(!new)>(s: seq<T>, keep: T -> bool, le: Order<T>)
    requires Sorted(s, le)
    ensures Sorted(Filter(s, keep), le)
    decreases |s|
  {
    if s != [] {
      FilterKeepsSorted(s[1..], keep, le);
      forall x | x in Filter(s[1..], keep)
        ensures le(s[0], x)
      {
        var j :| 0 <= j < |s[1..]| && s[1..][j] == x;
        assert le(s[0], s[j + 1]);
      }
    }
  }

  /** Drops every element that equals the last one kept before it. */
  function DedupFrom<T>(kept: seq<T>, s: seq<T>, same: (T, T) -> bool): seq<T>
    decreases |s|
  {
    if s == [] then kept
    else if kept != [] && same(s[0], kept[|kept| - 1]) then DedupFrom(kept, s[1..], same)
    else DedupFrom(kept + [s[0]], s[1..], same)
  }

  function Dedup<T>(s: seq<T>, same: (T, T) -> bool): seq<T> {
    DedupFrom([], s, same)
  }

  ghost predicate NoNeighboursSame<T>(s: seq<T>, same: (T, T) -> bool) {
    forall i :: 0 < i < |s| ==> !same(s[i], s[i - 1])
  }

  lemma DroppedKeepsSorted<T(!new)>(kept: seq<T>, s: seq<T>, le: Order<T>)
    requires s != [] && Sorted(kept + s, le)
    ensures Sorted(kept + s[1..], le)
  {
    var whole, less := kept + s, kept + s[1..];
    forall i, j | 0 <= i < j < |less|
      ensures le(less[i], less[j])
    {
      var i', j' := if i < |kept| then i else i + 1, if j < |kept| then j else j + 1;
      assert less[i] == whole[i'] && less[j] == whole[j'];
    }
  }

  lemma {:induction false} DedupFromKeepsOrder<T(!new)>(kept: seq<T>, s: seq<T>, same: (T, T) -> bool, le: Order<T>)
    requires Sorted(kept + s, le) && NoNeighboursSame(kept, same)
    ensures var r := DedupFrom(kept, s, same);
            && Sorted(r, le) && NoNeighboursSame(r, same) && kept <= r
            && forall x :: x in r ==> x in kept || x in s
    decreases |s|
  {
    if s == [] {
      assert kept + s == kept;
    } else {
      assert s == [s[0]] + s[1..];
      if kept != [] && same(s[0], kept[|kept| - 1]) {
        DroppedKeepsSorted(kept, s, le);
        DedupFromKeepsOrder(kept, s[1..], same, le);
      } else {
        assert kept + [s[0]] + s[1..] == kept + s;
        DedupFromKeepsOrder(kept + [s[0]], s[1..], same, le);
      }
    }
  }

  lemma DedupKeepsOrder<T(!new)>(s: seq<T>, same: (T, T) -> bool, le: Order<T>)
    requires Sorted(s, le)
    ensures Sorted(Dedup(s, same), le) && NoNeighboursSame(Dedup(s, same), same)
    ensures forall x :: x in Dedup(s, same) ==> x in s
  {
    assert [] + s == s;
    DedupFromKeepsOrder([], s, same, le);
  }

  /** What deduplication drops equals something it keeps that is not ranked after it. */
  ghost predicate IsCovered<T>(y: T, r: seq<T>, same: (T, T) -> bool, le: Order<T>) {
    y in r || exists z :: z in r && same(y, z) && le(z, y)
  }

  lemma {:induction false} DedupFromCovers<T(!new)>(kept: seq<T>, s: seq<T>, same: (T, T) -> bool, le: Order<T>, y: T)
    requires Sorted(kept + s, le) && y in s
    ensures kept <= DedupFrom(kept, s, same) && IsCovered(y, DedupFrom(kept, s, same), same, le)
    decreases |s|
  {
    var whole := kept + s;
    var next := if kept != [] && same(s[0], kept[|kept| - 1]) then kept else kept + [s[0]];
    assert s == [s[0]] + s[1..];
    assert Sorted(next + s[1..], le) by {
      if next == kept {
        DroppedKeepsSorted(kept, s, le);
      } else {
        assert next + s[1..] == whole;
      }
    }
    DedupFromGrows(next, s[1..], same);
    if y in s[1..] {
      DedupFromCovers(next, s[1..], same, le, y);
    } else if next == kept {
      assert le(whole[|kept| - 1], whole[|kept|]);
      assert kept[|kept| - 1] in DedupFrom(next, s[1..], same);
    } else {
      assert next[|kept|] == s[0];
      assert s[0] in DedupFrom(next, s[1..], same);
    }
  }

  lemma {:induction false} DedupFromGrows<T>(kept: seq<T>, s: seq<T>, same: (T, T) -> bool)
    ensures kept <= DedupFrom(kept, s, same)
    decreases |s|
  {
    if s != [] {
      DedupFromGrows(if kept != [] && same(s[0], kept[|kept| - 1]) then kept else kept + [s[0]], s[1..], same);
    }
  }

  /** Nothing left out of a prefix of a sorted, deduplicated list outranks what it holds, unless it repeats some of it. */
  lemma PrefixOfDedupIsNotOutranked<T(!new)>(s: seq<T>, same: (T, T) -> bool, kept: seq<T>, x: T, y: T, le: Order<T>)
    requires Sorted(s, le) && Transitive(le) && kept <= Dedup(s, same)
    requires x in kept && y in s && y !in kept && forall z :: z in kept ==> !same(y, z)
    ensures le(x, y)
  {
    assert [] + s == s;
    DedupFromCovers([], s, same, le, y);
    DedupKeepsOrder(s, same, le);
    var r := Dedup(s, same);
    if y in r {
      PrefixIsNotOutranked(r, kept, x, y, le);
    } else {
      var z :| z in r && same(y, z) && le(z, y);
      PrefixIsNotOutranked(r, kept, x, z, le);
    }
  }

  function Take<T>(s: seq<T>, n: nat): (r: seq<T>)
    ensures r <= s && |r| <= n
    ensures |r| == n || r == s
  {
    if |s| <= n then s else s[..n]
  }

  /** What stands before some position of a sorted list is never outranked by what stands after it. */
  lemma PrefixIsNotOutranked<T>(s: seq<T>, kept: seq<T>, x: T, y: T, le: Order<T>)
    requires Sorted(s, le) && kept <= s
    requires x in kept && y in s && y !in kept
    ensures le(x, y)
  {
    var i :| 0 <= i < |kept| && kept[i] == x;
    var j :| 0 <= j < |s| && s[j] == y;
    assert forall k :: 0 <= k < |kept| ==> s[k] == kept[k] && s[k] in kept;
  }

  lemma {:induction false} FilterCounts<T(!new)>(s: seq<T>, keep: T -> bool, x: T)
    ensures multiset(Filter(s, keep))[x] == if keep(x) then multiset(s)[x] else 0
    decreases |s|
  {
    if s != [] {
      assert s == [s[0]] + s[1..];
      FilterCounts(s[1..], keep, x);
    }
  }

  lemma {:induction false} FilterOfInsert<T(!new)>(x: T, s: seq<T>, le: Order<T>, keep: T -> bool)
    requires keep(x) ==> forall y :: keep(y) ==> le(x, y)
    ensures Filter(Insert(x, s, le), keep) == (if keep(x) then [x] else []) + Filter(s, keep)
    decreases |s|
  {
    if s == [] || le(x, s[0]) {
      assert ([x] + s)[1..] == s;
    } else {
      var rest := Insert(x, s[1..], le);
      assert ([s[0]] + rest)[1..] == rest;
      FilterOfInsert(x, s[1..], le, keep);
    }
  }

  /** What the order does not tell apart stays in the order it came in. */
  lemma {:induction false} SortByIsStable<T(!new)>(s: seq<T>, le: Order<T>, z: T, alike: T -> bool)
    requires Transitive(le) && forall y :: alike(y) <==> le(z, y) && le(y, z)
    ensures Filter(SortBy(s, le), alike) == Filter(s, alike)
    decreases |s|
  {
    if s != [] {
      SortByIsStable(s[1..], le, z, alike);
      FilterOfInsert(s[0], SortBy(s[1..], le), le, alike);
    }
  }
}
