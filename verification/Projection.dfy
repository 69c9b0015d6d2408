/**
 * A table projected from an event log. Events are replayed in their own order, which is not the order they
 * arrive in: an event that sorts before the latest one has the whole table rebuilt.
 */
module Projection {
  import opened EventLog

  /** The position of an event in replay order, by time, sequence and event id; no two keys share one. */
  type Rank<!K> = K -> real

  /** An event that sets the row `id`. */
  datatype Event<K, R> = Event(key: K, id: string, row: R)

  ghost predicate IsRank<K(!new)>(rank: Rank<K>) {
    forall a, b :: rank(a) == rank(b) ==> a == b
  }

  ghost predicate IsSorted<K, R>(rank: Rank<K>, log: seq<Event<K, R>>) {
    forall i, j :: 0 <= i < j < |log| ==> rank(log[i].key) < rank(log[j].key)
  }

  function Rebuilt<K, R>(log: seq<Event<K, R>>): map<string, Event<K, R>>
    decreases |log|
  {
    if log == [] then map[] else Rebuilt(log[..|log| - 1])[log[|log| - 1].id := log[|log| - 1]]
  }

  function InsertSorted<K, R>(rank: Rank<K>, log: seq<Event<K, R>>, event: Event<K, R>): (r: seq<Event<K, R>>)
    ensures multiset(r) == multiset(log) + multiset{event}
    decreases |log|
  {
    if log == [] || rank(log[|log| - 1].key) < rank(event.key) then log + [event]
    else
      assert log == log[..|log| - 1] + [log[|log| - 1]];
      InsertSorted(rank, log[..|log| - 1], event) + [log[|log| - 1]]
  }

  /** What the table comes to: the event of a row that sorts last holds it. */
  function LastWins<K, R>(rank: Rank<K>, table: map<string, Event<K, R>>, event: Event<K, R>): map<string, Event<K, R>> {
    if event.id in table && rank(event.key) < rank(table[event.id].key) then table else table[event.id := event]
  }

  lemma {:induction false} RowIsInLog<K, R>(log: seq<Event<K, R>>, id: string)
    requires id in Rebuilt(log)
    ensures exists k :: 0 <= k < |log| && log[k] == Rebuilt(log)[id] && log[k].id == id
    decreases |log|
  {
    var n := |log| - 1;
    if log[n].id != id {
      RowIsInLog(log[..n], id);
      var k :| 0 <= k < n && log[..n][k] == Rebuilt(log[..n])[id] && log[..n][k].id == id;
      assert log[k] == Rebuilt(log)[id];
    }
  }

  /** The row of an id is the event for it that sorts last, in whatever order the events arrived. */
  lemma {:induction false} RowSortsLast<K, R>(rank: Rank<K>, log: seq<Event<K, R>>, k: nat)
    requires IsSorted(rank, log) && k < |log|
    ensures log[k].id in Rebuilt(log)
    ensures rank(log[k].key) <= rank(Rebuilt(log)[log[k].id].key)
    decreases |log|
  {
    var n := |log| - 1;
    if k < n {
      assert log[..n][k] == log[k];
      RowSortsLast(rank, log[..n], k);
    }
  }

  lemma Snoc<K, R>(log: seq<Event<K, R>>, last: Event<K, R>)
    ensures Rebuilt(log + [last]) == Rebuilt(log)[last.id := last]
  {
    assert (log + [last])[..|log|] == log;
  }

  /** Appending an event that sorts last, and inserting one that does not. */
  lemma AppendIsLastWins<K(!new), R>(rank: Rank<K>, log: seq<Event<K, R>>, event: Event<K, R>)
    requires IsSorted(rank, log) && forall k :: 0 <= k < |log| ==> rank(log[k].key) < rank(event.key)
    ensures Rebuilt(log + [event]) == LastWins(rank, Rebuilt(log), event)
    ensures IsSorted(rank, log + [event])
  {
    Snoc(log, event);
    if event.id in Rebuilt(log) {
      RowIsInLog(log, event.id);
    }
  }

  lemma InsertBelowIsLastWins<K(!new), R>(rank: Rank<K>, init: seq<Event<K, R>>, event: Event<K, R>, last: Event<K, R>)
    requires rank(event.key) < rank(last.key)
    requires Rebuilt(InsertSorted(rank, init, event)) == LastWins(rank, Rebuilt(init), event)
    ensures Rebuilt(InsertSorted(rank, init, event) + [last]) == LastWins(rank, Rebuilt(init + [last]), event)
  {
    Snoc(InsertSorted(rank, init, event), last);
    Snoc(init, last);
    LastCommutes(rank, Rebuilt(init), event, last);
  }

  lemma InsertBelowIsSorted<K(!new), R>(rank: Rank<K>, init: seq<Event<K, R>>, event: Event<K, R>, last: Event<K, R>)
    requires rank(event.key) < rank(last.key) && IsSorted(rank, init + [last])
    requires IsSorted(rank, InsertSorted(rank, init, event))
    ensures IsSorted(rank, InsertSorted(rank, init, event) + [last])
  {
    assert forall k :: 0 <= k < |init| ==> (init + [last])[k] == init[k];
    assert (init + [last])[|init|] == last;
    InsertedStaysBelow(rank, init, event, last);
  }

  /** Replaying the log with the event in its place is letting the last event of each row win. */
  lemma {:induction false} RebuildIsLastWins<K(!new), R>(rank: Rank<K>, log: seq<Event<K, R>>, event: Event<K, R>)
    requires IsRank(rank) && IsSorted(rank, log)
    requires forall k :: 0 <= k < |log| ==> log[k].key != event.key
    ensures Rebuilt(InsertSorted(rank, log, event)) == LastWins(rank, Rebuilt(log), event)
    ensures IsSorted(rank, InsertSorted(rank, log, event))
    decreases |log|
  {
    if log == [] || rank(log[|log| - 1].key) < rank(event.key) {
      AppendIsLastWins(rank, log, event);
    } else {
      var init, last := log[..|log| - 1], log[|log| - 1];
      RebuildIsLastWins(rank, init, event);
      assert log == init + [last];
      InsertBelowIsLastWins(rank, init, event, last);
      InsertBelowIsSorted(rank, init, event, last);
    }
  }

  lemma LastCommutes<K(!new), R>(rank: Rank<K>, table: map<string, Event<K, R>>, event: Event<K, R>, last: Event<K, R>)
    requires rank(event.key) < rank(last.key)
    ensures LastWins(rank, table, event)[last.id := last] == LastWins(rank, table[last.id := last], event)
  {
  }

  lemma InsertedStaysBelow<K, R>(rank: Rank<K>, init: seq<Event<K, R>>, event: Event<K, R>, last: Event<K, R>)
    requires rank(event.key) < rank(last.key)
    requires forall k :: 0 <= k < |init| ==> rank(init[k].key) < rank(last.key)
    ensures forall k :: 0 <= k < |InsertSorted(rank, init, event)| ==> rank(InsertSorted(rank, init, event)[k].key) < rank(last.key)
  {
    var r := InsertSorted(rank, init, event);
    forall k | 0 <= k < |r|
      ensures rank(r[k].key) < rank(last.key)
    {
      assert r[k] in multiset(r);
      assert r[k] == event || r[k] in init;
    }
  }

  predicate HasKey<K(==), R>(log: seq<Event<K, R>>, key: K) {
    exists k :: 0 <= k < |log| && log[k].key == key
  }

  class ProjectedLog<K(==, !new), R> {
    var log: seq<Event<K, R>>
    var table: map<string, Event<K, R>>

    ghost predicate Valid(rank: Rank<K>)
      reads this
    {
      IsSorted(rank, log) && table == Rebuilt(log)
    }

    constructor (rank: Rank<K>)
      ensures Valid(rank) && log == []
    {
      log, table := [], map[];
    }

    /** A duplicate key changes nothing; a new event is applied, or has the table rebuilt when it sorts earlier. */
    method InsertEvent(rank: Rank<K>, event: Event<K, R>) returns (outcome: InsertOutcome)
      requires IsRank(rank) && Valid(rank)
      modifies this
      ensures Valid(rank)
      ensures outcome == Duplicate <==> HasKey(old(log), event.key)
      ensures outcome == Duplicate ==> log == old(log) && table == old(table)
      ensures outcome == Inserted ==> log == InsertSorted(rank, old(log), event) && table == LastWins(rank, old(table), event)
    {
      if HasKey(log, event.key) {
        return Duplicate;
      }
      RebuildIsLastWins(rank, log, event);
      Snoc(log, event);
      var isLatest := log == [] || rank(log[|log| - 1].key) < rank(event.key);
      log := InsertSorted(rank, log, event);
      table := if isLatest then table[event.id := event] else Rebuilt(log);
      return Inserted;
    }
  }
}
