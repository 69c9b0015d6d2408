/** The append-only event log: an insert is decided by its unique dedupe key and no event is ever updated. */
module EventLog {
  datatype InsertOutcome = Inserted | Duplicate

  datatype Entry<K, V> = Entry(key: K, value: V)

  /** The log after an insert: the first event with a key stays. */
  function Insert<K, V>(log: map<K, V>, key: K, value: V): map<K, V> {
    if key in log then log else log[key := value]
  }

  function InsertAll<K, V>(log: map<K, V>, entries: seq<Entry<K, V>>): map<K, V>
    decreases |entries|
  {
    if entries == [] then log else InsertAll(Insert(log, entries[0].key, entries[0].value), entries[1..])
  }

  /** Everything `earlier` recorded is still there, unchanged. */
  predicate Extends<K, V(==)>(later: map<K, V>, earlier: map<K, V>) {
    forall key :: key in earlier ==> key in later && later[key] == earlier[key]
  }

  class Store<K(==), V> {
    var log: map<K, V>

    constructor (log: map<K, V>)
      ensures this.log == log
    {
      this.log := log;
    }

    method InsertEvent(key: K, value: V) returns (outcome: InsertOutcome)
      modifies this
      ensures log == Insert(old(log), key, value)
      ensures outcome == if key in old(log) then Duplicate else Inserted
    {
      if key in log {
        return Duplicate;
      }
      log := log[key := value];
      return Inserted;
    }
  }

  /** However many writers insert, a key holds what the first of them wrote, and nothing recorded before changes. */
  lemma {:induction false} FirstWriterWins<K, V>(log: map<K, V>, entries: seq<Entry<K, V>>, k: nat)
    requires k < |entries|
    requires entries[k].key !in log
    requires forall i :: 0 <= i < k ==> entries[i].key != entries[k].key
    ensures Extends(InsertAll(log, entries), log)
    ensures entries[k].key in InsertAll(log, entries)
    ensures InsertAll(log, entries)[entries[k].key] == entries[k].value
    decreases |entries|
  {
    var next := Insert(log, entries[0].key, entries[0].value);
    if k == 0 {
      InsertAllExtends(next, entries[1..]);
      InsertAllExtends(log, entries);
    } else {
      FirstWriterWins(next, entries[1..], k - 1);
    }
  }

  lemma {:induction false} InsertAllExtends<K, V>(log: map<K, V>, entries: seq<Entry<K, V>>)
    ensures Extends(InsertAll(log, entries), log)
    decreases |entries|
  {
    if entries != [] {
      InsertAllExtends(Insert(log, entries[0].key, entries[0].value), entries[1..]);
    }
  }
}
