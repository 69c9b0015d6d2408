/**
 * The fallback queue of hook events and its replay: files that appenders extend, and one replayer that
 * moves the queue aside, ingests it line by line and removes it, stopping anywhere.
 */
module FallbackQueue {
  import opened EventLog
  import opened Wrappers

  datatype Record = Record(key: string, payload: string)

  /** A line of a queue file as the reader and the parser see it. */
  datatype Line = Good(record: Record) | Blank | Malformed | TooLong

  /**
   * `presented` lists the records brought to the store, in order, `inserted` the keys it accepted, and
   * `markers` the line numbers written to the corrupt marker.
   */
  datatype Disk = Disk(queue: Option<seq<Line>>, replay: Option<seq<Line>>, markers: seq<nat>,
                       store: map<string, Record>, presented: seq<Record>, inserted: seq<string>)

  datatype Pc = Idle | Reading(earlier: bool, next: nat) | Checking | Renaming | Finished

  /** `acked` are the records whose delivery was confirmed to the hook. */
  datatype State = State(disk: Disk, pc: Pc, acked: set<Record>)

  /** What handling one line may come to: nothing, the effect without getting further, or going on. */
  datatype Outcome = Fails | FailsAfterEffect | Succeeds

  datatype Action =
    | Append(line: Line, confirmed: bool)
    | Ingest(record: Record)
    | Advance(outcome: Outcome)
    | Crash

  const EMPTY := State(Disk(None, None, [], map[], [], []), Idle, {})

  function Ingested(disk: Disk, record: Record): Disk {
    disk.(store := Insert(disk.store, record.key, record), presented := disk.presented + [record],
          inserted := if record.key in disk.store then disk.inserted else disk.inserted + [record.key])
  }

  /** The effect of handling line `k`. */
  function Handled(disk: Disk, line: Line, k: nat): Disk {
    match line
    case Good(record) => Ingested(disk, record)
    case Blank => disk
    case _ => disk.(markers := disk.markers + [k + 1])
  }

  function Appended(queue: Option<seq<Line>>, line: Line): Option<seq<Line>> {
    Some((if queue.Some? then queue.value else []) + [line])
  }

  /** One step of the replayer. */
  function Replayed(disk: Disk, pc: Pc, outcome: Outcome): (Disk, Pc) {
    match pc
    case Idle => (disk, if disk.replay.Some? then Reading(true, 0) else Checking)
    case Reading(earlier, k) =>
      if disk.replay.None? then (disk, Idle)
      else if k < |disk.replay.value| then
        if outcome == Fails then (disk, Idle)
        else (Handled(disk, disk.replay.value[k], k), if outcome == FailsAfterEffect then Idle else Reading(earlier, k + 1))
      else if outcome == Fails then (disk, Idle)
      else (disk.(replay := None), if outcome == FailsAfterEffect then Idle else if earlier then Checking else Finished)
    case Checking => (disk, if disk.queue.None? then Finished else Renaming)
    case Renaming =>
      if outcome == Fails then (disk, Idle)
      else if disk.queue.Some? then
        (disk.(queue := None, replay := disk.queue), if outcome == FailsAfterEffect then Idle else Reading(false, 0))
      else (disk, if disk.replay.Some? then Reading(false, 0) else Finished)
    case Finished => (disk, Idle)
  }

  function Step(s: State, action: Action): State {
    match action
    case Append(line, confirmed) =>
      State(s.disk.(queue := Appended(s.disk.queue, line)), s.pc,
            if confirmed && line.Good? then s.acked + {line.record} else s.acked)
    case Ingest(record) => State(Ingested(s.disk, record), s.pc, s.acked + {record})
    case Advance(outcome) => var (disk, pc) := Replayed(s.disk, s.pc, outcome); State(disk, pc, s.acked)
    case Crash => s.(pc := Idle)
  }

  function Exec(s: State, actions: seq<Action>): State
    decreases |actions|
  {
    if actions == [] then s else Exec(Step(s, actions[0]), actions[1..])
  }

  // ---------------------------------------------------------------- nothing confirmed is lost

  function LinesOf(file: Option<seq<Line>>): seq<Line> {
    if file.Some? then file.value else []
  }

  /** The record was brought to the store, or waits in the queue or the replay file. */
  predicate IsKept(disk: Disk, record: Record) {
    record in disk.presented || Good(record) in LinesOf(disk.queue) || Good(record) in LinesOf(disk.replay)
  }

  /** The first record brought to the store under its key. */
  predicate IsFirst(presented: seq<Record>, i: nat)
    requires i < |presented|
  {
    forall j :: 0 <= j < i ==> presented[j].key != presented[i].key
  }

  /** The store holds exactly the first record of every key. */
  predicate StoreHoldsFirst(disk: Disk) {
    && (forall i :: 0 <= i < |disk.presented| ==> disk.presented[i].key in disk.store)
    && (forall i :: 0 <= i < |disk.presented| && IsFirst(disk.presented, i) ==>
          disk.store[disk.presented[i].key] == disk.presented[i])
    && (forall key :: key in disk.store ==> exists i :: 0 <= i < |disk.presented| && disk.presented[i].key == key)
  }

  /** What the replayer has done with the lines before `k`. */
  predicate IsHandled(disk: Disk, line: Line, k: nat) {
    match line
    case Good(record) => record in disk.presented
    case Blank => true
    case _ => k + 1 in disk.markers
  }

  predicate HandledUpTo(disk: Disk, n: nat) {
    disk.replay.Some? && n <= |disk.replay.value| && forall k :: 0 <= k < n ==> IsHandled(disk, disk.replay.value[k], k)
  }

  predicate InsertedOnce(disk: Disk) {
    (forall key :: key in disk.inserted ==> key in disk.store)
    && forall i, j :: 0 <= i < j < |disk.inserted| ==> disk.inserted[i] != disk.inserted[j]
  }

  predicate Kept(s: State) {
    && (forall record :: record in s.acked ==> IsKept(s.disk, record))
    && InsertedOnce(s.disk) && StoreHoldsFirst(s.disk)
    && (s.pc.Reading? ==> HandledUpTo(s.disk, s.pc.next))
    && (s.pc.Checking? || s.pc.Renaming? ==> s.disk.replay.None?)
  }

  lemma HandledKeepsUpTo(disk: Disk, n: nat)
    requires HandledUpTo(disk, n) && n < |disk.replay.value|
    ensures HandledUpTo(Handled(disk, disk.replay.value[n], n), n + 1)
  {
    var after := Handled(disk, disk.replay.value[n], n);
    forall k | 0 <= k < n + 1
      ensures IsHandled(after, after.replay.value[k], k)
    {
      assert k < n ==> IsHandled(disk, disk.replay.value[k], k);
    }
  }

  lemma IngestedOnce(disk: Disk, record: Record)
    requires InsertedOnce(disk)
    ensures InsertedOnce(Ingested(disk, record))
  {
  }

  lemma IngestedHoldsFirst(disk: Disk, record: Record)
    requires StoreHoldsFirst(disk)
    ensures StoreHoldsFirst(Ingested(disk, record))
  {
    var after := Ingested(disk, record);
    var n := |disk.presented|;
    assert forall i :: 0 <= i < n ==> after.presented[i] == disk.presented[i];
    assert after.presented[n] == record;
    forall i | 0 <= i < n + 1 && IsFirst(after.presented, i)
      ensures after.store[after.presented[i].key] == after.presented[i]
    {
      if i < n {
        assert IsFirst(disk.presented, i);
      }
    }
    forall key | key in after.store
      ensures exists i :: 0 <= i < |after.presented| && after.presented[i].key == key
    {
      if key in disk.store {
        var i :| 0 <= i < n && disk.presented[i].key == key;
        assert after.presented[i].key == key;
      }
    }
  }

  /** Removing a wholly handled file loses no record. */
  lemma RemovalKeeps(disk: Disk, record: Record)
    requires IsKept(disk, record) && disk.replay.Some? && HandledUpTo(disk, |disk.replay.value|)
    ensures IsKept(disk.(replay := None), record)
  {
    if Good(record) in disk.replay.value {
      var k :| 0 <= k < |disk.replay.value| && disk.replay.value[k] == Good(record);
      assert IsHandled(disk, disk.replay.value[k], k);
    }
  }

  lemma AdvanceKeeps(s: State, outcome: Outcome)
    requires Kept(s)
    ensures Kept(Step(s, Advance(outcome)))
  {
    var t := Step(s, Advance(outcome));
    if s.pc.Reading? && s.pc.next < |s.disk.replay.value| {
      var line := s.disk.replay.value[s.pc.next];
      HandledKeepsUpTo(s.disk, s.pc.next);
      if line.Good? {
        IngestedOnce(s.disk, line.record);
        IngestedHoldsFirst(s.disk, line.record);
      }
    }
    forall record | record in s.acked
      ensures IsKept(t.disk, record)
    {
      if s.pc.Reading? && s.pc.next == |s.disk.replay.value| {
        RemovalKeeps(s.disk, record);
      }
    }
  }

  lemma StepKeeps(s: State, action: Action)
    requires Kept(s)
    ensures Kept(Step(s, action))
  {
    match action
    case Append(line, confirmed) =>
    case Ingest(record) =>
      IngestedOnce(s.disk, record);
      IngestedHoldsFirst(s.disk, record);
      if s.pc.Reading? {
        IngestKeepsUpTo(s.disk, record, s.pc.next);
      }
    case Advance(outcome) => AdvanceKeeps(s, outcome);
    case Crash =>
  }

  lemma IngestKeepsUpTo(disk: Disk, record: Record, n: nat)
    requires HandledUpTo(disk, n)
    ensures HandledUpTo(Ingested(disk, record), n)
  {
    forall k | 0 <= k < n
      ensures IsHandled(Ingested(disk, record), disk.replay.value[k], k)
    {
      assert IsHandled(disk, disk.replay.value[k], k);
    }
  }

  lemma {:induction false} ExecKeeps(s: State, actions: seq<Action>)
    requires Kept(s)
    ensures Kept(Exec(s, actions))
    decreases |actions|
  {
    if actions != [] {
      StepKeeps(s, actions[0]);
      ExecKeeps(Step(s, actions[0]), actions[1..]);
    }
  }

  /** The position of the first record of a key. */
  lemma {:induction false} FirstOfKey(presented: seq<Record>, i: nat) returns (first: nat)
    requires i < |presented|
    ensures first <= i && presented[first].key == presented[i].key && IsFirst(presented, first)
    decreases i
  {
    if IsFirst(presented, i) {
      first := i;
    } else {
      var j :| 0 <= j < i && presented[j].key == presented[i].key;
      first := FirstOfKey(presented, j);
    }
  }

  /**
   * Whatever is appended, ingested, replayed and interrupted, every confirmed record waits in a file or was
   * brought to the store, which holds the first record of its key: this one, or another that came before it.
   */
  lemma ConfirmedIsNeverLost(actions: seq<Action>, record: Record)
    requires record in Exec(EMPTY, actions).acked
    ensures var disk := Exec(EMPTY, actions).disk;
            || Good(record) in LinesOf(disk.queue) || Good(record) in LinesOf(disk.replay)
            || exists first, i :: 0 <= first <= i < |disk.presented| && disk.presented[i] == record
                 && IsFirst(disk.presented, first) && disk.presented[first].key == record.key
                 && record.key in disk.store && disk.store[record.key] == disk.presented[first]
  {
    ExecKeeps(EMPTY, actions);
    var disk := Exec(EMPTY, actions).disk;
    if record in disk.presented {
      var i :| 0 <= i < |disk.presented| && disk.presented[i] == record;
      var first := FirstOfKey(disk.presented, i);
    }
  }

  /** A record brought to the store is itself in it exactly when it is the first of its key. */
  lemma RecordIsStoredIffFirst(actions: seq<Action>, i: nat)
    requires i < |Exec(EMPTY, actions).disk.presented|
    ensures var disk := Exec(EMPTY, actions).disk; var record := disk.presented[i];
            && record.key in disk.store
            && (disk.store[record.key] == record <==>
                exists j :: 0 <= j <= i && IsFirst(disk.presented, j) && disk.presented[j] == record)
  {
    ExecKeeps(EMPTY, actions);
    var disk := Exec(EMPTY, actions).disk;
    var first := FirstOfKey(disk.presented, i);
  }

  /** A second record of a key is confirmed although the store holds another one and no file holds it. */
  lemma SecondRecordIsNotStored(key: string, first: string, second: string)
    requires first != second
    ensures var s := Exec(EMPTY, [Ingest(Record(key, first)), Ingest(Record(key, second))]);
            && Record(key, second) in s.acked
            && key in s.disk.store && s.disk.store[key] == Record(key, first)
            && s.disk.queue.None? && s.disk.replay.None?
  {
    var a, b := Ingest(Record(key, first)), Ingest(Record(key, second));
    assert [a, b][1..] == [b] && [b][1..] == [];
    assert Exec(Step(EMPTY, a), [b]) == Step(Step(EMPTY, a), b);
  }

  /** However often it is delivered and replayed, the store accepts a key once. */
  lemma AcceptedOnce(actions: seq<Action>, i: nat, j: nat)
    requires i < j < |Exec(EMPTY, actions).disk.inserted|
    ensures Exec(EMPTY, actions).disk.inserted[i] != Exec(EMPTY, actions).disk.inserted[j]
  {
    ExecKeeps(EMPTY, actions);
  }

  /** When the queue is moved aside there is no replay file it could overwrite. */
  lemma RenameOverwritesNothing(actions: seq<Action>)
    requires Exec(EMPTY, actions).pc.Renaming?
    ensures Exec(EMPTY, actions).disk.replay.None?
  {
    ExecKeeps(EMPTY, actions);
  }

  /** When the replay file is removed every record in it is stored and every other line has its marker. */
  lemma RemovedMeansHandled(actions: seq<Action>, k: nat)
    requires var s := Exec(EMPTY, actions);
             s.pc.Reading? && s.disk.replay.Some? && s.pc.next == |s.disk.replay.value| && k < s.pc.next
    ensures var s := Exec(EMPTY, actions); IsHandled(s.disk, s.disk.replay.value[k], k)
  {
    ExecKeeps(EMPTY, actions);
    assert HandledUpTo(Exec(EMPTY, actions).disk, Exec(EMPTY, actions).pc.next);
  }

  // ---------------------------------------------------------------- the replay as a program

  /** What the file system and the store answer one replay: for each line and the removal, and for the rename. */
  datatype World = World(handling: (bool, nat) -> Outcome, rename: Outcome)

  function OutcomeAt(world: World, pc: Pc): Outcome {
    match pc
    case Reading(earlier, k) => world.handling(earlier, k)
    case Renaming => world.rename
    case _ => Succeeds
  }

  /** At most `n` steps of one replay that nobody interrupts. */
  function Alone(disk: Disk, pc: Pc, world: World, n: nat): (Disk, Pc)
    decreases n
  {
    if n == 0 || pc.Finished? || pc.Idle? then (disk, pc)
    else
      var (next, after) := Replayed(disk, pc, OutcomeAt(world, pc));
      Alone(next, after, world, n - 1)
  }

  /** From `start`, the replay gets to `disk` and `pc` in some number of steps. */
  ghost predicate Reaches(start: Disk, from: Pc, world: World, disk: Disk, pc: Pc) {
    exists n: nat :: Alone(start, from, world, n) == (disk, pc)
  }

  lemma {:induction false} AloneStep(start: Disk, from: Pc, world: World, n: nat, disk: Disk, pc: Pc)
    requires Alone(start, from, world, n) == (disk, pc) && !pc.Idle? && !pc.Finished?
    ensures Alone(start, from, world, n + 1) == Replayed(disk, pc, OutcomeAt(world, pc))
    decreases n
  {
    var (next, after) := Replayed(start, from, OutcomeAt(world, from));
    if n == 0 {
      assert Alone(next, after, world, 0) == (next, after);
    } else {
      AloneStep(next, after, world, n - 1, disk, pc);
    }
  }

  lemma OneMore(start: Disk, from: Pc, world: World, disk: Disk, pc: Pc)
    requires Reaches(start, from, world, disk, pc) && !pc.Idle? && !pc.Finished?
    ensures var (next, after) := Replayed(disk, pc, OutcomeAt(world, pc)); Reaches(start, from, world, next, after)
  {
    var n: nat :| Alone(start, from, world, n) == (disk, pc);
    AloneStep(start, from, world, n, disk, pc);
  }

  /** Such a replay is one of the runs of the whole system. */
  lemma {:induction false} AloneIsARun(s: State, world: World, n: nat) returns (actions: seq<Action>)
    ensures Exec(s, actions) == State(Alone(s.disk, s.pc, world, n).0, Alone(s.disk, s.pc, world, n).1, s.acked)
    decreases n
  {
    if n == 0 || s.pc.Finished? || s.pc.Idle? {
      actions := [];
    } else {
      var first := Advance(OutcomeAt(world, s.pc));
      var rest := AloneIsARun(Step(s, first), world, n - 1);
      actions := [first] + rest;
      assert actions[1..] == rest;
    }
  }

  /** Every record of a file was brought to the store, which holds its key. */
  predicate AllStored(file: Option<seq<Line>>, disk: Disk) {
    forall line :: line in LinesOf(file) && line.Good? ==> line.record in disk.presented && line.record.key in disk.store
  }

  /** The replay that began with `initial` has handled `k` lines and lost nothing. */
  predicate IsProgress(initial: Disk, disk: Disk, k: nat) {
    && disk.replay == initial.replay && disk.queue == initial.queue && HandledUpTo(disk, k) && StoreHoldsFirst(disk)
    && initial.presented <= disk.presented && Extends(disk.store, initial.store)
  }

  lemma LineIsProgress(initial: Disk, disk: Disk, k: nat)
    requires IsProgress(initial, disk, k) && k < |disk.replay.value|
    ensures IsProgress(initial, Handled(disk, disk.replay.value[k], k), k + 1)
  {
    HandledKeepsUpTo(disk, k);
    if disk.replay.value[k].Good? {
      IngestedHoldsFirst(disk, disk.replay.value[k].record);
    }
  }

  class QueueFiles {
    var disk: Disk

    constructor (disk: Disk)
      ensures this.disk == disk
    {
      this.disk := disk;
    }

    /** Brings a record to the store, which keeps it unless it has one under the same key. */
    method IngestHookEvent(record: Record)
      modifies this
      ensures disk == Ingested(old(disk), record)
    {
      var isNew := record.key !in disk.store;
      disk := disk.(presented := disk.presented + [record]);
      if isNew {
        disk := disk.(store := disk.store[record.key := record], inserted := disk.inserted + [record.key]);
      }
    }

    method HandleLine(line: Line, k: nat)
      modifies this
      ensures disk == Handled(old(disk), line, k)
      ensures line.Blank? ==> disk == old(disk)
      ensures line.Malformed? || line.TooLong? ==> disk == old(disk).(markers := old(disk).markers + [k + 1])
      ensures line.Good? ==> disk.presented == old(disk).presented + [line.record] && disk.markers == old(disk).markers
    {
      match line {
        case Good(record) => IngestHookEvent(record);
        case Blank =>
        case _ => disk := disk.(markers := disk.markers + [k + 1]);
      }
    }

    /** Handles the replay file line by line and removes it; a failure leaves the file as it is. */
    method ReplayQueueFile(earlier: bool, world: World, ghost start: Disk, ghost from: Pc) returns (ok: bool)
      requires disk.replay.Some? && StoreHoldsFirst(disk) && Reaches(start, from, world, disk, Reading(earlier, 0))
      modifies this
      ensures StoreHoldsFirst(disk)
      ensures Reaches(start, from, world, disk, if !ok then Idle else if earlier then Checking else Finished)
      ensures ok ==> disk.replay.None? && AllStored(old(disk.replay), disk)
      ensures !ok ==> disk.replay == old(disk.replay) || (disk.replay.None? && AllStored(old(disk.replay), disk))
      ensures disk.queue == old(disk.queue) && old(disk.presented) <= disk.presented && Extends(disk.store, old(disk.store))
    {
      var lines := disk.replay.value;
      ghost var initial := disk;
      var k := 0;
      while k < |lines|
        invariant k <= |lines| && initial.replay == Some(lines)
        invariant Reaches(start, from, world, disk, Reading(earlier, k))
        invariant IsProgress(initial, disk, k)
      {
        var outcome := world.handling(earlier, k);
        OneMore(start, from, world, disk, Reading(earlier, k));
        if outcome == Fails {
          return false;
        }
        LineIsProgress(initial, disk, k);
        HandleLine(lines[k], k);
        if outcome == FailsAfterEffect {
          return false;
        }
        k := k + 1;
      }
      RemovalIsStored(initial, disk);
      OneMore(start, from, world, disk, Reading(earlier, k));
      var outcome := world.handling(earlier, k);
      if outcome == Fails {
        return false;
      }
      disk := disk.(replay := None);
      ok := outcome == Succeeds;
    }

    /** Finishes an interrupted replay, then moves the queue aside under the lock and replays it. */
    method ReplayFallback(world: World) returns (ok: bool)
      requires StoreHoldsFirst(disk)
      modifies this
      ensures StoreHoldsFirst(disk)
      ensures Reaches(old(disk), Replayed(old(disk), Idle, Succeeds).1, world, disk, if ok then Finished else Idle)
      ensures ok ==> disk.queue.None? && disk.replay.None?
      ensures ok ==> AllStored(old(disk.queue), disk) && AllStored(old(disk.replay), disk)
    {
      ghost var start := disk;
      ghost var from := Replayed(disk, Idle, Succeeds).1;
      assert Alone(start, from, world, 0) == (disk, from);
      if disk.replay.Some? {
        ok := ReplayQueueFile(true, world, start, from);
        if !ok {
          return;
        }
      }
      OneMore(start, from, world, disk, Checking);
      if disk.queue.None? {
        return true;
      }
      OneMore(start, from, world, disk, Renaming);
      if world.rename == Fails {
        return false;
      }
      disk := disk.(queue := None, replay := disk.queue);
      if world.rename == FailsAfterEffect {
        return false;
      }
      ghost var earlier := disk;
      ok := ReplayQueueFile(false, world, start, from);
      MoreIsStored(start.replay, earlier, disk);
    }
  }

  lemma MoreIsStored(file: Option<seq<Line>>, earlier: Disk, later: Disk)
    requires earlier.presented <= later.presented && Extends(later.store, earlier.store)
    ensures AllStored(file, earlier) ==> AllStored(file, later)
  {
  }

  lemma RemovalIsStored(initial: Disk, disk: Disk)
    requires disk.replay.Some? && IsProgress(initial, disk, |disk.replay.value|)
    ensures AllStored(initial.replay, disk.(replay := None)) && StoreHoldsFirst(disk.(replay := None))
  {
    forall line | line in disk.replay.value && line.Good?
      ensures line.record in disk.presented && line.record.key in disk.store
    {
      var k :| 0 <= k < |disk.replay.value| && disk.replay.value[k] == line;
      assert IsHandled(disk, disk.replay.value[k], k);
      var i :| 0 <= i < |disk.presented| && disk.presented[i] == line.record;
      assert disk.presented[i].key in disk.store;
    }
  }
}
