/**
 * Starting a fresh task for a continued request, with any number of attempts running at once and
 * stopping anywhere. An attempt is a program counter over the steps between reads of the log,
 * appends to it and App Server calls.
 */
module Rollover {
  import opened EventLog
  import opened Wrappers

  type Operation = string

  type Thread = string

  type Turn = string

  datatype Status = Pending | ThreadCreated | Started | Failed

  /** The dedupe key of an operation event. */
  datatype Key = Key(op: Operation, status: Status)

  /** The payload fields an operation event carries besides its key. */
  datatype Fields = Fields(thread: Option<Thread>, turn: Option<Turn>)

  type Log = map<Key, Fields>

  /** An App Server request, labelled with the attempt that issued it. */
  datatype Call =
    | ThreadStart(attempt: nat, op: Operation)
    | ThreadResume(attempt: nat, op: Operation, thread: Thread)
    | ThreadRead(attempt: nat, op: Operation, thread: Thread)
    | NameSet(attempt: nat, op: Operation, thread: Thread)
    | TurnStart(attempt: nat, op: Operation, thread: Thread, messageId: string, reply: Option<Turn>)

  datatype Result =
    | ReturnedStarted(thread: Option<Thread>, turn: Option<Turn>)
    | ReturnedFailed(failedThread: Option<Thread>)
    | PendingRecovery

  datatype Pc =
    | Reading
    | Claiming
    | Preparing(recorded: Option<Thread>)
    | Connecting(recorded: Option<Thread>)
    | Creating
    | Recording(thread: Thread)
    | Resuming(thread: Thread)
    | Inspecting(thread: Thread)
    | Naming(thread: Thread)
    | Turning(thread: Thread)
    | Finishing(thread: Thread, turn: Turn)
    | Failing(recorded: Option<Thread>)
    | Done(result: Result)
    | Crashed

  datatype Attempt = Attempt(op: Operation, pc: Pc)

  datatype State = State(log: Log, calls: seq<Call>, attempts: seq<Attempt>)

  /** What the outside world answers a step: whether it succeeds and the id it returns. */
  datatype Answer = Answer(ok: bool, id: string)

  datatype Action =
    | Spawn(op: Operation)
    | Advance(attempt: nat, answer: Answer)
    | Crash(attempt: nat)

  /** What one step of an attempt does: its next place, the event it inserts and the call it makes. */
  datatype Effect = Effect(pc: Pc, event: Option<Entry<Key, Fields>>, call: Option<Call>)

  const INITIAL := State(map[], [], [])

  function Local(pc: Pc): Effect {
    Effect(pc, None, None)
  }

  function Appending(pc: Pc, op: Operation, status: Status, fields: Fields): Effect {
    Effect(pc, Some(Entry(Key(op, status), fields)), None)
  }

  function Calling(pc: Pc, call: Call): Effect {
    Effect(pc, None, Some(call))
  }

  function RecordedThread(log: Log, op: Operation): Option<Thread> {
    if Key(op, ThreadCreated) in log then log[Key(op, ThreadCreated)].thread else None
  }

  /** Where an attempt goes after reading the events of its operation. */
  function AfterRead(log: Log, op: Operation): Pc {
    if Key(op, Started) in log then Done(ReturnedStarted(log[Key(op, Started)].thread, log[Key(op, Started)].turn))
    else if Key(op, Failed) in log then Done(ReturnedFailed(log[Key(op, Failed)].thread))
    else if Key(op, ThreadCreated) in log then
      if RecordedThread(log, op).Some? then Preparing(RecordedThread(log, op)) else Crashed
    else if Key(op, Pending) in log then Done(PendingRecovery)
    else Claiming
  }

  function Next(i: nat, op: Operation, pc: Pc, log: Log, answer: Answer): Effect {
    match pc
    case Reading => Local(AfterRead(log, op))
    case Claiming =>
      Appending(if Key(op, Pending) in log then Done(PendingRecovery) else Preparing(None), op, Pending, Fields(None, None))
    case Preparing(recorded) => Local(if answer.ok then Connecting(recorded) else Failing(recorded))
    case Connecting(recorded) =>
      Local(if !answer.ok then Failing(recorded) else if recorded.Some? then Resuming(recorded.value) else Creating)
    case Creating => Calling(if answer.ok then Recording(answer.id) else Failing(None), ThreadStart(i, op))
    case Recording(thread) => Appending(Inspecting(thread), op, ThreadCreated, Fields(Some(thread), None))
    case Resuming(thread) =>
      Calling(if answer.ok && answer.id == thread then Inspecting(answer.id) else Failing(Some(thread)),
              ThreadResume(i, op, thread))
    case Inspecting(thread) =>
      Calling(if answer.ok then Naming(thread) else Failing(Some(thread)), ThreadRead(i, op, thread))
    case Naming(thread) => Calling(Turning(thread), NameSet(i, op, thread))
    case Turning(thread) =>
      Calling(if answer.ok then Finishing(thread, answer.id) else Failing(Some(thread)),
              TurnStart(i, op, thread, op, if answer.ok then Some(answer.id) else None))
    case Finishing(thread, turn) =>
      Appending(Done(ReturnedStarted(Some(thread), Some(turn))), op, Started, Fields(Some(thread), Some(turn)))
    case Failing(recorded) => Appending(Done(ReturnedFailed(recorded)), op, Failed, Fields(recorded, None))
    case Done(_) => Local(pc)
    case Crashed => Local(pc)
  }

  function Recorded(log: Log, event: Option<Entry<Key, Fields>>): Log {
    if event.None? then log else Insert(log, event.value.key, event.value.value)
  }

  function Called(calls: seq<Call>, call: Option<Call>): seq<Call> {
    if call.None? then calls else calls + [call.value]
  }

  function Apply(s: State, i: nat, effect: Effect): State
    requires i < |s.attempts|
  {
    State(Recorded(s.log, effect.event), Called(s.calls, effect.call),
          s.attempts[i := s.attempts[i].(pc := effect.pc)])
  }

  function EffectOf(s: State, i: nat, answer: Answer): Effect
    requires i < |s.attempts|
  {
    Next(i, s.attempts[i].op, s.attempts[i].pc, s.log, answer)
  }

  /** One step of the whole system; an action that names no attempt does nothing. */
  function Step(s: State, action: Action): State {
    match action
    case Spawn(op) => s.(attempts := s.attempts + [Attempt(op, Reading)])
    case Advance(i, answer) => if i < |s.attempts| then Apply(s, i, EffectOf(s, i, answer)) else s
    case Crash(i) =>
      if i < |s.attempts| && !s.attempts[i].pc.Done? then Apply(s, i, Local(Crashed)) else s
  }

  function Exec(s: State, actions: seq<Action>): State
    decreases |actions|
  {
    if actions == [] then s else Exec(Step(s, actions[0]), actions[1..])
  }

  // ---------------------------------------------------------------- what every run keeps

  /** The attempt that inserted the pending record, until its new thread is recorded. */
  predicate MayCreate(pc: Pc) {
    match pc
    case Preparing(recorded) => recorded.None?
    case Connecting(recorded) => recorded.None?
    case Creating => true
    case Recording(_) => true
    case _ => false
  }

  /** The thread an attempt works on once it is recorded. */
  function WorksOn(pc: Pc): Option<Thread> {
    match pc
    case Preparing(recorded) => recorded
    case Connecting(recorded) => recorded
    case Resuming(thread) => Some(thread)
    case Inspecting(thread) => Some(thread)
    case Naming(thread) => Some(thread)
    case Turning(thread) => Some(thread)
    case Finishing(thread, _) => Some(thread)
    case Failing(recorded) => recorded
    case Done(result) => if result.ReturnedStarted? then result.thread else None
    case _ => None
  }

  /** The turn an attempt has seen started. */
  function HasStarted(pc: Pc): Option<Turn> {
    match pc
    case Finishing(_, turn) => Some(turn)
    case Done(result) => if result.ReturnedStarted? then result.turn else None
    case _ => None
  }

  predicate IsRecorded(log: Log, op: Operation, thread: Thread) {
    RecordedThread(log, op) == Some(thread)
  }

  /** A turn of the operation was started on the thread, carrying the operation as message id. */
  predicate TurnWasStarted(calls: seq<Call>, op: Operation, thread: Thread, turn: Turn) {
    exists k :: 0 <= k < |calls| && IsTurnOf(calls[k], op, thread, turn)
  }

  predicate IsTurnOf(call: Call, op: Operation, thread: Thread, turn: Turn) {
    call.TurnStart? && call.op == op && call.thread == thread && call.messageId == op && call.reply == Some(turn)
  }

  predicate NoThreadStart(calls: seq<Call>, op: Operation) {
    forall k :: 0 <= k < |calls| ==> !(calls[k].ThreadStart? && calls[k].op == op)
  }

  predicate AttemptOk(a: Attempt, log: Log, calls: seq<Call>) {
    && (MayCreate(a.pc) ==> Key(a.op, Pending) in log && Key(a.op, ThreadCreated) !in log)
    && (MayCreate(a.pc) && !a.pc.Recording? ==> NoThreadStart(calls, a.op))
    && (WorksOn(a.pc).Some? ==> IsRecorded(log, a.op, WorksOn(a.pc).value))
    && (HasStarted(a.pc).Some? ==>
          WorksOn(a.pc).Some? && TurnWasStarted(calls, a.op, WorksOn(a.pc).value, HasStarted(a.pc).value))
    && (a.pc.Done? && a.pc.result.ReturnedStarted? ==> HasStarted(a.pc).Some?)
  }

  predicate OperationOk(log: Log, calls: seq<Call>, op: Operation) {
    && (Key(op, ThreadCreated) in log ==> Key(op, Pending) in log && RecordedThread(log, op).Some?)
    && (Key(op, Started) in log ==>
          var started := log[Key(op, Started)];
          && started.thread.Some? && started.turn.Some?
          && IsRecorded(log, op, started.thread.value)
          && TurnWasStarted(calls, op, started.thread.value, started.turn.value))
  }

  /** Calls other than the creation itself go to the recorded thread. */
  predicate CallOk(log: Log, call: Call) {
    match call
    case ThreadStart(_, op) => Key(op, Pending) in log
    case TurnStart(_, op, thread, messageId, _) => messageId == op && IsRecorded(log, op, thread)
    case ThreadResume(_, op, thread) => IsRecorded(log, op, thread)
    case ThreadRead(_, op, thread) => IsRecorded(log, op, thread)
    case NameSet(_, op, thread) => IsRecorded(log, op, thread)
  }

  predicate AttemptsOk(s: State) {
    forall i :: 0 <= i < |s.attempts| ==> AttemptOk(s.attempts[i], s.log, s.calls)
  }

  ghost predicate LogOk(log: Log, calls: seq<Call>) {
    forall op :: Key(op, ThreadCreated) in log || Key(op, Started) in log ==> OperationOk(log, calls, op)
  }

  predicate CallsOk(log: Log, calls: seq<Call>) {
    forall k :: 0 <= k < |calls| ==> CallOk(log, calls[k])
  }

  predicate SingleCreator(attempts: seq<Attempt>) {
    forall i, j :: 0 <= i < j < |attempts| && attempts[i].op == attempts[j].op
      ==> !(MayCreate(attempts[i].pc) && MayCreate(attempts[j].pc))
  }

  predicate ThreadStartsAreUnique(calls: seq<Call>) {
    forall i, j :: 0 <= i < j < |calls| && calls[i].ThreadStart? && calls[j].ThreadStart? ==> calls[i].op != calls[j].op
  }

  ghost predicate Safe(s: State) {
    AttemptsOk(s) && LogOk(s.log, s.calls) && CallsOk(s.log, s.calls) && SingleCreator(s.attempts)
    && ThreadStartsAreUnique(s.calls)
  }

  /** Log entries and calls are only ever added. */
  predicate Grows(s: State, t: State) {
    Extends(t.log, s.log) && s.calls <= t.calls
  }

  lemma GrowsKeeps(s: State, t: State, op: Operation, thread: Thread, turn: Turn)
    requires Grows(s, t)
    ensures IsRecorded(s.log, op, thread) ==> IsRecorded(t.log, op, thread)
    ensures TurnWasStarted(s.calls, op, thread, turn) ==> TurnWasStarted(t.calls, op, thread, turn)
  {
    if TurnWasStarted(s.calls, op, thread, turn) {
      var k :| 0 <= k < |s.calls| && IsTurnOf(s.calls[k], op, thread, turn);
      assert IsTurnOf(t.calls[k], op, thread, turn);
    }
  }

  lemma EffectGrows(s: State, i: nat, effect: Effect)
    requires i < |s.attempts|
    ensures Grows(s, Apply(s, i, effect))
  {
  }

  /** What an effect may do: only a creator starts or records a thread, and only where none is recorded. */
  lemma EffectIsPermitted(s: State, i: nat, answer: Answer)
    requires i < |s.attempts|
    ensures var pc := s.attempts[i].pc; var op := s.attempts[i].op; var e := EffectOf(s, i, answer);
            && (e.event.Some? ==> e.event.value.key.op == op)
            && (e.call.Some? ==> e.call.value.op == op)
            && (e.event.Some? && e.event.value.key.status == ThreadCreated ==> MayCreate(pc))
            && (e.call.Some? && e.call.value.ThreadStart? ==> MayCreate(pc) && !pc.Recording? && MayCreate(e.pc) ==> e.pc.Recording?)
            && (e.call.Some? && e.call.value.ThreadStart? ==> pc.Creating?)
            && (MayCreate(e.pc) && !MayCreate(pc) ==> pc.Claiming? && Key(op, Pending) !in s.log)
  {
  }

  lemma OtherAttemptKept(s: State, i: nat, answer: Answer, j: nat)
    requires Safe(s) && i < |s.attempts| && j < |s.attempts| && i != j
    ensures var t := Apply(s, i, EffectOf(s, i, answer)); AttemptOk(s.attempts[j], t.log, t.calls)
  {
    var t := Apply(s, i, EffectOf(s, i, answer));
    var a := s.attempts[j];
    EffectIsPermitted(s, i, answer);
    EffectGrows(s, i, EffectOf(s, i, answer));
    if WorksOn(a.pc).Some? {
      GrowsKeeps(s, t, a.op, WorksOn(a.pc).value, if HasStarted(a.pc).Some? then HasStarted(a.pc).value else "");
    }
  }

  lemma OwnAttemptKept(s: State, i: nat, answer: Answer)
    requires Safe(s) && i < |s.attempts|
    ensures var t := Apply(s, i, EffectOf(s, i, answer)); AttemptOk(t.attempts[i], t.log, t.calls)
  {
    var t := Apply(s, i, EffectOf(s, i, answer));
    var a := s.attempts[i];
    if HasStarted(a.pc).Some? {
      EffectGrows(s, i, EffectOf(s, i, answer));
      GrowsKeeps(s, t, a.op, WorksOn(a.pc).value, HasStarted(a.pc).value);
    } else if a.pc.Turning? && answer.ok {
      assert IsTurnOf(t.calls[|s.calls|], a.op, a.pc.thread, answer.id);
    } else if a.pc.Reading? {
      assert Key(a.op, Started) in s.log ==> OperationOk(s.log, s.calls, a.op);
    }
  }

  lemma LogKept(s: State, i: nat, answer: Answer)
    requires Safe(s) && i < |s.attempts|
    ensures var t := Apply(s, i, EffectOf(s, i, answer)); LogOk(t.log, t.calls)
  {
    var t := Apply(s, i, EffectOf(s, i, answer));
    forall op | Key(op, ThreadCreated) in t.log || Key(op, Started) in t.log
      ensures OperationOk(t.log, t.calls, op)
    {
      OperationKept(s, i, answer, op);
    }
  }

  lemma OperationKept(s: State, i: nat, answer: Answer, op: Operation)
    requires Safe(s) && i < |s.attempts|
    ensures var t := Apply(s, i, EffectOf(s, i, answer)); OperationOk(t.log, t.calls, op)
  {
    var t := Apply(s, i, EffectOf(s, i, answer));
    EffectGrows(s, i, EffectOf(s, i, answer));
    if Key(op, Started) in s.log {
      assert OperationOk(s.log, s.calls, op);
      var started := s.log[Key(op, Started)];
      GrowsKeeps(s, t, op, started.thread.value, started.turn.value);
    }
    var a := s.attempts[i];
    if a.pc.Finishing? {
      GrowsKeeps(s, t, op, a.pc.thread, a.pc.turn);
    }
  }

  lemma CallsKept(s: State, i: nat, answer: Answer)
    requires Safe(s) && i < |s.attempts|
    ensures var t := Apply(s, i, EffectOf(s, i, answer)); CallsOk(t.log, t.calls) && ThreadStartsAreUnique(t.calls)
  {
  }

  lemma CreatorKept(s: State, i: nat, answer: Answer)
    requires Safe(s) && i < |s.attempts|
    ensures SingleCreator(Apply(s, i, EffectOf(s, i, answer)).attempts)
  {
    EffectIsPermitted(s, i, answer);
  }

  lemma StepKeepsSafe(s: State, action: Action)
    requires Safe(s)
    ensures Safe(Step(s, action)) && Grows(s, Step(s, action))
  {
    match action
    case Spawn(op) =>
    case Crash(i) =>
    case Advance(i, answer) =>
      if i < |s.attempts| {
        AdvanceKeepsSafe(s, i, answer);
      }
  }

  lemma AdvanceKeepsSafe(s: State, i: nat, answer: Answer)
    requires Safe(s) && i < |s.attempts|
    ensures Safe(Apply(s, i, EffectOf(s, i, answer)))
  {
    var t := Apply(s, i, EffectOf(s, i, answer));
    forall j | 0 <= j < |t.attempts|
      ensures AttemptOk(t.attempts[j], t.log, t.calls)
    {
      if j == i {
        OwnAttemptKept(s, i, answer);
      } else {
        OtherAttemptKept(s, i, answer, j);
      }
    }
    LogKept(s, i, answer);
    CallsKept(s, i, answer);
    CreatorKept(s, i, answer);
  }

  lemma {:induction false} ExecKeepsSafe(s: State, actions: seq<Action>)
    requires Safe(s)
    ensures Safe(Exec(s, actions)) && Grows(s, Exec(s, actions))
    decreases |actions|
  {
    if actions != [] {
      StepKeepsSafe(s, actions[0]);
      ExecKeepsSafe(Step(s, actions[0]), actions[1..]);
    }
  }

  /** Whatever attempts run, retry and stop, in any interleaving, an operation creates at most one thread. */
  lemma AtMostOneThreadStart(actions: seq<Action>, i: nat, j: nat)
    requires var calls := Exec(INITIAL, actions).calls;
             i < j < |calls| && calls[i].ThreadStart? && calls[j].ThreadStart?
    ensures Exec(INITIAL, actions).calls[i].op != Exec(INITIAL, actions).calls[j].op
  {
    ExecKeepsSafe(INITIAL, actions);
  }

  /** Every turn goes to the one recorded thread of its operation and carries the operation as message id. */
  lemma TurnsTargetTheRecordedThread(actions: seq<Action>, k: nat)
    requires k < |Exec(INITIAL, actions).calls| && Exec(INITIAL, actions).calls[k].TurnStart?
    ensures var s := Exec(INITIAL, actions); var call := s.calls[k];
            call.messageId == call.op && IsRecorded(s.log, call.op, call.thread)
  {
    ExecKeepsSafe(INITIAL, actions);
    assert CallOk(Exec(INITIAL, actions).log, Exec(INITIAL, actions).calls[k]);
  }

  /** A started record names a turn that was really started, on the recorded thread. */
  lemma StartedMeansATurnWasStarted(actions: seq<Action>, op: Operation)
    requires Key(op, Started) in Exec(INITIAL, actions).log
    ensures var s := Exec(INITIAL, actions); var started := s.log[Key(op, Started)];
            && started.thread.Some? && started.turn.Some?
            && IsRecorded(s.log, op, started.thread.value)
            && TurnWasStarted(s.calls, op, started.thread.value, started.turn.value)
  {
    ExecKeepsSafe(INITIAL, actions);
    assert OperationOk(Exec(INITIAL, actions).log, Exec(INITIAL, actions).calls, op);
  }

  // ---------------------------------------------------------------- once started, always that task

  predicate AnswersOnly(pc: Pc, result: Result) {
    pc == Reading || pc == Crashed || pc == Done(result)
  }

  /** No call from position `from` on was made by attempt `i`. */
  predicate QuietSince(calls: seq<Call>, from: nat, i: nat) {
    forall k :: from <= k < |calls| ==> calls[k].attempt != i
  }

  predicate IsAttemptAt(s: State, i: nat, op: Operation) {
    i < |s.attempts| && s.attempts[i].op == op
  }

  /** Attempt `i` can only return the started record and has called nothing since. */
  predicate ReadsStarted(s: State, from: nat, i: nat, op: Operation, fields: Fields) {
    && IsAttemptAt(s, i, op)
    && Key(op, Started) in s.log && s.log[Key(op, Started)] == fields
    && from <= |s.calls| && QuietSince(s.calls, from, i)
    && AnswersOnly(s.attempts[i].pc, ReturnedStarted(fields.thread, fields.turn))
  }

  lemma StepKeepsReadsStarted(s: State, action: Action, from: nat, i: nat, op: Operation, fields: Fields)
    requires ReadsStarted(s, from, i, op, fields)
    ensures ReadsStarted(Step(s, action), from, i, op, fields)
  {
    if action.Advance? && action.attempt < |s.attempts| {
      CallsAreLabelled(s, action.attempt, action.answer);
    }
  }

  lemma CallsAreLabelled(s: State, i: nat, answer: Answer)
    requires i < |s.attempts|
    ensures var effect := EffectOf(s, i, answer); effect.call.Some? ==> effect.call.value.attempt == i
  {
  }

  lemma {:induction false} ExecKeepsReadsStarted(s: State, actions: seq<Action>, from: nat, i: nat, op: Operation, fields: Fields)
    requires ReadsStarted(s, from, i, op, fields)
    ensures ReadsStarted(Exec(s, actions), from, i, op, fields)
    decreases |actions|
  {
    if actions != [] {
      StepKeepsReadsStarted(s, actions[0], from, i, op, fields);
      ExecKeepsReadsStarted(Step(s, actions[0]), actions[1..], from, i, op, fields);
    }
  }

  /**
   * Once a started record is in the log, an attempt that has not read yet can only return exactly that
   * thread and turn, whatever else runs, and makes no App Server call at all.
   */
  lemma StartedIsFinal(before: seq<Action>, after: seq<Action>, i: nat)
    requires var s := Exec(INITIAL, before);
             i < |s.attempts| && s.attempts[i].pc == Reading && Key(s.attempts[i].op, Started) in s.log
    ensures var s := Exec(INITIAL, before); var t := Exec(s, after); var op := s.attempts[i].op;
            && i < |t.attempts| && t.attempts[i].op == op
            && Key(op, Started) in t.log && t.log[Key(op, Started)] == s.log[Key(op, Started)]
            && AnswersOnly(t.attempts[i].pc,
                           ReturnedStarted(s.log[Key(op, Started)].thread, s.log[Key(op, Started)].turn))
            && QuietSince(t.calls, |s.calls|, i)
  {
    var s := Exec(INITIAL, before);
    var op := s.attempts[i].op;
    ExecKeepsReadsStarted(s, after, |s.calls|, i, op, s.log[Key(op, Started)]);
  }

  // ---------------------------------------------------------------- an abandoned creation is never repeated

  /** The pending record is there, no thread was recorded and nobody is left who may create one. */
  predicate Abandoned(s: State, op: Operation) {
    && Key(op, Pending) in s.log && Key(op, ThreadCreated) !in s.log
    && forall i :: 0 <= i < |s.attempts| && s.attempts[i].op == op ==> !MayCreate(s.attempts[i].pc)
  }

  predicate NoCallSince(calls: seq<Call>, from: nat, op: Operation) {
    forall k :: from <= k < |calls| ==> calls[k].op != op
  }

  lemma StepKeepsAbandoned(s: State, action: Action, op: Operation)
    requires Safe(s) && Abandoned(s, op)
    ensures Abandoned(Step(s, action), op)
    ensures NoCallSince(Step(s, action).calls, |s.calls|, op)
  {
    if action.Advance? && action.attempt < |s.attempts| {
      EffectIsPermitted(s, action.attempt, action.answer);
      assert AttemptOk(s.attempts[action.attempt], s.log, s.calls);
    }
  }

  /**
   * An operation whose creator stopped before its thread was recorded is never started again: in every
   * continuation no call is made for it and no attempt returns a started task.
   */
  lemma {:induction false} AbandonedIsNeverRetried(s: State, after: seq<Action>, op: Operation)
    requires Safe(s) && Abandoned(s, op)
    ensures var t := Exec(s, after); Safe(t) && Abandoned(t, op) && s.calls <= t.calls && NoCallSince(t.calls, |s.calls|, op)
    ensures forall i :: 0 <= i < |Exec(s, after).attempts| && IsAttemptAt(Exec(s, after), i, op) ==>
              !(Exec(s, after).attempts[i].pc.Done? && Exec(s, after).attempts[i].pc.result.ReturnedStarted?)
    decreases |after|
  {
    if after == [] {
      NoneStarted(s, op);
    } else {
      var next := Step(s, after[0]);
      StepKeepsSafe(s, after[0]);
      StepKeepsAbandoned(s, after[0], op);
      AbandonedIsNeverRetried(next, after[1..], op);
    }
  }

  lemma NoneStarted(s: State, op: Operation)
    requires Safe(s) && Abandoned(s, op)
    ensures forall i :: 0 <= i < |s.attempts| && IsAttemptAt(s, i, op) ==>
              !(s.attempts[i].pc.Done? && s.attempts[i].pc.result.ReturnedStarted?)
  {
    forall i | 0 <= i < |s.attempts| && IsAttemptAt(s, i, op)
      ensures !(s.attempts[i].pc.Done? && s.attempts[i].pc.result.ReturnedStarted?)
    {
      assert AttemptOk(s.attempts[i], s.log, s.calls);
    }
  }

  /** An attempt that reads a pending record without a thread stops at once and calls nothing. */
  lemma {:induction false} PendingWithoutThreadStops(s: State, i: nat, answer: Answer, after: seq<Action>)
    requires i < |s.attempts| && s.attempts[i].pc == Reading
    requires var op := s.attempts[i].op;
             Key(op, Pending) in s.log && forall status :: status != Pending ==> Key(op, status) !in s.log
    ensures var t := Exec(Step(s, Advance(i, answer)), after);
            i < |t.attempts| && t.attempts[i].pc == Done(PendingRecovery) && QuietSince(t.calls, |s.calls|, i)
  {
    DoneStaysDone(Step(s, Advance(i, answer)), after, i);
  }

  lemma {:induction false} DoneStaysDone(s: State, actions: seq<Action>, i: nat)
    requires i < |s.attempts| && s.attempts[i].pc.Done?
    ensures var t := Exec(s, actions);
            i < |t.attempts| && t.attempts[i] == s.attempts[i] && s.calls <= t.calls && QuietSince(t.calls, |s.calls|, i)
    decreases |actions|
  {
    if actions != [] {
      var next := Step(s, actions[0]);
      if actions[0].Advance? && actions[0].attempt < |s.attempts| {
        CallsAreLabelled(s, actions[0].attempt, actions[0].answer);
      }
      assert next.attempts[i] == s.attempts[i] && QuietSince(next.calls, |s.calls|, i);
      DoneStaysDone(next, actions[1..], i);
    }
  }

  /**
   * A recorded failure is returned as it is, even where a thread was recorded before it: whatever else runs
   * afterwards, the attempt that read it has called nothing.
   */
  lemma {:induction false} FailedIsFinal(s: State, i: nat, answer: Answer, after: seq<Action>)
    requires i < |s.attempts| && s.attempts[i].pc == Reading
    requires Key(s.attempts[i].op, Failed) in s.log && Key(s.attempts[i].op, Started) !in s.log
    ensures var t := Exec(Step(s, Advance(i, answer)), after);
            && i < |t.attempts|
            && t.attempts[i].pc == Done(ReturnedFailed(s.log[Key(s.attempts[i].op, Failed)].thread))
            && QuietSince(t.calls, |s.calls|, i)
  {
    DoneStaysDone(Step(s, Advance(i, answer)), after, i);
  }

  /** A recorded thread is gone back to only while the operation has neither started nor failed. */
  lemma RecordedThreadIsPreparedIff(s: State, i: nat, answer: Answer, thread: Thread)
    requires i < |s.attempts| && s.attempts[i].pc == Reading
    ensures var op := s.attempts[i].op;
            Step(s, Advance(i, answer)).attempts[i].pc == Preparing(Some(thread)) <==>
            && Key(op, Started) !in s.log && Key(op, Failed) !in s.log
            && Key(op, ThreadCreated) in s.log && s.log[Key(op, ThreadCreated)].thread == Some(thread)
  {
  }

  /** A started attempt says so, a failed one leaves its record: what an attempt returns is in the log. */
  predicate ReturnsAreRecorded(s: State) {
    && (forall i :: 0 <= i < |s.attempts| && s.attempts[i].pc.Done? && s.attempts[i].pc.result.ReturnedFailed? ==>
          Key(s.attempts[i].op, Failed) in s.log)
    && (forall i :: 0 <= i < |s.attempts| && s.attempts[i].pc.Done? && s.attempts[i].pc.result.ReturnedStarted? ==>
          Key(s.attempts[i].op, Started) in s.log)
    && (forall i :: 0 <= i < |s.attempts| && s.attempts[i].pc.Done? && s.attempts[i].pc.result.PendingRecovery? ==>
          Key(s.attempts[i].op, Pending) in s.log)
  }

  lemma {:induction false} ExecKeepsReturnsRecorded(s: State, actions: seq<Action>)
    requires ReturnsAreRecorded(s)
    ensures ReturnsAreRecorded(Exec(s, actions))
    decreases |actions|
  {
    if actions != [] {
      ExecKeepsReturnsRecorded(Step(s, actions[0]), actions[1..]);
    }
  }

  /** In every run, an attempt that returned left or found the record of what it returned. */
  lemma ReturnedMeansRecorded(actions: seq<Action>, i: nat)
    requires i < |Exec(INITIAL, actions).attempts| && Exec(INITIAL, actions).attempts[i].pc.Done?
    ensures var s := Exec(INITIAL, actions); var op := s.attempts[i].op;
            match s.attempts[i].pc.result
            case ReturnedStarted(_, _) => Key(op, Started) in s.log
            case ReturnedFailed(_) => Key(op, Failed) in s.log
            case PendingRecovery => Key(op, Pending) in s.log
  {
    ExecKeepsReturnsRecorded(INITIAL, actions);
  }

  // ---------------------------------------------------------------- two resumed attempts

  /**
   * What an attempt returns after its turn started is what every later call will return exactly when no
   * other attempt recorded a different turn first.
   */
  lemma ReturnedTurnIsFinalIffRecorded(before: seq<Action>, i: nat, answer: Answer)
    requires var s := Exec(INITIAL, before); i < |s.attempts| && s.attempts[i].pc.Finishing?
    ensures var s := Exec(INITIAL, before); var t := Step(s, Advance(i, answer)); var op := s.attempts[i].op;
            && Key(op, Started) in t.log
            && t.log[Key(op, Started)].thread == Some(s.attempts[i].pc.thread)
            && (AfterRead(t.log, op) == t.attempts[i].pc <==>
                Key(op, Started) !in s.log || s.log[Key(op, Started)].turn == Some(s.attempts[i].pc.turn))
  {
    var s := Exec(INITIAL, before);
    ExecKeepsSafe(INITIAL, before);
    assert AttemptOk(s.attempts[i], s.log, s.calls);
    var op := s.attempts[i].op;
    assert Key(op, Started) in s.log ==> OperationOk(s.log, s.calls, op);
  }

  lemma {:induction false} ExecAppend(s: State, actions: seq<Action>, more: seq<Action>)
    ensures Exec(s, actions + more) == Exec(Exec(s, actions), more)
    decreases |actions|
  {
    if actions == [] {
      assert actions + more == more;
    } else {
      assert (actions + more)[1..] == actions[1..] + more;
      ExecAppend(Step(s, actions[0]), actions[1..], more);
    }
  }

  /** A run continued by one action. */
  lemma Act(s: State, actions: seq<Action>, action: Action) returns (next: State, longer: seq<Action>)
    requires Exec(INITIAL, actions) == s
    ensures Exec(INITIAL, longer) == next && next == Step(s, action)
  {
    longer := actions + [action];
    ExecAppend(INITIAL, actions, [action]);
    next := Step(s, action);
    assert Exec(s, [action]) == Exec(next, []);
  }

  /** An attempt that is answered well goes from preparing to having resumed its thread. */
  lemma Resume(s: State, actions: seq<Action>, i: nat, thread: Thread) returns (t: State, longer: seq<Action>)
    requires i < |s.attempts| && s.attempts[i].pc == Preparing(Some(thread)) && Exec(INITIAL, actions) == s
    ensures Exec(INITIAL, longer) == t && t.log == s.log
    ensures t.attempts == s.attempts[i := Attempt(s.attempts[i].op, Inspecting(thread))]
  {
    var yes := Answer(true, thread);
    t, longer := Act(s, actions, Advance(i, yes));
    assert t.attempts[i].pc == Connecting(Some(thread)) && t.log == s.log;
    t, longer := Act(t, longer, Advance(i, yes));
    assert t.attempts[i].pc == Resuming(thread) && t.log == s.log;
    t, longer := Act(t, longer, Advance(i, yes));
  }

  /** And goes on to start a turn on it. */
  lemma ResumeAndStartTurn(s: State, actions: seq<Action>, i: nat, thread: Thread, turn: Turn)
    returns (t: State, longer: seq<Action>)
    requires i < |s.attempts| && s.attempts[i].pc == Preparing(Some(thread)) && Exec(INITIAL, actions) == s
    ensures Exec(INITIAL, longer) == t && t.log == s.log
    ensures t.attempts == s.attempts[i := Attempt(s.attempts[i].op, Finishing(thread, turn))]
  {
    t, longer := Resume(s, actions, i, thread);
    t, longer := Act(t, longer, Advance(i, Answer(true, "")));
    assert t.attempts[i].pc == Naming(thread) && t.log == s.log;
    t, longer := Act(t, longer, Advance(i, Answer(true, "")));
    assert t.attempts[i].pc == Turning(thread) && t.log == s.log;
    t, longer := Act(t, longer, Advance(i, Answer(true, turn)));
  }

  /** A first attempt that creates its thread and stops right after recording it. */
  lemma CreateAndStop(op: Operation, thread: Thread) returns (s: State, actions: seq<Action>)
    ensures Exec(INITIAL, actions) == s && s.attempts == [Attempt(op, Crashed)]
    ensures s.log == map[Key(op, Pending) := Fields(None, None), Key(op, ThreadCreated) := Fields(Some(thread), None)]
  {
    s, actions := Claim(op);
    var pending := s.log;
    var yes := Answer(true, thread);
    s, actions := Act(s, actions, Advance(0, yes));
    assert s.attempts == [Attempt(op, Connecting(None))] && s.log == pending;
    s, actions := Act(s, actions, Advance(0, yes));
    assert s.attempts == [Attempt(op, Creating)] && s.log == pending;
    s, actions := Act(s, actions, Advance(0, yes));
    assert s.attempts == [Attempt(op, Recording(thread))] && s.log == pending;
    s, actions := Act(s, actions, Advance(0, yes));
    assert s.attempts == [Attempt(op, Inspecting(thread))];
    s, actions := Act(s, actions, Crash(0));
  }

  lemma Claim(op: Operation) returns (s: State, actions: seq<Action>)
    ensures Exec(INITIAL, actions) == s && s.attempts == [Attempt(op, Preparing(None))]
    ensures s.log == map[Key(op, Pending) := Fields(None, None)]
  {
    s, actions := Act(INITIAL, [], Spawn(op));
    assert s.attempts == [Attempt(op, Reading)] && s.log == map[];
    s, actions := Act(s, actions, Advance(0, Answer(true, "")));
    assert s.attempts == [Attempt(op, Claiming)] && s.log == map[];
    s, actions := Act(s, actions, Advance(0, Answer(true, "")));
  }

  /** Two attempts resume the recorded thread, each starts a turn, and one returns a turn that was not recorded. */
  lemma TwoResumersDisagree(op: Operation, thread: Thread, first: Turn, second: Turn) returns (s: State, actions: seq<Action>)
    requires first != second
    ensures Exec(INITIAL, actions) == s && |s.attempts| == 3
    ensures s.attempts[2] == Attempt(op, Done(ReturnedStarted(Some(thread), Some(second))))
    ensures AfterRead(s.log, op) == Done(ReturnedStarted(Some(thread), Some(first)))
  {
    s, actions := CreateAndStop(op, thread);
    s, actions := Act(s, actions, Spawn(op));
    s, actions := Act(s, actions, Spawn(op));
    s, actions := Act(s, actions, Advance(1, Answer(true, "")));
    s, actions := Act(s, actions, Advance(2, Answer(true, "")));
    s, actions := ResumeAndStartTurn(s, actions, 1, thread, first);
    s, actions := ResumeAndStartTurn(s, actions, 2, thread, second);
    s, actions := Act(s, actions, Advance(1, Answer(true, "")));
    s, actions := Act(s, actions, Advance(2, Answer(true, "")));
  }

  // ---------------------------------------------------------------- an attempt starts at most one turn

  predicate IsPastTurn(pc: Pc) {
    pc.Finishing? || pc.Failing? || pc.Done? || pc.Crashed?
  }

  predicate TurnsAreOnce(s: State) {
    && (forall k :: 0 <= k < |s.calls| && s.calls[k].TurnStart? ==>
          s.calls[k].attempt < |s.attempts| && IsPastTurn(s.attempts[s.calls[k].attempt].pc))
    && forall j, k :: 0 <= j < k < |s.calls| && s.calls[j].TurnStart? && s.calls[k].TurnStart? ==>
         s.calls[j].attempt != s.calls[k].attempt
  }

  lemma {:induction false} ExecKeepsTurnsOnce(s: State, actions: seq<Action>)
    requires TurnsAreOnce(s)
    ensures TurnsAreOnce(Exec(s, actions))
    decreases |actions|
  {
    if actions != [] {
      StepKeepsTurnsOnce(s, actions[0]);
      ExecKeepsTurnsOnce(Step(s, actions[0]), actions[1..]);
    }
  }

  lemma StepKeepsTurnsOnce(s: State, action: Action)
    requires TurnsAreOnce(s)
    ensures TurnsAreOnce(Step(s, action))
  {
    if action.Advance? && action.attempt < |s.attempts| {
      var pc := s.attempts[action.attempt].pc;
      var effect := EffectOf(s, action.attempt, action.answer);
      CallsAreLabelled(s, action.attempt, action.answer);
      assert IsPastTurn(pc) ==> IsPastTurn(effect.pc) && effect.call.None?;
    }
  }

  /** Two turns are always two attempts. */
  lemma EachAttemptStartsAtMostOneTurn(actions: seq<Action>, j: nat, k: nat)
    requires var calls := Exec(INITIAL, actions).calls;
             j < k < |calls| && calls[j].TurnStart? && calls[k].TurnStart?
    ensures Exec(INITIAL, actions).calls[j].attempt != Exec(INITIAL, actions).calls[k].attempt
  {
    ExecKeepsTurnsOnce(INITIAL, actions);
  }

  // ---------------------------------------------------------------- a turn follows the worktree check

  predicate WasRead(calls: seq<Call>, i: nat, op: Operation, thread: Thread) {
    ThreadRead(i, op, thread) in calls
  }

  predicate ReadsComeFirst(s: State) {
    && (forall i :: 0 <= i < |s.attempts| && s.attempts[i].pc.Naming? ==>
          WasRead(s.calls, i, s.attempts[i].op, s.attempts[i].pc.thread))
    && (forall i :: 0 <= i < |s.attempts| && s.attempts[i].pc.Turning? ==>
          WasRead(s.calls, i, s.attempts[i].op, s.attempts[i].pc.thread))
    && forall k :: 0 <= k < |s.calls| && s.calls[k].TurnStart? ==>
         WasRead(s.calls[..k], s.calls[k].attempt, s.calls[k].op, s.calls[k].thread)
  }

  lemma PrefixOfCalls(calls: seq<Call>, call: Call)
    ensures forall k :: 0 <= k <= |calls| ==> (calls + [call])[..k] == calls[..k]
    ensures calls[..|calls|] == calls
  {
  }

  lemma StepKeepsReadsFirst(s: State, action: Action)
    requires ReadsComeFirst(s)
    ensures ReadsComeFirst(Step(s, action))
  {
    if action.Advance? && action.attempt < |s.attempts| {
      var effect := EffectOf(s, action.attempt, action.answer);
      CallsAreLabelled(s, action.attempt, action.answer);
      if effect.call.Some? {
        PrefixOfCalls(s.calls, effect.call.value);
      }
    }
  }

  lemma {:induction false} ExecKeepsReadsFirst(s: State, actions: seq<Action>)
    requires ReadsComeFirst(s)
    ensures ReadsComeFirst(Exec(s, actions))
    decreases |actions|
  {
    if actions != [] {
      StepKeepsReadsFirst(s, actions[0]);
      ExecKeepsReadsFirst(Step(s, actions[0]), actions[1..]);
    }
  }

  /** No turn is started before the same attempt read that thread in the repository's worktree. */
  lemma TurnsFollowTheWorktreeCheck(actions: seq<Action>, k: nat)
    requires k < |Exec(INITIAL, actions).calls| && Exec(INITIAL, actions).calls[k].TurnStart?
    ensures var calls := Exec(INITIAL, actions).calls;
            exists j :: 0 <= j < k && calls[j] == ThreadRead(calls[k].attempt, calls[k].op, calls[k].thread)
  {
    ExecKeepsReadsFirst(INITIAL, actions);
    var calls := Exec(INITIAL, actions).calls;
    var j :| 0 <= j < k && calls[..k][j] == ThreadRead(calls[k].attempt, calls[k].op, calls[k].thread);
    assert calls[j] == calls[..k][j];
  }

  // ---------------------------------------------------------------- the attempt as a program

  /** What the repository, the process and the App Server answer one attempt. */
  datatype World = World(prepared: bool, connected: bool, created: Answer, resumed: Answer, inspected: bool, turn: Answer)

  function AnswerTo(world: World, pc: Pc): Answer {
    match pc
    case Preparing(_) => Answer(world.prepared, "")
    case Connecting(_) => Answer(world.connected, "")
    case Creating => world.created
    case Resuming(_) => world.resumed
    case Inspecting(_) => Answer(world.inspected, "")
    case Turning(_) => world.turn
    case _ => Answer(true, "")
  }

  function Advanced(s: State, world: World): State
    requires s.attempts != []
  {
    Step(s, Advance(0, AnswerTo(world, s.attempts[0].pc)))
  }

  /** `n` steps of the first attempt with nobody else moving. */
  function Alone(s: State, world: World, n: nat): State
    requires s.attempts != []
    decreases n
  {
    if n == 0 then s else Alone(Advanced(s, world), world, n - 1)
  }

  /** No attempt takes more steps than this. */
  const STEPS := 10

  function Start(log: Log, calls: seq<Call>, op: Operation): State {
    State(log, calls, [Attempt(op, Reading)])
  }

  function Outcome(r: Option<Result>): Pc {
    if r.Some? then Done(r.value) else Crashed
  }

  lemma {:induction false} StoppedStays(s: State, world: World, n: nat)
    requires s.attempts != [] && (s.attempts[0].pc.Done? || s.attempts[0].pc.Crashed?)
    ensures Alone(s, world, n) == s
  {
    if n > 0 {
      assert Advanced(s, world) == s;
      StoppedStays(s, world, n - 1);
    }
  }

  /** Running alone is one of the runs of the whole system. */
  lemma {:induction false} AloneIsARun(s: State, world: World, n: nat) returns (actions: seq<Action>)
    requires s.attempts != []
    ensures Exec(s, actions) == Alone(s, world, n)
    decreases n
  {
    if n == 0 {
      actions := [];
    } else {
      var rest := AloneIsARun(Advanced(s, world), world, n - 1);
      var first := Advance(0, AnswerTo(world, s.attempts[0].pc));
      actions := [first] + rest;
      assert actions[1..] == rest;
    }
  }

  class AppServer {
    var calls: seq<Call>

    constructor (calls: seq<Call>)
      ensures this.calls == calls
    {
      this.calls := calls;
    }

    method Request(call: Call)
      modifies this
      ensures calls == old(calls) + [call]
    {
      calls := calls + [call];
    }
  }

  method RecordFailure(store: Store<Key, Fields>, op: Operation, recorded: Option<Thread>) returns (r: Result)
    modifies store
    ensures store.log == Insert(old(store.log), Key(op, Failed), Fields(recorded, None))
    ensures r == ReturnedFailed(recorded)
  {
    var _ := store.InsertEvent(Key(op, Failed), Fields(recorded, None));
    r := ReturnedFailed(recorded);
  }

  lemma {:induction false} AloneThen(s: State, world: World, m: nat, n: nat)
    requires s.attempts != [] && Alone(s, world, m).attempts != []
    ensures Alone(s, world, m + n) == Alone(Alone(s, world, m), world, n)
    decreases m
  {
    if m > 0 {
      AloneThen(Advanced(s, world), world, m - 1, n);
    }
  }

  lemma OneMore(s: State, t: State, world: World, m: nat)
    requires s.attempts != [] && t.attempts != [] && Alone(s, world, m) == t
    ensures Alone(s, world, m + 1) == Advanced(t, world)
  {
    AloneThen(s, world, m, 1);
    assert Alone(t, world, 1) == Alone(Advanced(t, world), world, 0);
  }

  /** The attempt is at `pc` with this log and these calls after `n` steps. */
  ghost predicate IsAt(start: State, world: World, n: nat, log: Log, calls: seq<Call>, op: Operation, pc: Pc)
    requires start.attempts != []
  {
    Alone(start, world, n) == State(log, calls, [Attempt(op, pc)])
  }

  lemma Moves(start: State, world: World, n: nat, log: Log, calls: seq<Call>, op: Operation, pc: Pc)
    requires start.attempts != [] && IsAt(start, world, n, log, calls, op, pc)
    ensures var e := Next(0, op, pc, log, AnswerTo(world, pc));
            IsAt(start, world, n + 1, Recorded(log, e.event), Called(calls, e.call), op, e.pc)
  {
    var t := State(log, calls, [Attempt(op, pc)]);
    OneMore(start, t, world, n);
    assert t.attempts[0 := Attempt(op, Next(0, op, pc, log, AnswerTo(world, pc)).pc)]
        == [Attempt(op, Next(0, op, pc, log, AnswerTo(world, pc)).pc)];
  }

  /** Reading the operation's events and claiming it; the attempt goes on with `recorded` unless it stops. */
  method ReadAndClaim(store: Store<Key, Fields>, client: AppServer, op: Operation, world: World)
    returns (stop: bool, r: Option<Result>, recorded: Option<Thread>, ghost n: nat)
    modifies store
    ensures n <= 2
    ensures IsAt(Start(old(store.log), client.calls, op), world, n, store.log, client.calls, op,
                 if stop then Outcome(r) else Preparing(recorded))
  {
    ghost var s := Start(store.log, client.calls, op);
    Moves(s, world, 0, store.log, client.calls, op, Reading);
    if Key(op, Started) in store.log {
      var started := store.log[Key(op, Started)];
      return true, Some(ReturnedStarted(started.thread, started.turn)), None, 1;
    }
    if Key(op, Failed) in store.log {
      return true, Some(ReturnedFailed(store.log[Key(op, Failed)].thread)), None, 1;
    }
    if Key(op, ThreadCreated) in store.log {
      recorded := store.log[Key(op, ThreadCreated)].thread;
      return recorded.None?, None, recorded, 1;
    }
    if Key(op, Pending) in store.log {
      return true, Some(PendingRecovery), None, 1;
    }
    Moves(s, world, 1, store.log, client.calls, op, Claiming);
    var outcome := store.InsertEvent(Key(op, Pending), Fields(None, None));
    return outcome.Duplicate?, Some(PendingRecovery), None, 2;
  }

  /** Preparing the hand-off and connecting to the App Server. */
  method PrepareAndConnect(store: Store<Key, Fields>, client: AppServer, op: Operation, world: World,
                           recorded: Option<Thread>, ghost start: State, ghost n: nat)
    returns (failed: Option<Result>, ghost m: nat)
    requires start.attempts != []
    requires IsAt(start, world, n, store.log, client.calls, op, Preparing(recorded))
    modifies store
    ensures m <= n + if failed.Some? then 3 else 2
    ensures IsAt(start, world, m, store.log, client.calls, op,
                 if failed.Some? then Done(failed.value) else if recorded.Some? then Resuming(recorded.value) else Creating)
  {
    Moves(start, world, n, store.log, client.calls, op, Preparing(recorded));
    m := n + 1;
    if world.prepared {
      Moves(start, world, m, store.log, client.calls, op, Connecting(recorded));
      m := m + 1;
    }
    if !world.prepared || !world.connected {
      Moves(start, world, m, store.log, client.calls, op, Failing(recorded));
      var r := RecordFailure(store, op, recorded);
      return Some(r), m + 1;
    }
    return None, m;
  }

  /** Resuming the recorded thread; an answer naming another thread is a failure. */
  method ResumeThread(store: Store<Key, Fields>, client: AppServer, op: Operation, world: World, thread: Thread,
                      ghost start: State, ghost n: nat)
    returns (failed: Option<Result>, ghost m: nat)
    requires start.attempts != []
    requires IsAt(start, world, n, store.log, client.calls, op, Resuming(thread))
    modifies store, client
    ensures m <= n + 2
    ensures IsAt(start, world, m, store.log, client.calls, op, if failed.Some? then Done(failed.value) else Inspecting(thread))
  {
    Moves(start, world, n, store.log, client.calls, op, Resuming(thread));
    client.Request(ThreadResume(0, op, thread));
    if !world.resumed.ok || world.resumed.id != thread {
      Moves(start, world, n + 1, store.log, client.calls, op, Failing(Some(thread)));
      var r := RecordFailure(store, op, Some(thread));
      return Some(r), n + 2;
    }
    return None, n + 1;
  }

  /** Creating the thread and recording it before anything else is done with it. */
  method CreateThread(store: Store<Key, Fields>, client: AppServer, op: Operation, world: World,
                      ghost start: State, ghost n: nat)
    returns (failed: Option<Result>, thread: Thread, ghost m: nat)
    requires start.attempts != []
    requires IsAt(start, world, n, store.log, client.calls, op, Creating)
    modifies store, client
    ensures m <= n + 2
    ensures IsAt(start, world, m, store.log, client.calls, op, if failed.Some? then Done(failed.value) else Inspecting(thread))
  {
    thread := world.created.id;
    Moves(start, world, n, store.log, client.calls, op, Creating);
    client.Request(ThreadStart(0, op));
    if !world.created.ok {
      Moves(start, world, n + 1, store.log, client.calls, op, Failing(None));
      var r := RecordFailure(store, op, None);
      return Some(r), thread, n + 2;
    }
    Moves(start, world, n + 1, store.log, client.calls, op, Recording(thread));
    var _ := store.InsertEvent(Key(op, ThreadCreated), Fields(Some(thread), None));
    return None, thread, n + 2;
  }

  /** Reading and naming the thread and starting the turn that carries the hand-off. */
  method StartTurn(store: Store<Key, Fields>, client: AppServer, op: Operation, world: World, thread: Thread,
                   ghost start: State, ghost n: nat)
    returns (r: Result, ghost m: nat)
    requires start.attempts != []
    requires IsAt(start, world, n, store.log, client.calls, op, Inspecting(thread))
    modifies store, client
    ensures m <= n + 4
    ensures IsAt(start, world, m, store.log, client.calls, op, Done(r))
  {
    Moves(start, world, n, store.log, client.calls, op, Inspecting(thread));
    client.Request(ThreadRead(0, op, thread));
    if !world.inspected {
      Moves(start, world, n + 1, store.log, client.calls, op, Failing(Some(thread)));
      r := RecordFailure(store, op, Some(thread));
      return r, n + 2;
    }
    Moves(start, world, n + 1, store.log, client.calls, op, Naming(thread));
    client.Request(NameSet(0, op, thread));
    Moves(start, world, n + 2, store.log, client.calls, op, Turning(thread));
    client.Request(TurnStart(0, op, thread, op, if world.turn.ok then Some(world.turn.id) else None));
    if !world.turn.ok {
      Moves(start, world, n + 3, store.log, client.calls, op, Failing(Some(thread)));
      r := RecordFailure(store, op, Some(thread));
      return r, n + 4;
    }
    Moves(start, world, n + 3, store.log, client.calls, op, Finishing(thread, world.turn.id));
    var _ := store.InsertEvent(Key(op, Started), Fields(Some(thread), Some(world.turn.id)));
    r := ReturnedStarted(Some(thread), Some(world.turn.id));
    return r, n + 4;
  }

  /** The program of one attempt does what its steps do; `None` when it stops with an error. */
  method ExecuteAutomaticRollover(store: Store<Key, Fields>, client: AppServer, op: Operation, world: World)
    returns (r: Option<Result>)
    modifies store, client
    ensures Alone(Start(old(store.log), old(client.calls), op), world, STEPS) ==
            State(store.log, client.calls, [Attempt(op, Outcome(r))])
  {
    ghost var start := Start(store.log, client.calls, op);
    var stop, early, recorded, n := ReadAndClaim(store, client, op, world);
    if stop {
      Finished(start, world, n, store.log, client.calls, op, Outcome(early));
      return early;
    }
    var failed, m := PrepareAndConnect(store, client, op, world, recorded, start, n);
    var thread := "";
    if failed.None? {
      if recorded.Some? {
        thread := recorded.value;
        failed, m := ResumeThread(store, client, op, world, thread, start, m);
      } else {
        failed, thread, m := CreateThread(store, client, op, world, start, m);
      }
    }
    if failed.Some? {
      Finished(start, world, m, store.log, client.calls, op, Outcome(failed));
      return failed;
    }
    var result, k := StartTurn(store, client, op, world, thread, start, m);
    Finished(start, world, k, store.log, client.calls, op, Done(result));
    return Some(result);
  }

  lemma Finished(start: State, world: World, n: nat, log: Log, calls: seq<Call>, op: Operation, pc: Pc)
    requires start.attempts != [] && n <= STEPS && (pc.Done? || pc.Crashed?)
    requires IsAt(start, world, n, log, calls, op, pc)
    ensures IsAt(start, world, STEPS, log, calls, op, pc)
  {
    var t := State(log, calls, [Attempt(op, pc)]);
    var m := STEPS - n;
    assert Alone(start, world, n + m) == Alone(t, world, m) by {
      AloneThen(start, world, n, m);
    }
    StoppedStays(t, world, m);
  }

  // ---------------------------------------------------------------- what one attempt does on its own

  /** The attempt comes to its end with this log, these calls and this result. */
  ghost predicate Ends(start: State, world: World, log: Log, calls: seq<Call>, op: Operation, result: Result)
    requires start.attempts != []
  {
    exists n: nat :: n <= STEPS && IsAt(start, world, n, log, calls, op, Done(result))
  }

  /** And that is how the program leaves it. */
  lemma EndedIsFinal(start: State, world: World, log: Log, calls: seq<Call>, op: Operation, result: Result)
    requires start.attempts != [] && Ends(start, world, log, calls, op, result)
    ensures Alone(start, world, STEPS) == State(log, calls, [Attempt(op, Done(result))])
  {
    var n: nat :| n <= STEPS && IsAt(start, world, n, log, calls, op, Done(result));
    Finished(start, world, n, log, calls, op, Done(result));
  }

  /** Leaving the failed record is the last step. */
  lemma FailureEnds(start: State, world: World, n: nat, log: Log, calls: seq<Call>, op: Operation, recorded: Option<Thread>)
    requires start.attempts != [] && n < STEPS && Key(op, Failed) !in log
    requires IsAt(start, world, n, log, calls, op, Failing(recorded))
    ensures Ends(start, world, log[Key(op, Failed) := Fields(recorded, None)], calls, op, ReturnedFailed(recorded))
  {
    Moves(start, world, n, log, calls, op, Failing(recorded));
    assert IsAt(start, world, n + 1, log[Key(op, Failed) := Fields(recorded, None)], calls, op, Done(ReturnedFailed(recorded)));
  }

  /** From its thread on: the worktree is read, the thread named, the turn started and recorded, in this order. */
  lemma TurnEnds(start: State, world: World, n: nat, log: Log, calls: seq<Call>, op: Operation, thread: Thread)
    requires start.attempts != [] && n <= 6 && Key(op, Failed) !in log && Key(op, Started) !in log
    requires IsAt(start, world, n, log, calls, op, Inspecting(thread))
    ensures !world.inspected ==>
              Ends(start, world, log[Key(op, Failed) := Fields(Some(thread), None)], calls + [ThreadRead(0, op, thread)], op,
                   ReturnedFailed(Some(thread)))
    ensures world.inspected && !world.turn.ok ==>
              Ends(start, world, log[Key(op, Failed) := Fields(Some(thread), None)],
                   calls + [ThreadRead(0, op, thread), NameSet(0, op, thread), TurnStart(0, op, thread, op, None)], op,
                   ReturnedFailed(Some(thread)))
    ensures world.inspected && world.turn.ok ==>
              Ends(start, world, log[Key(op, Started) := Fields(Some(thread), Some(world.turn.id))],
                   calls + [ThreadRead(0, op, thread), NameSet(0, op, thread),
                            TurnStart(0, op, thread, op, Some(world.turn.id))], op,
                   ReturnedStarted(Some(thread), Some(world.turn.id)))
  {
    var read := calls + [ThreadRead(0, op, thread)];
    Moves(start, world, n, log, calls, op, Inspecting(thread));
    if !world.inspected {
      FailureEnds(start, world, n + 1, log, read, op, Some(thread));
    } else {
      Moves(start, world, n + 1, log, read, op, Naming(thread));
      NamedTurnEnds(start, world, n + 2, log, read + [NameSet(0, op, thread)], op, thread);
      assert read + [NameSet(0, op, thread)] + [TurnStart(0, op, thread, op, None)]
          == calls + [ThreadRead(0, op, thread), NameSet(0, op, thread), TurnStart(0, op, thread, op, None)];
      assert read + [NameSet(0, op, thread)] + [TurnStart(0, op, thread, op, Some(world.turn.id))]
          == calls + [ThreadRead(0, op, thread), NameSet(0, op, thread), TurnStart(0, op, thread, op, Some(world.turn.id))];
    }
  }

  lemma NamedTurnEnds(start: State, world: World, n: nat, log: Log, calls: seq<Call>, op: Operation, thread: Thread)
    requires start.attempts != [] && n <= 8 && Key(op, Failed) !in log && Key(op, Started) !in log
    requires IsAt(start, world, n, log, calls, op, Turning(thread))
    ensures !world.turn.ok ==>
              Ends(start, world, log[Key(op, Failed) := Fields(Some(thread), None)],
                   calls + [TurnStart(0, op, thread, op, None)], op, ReturnedFailed(Some(thread)))
    ensures world.turn.ok ==>
              Ends(start, world, log[Key(op, Started) := Fields(Some(thread), Some(world.turn.id))],
                   calls + [TurnStart(0, op, thread, op, Some(world.turn.id))], op,
                   ReturnedStarted(Some(thread), Some(world.turn.id)))
  {
    Moves(start, world, n, log, calls, op, Turning(thread));
    if !world.turn.ok {
      FailureEnds(start, world, n + 1, log, calls + [TurnStart(0, op, thread, op, None)], op, Some(thread));
    } else {
      var turned := calls + [TurnStart(0, op, thread, op, Some(world.turn.id))];
      Moves(start, world, n + 1, log, turned, op, Finishing(thread, world.turn.id));
      assert IsAt(start, world, n + 2, log[Key(op, Started) := Fields(Some(thread), Some(world.turn.id))], turned, op,
                  Done(ReturnedStarted(Some(thread), Some(world.turn.id))));
    }
  }

  /** The three ways an attempt ends once it has its thread from the call `first`. */
  lemma EndsAfter(start: State, world: World, n: nat, log: Log, calls: seq<Call>, first: Call, op: Operation, t: Thread)
    requires start.attempts != [] && n <= 6 && Key(op, Failed) !in log && Key(op, Started) !in log
    requires IsAt(start, world, n, log, calls + [first], op, Inspecting(t))
    ensures !world.inspected ==>
              Ends(start, world, log[Key(op, Failed) := Fields(Some(t), None)], calls + [first, ThreadRead(0, op, t)], op,
                   ReturnedFailed(Some(t)))
    ensures world.inspected && !world.turn.ok ==>
              Ends(start, world, log[Key(op, Failed) := Fields(Some(t), None)],
                   calls + [first, ThreadRead(0, op, t), NameSet(0, op, t), TurnStart(0, op, t, op, None)], op,
                   ReturnedFailed(Some(t)))
    ensures world.inspected && world.turn.ok ==>
              Ends(start, world, log[Key(op, Started) := Fields(Some(t), Some(world.turn.id))],
                   calls + [first, ThreadRead(0, op, t), NameSet(0, op, t), TurnStart(0, op, t, op, Some(world.turn.id))], op,
                   ReturnedStarted(Some(t), Some(world.turn.id)))
  {
    TurnEnds(start, world, n, log, calls + [first], op, t);
    var read, named := ThreadRead(0, op, t), NameSet(0, op, t);
    var failed, turned := TurnStart(0, op, t, op, None), TurnStart(0, op, t, op, Some(world.turn.id));
    assert calls + [first] + [read] == calls + [first, read];
    assert calls + [first] + [read, named, failed] == calls + [first, read, named, failed];
    assert calls + [first] + [read, named, turned] == calls + [first, read, named, turned];
  }

  /** No event of the operation was recorded. */
  ghost predicate IsNew(log: Log, op: Operation) {
    forall status :: Key(op, status) !in log
  }

  /**
   * The first attempt of an operation: it records the claim, starts one thread, records it, reads it in the
   * worktree, names it, starts the turn and records that; the first step that fails leaves the failed record,
   * with the thread once there is one, and nothing is called after it.
   */
  lemma FirstAttemptRuns(log: Log, calls: seq<Call>, op: Operation, world: World)
    requires IsNew(log, op)
    ensures var start := Start(log, calls, op); var claimed := log[Key(op, Pending) := Fields(None, None)];
            var t := world.created.id;
            && (!world.prepared || !world.connected ==>
                  Ends(start, world, claimed[Key(op, Failed) := Fields(None, None)], calls, op, ReturnedFailed(None)))
            && (world.prepared && world.connected && !world.created.ok ==>
                  Ends(start, world, claimed[Key(op, Failed) := Fields(None, None)], calls + [ThreadStart(0, op)], op,
                       ReturnedFailed(None)))
            && (world.prepared && world.connected && world.created.ok && !world.inspected ==>
                  Ends(start, world, claimed[Key(op, ThreadCreated) := Fields(Some(t), None)][Key(op, Failed) := Fields(Some(t), None)],
                       calls + [ThreadStart(0, op), ThreadRead(0, op, t)], op, ReturnedFailed(Some(t))))
            && (world.prepared && world.connected && world.created.ok && world.inspected && !world.turn.ok ==>
                  Ends(start, world, claimed[Key(op, ThreadCreated) := Fields(Some(t), None)][Key(op, Failed) := Fields(Some(t), None)],
                       calls + [ThreadStart(0, op), ThreadRead(0, op, t), NameSet(0, op, t), TurnStart(0, op, t, op, None)], op,
                       ReturnedFailed(Some(t))))
            && (world.prepared && world.connected && world.created.ok && world.inspected && world.turn.ok ==>
                  Ends(start, world, claimed[Key(op, ThreadCreated) := Fields(Some(t), None)]
                                            [Key(op, Started) := Fields(Some(t), Some(world.turn.id))],
                       calls + [ThreadStart(0, op), ThreadRead(0, op, t), NameSet(0, op, t),
                                TurnStart(0, op, t, op, Some(world.turn.id))], op,
                       ReturnedStarted(Some(t), Some(world.turn.id))))
  {
    var start := Start(log, calls, op);
    var claimed := log[Key(op, Pending) := Fields(None, None)];
    Moves(start, world, 0, log, calls, op, Reading);
    Moves(start, world, 1, log, calls, op, Claiming);
    Connects(start, world, 2, claimed, calls, op, None);
    if world.prepared && world.connected {
      CreatorEnds(start, world, claimed, calls, op);
    }
  }

  /** The first attempt from its claim and its connection on. */
  lemma CreatorEnds(start: State, world: World, log: Log, calls: seq<Call>, op: Operation)
    requires start.attempts != [] && Key(op, Failed) !in log && Key(op, Started) !in log && Key(op, ThreadCreated) !in log
    requires IsAt(start, world, 4, log, calls, op, Creating)
    ensures var t := world.created.id; var created := log[Key(op, ThreadCreated) := Fields(Some(t), None)];
            && (!world.created.ok ==>
                  Ends(start, world, log[Key(op, Failed) := Fields(None, None)], calls + [ThreadStart(0, op)], op,
                       ReturnedFailed(None)))
            && (world.created.ok && !world.inspected ==>
                  Ends(start, world, created[Key(op, Failed) := Fields(Some(t), None)],
                       calls + [ThreadStart(0, op), ThreadRead(0, op, t)], op, ReturnedFailed(Some(t))))
            && (world.created.ok && world.inspected && !world.turn.ok ==>
                  Ends(start, world, created[Key(op, Failed) := Fields(Some(t), None)],
                       calls + [ThreadStart(0, op), ThreadRead(0, op, t), NameSet(0, op, t), TurnStart(0, op, t, op, None)], op,
                       ReturnedFailed(Some(t))))
            && (world.created.ok && world.inspected && world.turn.ok ==>
                  Ends(start, world, created[Key(op, Started) := Fields(Some(t), Some(world.turn.id))],
                       calls + [ThreadStart(0, op), ThreadRead(0, op, t), NameSet(0, op, t),
                                TurnStart(0, op, t, op, Some(world.turn.id))], op,
                       ReturnedStarted(Some(t), Some(world.turn.id))))
  {
    Moves(start, world, 4, log, calls, op, Creating);
    if !world.created.ok {
      FailureEnds(start, world, 5, log, calls + [ThreadStart(0, op)], op, None);
    } else {
      var t := world.created.id;
      Moves(start, world, 5, log, calls + [ThreadStart(0, op)], op, Recording(t));
      EndsAfter(start, world, 6, log[Key(op, ThreadCreated) := Fields(Some(t), None)], calls, ThreadStart(0, op), op, t);
    }
  }

  lemma Connects(start: State, world: World, n: nat, log: Log, calls: seq<Call>, op: Operation, recorded: Option<Thread>)
    requires start.attempts != [] && n <= 2 && Key(op, Failed) !in log
    requires IsAt(start, world, n, log, calls, op, Preparing(recorded))
    ensures !world.prepared || !world.connected ==>
              Ends(start, world, log[Key(op, Failed) := Fields(recorded, None)], calls, op, ReturnedFailed(recorded))
    ensures world.prepared && world.connected ==>
              IsAt(start, world, n + 2, log, calls, op, if recorded.Some? then Resuming(recorded.value) else Creating)
  {
    Moves(start, world, n, log, calls, op, Preparing(recorded));
    if !world.prepared {
      FailureEnds(start, world, n + 1, log, calls, op, recorded);
    } else {
      Moves(start, world, n + 1, log, calls, op, Connecting(recorded));
      if !world.connected {
        FailureEnds(start, world, n + 2, log, calls, op, recorded);
      }
    }
  }

  /**
   * A later attempt of an operation whose thread was recorded and that has neither started nor failed: it
   * resumes that thread, never starts another, and fails unless the answer names the same thread.
   */
  lemma LaterAttemptRuns(log: Log, calls: seq<Call>, op: Operation, world: World, t: Thread)
    requires Key(op, Started) !in log && Key(op, Failed) !in log
    requires Key(op, ThreadCreated) in log && log[Key(op, ThreadCreated)].thread == Some(t)
    ensures var start := Start(log, calls, op);
            var failed := log[Key(op, Failed) := Fields(Some(t), None)];
            var resumed := world.resumed.ok && world.resumed.id == t;
            && (!world.prepared || !world.connected ==> Ends(start, world, failed, calls, op, ReturnedFailed(Some(t))))
            && (world.prepared && world.connected && !resumed ==>
                  Ends(start, world, failed, calls + [ThreadResume(0, op, t)], op, ReturnedFailed(Some(t))))
            && (world.prepared && world.connected && resumed && !world.inspected ==>
                  Ends(start, world, failed, calls + [ThreadResume(0, op, t), ThreadRead(0, op, t)], op, ReturnedFailed(Some(t))))
            && (world.prepared && world.connected && resumed && world.inspected && !world.turn.ok ==>
                  Ends(start, world, failed, calls + [ThreadResume(0, op, t), ThreadRead(0, op, t), NameSet(0, op, t),
                                                      TurnStart(0, op, t, op, None)], op, ReturnedFailed(Some(t))))
            && (world.prepared && world.connected && resumed && world.inspected && world.turn.ok ==>
                  Ends(start, world, log[Key(op, Started) := Fields(Some(t), Some(world.turn.id))],
                       calls + [ThreadResume(0, op, t), ThreadRead(0, op, t), NameSet(0, op, t),
                                TurnStart(0, op, t, op, Some(world.turn.id))], op,
                       ReturnedStarted(Some(t), Some(world.turn.id))))
  {
    var start := Start(log, calls, op);
    Moves(start, world, 0, log, calls, op, Reading);
    Connects(start, world, 1, log, calls, op, Some(t));
    if world.prepared && world.connected {
      Moves(start, world, 3, log, calls, op, Resuming(t));
      if !world.resumed.ok || world.resumed.id != t {
        FailureEnds(start, world, 4, log, calls + [ThreadResume(0, op, t)], op, Some(t));
      } else {
        EndsAfter(start, world, 4, log, calls, ThreadResume(0, op, t), op, t);
      }
    }
  }

  /** Every other attempt answers from the log alone: it records nothing and calls nothing. */
  lemma AnsweredFromTheLog(log: Log, calls: seq<Call>, op: Operation, world: World)
    ensures var start := Start(log, calls, op);
            && (Key(op, Started) in log ==>
                  Ends(start, world, log, calls, op,
                       ReturnedStarted(log[Key(op, Started)].thread, log[Key(op, Started)].turn)))
            && (Key(op, Started) !in log && Key(op, Failed) in log ==>
                  Ends(start, world, log, calls, op, ReturnedFailed(log[Key(op, Failed)].thread)))
            && (Key(op, Started) !in log && Key(op, Failed) !in log && Key(op, ThreadCreated) !in log && Key(op, Pending) in log ==>
                  Ends(start, world, log, calls, op, PendingRecovery))
  {
    var start := Start(log, calls, op);
    Moves(start, world, 0, log, calls, op, Reading);
    assert IsAt(start, world, 1, log, calls, op, AfterRead(log, op));
  }
}
