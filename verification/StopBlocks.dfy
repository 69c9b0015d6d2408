/**
 * When a Stop is blocked: over the log of evaluations, at most once for the same content as long as no row
 * that stands for a block is replaced, and exactly how often when one is.
 */
module StopBlocks {
  import opened ContractEvidence
  import opened Projection
  import opened Wrappers

  // ---------------------------------------------------------------- at most one block for the same content

  predicate Guards(row: Evaluation, block: Block) {
    row.issued && row.scope == block.scope && row.relevant == block.relevant
  }

  predicate Guarded(table: Table, block: Block) {
    exists id :: id in table && Guards(table[id].row, block)
  }

  function BlockOf(evaluation: Evaluation): Block {
    Block(evaluation.scope, evaluation.relevant)
  }

  predicate BlocksAreGuarded(s: State) {
    forall k :: 0 <= k < |s.blocks| ==> Guarded(s.table, s.blocks[k])
  }

  predicate BlocksAreDistinct(s: State) {
    forall j, k :: 0 <= j < k < |s.blocks| ==> s.blocks[j] != s.blocks[k]
  }

  /** Each issued row stands for a block of its own. */
  predicate IssuedRowsAreBlocks(s: State) {
    && (forall id :: id in s.table && s.table[id].row.issued ==> BlockOf(s.table[id].row) in s.blocks)
    && forall i, j :: i in s.table && j in s.table && i != j && s.table[i].row.issued && s.table[j].row.issued
         ==> BlockOf(s.table[i].row) != BlockOf(s.table[j].row)
  }

  predicate StopsOnce(s: State) {
    BlocksAreGuarded(s) && BlocksAreDistinct(s) && IssuedRowsAreBlocks(s)
  }

  /** The event gets the row of its evaluation's id. */
  predicate TakesRow(rank: Rank<EventKey>, s: State, key: EventKey, id: string) {
    key !in s.events && !(id in s.table && rank(key) < rank(s.table[id].key))
  }

  /** The action keeps the row of a block, the new one included, from being replaced or from never appearing. */
  predicate SparesGuards(rank: Rank<EventKey>, s: State, action: Action) {
    var id := Written(action).id;
    var takes := TakesRow(rank, s, EventOf(action), id);
    && (takes && id in s.table ==> !s.table[id].row.issued)
    && (Written(action).issued ==> takes)
  }

  /** The hook reads every guarding row. */
  lemma GuardIsRead(s: State, action: Action, block: Block)
    requires Enabled(s, action) && !action.Handoff? && block.scope == Written(action).scope
    requires Guarded(s.table, block)
    ensures AlreadyIssued(action.prior, block.scope, block.relevant) && AnyIssued(action.prior, block.scope)
  {
    var id :| id in s.table && Guards(s.table[id].row, block);
    assert s.table[id].row in action.prior;
  }

  /** A guarded block is not issued again. */
  lemma GuardedIsNotIssued(s: State, action: Action)
    requires Enabled(s, action) && Written(action).issued
    ensures !Guarded(s.table, BlockOf(Written(action)))
  {
    var block := BlockOf(Written(action));
    assert Guarded(s.table, block) ==> AlreadyIssued(action.prior, block.scope, block.relevant) && AnyIssued(action.prior, block.scope) by {
      if Guarded(s.table, block) {
        GuardIsRead(s, action, block);
      }
    }
  }

  /** What a step does to the table: at most the row of the written evaluation changes. */
  lemma StepChangesOneRow(rank: Rank<EventKey>, s: State, action: Action)
    requires Enabled(s, action)
    ensures var t := Step(rank, s, action); var written := Written(action);
            && t.table == (if TakesRow(rank, s, EventOf(action), written.id)
                           then s.table[written.id := Event(EventOf(action), written.id, written)] else s.table)
            && t.blocks == s.blocks + (if written.issued then [BlockOf(written)] else [])
  {
  }

  lemma NewRowKeepsGuards(table: Table, row: Row, block: Block)
    requires row.id in table ==> !table[row.id].row.issued
    requires Guarded(table, block) || Guards(row.row, block)
    ensures Guarded(table[row.id := row], block)
  {
    var after := table[row.id := row];
    if Guarded(table, block) {
      var id :| id in table && Guards(table[id].row, block);
      assert Guards(after[id].row, block);
    } else {
      assert Guards(after[row.id].row, block);
    }
  }

  lemma StepKeepsStopsOnce(rank: Rank<EventKey>, s: State, action: Action)
    requires StopsOnce(s) && (Enabled(s, action) ==> SparesGuards(rank, s, action))
    ensures StopsOnce(Step(rank, s, action))
  {
    if Enabled(s, action) {
      StepChangesOneRow(rank, s, action);
      if Written(action).issued {
        GuardedIsNotIssued(s, action);
      }
      StepKeepsGuarded(rank, s, action);
      StepKeepsIssuedRows(rank, s, action);
    }
  }

  lemma StepKeepsGuarded(rank: Rank<EventKey>, s: State, action: Action)
    requires StopsOnce(s) && Enabled(s, action) && SparesGuards(rank, s, action)
    ensures BlocksAreGuarded(Step(rank, s, action))
  {
    var t := Step(rank, s, action);
    StepChangesOneRow(rank, s, action);
    forall k | 0 <= k < |t.blocks|
      ensures Guarded(t.table, t.blocks[k])
    {
      if TakesRow(rank, s, EventOf(action), Written(action).id) {
        NewRowKeepsGuards(s.table, Event(EventOf(action), Written(action).id, Written(action)), t.blocks[k]);
      }
    }
  }

  lemma StepKeepsIssuedRows(rank: Rank<EventKey>, s: State, action: Action)
    requires StopsOnce(s) && Enabled(s, action)
    requires Written(action).issued ==> !Guarded(s.table, BlockOf(Written(action)))
    ensures IssuedRowsAreBlocks(Step(rank, s, action))
  {
    var t := Step(rank, s, action);
    StepChangesOneRow(rank, s, action);
    forall id | id in t.table && t.table[id].row.issued
      ensures BlockOf(t.table[id].row) in t.blocks
    {
      assert id != Written(action).id ==> BlockOf(s.table[id].row) in s.blocks;
    }
    forall id | id in s.table && Written(action).issued
      ensures !Guards(s.table[id].row, BlockOf(Written(action)))
    {
    }
  }

  /** No action of the run takes a row away from the block it stands for. */
  predicate NoGuardIsReplaced(rank: Rank<EventKey>, s: State, actions: seq<Action>)
    decreases |actions|
  {
    actions == [] ||
    ((Enabled(s, actions[0]) ==> SparesGuards(rank, s, actions[0]))
     && NoGuardIsReplaced(rank, Step(rank, s, actions[0]), actions[1..]))
  }

  lemma {:induction false} ExecKeepsStopsOnce(rank: Rank<EventKey>, s: State, actions: seq<Action>)
    requires StopsOnce(s) && NoGuardIsReplaced(rank, s, actions)
    ensures StopsOnce(Exec(rank, s, actions))
    decreases |actions|
  {
    if actions != [] {
      StepKeepsStopsOnce(rank, s, actions[0]);
      ExecKeepsStopsOnce(rank, Step(rank, s, actions[0]), actions[1..]);
    }
  }

  /**
   * As long as no guarding row is replaced, a completion is blocked at most once for the same repository,
   * task, content and relevant contracts, by either path.
   */
  lemma AtMostOneBlock(rank: Rank<EventKey>, actions: seq<Action>, j: nat, k: nat)
    requires NoGuardIsReplaced(rank, EMPTY, actions) && j < k < |Exec(rank, EMPTY, actions).blocks|
    ensures Exec(rank, EMPTY, actions).blocks[j] != Exec(rank, EMPTY, actions).blocks[k]
  {
    ExecKeepsStopsOnce(rank, EMPTY, actions);
  }

  /**
   * The condition is exact: where every block has its row, a step leaves every block with one exactly when it
   * replaces none and its own block gets its row.
   */
  lemma GuardsStayIffSpared(rank: Rank<EventKey>, actions: seq<Action>, action: Action)
    requires NoGuardIsReplaced(rank, EMPTY, actions) && Enabled(Exec(rank, EMPTY, actions), action)
    ensures BlocksAreGuarded(Step(rank, Exec(rank, EMPTY, actions), action))
            <==> SparesGuards(rank, Exec(rank, EMPTY, actions), action)
  {
    var s := Exec(rank, EMPTY, actions);
    ExecKeepsStopsOnce(rank, EMPTY, actions);
    if SparesGuards(rank, s, action) {
      StepKeepsGuarded(rank, s, action);
    } else {
      var block := UnguardedBlock(rank, s, action);
    }
  }

  /** The block that loses its row, or never gets one. */
  lemma UnguardedBlock(rank: Rank<EventKey>, s: State, action: Action) returns (block: Block)
    requires StopsOnce(s) && Enabled(s, action) && !SparesGuards(rank, s, action)
    ensures block in Step(rank, s, action).blocks && !Guarded(Step(rank, s, action).table, block)
  {
    var written := Written(action);
    StepChangesOneRow(rank, s, action);
    if written.issued {
      GuardedIsNotIssued(s, action);
    }
    if !TakesRow(rank, s, EventOf(action), written.id) {
      block := BlockOf(written);
    } else {
      block := BlockOf(s.table[written.id].row);
      ReplacedIsUnguarded(s.table, Event(EventOf(action), written.id, written), block);
    }
  }

  lemma ReplacedIsUnguarded(table: Table, row: Row, block: Block)
    requires row.id in table && Guards(table[row.id].row, block) && !(Guards(row.row, block))
    requires forall i :: i in table && i != row.id ==> !Guards(table[i].row, block)
    ensures !Guarded(table[row.id := row], block)
  {
  }

  // ---------------------------------------------------------------- what a lost guard costs

  /** The issued rows of a repository, as a hook reads them. */
  lemma {:induction false} ListIssued(table: Table, ids: set<string>, repository: string) returns (prior: seq<Evaluation>)
    requires ids <= table.Keys
    ensures forall e :: e in prior ==> e.scope.repository == repository && exists id :: id in ids && table[id].row == e
    ensures forall id :: id in ids && table[id].row.issued && table[id].row.scope.repository == repository ==> table[id].row in prior
    decreases ids
  {
    prior := [];
    if ids != {} {
      var id :| id in ids;
      var rest := ListIssued(table, ids - {id}, repository);
      prior := if table[id].row.scope.repository == repository then [table[id].row] + rest else rest;
    }
  }

  lemma ReadsListing(s: State, repository: string) returns (prior: seq<Evaluation>)
    requires Evidenced(s)
    ensures ReadsEvidence(s, repository, prior) && ReadsIssued(s, repository, prior)
  {
    prior := ListIssued(s.table, s.table.Keys, repository);
  }

  /** A Stop of the scope whose one required test has just failed. */
  function FailingStop(block: Block, prior: seq<Evaluation>): Action {
    var argv := Argv("", [], "");
    var test := RequiredTest("", "", argv, Missing, None);
    Evaluate(Source("", block.scope.repository, block.scope.task, false), true,
             Matched("", block.scope.fingerprint, block.relevant, [test]), Some(ObservedRun(argv, TestFailed, None)), None, prior)
  }

  /** A Stop of the scope whose contracts cannot be evaluated. */
  function UnreadableStop(block: Block, prior: seq<Evaluation>): Action {
    Invalid(Source("", block.scope.repository, block.scope.task, false), "", block.scope.fingerprint, prior)
  }

  lemma FailingStopIsNotReady(block: Block, prior: seq<Evaluation>)
    ensures !Written(FailingStop(block, prior)).ready && BlockOf(Written(FailingStop(block, prior))) == block
  {
    assert Written(FailingStop(block, prior)).tests[0].state == Failed;
  }

  /**
   * The next Stop of the scope is blocked once more: on the path of a failing test, or, for a block without
   * contracts that no other row of the scope guards, on the path of unreadable ones.
   */
  lemma UnguardedIsBlockedAgain(s: State, block: Block) returns (next: Action)
    requires Evidenced(s) && !Guarded(s.table, block)
    ensures Enabled(s, next) && Written(next).issued && BlockOf(Written(next)) == block
    ensures next.Invalid? <==> block.relevant == {} && !IsIssuedFor(s.table, block.scope)
    ensures next.Invalid? || next.Evaluate?
  {
    var prior := ReadsListing(s, block.scope.repository);
    if block.relevant == {} && !IsIssuedFor(s.table, block.scope) {
      next := UnreadableStop(block, prior);
      InvalidIsIssuedIff(s, next);
    } else {
      next := FailingStop(block, prior);
      FailingStopIsNotReady(block, prior);
      StopIsBlockedIffUnguarded(s, next);
    }
  }

  /** After a step that does not spare the guards, some Stop is blocked that was blocked before. */
  lemma LostGuardBlocksAgain(rank: Rank<EventKey>, actions: seq<Action>, action: Action) returns (next: Action)
    requires NoGuardIsReplaced(rank, EMPTY, actions)
    requires var s := Exec(rank, EMPTY, actions); Enabled(s, action) && !SparesGuards(rank, s, action)
    ensures var t := Step(rank, Exec(rank, EMPTY, actions), action);
            && Enabled(t, next) && !next.Handoff? && Written(next).issued && BlockOf(Written(next)) in t.blocks
            && Step(rank, t, next).blocks == t.blocks + [BlockOf(Written(next))]
  {
    var s := Exec(rank, EMPTY, actions);
    var t := Step(rank, s, action);
    ExecKeepsStopsOnce(rank, EMPTY, actions);
    ExecKeepsEvidenced(rank, EMPTY, actions);
    StepKeepsEvidenced(rank, s, action);
    var block := UnguardedBlock(rank, s, action);
    next := UnguardedIsBlockedAgain(t, block);
    StepChangesOneRow(rank, t, next);
  }

  /** Every evaluation of the run gets an id no row has. */
  predicate FreshIds(rank: Rank<EventKey>, s: State, actions: seq<Action>)
    decreases |actions|
  {
    actions == [] || (Written(actions[0]).id !in s.table && FreshIds(rank, Step(rank, s, actions[0]), actions[1..]))
  }

  function IdOf(key: EventKey): string {
    match key
    case HookEvent(_, evaluation) => evaluation.id
    case HandoffEvent(_, id) => id
  }

  predicate EventsHaveRows(s: State) {
    forall key :: key in s.events ==> IdOf(key) in s.table
  }

  /** Evaluations with ids of their own, which the clock gives them on the usual path, replace nothing. */
  lemma {:induction false} FreshIdsReplaceNothing(rank: Rank<EventKey>, s: State, actions: seq<Action>)
    requires EventsHaveRows(s) && FreshIds(rank, s, actions)
    ensures NoGuardIsReplaced(rank, s, actions)
    decreases |actions|
  {
    if actions != [] {
      assert IdOf(EventOf(actions[0])) == Written(actions[0]).id;
      FreshIdsReplaceNothing(rank, Step(rank, s, actions[0]), actions[1..]);
    }
  }

  /** A stop with unmet tests is blocked exactly when the hook is not already continuing and no row guards it. */
  lemma StopIsBlockedIffUnguarded(s: State, action: Action)
    requires Enabled(s, action) && action.Evaluate? && action.stop
    ensures Written(action).issued <==>
            && !Written(action).ready && !action.source.stopHookActive
            && !Guarded(s.table, BlockOf(Written(action)))
  {
    var block := BlockOf(Written(action));
    if AlreadyIssued(action.prior, block.scope, block.relevant) {
      var e :| e in action.prior && e.scope == block.scope && e.issued && e.relevant == block.relevant;
      var id :| id in s.table && s.table[id].row == e;
      assert Guards(s.table[id].row, block);
    }
    if Written(action).issued {
      GuardedIsNotIssued(s, action);
    }
  }

  /** Nothing but a Stop, or an event whose contracts cannot be evaluated, is ever blocked. */
  lemma OnlyStopsAreBlocked(action: Action)
    ensures action.Handoff? ==> !Written(action).issued
    ensures action.Evaluate? && (!action.stop || Written(action).ready) ==> !Written(action).issued
    ensures !action.Handoff? && action.source.stopHookActive ==> !Written(action).issued
  {
  }

  // ---------------------------------------------------------------- a stop delivered again on the invalid path

  predicate IsIssuedFor(table: Table, scope: Scope) {
    exists id :: id in table && table[id].row.scope == scope && table[id].row.issued
  }

  lemma InvalidIsIssuedIff(s: State, action: Action)
    requires action.Invalid? && Enabled(s, action)
    ensures Written(action).issued <==> !action.source.stopHookActive && !IsIssuedFor(s.table, Written(action).scope)
  {
    var scope := Written(action).scope;
    if AnyIssued(action.prior, scope) {
      var e :| e in action.prior && e.scope == scope && e.issued;
      var id :| id in s.table && s.table[id].row == e;
      assert IsIssuedFor(s.table, scope);
    }
    if IsIssuedFor(s.table, scope) {
      var id :| id in s.table && s.table[id].row.scope == scope && s.table[id].row.issued;
      assert s.table[id].row in action.prior;
    }
  }

  /** A Stop whose contracts cannot be evaluated; its evaluation's id depends on nothing else. */
  datatype Stop = Stop(source: Source, id: string, fingerprint: string) {
    function ScopeOf(): Scope {
      Scope(source.repository, source.task, fingerprint)
    }

    function EvaluationOf(issued: bool): Evaluation {
      Evaluation(id, ScopeOf(), {}, [], false, issued)
    }

    function KeyOf(issued: bool): EventKey {
      HookEvent(source, EvaluationOf(issued))
    }

    function RowOf(issued: bool): Row {
      Event(KeyOf(issued), id, EvaluationOf(issued))
    }
  }

  predicate IsDelivery(stop: Stop, action: Action) {
    action.Invalid? && action == Invalid(stop.source, stop.id, stop.fingerprint, action.prior)
  }

  /** An action about another evaluation that blocks nothing in the scope of the Stop. */
  predicate IsElsewhere(stop: Stop, action: Action) {
    Written(action).id != stop.id && !(Written(action).issued && Written(action).scope == stop.ScopeOf())
  }

  /** Deliveries of the Stop, with anything elsewhere between them. */
  predicate AreDeliveries(rank: Rank<EventKey>, s: State, actions: seq<Action>, stop: Stop)
    decreases |actions|
  {
    actions == [] ||
    ((if IsDelivery(stop, actions[0]) then Enabled(s, actions[0]) else IsElsewhere(stop, actions[0]))
     && AreDeliveries(rank, Step(rank, s, actions[0]), actions[1..], stop))
  }

  function CountDeliveries(actions: seq<Action>, stop: Stop): nat {
    if actions == [] then 0 else (if IsDelivery(stop, actions[0]) then 1 else 0) + CountDeliveries(actions[1..], stop)
  }

  function BlocksIn(blocks: seq<Block>, scope: Scope): nat {
    if blocks == [] then 0
    else BlocksIn(blocks[..|blocks| - 1], scope) + if blocks[|blocks| - 1].scope == scope then 1 else 0
  }

  /** The unissued evaluation of a later delivery sorts after the issued one of the first. */
  predicate IsOvertaken(rank: Rank<EventKey>, stop: Stop) {
    rank(stop.KeyOf(true)) < rank(stop.KeyOf(false))
  }

  /** How often the Stop is blocked when it is delivered `n` times. */
  function ExpectedBlocks(n: nat, overtaken: bool): nat {
    if n <= 1 then n else if n == 2 || !overtaken then 1 else n - 1
  }

  /** What the log holds of the Stop after `n` deliveries. */
  predicate IsAfter(rank: Rank<EventKey>, s: State, stop: Stop, n: nat) {
    && (stop.KeyOf(true) in s.events <==> n >= 1)
    && (stop.KeyOf(false) in s.events <==> n >= 2)
    && (n == 0 ==> stop.id !in s.table)
    && (n >= 1 ==> stop.id in s.table && s.table[stop.id] == stop.RowOf(n == 1 || !IsOvertaken(rank, stop)))
    && forall id :: id in s.table && id != stop.id && s.table[id].row.scope == stop.ScopeOf() ==> !s.table[id].row.issued
  }

  lemma DeliveryIsNext(rank: Rank<EventKey>, s: State, action: Action, stop: Stop, n: nat)
    requires IsRank(rank) && !stop.source.stopHookActive && IsAfter(rank, s, stop, n)
    requires IsDelivery(stop, action) && Enabled(s, action)
    ensures IsAfter(rank, Step(rank, s, action), stop, n + 1)
    ensures var blocks := Step(rank, s, action).blocks;
            BlocksIn(blocks, stop.ScopeOf()) - BlocksIn(s.blocks, stop.ScopeOf())
            == ExpectedBlocks(n + 1, IsOvertaken(rank, stop)) - ExpectedBlocks(n, IsOvertaken(rank, stop))
  {
    InvalidIsIssuedIff(s, action);
    StepChangesOneRow(rank, s, action);
    assert IsIssuedFor(s.table, stop.ScopeOf()) <==> n >= 1 && s.table[stop.id].row.issued;
    assert Written(action) == stop.EvaluationOf(Written(action).issued);
    assert stop.KeyOf(true) != stop.KeyOf(false);
    OneMoreBlock(s.blocks, BlockOf(Written(action)), stop.ScopeOf());
  }

  lemma OneMoreBlock(blocks: seq<Block>, block: Block, scope: Scope)
    ensures BlocksIn(blocks + [block], scope) == BlocksIn(blocks, scope) + if block.scope == scope then 1 else 0
    ensures blocks + [] == blocks
  {
    assert (blocks + [block])[..|blocks|] == blocks;
  }

  lemma ElsewhereKeepsLog(rank: Rank<EventKey>, s: State, action: Action, stop: Stop)
    requires Enabled(s, action) && IsElsewhere(stop, action)
    ensures var t := Step(rank, s, action);
            && (forall issued :: stop.KeyOf(issued) in t.events <==> stop.KeyOf(issued) in s.events)
            && (stop.id in t.table <==> stop.id in s.table)
            && (stop.id in s.table ==> t.table[stop.id] == s.table[stop.id])
  {
    StepChangesOneRow(rank, s, action);
    assert IdOf(EventOf(action)) == Written(action).id;
    assert forall issued :: IdOf(stop.KeyOf(issued)) == stop.id;
  }

  lemma ElsewhereKeepsScope(rank: Rank<EventKey>, s: State, action: Action, stop: Stop)
    requires Enabled(s, action) && IsElsewhere(stop, action)
    requires forall id :: id in s.table && id != stop.id && s.table[id].row.scope == stop.ScopeOf() ==> !s.table[id].row.issued
    ensures var t := Step(rank, s, action);
            && (forall id :: id in t.table && id != stop.id && t.table[id].row.scope == stop.ScopeOf() ==> !t.table[id].row.issued)
            && BlocksIn(t.blocks, stop.ScopeOf()) == BlocksIn(s.blocks, stop.ScopeOf())
  {
    StepChangesOneRow(rank, s, action);
    OneMoreBlock(s.blocks, BlockOf(Written(action)), stop.ScopeOf());
  }

  lemma ElsewhereChangesNothing(rank: Rank<EventKey>, s: State, action: Action, stop: Stop, n: nat)
    requires IsAfter(rank, s, stop, n) && IsElsewhere(stop, action)
    ensures IsAfter(rank, Step(rank, s, action), stop, n)
    ensures BlocksIn(Step(rank, s, action).blocks, stop.ScopeOf()) == BlocksIn(s.blocks, stop.ScopeOf())
  {
    if Enabled(s, action) {
      ElsewhereKeepsLog(rank, s, action, stop);
      ElsewhereKeepsScope(rank, s, action, stop);
    }
  }

  /** The blocks of the scope and the deliveries they go with. */
  predicate HasBlocked(rank: Rank<EventKey>, s: State, stop: Stop, n: nat, base: int) {
    IsAfter(rank, s, stop, n) && BlocksIn(s.blocks, stop.ScopeOf()) == base + ExpectedBlocks(n, IsOvertaken(rank, stop))
  }

  lemma NextKeepsCount(rank: Rank<EventKey>, s: State, action: Action, stop: Stop, n: nat, base: int)
    requires IsRank(rank) && !stop.source.stopHookActive && HasBlocked(rank, s, stop, n, base)
    requires if IsDelivery(stop, action) then Enabled(s, action) else IsElsewhere(stop, action)
    ensures HasBlocked(rank, Step(rank, s, action), stop, if IsDelivery(stop, action) then n + 1 else n, base)
  {
    if IsDelivery(stop, action) {
      DeliveryIsNext(rank, s, action, stop, n);
    } else {
      ElsewhereChangesNothing(rank, s, action, stop, n);
    }
  }

  lemma {:induction false} DeliveriesFrom(rank: Rank<EventKey>, s: State, actions: seq<Action>, stop: Stop, n: nat, base: int)
    requires IsRank(rank) && !stop.source.stopHookActive && HasBlocked(rank, s, stop, n, base)
    requires AreDeliveries(rank, s, actions, stop)
    ensures HasBlocked(rank, Exec(rank, s, actions), stop, n + CountDeliveries(actions, stop), base)
    decreases |actions|
  {
    if actions != [] {
      NextKeepsCount(rank, s, actions[0], stop, n, base);
      var more := if IsDelivery(stop, actions[0]) then 1 else 0;
      DeliveriesFrom(rank, Step(rank, s, actions[0]), actions[1..], stop, n + more, base);
    }
  }

  /**
   * However often one invalid Stop is delivered, with anything elsewhere in between, it blocks once if its
   * issued evaluation sorts after the unissued one; otherwise two deliveries block once and each further one
   * blocks again. So it blocks at most once exactly for at most two deliveries or in the first order.
   */
  lemma RedeliveredInvalidStop(rank: Rank<EventKey>, s: State, actions: seq<Action>, stop: Stop)
    requires IsRank(rank) && !stop.source.stopHookActive && IsAfter(rank, s, stop, 0)
    requires AreDeliveries(rank, s, actions, stop)
    ensures var n := CountDeliveries(actions, stop);
            var blocked := BlocksIn(Exec(rank, s, actions).blocks, stop.ScopeOf()) - BlocksIn(s.blocks, stop.ScopeOf());
            && blocked == ExpectedBlocks(n, IsOvertaken(rank, stop))
            && (blocked <= 1 <==> n <= 2 || !IsOvertaken(rank, stop))
  {
    DeliveriesFrom(rank, s, actions, stop, 0, BlocksIn(s.blocks, stop.ScopeOf()));
  }

  /** Once overtaken, every further delivery blocks. */
  lemma EveryLaterDeliveryBlocks(rank: Rank<EventKey>, s: State, actions: seq<Action>, stop: Stop, n: nat)
    requires IsRank(rank) && !stop.source.stopHookActive && IsOvertaken(rank, stop)
    requires n >= 2 && IsAfter(rank, s, stop, n) && AreDeliveries(rank, s, actions, stop)
    ensures BlocksIn(Exec(rank, s, actions).blocks, stop.ScopeOf())
            == BlocksIn(s.blocks, stop.ScopeOf()) + CountDeliveries(actions, stop)
  {
    DeliveriesFrom(rank, s, actions, stop, n, BlocksIn(s.blocks, stop.ScopeOf()) - ExpectedBlocks(n, true));
  }

  /** Nothing was recorded yet. */
  lemma NothingDelivered(rank: Rank<EventKey>, stop: Stop)
    ensures IsAfter(rank, EMPTY, stop, 0)
  {
  }

  function Delivery(stop: Stop, prior: seq<Evaluation>): Action {
    Invalid(stop.source, stop.id, stop.fingerprint, prior)
  }

  /** A log that holds nothing but the row of this Stop. */
  predicate HoldsOnly(s: State, stop: Stop, issued: bool) {
    s.table == map[stop.id := stop.RowOf(issued)] && stop.EvaluationOf(issued) in s.ever
  }

  lemma OnlyRowIsRead(s: State, stop: Stop, issued: bool)
    requires HoldsOnly(s, stop, issued)
    ensures Enabled(s, Delivery(stop, if issued then [stop.EvaluationOf(true)] else []))
  {
    if issued {
      assert s.table[stop.id].row == stop.EvaluationOf(true);
    }
  }

  lemma DeliveryKeepsOnly(rank: Rank<EventKey>, s: State, stop: Stop, prior: seq<Evaluation>, n: nat)
    requires IsRank(rank) && !stop.source.stopHookActive && IsOvertaken(rank, stop)
    requires IsAfter(rank, s, stop, n) && n <= 1 && Enabled(s, Delivery(stop, prior))
    requires if n == 0 then s.table == map[] else HoldsOnly(s, stop, true)
    ensures HoldsOnly(Step(rank, s, Delivery(stop, prior)), stop, n == 0)
  {
    DeliveryIsNext(rank, s, Delivery(stop, prior), stop, n);
    StepChangesOneRow(rank, s, Delivery(stop, prior));
  }

  /** One invalid Stop, delivered three times to an empty log, blocks twice when it is overtaken. */
  lemma ThreeDeliveriesBlockTwice(rank: Rank<EventKey>, stop: Stop) returns (actions: seq<Action>)
    requires IsRank(rank) && !stop.source.stopHookActive && IsOvertaken(rank, stop)
    ensures |actions| == 3 && AreDeliveries(rank, EMPTY, actions, stop) && CountDeliveries(actions, stop) == 3
    ensures BlocksIn(Exec(rank, EMPTY, actions).blocks, stop.ScopeOf()) == 2
  {
    var first, second, third := Delivery(stop, []), Delivery(stop, [stop.EvaluationOf(true)]), Delivery(stop, []);
    var s1 := Step(rank, EMPTY, first);
    var s2 := Step(rank, s1, second);
    NothingDelivered(rank, stop);
    DeliveryIsNext(rank, EMPTY, first, stop, 0);
    DeliveryKeepsOnly(rank, EMPTY, stop, [], 0);
    OnlyRowIsRead(s1, stop, true);
    DeliveryKeepsOnly(rank, s1, stop, [stop.EvaluationOf(true)], 1);
    OnlyRowIsRead(s2, stop, false);
    actions := [first, second, third];
    ThreeAreDeliveries(rank, stop, first, second, third);
    RedeliveredInvalidStop(rank, EMPTY, actions, stop);
  }

  lemma ThreeAreDeliveries(rank: Rank<EventKey>, stop: Stop, first: Action, second: Action, third: Action)
    requires IsDelivery(stop, first) && IsDelivery(stop, second) && IsDelivery(stop, third)
    requires Enabled(EMPTY, first) && Enabled(Step(rank, EMPTY, first), second)
    requires Enabled(Step(rank, Step(rank, EMPTY, first), second), third)
    ensures AreDeliveries(rank, EMPTY, [first, second, third], stop) && CountDeliveries([first, second, third], stop) == 3
  {
    var actions := [first, second, third];
    assert actions[1..] == [second, third] && [second, third][1..] == [third] && [third][1..] == [];
    assert CountDeliveries([third], stop) == 1;
    assert CountDeliveries([second, third], stop) == 2;
    assert AreDeliveries(rank, Step(rank, Step(rank, EMPTY, first), second), [third], stop);
    assert AreDeliveries(rank, Step(rank, EMPTY, first), [second, third], stop);
  }
}
