/**
 * Suggesting a fresh task for a long session: who is given the advice when prompts are delivered more than
 * once, by live hooks and by the replay of the fallback queue, with interruptions anywhere.
 */
module ContinuationClaim {
  import opened EventLog
  import opened Wrappers

  datatype Source = Source(id: string, key: string)

  type Advice = string

  /** The first suggestion of a session, or the one a rearm event made available again. */
  datatype Generation = Initial | Rearm(key: string)

  /** The dedupe keys of the session's suggestion events; a rearm event's id is the generation it opens. */
  datatype EventId = ClaimId(generation: Generation) | RearmId(key: string)

  datatype Body = Claimed(sourceId: string, advice: Advice) | PendingReplay(discardedId: string, advice: Advice)

  type Log = map<EventId, Body>

  datatype Proposal = Proposal(generation: Generation, advice: Advice)

  datatype Pc =
    | Reading
    | Claiming(proposal: Proposal)
    | Rereading
    | Acked(ack: Option<Proposal>)
    | Rearmed
    | Crashed

  /** A prompt on its way through ingestion; nobody waits for the answer when it comes from the queue. */
  datatype Delivery = Delivery(source: Source, replay: bool, pc: Pc)

  datatype Ack = Ack(source: Source, proposal: Proposal)

  datatype State = State(log: Log, deliveries: seq<Delivery>, acks: seq<Ack>)

  /** What a read of the session's events may report; their order is not the order of insertion. */
  datatype Listing = Listing(latest: Option<string>, pending: Option<string>, due: Option<Advice>)

  datatype Action =
    | Deliver(source: Source, replay: bool)
    | Advance(delivery: nat, listing: Listing)
    | Crash(delivery: nat)

  const EMPTY := State(map[], [], [])

  predicate IsPending(log: Log, key: string) {
    RearmId(key) in log && ClaimId(Rearm(key)) !in log
  }

  /**
   * `latest` is some rearm event and `pending` some unclaimed one, if there are any. Whether the session is due,
   * past a limit and not standing as suggested, is whatever the session row says.
   */
  ghost predicate Reports(log: Log, listing: Listing) {
    && (listing.latest.Some? ==> RearmId(listing.latest.value) in log)
    && (listing.latest.None? ==> forall key :: RearmId(key) !in log)
    && (listing.pending.Some? ==> IsPending(log, listing.pending.value))
    && (listing.pending.None? ==> forall key :: !IsPending(log, key))
  }

  function GenerationOf(latest: Option<string>): Generation {
    if latest.Some? then Rearm(latest.value) else Initial
  }

  /** The claim this source already holds in the latest generation. */
  function AdviceForSource(log: Log, source: Source, latest: Option<string>): Option<Proposal> {
    var generation := GenerationOf(latest);
    if ClaimId(generation) in log && log[ClaimId(generation)].Claimed? && log[ClaimId(generation)].sourceId == source.id
    then Some(Proposal(generation, log[ClaimId(generation)].advice)) else None
  }

  function RolloverAdvice(log: Log, source: Source, listing: Listing): Option<Proposal> {
    var own := AdviceForSource(log, source, listing.latest);
    if own.Some? then own
    else if listing.pending.Some? && RearmId(listing.pending.value) in log then
      Some(Proposal(Rearm(listing.pending.value), log[RearmId(listing.pending.value)].advice))
    else if listing.due.Some? then Some(Proposal(Initial, listing.due.value))
    else None
  }

  function Acknowledged(s: State, i: nat, ack: Option<Proposal>): State
    requires i < |s.deliveries|
  {
    State(s.log, s.deliveries[i := s.deliveries[i].(pc := Acked(ack))],
          if ack.Some? then s.acks + [Ack(s.deliveries[i].source, ack.value)] else s.acks)
  }

  function At(s: State, i: nat, pc: Pc): State
    requires i < |s.deliveries|
  {
    s.(deliveries := s.deliveries[i := s.deliveries[i].(pc := pc)])
  }

  function Advanced(s: State, i: nat, listing: Listing): State
    requires i < |s.deliveries|
  {
    var source := s.deliveries[i].source;
    match s.deliveries[i].pc
    case Reading =>
      var proposed := RolloverAdvice(s.log, source, listing);
      if proposed.Some? then At(s, i, Claiming(proposed.value)) else Acknowledged(s, i, None)
    case Claiming(proposal) =>
      var id := ClaimId(proposal.generation);
      if id in s.log then At(s, i, Rereading)
      else Acknowledged(s.(log := s.log[id := Claimed(source.id, proposal.advice)]), i, Some(proposal))
    case Rereading => Acknowledged(s, i, AdviceForSource(s.log, source, listing.latest))
    case Acked(ack) =>
      if s.deliveries[i].replay && ack.Some? then
        At(s.(log := Insert(s.log, RearmId(source.key), PendingReplay(source.id, ack.value.advice))), i, Rearmed)
      else s
    case _ => s
  }

  ghost function Step(s: State, action: Action): State {
    match action
    case Deliver(source, replay) => s.(deliveries := s.deliveries + [Delivery(source, replay, Reading)])
    case Advance(i, listing) => if i < |s.deliveries| && Reports(s.log, listing) then Advanced(s, i, listing) else s
    case Crash(i) => if i < |s.deliveries| then At(s, i, Crashed) else s
  }

  ghost function Exec(s: State, actions: seq<Action>): State
    decreases |actions|
  {
    if actions == [] then s else Exec(Step(s, actions[0]), actions[1..])
  }

  // ---------------------------------------------------------------- one source for each generation

  /** The log holds this claim by this source. */
  predicate IsClaimedBy(log: Log, generation: Generation, sourceId: string, advice: Advice) {
    ClaimId(generation) in log && log[ClaimId(generation)] == Claimed(sourceId, advice)
  }

  /** A generation that exists: the initial one or one opened by a rearm event. */
  predicate IsOpened(log: Log, generation: Generation) {
    generation.Initial? || RearmId(generation.key) in log
  }

  predicate EventOk(log: Log, id: EventId)
    requires id in log
  {
    match id
    case ClaimId(generation) => log[id].Claimed? && IsOpened(log, generation)
    case RearmId(_) => log[id].PendingReplay?
  }

  predicate DeliveryOk(log: Log, delivery: Delivery) {
    match delivery.pc
    case Claiming(proposal) => IsOpened(log, proposal.generation)
    case _ => true
  }

  predicate AckOk(log: Log, ack: Ack) {
    IsClaimedBy(log, ack.proposal.generation, ack.source.id, ack.proposal.advice)
  }

  predicate Sound(s: State) {
    && (forall id :: id in s.log ==> EventOk(s.log, id))
    && (forall i :: 0 <= i < |s.deliveries| ==> DeliveryOk(s.log, s.deliveries[i]))
    && (forall k :: 0 <= k < |s.acks| ==> AckOk(s.log, s.acks[k]))
  }

  lemma MoreLogKeeps(log: Log, more: Log)
    requires Extends(more, log)
    ensures forall delivery :: DeliveryOk(log, delivery) ==> DeliveryOk(more, delivery)
    ensures forall ack :: AckOk(log, ack) ==> AckOk(more, ack)
    ensures forall id :: id in log && EventOk(log, id) ==> EventOk(more, id)
  {
  }

  lemma StepKeepsSound(s: State, action: Action)
    requires Sound(s)
    ensures Sound(Step(s, action)) && Extends(Step(s, action).log, s.log)
  {
    var t := Step(s, action);
    MoreLogKeeps(s.log, t.log);
  }

  lemma {:induction false} ExecKeepsSound(s: State, actions: seq<Action>)
    requires Sound(s)
    ensures Sound(Exec(s, actions)) && Extends(Exec(s, actions).log, s.log)
    decreases |actions|
  {
    if actions != [] {
      StepKeepsSound(s, actions[0]);
      ExecKeepsSound(Step(s, actions[0]), actions[1..]);
    }
  }

  /** Advice is only ever given to a source whose claim, with that advice, is in the log. */
  lemma AdviceMeansClaim(actions: seq<Action>, k: nat)
    requires k < |Exec(EMPTY, actions).acks|
    ensures var s := Exec(EMPTY, actions); var ack := s.acks[k];
            IsClaimedBy(s.log, ack.proposal.generation, ack.source.id, ack.proposal.advice)
  {
    ExecKeepsSound(EMPTY, actions);
  }

  /** No generation is advised to two sources, however prompts are redelivered and replayed. */
  lemma OneSourcePerGeneration(actions: seq<Action>, j: nat, k: nat)
    requires var s := Exec(EMPTY, actions);
             j < |s.acks| && k < |s.acks| && s.acks[j].proposal.generation == s.acks[k].proposal.generation
    ensures var s := Exec(EMPTY, actions);
            s.acks[j].source.id == s.acks[k].source.id && s.acks[j].proposal == s.acks[k].proposal
  {
    ExecKeepsSound(EMPTY, actions);
    assert AckOk(Exec(EMPTY, actions).log, Exec(EMPTY, actions).acks[j]);
    assert AckOk(Exec(EMPTY, actions).log, Exec(EMPTY, actions).acks[k]);
  }

  // ---------------------------------------------------------------- reading and appending

  /** The session's suggestion events, in whatever order they are listed. */
  predicate IsListingOf(events: seq<EventId>, log: Log) {
    (forall k :: 0 <= k < |events| ==> events[k] in log) && forall id :: id in log ==> id in events
  }

  predicate IsLastRearm(events: seq<EventId>, k: int, key: string) {
    0 <= k < |events| && events[k] == RearmId(key) && forall i :: k < i < |events| ==> !events[i].RearmId?
  }

  predicate IsLastPending(events: seq<EventId>, k: int, log: Log, key: string) {
    && 0 <= k < |events| && events[k] == RearmId(key) && IsPending(log, key)
    && forall i :: k < i < |events| && events[i].RearmId? ==> !IsPending(log, events[i].key)
  }

  /** Searching the events from the last one reports what a read may report, whatever their order. */
  method SearchEvents(events: seq<EventId>, ghost log: Log) returns (latest: Option<string>, pending: Option<string>)
    requires IsListingOf(events, log)
    ensures Reports(log, Listing(latest, pending, None))
    ensures latest.Some? ==> exists k :: IsLastRearm(events, k, latest.value)
    ensures pending.Some? ==> exists k :: IsLastPending(events, k, log, pending.value)
  {
    var consumed: set<Generation> := {};
    for k := 0 to |events|
      invariant forall generation :: generation in consumed <==> ClaimId(generation) in events[..k]
    {
      assert events[..k + 1] == events[..k] + [events[k]];
      if events[k].ClaimId? {
        consumed := consumed + {events[k].generation};
      }
    }
    assert events[..|events|] == events;
    latest, pending := None, None;
    for k := |events| downto 0
      invariant latest.Some? ==> RearmId(latest.value) in log
      invariant latest.None? ==> forall i :: k <= i < |events| ==> !events[i].RearmId?
      invariant pending.Some? ==> IsPending(log, pending.value)
      invariant pending.None? ==> forall i :: k <= i < |events| && events[i].RearmId? ==> !IsPending(log, events[i].key)
      invariant latest.Some? ==> exists i :: IsLastRearm(events, i, latest.value)
      invariant pending.Some? ==> exists i :: IsLastPending(events, i, log, pending.value)
    {
      if events[k].RearmId? {
        if latest.None? {
          latest := Some(events[k].key);
          assert IsLastRearm(events, k, latest.value);
        }
        if pending.None? && Rearm(events[k].key) !in consumed {
          pending := Some(events[k].key);
          assert IsLastPending(events, k, log, pending.value);
        }
      }
    }
  }

  /** Claiming gives advice only to the source whose claim is recorded, and no advice only if another came first. */
  method ClaimContinuationSuggestion(store: Store<EventId, Body>, source: Source, proposal: Proposal, latest: Option<string>)
    returns (advice: Option<Advice>)
    modifies store
    ensures store.log == Insert(old(store.log), ClaimId(proposal.generation), Claimed(source.id, proposal.advice))
    ensures advice.Some? ==> exists generation :: IsClaimedBy(store.log, generation, source.id, advice.value)
    ensures ClaimId(proposal.generation) !in old(store.log) ==> advice == Some(proposal.advice)
    ensures advice.None? ==> ClaimId(proposal.generation) in old(store.log) && AdviceForSource(old(store.log), source, latest).None?
  {
    var outcome := store.InsertEvent(ClaimId(proposal.generation), Claimed(source.id, proposal.advice));
    if outcome.Inserted? {
      assert IsClaimedBy(store.log, proposal.generation, source.id, proposal.advice);
      return Some(proposal.advice);
    }
    var own := AdviceForSource(store.log, source, latest);
    if own.None? {
      return None;
    }
    assert IsClaimedBy(store.log, own.value.generation, source.id, own.value.advice);
    return Some(own.value.advice);
  }

  /** Rearming leaves a generation to be claimed exactly when its own was not claimed before. */
  method RearmContinuationAfterDiscardedAck(store: Store<EventId, Body>, source: Source, advice: Advice)
    modifies store
    ensures store.log == Insert(old(store.log), RearmId(source.key), PendingReplay(source.id, advice))
    ensures IsPending(store.log, source.key) <==> ClaimId(Rearm(source.key)) !in old(store.log)
  {
    var _ := store.InsertEvent(RearmId(source.key), PendingReplay(source.id, advice));
  }

  // ---------------------------------------------------------------- how many sources are advised

  function AdvisedSources(acks: seq<Ack>): set<string> {
    set k | 0 <= k < |acks| :: acks[k].source.id
  }

  function AdvisedGenerations(acks: seq<Ack>): set<Generation> {
    set k | 0 <= k < |acks| :: acks[k].proposal.generation
  }

  function OpenedKeys(log: Log): set<string> {
    set id | id in log && id.RearmId? :: id.key
  }

  function RearmsOf(keys: set<string>): set<Generation> {
    set key | key in keys :: Rearm(key)
  }

  lemma {:induction false} RearmsAreAsMany(keys: set<string>)
    ensures |RearmsOf(keys)| == |keys|
  {
    if keys != {} {
      var key :| key in keys;
      var rest := keys - {key};
      RearmsAreAsMany(rest);
      assert RearmsOf(keys) == RearmsOf(rest) + {Rearm(key)};
    }
  }

  lemma SubsetIsSmaller<T>(small: set<T>, large: set<T>)
    requires small <= large
    ensures |small| <= |large|
  {
    assert large == small + (large - small);
  }

  predicate GenerationsHaveOneSource(acks: seq<Ack>) {
    forall j, k :: 0 <= j < |acks| && 0 <= k < |acks| && acks[j].proposal.generation == acks[k].proposal.generation
      ==> acks[j].source.id == acks[k].source.id
  }

  lemma OneMoreAck(front: seq<Ack>, last: Ack)
    ensures AdvisedSources(front + [last]) == AdvisedSources(front) + {last.source.id}
    ensures AdvisedGenerations(front + [last]) == AdvisedGenerations(front) + {last.proposal.generation}
  {
    var acks := front + [last];
    assert forall k :: 0 <= k < |front| ==> acks[k] == front[k];
    assert acks[|front|] == last;
  }

  /** Acks that agree on the source of a generation advise no more sources than generations. */
  lemma {:induction false} NoMoreSourcesThanGenerations(acks: seq<Ack>)
    requires GenerationsHaveOneSource(acks)
    ensures |AdvisedSources(acks)| <= |AdvisedGenerations(acks)|
  {
    if acks != [] {
      var front, last := acks[..|acks| - 1], acks[|acks| - 1];
      assert acks == front + [last];
      OneMoreAck(front, last);
      NoMoreSourcesThanGenerations(front);
      RepeatedGeneration(front, last);
      AddedElement(AdvisedSources(front), last.source.id);
      AddedElement(AdvisedGenerations(front), last.proposal.generation);
    }
  }

  lemma AddedElement<T>(s: set<T>, x: T)
    ensures |s + {x}| == if x in s then |s| else |s| + 1
  {
    if x in s {
      assert s + {x} == s;
    }
  }

  lemma RepeatedGeneration(front: seq<Ack>, last: Ack)
    requires GenerationsHaveOneSource(front + [last])
    ensures last.proposal.generation in AdvisedGenerations(front) ==> last.source.id in AdvisedSources(front)
  {
    if last.proposal.generation in AdvisedGenerations(front) {
      var k :| 0 <= k < |front| && front[k].proposal.generation == last.proposal.generation;
      assert (front + [last])[k] == front[k] && (front + [last])[|front|] == last;
    }
  }

  /** Over any run the distinct sources given advice are at most one more than the rearm events. */
  lemma AdvisedSourcesAreBounded(actions: seq<Action>)
    ensures var s := Exec(EMPTY, actions); |AdvisedSources(s.acks)| <= 1 + |OpenedKeys(s.log)|
  {
    var s := Exec(EMPTY, actions);
    ExecKeepsSound(EMPTY, actions);
    forall j, k | 0 <= j < |s.acks| && 0 <= k < |s.acks| && s.acks[j].proposal.generation == s.acks[k].proposal.generation
      ensures s.acks[j].source.id == s.acks[k].source.id
    {
      OneSourcePerGeneration(actions, j, k);
    }
    NoMoreSourcesThanGenerations(s.acks);
    var all := RearmsOf(OpenedKeys(s.log)) + {Initial};
    forall g | g in AdvisedGenerations(s.acks)
      ensures g in all
    {
      var k :| 0 <= k < |s.acks| && s.acks[k].proposal.generation == g;
      assert AckOk(s.log, s.acks[k]);
      assert EventOk(s.log, ClaimId(g));
    }
    SubsetIsSmaller(AdvisedGenerations(s.acks), all);
    RearmsAreAsMany(OpenedKeys(s.log));
  }

  // ---------------------------------------------------------------- who rearms, and what is proposed

  /** Delivery `i` came from the queue, was answered with this advice and rearmed it under its source's key. */
  predicate IsDiscarded(s: State, i: int, k: int, key: string) {
    && 0 <= i < |s.deliveries| && 0 <= k < |s.acks| && RearmId(key) in s.log
    && s.deliveries[i].replay && s.deliveries[i].source.key == key && s.acks[k].source == s.deliveries[i].source
    && s.log[RearmId(key)] == PendingReplay(s.acks[k].source.id, s.acks[k].proposal.advice)
  }

  ghost predicate WasDiscarded(s: State, key: string) {
    exists i, k :: IsDiscarded(s, i, k, key)
  }

  predicate IsAnswered(s: State, source: Source, proposal: Proposal) {
    exists k :: 0 <= k < |s.acks| && s.acks[k] == Ack(source, proposal)
  }

  ghost predicate RearmsAreDiscarded(s: State) {
    && (forall key :: RearmId(key) in s.log ==> WasDiscarded(s, key))
    && (forall i :: 0 <= i < |s.deliveries| && s.deliveries[i].pc.Acked? && s.deliveries[i].pc.ack.Some? ==>
          IsAnswered(s, s.deliveries[i].source, s.deliveries[i].pc.ack.value))
  }

  /** What a step leaves in place. */
  predicate Continues(s: State, t: State) {
    && Extends(t.log, s.log) && s.acks <= t.acks && |s.deliveries| <= |t.deliveries|
    && forall i :: 0 <= i < |s.deliveries| ==>
         t.deliveries[i].source == s.deliveries[i].source && t.deliveries[i].replay == s.deliveries[i].replay
  }

  lemma DiscardedStays(s: State, t: State, key: string)
    requires Continues(s, t) && WasDiscarded(s, key)
    ensures WasDiscarded(t, key)
  {
    var i, k :| IsDiscarded(s, i, k, key);
    assert IsDiscarded(t, i, k, key);
  }

  lemma AnsweredStays(s: State, t: State, source: Source, proposal: Proposal)
    requires s.acks <= t.acks && IsAnswered(s, source, proposal)
    ensures IsAnswered(t, source, proposal)
  {
    var k :| 0 <= k < |s.acks| && s.acks[k] == Ack(source, proposal);
    assert t.acks[k] == Ack(source, proposal);
  }

  lemma StepContinues(s: State, action: Action)
    ensures Continues(s, Step(s, action))
  {
  }

  lemma StepKeepsAnswers(s: State, action: Action, i: nat)
    requires RearmsAreDiscarded(s) && i < |Step(s, action).deliveries|
    requires Step(s, action).deliveries[i].pc.Acked? && Step(s, action).deliveries[i].pc.ack.Some?
    ensures IsAnswered(Step(s, action), Step(s, action).deliveries[i].source, Step(s, action).deliveries[i].pc.ack.value)
  {
    var t := Step(s, action);
    if i < |s.deliveries| && s.deliveries[i] == t.deliveries[i] {
      AnsweredStays(s, t, s.deliveries[i].source, s.deliveries[i].pc.ack.value);
    } else {
      assert t.acks[|s.acks|] == Ack(t.deliveries[i].source, t.deliveries[i].pc.ack.value);
    }
  }

  lemma StepKeepsDiscarded(s: State, action: Action, key: string)
    requires RearmsAreDiscarded(s) && RearmId(key) in Step(s, action).log
    ensures WasDiscarded(Step(s, action), key)
  {
    var t := Step(s, action);
    StepContinues(s, action);
    if RearmId(key) in s.log {
      DiscardedStays(s, t, key);
    } else {
      var i := action.delivery;
      assert IsAnswered(s, s.deliveries[i].source, s.deliveries[i].pc.ack.value);
      var k :| 0 <= k < |s.acks| && s.acks[k] == Ack(s.deliveries[i].source, s.deliveries[i].pc.ack.value);
      assert IsDiscarded(t, i, k, key);
    }
  }

  lemma {:induction false} ExecKeepsDiscarded(s: State, actions: seq<Action>)
    requires RearmsAreDiscarded(s)
    ensures RearmsAreDiscarded(Exec(s, actions))
    decreases |actions|
  {
    if actions != [] {
      var t := Step(s, actions[0]);
      forall key | RearmId(key) in t.log
        ensures WasDiscarded(t, key)
      {
        StepKeepsDiscarded(s, actions[0], key);
      }
      forall i | 0 <= i < |t.deliveries| && t.deliveries[i].pc.Acked? && t.deliveries[i].pc.ack.Some?
        ensures IsAnswered(t, t.deliveries[i].source, t.deliveries[i].pc.ack.value)
      {
        StepKeepsAnswers(s, actions[0], i);
      }
      ExecKeepsDiscarded(t, actions[1..]);
    }
  }

  /** A suggestion is only made available again by the queue, with the very advice it had given to nobody. */
  lemma OnlyReplaysRearm(actions: seq<Action>, key: string)
    requires RearmId(key) in Exec(EMPTY, actions).log
    ensures exists i, k :: IsDiscarded(Exec(EMPTY, actions), i, k, key)
  {
    ExecKeepsDiscarded(EMPTY, actions);
  }

  /** The latest generation's claim is repeated to its source, whatever is pending or due. */
  lemma OwnClaimIsRepeated(log: Log, source: Source, listing: Listing, advice: Advice)
    requires IsClaimedBy(log, if listing.latest.Some? then Rearm(listing.latest.value) else Initial, source.id, advice)
    ensures RolloverAdvice(log, source, listing)
         == Some(Proposal(if listing.latest.Some? then Rearm(listing.latest.value) else Initial, advice))
  {
  }

  /** Any other source is proposed what is pending, else the first suggestion when the session is due, else nothing. */
  lemma OthersAreProposed(log: Log, source: Source, listing: Listing, key: string, advice: Advice, discardedId: string)
    requires Reports(log, listing) && forall generation, own :: !IsClaimedBy(log, generation, source.id, own)
    ensures (listing.pending == Some(key) && log[RearmId(key)] == PendingReplay(discardedId, advice) ==>
               RolloverAdvice(log, source, listing) == Some(Proposal(Rearm(key), advice)))
    ensures (forall other :: !IsPending(log, other)) && listing.due == Some(advice) ==>
              RolloverAdvice(log, source, listing) == Some(Proposal(Initial, advice))
    ensures (forall other :: !IsPending(log, other)) && listing.due == None ==>
              RolloverAdvice(log, source, listing) == None
  {
    var generation := GenerationOf(listing.latest);
    assert AdviceForSource(log, source, listing.latest).Some? ==>
             IsClaimedBy(log, generation, source.id, log[ClaimId(generation)].advice);
  }

  // ---------------------------------------------------------------- passes of the replay over one record

  /** With a suggestion pending, every read proposes something: its own claim or a pending generation. */
  lemma PendingIsProposed(log: Log, source: Source, listing: Listing, key: string)
    requires Reports(log, listing) && IsPending(log, key)
    ensures RolloverAdvice(log, source, listing).Some?
    ensures AdviceForSource(log, source, listing.latest).None? ==>
              RolloverAdvice(log, source, listing).value.generation.Rearm?
              && IsPending(log, RolloverAdvice(log, source, listing).value.generation.key)
  {
  }

  /** Where a rearm event stands in the listing of the session's events. */
  type Order = string -> real

  /** A read finds the last rearm and the last pending one of the listing. */
  ghost predicate ReportsInOrder(order: Order, log: Log, listing: Listing) {
    && Reports(log, listing)
    && (listing.latest.Some? ==> forall key :: RearmId(key) in log ==> order(key) <= order(listing.latest.value))
    && (listing.pending.Some? ==> forall key :: IsPending(log, key) ==> order(key) <= order(listing.pending.value))
  }

  /** The source holds the claim of the latest generation and was not rearmed itself. */
  ghost predicate OwnsLatest(order: Order, log: Log, source: Source, advice: Advice, latest: Option<string>) {
    && RearmId(source.key) !in log && ClaimId(Rearm(source.key)) !in log
    && IsClaimedBy(log, GenerationOf(latest), source.id, advice)
    && (latest.None? ==> forall key :: RearmId(key) !in log)
    && (latest.Some? ==> RearmId(latest.value) in log
                         && forall key :: RearmId(key) in log && key != latest.value ==> order(key) < order(latest.value))
    && forall key :: RearmId(key) in log ==> order(key) != order(source.key)
  }

  /** The source's own rearm comes after every other one in the listing. */
  predicate SortsLast(order: Order, source: Source, latest: Option<string>) {
    latest.Some? ==> order(latest.value) < order(source.key)
  }

  /** How far the rearm of this source has come. */
  datatype Rearming = NotRearmed | Waiting | Consumed

  function LogAt(base: Log, source: Source, advice: Advice, phase: Rearming): Log {
    match phase
    case NotRearmed => base
    case Waiting => base[RearmId(source.key) := PendingReplay(source.id, advice)]
    case Consumed =>
      base[RearmId(source.key) := PendingReplay(source.id, advice)][ClaimId(Rearm(source.key)) := Claimed(source.id, advice)]
  }

  /** The latest rearm a read reports. */
  function LatestAt(source: Source, latest: Option<string>, last: bool, phase: Rearming): Option<string> {
    if phase == NotRearmed || !last then latest else Some(source.key)
  }

  /** Where a pass stands after `n` steps that began when the rearm had come to `start`. */
  function PassPc(source: Source, advice: Advice, latest: Option<string>, last: bool, start: Rearming, n: nat): Pc {
    var own := Proposal(GenerationOf(LatestAt(source, latest, last, start)), advice);
    if n == 0 then Reading
    else if n == 1 then Claiming(own)
    else if start == Waiting && last then if n == 2 then Acked(Some(own)) else Rearmed
    else if n == 2 then Rereading
    else if n == 3 then Acked(Some(own))
    else Rearmed
  }

  function PassPhase(last: bool, start: Rearming, n: nat): Rearming {
    match start
    case NotRearmed => if n >= 4 then Waiting else NotRearmed
    case Waiting => if last && n >= 2 then Consumed else Waiting
    case Consumed => Consumed
  }

  /** A session before any pass of the replay, and how its rearm will be listed. */
  datatype Session = Session(base: Log, source: Source, advice: Advice, latest: Option<string>, order: Order) {
    ghost predicate Valid() {
      OwnsLatest(order, base, source, advice, latest)
    }

    predicate Last() {
      SortsLast(order, source, latest)
    }

    function At(phase: Rearming): Log {
      LogAt(base, source, advice, phase)
    }

    function Pc(start: Rearming, n: nat): Pc {
      PassPc(source, advice, latest, Last(), start, n)
    }
  }

  /** Delivery `i`, a pass of the replay, has made `n` steps. */
  predicate IsPass(x: Session, s: State, i: nat, start: Rearming, n: nat) {
    && (start == Consumed ==> x.Last())
    && i < |s.deliveries| && s.deliveries[i] == Delivery(x.source, true, x.Pc(start, n))
    && s.log == x.At(PassPhase(x.Last(), start, n))
  }

  lemma LatestIsReported(x: Session, phase: Rearming, listing: Listing)
    requires x.Valid() && (phase == Consumed ==> x.Last()) && ReportsInOrder(x.order, x.At(phase), listing)
    ensures listing.latest == LatestAt(x.source, x.latest, x.Last(), phase)
  {
    var log := x.At(phase);
    assert phase != NotRearmed ==> RearmId(x.source.key) in log;
    assert x.latest.Some? ==> RearmId(x.latest.value) in log;
  }

  lemma PendingIsReported(x: Session, listing: Listing)
    requires x.Valid() && x.Last() && ReportsInOrder(x.order, x.At(Waiting), listing)
    ensures listing.pending == Some(x.source.key)
  {
    assert IsPending(x.At(Waiting), x.source.key);
  }

  lemma PassReads(x: Session, s: State, i: nat, start: Rearming, listing: Listing)
    requires x.Valid() && IsPass(x, s, i, start, 0) && ReportsInOrder(x.order, s.log, listing)
    ensures IsPass(x, Advanced(s, i, listing), i, start, 1)
  {
    LatestIsReported(x, start, listing);
    if start == Waiting && x.Last() {
      PendingIsReported(x, listing);
      PendingIsProposed(s.log, x.source, listing, x.source.key);
    }
  }

  lemma PassSteps(x: Session, s: State, i: nat, start: Rearming, n: nat, listing: Listing)
    requires x.Valid() && IsPass(x, s, i, start, n) && ReportsInOrder(x.order, s.log, listing)
    ensures IsPass(x, Advanced(s, i, listing), i, start, n + 1)
  {
    if n == 0 {
      PassReads(x, s, i, start, listing);
    } else {
      LatestIsReported(x, PassPhase(x.Last(), start, n), listing);
    }
  }

  /** `t` comes from `s` by advancing delivery `i` at most `n` times, each with what a read reports then. */
  ghost predicate Advances(order: Order, s: State, i: nat, n: nat, t: State)
    requires i < |s.deliveries|
    decreases n
  {
    if n == 0 then s == t
    else exists listing :: ReportsInOrder(order, s.log, listing) && Advances(order, Advanced(s, i, listing), i, n - 1, t)
  }

  lemma FirstAdvance(order: Order, s: State, i: nat, n: nat, t: State) returns (listing: Listing)
    requires i < |s.deliveries| && n > 0 && Advances(order, s, i, n, t)
    ensures ReportsInOrder(order, s.log, listing) && Advances(order, Advanced(s, i, listing), i, n - 1, t)
  {
    listing :| ReportsInOrder(order, s.log, listing) && Advances(order, Advanced(s, i, listing), i, n - 1, t);
  }

  lemma FirstPassStep(x: Session, s: State, i: nat, start: Rearming, m: nat, n: nat, t: State) returns (next: State)
    requires x.Valid() && IsPass(x, s, i, start, m) && n > 0 && Advances(x.order, s, i, n, t)
    ensures IsPass(x, next, i, start, m + 1) && Advances(x.order, next, i, n - 1, t)
  {
    var listing := FirstAdvance(x.order, s, i, n, t);
    PassSteps(x, s, i, start, m, listing);
    next := Advanced(s, i, listing);
  }

  lemma {:induction false} PassAdvances(x: Session, s: State, i: nat, start: Rearming, m: nat, n: nat, t: State)
    requires x.Valid() && IsPass(x, s, i, start, m) && Advances(x.order, s, i, n, t)
    ensures IsPass(x, t, i, start, m + n)
    decreases n
  {
    if n > 0 {
      var next := FirstPassStep(x, s, i, start, m, n, t);
      PassAdvances(x, next, i, start, m + 1, n - 1, t);
      assert m + 1 + (n - 1) == m + n;
    }
  }

  /** `t` comes from `s` by passes of the replay over the record, the k-th stopping after `steps[k]` steps. */
  ghost predicate Passes(order: Order, s: State, source: Source, steps: seq<nat>, t: State)
    decreases |steps|
  {
    if steps == [] then s == t
    else exists next :: Advances(order, Step(s, Deliver(source, true)), |s.deliveries|, steps[0], next)
                        && Passes(order, next, source, steps[1..], t)
  }

  /** How far the rearm comes over passes with these numbers of steps. */
  function PhaseAfter(last: bool, start: Rearming, steps: seq<nat>): Rearming
    decreases |steps|
  {
    if steps == [] then start else PhaseAfter(last, PassPhase(last, start, steps[0]), steps[1..])
  }

  lemma {:induction false} PassesCome(x: Session, s: State, start: Rearming, steps: seq<nat>, t: State)
    requires x.Valid() && (start == Consumed ==> x.Last())
    requires s.log == x.At(start) && Passes(x.order, s, x.source, steps, t)
    ensures t.log == x.At(PhaseAfter(x.Last(), start, steps))
    decreases |steps|
  {
    if steps != [] {
      var delivered := Step(s, Deliver(x.source, true));
      var next :| Advances(x.order, delivered, |s.deliveries|, steps[0], next) && Passes(x.order, next, x.source, steps[1..], t);
      PassAdvances(x, delivered, |s.deliveries|, start, 0, steps[0], next);
      PassesCome(x, next, PassPhase(x.Last(), start, steps[0]), steps[1..], t);
    }
  }

  /** Steps after which a pass has rearmed, when nothing was rearmed before it. */
  const REARMS := 4

  /** Steps after which a pass has claimed a generation that was pending. */
  const CLAIMS := 2

  /** One pass rearms, none before it did, and none after it gets as far as a claim. */
  ghost predicate OnlyOneGotThrough(steps: seq<nat>) {
    exists k :: 0 <= k < |steps| && GotThroughAlone(steps, k)
  }

  predicate GotThroughAlone(steps: seq<nat>, k: nat)
    requires k < |steps|
  {
    steps[k] >= REARMS && (forall j :: 0 <= j < k ==> steps[j] < REARMS) && (forall j :: k < j < |steps| ==> steps[j] < CLAIMS)
  }

  lemma {:induction false} WaitingStaysIff(steps: seq<nat>)
    ensures PhaseAfter(true, Waiting, steps) == if forall j :: 0 <= j < |steps| ==> steps[j] < CLAIMS then Waiting else Consumed
    ensures PhaseAfter(true, Consumed, steps) == Consumed
    decreases |steps|
  {
    if steps != [] {
      WaitingStaysIff(steps[1..]);
      assert (forall j :: 0 <= j < |steps| ==> steps[j] < CLAIMS) <==>
             steps[0] < CLAIMS && forall j :: 0 <= j < |steps[1..]| ==> steps[1..][j] < CLAIMS;
    }
  }

  lemma {:induction false} WaitingIffOnlyOne(steps: seq<nat>)
    ensures PhaseAfter(true, NotRearmed, steps) == Waiting <==> OnlyOneGotThrough(steps)
    ensures PhaseAfter(true, NotRearmed, steps) == NotRearmed <==> forall j :: 0 <= j < |steps| ==> steps[j] < REARMS
    decreases |steps|
  {
    if steps != [] {
      var rest := steps[1..];
      if steps[0] >= REARMS {
        WaitingStaysIff(rest);
        assert GotThroughAlone(steps, 0) <==> forall j :: 0 <= j < |rest| ==> rest[j] < CLAIMS by {
          assert forall j :: 0 <= j < |rest| ==> rest[j] == steps[j + 1];
          assert forall j :: 0 < j < |steps| ==> steps[j] == rest[j - 1];
        }
      } else {
        WaitingIffOnlyOne(rest);
        LaterPass(steps);
      }
    }
  }

  /** Where another rearm is listed after it, the source's own one is never consumed. */
  lemma {:induction false} EarlierRearmWaits(start: Rearming, steps: seq<nat>)
    requires start != Consumed
    ensures PhaseAfter(false, start, steps)
            == if start == Waiting || exists j :: 0 <= j < |steps| && steps[j] >= REARMS then Waiting else NotRearmed
    decreases |steps|
  {
    if steps != [] {
      EarlierRearmWaits(PassPhase(false, start, steps[0]), steps[1..]);
      assert forall j :: 0 < j < |steps| ==> steps[j] == steps[1..][j - 1];
    }
  }

  lemma LaterPass(steps: seq<nat>)
    requires steps != [] && steps[0] < REARMS
    ensures OnlyOneGotThrough(steps) <==> OnlyOneGotThrough(steps[1..])
    ensures (forall j :: 0 <= j < |steps| ==> steps[j] < REARMS) <==> forall j :: 0 <= j < |steps[1..]| ==> steps[1..][j] < REARMS
  {
    var rest := steps[1..];
    assert forall j :: 0 <= j < |rest| ==> rest[j] == steps[j + 1];
    if k :| 0 <= k < |steps| && GotThroughAlone(steps, k) {
      assert GotThroughAlone(rest, k - 1);
    }
    if k :| 0 <= k < |rest| && GotThroughAlone(rest, k) {
      assert forall j :: 0 < j < |steps| ==> steps[j] == rest[j - 1];
      assert GotThroughAlone(steps, k + 1);
    }
  }

  /**
   * The replay of one record whose source holds the latest claim but never received the advice, interrupted and
   * repeated any number of times with nothing else moving. Where its rearm is listed last, a suggestion is left to
   * be given again exactly when one pass rearmed it and no later pass came as far as claiming; once another did, the
   * record's own source holds the claim. Where another rearm is listed after it, it waits as soon as a pass rearmed.
   */
  lemma RepeatedReplayLeavesPendingIff(x: Session, s: State, steps: seq<nat>, t: State)
    requires x.Valid() && s.log == x.base && Passes(x.order, s, x.source, steps, t)
    ensures IsPending(t.log, x.source.key)
            <==> if x.Last() then OnlyOneGotThrough(steps) else exists j :: 0 <= j < |steps| && steps[j] >= REARMS
    ensures forall key :: key != x.source.key ==> (IsPending(t.log, key) <==> IsPending(s.log, key))
    ensures (exists j :: 0 <= j < |steps| && steps[j] >= REARMS) && !IsPending(t.log, x.source.key) ==>
              IsClaimedBy(t.log, Rearm(x.source.key), x.source.id, x.advice)
  {
    PassesCome(x, s, NotRearmed, steps, t);
    if x.Last() {
      WaitingIffOnlyOne(steps);
    } else {
      EarlierRearmWaits(NotRearmed, steps);
    }
  }

  /** After the last pass has run to its end and the file is gone, it was the only one to rearm, or nothing of it is pending. */
  lemma FinishedReplayLeavesPendingIff(x: Session, s: State, earlier: seq<nat>, last: nat, t: State)
    requires x.Valid() && x.Last() && s.log == x.base
    requires last >= REARMS && Passes(x.order, s, x.source, earlier + [last], t)
    ensures IsPending(t.log, x.source.key) <==> forall k :: 0 <= k < |earlier| ==> earlier[k] < REARMS
  {
    var steps := earlier + [last];
    RepeatedReplayLeavesPendingIff(x, s, steps, t);
    assert steps[|earlier|] == last;
    assert forall k :: 0 <= k < |earlier| ==> steps[k] == earlier[k];
    if forall k :: 0 <= k < |earlier| ==> earlier[k] < REARMS {
      assert GotThroughAlone(steps, |earlier|);
    }
    if k :| 0 <= k < |steps| && GotThroughAlone(steps, k) {
      assert k == |earlier|;
    }
  }

  /** With none pending and the session not due, a source without a claim of its own is given nothing. */
  lemma StandingSuggestionIsNotRepeated(log: Log, source: Source, listing: Listing)
    requires Reports(log, listing) && listing.due.None?
    requires forall key :: !IsPending(log, key)
    requires forall generation :: ClaimId(generation) in log ==> log[ClaimId(generation)].Claimed? && log[ClaimId(generation)].sourceId != source.id
    ensures RolloverAdvice(log, source, listing).None?
  {
  }

  /** So once its own rearm is consumed, the suggestion reaches no other source until the session is due again. */
  lemma ConsumedSuggestionReachesNobody(x: Session, other: Source, listing: Listing)
    requires x.Valid() && Reports(x.At(Consumed), listing) && listing.due.None?
    requires other.id != x.source.id && forall key :: !IsPending(x.base, key)
    requires forall generation :: ClaimId(generation) in x.base ==>
               x.base[ClaimId(generation)].Claimed? && x.base[ClaimId(generation)].sourceId != other.id
    ensures RolloverAdvice(x.At(Consumed), other, listing).None?
  {
    forall key
      ensures !IsPending(x.At(Consumed), key)
    {
      assert !IsPending(x.base, key);
    }
    StandingSuggestionIsNotRepeated(x.At(Consumed), other, listing);
  }

  lemma {:induction false} ExecOneMore(s: State, actions: seq<Action>, action: Action)
    ensures Exec(s, actions + [action]) == Step(Exec(s, actions), action)
    decreases |actions|
  {
    if actions == [] {
      assert actions + [action] == [action] && [action][1..] == [];
    } else {
      assert (actions + [action])[1..] == actions[1..] + [action];
      ExecOneMore(Step(s, actions[0]), actions[1..], action);
    }
  }

  /** A run continued by one action. */
  lemma Act(s: State, actions: seq<Action>, action: Action) returns (next: State, longer: seq<Action>)
    requires Exec(EMPTY, actions) == s
    ensures Exec(EMPTY, longer) == next && next == Step(s, action)
  {
    longer := actions + [action];
    next := Step(s, action);
    ExecOneMore(EMPTY, actions, action);
  }

  /** A live prompt of a session that is due claims the first suggestion. */
  lemma LiveClaim(source: Source, advice: Advice) returns (s: State, actions: seq<Action>)
    ensures Exec(EMPTY, actions) == s && |s.deliveries| == 1 && !s.deliveries[0].replay
    ensures s.log == map[ClaimId(Initial) := Claimed(source.id, advice)]
  {
    s, actions := Act(EMPTY, [], Deliver(source, false));
    s, actions := Act(s, actions, Advance(0, Listing(None, None, Some(advice))));
    assert s.deliveries[0].pc == Claiming(Proposal(Initial, advice)) && s.log == map[];
    s, actions := Act(s, actions, Advance(0, Listing(None, None, None)));
  }

  /** The queue delivers the same prompt again, finds its claim and rearms the suggestion. */
  lemma ReplayRearms(source: Source, advice: Advice) returns (s: State, actions: seq<Action>)
    ensures Exec(EMPTY, actions) == s && |s.deliveries| == 2
    ensures !s.deliveries[0].replay && s.deliveries[1].pc.Rearmed?
    ensures s.log == map[ClaimId(Initial) := Claimed(source.id, advice), RearmId(source.key) := PendingReplay(source.id, advice)]
  {
    s, actions := LiveClaim(source, advice);
    var listing := Listing(None, None, None);
    s, actions := Act(s, actions, Deliver(source, true));
    s, actions := Act(s, actions, Advance(1, listing));
    assert s.deliveries[1].pc == Claiming(Proposal(Initial, advice));
    s, actions := Act(s, actions, Advance(1, listing));
    assert s.deliveries[1].pc == Rereading;
    s, actions := Act(s, actions, Advance(1, listing));
    assert s.deliveries[1].pc == Acked(Some(Proposal(Initial, advice)));
    s, actions := Act(s, actions, Advance(1, listing));
  }

  /**
   * A replay that stops before its file is removed is repeated, claims the generation it opened itself and
   * cannot open another: the suggestion stands as given although nobody received it.
   */
  lemma InterruptedReplayConsumesItsRearm(source: Source, advice: Advice) returns (s: State, actions: seq<Action>)
    ensures Exec(EMPTY, actions) == s
    ensures IsClaimedBy(s.log, Rearm(source.key), source.id, advice)
    ensures forall key :: !IsPending(s.log, key)
    ensures forall k :: 0 <= k < |s.deliveries| && s.deliveries[k].replay ==> s.deliveries[k].pc.Rearmed?
  {
    s, actions := ReplayRearms(source, advice);
    var before := s.deliveries;
    var listing := Listing(Some(source.key), Some(source.key), None);
    s, actions := Act(s, actions, Deliver(source, true));
    s, actions := Act(s, actions, Advance(2, listing));
    assert s.deliveries[2].pc == Claiming(Proposal(Rearm(source.key), advice));
    s, actions := Act(s, actions, Advance(2, listing));
    assert s.deliveries[2].pc == Acked(Some(Proposal(Rearm(source.key), advice)));
    s, actions := Act(s, actions, Advance(2, Listing(Some(source.key), None, None)));
  }
}
