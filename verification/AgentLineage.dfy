/**
 The parent-to-child task propagation of `collect_agent_lineage` in `src/app_server.rs`:
 at most as many rounds as there are agents, in place, each round reading the links that
 existed when it began.
 */
module AgentLineage {
  import opened Wrappers

  datatype Association = Linked | Unlinked | Degraded

  datatype Agent = Agent(threadId: string, parent: Option<string>, task: Option<string>,
                         association: Association, degradedReason: Option<string>)

  ghost predicate DistinctThreads(agents: seq<Agent>) {
    forall i, j :: 0 <= i < j < |agents| ==> agents[i].threadId != agents[j].threadId
  }

  // ---------------------------------------------------------------- what a link means

  /** The observed agent with the given thread id. */
  ghost function IndexOf(agents: seq<Agent>, id: string): (r: Option<nat>)
    ensures r.Some? ==> r.value < |agents| && agents[r.value].threadId == id
    ensures r.None? ==> forall j :: 0 <= j < |agents| ==> agents[j].threadId != id
  {
    if agents == [] then None
    else if agents[|agents| - 1].threadId == id then Some(|agents| - 1)
    else IndexOf(agents[..|agents| - 1], id)
  }

  ghost function ParentOf(agents: seq<Agent>, i: nat): (r: Option<nat>)
    requires i < |agents|
    ensures r.Some? ==> r.value < |agents|
  {
    if agents[i].parent.None? then None else IndexOf(agents, agents[i].parent.value)
  }

  /**
   A chain of observed parents from an agent to the first of its ancestors (or itself) that
   was linked from the start.
   */
  ghost predicate ChainToLinked(agents: seq<Agent>, chain: seq<nat>) {
    && chain != []
    && (forall k :: 0 <= k < |chain| ==> chain[k] < |agents|)
    && (forall k :: 0 <= k < |chain| - 1 ==>
          agents[chain[k]].task.None? && ParentOf(agents, chain[k]) == Some(chain[k + 1]))
    && agents[chain[|chain| - 1]].task.Some?
  }

  ghost predicate InheritsTask(agents: seq<Agent>, i: nat, task: string) {
    exists chain :: ChainToLinked(agents, chain) && chain[0] == i
                    && agents[chain[|chain| - 1]].task == Some(task)
  }

  /** The task found within a number of parent hops. */
  ghost function Lookup(agents: seq<Agent>, i: nat, hops: nat): Option<string>
    requires i < |agents|
    decreases hops
  {
    if agents[i].task.Some? then agents[i].task
    else if hops == 0 || ParentOf(agents, i).None? then None
    else Lookup(agents, ParentOf(agents, i).value, hops - 1)
  }

  lemma {:induction false} LookupIsMonotone(agents: seq<Agent>, i: nat, hops: nat)
    requires i < |agents| && Lookup(agents, i, hops).Some?
    ensures Lookup(agents, i, hops + 1) == Lookup(agents, i, hops)
    decreases hops
  {
    if agents[i].task.None? {
      LookupIsMonotone(agents, ParentOf(agents, i).value, hops - 1);
    }
  }

  ghost predicate SameWithOneMore(agents: seq<Agent>, i: nat, hops: nat)
    requires i < |agents|
  {
    Lookup(agents, i, hops + 1) == Lookup(agents, i, hops)
  }

  ghost predicate Settled(agents: seq<Agent>, hops: nat) {
    forall i :: 0 <= i < |agents| ==> SameWithOneMore(agents, i, hops)
  }

  lemma {:induction false} SettledStays(agents: seq<Agent>, hops: nat, more: nat)
    requires Settled(agents, hops)
    ensures forall i :: 0 <= i < |agents| ==> Lookup(agents, i, hops + more) == Lookup(agents, i, hops)
    decreases more
  {
    if more > 0 {
      SettledStays(agents, hops, more - 1);
      forall i | 0 <= i < |agents|
        ensures Lookup(agents, i, hops + more) == Lookup(agents, i, hops)
      {
        assert SameWithOneMore(agents, i, hops);
        if agents[i].task.None? && ParentOf(agents, i).Some? {
          var p := ParentOf(agents, i).value;
          assert SameWithOneMore(agents, p, hops);
        }
      }
    }
  }

  lemma {:induction false} ChainGivesLookup(agents: seq<Agent>, chain: seq<nat>)
    requires ChainToLinked(agents, chain)
    ensures Lookup(agents, chain[0], |chain| - 1) == agents[chain[|chain| - 1]].task
    decreases |chain|
  {
    if |chain| > 1 {
      var rest := chain[1..];
      assert forall k :: 0 <= k < |rest| ==> rest[k] == chain[k + 1];
      ChainGivesLookup(agents, rest);
      assert ParentOf(agents, chain[0]) == Some(chain[1]);
    }
  }

  lemma {:induction false} LookupGivesChain(agents: seq<Agent>, i: nat, hops: nat) returns (chain: seq<nat>)
    requires i < |agents| && Lookup(agents, i, hops).Some?
    ensures ChainToLinked(agents, chain) && chain[0] == i
    ensures agents[chain[|chain| - 1]].task == Lookup(agents, i, hops)
    decreases hops
  {
    if agents[i].task.Some? {
      chain := [i];
    } else {
      var rest := LookupGivesChain(agents, ParentOf(agents, i).value, hops - 1);
      chain := [i] + rest;
    }
  }

  /** Once looking further changes nothing, a lookup finds exactly the inherited tasks. */
  lemma SettledLookupIsInheritance(agents: seq<Agent>, i: nat, hops: nat, task: string)
    requires i < |agents| && Settled(agents, hops)
    ensures Lookup(agents, i, hops) == Some(task) <==> InheritsTask(agents, i, task)
  {
    if Lookup(agents, i, hops) == Some(task) {
      var chain := LookupGivesChain(agents, i, hops);
    }
    if InheritsTask(agents, i, task) {
      var chain :| ChainToLinked(agents, chain) && chain[0] == i && agents[chain[|chain| - 1]].task == Some(task);
      ChainGivesLookup(agents, chain);
      if hops <= |chain| - 1 {
        SettledStays(agents, hops, |chain| - 1 - hops);
      } else {
        LookupStaysFound(agents, i, |chain| - 1, hops);
      }
    }
  }

  lemma {:induction false} LookupStaysFound(agents: seq<Agent>, i: nat, hops: nat, later: nat)
    requires i < |agents| && hops <= later && Lookup(agents, i, hops).Some?
    ensures Lookup(agents, i, later) == Lookup(agents, i, hops)
    decreases later - hops
  {
    if hops < later {
      LookupIsMonotone(agents, i, hops);
      LookupStaysFound(agents, i, hops + 1, later);
    }
  }

  /** Agents whose parents lead only to one another, all unlinked, inherit nothing. */
  lemma {:induction false} UnlinkedCycleInheritsNothing(agents: seq<Agent>, cycle: set<nat>, i: nat, hops: nat)
    requires i in cycle
    requires forall c :: c in cycle ==>
               c < |agents| && agents[c].task.None?
               && (ParentOf(agents, c).Some? ==> ParentOf(agents, c).value in cycle)
    ensures Lookup(agents, i, hops).None?
    ensures forall task :: !InheritsTask(agents, i, task)
    decreases hops
  {
    if hops > 0 && ParentOf(agents, i).Some? {
      UnlinkedCycleInheritsNothing(agents, cycle, ParentOf(agents, i).value, hops - 1);
    }
    forall task | InheritsTask(agents, i, task)
      ensures false
    {
      var chain :| ChainToLinked(agents, chain) && chain[0] == i;
      CycleContainsChain(agents, cycle, chain, |chain| - 1);
    }
  }

  lemma {:induction false} CycleContainsChain(agents: seq<Agent>, cycle: set<nat>, chain: seq<nat>, k: nat)
    requires ChainToLinked(agents, chain) && chain[0] in cycle && k < |chain|
    requires forall c :: c in cycle ==>
               c < |agents| && agents[c].task.None?
               && (ParentOf(agents, c).Some? ==> ParentOf(agents, c).value in cycle)
    ensures chain[k] in cycle
    decreases k
  {
    if k > 0 {
      CycleContainsChain(agents, cycle, chain, k - 1);
      assert ParentOf(agents, chain[k - 1]) == Some(chain[k]);
    }
  }

  // ---------------------------------------------------------------- the rounds

  /** An agent after a number of rounds. */
  ghost function After(agents: seq<Agent>, i: nat, rounds: nat): Agent
    requires i < |agents|
  {
    var found := Lookup(agents, i, rounds);
    if agents[i].task.Some? || found.None? then agents[i]
    else agents[i].(task := found, association := Linked, degradedReason := None)
  }

  ghost function UnlinkedAfter(agents: seq<Agent>, rounds: nat): set<nat> {
    set i: nat | i < |agents| && Lookup(agents, i, rounds).None?
  }

  ghost function Indices(n: nat): (r: set<nat>)
    ensures |r| == n
    ensures forall i: nat :: i in r <==> i < n
  {
    if n == 0 then {} else Indices(n - 1) + {n - 1}
  }

  lemma ProperSubsetIsSmaller<T>(a: set<T>, b: set<T>)
    requires a < b
    ensures |a| < |b|
  {
    assert b == a + (b - a) && b - a != {};
    assert |b| == |a| + |b - a|;
  }

  lemma UnlinkedOnlyShrinks(agents: seq<Agent>, rounds: nat)
    ensures UnlinkedAfter(agents, rounds + 1) <= UnlinkedAfter(agents, rounds)
    ensures Settled(agents, rounds) || |UnlinkedAfter(agents, rounds + 1)| < |UnlinkedAfter(agents, rounds)|
  {
    forall i | i in UnlinkedAfter(agents, rounds + 1)
      ensures i in UnlinkedAfter(agents, rounds)
    {
      if Lookup(agents, i, rounds).Some? {
        LookupIsMonotone(agents, i, rounds);
      }
    }
    if !Settled(agents, rounds) {
      var i :| 0 <= i < |agents| && !SameWithOneMore(agents, i, rounds);
      if Lookup(agents, i, rounds).Some? {
        LookupIsMonotone(agents, i, rounds);
      }
      assert i in UnlinkedAfter(agents, rounds) && i !in UnlinkedAfter(agents, rounds + 1);
      ProperSubsetIsSmaller(UnlinkedAfter(agents, rounds + 1), UnlinkedAfter(agents, rounds));
    }
  }

  /** The thread-to-task map a round starts from. */
  method CollectLinked(observed: array<Agent>) returns (linked: map<string, string>)
    requires DistinctThreads(observed[..])
    ensures forall id :: id in linked <==>
              exists j :: 0 <= j < observed.Length && observed[j].threadId == id && observed[j].task.Some?
    ensures forall j :: 0 <= j < observed.Length && observed[j].task.Some? ==>
              observed[j].threadId in linked && linked[observed[j].threadId] == observed[j].task.value
  {
    linked := map[];
    for k := 0 to observed.Length
      invariant forall id :: id in linked <==>
                  exists j :: 0 <= j < k && observed[j].threadId == id && observed[j].task.Some?
      invariant forall j :: 0 <= j < k && observed[j].task.Some? ==>
                  observed[j].threadId in linked && linked[observed[j].threadId] == observed[j].task.value
    {
      var agent := observed[k];
      assert forall j :: 0 <= j < k ==> observed[..][j].threadId != observed[..][k].threadId;
      if agent.task.Some? {
        linked := linked[agent.threadId := agent.task.value];
      }
    }
  }

  /** What the map holds for an agent's parent is what one more hop finds. */
  lemma ParentLinkIsOneMoreHop(agents: seq<Agent>, now: seq<Agent>, linked: map<string, string>, i: nat, rounds: nat)
    requires |now| == |agents| && i < |agents| && agents[i].task.None?
    requires forall j :: 0 <= j < |agents| ==> now[j] == After(agents, j, rounds)
    requires forall id :: id in linked <==>
               exists j :: 0 <= j < |now| && now[j].threadId == id && now[j].task.Some?
    requires forall j :: 0 <= j < |now| && now[j].task.Some? ==>
               now[j].threadId in linked && linked[now[j].threadId] == now[j].task.value
    requires DistinctThreads(agents)
    ensures var parent := agents[i].parent;
            Lookup(agents, i, rounds + 1)
            == if parent.Some? && parent.value in linked then Some(linked[parent.value]) else None
  {
    var parent := agents[i].parent;
    if parent.Some? {
      var p := ParentOf(agents, i);
      if p.Some? {
        assert now[p.value].threadId == parent.value;
        assert now[p.value].task == Lookup(agents, p.value, rounds);
        if parent.value in linked {
          var j :| 0 <= j < |now| && now[j].threadId == parent.value && now[j].task.Some?;
          assert agents[j].threadId == agents[p.value].threadId;
          assert j == p.value;
        }
      } else {
        assert forall j :: 0 <= j < |now| ==> now[j].threadId == agents[j].threadId;
      }
    }
  }

  method PropagateOnce(observed: array<Agent>, linked: map<string, string>,
                       ghost initial: seq<Agent>, ghost rounds: nat)
    returns (changed: bool)
    requires observed.Length == |initial| && DistinctThreads(initial)
    requires forall i :: 0 <= i < |initial| ==> observed[i] == After(initial, i, rounds)
    requires forall i :: 0 <= i < |initial| && initial[i].task.None? ==>
               Lookup(initial, i, rounds + 1)
               == if initial[i].parent.Some? && initial[i].parent.value in linked
                  then Some(linked[initial[i].parent.value]) else None
    modifies observed
    ensures forall i :: 0 <= i < |initial| ==> observed[i] == After(initial, i, rounds + 1)
    ensures changed <==> !Settled(initial, rounds)
  {
    changed := false;
    for k := 0 to observed.Length
      invariant forall i :: 0 <= i < k ==> observed[i] == After(initial, i, rounds + 1)
      invariant forall i :: k <= i < |initial| ==> observed[i] == After(initial, i, rounds)
      invariant changed <==> exists i :: 0 <= i < k && !SameWithOneMore(initial, i, rounds)
    {
      var agent := observed[k];
      assert agent.task == Lookup(initial, k, rounds);
      if agent.task.Some? {
        LookupIsMonotone(initial, k, rounds);
        assert SameWithOneMore(initial, k, rounds);
        continue;
      }
      if agent.parent.Some? && agent.parent.value in linked {
        observed[k] := agent.(task := Some(linked[agent.parent.value]), association := Linked, degradedReason := None);
        changed := true;
        assert !SameWithOneMore(initial, k, rounds);
      } else {
        assert SameWithOneMore(initial, k, rounds);
      }
    }
  }

  /** One round: the links are collected first and only then followed. */
  method Round(observed: array<Agent>, ghost initial: seq<Agent>, ghost rounds: nat) returns (changed: bool)
    requires observed.Length == |initial| && DistinctThreads(initial)
    requires forall i :: 0 <= i < |initial| ==> observed[i] == After(initial, i, rounds)
    modifies observed
    ensures forall i :: 0 <= i < |initial| ==> observed[i] == After(initial, i, rounds + 1)
    ensures changed <==> !Settled(initial, rounds)
  {
    ghost var now := observed[..];
    AfterKeepsThreads(initial, now, rounds);
    var linked := CollectLinked(observed);
    forall i | 0 <= i < |initial| && initial[i].task.None?
      ensures Lookup(initial, i, rounds + 1)
           == if initial[i].parent.Some? && initial[i].parent.value in linked
              then Some(linked[initial[i].parent.value]) else None
    {
      ParentLinkIsOneMoreHop(initial, now, linked, i, rounds);
    }
    changed := PropagateOnce(observed, linked, initial, rounds);
  }

  lemma AfterKeepsThreads(agents: seq<Agent>, now: seq<Agent>, rounds: nat)
    requires |now| == |agents| && DistinctThreads(agents)
    requires forall i :: 0 <= i < |agents| ==> now[i] == After(agents, i, rounds)
    ensures DistinctThreads(now)
  {
    assert forall i :: 0 <= i < |agents| ==> now[i].threadId == agents[i].threadId;
  }

  /** The rounds, at most one per agent, end where a further one would change nothing. */
  method RunRounds(observed: array<Agent>) returns (ghost rounds: nat)
    requires DistinctThreads(observed[..])
    modifies observed
    ensures Settled(old(observed[..]), rounds)
    ensures forall i :: 0 <= i < observed.Length ==> observed[i] == After(old(observed[..]), i, rounds)
  {
    ghost var initial := observed[..];
    rounds := 0;
    SubsetIsNotLarger(UnlinkedAfter(initial, 0), Indices(|initial|));
    for k := 0 to observed.Length
      invariant rounds == k
      invariant forall i :: 0 <= i < |initial| ==> observed[i] == After(initial, i, rounds)
      invariant |UnlinkedAfter(initial, rounds)| <= |initial| - k
    {
      UnlinkedOnlyShrinks(initial, rounds);
      var changed := Round(observed, initial, rounds);
      if !changed {
        SettledIsStable(initial, rounds);
        return;
      }
      rounds := rounds + 1;
    }
    assert UnlinkedAfter(initial, rounds) == {};
    AllLinkedIsSettled(initial, rounds);
  }

  lemma SettledIsStable(agents: seq<Agent>, rounds: nat)
    requires Settled(agents, rounds)
    ensures forall i :: 0 <= i < |agents| ==> After(agents, i, rounds + 1) == After(agents, i, rounds)
  {
    forall i | 0 <= i < |agents|
      ensures After(agents, i, rounds + 1) == After(agents, i, rounds)
    {
      assert SameWithOneMore(agents, i, rounds);
    }
  }

  /**
   When the propagation stops, an agent carries a task exactly when its chain of observed
   parents reaches an initially linked agent, and it is the nearest such ancestor's task.
   Nothing else about any agent changes.
   */
  method ResolveLineage(observed: array<Agent>)
    requires DistinctThreads(observed[..])
    modifies observed
    ensures forall i, task :: 0 <= i < observed.Length ==>
              (observed[i].task == Some(task) <==> InheritsTask(old(observed[..]), i, task))
    ensures forall i :: 0 <= i < observed.Length ==>
              observed[i] == if old(observed[i]).task.Some? || observed[i].task.None? then old(observed[i])
                             else old(observed[i]).(task := observed[i].task, association := Linked, degradedReason := None)
  {
    ghost var initial := observed[..];
    ghost var rounds := RunRounds(observed);
    forall i, task | 0 <= i < observed.Length
      ensures observed[i].task == Some(task) <==> InheritsTask(initial, i, task)
    {
      SettledLookupIsInheritance(initial, i, rounds, task);
    }
  }

  lemma SubsetIsNotLarger<T>(a: set<T>, b: set<T>)
    requires a <= b
    ensures |a| <= |b|
  {
    if a != b {
      ProperSubsetIsSmaller(a, b);
    }
  }

  lemma AllLinkedIsSettled(agents: seq<Agent>, rounds: nat)
    requires UnlinkedAfter(agents, rounds) == {}
    ensures Settled(agents, rounds)
  {
    forall i | 0 <= i < |agents|
      ensures SameWithOneMore(agents, i, rounds)
    {
      assert i !in UnlinkedAfter(agents, rounds);
      LookupIsMonotone(agents, i, rounds);
    }
  }
}
