/**
 * The evaluations of regression contracts: how required tests get their state from observed runs and
 * from earlier evaluations, by the hook and by the hand-off of a rollover, and when a Stop is blocked.
 */
module ContractEvidence {
  import opened Projection
  import opened Wrappers

  datatype TestState = Missing | Stale | Failed | Passed

  datatype TestStatus = TestPassed | TestFailed | TestSkipped | TestUnknown

  datatype Argv = Argv(program: string, args: seq<string>, directory: string)

  datatype RequiredTest = RequiredTest(contractId: string, testId: string, argv: Argv, state: TestState, detail: Option<string>)

  /** The repository, the task and the content an evaluation speaks about. */
  datatype Scope = Scope(repository: string, task: Option<string>, fingerprint: string)

  datatype Evaluation = Evaluation(id: string, scope: Scope, relevant: set<string>, tests: seq<RequiredTest>,
                                   ready: bool, issued: bool)

  /** The test run a hook event carries, with its normalized command. */
  datatype ObservedRun = ObservedRun(argv: Argv, status: TestStatus, summary: Option<string>)

  const OLDER_CONTENT := "the test passed before the latest related content fingerprint"
  const UNVERIFIABLE := "the passing test did not include a verifiable execution-time fingerprint"
  const CHANGED := "the relevant content fingerprint changed after the last successful run"

  /** The hook recognizes a test by its command line, the hand-off also by contract and test id. */
  datatype Matching = ByArgv | ByIds

  predicate SameTest(how: Matching, left: RequiredTest, right: RequiredTest) {
    left.argv == right.argv && (how == ByIds ==> left.contractId == right.contractId && left.testId == right.testId)
  }

  predicate SameTask(left: Scope, right: Scope) {
    left.repository == right.repository && left.task == right.task
  }

  predicate IsDecided(state: TestState) {
    state == Passed || state == Failed
  }

  function FirstMatch(how: Matching, tests: seq<RequiredTest>, required: RequiredTest): (r: Option<RequiredTest>)
    ensures r.Some? ==> r.value in tests && SameTest(how, r.value, required)
    ensures r.None? ==> forall t :: t in tests ==> !SameTest(how, t, required)
  {
    if tests == [] then None
    else if SameTest(how, tests[0], required) then Some(tests[0])
    else FirstMatch(how, tests[1..], required)
  }

  /** What one earlier evaluation of the same content decided for a test. */
  function CarriedFrom(how: Matching, previous: Evaluation, scope: Scope, required: RequiredTest): Option<RequiredTest> {
    if previous.scope != scope then None
    else
      var found := FirstMatch(how, previous.tests, required);
      if found.Some? && IsDecided(found.value.state) then found else None
  }

  function Carried(how: Matching, prior: seq<Evaluation>, scope: Scope, required: RequiredTest): (r: Option<RequiredTest>)
    ensures r.Some? ==> exists k :: 0 <= k < |prior| && CarriedFrom(how, prior[k], scope, required) == r
    ensures r.None? ==> forall k :: 0 <= k < |prior| ==> CarriedFrom(how, prior[k], scope, required).None?
  {
    if prior == [] then None
    else
      var first := CarriedFrom(how, prior[0], scope, required);
      if first.Some? then first
      else
        var rest := Carried(how, prior[1..], scope, required);
        assert forall k :: 1 <= k < |prior| ==> prior[k] == prior[1..][k - 1];
        rest
  }

  predicate PassedIn(how: Matching, previous: Evaluation, scope: Scope, required: RequiredTest) {
    SameTask(previous.scope, scope)
    && exists t :: t in previous.tests && SameTest(how, t, required) && t.state == Passed
  }

  predicate PassedBefore(how: Matching, prior: seq<Evaluation>, scope: Scope, required: RequiredTest) {
    exists previous :: previous in prior && PassedIn(how, previous, scope, required)
  }

  function FromPrior(how: Matching, prior: seq<Evaluation>, scope: Scope, required: RequiredTest): RequiredTest {
    var carried := Carried(how, prior, scope, required);
    if carried.Some? then required.(state := carried.value.state, detail := carried.value.detail)
    else if PassedBefore(how, prior, scope, required) then required.(state := Stale, detail := Some(CHANGED))
    else required
  }

  function ObservedState(status: TestStatus, scope: Scope, execution: Option<string>): TestState {
    match status
    case TestPassed =>
      if execution == Some(scope.fingerprint) then Passed else if execution.Some? then Stale else Missing
    case TestFailed => Failed
    case _ => Missing
  }

  function ObservedDetail(run: ObservedRun, state: TestState): Option<string> {
    if state == Stale then Some(OLDER_CONTENT)
    else if state == Missing && run.status == TestPassed then Some(UNVERIFIABLE)
    else run.summary
  }

  function FromRun(run: ObservedRun, scope: Scope, execution: Option<string>, required: RequiredTest): RequiredTest {
    var state := ObservedState(run.status, scope, execution);
    required.(state := state, detail := ObservedDetail(run, state))
  }

  function FromHook(current: Option<ObservedRun>, execution: Option<string>, prior: seq<Evaluation>, scope: Scope,
                    required: RequiredTest): RequiredTest
  {
    if current.Some? && current.value.argv == required.argv then FromRun(current.value, scope, execution, required)
    else FromPrior(ByArgv, prior, scope, required)
  }

  function FreshTests(current: Option<ObservedRun>, execution: Option<string>, prior: seq<Evaluation>, scope: Scope,
                      tests: seq<RequiredTest>): seq<RequiredTest>
  {
    seq(|tests|, k requires 0 <= k < |tests| => FromHook(current, execution, prior, scope, tests[k]))
  }

  function HandoffTests(prior: seq<Evaluation>, scope: Scope, tests: seq<RequiredTest>): seq<RequiredTest> {
    seq(|tests|, k requires 0 <= k < |tests| => FromPrior(ByIds, prior, scope, tests[k]))
  }

  method ApplyObservedTestFreshness(tests: array<RequiredTest>, scope: Scope, current: Option<ObservedRun>,
                                    execution: Option<string>, prior: seq<Evaluation>)
    modifies tests
    ensures tests[..] == FreshTests(current, execution, prior, scope, old(tests[..]))
  {
    for k := 0 to tests.Length
      invariant forall i :: 0 <= i < k ==> tests[i] == FromHook(current, execution, prior, scope, old(tests[i]))
      invariant forall i :: k <= i < tests.Length ==> tests[i] == old(tests[i])
    {
      var required := tests[k];
      if current.Some? && current.value.argv == required.argv {
        var state := Missing;
        match current.value.status {
          case TestPassed =>
            if execution == Some(scope.fingerprint) {
              state := Passed;
            } else if execution.Some? {
              state := Stale;
            }
          case TestFailed => state := Failed;
          case TestSkipped =>
          case TestUnknown =>
        }
        tests[k] := required.(state := state, detail := ObservedDetail(current.value, state));
        continue;
      }
      var carried := Carried(ByArgv, prior, scope, required);
      if carried.Some? {
        tests[k] := required.(state := carried.value.state, detail := carried.value.detail);
        continue;
      }
      if PassedBefore(ByArgv, prior, scope, required) {
        tests[k] := required.(state := Stale, detail := Some(CHANGED));
      }
    }
  }

  method ApplyPriorTestEvidence(tests: array<RequiredTest>, scope: Scope, prior: seq<Evaluation>)
    modifies tests
    ensures tests[..] == HandoffTests(prior, scope, old(tests[..]))
  {
    ghost var results := HandoffTests(prior, scope, tests[..]);
    for k := 0 to tests.Length
      invariant forall i :: 0 <= i < k ==> tests[i] == results[i]
      invariant forall i :: k <= i < tests.Length ==> tests[i] == old(tests[i])
    {
      var required := tests[k];
      assert results[k] == FromPrior(ByIds, prior, scope, required);
      var carried := Carried(ByIds, prior, scope, required);
      if carried.Some? {
        tests[k] := required.(state := carried.value.state, detail := carried.value.detail);
        continue;
      }
      if PassedBefore(ByIds, prior, scope, required) {
        tests[k] := required.(state := Stale, detail := Some(CHANGED));
      }
    }
  }

  predicate IsDecidedBefore(how: Matching, prior: seq<Evaluation>, scope: Scope, required: RequiredTest) {
    exists e :: e in prior && CarriedFrom(how, e, scope, required).Some?
  }

  /**
   * Without a run of its own a test is decided exactly when some evaluation of the same content decided it,
   * with the state of such an evaluation; stale exactly when none did but it passed on other content.
   */
  lemma StateFromPriorIff(how: Matching, prior: seq<Evaluation>, scope: Scope, required: RequiredTest)
    requires required.state == Missing
    ensures var state := FromPrior(how, prior, scope, required).state;
            && (IsDecided(state) <==> IsDecidedBefore(how, prior, scope, required))
            && (state == Stale <==> !IsDecidedBefore(how, prior, scope, required) && PassedBefore(how, prior, scope, required))
            && (IsDecided(state) ==> exists e :: e in prior && CarriedFrom(how, e, scope, required).Some?
                                                && CarriedFrom(how, e, scope, required).value.state == state)
  {
    var carried := Carried(how, prior, scope, required);
    if carried.Some? {
      var k :| 0 <= k < |prior| && CarriedFrom(how, prior[k], scope, required) == carried;
      assert prior[k] in prior;
    }
  }

  // ---------------------------------------------------------------- the log of evaluations

  /** A test run that really happened, with the content it ran on if known and the content when it was seen. */
  datatype Run = Run(repository: string, task: Option<string>, argv: Argv, status: TestStatus,
                     execution: Option<string>, seenAt: string)

  datatype Source = Source(id: string, repository: string, task: Option<string>, stopHookActive: bool)

  /** The dedupe key of an evaluation event: the hook's is made from the whole payload. */
  datatype EventKey = HookEvent(source: Source, evaluation: Evaluation) | HandoffEvent(operation: string, id: string)

  datatype Block = Block(scope: Scope, relevant: set<string>)

  type Row = Event<EventKey, Evaluation>

  type Table = map<string, Row>

  /** `table` holds one row per evaluation id; `ever` is every evaluation that was recorded. */
  datatype State = State(table: Table, ever: set<Evaluation>, events: set<EventKey>, runs: set<Run>, blocks: seq<Block>)

  const EMPTY := State(map[], {}, {}, {}, [])

  /** Relevant contracts and their tests, before any evidence. */
  datatype Matched = Matched(id: string, fingerprint: string, relevant: set<string>, tests: seq<RequiredTest>)

  datatype Action =
    | Evaluate(source: Source, stop: bool, matched: Matched, current: Option<ObservedRun>, execution: Option<string>,
               prior: seq<Evaluation>)
    | Invalid(source: Source, id: string, fingerprint: string, prior: seq<Evaluation>)
    | Handoff(operation: string, repository: string, task: Option<string>, matched: Matched, prior: seq<Evaluation>)

  predicate AllPassed(tests: seq<RequiredTest>) {
    forall k :: 0 <= k < |tests| ==> tests[k].state == Passed
  }

  predicate AllMissing(tests: seq<RequiredTest>) {
    forall k :: 0 <= k < |tests| ==> tests[k].state == Missing
  }

  /** Some evaluation already issued a continuation for this content and these contracts. */
  predicate AlreadyIssued(prior: seq<Evaluation>, scope: Scope, relevant: set<string>) {
    exists e :: e in prior && e.scope == scope && e.issued && e.relevant == relevant
  }

  /** The check of the invalid path looks at no contracts. */
  predicate AnyIssued(prior: seq<Evaluation>, scope: Scope) {
    exists e :: e in prior && e.scope == scope && e.issued
  }

  function HookEvaluation(source: Source, stop: bool, matched: Matched, current: Option<ObservedRun>,
                          execution: Option<string>, prior: seq<Evaluation>): Evaluation
  {
    var scope := Scope(source.repository, source.task, matched.fingerprint);
    var tests := FreshTests(current, execution, prior, scope, matched.tests);
    var ready := AllPassed(tests);
    Evaluation(matched.id, scope, matched.relevant, tests, ready,
               stop && !ready && !source.stopHookActive && !AlreadyIssued(prior, scope, matched.relevant))
  }

  function InvalidEvaluation(source: Source, id: string, fingerprint: string, prior: seq<Evaluation>): Evaluation {
    var scope := Scope(source.repository, source.task, fingerprint);
    Evaluation(id, scope, {}, [], false, !source.stopHookActive && !AnyIssued(prior, scope))
  }

  function HandoffEvaluation(repository: string, task: Option<string>, matched: Matched, prior: seq<Evaluation>): Evaluation {
    var scope := Scope(repository, task, matched.fingerprint);
    var tests := HandoffTests(prior, scope, matched.tests);
    Evaluation(matched.id, scope, matched.relevant, tests, AllPassed(tests), false)
  }

  method EvaluateContractsForSource(source: Source, stop: bool, matched: Matched, current: Option<ObservedRun>,
                                    execution: Option<string>, prior: seq<Evaluation>)
    returns (evaluation: Evaluation)
    ensures evaluation == HookEvaluation(source, stop, matched, current, execution, prior)
  {
    var scope := Scope(source.repository, source.task, matched.fingerprint);
    var tests := new RequiredTest[|matched.tests|](k requires 0 <= k < |matched.tests| => matched.tests[k]);
    assert tests[..] == matched.tests;
    ApplyObservedTestFreshness(tests, scope, current, execution, prior);
    var ready := AllPassed(tests[..]);
    evaluation := Evaluation(matched.id, scope, matched.relevant, tests[..], ready, false);
    if stop && !ready {
      evaluation := evaluation.(issued := !source.stopHookActive && !AlreadyIssued(prior, scope, matched.relevant));
    }
  }

  method EvaluateContractHandoff(repository: string, task: Option<string>, matched: Matched, prior: seq<Evaluation>)
    returns (evaluation: Evaluation)
    ensures evaluation == HandoffEvaluation(repository, task, matched, prior)
  {
    var scope := Scope(repository, task, matched.fingerprint);
    var tests := new RequiredTest[|matched.tests|](k requires 0 <= k < |matched.tests| => matched.tests[k]);
    assert tests[..] == matched.tests;
    ApplyPriorTestEvidence(tests, scope, prior);
    evaluation := Evaluation(matched.id, scope, matched.relevant, tests[..], AllPassed(tests[..]), false);
  }

  /**
   * Recording an evaluation: a duplicate event changes nothing; otherwise the row of its id goes to the event
   * for it that sorts last.
   */
  function Append(rank: Rank<EventKey>, s: State, key: EventKey, evaluation: Evaluation): State {
    if key in s.events then s
    else s.(table := LastWins(rank, s.table, Event(key, evaluation.id, evaluation)),
            ever := s.ever + {evaluation}, events := s.events + {key})
  }

  function Blocked(s: State, evaluation: Evaluation): State {
    if evaluation.issued then s.(blocks := s.blocks + [Block(evaluation.scope, evaluation.relevant)]) else s
  }

  function Observe(s: State, source: Source, fingerprint: string, current: Option<ObservedRun>, execution: Option<string>): State {
    if current.None? then s
    else s.(runs := s.runs + {Run(source.repository, source.task, current.value.argv, current.value.status,
                                  execution, fingerprint)})
  }

  /**
   * What a writer may have read: recorded evaluations of its repository, in any order, possibly missing rows
   * another process is writing.
   */
  predicate ReadsEvidence(s: State, repository: string, prior: seq<Evaluation>) {
    forall e :: e in prior ==> e in s.ever && e.scope.repository == repository
  }

  predicate IsRow(table: Table, evaluation: Evaluation) {
    exists id :: id in table && table[id].row == evaluation
  }

  /** Only the hook issues continuations, one event at a time, so it sees exactly the issued rows. */
  predicate ReadsIssued(s: State, repository: string, prior: seq<Evaluation>) {
    && (forall e :: e in prior && e.issued ==> IsRow(s.table, e))
    && (forall id :: id in s.table && s.table[id].row.issued && s.table[id].row.scope.repository == repository ==>
          s.table[id].row in prior)
  }

  predicate Enabled(s: State, action: Action) {
    match action
    case Evaluate(source, _, matched, _, _, prior) =>
      ReadsEvidence(s, source.repository, prior) && ReadsIssued(s, source.repository, prior) && AllMissing(matched.tests)
    case Invalid(source, _, _, prior) =>
      ReadsEvidence(s, source.repository, prior) && ReadsIssued(s, source.repository, prior)
    case Handoff(_, repository, _, matched, prior) => ReadsEvidence(s, repository, prior) && AllMissing(matched.tests)
  }

  function Written(action: Action): Evaluation {
    match action
    case Evaluate(source, stop, matched, current, execution, prior) =>
      HookEvaluation(source, stop, matched, current, execution, prior)
    case Invalid(source, id, fingerprint, prior) => InvalidEvaluation(source, id, fingerprint, prior)
    case Handoff(_, repository, task, matched, prior) => HandoffEvaluation(repository, task, matched, prior)
  }

  function EventOf(action: Action): EventKey {
    match action
    case Evaluate(source, _, _, _, _, _) => HookEvent(source, Written(action))
    case Invalid(source, _, _, _) => HookEvent(source, Written(action))
    case Handoff(operation, _, _, matched, _) => HandoffEvent(operation, matched.id)
  }

  function Seen(s: State, action: Action): State {
    if action.Evaluate? then Observe(s, action.source, action.matched.fingerprint, action.current, action.execution) else s
  }

  function Step(rank: Rank<EventKey>, s: State, action: Action): State {
    if !Enabled(s, action) then s
    else Blocked(Append(rank, Seen(s, action), EventOf(action), Written(action)), Written(action))
  }

  function Exec(rank: Rank<EventKey>, s: State, actions: seq<Action>): State
    decreases |actions|
  {
    if actions == [] then s else Exec(rank, Step(rank, s, actions[0]), actions[1..])
  }

  // ---------------------------------------------------------------- what an evaluation says of each test

  predicate IsFirst(tests: seq<RequiredTest>, same: RequiredTest -> bool, j: nat) {
    j < |tests| && same(tests[j]) && forall i :: 0 <= i < j ==> !same(tests[i])
  }

  /** The first test of an evaluation of this scope that is the same one passed or failed there. */
  predicate Decides(previous: Evaluation, scope: Scope, same: RequiredTest -> bool, j: nat) {
    previous.scope == scope && IsFirst(previous.tests, same, j)
    && (previous.tests[j].state == Passed || previous.tests[j].state == Failed)
  }

  /** It is the first evaluation read that decides the test. */
  predicate DecidesFirst(prior: seq<Evaluation>, scope: Scope, same: RequiredTest -> bool, p: nat, j: nat) {
    p < |prior| && Decides(prior[p], scope, same, j)
    && forall q, i :: 0 <= q < p && 0 <= i < |prior[q].tests| ==> !Decides(prior[q], scope, same, i)
  }

  /** Which earlier tests an evaluation takes for the required one: the hand-off also compares the ids. */
  function Recognized(action: Action, required: RequiredTest): RequiredTest -> bool {
    if action.Handoff? then
      (test: RequiredTest) => test.argv == required.argv && test.contractId == required.contractId
                              && test.testId == required.testId
    else (test: RequiredTest) => test.argv == required.argv
  }

  /** The event carries a run of the required command. */
  predicate HasOwnRun(action: Action, required: RequiredTest) {
    action.Evaluate? && action.current.Some? && action.current.value.argv == required.argv
  }

  function HowOf(action: Action): Matching {
    if action.Handoff? then ByIds else ByArgv
  }

  lemma {:induction false} FirstMatchIsFirst(how: Matching, tests: seq<RequiredTest>, required: RequiredTest,
                                             same: RequiredTest -> bool, j: nat)
    requires forall test :: same(test) == SameTest(how, test, required)
    requires IsFirst(tests, same, j)
    ensures FirstMatch(how, tests, required) == Some(tests[j])
    decreases |tests|
  {
    if j > 0 {
      assert !same(tests[0]);
      assert IsFirst(tests[1..], same, j - 1);
      FirstMatchIsFirst(how, tests[1..], required, same, j - 1);
    }
  }

  lemma {:induction false} FoundIsFirst(how: Matching, tests: seq<RequiredTest>, required: RequiredTest,
                                        same: RequiredTest -> bool) returns (j: nat)
    requires forall test :: same(test) == SameTest(how, test, required)
    requires FirstMatch(how, tests, required).Some?
    ensures IsFirst(tests, same, j) && FirstMatch(how, tests, required) == Some(tests[j])
    decreases |tests|
  {
    if same(tests[0]) {
      j := 0;
    } else {
      var i := FoundIsFirst(how, tests[1..], required, same);
      j := i + 1;
    }
  }

  lemma CarriedFromIff(how: Matching, previous: Evaluation, scope: Scope, required: RequiredTest,
                       same: RequiredTest -> bool, j: nat)
    requires forall test :: same(test) == SameTest(how, test, required)
    requires Decides(previous, scope, same, j)
    ensures CarriedFrom(how, previous, scope, required) == Some(previous.tests[j])
  {
    FirstMatchIsFirst(how, previous.tests, required, same, j);
  }

  lemma CarriedIsDecided(how: Matching, previous: Evaluation, scope: Scope, required: RequiredTest,
                         same: RequiredTest -> bool) returns (j: nat)
    requires forall test :: same(test) == SameTest(how, test, required)
    requires CarriedFrom(how, previous, scope, required).Some?
    ensures Decides(previous, scope, same, j) && CarriedFrom(how, previous, scope, required) == Some(previous.tests[j])
  {
    j := FoundIsFirst(how, previous.tests, required, same);
  }

  lemma UndecidedCarriesNothing(how: Matching, previous: Evaluation, scope: Scope, required: RequiredTest,
                                same: RequiredTest -> bool)
    requires forall test :: same(test) == SameTest(how, test, required)
    requires forall j :: 0 <= j < |previous.tests| ==> !Decides(previous, scope, same, j)
    ensures CarriedFrom(how, previous, scope, required).None?
  {
    if CarriedFrom(how, previous, scope, required).Some? {
      var j := CarriedIsDecided(how, previous, scope, required, same);
    }
  }

  lemma {:induction false} FirstDecisionIsCarried(how: Matching, prior: seq<Evaluation>, scope: Scope, required: RequiredTest,
                                                  same: RequiredTest -> bool, p: nat, j: nat)
    requires forall test :: same(test) == SameTest(how, test, required)
    requires DecidesFirst(prior, scope, same, p, j)
    ensures Carried(how, prior, scope, required) == Some(prior[p].tests[j])
    decreases |prior|
  {
    if p == 0 {
      CarriedFromIff(how, prior[0], scope, required, same, j);
    } else {
      UndecidedCarriesNothing(how, prior[0], scope, required, same);
      assert DecidesFirst(prior[1..], scope, same, p - 1, j);
      FirstDecisionIsCarried(how, prior[1..], scope, required, same, p - 1, j);
    }
  }

  lemma {:induction false} CarriedIsFirstDecision(how: Matching, prior: seq<Evaluation>, scope: Scope, required: RequiredTest,
                                                  same: RequiredTest -> bool) returns (p: nat, j: nat)
    requires forall test :: same(test) == SameTest(how, test, required)
    requires Carried(how, prior, scope, required).Some?
    ensures DecidesFirst(prior, scope, same, p, j) && Carried(how, prior, scope, required) == Some(prior[p].tests[j])
    decreases |prior|
  {
    if CarriedFrom(how, prior[0], scope, required).Some? {
      p := 0;
      j := CarriedIsDecided(how, prior[0], scope, required, same);
    } else {
      var q, i := CarriedIsFirstDecision(how, prior[1..], scope, required, same);
      p, j := q + 1, i;
      DecidesNothing(how, prior[0], scope, required, same);
      assert prior[p] == prior[1..][q];
    }
  }

  lemma DecidesNothing(how: Matching, previous: Evaluation, scope: Scope, required: RequiredTest, same: RequiredTest -> bool)
    requires forall test :: same(test) == SameTest(how, test, required)
    requires CarriedFrom(how, previous, scope, required).None?
    ensures forall j :: 0 <= j < |previous.tests| ==> !Decides(previous, scope, same, j)
  {
    forall j | 0 <= j < |previous.tests|
      ensures !Decides(previous, scope, same, j)
    {
      if Decides(previous, scope, same, j) {
        CarriedFromIff(how, previous, scope, required, same, j);
      }
    }
  }

  /** An evaluation speaks of the matched tests in their order, changing only state and detail, about this scope. */
  lemma WrittenSpeaksOfTheMatchedTests(action: Action, k: nat)
    requires !action.Invalid? && k < |action.matched.tests|
    ensures var written := Written(action);
            && written.id == action.matched.id && written.relevant == action.matched.relevant
            && |written.tests| == |action.matched.tests|
            && written.tests[k].contractId == action.matched.tests[k].contractId
            && written.tests[k].testId == action.matched.tests[k].testId
            && written.tests[k].argv == action.matched.tests[k].argv
            && written.scope.fingerprint == action.matched.fingerprint
            && (action.Evaluate? ==>
                  written.scope.repository == action.source.repository && written.scope.task == action.source.task)
            && (action.Handoff? ==> written.scope.repository == action.repository && written.scope.task == action.task)
  {
  }

  /**
   * The run an event carries decides its test: passed exactly when it passed on the evaluated content, stale when
   * it passed on other known content, failed when it failed, and missing for everything else.
   */
  lemma OwnRunDecides(action: Action, k: nat)
    requires action.Evaluate? && k < |action.matched.tests| && HasOwnRun(action, action.matched.tests[k])
    ensures var test := Written(action).tests[k]; var run := action.current.value;
            var passed := run.status == TestPassed; var content := action.matched.fingerprint;
            && (test.state == Passed <==> passed && action.execution == Some(content))
            && (test.state == Stale <==> passed && action.execution.Some? && action.execution != Some(content))
            && (test.state == Failed <==> run.status == TestFailed)
            && (test.state == Stale ==> test.detail == Some("the test passed before the latest related content fingerprint"))
            && (test.state == Missing && passed ==>
                  test.detail == Some("the passing test did not include a verifiable execution-time fingerprint"))
            && (test.state != Stale && !(test.state == Missing && passed) ==> test.detail == run.summary)
  {
  }

  /** Without a run of its own a test has the state and detail of the first evaluation of its scope that decides it. */
  lemma FirstDecisionIsKept(action: Action, k: nat, p: nat, j: nat)
    requires !action.Invalid? && k < |action.matched.tests| && !HasOwnRun(action, action.matched.tests[k])
    requires DecidesFirst(action.prior, Written(action).scope, Recognized(action, action.matched.tests[k]), p, j)
    ensures Written(action).tests[k].state == action.prior[p].tests[j].state
    ensures Written(action).tests[k].detail == action.prior[p].tests[j].detail
  {
    var required := action.matched.tests[k];
    FirstDecisionIsCarried(HowOf(action), action.prior, Written(action).scope, required, Recognized(action, required), p, j);
  }

  /** It passed in an earlier evaluation of the same repository and task, whatever the content. */
  predicate PassedForTask(prior: seq<Evaluation>, scope: Scope, same: RequiredTest -> bool) {
    exists p, j :: 0 <= p < |prior| && 0 <= j < |prior[p].tests|
                   && prior[p].scope.repository == scope.repository && prior[p].scope.task == scope.task
                   && same(prior[p].tests[j]) && prior[p].tests[j].state == Passed
  }

  /** When no evaluation of its scope decides it, it is stale if it passed for the task before and untouched otherwise. */
  lemma UndecidedTestIsStaleOrUntouched(action: Action, k: nat)
    requires !action.Invalid? && k < |action.matched.tests| && !HasOwnRun(action, action.matched.tests[k])
    requires forall p: nat, j: nat :: !DecidesFirst(action.prior, Written(action).scope, Recognized(action, action.matched.tests[k]), p, j)
    ensures var required := action.matched.tests[k]; var test := Written(action).tests[k];
            if PassedForTask(action.prior, Written(action).scope, Recognized(action, required)) then
              test.state == Stale
              && test.detail == Some("the relevant content fingerprint changed after the last successful run")
            else test == required
  {
    var required := action.matched.tests[k];
    var scope := Written(action).scope;
    var same := Recognized(action, required);
    if Carried(HowOf(action), action.prior, scope, required).Some? {
      var p, j := CarriedIsFirstDecision(HowOf(action), action.prior, scope, required, same);
    }
    PassedBeforeIff(HowOf(action), action.prior, scope, required, same);
  }

  lemma PassedBeforeIff(how: Matching, prior: seq<Evaluation>, scope: Scope, required: RequiredTest, same: RequiredTest -> bool)
    requires forall test :: same(test) == SameTest(how, test, required)
    ensures PassedBefore(how, prior, scope, required) <==> PassedForTask(prior, scope, same)
  {
    if PassedBefore(how, prior, scope, required) {
      var previous :| previous in prior && PassedIn(how, previous, scope, required);
      var p :| 0 <= p < |prior| && prior[p] == previous;
      var test :| test in previous.tests && SameTest(how, test, required) && test.state == Passed;
      var j :| 0 <= j < |previous.tests| && previous.tests[j] == test;
      assert same(prior[p].tests[j]);
    }
    if PassedForTask(prior, scope, same) {
      var p, j :| 0 <= p < |prior| && 0 <= j < |prior[p].tests|
                  && prior[p].scope.repository == scope.repository && prior[p].scope.task == scope.task
                  && same(prior[p].tests[j]) && prior[p].tests[j].state == Passed;
      assert PassedIn(how, prior[p], scope, required);
    }
  }

  /** The passing evidence a required test can have: a run on exactly this content, now or where it was first decided. */
  ghost predicate HasPassed(action: Action, required: RequiredTest)
    requires !action.Invalid?
  {
    if HasOwnRun(action, required) then
      action.current.value.status == TestPassed && action.execution == Some(action.matched.fingerprint)
    else
      exists p: nat, j: nat :: DecidesFirst(action.prior, Written(action).scope, Recognized(action, required), p, j)
                     && action.prior[p].tests[j].state == Passed
  }

  lemma PassedIff(action: Action, k: nat)
    requires !action.Invalid? && k < |action.matched.tests| && action.matched.tests[k].state == Missing
    ensures Written(action).tests[k].state == Passed <==> HasPassed(action, action.matched.tests[k])
  {
    var required := action.matched.tests[k];
    var same := Recognized(action, required);
    if HasOwnRun(action, required) {
      OwnRunDecides(action, k);
    } else if p: nat, j: nat :| DecidesFirst(action.prior, Written(action).scope, same, p, j) {
      FirstDecisionIsKept(action, k, p, j);
      forall q: nat, i: nat | DecidesFirst(action.prior, Written(action).scope, same, q, i)
        ensures action.prior[q].tests[i].state == Written(action).tests[k].state
      {
        FirstDecisionIsKept(action, k, q, i);
      }
    } else {
      UndecidedTestIsStaleOrUntouched(action, k);
    }
  }

  /** An evaluation is ready exactly when every required test has passing evidence on exactly its content. */
  lemma ReadyIffEveryTestHasPassed(action: Action)
    requires !action.Invalid? && AllMissing(action.matched.tests)
    ensures Written(action).ready <==>
            forall k :: 0 <= k < |action.matched.tests| ==> HasPassed(action, action.matched.tests[k])
  {
    forall k | 0 <= k < |action.matched.tests|
      ensures Written(action).tests[k].state == Passed <==> HasPassed(action, action.matched.tests[k])
    {
      PassedIff(action, k);
    }
  }

  /** A run that passed on the evaluated content makes its command's tests ready, and a Stop needing no other is let through. */
  lemma PassingRunLetsTheStopThrough(action: Action)
    requires action.Evaluate? && AllMissing(action.matched.tests) && action.current.Some?
    requires forall k :: 0 <= k < |action.matched.tests| ==> action.matched.tests[k].argv == action.current.value.argv
    requires action.current.value.status == TestPassed && action.execution == Some(action.matched.fingerprint)
    ensures Written(action).ready && !Written(action).issued
  {
    ReadyIffEveryTestHasPassed(action);
  }

  // ---------------------------------------------------------------- states have real runs behind them

  predicate IsRunOf(run: Run, scope: Scope, argv: Argv) {
    run.repository == scope.repository && run.task == scope.task && run.argv == argv
  }

  /** The run behind a test's state, for the content the evaluation speaks about. */
  predicate Witnesses(run: Run, scope: Scope, test: RequiredTest) {
    && IsRunOf(run, scope, test.argv)
    && match test.state
       case Passed => run.status == TestPassed && run.execution == Some(scope.fingerprint)
       case Failed => run.status == TestFailed && run.seenAt == scope.fingerprint
       case Stale => run.status == TestPassed
       case Missing => true
  }

  predicate HasWitness(runs: set<Run>, scope: Scope, test: RequiredTest) {
    test.state == Missing || exists run :: run in runs && Witnesses(run, scope, test)
  }

  predicate EvaluationIsWitnessed(runs: set<Run>, evaluation: Evaluation) {
    && (forall k :: 0 <= k < |evaluation.tests| ==> HasWitness(runs, evaluation.scope, evaluation.tests[k]))
    && (evaluation.ready ==> AllPassed(evaluation.tests))
  }

  predicate Evidenced(s: State) {
    && (forall e :: e in s.ever ==> EvaluationIsWitnessed(s.runs, e))
    && (forall id :: id in s.table ==> s.table[id].row in s.ever && s.table[id].row.id == id)
  }

  lemma MoreRunsWitnessMore(runs: set<Run>, more: set<Run>, evaluation: Evaluation)
    requires EvaluationIsWitnessed(runs, evaluation) && runs <= more
    ensures EvaluationIsWitnessed(more, evaluation)
  {
    forall k | 0 <= k < |evaluation.tests|
      ensures HasWitness(more, evaluation.scope, evaluation.tests[k])
    {
      var test := evaluation.tests[k];
      if test.state != Missing {
        var run :| run in runs && Witnesses(run, evaluation.scope, test);
        assert run in more;
      }
    }
  }

  lemma CarriedIsWitnessed(runs: set<Run>, how: Matching, prior: seq<Evaluation>, scope: Scope, required: RequiredTest)
    requires forall e :: e in prior ==> EvaluationIsWitnessed(runs, e)
    requires required.state == Missing
    ensures HasWitness(runs, scope, FromPrior(how, prior, scope, required))
  {
    var carried := Carried(how, prior, scope, required);
    if carried.Some? {
      var k :| 0 <= k < |prior| && CarriedFrom(how, prior[k], scope, required) == carried;
      assert prior[k] in prior;
      WitnessCarriesOver(runs, prior[k], carried.value, scope, FromPrior(how, prior, scope, required));
    } else if PassedBefore(how, prior, scope, required) {
      var previous :| previous in prior && PassedIn(how, previous, scope, required);
      var test :| test in previous.tests && SameTest(how, test, required) && test.state == Passed;
      WitnessCarriesOver(runs, previous, test, scope, FromPrior(how, prior, scope, required));
    }
  }

  /** A run behind a test of an earlier evaluation of the task is behind the test that takes its state from it. */
  lemma WitnessCarriesOver(runs: set<Run>, previous: Evaluation, test: RequiredTest, scope: Scope, result: RequiredTest)
    requires EvaluationIsWitnessed(runs, previous) && test in previous.tests && test.argv == result.argv
    requires SameTask(previous.scope, scope)
    requires (previous.scope == scope && result.state == test.state) || (test.state == Passed && result.state == Stale)
    ensures HasWitness(runs, scope, result)
  {
    var k :| 0 <= k < |previous.tests| && previous.tests[k] == test;
    assert HasWitness(runs, previous.scope, previous.tests[k]);
    if test.state != Missing {
      var run :| run in runs && Witnesses(run, previous.scope, test);
      assert Witnesses(run, scope, result);
    }
  }

  lemma WrittenIsWitnessed(s: State, action: Action)
    requires Evidenced(s) && Enabled(s, action)
    ensures EvaluationIsWitnessed(Seen(s, action).runs, Written(action))
  {
    var runs := Seen(s, action).runs;
    var written := Written(action);
    forall e | e in action.prior
      ensures EvaluationIsWitnessed(runs, e)
    {
      MoreRunsWitnessMore(s.runs, runs, e);
    }
    forall k | 0 <= k < |written.tests|
      ensures HasWitness(runs, written.scope, written.tests[k])
    {
      TestIsWitnessed(s, action, k);
    }
  }

  lemma TestIsWitnessed(s: State, action: Action, k: nat)
    requires Enabled(s, action) && k < |Written(action).tests|
    requires forall e :: e in action.prior ==> EvaluationIsWitnessed(Seen(s, action).runs, e)
    ensures HasWitness(Seen(s, action).runs, Written(action).scope, Written(action).tests[k])
  {
    var runs := Seen(s, action).runs;
    var scope := Written(action).scope;
    var required := action.matched.tests[k];
    if action.Handoff? {
      CarriedIsWitnessed(runs, ByIds, action.prior, scope, required);
    } else if action.current.Some? && action.current.value.argv == required.argv {
      var run := Run(scope.repository, scope.task, required.argv, action.current.value.status, action.execution,
                     scope.fingerprint);
      assert run in runs;
      assert Written(action).tests[k].state != Missing ==> Witnesses(run, scope, Written(action).tests[k]);
    } else {
      CarriedIsWitnessed(runs, ByArgv, action.prior, scope, required);
    }
  }

  lemma StepKeepsEvidenced(rank: Rank<EventKey>, s: State, action: Action)
    requires Evidenced(s)
    ensures Evidenced(Step(rank, s, action))
  {
    if Enabled(s, action) {
      var t := Step(rank, s, action);
      WrittenIsWitnessed(s, action);
      forall e | e in s.ever
        ensures EvaluationIsWitnessed(t.runs, e)
      {
        MoreRunsWitnessMore(s.runs, t.runs, e);
      }
    }
  }

  lemma {:induction false} ExecKeepsEvidenced(rank: Rank<EventKey>, s: State, actions: seq<Action>)
    requires Evidenced(s)
    ensures Evidenced(Exec(rank, s, actions))
    decreases |actions|
  {
    if actions != [] {
      StepKeepsEvidenced(rank, s, actions[0]);
      ExecKeepsEvidenced(rank, Step(rank, s, actions[0]), actions[1..]);
    }
  }

  /**
   * In any log written by hooks and hand-offs, a test marked passed was really run with that command in that
   * repository and task and passed on exactly the content of the evaluation; failed and stale ones also have
   * their run.
   */
  lemma PassedMeansObservedRun(rank: Rank<EventKey>, actions: seq<Action>, evaluation: Evaluation, k: nat)
    requires evaluation in Exec(rank, EMPTY, actions).ever && k < |evaluation.tests|
    ensures HasWitness(Exec(rank, EMPTY, actions).runs, evaluation.scope, evaluation.tests[k])
  {
    ExecKeepsEvidenced(rank, EMPTY, actions);
  }

  /** A ready evaluation has such a passing run for every test it requires. */
  lemma ReadyMeansEveryTestRan(rank: Rank<EventKey>, actions: seq<Action>, evaluation: Evaluation, k: nat)
    requires evaluation in Exec(rank, EMPTY, actions).ever && evaluation.ready && k < |evaluation.tests|
    ensures exists run :: run in Exec(rank, EMPTY, actions).runs && IsRunOf(run, evaluation.scope, evaluation.tests[k].argv)
                          && run.status == TestPassed && run.execution == Some(evaluation.scope.fingerprint)
  {
    var runs := Exec(rank, EMPTY, actions).runs;
    ExecKeepsEvidenced(rank, EMPTY, actions);
    assert HasWitness(runs, evaluation.scope, evaluation.tests[k]);
    var run :| run in runs && Witnesses(run, evaluation.scope, evaluation.tests[k]);
    assert IsRunOf(run, evaluation.scope, evaluation.tests[k].argv);
  }
}
