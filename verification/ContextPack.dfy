/**
 The context pack builder of `src/context_pack.rs`: eligibility, ranking and the loop that
 drops items until the declared token count fits the budget. The tokenizer over the
 serialized pack is an abstract measure of the pack, its own declared count included.
 */
module ContextPack {
  import opened GitChanges
  import Lexicographic
  import opened Ranking
  import opened Wrappers

  datatype Result<+T> = Ok(value: T) | Err(reason: string)

  const MAX_TOKEN_BUDGET: nat := 2000
  const MAX_FACTS: nat := 5
  const MAX_UNRESOLVED_ITEMS: nat := 5
  const MAX_FILES: nat := 8
  const MAX_TESTS: nat := 3

  // ---------------------------------------------------------------- inputs

  datatype Lifecycle = Pinned | Confirmed | Candidate | Invalid | Superseded

  datatype FactKind = Decision | Constraint | Goal | Progress | Note | OpenItem

  datatype Fact = Fact(id: string, repository: string, task: string, kind: FactKind, lifecycle: Lifecycle,
                       isFresh: bool, isSuperseded: bool, evidenceIds: seq<string>, updatedAt: int)

  /** `intact` is whether the stored digest is that of the redacted excerpt. */
  datatype Evidence = Evidence(id: string, repository: string, task: string, factId: Option<string>,
                               verified: bool, intact: bool)

  datatype Attribution = ModifiedBy | ObservedChangedIn

  datatype FileChange = FileChange(path: string, previous: Option<string>, repository: string,
                                   task: Option<string>, attribution: Attribution, status: Status)

  datatype TestStatus = TestFailed | TestPassed | TestSkipped | TestUnknown

  datatype TestResult = TestResult(id: string, name: string, repository: string, task: Option<string>,
                                   status: TestStatus, occurredAt: int)

  // ---------------------------------------------------------------- eligibility

  /** Evidence by id; a later item replaces an earlier one. */
  function EvidenceById(evidence: seq<Evidence>): map<string, Evidence> {
    if evidence == [] then map[]
    else
      var last := evidence[|evidence| - 1];
      EvidenceById(evidence[..|evidence| - 1])[last.id := last]
  }

  predicate IsPackEligible(fact: Fact) {
    (fact.lifecycle.Confirmed? || fact.lifecycle.Pinned?)
    && fact.isFresh && !fact.isSuperseded && fact.evidenceIds != []
  }

  predicate Supports(item: Evidence, fact: Fact) {
    item.verified && item.intact && item.repository == fact.repository && item.task == fact.task
    && (item.factId.Some? ==> item.factId.value == fact.id)
  }

  predicate IsEligible(fact: Fact, repository: string, task: string, byId: map<string, Evidence>) {
    fact.repository == repository && fact.task == task && IsPackEligible(fact)
    && forall k :: 0 <= k < |fact.evidenceIds| ==>
         fact.evidenceIds[k] in byId && Supports(byId[fact.evidenceIds[k]], fact)
  }

  predicate Belongs(itemRepository: string, itemTask: Option<string>, repository: string, task: string) {
    itemRepository == repository && (itemTask.Some? ==> itemTask.value == task)
  }

  // ---------------------------------------------------------------- ranking

  function LifecycleRank(lifecycle: Lifecycle): nat {
    match lifecycle
    case Pinned => 0
    case Confirmed => 1
    case Candidate => 2
    case Invalid => 3
    case Superseded => 4
  }

  function FactKindRank(kind: FactKind): nat {
    match kind
    case Decision => 0
    case Constraint => 1
    case Goal => 2
    case Progress => 3
    case Note => 4
    case OpenItem => 5
  }

  function CharRank(c: char): int {
    c as int
  }

  predicate StringLe(a: string, b: string) {
    a == b || Lexicographic.Less(a, b, CharRank)
  }

  predicate OptionLe(a: Option<string>, b: Option<string>) {
    a.None? || (b.Some? && StringLe(a.value, b.value))
  }

  /** Pinned before confirmed, then by kind, then newest first, then by id. */
  predicate FactLe(a: Fact, b: Fact) {
    if LifecycleRank(a.lifecycle) != LifecycleRank(b.lifecycle) then
      LifecycleRank(a.lifecycle) < LifecycleRank(b.lifecycle)
    else if FactKindRank(a.kind) != FactKindRank(b.kind) then FactKindRank(a.kind) < FactKindRank(b.kind)
    else if a.updatedAt != b.updatedAt then b.updatedAt < a.updatedAt
    else StringLe(a.id, b.id)
  }

  function AttributionRank(a: Attribution): nat {
    if a.ModifiedBy? then 0 else 1
  }

  function StatusRank(status: Status): nat {
    match status
    case Added => 0
    case Modified => 1
    case Renamed => 2
    case Copied => 3
    case Deleted => 4
    case TypeChanged => 5
    case Unmerged => 6
    case Unknown => 7
  }

  function TestStatusRank(status: TestStatus): nat {
    match status
    case TestFailed => 0
    case TestPassed => 1
    case TestSkipped => 2
    case TestUnknown => 3
  }

  predicate FileLe(a: FileChange, b: FileChange) {
    if a.attribution != b.attribution then AttributionRank(a.attribution) < AttributionRank(b.attribution)
    else if a.path != b.path then StringLe(a.path, b.path)
    else if a.previous != b.previous then OptionLe(a.previous, b.previous)
    else StatusRank(a.status) <= StatusRank(b.status)
  }

  predicate TestLe(a: TestResult, b: TestResult) {
    if a.status != b.status then TestStatusRank(a.status) < TestStatusRank(b.status)
    else if a.occurredAt != b.occurredAt then b.occurredAt < a.occurredAt
    else if a.name != b.name then StringLe(a.name, b.name)
    else StringLe(a.id, b.id)
  }

  lemma StringLeIsOrder()
    ensures forall a, b :: StringLe(a, b) || StringLe(b, a)
    ensures forall a, b, c :: StringLe(a, b) && StringLe(b, c) ==> StringLe(a, c)
    ensures forall a, b :: StringLe(a, b) && StringLe(b, a) ==> a == b
  {
    forall a, b
      ensures StringLe(a, b) || StringLe(b, a)
      ensures StringLe(a, b) && StringLe(b, a) ==> a == b
    {
      Lexicographic.LessIsTotal(a, b, CharRank);
      if Lexicographic.Less(a, b, CharRank) && Lexicographic.Less(b, a, CharRank) {
        Lexicographic.LessIsTransitive(a, b, a, CharRank);
        Lexicographic.LessIsIrreflexive(a, CharRank);
      }
    }
    forall a, b, c | StringLe(a, b) && StringLe(b, c)
      ensures StringLe(a, c)
    {
      if a != b && b != c {
        Lexicographic.LessIsTransitive(a, b, c, CharRank);
      }
    }
  }

  lemma FactLeIsOrder()
    ensures Total(FactLe) && Transitive(FactLe)
  {
    StringLeIsOrder();
  }

  lemma TestLeIsOrder()
    ensures Total(TestLe) && Transitive(TestLe)
  {
    StringLeIsOrder();
  }

  lemma FileLeIsOrder()
    ensures Total(FileLe) && Transitive(FileLe)
  {
    StringLeIsOrder();
    forall a, b, c | FileLe(a, b) && FileLe(b, c)
      ensures FileLe(a, c)
    {
      FileLeIsTransitive(a, b, c);
    }
  }

  lemma FileLeIsTransitive(a: FileChange, b: FileChange, c: FileChange)
    requires FileLe(a, b) && FileLe(b, c)
    ensures FileLe(a, c)
  {
    StringLeIsOrder();
  }

  predicate SamePaths(a: FileChange, b: FileChange) {
    a.path == b.path && a.previous == b.previous
  }

  predicate SameTest(a: TestResult, b: TestResult) {
    a.id == b.id
  }

  /** The lists the pack starts from. */
  datatype Lists = Lists(facts: seq<Fact>, unresolved: seq<Fact>, files: seq<FileChange>, tests: seq<TestResult>)

  function RankedFacts(facts: seq<Fact>, repository: string, task: string, byId: map<string, Evidence>): seq<Fact> {
    SortBy(Filter(facts, f => IsEligible(f, repository, task, byId)), FactLe)
  }

  function Select(facts: seq<Fact>, evidence: seq<Evidence>, files: seq<FileChange>, tests: seq<TestResult>,
                  repository: string, task: string): Lists {
    var ranked := RankedFacts(facts, repository, task, EvidenceById(evidence));
    var keptFiles := Filter(files, (f: FileChange) => Belongs(f.repository, f.task, repository, task));
    var keptTests := Filter(tests, (t: TestResult) => Belongs(t.repository, t.task, repository, task));
    Lists(Take(Filter(ranked, (f: Fact) => !f.kind.OpenItem?), MAX_FACTS),
          Take(Filter(ranked, (f: Fact) => f.kind.OpenItem?), MAX_UNRESOLVED_ITEMS),
          Take(Dedup(SortBy(keptFiles, FileLe), SamePaths), MAX_FILES),
          Take(Dedup(SortBy(keptTests, TestLe), SameTest), MAX_TESTS))
  }

  /**
   Every fact in a list is eligible, and no eligible fact of its section that is left out
   ranks before one that is kept, however many were dropped from the end.
   */
  lemma NoEligibleFactOutranksAKeptOne(facts: seq<Fact>, evidence: seq<Evidence>, files: seq<FileChange>,
                                       tests: seq<TestResult>, repository: string, task: string,
                                       kept: seq<Fact>, open: bool, x: Fact, y: Fact)
    requires var lists := Select(facts, evidence, files, tests, repository, task);
             kept <= if open then lists.unresolved else lists.facts
    requires x in kept
    requires y in facts && IsEligible(y, repository, task, EvidenceById(evidence))
    requires y.kind.OpenItem? == open && y !in kept
    ensures x in facts && IsEligible(x, repository, task, EvidenceById(evidence)) && x.kind.OpenItem? == open
    ensures FactLe(x, y)
  {
    var byId := EvidenceById(evidence);
    var eligible := Filter(facts, f => IsEligible(f, repository, task, byId));
    var ranked := RankedFacts(facts, repository, task, byId);
    FactLeIsOrder();
    SortByIsSorted(eligible, FactLe);
    SortByMembers(eligible, FactLe, y);
    SortByMembers(eligible, FactLe, x);
    if open {
      FilterKeepsSorted(ranked, (f: Fact) => f.kind.OpenItem?, FactLe);
      PrefixIsNotOutranked(Filter(ranked, (f: Fact) => f.kind.OpenItem?), kept, x, y, FactLe);
    } else {
      FilterKeepsSorted(ranked, (f: Fact) => !f.kind.OpenItem?, FactLe);
      PrefixIsNotOutranked(Filter(ranked, (f: Fact) => !f.kind.OpenItem?), kept, x, y, FactLe);
    }
  }

  /** No test of the task left out of the list ranks before one kept in it, unless it has the id of a kept one. */
  lemma NoTestOutranksAKeptOne(facts: seq<Fact>, evidence: seq<Evidence>, files: seq<FileChange>, tests: seq<TestResult>,
                               repository: string, task: string, kept: seq<TestResult>, x: TestResult, y: TestResult)
    requires kept <= Select(facts, evidence, files, tests, repository, task).tests && x in kept
    requires y in tests && Belongs(y.repository, y.task, repository, task) && forall z :: z in kept ==> z.id != y.id
    ensures x in tests && Belongs(x.repository, x.task, repository, task) && TestLe(x, y)
  {
    var eligible := Filter(tests, (t: TestResult) => Belongs(t.repository, t.task, repository, task));
    var sorted := SortBy(eligible, TestLe);
    TestLeIsOrder();
    SortByIsSorted(eligible, TestLe);
    SortByMembers(eligible, TestLe, y);
    DedupKeepsOrder(sorted, SameTest, TestLe);
    SortByMembers(eligible, TestLe, x);
    PrefixOfDedupIsNotOutranked(sorted, SameTest, kept, x, y, TestLe);
  }

  /** Nor does a file change, unless it has the paths of a kept one. */
  lemma NoFileOutranksAKeptOne(facts: seq<Fact>, evidence: seq<Evidence>, files: seq<FileChange>, tests: seq<TestResult>,
                               repository: string, task: string, kept: seq<FileChange>, x: FileChange, y: FileChange)
    requires kept <= Select(facts, evidence, files, tests, repository, task).files && x in kept
    requires y in files && Belongs(y.repository, y.task, repository, task) && forall z :: z in kept ==> !SamePaths(y, z)
    ensures x in files && Belongs(x.repository, x.task, repository, task) && FileLe(x, y)
  {
    var eligible := Filter(files, (f: FileChange) => Belongs(f.repository, f.task, repository, task));
    var sorted := SortBy(eligible, FileLe);
    FileLeIsOrder();
    SortByIsSorted(eligible, FileLe);
    SortByMembers(eligible, FileLe, y);
    DedupKeepsOrder(sorted, SamePaths, FileLe);
    SortByMembers(eligible, FileLe, x);
    PrefixOfDedupIsNotOutranked(sorted, SamePaths, kept, x, y, FileLe);
  }

  /** Deduplication looks at neighbours only, so one path can appear once per attribution. */
  lemma SelectedFilesAreDistinctPerAttribution(files: seq<FileChange>, i: nat, j: nat)
    requires i < j < |Dedup(SortBy(files, FileLe), SamePaths)|
    ensures var r := Dedup(SortBy(files, FileLe), SamePaths);
            SamePaths(r[i], r[j]) ==> r[i].attribution == ModifiedBy && r[j].attribution == ObservedChangedIn
  {
    FileLeIsOrder();
    SortByIsSorted(files, FileLe);
    DedupKeepsOrder(SortBy(files, FileLe), SamePaths, FileLe);
    var r := Dedup(SortBy(files, FileLe), SamePaths);
    assert FileLe(r[i], r[j]);
    if SamePaths(r[i], r[j]) && r[i].attribution == r[j].attribution {
      assert FileLe(r[i], r[i + 1]) && (i + 1 < j ==> FileLe(r[i + 1], r[j]));
      StringLeIsOrder();
      assert SamePaths(r[i + 1], r[i]);
      assert false;
    }
  }

  // ---------------------------------------------------------------- the order and the limits, spelled out

  predicate Precedes<T(==)>(order: seq<T>, x: T, y: T) {
    exists i, j :: 0 <= i < j < |order| && order[i] == x && order[j] == y
  }

  const LIFECYCLES := [Pinned, Confirmed, Candidate, Invalid, Superseded]
  const KINDS := [Decision, Constraint, Goal, Progress, Note, OpenItem]
  const ATTRIBUTIONS := [ModifiedBy, ObservedChangedIn]
  const STATUSES := [Added, Modified, Renamed, Copied, Deleted, TypeChanged, Unmerged, Unknown]
  const TEST_STATUSES := [TestFailed, TestPassed, TestSkipped, TestUnknown]

  /** Listing each value at its rank makes coming first in the list the same as having the smaller rank. */
  lemma PrecedesIff<T>(order: seq<T>, rank: T -> nat, x: T, y: T)
    requires forall i :: 0 <= i < |order| ==> rank(order[i]) == i
    requires rank(x) < |order| && order[rank(x)] == x && rank(y) < |order| && order[rank(y)] == y
    ensures Precedes(order, x, y) <==> rank(x) < rank(y)
  {
  }

  lemma FactRanksAreListed(a: Fact, b: Fact)
    ensures Precedes(LIFECYCLES, a.lifecycle, b.lifecycle) <==> LifecycleRank(a.lifecycle) < LifecycleRank(b.lifecycle)
    ensures Precedes(KINDS, a.kind, b.kind) <==> FactKindRank(a.kind) < FactKindRank(b.kind)
  {
    assert LIFECYCLES[0] == Pinned && LIFECYCLES[1] == Confirmed && LIFECYCLES[2] == Candidate && LIFECYCLES[3] == Invalid;
    PrecedesIff(LIFECYCLES, LifecycleRank, a.lifecycle, b.lifecycle);
    assert KINDS[0] == Decision && KINDS[1] == Constraint && KINDS[2] == Goal && KINDS[3] == Progress && KINDS[4] == Note;
    PrecedesIff(KINDS, FactKindRank, a.kind, b.kind);
  }

  /**
   Facts are listed pinned before confirmed, then decisions, constraints, goals, progress, notes and open items, then
   the newest first, then by id.
   */
  lemma FactOrder(a: Fact, b: Fact)
    ensures FactLe(a, b) <==>
            || Precedes(LIFECYCLES, a.lifecycle, b.lifecycle)
            || (a.lifecycle == b.lifecycle && Precedes(KINDS, a.kind, b.kind))
            || (a.lifecycle == b.lifecycle && a.kind == b.kind && a.updatedAt > b.updatedAt)
            || (a.lifecycle == b.lifecycle && a.kind == b.kind && a.updatedAt == b.updatedAt && StringLe(a.id, b.id))
  {
    FactRanksAreListed(a, b);
  }

  lemma FileRanksAreListed(a: FileChange, b: FileChange)
    ensures Precedes(ATTRIBUTIONS, a.attribution, b.attribution) <==>
            AttributionRank(a.attribution) < AttributionRank(b.attribution)
    ensures Precedes(STATUSES, a.status, b.status) <==> StatusRank(a.status) < StatusRank(b.status)
  {
    assert ATTRIBUTIONS[0] == ModifiedBy && ATTRIBUTIONS[1] == ObservedChangedIn;
    PrecedesIff(ATTRIBUTIONS, AttributionRank, a.attribution, b.attribution);
    assert STATUSES[0] == Added && STATUSES[1] == Modified && STATUSES[2] == Renamed && STATUSES[3] == Copied;
    assert STATUSES[4] == Deleted && STATUSES[5] == TypeChanged && STATUSES[6] == Unmerged && STATUSES[7] == Unknown;
    PrecedesIff(STATUSES, StatusRank, a.status, b.status);
  }

  /** Files are listed with the agent's own first, then by path, by previous path with none first, and by status. */
  lemma FileOrder(a: FileChange, b: FileChange)
    ensures FileLe(a, b) <==>
            || Precedes(ATTRIBUTIONS, a.attribution, b.attribution)
            || (a.attribution == b.attribution && a.path != b.path && StringLe(a.path, b.path))
            || (a.attribution == b.attribution && a.path == b.path && a.previous != b.previous
                && (a.previous == None || (b.previous.Some? && StringLe(a.previous.value, b.previous.value))))
            || (a.attribution == b.attribution && a.path == b.path && a.previous == b.previous
                && (a.status == b.status || Precedes(STATUSES, a.status, b.status)))
  {
    FileRanksAreListed(a, b);
  }

  /** Tests are listed failed, passed, skipped, unknown, then the newest first, then by name and id. */
  lemma TestOrder(a: TestResult, b: TestResult)
    ensures TestLe(a, b) <==>
            || Precedes(TEST_STATUSES, a.status, b.status)
            || (a.status == b.status && a.occurredAt > b.occurredAt)
            || (a.status == b.status && a.occurredAt == b.occurredAt && a.name != b.name && StringLe(a.name, b.name))
            || (a.status == b.status && a.occurredAt == b.occurredAt && a.name == b.name && StringLe(a.id, b.id))
  {
    assert TEST_STATUSES[0] == TestFailed && TEST_STATUSES[1] == TestPassed;
    assert TEST_STATUSES[2] == TestSkipped && TEST_STATUSES[3] == TestUnknown;
    PrecedesIff(TEST_STATUSES, TestStatusRank, a.status, b.status);
  }

  predicate IsSmallerText(a: string, b: string, n: int) {
    0 <= n <= |a| && n < |b| && a[..n] == b[..n] && (n == |a| || a[n] < b[n])
  }

  /** Character by character, by code, and a text before those it begins. */
  lemma StringOrder(a: string, b: string)
    ensures StringLe(a, b) <==> a == b || exists n :: IsSmallerText(a, b, n)
  {
    Lexicographic.LessIff(a, b, CharRank);
    forall n
      ensures Lexicographic.IsSmallerAt(a, b, CharRank, n) <==> IsSmallerText(a, b, n)
    {
      if Lexicographic.IsSmallerAt(a, b, CharRank, n) {
        assert forall i :: 0 <= i < n ==> CharRank(a[i]) == CharRank(b[i]);
        assert a[..n] == b[..n];
      } else if IsSmallerText(a, b, n) {
        assert forall i :: 0 <= i < n ==> a[i] == a[..n][i] && b[i] == b[..n][i];
      }
    }
  }

  /** The last item stored under an id. */
  predicate IsLastOf(evidence: seq<Evidence>, k: int, id: string) {
    0 <= k < |evidence| && evidence[k].id == id && forall j :: k < j < |evidence| ==> evidence[j].id != id
  }

  lemma {:induction false} EvidenceByIdIsLast(evidence: seq<Evidence>, id: string)
    ensures id in EvidenceById(evidence) <==> exists k :: IsLastOf(evidence, k, id)
    ensures forall k :: IsLastOf(evidence, k, id) ==> id in EvidenceById(evidence) && EvidenceById(evidence)[id] == evidence[k]
    decreases |evidence|
  {
    if evidence != [] {
      var n := |evidence| - 1;
      var init := evidence[..n];
      EvidenceByIdIsLast(init, id);
      if evidence[n].id == id {
        assert IsLastOf(evidence, n, id);
      } else {
        assert forall k :: IsLastOf(evidence, k, id) <==> IsLastOf(init, k, id);
      }
    }
  }

  /** Verified evidence with an intact excerpt, of the fact's repository and task, and of this fact if of any. */
  predicate IsProof(item: Evidence, fact: Fact) {
    && item.verified && item.intact && item.repository == fact.repository && item.task == fact.task
    && (item.factId == None || item.factId == Some(fact.id))
  }

  /**
   A fact may enter a pack exactly when it is of this task, confirmed or pinned, fresh and not superseded, and names
   evidence whose last stored item is proof of it for each id.
   */
  lemma EligibleIff(fact: Fact, evidence: seq<Evidence>, repository: string, task: string)
    ensures IsEligible(fact, repository, task, EvidenceById(evidence)) <==>
            && fact.repository == repository && fact.task == task
            && (fact.lifecycle == Confirmed || fact.lifecycle == Pinned) && fact.isFresh && !fact.isSuperseded
            && fact.evidenceIds != []
            && forall id :: id in fact.evidenceIds ==> exists k :: IsLastOf(evidence, k, id) && IsProof(evidence[k], fact)
  {
    forall id
      ensures id in EvidenceById(evidence) && Supports(EvidenceById(evidence)[id], fact) <==>
              exists k :: IsLastOf(evidence, k, id) && IsProof(evidence[k], fact)
    {
      EvidenceByIdIsLast(evidence, id);
    }
    var byId := EvidenceById(evidence);
    assert (forall id :: id in fact.evidenceIds ==> id in byId && Supports(byId[id], fact)) <==>
           (forall k :: 0 <= k < |fact.evidenceIds| ==> fact.evidenceIds[k] in byId && Supports(byId[fact.evidenceIds[k]], fact));
  }

  /** A pack lists five facts, five unresolved items, eight files and three tests at most, all of this task. */
  lemma ListsAreLimited(facts: seq<Fact>, evidence: seq<Evidence>, files: seq<FileChange>, tests: seq<TestResult>,
                        repository: string, task: string)
    ensures var lists := Select(facts, evidence, files, tests, repository, task);
            && |lists.facts| <= 5 && |lists.unresolved| <= 5 && |lists.files| <= 8 && |lists.tests| <= 3
            && (forall f :: f in lists.files ==>
                  f in files && f.repository == repository && (f.task == None || f.task == Some(task)))
            && (forall t :: t in lists.tests ==>
                  t in tests && t.repository == repository && (t.task == None || t.task == Some(task)))
  {
    var keptFiles := Filter(files, (f: FileChange) => Belongs(f.repository, f.task, repository, task));
    var keptTests := Filter(tests, (t: TestResult) => Belongs(t.repository, t.task, repository, task));
    FileLeIsOrder();
    TestLeIsOrder();
    DedupIsFrom(keptFiles, FileLe, SamePaths);
    DedupIsFrom(keptTests, TestLe, SameTest);
    var lists := Select(facts, evidence, files, tests, repository, task);
    forall f | f in lists.files
      ensures f in keptFiles
    {
      assert f in Dedup(SortBy(keptFiles, FileLe), SamePaths);
    }
    forall t | t in lists.tests
      ensures t in keptTests
    {
      assert t in Dedup(SortBy(keptTests, TestLe), SameTest);
    }
  }

  lemma DedupIsFrom<T(!new)>(s: seq<T>, le: Order<T>, same: (T, T) -> bool)
    requires Total(le) && Transitive(le)
    ensures forall x :: x in Dedup(SortBy(s, le), same) ==> x in s
  {
    SortByIsSorted(s, le);
    DedupKeepsOrder(SortBy(s, le), same, le);
    forall x | x in Dedup(SortBy(s, le), same)
      ensures x in s
    {
      SortByMembers(s, le, x);
    }
  }

  /** A list that is not full leaves nothing out: each eligible fact is in it as often as it was given. */
  lemma ShortListsAreComplete(facts: seq<Fact>, evidence: seq<Evidence>, files: seq<FileChange>, tests: seq<TestResult>,
                              repository: string, task: string, x: Fact)
    requires IsEligible(x, repository, task, EvidenceById(evidence))
    ensures var lists := Select(facts, evidence, files, tests, repository, task);
            && (|lists.facts| < 5 && x.kind != OpenItem ==> multiset(lists.facts)[x] == multiset(facts)[x])
            && (|lists.unresolved| < 5 && x.kind == OpenItem ==> multiset(lists.unresolved)[x] == multiset(facts)[x])
  {
    var byId := EvidenceById(evidence);
    var ranked := RankedFacts(facts, repository, task, byId);
    FilterCounts(facts, f => IsEligible(f, repository, task, byId), x);
    FilterCounts(ranked, (f: Fact) => !f.kind.OpenItem?, x);
    FilterCounts(ranked, (f: Fact) => f.kind.OpenItem?, x);
  }

  /** Nor does a short list of files leave out paths, or one of tests an id. */
  lemma ShortListsCover(facts: seq<Fact>, evidence: seq<Evidence>, files: seq<FileChange>, tests: seq<TestResult>,
                        repository: string, task: string)
    ensures var lists := Select(facts, evidence, files, tests, repository, task);
            && (|lists.files| < 8 ==>
                  forall f :: f in files && f.repository == repository && (f.task == None || f.task == Some(task)) ==>
                    exists g :: g in lists.files && SamePaths(f, g))
            && (|lists.tests| < 3 ==>
                  forall t :: t in tests && t.repository == repository && (t.task == None || t.task == Some(task)) ==>
                    exists u :: u in lists.tests && t.id == u.id)
  {
    var keptFiles := Filter(files, (f: FileChange) => Belongs(f.repository, f.task, repository, task));
    var keptTests := Filter(tests, (t: TestResult) => Belongs(t.repository, t.task, repository, task));
    FileLeIsOrder();
    TestLeIsOrder();
    forall f | f in keptFiles
      ensures exists g :: g in Dedup(SortBy(keptFiles, FileLe), SamePaths) && SamePaths(f, g)
    {
      DedupCovers(keptFiles, FileLe, SamePaths, f);
    }
    forall t | t in keptTests
      ensures exists u :: u in Dedup(SortBy(keptTests, TestLe), SameTest) && t.id == u.id
    {
      DedupCovers(keptTests, TestLe, SameTest, t);
    }
  }

  lemma DedupCovers<T(!new)>(s: seq<T>, le: Order<T>, same: (T, T) -> bool, y: T)
    requires Total(le) && Transitive(le) && y in s && same(y, y)
    ensures exists z :: z in Dedup(SortBy(s, le), same) && same(y, z)
  {
    SortByIsSorted(s, le);
    SortByMembers(s, le, y);
    assert [] + SortBy(s, le) == SortBy(s, le);
    DedupFromCovers([], SortBy(s, le), same, le, y);
  }

  // ---------------------------------------------------------------- trimming

  /** The declared token count is a 32-bit number. */
  type Count = c: int | 0 <= c < 0x1_0000_0000

  /** `metadata` stands for everything in the pack that is never dropped. */
  datatype Pack = Pack(metadata: string, lists: Lists, tokenCount: Count)

  type Measure = Pack -> Count

  predicate IsEmpty(lists: Lists) {
    lists.tests == [] && lists.files == [] && lists.unresolved == [] && lists.facts == []
  }

  function Size(lists: Lists): nat {
    |lists.tests| + |lists.files| + |lists.unresolved| + |lists.facts|
  }

  /** Tests go first, then files, then unresolved items, then facts, each from the end. */
  function DropOne(lists: Lists): (r: Lists)
    requires !IsEmpty(lists)
    ensures Size(r) == Size(lists) - 1
  {
    if lists.tests != [] then lists.(tests := lists.tests[..|lists.tests| - 1])
    else if lists.files != [] then lists.(files := lists.files[..|lists.files| - 1])
    else if lists.unresolved != [] then lists.(unresolved := lists.unresolved[..|lists.unresolved| - 1])
    else lists.(facts := lists.facts[..|lists.facts| - 1])
  }

  /** The declared count after a number of recounts. */
  function Recount(pack: Pack, measure: Measure, n: nat): Count {
    if n == 0 then pack.tokenCount else measure(pack.(tokenCount := Recount(pack, measure, n - 1)))
  }

  /** The declared count settled on: the fifth recount, or an earlier one that repeats. */
  function Stabilized(pack: Pack, measure: Measure): Pack {
    pack.(tokenCount := Recount(pack, measure, 5))
  }

  lemma {:induction false} RecountRepeats(pack: Pack, measure: Measure, n: nat, later: nat)
    requires Recount(pack, measure, n + 1) == Recount(pack, measure, n) && n <= later
    ensures Recount(pack, measure, later) == Recount(pack, measure, n)
    decreases later - n
  {
    if n < later {
      RecountRepeats(pack, measure, n, later - 1);
    }
  }

  method StabilizeTokenCount(pack: Pack, measure: Measure) returns (r: Pack)
    ensures r == Stabilized(pack, measure)
  {
    r := pack;
    for k := 0 to 4
      invariant r == pack.(tokenCount := Recount(pack, measure, k))
    {
      var count := measure(r);
      if count == r.tokenCount {
        RecountRepeats(pack, measure, k, 5);
        return;
      }
      r := r.(tokenCount := count);
    }
    r := r.(tokenCount := measure(r));
  }

  /** A larger declared count makes the pack no shorter, and at most four tokens longer. */
  ghost predicate GrowsLittle(measure: Measure) {
    forall pack: Pack, a: Count, b: Count :: a <= b ==>
      measure(pack.(tokenCount := a)) <= measure(pack.(tokenCount := b)) <= measure(pack.(tokenCount := a)) + 4
  }

  lemma OneMoreRecount(pack: Pack, measure: Measure, n: nat)
    ensures Recount(pack, measure, n + 1) == measure(pack.(tokenCount := Recount(pack, measure, n)))
  {
  }

  /** Recounts move in the direction of the first one. */
  lemma {:induction false} RecountsKeepDirection(pack: Pack, measure: Measure, n: nat)
    requires GrowsLittle(measure)
    ensures Recount(pack, measure, 0) <= Recount(pack, measure, 1) ==> Recount(pack, measure, n) <= Recount(pack, measure, n + 1)
    ensures Recount(pack, measure, 1) <= Recount(pack, measure, 0) ==> Recount(pack, measure, n + 1) <= Recount(pack, measure, n)
  {
    if n > 0 {
      RecountsKeepDirection(pack, measure, n - 1);
      OneMoreRecount(pack, measure, n - 1);
      OneMoreRecount(pack, measure, n);
    }
  }

  lemma RecountsAreClose(pack: Pack, measure: Measure, m: nat, n: nat)
    requires GrowsLittle(measure)
    ensures Recount(pack, measure, n + 1) <= Recount(pack, measure, m + 1) + 4
  {
    OneMoreRecount(pack, measure, m);
    OneMoreRecount(pack, measure, n);
    var (low, high) := (Recount(pack, measure, m), Recount(pack, measure, n));
    assert low <= high ==> measure(pack.(tokenCount := high)) <= measure(pack.(tokenCount := low)) + 4;
    assert high <= low ==> measure(pack.(tokenCount := high)) <= measure(pack.(tokenCount := low));
  }

  predicate Repeats(pack: Pack, measure: Measure, n: nat) {
    Recount(pack, measure, n + 1) == Recount(pack, measure, n)
  }

  lemma RepeatGoesOn(pack: Pack, measure: Measure, n: nat)
    requires Repeats(pack, measure, n)
    ensures Repeats(pack, measure, n + 1)
  {
    RecountRepeats(pack, measure, n, n + 2);
  }

  predicate Rises(pack: Pack, measure: Measure, n: nat) {
    Recount(pack, measure, n) <= Recount(pack, measure, n + 1)
  }

  predicate Falls(pack: Pack, measure: Measure, n: nat) {
    Recount(pack, measure, n + 1) <= Recount(pack, measure, n)
  }

  /** Every recount that has not settled has moved one token further from the first. */
  lemma {:induction false} SettlesOrClimbs(pack: Pack, measure: Measure, n: nat)
    requires forall k: nat :: Rises(pack, measure, k)
    ensures Repeats(pack, measure, n) || Recount(pack, measure, n + 1) >= Recount(pack, measure, 1) + n
  {
    if n > 0 {
      SettlesOrClimbs(pack, measure, n - 1);
      assert Rises(pack, measure, n);
      if Repeats(pack, measure, n - 1) {
        RepeatGoesOn(pack, measure, n - 1);
      }
    }
  }

  lemma {:induction false} SettlesOrSinks(pack: Pack, measure: Measure, n: nat)
    requires forall k: nat :: Falls(pack, measure, k)
    ensures Repeats(pack, measure, n) || Recount(pack, measure, n + 1) + n <= Recount(pack, measure, 1)
  {
    if n > 0 {
      SettlesOrSinks(pack, measure, n - 1);
      assert Falls(pack, measure, n);
      if Repeats(pack, measure, n - 1) {
        RepeatGoesOn(pack, measure, n - 1);
      }
    }
  }

  lemma RecountsMoveOneWay(pack: Pack, measure: Measure)
    requires GrowsLittle(measure)
    ensures (forall k: nat :: Rises(pack, measure, k)) || (forall k: nat :: Falls(pack, measure, k))
  {
    if Recount(pack, measure, 0) <= Recount(pack, measure, 1) {
      forall k: nat
        ensures Rises(pack, measure, k)
      {
        RecountsKeepDirection(pack, measure, k);
      }
    } else {
      forall k: nat
        ensures Falls(pack, measure, k)
      {
        RecountsKeepDirection(pack, measure, k);
      }
    }
  }

  lemma SixthRecountRepeats(pack: Pack, measure: Measure)
    requires GrowsLittle(measure)
    ensures Repeats(pack, measure, 5)
  {
    RecountsMoveOneWay(pack, measure);
    if forall k: nat :: Rises(pack, measure, k) {
      SettlesOrClimbs(pack, measure, 5);
      RecountsAreClose(pack, measure, 0, 5);
    } else {
      SettlesOrSinks(pack, measure, 5);
      RecountsAreClose(pack, measure, 5, 0);
    }
  }

  /** Five recounts are enough: the declared count is the measured one. */
  lemma DeclaredCountIsExact(pack: Pack, measure: Measure)
    requires GrowsLittle(measure)
    ensures measure(Stabilized(pack, measure)) == Stabilized(pack, measure).tokenCount
  {
    OneMoreRecount(pack, measure, 5);
    SixthRecountRepeats(pack, measure);
  }

  /** The tokens of a number: its digits in groups of three. */
  function Groups(n: nat): nat {
    if n < 1000 then 1 else 1 + Groups(n / 1000)
  }

  /** A tokenizer that splits numbers into groups of three digits, wherever the rest of the pack breaks. */
  ghost predicate CountsDigitGroups(measure: Measure) {
    forall pack: Pack, a: Count, b: Count ::
      measure(pack.(tokenCount := a)) - Groups(a) == measure(pack.(tokenCount := b)) - Groups(b)
  }

  lemma {:induction false} MoreGroups(a: nat, b: nat)
    requires a <= b
    ensures 1 <= Groups(a) <= Groups(b)
    decreases b
  {
    if b >= 1000 {
      MoreGroups(if a < 1000 then 0 else a / 1000, b / 1000);
    }
  }

  lemma FewGroups(n: Count)
    ensures Groups(n) <= 4
  {
    assert n / 1000 / 1000 / 1000 < 1000;
    assert Groups(n / 1000 / 1000 / 1000) == 1;
    assert Groups(n / 1000 / 1000) <= 2;
    assert Groups(n / 1000) <= 3;
  }

  /** Such a tokenizer is one for which the recounts settle. */
  lemma DigitGroupsGrowLittle(measure: Measure)
    requires CountsDigitGroups(measure)
    ensures GrowsLittle(measure)
  {
    forall pack: Pack, a: Count, b: Count | a <= b
      ensures measure(pack.(tokenCount := a)) <= measure(pack.(tokenCount := b)) <= measure(pack.(tokenCount := a)) + 4
    {
      MoreGroups(a, b);
      FewGroups(b);
    }
  }

  /** The pack after a number of drops, each followed by a recount. */
  ghost function Chain(pack: Pack, measure: Measure, n: nat): (r: Pack)
    requires n <= Size(pack.lists)
    ensures Size(r.lists) == Size(pack.lists) - n
    ensures r.metadata == pack.metadata
  {
    if n == 0 then Stabilized(pack, measure)
    else
      var before := Chain(pack, measure, n - 1);
      Stabilized(before.(lists := DropOne(before.lists)), measure)
  }

  ghost predicate AllOver(pack: Pack, measure: Measure, budget: nat, n: nat)
    requires n <= Size(pack.lists) + 1
  {
    forall k :: 0 <= k < n ==> Chain(pack, measure, k).tokenCount > budget
  }

  lemma OneMoreOver(pack: Pack, measure: Measure, budget: nat, n: nat)
    requires n <= Size(pack.lists) && AllOver(pack, measure, budget, n) && Chain(pack, measure, n).tokenCount > budget
    ensures AllOver(pack, measure, budget, n + 1)
  {
  }

  lemma OneMoreInChain(pack: Pack, measure: Measure, n: nat, next: Pack)
    requires n < Size(pack.lists)
    requires next == Chain(pack, measure, n).(lists := DropOne(Chain(pack, measure, n).lists))
    ensures Stabilized(next, measure) == Chain(pack, measure, n + 1)
  {
  }

  /** The first pack of the drop chain whose declared count fits; failure when none does. */
  method Trim(pack: Pack, measure: Measure, budget: nat) returns (r: Result<Pack>, ghost drops: nat)
    ensures drops <= Size(pack.lists)
    ensures r.Ok? ==> r.value == Chain(pack, measure, drops) && r.value.tokenCount <= budget
                      && AllOver(pack, measure, budget, drops)
    ensures r.Err? ==> AllOver(pack, measure, budget, Size(pack.lists) + 1)
  {
    var current := pack;
    drops := 0;
    while true
      invariant drops <= Size(pack.lists)
      invariant Stabilized(current, measure) == Chain(pack, measure, drops)
      invariant Size(current.lists) == Size(pack.lists) - drops
      invariant AllOver(pack, measure, budget, drops)
      decreases Size(current.lists)
    {
      current := StabilizeTokenCount(current, measure);
      if current.tokenCount <= budget {
        return Ok(current), drops;
      }
      OneMoreOver(pack, measure, budget, drops);
      if IsEmpty(current.lists) {
        return Err("required context pack metadata exceeds the budget"), drops;
      }
      current := current.(lists := DropOne(current.lists));
      OneMoreInChain(pack, measure, drops, current);
      drops := drops + 1;
    }
  }

  function Minus(a: nat, b: nat): nat {
    if a <= b then 0 else a - b
  }

  /** After `n` drops, which items are left: a prefix of each list, emptied in a fixed order. */
  ghost function LeftAfter(lists: Lists, n: nat): Lists {
    var t, f, u := |lists.tests|, |lists.files|, |lists.unresolved|;
    Lists(lists.facts[..Minus(|lists.facts|, Minus(n, t + f + u))],
          lists.unresolved[..Minus(u, Minus(n, t + f))],
          lists.files[..Minus(f, Minus(n, t))],
          lists.tests[..Minus(t, n)])
  }

  lemma OneMoreDrop(lists: Lists, n: nat)
    requires n < Size(lists)
    ensures Size(LeftAfter(lists, n)) == Size(lists) - n
    ensures DropOne(LeftAfter(lists, n)) == LeftAfter(lists, n + 1)
  {
    var t, f, u := |lists.tests|, |lists.files|, |lists.unresolved|;
    if n < t {
      assert lists.tests[..t - n][..t - n - 1] == lists.tests[..t - (n + 1)];
    } else if n < t + f {
      assert lists.files[..t + f - n][..t + f - n - 1] == lists.files[..t + f - (n + 1)];
    } else if n < t + f + u {
      assert lists.unresolved[..t + f + u - n][..t + f + u - n - 1] == lists.unresolved[..t + f + u - (n + 1)];
    }
  }

  lemma {:induction false} ChainDropsFromTheEnds(pack: Pack, measure: Measure, n: nat)
    requires n <= Size(pack.lists)
    ensures Chain(pack, measure, n).lists == LeftAfter(pack.lists, n)
    decreases n
  {
    if n > 0 {
      ChainDropsFromTheEnds(pack, measure, n - 1);
      OneMoreDrop(pack.lists, n - 1);
    }
  }

  lemma ChainIsExact(pack: Pack, measure: Measure, n: nat)
    requires n <= Size(pack.lists) && GrowsLittle(measure)
    ensures measure(Chain(pack, measure, n)) == Chain(pack, measure, n).tokenCount
  {
    if n == 0 {
      DeclaredCountIsExact(pack, measure);
    } else {
      var before := Chain(pack, measure, n - 1);
      DeclaredCountIsExact(before.(lists := DropOne(before.lists)), measure);
    }
  }

  function EffectiveBudget(tokenBudget: nat): nat {
    if tokenBudget <= MAX_TOKEN_BUDGET then tokenBudget else MAX_TOKEN_BUDGET
  }

  /** The pack after `n` drops is the first of the chain that is declared to fit. */
  ghost predicate IsFirstFitting(full: Pack, measure: Measure, budget: nat, r: Pack, n: nat) {
    && n <= Size(full.lists) && r == Chain(full, measure, n) && r.lists == LeftAfter(full.lists, n)
    && r.tokenCount <= budget && AllOver(full, measure, budget, n)
  }

  /** The whole builder: selection, then trimming under the capped budget. */
  method Build(metadata: string, facts: seq<Fact>, evidence: seq<Evidence>, files: seq<FileChange>,
               tests: seq<TestResult>, repository: string, task: string, tokenBudget: nat, measure: Measure)
    returns (r: Result<Pack>)
    ensures var full := Pack(metadata, Select(facts, evidence, files, tests, repository, task), 0);
            var budget := if tokenBudget < 2000 then tokenBudget else 2000;
            && (r.Err? <==> budget == 0 || AllOver(full, measure, budget, Size(full.lists) + 1))
            && (r.Ok? ==> exists n :: IsFirstFitting(full, measure, budget, r.value, n))
            && (r.Ok? && GrowsLittle(measure) ==> measure(r.value) == r.value.tokenCount <= budget)
  {
    var budget := EffectiveBudget(tokenBudget);
    if budget == 0 {
      return Err("context pack token budget must be greater than zero");
    }
    var pack := Pack(metadata, Select(facts, evidence, files, tests, repository, task), 0);
    ghost var drops;
    r, drops := Trim(pack, measure, budget);
    if r.Ok? {
      ChainDropsFromTheEnds(pack, measure, drops);
      assert IsFirstFitting(pack, measure, budget, r.value, drops);
      if GrowsLittle(measure) {
        ChainIsExact(pack, measure, drops);
      }
    }
  }
}
