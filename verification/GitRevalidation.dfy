/**
 `revalidate_task` of `src/git.rs`: whether the files a task depends on are still as they
 were at its checkpoint. What Git and the filesystem answer is given as a value.
 */
module GitRevalidation {
  import opened Characters
  import opened GitChanges
  import opened GitPaths
  import opened Wrappers

  datatype Change = Change(path: string, previous: Option<string>, status: Status)

  datatype ContentState = Missing | Sha256(hash: string) | Unsupported

  datatype Probe = Found(state: ContentState) | Failed

  datatype Temporal = Unchanged | Changed | Diverged | Broken | Degraded

  datatype Baseline = Baseline(repository: string, head: Option<string>, fingerprints: map<string, Option<string>>)

  /**
   The repository now: its head and uncommitted changes, whether the baseline commit still
   resolves and is an ancestor, what was committed since, and the content of a path.
   */
  datatype Repository = Repository(id: string, head: Option<string>, working: seq<Change>,
                                   commitExists: bool, ancestor: bool, committed: seq<Change>,
                                   content: string -> Probe)

  datatype Outcome = Verdict(status: Temporal, related: map<Key, Change>, checked: set<string>) | Error

  type Sensitive = string -> bool

  // ---------------------------------------------------------------- what is compared

  ghost predicate IsChecked(files: seq<Change>, sensitive: Sensitive, p: string) {
    exists f :: f in files && (ValidatePath(f.path, sensitive) == Some(p)
                               || (f.previous.Some? && ValidatePath(f.previous.value, sensitive) == Some(p)))
  }

  /** The validated current and previous paths of the task's files. */
  ghost function Checked(files: seq<Change>, sensitive: Sensitive): (r: set<string>)
    ensures forall p :: p in r <==> IsChecked(files, sensitive, p)
  {
    (set f | f in files && ValidatePath(f.path, sensitive).Some? :: ValidatePath(f.path, sensitive).value)
    + (set f | f in files && f.previous.Some? && ValidatePath(f.previous.value, sensitive).Some?
         :: ValidatePath(f.previous.value, sensitive).value)
  }

  method CheckedPaths(files: seq<Change>, sensitive: Sensitive) returns (checked: set<string>)
    ensures checked == Checked(files, sensitive)
  {
    checked := {};
    for k := 0 to |files|
      invariant forall p :: p in checked <==> IsChecked(files[..k], sensitive, p)
    {
      var f := files[k];
      assert files[..k + 1] == files[..k] + [f];
      var path := ValidatePath(f.path, sensitive);
      if path.Some? {
        checked := checked + {path.value};
      }
      if f.previous.Some? {
        var previous := ValidatePath(f.previous.value, sensitive);
        if previous.Some? {
          checked := checked + {previous.value};
        }
      }
    }
    assert files[..|files|] == files;
  }

  predicate TouchesAny(c: Change, paths: set<string>) {
    NormalizePath(c.path) in paths || (c.previous.Some? && NormalizePath(c.previous.value) in paths)
  }

  predicate TouchesPath(c: Change, path: string) {
    NormalizePath(c.path) == path || (c.previous.Some? && NormalizePath(c.previous.value) == path)
  }

  function FromStored(fingerprint: Option<string>): ContentState {
    if fingerprint.None? then Missing else Sha256(fingerprint.value)
  }

  /** A path whose content is recorded and has not moved. */
  predicate Same(recorded: map<string, ContentState>, content: string -> Probe, p: string) {
    p in recorded && content(p) == Found(recorded[p])
  }

  predicate SameContent(c: Change, recorded: map<string, ContentState>, content: string -> Probe) {
    Same(recorded, content, NormalizePath(c.path))
    && (c.previous.Some? ==> Same(recorded, content, NormalizePath(c.previous.value)))
  }

  /** The checkpoint's states of the checked paths. Later paths of `keys` replace earlier ones. */
  function Recorded(keys: seq<string>, fingerprints: map<string, Option<string>>, checked: set<string>, sensitive: Sensitive)
    : map<string, ContentState>
    requires forall k :: k in keys ==> k in fingerprints
  {
    if keys == [] then map[]
    else
      var init := Recorded(keys[..|keys| - 1], fingerprints, checked, sensitive);
      var key := keys[|keys| - 1];
      var path := ValidatePath(key, sensitive);
      if path.Some? && path.value in checked then init[path.value := FromStored(fingerprints[key])] else init
  }

  ghost predicate ExpectedAbsent(files: seq<Change>, p: string) {
    exists f :: f in files
                && ((f.status == Deleted && NormalizePath(f.path) == p)
                    || (f.status == Renamed && f.previous.Some? && NormalizePath(f.previous.value) == p))
  }

  method ExpectedAbsentPaths(files: seq<Change>) returns (r: set<string>)
    ensures forall p :: p in r <==> ExpectedAbsent(files, p)
  {
    r := {};
    for k := 0 to |files|
      invariant forall p :: p in r <==> ExpectedAbsent(files[..k], p)
    {
      var f := files[k];
      assert files[..k + 1] == files[..k] + [f];
      if f.status == Deleted {
        r := r + {NormalizePath(f.path)};
      } else if f.status == Renamed && f.previous.Some? {
        r := r + {NormalizePath(f.previous.value)};
      }
    }
    assert files[..|files|] == files;
  }

  // ---------------------------------------------------------------- when nothing moved

  /** There is a comparable baseline at all. */
  ghost predicate Comparable(baseline: Option<Baseline>, repo: Repository, files: seq<Change>, sensitive: Sensitive) {
    && baseline.Some? && baseline.value.repository == repo.id
    && (exists p :: IsChecked(files, sensitive, p))
    && baseline.value.head.Some? && repo.head.Some? && repo.commitExists
  }

  ghost predicate NothingMoved(repo: Repository, files: seq<Change>, recorded: map<string, ContentState>, checked: set<string>) {
    && (forall p :: p in recorded ==> repo.content(p) == Found(recorded[p]))
    && (forall c :: c in repo.committed + repo.working && TouchesAny(c, checked) ==> SameContent(c, recorded, repo.content))
    && (forall p :: p in checked && repo.content(p) == Found(Missing) ==> ExpectedAbsent(files, p))
  }

  // ---------------------------------------------------------------- the algorithm

  /** A change of a checked path that does not restore its recorded content. */
  predicate IsUnrestored(c: Change, checked: set<string>, recorded: map<string, ContentState>, content: string -> Probe) {
    TouchesAny(c, checked) && !SameContent(c, recorded, content)
  }

  /** The changes that touch a checked path without restoring its recorded content, in their order. */
  function Unrestored(all: seq<Change>, checked: set<string>, recorded: map<string, ContentState>, content: string -> Probe)
    : (r: seq<Change>)
    ensures forall c :: c in r <==> c in all && IsUnrestored(c, checked, recorded, content)
  {
    if all == [] then []
    else
      var last := all[|all| - 1];
      assert all == all[..|all| - 1] + [last];
      Unrestored(all[..|all| - 1], checked, recorded, content)
      + if IsUnrestored(last, checked, recorded, content) then [last] else []
  }

  method RelatedChanges(all: seq<Change>, checked: set<string>, recorded: map<string, ContentState>, content: string -> Probe)
    returns (related: seq<Change>)
    ensures related == Unrestored(all, checked, recorded, content)
  {
    related := [];
    for k := 0 to |all|
      invariant related == Unrestored(all[..k], checked, recorded, content)
    {
      assert all[..k + 1][..k] == all[..k];
      if IsUnrestored(all[k], checked, recorded, content) {
        related := related + [all[k]];
      }
    }
    assert all[..|all|] == all;
  }

  function StatusBetween(expected: ContentState, actual: ContentState): Status {
    match (expected, actual)
    case (Missing, Sha256(_)) => Added
    case (Sha256(_), Missing) => Deleted
    case (Unsupported, _) => TypeChanged
    case (_, Unsupported) => TypeChanged
    case _ => Modified
  }

  predicate HasMoved(recorded: map<string, ContentState>, content: string -> Probe, p: string) {
    p in recorded && content(p) != Found(recorded[p])
  }

  /** What a moved path's change says: it came, it went, it stopped or started to be a plain file, or it has other content. */
  predicate SaysWhatMoved(status: Status, before: ContentState, now: ContentState) {
    && (status == Added <==> before == Missing && now.Sha256?)
    && (status == Deleted <==> before.Sha256? && now == Missing)
    && (status == TypeChanged <==> before == Unsupported || now == Unsupported)
    && (status == Modified <==> before.Sha256? && now.Sha256?)
  }

  /** A change made up for a moved path that no touching change names. */
  ghost predicate IsMadeUp(c: Change, recorded: map<string, ContentState>, content: string -> Probe, touching: seq<Change>) {
    && HasMoved(recorded, content, c.path) && content(c.path).Found?
    && c.previous.None? && SaysWhatMoved(c.status, recorded[c.path], content(c.path).state)
    && forall t :: t in touching ==> !TouchesPath(t, c.path)
  }

  ghost predicate Names(c: Change, p: string) {
    TouchesPath(c, p) || c.path == p
  }

  /** Adds a change for every recorded path whose content moved without any listed change naming it. */
  method AddContentChanges(recorded: map<string, ContentState>, content: string -> Probe, start: seq<Change>)
    returns (found: seq<Change>)
    requires forall p :: p in recorded ==> content(p).Found?
    ensures start <= found
    ensures forall p :: HasMoved(recorded, content, p) ==> exists k :: 0 <= k < |found| && Names(found[k], p)
    ensures forall i :: |start| <= i < |found| ==> IsMadeUp(found[i], recorded, content, start)
  {
    found := start;
    var rest := recorded.Keys;
    while rest != {}
      invariant rest <= recorded.Keys && start <= found
      invariant forall p :: p !in rest && HasMoved(recorded, content, p) ==>
                  exists k :: 0 <= k < |found| && Names(found[k], p)
      invariant forall i :: |start| <= i < |found| ==> IsMadeUp(found[i], recorded, content, start)
      decreases rest
    {
      var p :| p in rest;
      rest := rest - {p};
      if content(p).state != recorded[p] && !exists k :: 0 <= k < |found| && TouchesPath(found[k], p) {
        ghost var earlier := found;
        assert forall t :: t in start ==> exists k :: 0 <= k < |start| && start[k] == t && found[k] == t;
        found := found + [Change(p, None, StatusBetween(recorded[p], content(p).state))];
        assert Names(found[|earlier|], p);
        assert forall k :: 0 <= k < |earlier| ==> found[k] == earlier[k];
      } else {
        assert HasMoved(recorded, content, p) ==> exists k :: 0 <= k < |found| && TouchesPath(found[k], p) && Names(found[k], p);
      }
    }
  }

  /** A rename replaces its old path by its new one. */
  ghost function Follow(paths: set<string>, c: Change): set<string> {
    if c.status != Renamed then paths
    else (if c.previous.Some? then paths - {NormalizePath(c.previous.value)} else paths) + {NormalizePath(c.path)}
  }

  /** The checked paths moved along each rename in order. */
  ghost function Moved(changes: seq<Change>, checked: set<string>): set<string> {
    if changes == [] then checked
    else Follow(Moved(changes[..|changes| - 1], checked), changes[|changes| - 1])
  }

  function KeyOf(c: Change): Key {
    Key(c.path, c.previous)
  }

  predicate IsLast(changes: seq<Change>, i: int) {
    0 <= i < |changes| && forall j :: i < j < |changes| ==> KeyOf(changes[j]) != KeyOf(changes[i])
  }

  /** One change for each pair of paths: the last one. */
  ghost predicate Deduplicated(changes: seq<Change>, related: map<Key, Change>) {
    && (forall c :: c in changes ==> KeyOf(c) in related)
    && (forall k :: k in related ==> exists i :: IsLast(changes, i) && related[k] == changes[i] && k == KeyOf(changes[i]))
  }

  /** Deduplicates the changes and moves the checked paths along renames. */
  method Settle(changes: seq<Change>, checked: set<string>) returns (related: map<Key, Change>, moved: set<string>)
    ensures Deduplicated(changes, related)
    ensures moved == Moved(changes, checked)
  {
    related, moved := map[], checked;
    for k := 0 to |changes|
      invariant Deduplicated(changes[..k], related)
      invariant moved == Moved(changes[..k], checked)
    {
      var change := changes[k];
      SettleNext(changes[..k], change, related, checked);
      assert changes[..k + 1] == changes[..k] + [change];
      if change.status == Renamed {
        if change.previous.Some? {
          moved := moved - {NormalizePath(change.previous.value)};
        }
        moved := moved + {NormalizePath(change.path)};
      }
      related := related[KeyOf(change) := change];
    }
    assert changes[..|changes|] == changes;
  }

  lemma SettleNext(changes: seq<Change>, change: Change, related: map<Key, Change>, checked: set<string>)
    requires Deduplicated(changes, related)
    ensures Deduplicated(changes + [change], related[KeyOf(change) := change])
    ensures Moved(changes + [change], checked) == Follow(Moved(changes, checked), change)
  {
    DeduplicatedNext(changes, change, related);
    assert (changes + [change])[..|changes|] == changes;
  }

  lemma DeduplicatedNext(changes: seq<Change>, change: Change, related: map<Key, Change>)
    requires Deduplicated(changes, related)
    ensures Deduplicated(changes + [change], related[KeyOf(change) := change])
  {
    var longer, next := changes + [change], related[KeyOf(change) := change];
    assert IsLast(longer, |changes|) && longer[|changes|] == change;
    forall k | k in next
      ensures exists i :: IsLast(longer, i) && next[k] == longer[i] && k == KeyOf(longer[i])
    {
      if k != KeyOf(change) {
        var i :| IsLast(changes, i) && related[k] == changes[i] && k == KeyOf(changes[i]);
        assert IsLast(longer, i) && longer[i] == changes[i];
      }
    }
  }

  predicate AnyMissing(paths: set<string>, absent: set<string>, content: string -> Probe) {
    exists p :: p in paths && p !in absent && content(p) == Found(Missing)
  }

  /** A recorded file is gone. */
  predicate ContentLost(recorded: map<string, ContentState>, content: string -> Probe) {
    exists p :: p in recorded && recorded[p].Sha256? && content(p) == Found(Missing)
  }

  predicate AnyDeleted(related: map<Key, Change>) {
    exists k :: k in related && related[k].status == Deleted
  }

  predicate AnyMoved(recorded: map<string, ContentState>, content: string -> Probe) {
    exists p :: p in recorded && content(p) != Found(recorded[p])
  }

  /** A change Git lists, committed or not, that touches a checked path without restoring its recorded content. */
  predicate IsListed(repo: Repository, recorded: map<string, ContentState>, checked: set<string>, c: Change) {
    c in repo.committed + repo.working && IsUnrestored(c, checked, recorded, repo.content)
  }

  /** A change made up for a path recorded under a name that is not its normalized one. */
  ghost predicate IsMadeUpOver(repo: Repository, recorded: map<string, ContentState>, c: Change) {
    NormalizePath(c.path) != c.path && HasMoved(recorded, repo.content, c.path)
  }

  /**
   What is reported: of the listed changes the last one of each pair of paths, and a change for every moved path
   that none of them names.
   */
  ghost predicate Reports(repo: Repository, recorded: map<string, ContentState>, checked: set<string>,
                          related: map<Key, Change>) {
    var all := repo.committed + repo.working;
    && (forall c :: IsListed(repo, recorded, checked, c) ==> KeyOf(c) in related)
    && (forall i :: IsLast(all, i) && IsListed(repo, recorded, checked, all[i]) ==>
          KeyOf(all[i]) in related && (related[KeyOf(all[i])] == all[i] || IsMadeUpOver(repo, recorded, all[i])))
    && (forall p :: HasMoved(recorded, repo.content, p) ==> exists k :: k in related && Names(related[k], p))
    && (forall k :: k in related ==> k == KeyOf(related[k]))
    && (forall k :: k in related ==>
          || IsListed(repo, recorded, checked, related[k])
          || IsMadeUp(related[k], recorded, repo.content, Unrestored(all, checked, recorded, repo.content)))
  }

  ghost predicate IsMissing(repo: Repository, files: seq<Change>, moved: set<string>) {
    exists p :: p in moved && !ExpectedAbsent(files, p) && repo.content(p) == Found(Missing)
  }

  /** A path is unexpectedly missing, a recorded file is gone, or a listed deletion is reported. */
  ghost predicate IsLost(repo: Repository, files: seq<Change>, recorded: map<string, ContentState>, checked: set<string>,
                         related: map<Key, Change>, moved: set<string>) {
    || IsMissing(repo, files, moved)
    || (exists p :: p in recorded && recorded[p].Sha256? && repo.content(p) == Found(Missing))
    || (exists c :: IsListed(repo, recorded, checked, c) && c.status == Deleted && KeyOf(c) in related && related[KeyOf(c)] == c)
  }

  /** The checked paths, moved along the listed renames in Git's order. */
  ghost function MovedPaths(repo: Repository, recorded: map<string, ContentState>, checked: set<string>): set<string> {
    Moved(Unrestored(repo.committed + repo.working, checked, recorded, repo.content), checked)
  }

  /** The verdict on a comparable baseline, given what is reported. */
  ghost predicate Justified(repo: Repository, files: seq<Change>, recorded: map<string, ContentState>,
                            checked: set<string>, status: Temporal, related: map<Key, Change>, moved: set<string>) {
    && Reports(repo, recorded, checked, related)
    && moved == MovedPaths(repo, recorded, checked)
    && (status == Diverged <==> !repo.ancestor)
    && (status == Broken <==> repo.ancestor && IsLost(repo, files, recorded, checked, related, moved))
    && (status == Unchanged <==> repo.ancestor && NothingMoved(repo, files, recorded, checked))
    && status != Degraded
  }

  /**
   The verdict is `Unchanged` exactly when a comparable baseline is an ancestor and nothing
   moved. `keys` lists the baseline's fingerprinted paths in the order they are read.
   */
  method RevalidateTask(repo: Repository, baseline: Option<Baseline>, files: seq<Change>, keys: seq<string>, sensitive: Sensitive)
    returns (r: Outcome)
    requires baseline.Some? ==> forall k :: k in keys <==> k in baseline.value.fingerprints
    ensures !Comparable(baseline, repo, files, sensitive) ==> r == Verdict(Degraded, map[], Checked(files, sensitive))
    ensures Comparable(baseline, repo, files, sensitive) ==>
              var checked := Checked(files, sensitive);
              var recorded := Recorded(keys, baseline.value.fingerprints, checked, sensitive);
              && (r.Error? <==> exists p :: p in recorded && repo.content(p).Failed?)
              && (r.Verdict? ==> Justified(repo, files, recorded, checked, r.status, r.related, r.checked))
              && (r.Verdict? && r.status == Unchanged ==> TouchedPathsAreAsRecorded(repo, recorded, checked, sensitive))
  {
    var checked := CheckedPaths(files, sensitive);
    assert (exists p :: IsChecked(files, sensitive, p)) <==> checked != {} by {
      if checked != {} {
        var p :| p in checked;
        assert IsChecked(files, sensitive, p);
      }
    }
    if baseline.None? || baseline.value.repository != repo.id || checked == {}
       || baseline.value.head.None? || repo.head.None? || !repo.commitExists {
      return Verdict(Degraded, map[], checked);
    }
    var recorded := Recorded(keys, baseline.value.fingerprints, checked, sensitive);
    if exists p :: p in recorded && repo.content(p).Failed? {
      return Error;
    }
    var status, related, moved := Judge(repo, files, recorded, checked);
    if status == Unchanged {
      UnchangedMeansPathsAreAsRecorded(repo, files, recorded, checked, sensitive);
    }
    r := Verdict(status, related, moved);
  }

  method Judge(repo: Repository, files: seq<Change>, recorded: map<string, ContentState>, checked: set<string>)
    returns (status: Temporal, related: map<Key, Change>, moved: set<string>)
    requires forall p :: p in recorded ==> repo.content(p).Found?
    ensures Justified(repo, files, recorded, checked, status, related, moved)
  {
    var touching := RelatedChanges(repo.committed + repo.working, checked, recorded, repo.content);
    var changes := AddContentChanges(recorded, repo.content, touching);
    var absent := ExpectedAbsentPaths(files);
    related, moved := Settle(changes, checked);
    if !repo.ancestor {
      status := Diverged;
    } else if AnyMissing(moved, absent, repo.content) || ContentLost(recorded, repo.content) || AnyDeleted(related) {
      status := Broken;
    } else if related == map[] && !AnyMoved(recorded, repo.content) {
      status := Unchanged;
    } else {
      status := Changed;
    }
    SettledIsJustified(repo, files, recorded, checked, touching, changes, related, moved);
    assert AnyMissing(moved, absent, repo.content) <==> IsMissing(repo, files, moved);
  }

  /** What the settled changes report, and how the tests that give the verdict read the inputs. */
  lemma SettledIsJustified(repo: Repository, files: seq<Change>, recorded: map<string, ContentState>, checked: set<string>,
                           touching: seq<Change>, changes: seq<Change>, related: map<Key, Change>, moved: set<string>)
    requires touching == Unrestored(repo.committed + repo.working, checked, recorded, repo.content)
    requires touching <= changes && Deduplicated(changes, related) && moved == Moved(changes, checked)
    requires forall p :: HasMoved(recorded, repo.content, p) ==> exists k :: 0 <= k < |changes| && Names(changes[k], p)
    requires forall i :: |touching| <= i < |changes| ==> IsMadeUp(changes[i], recorded, repo.content, touching)
    ensures Reports(repo, recorded, checked, related) && moved == MovedPaths(repo, recorded, checked)
    ensures IsLost(repo, files, recorded, checked, related, moved) <==>
            IsMissing(repo, files, moved) || ContentLost(recorded, repo.content) || AnyDeleted(related)
    ensures NothingMoved(repo, files, recorded, checked) <==>
            related == map[] && !AnyMoved(recorded, repo.content) && !IsLost(repo, files, recorded, checked, related, moved)
  {
    DeduplicatedReports(repo, recorded, checked, touching, changes, related);
    MadeUpsMoveNothing(recorded, repo.content, checked, touching, changes);
    LostIffComputed(repo, files, recorded, checked, related, moved);
    NothingMovedIffNothingReported(repo, files, recorded, checked, related, moved);
  }

  /** The last listed change of a pair of paths is the last unrestored one. */
  lemma {:induction false} LastIsUnrestored(all: seq<Change>, checked: set<string>, recorded: map<string, ContentState>,
                                            content: string -> Probe, i: nat) returns (m: nat)
    requires IsLast(all, i) && IsUnrestored(all[i], checked, recorded, content)
    ensures var touching := Unrestored(all, checked, recorded, content); IsLast(touching, m) && touching[m] == all[i]
    decreases |all|
  {
    var init := all[..|all| - 1];
    if i == |init| {
      m := |Unrestored(init, checked, recorded, content)|;
    } else {
      assert IsLast(init, i);
      m := LastIsUnrestored(init, checked, recorded, content, i);
    }
  }

  lemma DeduplicatedReports(repo: Repository, recorded: map<string, ContentState>, checked: set<string>,
                            touching: seq<Change>, changes: seq<Change>, related: map<Key, Change>)
    requires touching == Unrestored(repo.committed + repo.working, checked, recorded, repo.content)
    requires touching <= changes && Deduplicated(changes, related)
    requires forall p :: HasMoved(recorded, repo.content, p) ==> exists k :: 0 <= k < |changes| && Names(changes[k], p)
    requires forall i :: |touching| <= i < |changes| ==> IsMadeUp(changes[i], recorded, repo.content, touching)
    ensures Reports(repo, recorded, checked, related)
  {
    var all := repo.committed + repo.working;
    forall p | HasMoved(recorded, repo.content, p)
      ensures exists k :: k in related && Names(related[k], p)
    {
      var i :| 0 <= i < |changes| && Names(changes[i], p);
      var k := KeyOf(changes[i]);
      assert changes[i] in changes;
      assert k in related && related[k].path == changes[i].path && related[k].previous == changes[i].previous;
      assert Names(related[k], p);
    }
    forall k | k in related
      ensures IsListed(repo, recorded, checked, related[k]) || IsMadeUp(related[k], recorded, repo.content, touching)
    {
      var i :| IsLast(changes, i) && related[k] == changes[i] && k == KeyOf(changes[i]);
      if i < |touching| {
        assert changes[i] == touching[i] && touching[i] in touching;
      }
    }
    forall i | IsLast(all, i) && IsListed(repo, recorded, checked, all[i])
      ensures KeyOf(all[i]) in related && (related[KeyOf(all[i])] == all[i] || IsMadeUpOver(repo, recorded, all[i]))
    {
      LastListedIsReported(repo, recorded, checked, touching, changes, related, i);
    }
    forall c | IsListed(repo, recorded, checked, c)
      ensures KeyOf(c) in related
    {
      var m :| 0 <= m < |touching| && touching[m] == c;
      assert changes[m] == c && c in changes;
    }
  }

  lemma LastListedIsReported(repo: Repository, recorded: map<string, ContentState>, checked: set<string>,
                             touching: seq<Change>, changes: seq<Change>, related: map<Key, Change>, i: nat)
    requires touching == Unrestored(repo.committed + repo.working, checked, recorded, repo.content)
    requires touching <= changes && Deduplicated(changes, related)
    requires forall i :: |touching| <= i < |changes| ==> IsMadeUp(changes[i], recorded, repo.content, touching)
    requires var all := repo.committed + repo.working; IsLast(all, i) && IsListed(repo, recorded, checked, all[i])
    ensures var c := (repo.committed + repo.working)[i];
            KeyOf(c) in related && (related[KeyOf(c)] == c || IsMadeUpOver(repo, recorded, c))
  {
    var c := (repo.committed + repo.working)[i];
    var m := LastIsUnrestored(repo.committed + repo.working, checked, recorded, repo.content, i);
    assert changes[m] == c && c in changes;
    var l :| IsLast(changes, l) && related[KeyOf(c)] == changes[l] && KeyOf(c) == KeyOf(changes[l]);
    if l < |touching| {
      assert touching[l] == changes[l];
      assert l == m;
    } else {
      assert IsMadeUp(changes[l], recorded, repo.content, touching);
      assert touching[m] in touching && !TouchesPath(c, c.path);
    }
  }

  lemma MadeUpsMoveNothing(recorded: map<string, ContentState>, content: string -> Probe, checked: set<string>,
                           touching: seq<Change>, changes: seq<Change>)
    requires touching <= changes
    requires forall i :: |touching| <= i < |changes| ==> IsMadeUp(changes[i], recorded, content, touching)
    ensures Moved(changes, checked) == Moved(touching, checked)
  {
    forall i | |touching| <= i < |changes|
      ensures changes[i].status != Renamed
    {
      assert IsMadeUp(changes[i], recorded, content, touching);
    }
    OnlyRenamesMove(touching, changes, checked);
  }

  lemma {:induction false} OnlyRenamesMove(touching: seq<Change>, changes: seq<Change>, checked: set<string>)
    requires touching <= changes
    requires forall i :: |touching| <= i < |changes| ==> changes[i].status != Renamed
    ensures Moved(changes, checked) == Moved(touching, checked)
    decreases |changes|
  {
    if changes == touching {
    } else {
      OnlyRenamesMove(touching, changes[..|changes| - 1], checked);
    }
  }

  lemma LostIffComputed(repo: Repository, files: seq<Change>, recorded: map<string, ContentState>, checked: set<string>,
                        related: map<Key, Change>, moved: set<string>)
    requires Reports(repo, recorded, checked, related)
    ensures IsLost(repo, files, recorded, checked, related, moved) <==>
            IsMissing(repo, files, moved) || ContentLost(recorded, repo.content) || AnyDeleted(related)
  {
    if AnyDeleted(related) {
      var k :| k in related && related[k].status == Deleted;
      if IsListed(repo, recorded, checked, related[k]) {
        assert KeyOf(related[k]) == k;
      } else {
        assert HasMoved(recorded, repo.content, related[k].path);
      }
    }
  }

  lemma AnyChange(changes: seq<Change>) returns (c: Change)
    requires changes != []
    ensures c in changes
  {
    c := changes[0];
  }

  lemma NothingIsUnrestored(repo: Repository, files: seq<Change>, recorded: map<string, ContentState>, checked: set<string>)
    requires NothingMoved(repo, files, recorded, checked)
    ensures Unrestored(repo.committed + repo.working, checked, recorded, repo.content) == []
  {
    var touching := Unrestored(repo.committed + repo.working, checked, recorded, repo.content);
    if touching != [] {
      var c := AnyChange(touching);
    }
  }

  lemma NothingMovedIffNothingReported(repo: Repository, files: seq<Change>, recorded: map<string, ContentState>,
                                       checked: set<string>, related: map<Key, Change>, moved: set<string>)
    requires Reports(repo, recorded, checked, related)
    requires moved == MovedPaths(repo, recorded, checked)
    ensures NothingMoved(repo, files, recorded, checked) <==>
            related == map[] && !AnyMoved(recorded, repo.content) && !IsLost(repo, files, recorded, checked, related, moved)
  {
    if NothingMoved(repo, files, recorded, checked) {
      NothingIsUnrestored(repo, files, recorded, checked);
      forall k | k in related
        ensures false
      {
      }
      assert related == map[];
    } else if related == map[] {
      NothingReportedIsUnrestored(repo, recorded, checked, related);
    }
  }

  lemma NothingReportedIsUnrestored(repo: Repository, recorded: map<string, ContentState>, checked: set<string>,
                                    related: map<Key, Change>)
    requires Reports(repo, recorded, checked, related) && related == map[]
    ensures Unrestored(repo.committed + repo.working, checked, recorded, repo.content) == []
  {
    var touching := Unrestored(repo.committed + repo.working, checked, recorded, repo.content);
    if touching != [] {
      var c := AnyChange(touching);
    }
  }

  // ---------------------------------------------------------------- the verdict read off the inputs

  predicate Leaves(c: Change, p: string) {
    c.status == Renamed && c.previous.Some? && NormalizePath(c.previous.value) == p
  }

  predicate Arrives(c: Change, p: string) {
    c.status == Renamed && NormalizePath(c.path) == p
  }

  predicate NeverLeft(changes: seq<Change>, from: int, p: string) {
    forall j :: 0 <= j < |changes| && from < j ==> !Leaves(changes[j], p)
  }

  predicate IsBrought(changes: seq<Change>, p: string) {
    exists i :: 0 <= i < |changes| && Arrives(changes[i], p) && NeverLeft(changes, i, p)
  }

  /** A path is checked in the end when the last rename that speaks of it brought it, or it was checked and none took it away. */
  lemma {:induction false} MovedIff(changes: seq<Change>, checked: set<string>, p: string)
    ensures p in Moved(changes, checked) <==> IsBrought(changes, p) || (p in checked && NeverLeft(changes, -1, p))
    decreases |changes|
  {
    if changes != [] {
      var init, last := changes[..|changes| - 1], changes[|changes| - 1];
      MovedIff(init, checked, p);
      assert changes == init + [last];
      if Arrives(last, p) {
        ArrivalBrings(init, last, p);
      } else if Leaves(last, p) {
        LeavingTakes(init, last, p);
      } else {
        StaysBrought(init, last, p);
      }
    }
  }

  lemma ArrivalBrings(init: seq<Change>, last: Change, p: string)
    requires Arrives(last, p)
    ensures IsBrought(init + [last], p)
  {
    var longer := init + [last];
    assert longer[|init|] == last && NeverLeft(longer, |init|, p);
  }

  lemma LeavingTakes(init: seq<Change>, last: Change, p: string)
    requires !Arrives(last, p) && Leaves(last, p)
    ensures !IsBrought(init + [last], p) && !NeverLeft(init + [last], -1, p)
  {
    var longer := init + [last];
    assert longer[|init|] == last;
  }

  lemma StaysBrought(init: seq<Change>, last: Change, p: string)
    requires !Arrives(last, p) && !Leaves(last, p)
    ensures IsBrought(init + [last], p) <==> IsBrought(init, p)
    ensures NeverLeft(init + [last], -1, p) <==> NeverLeft(init, -1, p)
  {
    var longer := init + [last];
    forall i | 0 <= i < |init|
      ensures longer[i] == init[i] && (NeverLeft(longer, i, p) <==> NeverLeft(init, i, p))
    {
      NeverLeftIff(init, last, i, p);
    }
    NeverLeftIff(init, last, -1, p);
  }

  lemma NeverLeftIff(init: seq<Change>, last: Change, from: int, p: string)
    requires !Leaves(last, p)
    ensures NeverLeft(init + [last], from, p) <==> NeverLeft(init, from, p)
  {
    var longer := init + [last];
    if NeverLeft(longer, from, p) {
      forall j | 0 <= j < |init| && from < j
        ensures !Leaves(init[j], p)
      {
        assert longer[j] == init[j];
      }
    }
  }

  lemma {:induction false} LastOf(all: seq<Change>, key: Key, i: nat) returns (j: nat)
    requires i < |all| && KeyOf(all[i]) == key
    ensures i <= j && IsLast(all, j) && KeyOf(all[j]) == key
    decreases |all| - i
  {
    if IsLast(all, i) {
      j := i;
    } else {
      var k: int :| i < k < |all| && KeyOf(all[k]) == KeyOf(all[i]);
      j := LastOf(all, key, k);
    }
  }

  /**
   With paths as the listing normalizes them, a verdict is broken exactly when the baseline is an ancestor and a path
   that should be there is missing, a recorded file is gone, or the last listed change of some pair of paths deletes.
   */
  lemma BrokenIffLost(repo: Repository, files: seq<Change>, recorded: map<string, ContentState>, checked: set<string>,
                      status: Temporal, related: map<Key, Change>, moved: set<string>)
    requires Justified(repo, files, recorded, checked, status, related, moved)
    requires forall c :: c in repo.committed + repo.working ==> NormalizePath(c.path) == c.path
    ensures var all := repo.committed + repo.working;
            status == Broken <==>
            repo.ancestor
            && (|| IsMissing(repo, files, MovedPaths(repo, recorded, checked))
                || (exists p :: p in recorded && recorded[p].Sha256? && repo.content(p) == Found(Missing))
                || (exists i :: IsLast(all, i) && IsListed(repo, recorded, checked, all[i]) && all[i].status == Deleted))
  {
    var all := repo.committed + repo.working;
    if c :| IsListed(repo, recorded, checked, c) && c.status == Deleted && KeyOf(c) in related && related[KeyOf(c)] == c {
      var i :| 0 <= i < |all| && all[i] == c;
      var j := LastOf(all, KeyOf(c), i);
      assert IsListed(repo, recorded, checked, all[j]);
    }
    if i :| IsLast(all, i) && IsListed(repo, recorded, checked, all[i]) && all[i].status == Deleted {
      assert related[KeyOf(all[i])] == all[i];
    }
  }

  /**
   A file that was deleted at the checkpoint and is back with no listed change is reported as added: changed
   content, not lost content.
   */
  lemma RestoredFileIsAdded(repo: Repository, files: seq<Change>, recorded: map<string, ContentState>, checked: set<string>,
                            status: Temporal, related: map<Key, Change>, moved: set<string>, p: string, hash: string)
    requires Justified(repo, files, recorded, checked, status, related, moved)
    requires repo.ancestor && repo.committed == [] && repo.working == []
    requires recorded == map[p := Missing] && checked == {p} && repo.content(p) == Found(Sha256(hash))
    ensures related == map[Key(p, None) := Change(p, None, Added)] && status == Changed
  {
    assert HasMoved(recorded, repo.content, p);
    forall k | k in related
      ensures k == Key(p, None) && related[k] == Change(p, None, Added)
    {
    }
    assert Key(p, None) in related;
    assert moved == {p};
  }

  /** The recorded state of a path is that of the last fingerprinted name that validates to it. */
  lemma {:induction false} RecordedIsTheLast(keys: seq<string>, fingerprints: map<string, Option<string>>, checked: set<string>,
                                             sensitive: Sensitive, i: nat, p: string)
    requires forall k :: k in keys ==> k in fingerprints
    requires i < |keys| && ValidatePath(keys[i], sensitive) == Some(p) && p in checked
    requires forall j :: i < j < |keys| ==> ValidatePath(keys[j], sensitive) != Some(p)
    ensures var recorded := Recorded(keys, fingerprints, checked, sensitive);
            p in recorded && recorded[p] == match fingerprints[keys[i]] case None => Missing case Some(hash) => Sha256(hash)
    decreases |keys|
  {
    if i < |keys| - 1 {
      assert keys[..|keys| - 1][i] == keys[i];
      RecordedIsTheLast(keys[..|keys| - 1], fingerprints, checked, sensitive, i, p);
    }
  }

  // ---------------------------------------------------------------- what the verdict tells a caller

  predicate IsTrimmed(p: string) {
    p != "" && !IsWhitespace(p[0]) && !IsWhitespace(p[|p| - 1])
  }

  predicate IsPathOf(c: Change, p: string) {
    c.path == p || c.previous == Some(p)
  }

  /** When a change, committed or not, touches a checked path, each of its trimmed paths holds its recorded content. */
  ghost predicate TouchedPathsAreAsRecorded(repo: Repository, recorded: map<string, ContentState>, checked: set<string>,
                                            sensitive: Sensitive) {
    forall c, p :: (c in repo.committed + repo.working && TouchesAny(c, checked) && IsPathOf(c, p)
                    && ValidatePath(p, sensitive) == Some(p) && IsTrimmed(p)) ==> Same(recorded, repo.content, p)
  }

  lemma UnchangedMeansPathsAreAsRecorded(repo: Repository, files: seq<Change>, recorded: map<string, ContentState>,
                                         checked: set<string>, sensitive: Sensitive)
    requires NothingMoved(repo, files, recorded, checked)
    ensures TouchedPathsAreAsRecorded(repo, recorded, checked, sensitive)
  {
    forall c, p | c in repo.committed + repo.working && TouchesAny(c, checked) && IsPathOf(c, p)
                  && ValidatePath(p, sensitive) == Some(p) && IsTrimmed(p)
      ensures Same(recorded, repo.content, p)
    {
      ValidatedPathIsNormalIffTrimmed(p, sensitive);
      assert SameContent(c, recorded, repo.content);
    }
  }

  // ---------------------------------------------------------------- at the checkpoint

  predicate NamesOnly(c: Change, paths: set<string>) {
    NormalizePath(c.path) in paths && (c.previous.Some? ==> NormalizePath(c.previous.value) in paths)
  }

  ghost predicate IsDirty(working: seq<Change>, sensitive: Sensitive, p: string) {
    exists c :: c in working && (ValidatePath(c.path, sensitive) == Some(p)
                                 || (c.previous.Some? && ValidatePath(c.previous.value, sensitive) == Some(p)))
  }

  /**
   The baseline that a checkpoint of this repository stores: the content of every dirty path
   that has one, and nothing of the clean paths.
   */
  ghost predicate IsCheckpointOf(baseline: Baseline, repo: Repository, sensitive: Sensitive) {
    && baseline.repository == repo.id && baseline.head == repo.head && repo.committed == [] && repo.ancestor
    && (forall p :: p in baseline.fingerprints ==>
          ValidatePath(p, sensitive) == Some(p) && repo.content(p) == Found(FromStored(baseline.fingerprints[p])))
    && (forall p :: IsDirty(repo.working, sensitive, p) && repo.content(p).Found? && repo.content(p).state != Unsupported ==>
          p in baseline.fingerprints)
  }

  /** The paths a baseline has content for, once validated. */
  ghost function FingerprintedPaths(keys: seq<string>, sensitive: Sensitive): (r: set<string>)
    ensures forall p :: p in r <==> exists k :: k in keys && ValidatePath(k, sensitive) == Some(p)
  {
    set k | k in keys && ValidatePath(k, sensitive).Some? :: ValidatePath(k, sensitive).value
  }

  lemma {:induction false} RecordedIffFingerprinted(keys: seq<string>, fingerprints: map<string, Option<string>>,
                                                    checked: set<string>, sensitive: Sensitive, p: string)
    requires forall k :: k in keys ==> k in fingerprints
    ensures p in Recorded(keys, fingerprints, checked, sensitive)
            <==> p in FingerprintedPaths(keys, sensitive) && p in checked
  {
    if keys != [] {
      var init, last := keys[..|keys| - 1], keys[|keys| - 1];
      assert keys == init + [last];
      RecordedIffFingerprinted(init, fingerprints, checked, sensitive, p);
    }
  }

  lemma {:induction false} RecordedAre(keys: seq<string>, fingerprints: map<string, Option<string>>, checked: set<string>,
                                       sensitive: Sensitive, p: string)
    requires forall k :: k in keys ==> k in fingerprints && ValidatePath(k, sensitive) == Some(k)
    ensures var recorded := Recorded(keys, fingerprints, checked, sensitive);
            && (p in recorded <==> p in keys && p in checked)
            && (p in recorded ==> recorded[p] == match fingerprints[p] case None => Missing case Some(hash) => Sha256(hash))
  {
    if keys != [] {
      var last := keys[|keys| - 1];
      assert keys == keys[..|keys| - 1] + [last];
      RecordedAre(keys[..|keys| - 1], fingerprints, checked, sensitive, p);
    }
  }

  /**
   Right at its checkpoint a task is unchanged exactly when every uncommitted change that
   touches a checked path names only dirty checked paths with content on record, and no checked
   path is missing unexpectedly.
   */
  lemma CheckpointIsUnchangedIff(repo: Repository, baseline: Baseline, files: seq<Change>, keys: seq<string>, sensitive: Sensitive)
    requires IsCheckpointOf(baseline, repo, sensitive)
    requires forall k :: k in keys <==> k in baseline.fingerprints
    ensures var checked := Checked(files, sensitive);
            var recorded := Recorded(keys, baseline.fingerprints, checked, sensitive);
            && recorded.Keys == baseline.fingerprints.Keys * checked
            && (NothingMoved(repo, files, recorded, checked) <==>
                (forall c :: c in repo.working && TouchesAny(c, checked) ==> NamesOnly(c, recorded.Keys))
                && (forall p :: p in checked && repo.content(p) == Found(Missing) ==> ExpectedAbsent(files, p)))
  {
    var checked := Checked(files, sensitive);
    var recorded := Recorded(keys, baseline.fingerprints, checked, sensitive);
    forall p
      ensures p in recorded <==> p in baseline.fingerprints && p in checked
      ensures p in recorded ==> repo.content(p) == Found(recorded[p])
    {
      RecordedAre(keys, baseline.fingerprints, checked, sensitive, p);
    }
    assert repo.committed + repo.working == repo.working;
    forall c
      ensures SameContent(c, recorded, repo.content) <==> NamesOnly(c, recorded.Keys)
    {
    }
  }

  // ---------------------------------------------------------------- after a commit

  /**
   `after` is `before` with content of `paths` committed: no file changes, no uncommitted
   change appears, and what Git newly lists as committed names only those paths. How Git folds
   the commit into its list, as one rename or as two changes, is left open.
   */
  ghost predicate IsCommitOf(before: Repository, after: Repository, paths: set<string>) {
    && after.id == before.id && after.head.Some? && before.head.Some?
    && after.commitExists == before.commitExists && after.ancestor == before.ancestor
    && (forall p :: after.content(p) == before.content(p))
    && (forall c :: c in after.working ==> c in before.working)
    && (forall c :: c in after.committed ==> c in before.committed || NamesOnly(c, paths))
  }

  /** Nothing committed joins a checked path with one that is not. */
  ghost predicate CommittedStaysChecked(repo: Repository, checked: set<string>) {
    forall c :: c in repo.committed && TouchesAny(c, checked) ==> NamesOnly(c, checked)
  }

  /** A commit of fingerprinted content, checked or not, moves nothing exactly when it leads out of no checked path. */
  lemma CommitMovesNothingIff(before: Repository, after: Repository, files: seq<Change>, recorded: map<string, ContentState>,
                              checked: set<string>, fingerprinted: set<string>)
    requires NothingMoved(before, files, recorded, checked) && IsCommitOf(before, after, fingerprinted)
    requires forall p :: p in recorded <==> p in fingerprinted && p in checked
    ensures NothingMoved(after, files, recorded, checked) <==> CommittedStaysChecked(after, checked)
  {
    forall c | c in after.committed + after.working && TouchesAny(c, checked)
      ensures SameContent(c, recorded, after.content) <==> c in after.working || NamesOnly(c, checked)
    {
      if c in before.committed + before.working {
        assert SameContent(c, recorded, before.content);
      } else {
        assert NamesOnly(c, fingerprinted);
      }
    }
    assert forall c :: c in after.committed ==> c in after.committed + after.working;
    if CommittedStaysChecked(after, checked) {
      forall c | c in after.committed + after.working && TouchesAny(c, checked)
        ensures SameContent(c, recorded, after.content)
      {
        assert c in after.working || c in after.committed;
      }
    }
    if NothingMoved(after, files, recorded, checked) {
      forall c | c in after.committed && TouchesAny(c, checked)
        ensures NamesOnly(c, checked)
      {
        assert SameContent(c, recorded, after.content);
      }
    }
  }

  lemma CommitStaysComparable(before: Repository, after: Repository, baseline: Option<Baseline>, files: seq<Change>,
                              paths: set<string>, sensitive: Sensitive)
    requires IsCommitOf(before, after, paths)
    ensures Comparable(baseline, before, files, sensitive) <==> Comparable(baseline, after, files, sensitive)
  {
  }

  lemma UnchangedReportsNothing(repo: Repository, files: seq<Change>, recorded: map<string, ContentState>,
                                checked: set<string>, status: Temporal, related: map<Key, Change>, moved: set<string>)
    requires Justified(repo, files, recorded, checked, status, related, moved)
    requires repo.ancestor && NothingMoved(repo, files, recorded, checked)
    ensures status == Unchanged && related == map[] && moved == checked
  {
    NothingIsUnrestored(repo, files, recorded, checked);
    NothingMovedIffNothingReported(repo, files, recorded, checked, related, moved);
  }

  lemma CommitKeepsVerdictIff(before: Repository, after: Repository, files: seq<Change>, recorded: map<string, ContentState>,
                              checked: set<string>, fingerprinted: set<string>, first: Outcome, second: Outcome)
    requires IsCommitOf(before, after, fingerprinted) && first.Verdict? && second.Verdict? && first.status == Unchanged
    requires forall p :: p in recorded <==> p in fingerprinted && p in checked
    requires Justified(before, files, recorded, checked, first.status, first.related, first.checked)
    requires Justified(after, files, recorded, checked, second.status, second.related, second.checked)
    ensures second.status == Unchanged <==> CommittedStaysChecked(after, checked)
    ensures second.status == Unchanged ==> second == Verdict(Unchanged, map[], checked)
  {
    CommitMovesNothingIff(before, after, files, recorded, checked, fingerprinted);
    if second.status == Unchanged {
      UnchangedReportsNothing(after, files, recorded, checked, second.status, second.related, second.checked);
    }
  }

  /**
   Committing content exactly as the checkpoint fingerprinted it, of the task's files and of
   others, keeps an unchanged verdict unchanged exactly when no committed change joins a checked
   path with one that is not.
   */
  method RevalidateAcrossCommit(before: Repository, after: Repository, baseline: Baseline, files: seq<Change>,
                                keys: seq<string>, sensitive: Sensitive)
    returns (first: Outcome, second: Outcome)
    requires forall k :: k in keys <==> k in baseline.fingerprints
    requires IsCommitOf(before, after, FingerprintedPaths(keys, sensitive))
    ensures first.Error? <==> second.Error?
    ensures first.Verdict? && first.status == Unchanged ==>
              var checked := Checked(files, sensitive);
              && (second.status == Unchanged <==> CommittedStaysChecked(after, checked))
              && (second.status == Unchanged ==> second == Verdict(Unchanged, map[], checked))
  {
    ghost var checked := Checked(files, sensitive);
    ghost var recorded := Recorded(keys, baseline.fingerprints, checked, sensitive);
    ghost var fingerprinted := FingerprintedPaths(keys, sensitive);
    CommitStaysComparable(before, after, Some(baseline), files, fingerprinted, sensitive);
    first := RevalidateTask(before, Some(baseline), files, keys, sensitive);
    second := RevalidateTask(after, Some(baseline), files, keys, sensitive);
    if first.Verdict? && first.status == Unchanged {
      forall p
        ensures p in recorded <==> p in fingerprinted && p in checked
      {
        RecordedIffFingerprinted(keys, baseline.fingerprints, checked, sensitive, p);
      }
      CommitKeepsVerdictIff(before, after, files, recorded, checked, fingerprinted, first, second);
    }
  }

  // ---------------------------------------------------------------- paths with outer white space

  /** A change as the parser of Git's listing makes it, from the names Git prints. */
  function FromGit(raw: string, rawPrevious: Option<string>, status: Status): Change {
    Change(NormalizePath(raw), if rawPrevious.Some? then Some(NormalizePath(rawPrevious.value)) else None, status)
  }

  /** Git's change to a file is compared with that file's stored path exactly when the name has no outer white space. */
  lemma ChangeIsSeenIffTrimmed(raw: string, rawPrevious: Option<string>, status: Status, p: string, sensitive: Sensitive)
    requires (raw == p || rawPrevious == Some(p)) && ValidatePath(p, sensitive) == Some(p)
    requires raw != p ==> NormalizePath(NormalizePath(raw)) != p
    requires rawPrevious.Some? && rawPrevious.value != p ==> NormalizePath(NormalizePath(rawPrevious.value)) != p
    ensures TouchesAny(FromGit(raw, rawPrevious, status), {p}) <==> IsTrimmed(p)
  {
    ValidatedPathIsNormalIffTrimmed(p, sensitive);
    NormalizedTwiceIsOnce(p, sensitive);
  }

  /**
   A task file whose stored name begins with a space, as an imported change can bring it: Git
   lists its changes without the space, so rewriting and committing it goes unseen.
   */
  lemma LeadingSpaceHidesAChange(repo: Repository, sensitive: Sensitive)
    requires !sensitive(" a")
    requires repo.committed == [FromGit(" a", None, Modified)] && repo.working == []
    requires repo.content(" a") != Found(Missing)
    ensures repo.committed == [Change("a", None, Modified)]
    ensures IsChecked([Change(" a", None, Modified)], sensitive, " a")
    ensures NothingMoved(repo, [Change(" a", None, Modified)], map[], {" a"})
  {
    SplitWithoutSlash(" a");
    assert ForwardSlashes(" a") == " a";
    assert ValidatePath(" a", sensitive) == Some(" a");
    ChangeIsSeenIffTrimmed(" a", None, Modified, " a", sensitive);
    assert TrimStart(" a") == TrimStart("a") by {
      assert " a"[1..] == "a";
    }
    assert TrimEnd("a") == "a" && ForwardSlashes("a") == "a";
  }
}
