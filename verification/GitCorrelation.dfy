/**
 `correlate_changes` of `src/git.rs`: which file changes lie between two snapshots of one
 repository, and which of them a tool is known to have made. `committed` is what Git reports
 between the two heads; `sensitive` is the redaction rule for path names.
 */
module GitCorrelation {
  import opened GitChanges
  import opened GitPaths
  import opened Wrappers

  datatype Attribution = ModifiedBy | ObservedChangedIn

  datatype Change = Change(path: string, previous: Option<string>, status: Status,
                           additions: Option<nat>, deletions: Option<nat>,
                           repository: string, session: string, task: Option<string>,
                           attribution: Attribution, beforeHead: Option<string>, afterHead: Option<string>)

  /** A fingerprint of `None` records a missing file. */
  datatype Snapshot = Snapshot(repository: string, head: Option<string>, changes: seq<Change>,
                               fingerprints: map<string, Option<string>>)

  datatype Signature = Signature(status: Status, additions: Option<nat>, deletions: Option<nat>,
                                 previous: Option<string>)

  function KeyOf(c: Change): Key {
    Key(c.path, c.previous)
  }

  function SignatureOf(c: Change): Signature {
    Signature(c.status, c.additions, c.deletions, c.previous)
  }

  predicate Touches(c: Change, path: string) {
    c.path == path || c.previous == Some(path)
  }

  predicate KeyTouches(k: Key, path: string) {
    k.path == path || k.previous == Some(path)
  }

  // ---------------------------------------------------------------- what counts as a change

  ghost function LastSignature(changes: seq<Change>, path: string): Option<Signature> {
    if changes == [] then None
    else
      var last := changes[|changes| - 1];
      if last.path == path then Some(SignatureOf(last)) else LastSignature(changes[..|changes| - 1], path)
  }

  ghost predicate SignatureChanged(before: Snapshot, c: Change) {
    LastSignature(before.changes, c.path) != Some(SignatureOf(c))
  }

  ghost predicate FingerprintDiffers(before: Snapshot, after: Snapshot, path: string) {
    path in before.fingerprints && path in after.fingerprints
    && before.fingerprints[path] != after.fingerprints[path]
  }

  /** A working-tree change that is gone although no commit was made. */
  ghost predicate Vanished(before: Snapshot, after: Snapshot, c: Change) {
    c in before.changes && before.head == after.head
    && forall k :: 0 <= k < |after.changes| ==> after.changes[k].path != c.path
  }

  ghost function CommittedPart(before: Snapshot, after: Snapshot, committed: seq<Change>): seq<Change> {
    if before.head != after.head && before.head.Some? && after.head.Some? then committed else []
  }

  function FingerprintStatus(before: Option<string>, after: Option<string>): Status {
    if before.None? && after.Some? then Added
    else if before.Some? && after.None? then Deleted
    else Modified
  }

  predicate HasMeasure(c: Change, status: Status, additions: Option<nat>, deletions: Option<nat>) {
    c.status == status && c.additions == additions && c.deletions == deletions
  }

  ghost predicate IsSigned(before: Snapshot, after: Snapshot, c: Change) {
    c in after.changes && SignatureChanged(before, c)
  }

  predicate IsFirstAt(changes: seq<Change>, path: string, k: int) {
    0 <= k < |changes| && changes[k].path == path && forall j :: 0 <= j < k ==> changes[j].path != path
  }

  /** The previous path of the first change with this path, of the later snapshot if it has one, else of the earlier. */
  ghost predicate IsPreviousOf(before: Snapshot, after: Snapshot, path: string, previous: Option<string>) {
    if k :| IsFirstAt(after.changes, path, k) then previous == after.changes[k].previous
    else if k :| IsFirstAt(before.changes, path, k) then previous == before.changes[k].previous
    else previous == None
  }

  /** A change made up for a path whose two fingerprints differ: it came, it went or its content changed. */
  ghost predicate IsPrinted(before: Snapshot, after: Snapshot, c: Change) {
    && FingerprintDiffers(before, after, c.path)
    && c.additions == None && c.deletions == None
    && (c.status == Added <==> before.fingerprints[c.path] == None && after.fingerprints[c.path].Some?)
    && (c.status == Deleted <==> before.fingerprints[c.path].Some? && after.fingerprints[c.path] == None)
    && (c.status == Modified <==> before.fingerprints[c.path].Some? && after.fingerprints[c.path].Some?)
    && IsPreviousOf(before, after, c.path, c.previous)
  }

  /** A change made up for one that is gone. */
  ghost predicate IsGone(before: Snapshot, after: Snapshot, c: Change) {
    HasMeasure(c, Modified, None, None) && exists gone :: Vanished(before, after, gone) && KeyOf(gone) == KeyOf(c)
  }

  ghost predicate IsVanishedKey(before: Snapshot, after: Snapshot, k: Key) {
    exists gone :: Vanished(before, after, gone) && KeyOf(gone) == k
  }

  ghost predicate IsSignedKey(before: Snapshot, after: Snapshot, k: Key) {
    exists c :: IsSigned(before, after, c) && KeyOf(c) == k
  }

  ghost predicate IsCommittedKey(before: Snapshot, after: Snapshot, committed: seq<Change>, k: Key) {
    exists c :: c in CommittedPart(before, after, committed) && KeyOf(c) == k
  }

  /**
   The change reported for a pair of paths: a vanished one is modified, else the working tree
   speaks before the commits, and the fingerprints only where neither does.
   */
  ghost predicate Decides(before: Snapshot, after: Snapshot, committed: seq<Change>, k: Key, c: Change) {
    && KeyOf(c) == k
    && if IsVanishedKey(before, after, k) then IsGone(before, after, c)
       else if IsSignedKey(before, after, k) then IsSigned(before, after, c)
       else if IsCommittedKey(before, after, committed, k) then c in CommittedPart(before, after, committed)
       else IsPrinted(before, after, c) && IsUnnamed(before, after, committed, c.path)
  }

  /** No commit and no changed signature names the path, as the new or as the previous one. */
  ghost predicate IsUnnamed(before: Snapshot, after: Snapshot, committed: seq<Change>, path: string) {
    forall c :: c in CommittedPart(before, after, committed) || IsSigned(before, after, c) ==>
      c.path != path && c.previous != Some(path)
  }

  /** The collected changes: committed, then signed, then made up from fingerprints, then vanished. */
  ghost predicate Layers(before: Snapshot, after: Snapshot, committed: seq<Change>, found: seq<Change>, a: nat, b: nat, d: nat) {
    && a <= b <= d <= |found| && found[..a] == CommittedPart(before, after, committed)
    && (forall i :: a <= i < b ==> IsSigned(before, after, found[i]))
    && (forall c :: IsSigned(before, after, c) ==> exists i :: a <= i < b && found[i] == c)
    && (forall i :: b <= i < d ==> IsPrinted(before, after, found[i]))
    && (forall i, j :: b <= i < d && 0 <= j < i ==> found[j].path != found[i].path && found[j].previous != Some(found[i].path))
    && (forall i :: d <= i < |found| ==> IsGone(before, after, found[i]))
    && (forall gone :: Vanished(before, after, gone) ==> exists i :: d <= i < |found| && KeyOf(found[i]) == KeyOf(gone))
  }

  ghost predicate SamePathOrigin(before: Snapshot, after: Snapshot, c: Change) {
    c.previous.None? || exists origin :: (origin in before.changes || origin in after.changes) && KeyOf(origin) == KeyOf(c)
  }

  // ---------------------------------------------------------------- collecting

  predicate IsLastAt(changes: seq<Change>, path: string, k: int) {
    0 <= k < |changes| && changes[k].path == path && forall j :: k < j < |changes| ==> changes[j].path != path
  }

  predicate SaysTheSame(a: Change, b: Change) {
    a.status == b.status && a.additions == b.additions && a.deletions == b.deletions && a.previous == b.previous
  }

  /**
   A change of the later snapshot is new unless the last change of its path in the earlier one has the same status,
   counts and previous path.
   */
  lemma SignatureChangedIff(before: Snapshot, c: Change)
    ensures SignatureChanged(before, c) <==>
            forall k :: IsLastAt(before.changes, c.path, k) ==> !SaysTheSame(before.changes[k], c)
  {
    LastSignatureIsLast(before.changes, c.path);
  }

  lemma {:induction false} LastSignatureIsLast(changes: seq<Change>, path: string)
    ensures forall k :: IsLastAt(changes, path, k) ==> LastSignature(changes, path) == Some(SignatureOf(changes[k]))
    ensures LastSignature(changes, path).Some? ==> exists k :: IsLastAt(changes, path, k)
    decreases |changes|
  {
    if changes != [] {
      var n := |changes| - 1;
      if changes[n].path == path {
        assert IsLastAt(changes, path, n);
      } else {
        LastSignatureIsLast(changes[..n], path);
        assert forall k :: IsLastAt(changes, path, k) <==> IsLastAt(changes[..n], path, k);
      }
    }
  }

  method SignatureMap(changes: seq<Change>) returns (m: map<string, Signature>)
    ensures forall path :: (if path in m then Some(m[path]) else None) == LastSignature(changes, path)
  {
    m := map[];
    for k := 0 to |changes|
      invariant forall path :: (if path in m then Some(m[path]) else None) == LastSignature(changes[..k], path)
    {
      assert changes[..k + 1][..k] == changes[..k];
      m := m[changes[k].path := SignatureOf(changes[k])];
    }
    assert changes[..|changes|] == changes;
  }

  method CollectSignatures(before: Snapshot, after: Snapshot, start: seq<Change>) returns (found: seq<Change>)
    ensures start <= found
    ensures forall i :: |start| <= i < |found| ==> IsSigned(before, after, found[i])
    ensures forall c :: IsSigned(before, after, c) ==> exists i :: |start| <= i < |found| && found[i] == c
  {
    var beforeMap := SignatureMap(before.changes);
    found := start;
    for k := 0 to |after.changes|
      invariant start <= found
      invariant forall i :: |start| <= i < |found| ==> IsSigned(before, after, found[i])
      invariant forall c :: c in after.changes[..k] && SignatureChanged(before, c) ==>
                  exists i :: |start| <= i < |found| && found[i] == c
    {
      var change := after.changes[k];
      assert after.changes[..k + 1] == after.changes[..k] + [change];
      if change.path !in beforeMap || beforeMap[change.path] != SignatureOf(change) {
        ghost var earlier := found;
        found := found + [change];
        assert found[|earlier|] == change && forall i :: 0 <= i < |earlier| ==> found[i] == earlier[i];
      }
    }
    assert after.changes[..|after.changes|] == after.changes;
  }

  function FindByPath(changes: seq<Change>, path: string): (r: Option<Change>)
    ensures r.Some? ==> r.value in changes && r.value.path == path
    ensures r.None? ==> forall k :: 0 <= k < |changes| ==> changes[k].path != path
  {
    if changes == [] then None
    else if changes[0].path == path then Some(changes[0])
    else FindByPath(changes[1..], path)
  }

  function Template(before: Snapshot, after: Snapshot, path: string): Change {
    var inAfter := FindByPath(after.changes, path);
    var inBefore := FindByPath(before.changes, path);
    if inAfter.Some? then inAfter.value
    else if inBefore.Some? then inBefore.value
    else Change(path, None, Modified, None, None, "", "", None, ObservedChangedIn, before.head, after.head)
  }

  lemma {:induction false} FindByPathIsFirst(changes: seq<Change>, path: string, k: nat)
    requires IsFirstAt(changes, path, k)
    ensures FindByPath(changes, path) == Some(changes[k])
    decreases k
  {
    if k > 0 {
      assert IsFirstAt(changes[1..], path, k - 1);
      FindByPathIsFirst(changes[1..], path, k - 1);
    }
  }

  lemma {:induction false} FirstExists(changes: seq<Change>, path: string) returns (k: nat)
    requires FindByPath(changes, path).Some?
    ensures IsFirstAt(changes, path, k)
    decreases |changes|
  {
    if changes[0].path == path {
      k := 0;
    } else {
      var rest := FirstExists(changes[1..], path);
      k := rest + 1;
    }
  }

  lemma TemplateHasPrevious(before: Snapshot, after: Snapshot, path: string)
    ensures Template(before, after, path).path == path
    ensures IsPreviousOf(before, after, path, Template(before, after, path).previous)
  {
    if k :| IsFirstAt(after.changes, path, k) {
      FindByPathIsFirst(after.changes, path, k);
    } else {
      if FindByPath(after.changes, path).Some? {
        var k := FirstExists(after.changes, path);
      }
      if k :| IsFirstAt(before.changes, path, k) {
        FindByPathIsFirst(before.changes, path, k);
      } else if FindByPath(before.changes, path).Some? {
        var k := FirstExists(before.changes, path);
      }
    }
  }

  /** `paths` lists the fingerprinted paths of the earlier snapshot in the order they are visited. */
  method CollectFingerprints(before: Snapshot, after: Snapshot, paths: seq<string>, start: seq<Change>)
    returns (found: seq<Change>)
    requires forall path :: path in paths <==> path in before.fingerprints
    ensures start <= found
    ensures forall path :: FingerprintDiffers(before, after, path) ==>
              exists k :: 0 <= k < |found| && Touches(found[k], path)
    ensures forall i :: |start| <= i < |found| ==>
              IsPrinted(before, after, found[i]) && SamePathOrigin(before, after, found[i])
    ensures forall i, j :: |start| <= i < |found| && 0 <= j < i ==> !Touches(found[j], found[i].path)
  {
    found := start;
    for k := 0 to |paths|
      invariant start <= found
      invariant forall path :: path in paths[..k] && FingerprintDiffers(before, after, path) ==>
                  exists i :: 0 <= i < |found| && Touches(found[i], path)
      invariant forall i :: |start| <= i < |found| ==>
                  IsPrinted(before, after, found[i]) && SamePathOrigin(before, after, found[i])
      invariant forall i, j :: |start| <= i < |found| && 0 <= j < i ==> !Touches(found[j], found[i].path)
    {
      var path := paths[k];
      assert path in paths;
      assert paths[..k + 1] == paths[..k] + [path];
      if path !in after.fingerprints || before.fingerprints[path] == after.fingerprints[path]
         || exists i :: 0 <= i < |found| && Touches(found[i], path) {
        continue;
      }
      TemplateHasPrevious(before, after, path);
      var change := Template(before, after, path).(
        status := FingerprintStatus(before.fingerprints[path], after.fingerprints[path]),
        additions := None, deletions := None);
      ghost var earlier := found;
      found := found + [change];
      assert Touches(found[|earlier|], path);
      assert forall i :: 0 <= i < |earlier| ==> found[i] == earlier[i];
    }
    assert paths[..|paths|] == paths;
  }

  method CollectVanished(before: Snapshot, after: Snapshot, start: seq<Change>) returns (found: seq<Change>)
    ensures start <= found
    ensures forall gone :: Vanished(before, after, gone) ==>
              exists k :: |start| <= k < |found| && KeyOf(found[k]) == KeyOf(gone)
    ensures forall i :: |start| <= i < |found| ==> IsGone(before, after, found[i])
  {
    found := start;
    for k := 0 to |before.changes|
      invariant start <= found
      invariant forall gone :: gone in before.changes[..k] && Vanished(before, after, gone) ==>
                  exists i :: |start| <= i < |found| && KeyOf(found[i]) == KeyOf(gone)
      invariant forall i :: |start| <= i < |found| ==> IsGone(before, after, found[i])
    {
      var change := before.changes[k];
      assert before.changes[..k + 1] == before.changes[..k] + [change];
      if FindByPath(after.changes, change.path).None? && before.head == after.head {
        assert Vanished(before, after, change);
        ghost var earlier := found;
        found := found + [change.(status := Modified, additions := None, deletions := None)];
        assert KeyOf(found[|earlier|]) == KeyOf(change);
        assert forall i :: 0 <= i < |earlier| ==> found[i] == earlier[i];
      }
    }
    assert before.changes[..|before.changes|] == before.changes;
  }

  // ---------------------------------------------------------------- attributing

  ghost predicate NamedByEvidence(evidence: seq<string>, sensitive: string -> bool, k: Key) {
    exists e :: e in evidence
                && (ValidatePath(e, sensitive) == Some(k.path)
                    || (k.previous.Some? && ValidatePath(e, sensitive) == k.previous))
  }

  method EvidenceSet(evidence: seq<string>, sensitive: string -> bool) returns (r: set<string>)
    ensures forall path :: path in r <==> exists e :: e in evidence && ValidatePath(e, sensitive) == Some(path)
  {
    r := {};
    for k := 0 to |evidence|
      invariant forall path :: path in r <==> exists e :: e in evidence[..k] && ValidatePath(e, sensitive) == Some(path)
    {
      assert evidence[..k + 1] == evidence[..k] + [evidence[k]];
      var valid := ValidatePath(evidence[k], sensitive);
      if valid.Some? {
        r := r + {valid.value};
      }
    }
    assert evidence[..|evidence|] == evidence;
  }

  /** The key under which a change is reported, when both of its paths are valid. */
  function ValidKey(c: Change, sensitive: string -> bool): Option<Key> {
    var path := ValidatePath(c.path, sensitive);
    if path.None? then None
    else if c.previous.None? then Some(Key(path.value, None))
    else
      var previous := ValidatePath(c.previous.value, sensitive);
      if previous.None? then None else Some(Key(path.value, previous))
  }

  /** A change is reported under its validated paths exactly when all the paths it has are valid. */
  lemma ValidKeyIff(c: Change, sensitive: string -> bool, k: Key)
    ensures ValidKey(c, sensitive) == Some(k) <==>
            && ValidatePath(c.path, sensitive) == Some(k.path)
            && (c.previous == None ==> k.previous == None)
            && (c.previous != None ==> k.previous != None && ValidatePath(c.previous.value, sensitive) == k.previous)
  {
  }

  datatype Context = Context(repository: string, session: string, task: Option<string>,
                             beforeHead: Option<string>, afterHead: Option<string>)

  /** The last of the changes that are reported under a key. */
  ghost function LastFor(found: seq<Change>, sensitive: string -> bool, k: Key): (r: Option<Change>)
    ensures r.Some? ==> exists i :: IsLastFor(found, sensitive, k, i) && found[i] == r.value
    ensures r.None? ==> forall c :: c in found ==> ValidKey(c, sensitive) != Some(k)
  {
    if found == [] then None
    else
      var init, last := found[..|found| - 1], found[|found| - 1];
      assert found == init + [last];
      if ValidKey(last, sensitive) == Some(k) then
        assert IsLastFor(found, sensitive, k, |found| - 1);
        Some(last)
      else
        var r := LastFor(init, sensitive, k);
        assert r.Some? ==> exists i :: IsLastFor(found, sensitive, k, i) && found[i] == r.value by {
          if r.Some? {
            var i :| IsLastFor(init, sensitive, k, i) && init[i] == r.value;
            assert IsLastFor(found, sensitive, k, i) && found[i] == r.value;
          }
        }
        r
  }

  ghost predicate IsLastFor(found: seq<Change>, sensitive: string -> bool, k: Key, i: int) {
    && 0 <= i < |found| && ValidKey(found[i], sensitive) == Some(k)
    && forall j :: i < j < |found| ==> ValidKey(found[j], sensitive) != Some(k)
  }

  /** The change as reported: its measure is kept, everything else is stamped. */
  function Stamped(c: Change, k: Key, ctx: Context, named: bool): Change {
    c.(path := k.path, previous := k.previous, repository := ctx.repository, session := ctx.session, task := ctx.task,
       attribution := if named then ModifiedBy else ObservedChangedIn,
       beforeHead := ctx.beforeHead, afterHead := ctx.afterHead)
  }

  /** What attributing the collected changes gives. */
  ghost predicate IsAttributed(found: seq<Change>, r: map<Key, Change>, ctx: Context, evidence: seq<string>,
                               sensitive: string -> bool) {
    && (forall k :: k in r <==> LastFor(found, sensitive, k).Some?)
    && (forall k :: k in r ==>
          r[k] == Stamped(LastFor(found, sensitive, k).value, k, ctx, NamedByEvidence(evidence, sensitive, k)))
  }

  lemma LastForNext(init: seq<Change>, change: Change, sensitive: string -> bool)
    ensures forall k :: LastFor(init + [change], sensitive, k)
                     == if ValidKey(change, sensitive) == Some(k) then Some(change) else LastFor(init, sensitive, k)
  {
    assert (init + [change])[..|init|] == init;
  }

  lemma NamedIff(evidence: seq<string>, named: set<string>, sensitive: string -> bool, k: Key)
    requires forall path :: path in named <==> exists e :: e in evidence && ValidatePath(e, sensitive) == Some(path)
    ensures NamedByEvidence(evidence, sensitive, k) <==>
            k.path in named || (k.previous.Some? && k.previous.value in named)
  {
  }

  method Attribute(found: seq<Change>, ctx: Context, evidence: seq<string>, sensitive: string -> bool)
    returns (r: map<Key, Change>)
    ensures IsAttributed(found, r, ctx, evidence, sensitive)
  {
    var named := EvidenceSet(evidence, sensitive);
    r := map[];
    for i := 0 to |found|
      invariant forall k :: k in r <==> LastFor(found[..i], sensitive, k).Some?
      invariant forall k :: k in r ==>
                  r[k] == Stamped(LastFor(found[..i], sensitive, k).value, k, ctx, NamedByEvidence(evidence, sensitive, k))
    {
      var change := found[i];
      assert found[..i + 1] == found[..i] + [change];
      LastForNext(found[..i], change, sensitive);
      var key := ValidKey(change, sensitive);
      if key.None? {
        continue;
      }
      var k := key.value;
      var directlyObserved := k.path in named || (k.previous.Some? && k.previous.value in named);
      NamedIff(evidence, named, sensitive, k);
      r := r[k := Stamped(change, k, ctx, directlyObserved)];
    }
    assert found[..|found|] == found;
  }

  // ---------------------------------------------------------------- the correlation

  ghost predicate ValidChanges(changes: seq<Change>, sensitive: string -> bool) {
    forall c :: c in changes ==> ValidKey(c, sensitive) == Some(KeyOf(c))
  }

  ghost predicate ValidInputs(before: Snapshot, after: Snapshot, committed: seq<Change>, sensitive: string -> bool) {
    && ValidChanges(before.changes, sensitive) && ValidChanges(after.changes, sensitive)
    && ValidChanges(committed, sensitive)
    && forall path :: path in before.fingerprints ==> ValidatePath(path, sensitive) == Some(path)
  }

  method CollectChanges(before: Snapshot, after: Snapshot, committed: seq<Change>, paths: seq<string>)
    returns (found: seq<Change>)
    requires forall path :: path in paths <==> path in before.fingerprints
    ensures exists a, b, d :: Layers(before, after, committed, found, a, b, d)
    ensures forall path :: FingerprintDiffers(before, after, path) ==>
              exists k :: 0 <= k < |found| && Touches(found[k], path)
    ensures forall c :: c in found ==>
              c in committed || c in after.changes || SamePathOrigin(before, after, c)
  {
    var start := if before.head != after.head && before.head.Some? && after.head.Some? then committed else [];
    var signed := CollectSignatures(before, after, start);
    var printed := CollectFingerprints(before, after, paths, signed);
    found := CollectVanished(before, after, printed);
    LayersFit(before, after, committed, start, signed, printed, found);
    forall c | c in found
      ensures c in committed || c in after.changes || SamePathOrigin(before, after, c)
    {
      var i :| 0 <= i < |found| && found[i] == c;
      assert i < |signed| ==> found[i] == signed[i];
      assert |signed| <= i < |printed| ==> found[i] == printed[i];
    }
  }

  lemma LayersFit(before: Snapshot, after: Snapshot, committed: seq<Change>, start: seq<Change>, signed: seq<Change>,
                  printed: seq<Change>, found: seq<Change>)
    requires start == CommittedPart(before, after, committed) && start <= signed <= printed <= found
    requires forall i :: |start| <= i < |signed| ==> IsSigned(before, after, signed[i])
    requires forall c :: IsSigned(before, after, c) ==> exists i :: |start| <= i < |signed| && signed[i] == c
    requires forall i :: |signed| <= i < |printed| ==> IsPrinted(before, after, printed[i])
    requires forall i, j :: |signed| <= i < |printed| && 0 <= j < i ==> !Touches(printed[j], printed[i].path)
    requires forall i :: |printed| <= i < |found| ==> IsGone(before, after, found[i])
    requires forall gone :: Vanished(before, after, gone) ==>
               exists i :: |printed| <= i < |found| && KeyOf(found[i]) == KeyOf(gone)
    ensures Layers(before, after, committed, found, |start|, |signed|, |printed|)
  {
    assert forall i :: 0 <= i < |signed| ==> found[i] == signed[i];
    assert forall i :: 0 <= i < |printed| ==> found[i] == printed[i];
    assert found[..|start|] == start;
    forall c | IsSigned(before, after, c)
      ensures exists i :: |start| <= i < |signed| && found[i] == c
    {
      var i :| |start| <= i < |signed| && signed[i] == c;
      assert found[i] == c;
    }
  }

  /**
   With valid paths, the result covers every path whose two known fingerprints differ, every
   changed signature and every vanished change, and reports nothing else, each with the status
   and counts of the evidence that decides; a change is attributed to the tool exactly when the
   tool named one of its two paths.
   */
  method CorrelateChanges(before: Snapshot, after: Snapshot, committed: seq<Change>, paths: seq<string>,
                          session: string, task: Option<string>, evidence: seq<string>, sensitive: string -> bool)
    returns (r: Option<map<Key, Change>>)
    requires forall path :: path in paths <==> path in before.fingerprints
    ensures r.None? <==> before.repository != after.repository
    ensures r.Some? ==>
              forall k :: k in r.value ==>
                Reported(r.value, Context(before.repository, session, task, before.head, after.head),
                         evidence, sensitive, k)
    ensures r.Some? && ValidInputs(before, after, committed, sensitive) ==>
              Complete(before, after, committed, r.value) && Sound(before, after, committed, r.value)
  {
    if before.repository != after.repository {
      return None;
    }
    var found := CollectChanges(before, after, committed, paths);
    var ctx := Context(before.repository, session, task, before.head, after.head);
    var reported := Attribute(found, ctx, evidence, sensitive);
    AttributedIsReported(found, reported, ctx, evidence, sensitive);
    if ValidInputs(before, after, committed, sensitive) {
      AttributedIsCorrelated(before, after, committed, found, reported, ctx, evidence, sensitive);
    }
    r := Some(reported);
  }

  lemma AttributedIsReported(found: seq<Change>, r: map<Key, Change>, ctx: Context, evidence: seq<string>,
                             sensitive: string -> bool)
    requires IsAttributed(found, r, ctx, evidence, sensitive)
    ensures forall k :: k in r ==> Reported(r, ctx, evidence, sensitive, k)
  {
  }

  lemma AttributedIsCorrelated(before: Snapshot, after: Snapshot, committed: seq<Change>, found: seq<Change>,
                               r: map<Key, Change>, ctx: Context, evidence: seq<string>, sensitive: string -> bool)
    requires ValidInputs(before, after, committed, sensitive) && IsAttributed(found, r, ctx, evidence, sensitive)
    requires exists a, b, d :: Layers(before, after, committed, found, a, b, d)
    requires forall path :: FingerprintDiffers(before, after, path) ==>
               exists k :: 0 <= k < |found| && Touches(found[k], path)
    requires forall c :: c in found ==> c in committed || c in after.changes || SamePathOrigin(before, after, c)
    ensures Complete(before, after, committed, r) && Sound(before, after, committed, r)
  {
    FoundIsValid(before, after, committed, found, sensitive);
    CollectedIsComplete(before, after, committed, found, r, sensitive);
    CollectedIsSound(before, after, committed, found, r, sensitive);
  }

  ghost predicate Reported(r: map<Key, Change>, ctx: Context, evidence: seq<string>, sensitive: string -> bool, k: Key)
    requires k in r
  {
    var c := r[k];
    && KeyOf(c) == k
    && c.repository == ctx.repository && c.session == ctx.session && c.task == ctx.task
    && c.beforeHead == ctx.beforeHead && c.afterHead == ctx.afterHead
    && (c.attribution == ModifiedBy <==> NamedByEvidence(evidence, sensitive, k))
  }

  ghost predicate Complete(before: Snapshot, after: Snapshot, committed: seq<Change>, r: map<Key, Change>) {
    && (before.head.Some? && after.head.Some? && before.head != after.head ==> forall c :: c in committed ==> KeyOf(c) in r)
    && (forall c :: c in after.changes && SignatureChanged(before, c) ==> KeyOf(c) in r)
    && (forall path :: FingerprintDiffers(before, after, path) ==> exists k :: k in r && KeyTouches(k, path))
    && (forall gone :: Vanished(before, after, gone) ==> KeyOf(gone) in r)
  }

  /** Every reported change has the measure of a change that decides its pair of paths. */
  ghost predicate Sound(before: Snapshot, after: Snapshot, committed: seq<Change>, r: map<Key, Change>) {
    forall k :: k in r ==>
      exists c :: Decides(before, after, committed, k, c) && HasMeasure(r[k], c.status, c.additions, c.deletions)
  }

  /** Some evidence stands behind the change and its measure. */
  ghost predicate Justified(before: Snapshot, after: Snapshot, committed: seq<Change>, c: Change) {
    || c in CommittedPart(before, after, committed)
    || IsSigned(before, after, c)
    || IsPrinted(before, after, c)
    || IsGone(before, after, c)
  }

  lemma LayerIsJustified(before: Snapshot, after: Snapshot, committed: seq<Change>, found: seq<Change>,
                         a: nat, b: nat, d: nat, i: nat)
    requires Layers(before, after, committed, found, a, b, d) && i < |found|
    ensures Justified(before, after, committed, found[i])
  {
    if i < a {
      assert found[..a][i] == found[i];
    }
  }

  lemma FoundIsValid(before: Snapshot, after: Snapshot, committed: seq<Change>, found: seq<Change>, sensitive: string -> bool)
    requires ValidInputs(before, after, committed, sensitive)
    requires exists a, b, d :: Layers(before, after, committed, found, a, b, d)
    requires forall c :: c in found ==> c in committed || c in after.changes || SamePathOrigin(before, after, c)
    ensures ValidChanges(found, sensitive)
  {
    var a, b, d :| Layers(before, after, committed, found, a, b, d);
    forall c | c in found
      ensures ValidKey(c, sensitive) == Some(KeyOf(c))
    {
      var i :| 0 <= i < |found| && found[i] == c;
      LayerIsJustified(before, after, committed, found, a, b, d, i);
      JustifiedIsValid(before, after, committed, c, sensitive);
    }
  }

  lemma JustifiedIsValid(before: Snapshot, after: Snapshot, committed: seq<Change>, c: Change, sensitive: string -> bool)
    requires ValidInputs(before, after, committed, sensitive) && Justified(before, after, committed, c)
    requires c in committed || c in after.changes || SamePathOrigin(before, after, c)
    ensures ValidKey(c, sensitive) == Some(KeyOf(c))
  {
    if c !in committed && c !in after.changes && c.previous.Some? {
      var origin :| (origin in before.changes || origin in after.changes) && KeyOf(origin) == KeyOf(c);
      assert ValidKey(origin, sensitive) == Some(KeyOf(origin));
    }
  }

  lemma LayersCover(before: Snapshot, after: Snapshot, committed: seq<Change>, found: seq<Change>, a: nat, b: nat, d: nat)
    requires Layers(before, after, committed, found, a, b, d)
    ensures forall c :: c in CommittedPart(before, after, committed) ==> c in found
    ensures forall c :: IsSigned(before, after, c) ==> c in found
    ensures forall gone :: Vanished(before, after, gone) ==> exists c :: c in found && KeyOf(c) == KeyOf(gone)
  {
    forall c | c in found[..a]
      ensures c in found
    {
    }
    forall gone | Vanished(before, after, gone)
      ensures exists c :: c in found && KeyOf(c) == KeyOf(gone)
    {
      var i :| d <= i < |found| && KeyOf(found[i]) == KeyOf(gone);
      assert found[i] in found;
    }
  }

  lemma CollectedIsComplete(before: Snapshot, after: Snapshot, committed: seq<Change>, found: seq<Change>,
                            r: map<Key, Change>, sensitive: string -> bool)
    requires exists a, b, d :: Layers(before, after, committed, found, a, b, d)
    requires ValidChanges(found, sensitive)
    requires forall path :: FingerprintDiffers(before, after, path) ==>
               exists k :: 0 <= k < |found| && Touches(found[k], path)
    requires forall k :: k in r <==> LastFor(found, sensitive, k).Some?
    ensures Complete(before, after, committed, r)
  {
    var a, b, d :| Layers(before, after, committed, found, a, b, d);
    LayersCover(before, after, committed, found, a, b, d);
    FoundIsReported(found, r, sensitive);
    forall path | FingerprintDiffers(before, after, path)
      ensures exists k :: k in r && KeyTouches(k, path)
    {
      var i :| 0 <= i < |found| && Touches(found[i], path);
      assert found[i] in found;
      assert KeyTouches(KeyOf(found[i]), path);
    }
    assert forall c :: c in after.changes && SignatureChanged(before, c) ==> IsSigned(before, after, c);
  }

  lemma FoundIsReported(found: seq<Change>, r: map<Key, Change>, sensitive: string -> bool)
    requires ValidChanges(found, sensitive)
    requires forall k :: k in r <==> LastFor(found, sensitive, k).Some?
    ensures forall c :: c in found ==> KeyOf(c) in r
  {
    forall c | c in found
      ensures KeyOf(c) in r
    {
      assert ValidKey(c, sensitive) == Some(KeyOf(c));
    }
  }

  /** A change made up from fingerprints comes only where nothing collected before it names the path. */
  lemma PrintedComesAlone(before: Snapshot, after: Snapshot, committed: seq<Change>, found: seq<Change>,
                          a: nat, b: nat, d: nat, j: nat, i: nat)
    requires Layers(before, after, committed, found, a, b, d)
    requires j < i < d && KeyOf(found[j]) == KeyOf(found[i])
    ensures i < b
  {
    assert found[j].path == found[i].path;
    assert Touches(found[j], found[i].path);
  }

  /** In the layered list the last change of a key is the one whose evidence decides. */
  lemma LastDecides(before: Snapshot, after: Snapshot, committed: seq<Change>, found: seq<Change>,
                    a: nat, b: nat, d: nat, k: Key, i: nat)
    requires Layers(before, after, committed, found, a, b, d)
    requires i < |found| && KeyOf(found[i]) == k && forall j :: i < j < |found| ==> KeyOf(found[j]) != k
    ensures Decides(before, after, committed, k, found[i])
  {
    VanishedComesLast(before, after, committed, found, a, b, d, k, i);
    if !IsVanishedKey(before, after, k) {
      SignedComesBefore(before, after, committed, found, a, b, d, k, i);
      CommittedComesBefore(before, after, committed, found, a, b, d, k, i);
      LayerIsJustified(before, after, committed, found, a, b, d, i);
      if b <= i {
        PrintedIsUnnamed(before, after, committed, found, a, b, d, i);
      }
    }
  }

  lemma PrintedIsUnnamed(before: Snapshot, after: Snapshot, committed: seq<Change>, found: seq<Change>,
                         a: nat, b: nat, d: nat, i: nat)
    requires Layers(before, after, committed, found, a, b, d) && b <= i < d
    ensures IsUnnamed(before, after, committed, found[i].path)
  {
    forall c | c in CommittedPart(before, after, committed)
      ensures c.path != found[i].path && c.previous != Some(found[i].path)
    {
      var j :| 0 <= j < a && found[..a][j] == c;
      assert found[j] == c;
    }
    forall c | IsSigned(before, after, c)
      ensures c.path != found[i].path && c.previous != Some(found[i].path)
    {
      var j :| a <= j < b && found[j] == c;
    }
  }

  lemma VanishedComesLast(before: Snapshot, after: Snapshot, committed: seq<Change>, found: seq<Change>,
                          a: nat, b: nat, d: nat, k: Key, i: nat)
    requires Layers(before, after, committed, found, a, b, d)
    requires i < |found| && KeyOf(found[i]) == k && forall j :: i < j < |found| ==> KeyOf(found[j]) != k
    ensures d <= i <==> IsVanishedKey(before, after, k)
    ensures d <= i ==> IsGone(before, after, found[i])
  {
    if IsVanishedKey(before, after, k) {
      var gone :| Vanished(before, after, gone) && KeyOf(gone) == k;
      var j := VanishedPosition(before, after, committed, found, a, b, d, gone);
      assert j <= i;
    } else if d <= i {
      GoneIsVanished(before, after, found[i]);
    }
  }

  lemma VanishedPosition(before: Snapshot, after: Snapshot, committed: seq<Change>, found: seq<Change>,
                         a: nat, b: nat, d: nat, gone: Change) returns (j: nat)
    requires Layers(before, after, committed, found, a, b, d) && Vanished(before, after, gone)
    ensures d <= j < |found| && KeyOf(found[j]) == KeyOf(gone)
  {
    j :| d <= j < |found| && KeyOf(found[j]) == KeyOf(gone);
  }

  lemma GoneIsVanished(before: Snapshot, after: Snapshot, c: Change)
    requires IsGone(before, after, c)
    ensures IsVanishedKey(before, after, KeyOf(c))
  {
    var gone :| Vanished(before, after, gone) && KeyOf(gone) == KeyOf(c);
  }

  lemma SignedComesBefore(before: Snapshot, after: Snapshot, committed: seq<Change>, found: seq<Change>,
                          a: nat, b: nat, d: nat, k: Key, i: nat)
    requires Layers(before, after, committed, found, a, b, d)
    requires i < d && KeyOf(found[i]) == k && forall j :: i < j < |found| ==> KeyOf(found[j]) != k
    ensures IsSignedKey(before, after, k) ==> IsSigned(before, after, found[i])
  {
    if IsSignedKey(before, after, k) {
      var c :| IsSigned(before, after, c) && KeyOf(c) == k;
      var j :| a <= j < b && found[j] == c;
      if j < i {
        PrintedComesAlone(before, after, committed, found, a, b, d, j, i);
      }
    }
  }

  lemma CommittedComesBefore(before: Snapshot, after: Snapshot, committed: seq<Change>, found: seq<Change>,
                             a: nat, b: nat, d: nat, k: Key, i: nat)
    requires Layers(before, after, committed, found, a, b, d)
    requires i < d && KeyOf(found[i]) == k && forall j :: i < j < |found| ==> KeyOf(found[j]) != k
    ensures IsCommittedKey(before, after, committed, k) ==>
              IsSigned(before, after, found[i]) || found[i] in CommittedPart(before, after, committed)
  {
    if IsCommittedKey(before, after, committed, k) {
      var c :| c in CommittedPart(before, after, committed) && KeyOf(c) == k;
      var j :| 0 <= j < a && found[..a][j] == c;
      assert found[j] == c;
      if j < i {
        PrintedComesAlone(before, after, committed, found, a, b, d, j, i);
      }
      assert i < a ==> found[..a][i] == found[i];
    }
  }

  lemma CollectedIsSound(before: Snapshot, after: Snapshot, committed: seq<Change>, found: seq<Change>,
                         r: map<Key, Change>, sensitive: string -> bool)
    requires exists a, b, d :: Layers(before, after, committed, found, a, b, d)
    requires ValidChanges(found, sensitive)
    requires forall k :: k in r ==> LastFor(found, sensitive, k).Some?
    requires forall k :: k in r ==>
               var c := LastFor(found, sensitive, k).value; HasMeasure(r[k], c.status, c.additions, c.deletions)
    ensures Sound(before, after, committed, r)
  {
    var a, b, d :| Layers(before, after, committed, found, a, b, d);
    forall k | k in r
      ensures exists c :: Decides(before, after, committed, k, c) && HasMeasure(r[k], c.status, c.additions, c.deletions)
    {
      var i :| IsLastFor(found, sensitive, k, i) && found[i] == LastFor(found, sensitive, k).value;
      assert forall j :: 0 <= j < |found| ==> ValidKey(found[j], sensitive) == Some(KeyOf(found[j])) by {
        assert forall j :: 0 <= j < |found| ==> found[j] in found;
      }
      LastDecides(before, after, committed, found, a, b, d, k, i);
    }
  }

  predicate HasDistinctPaths(changes: seq<Change>) {
    forall i, j :: 0 <= i < j < |changes| ==> changes[i].path != changes[j].path
  }

  lemma NothingVanishes(s: Snapshot, gone: Change)
    ensures !Vanished(s, s, gone)
  {
  }

  lemma NothingIsSigned(s: Snapshot, c: Change)
    requires HasDistinctPaths(s.changes)
    ensures !IsSigned(s, s, c)
  {
    if c in s.changes {
      var i :| 0 <= i < |s.changes| && s.changes[i] == c;
      LastSignatureOfDistinct(s.changes, i);
    }
  }

  lemma NothingDecides(s: Snapshot, committed: seq<Change>, k: Key, c: Change)
    requires HasDistinctPaths(s.changes)
    ensures !Decides(s, s, committed, k, c)
  {
    forall gone {
      NothingVanishes(s, gone);
    }
    NothingIsSigned(s, c);
  }

  /** Between two equal snapshots, whose changes name distinct paths, nothing is reported. */
  lemma UnchangedSnapshotReportsNothing(s: Snapshot, committed: seq<Change>, r: map<Key, Change>)
    requires HasDistinctPaths(s.changes) && Sound(s, s, committed, r)
    ensures r == map[]
  {
    forall k | k in r
      ensures false
    {
      var c :| Decides(s, s, committed, k, c) && HasMeasure(r[k], c.status, c.additions, c.deletions);
      NothingDecides(s, committed, k, c);
    }
  }

  lemma {:induction false} LastSignatureOfDistinct(changes: seq<Change>, i: nat)
    requires i < |changes|
    requires HasDistinctPaths(changes)
    ensures LastSignature(changes, changes[i].path) == Some(SignatureOf(changes[i]))
    decreases |changes|
  {
    var n := |changes| - 1;
    if i < n {
      assert changes[i].path != changes[n].path;
      assert changes[..n][i] == changes[i];
      LastSignatureOfDistinct(changes[..n], i);
    }
  }
}
