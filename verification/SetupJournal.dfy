/**
 The redo journal of `src/setup.rs`: persist the journal, apply its targets, remove it, and
 on the next run apply it again if it is still there. A process may stop before any file
 effect; writes and removals of single files are atomic and durable.
 */
module SetupJournal {
  import opened ByteStrings
  import opened Wrappers

  /** A collision-free digest, kept as the bytes it digests. */
  datatype Digest = Digest(of: Bytes)

  datatype Path = Path(directory: string, name: string)

  const MANAGED_ID := "previously-on-v1"
  const JOURNAL_VERSION: nat := 1

  // ---------------------------------------------------------------- archive names

  const ARCHIVE_PREFIX := "setup-manifest.uninstalled-"
  const ARCHIVE_SUFFIX := ".json"

  predicate IsDigit(c: char) {
    '0' <= c <= '9'
  }

  function Digits(n: nat): (s: string)
    ensures s != "" && forall i :: 0 <= i < |s| ==> IsDigit(s[i])
  {
    if n < 10 then [('0' as int + n) as char] else Digits(n / 10) + [('0' as int + n % 10) as char]
  }

  function Number(s: string): nat
    requires forall i :: 0 <= i < |s| ==> IsDigit(s[i])
  {
    if s == "" then 0
    else
      assert IsDigit(s[|s| - 1]);
      10 * Number(s[..|s| - 1]) + (s[|s| - 1] as int - '0' as int)
  }

  lemma {:induction false} NumberInvertsDigits(n: nat)
    ensures Number(Digits(n)) == n
  {
    if n >= 10 {
      NumberInvertsDigits(n / 10);
      assert Digits(n)[..|Digits(n)| - 1] == Digits(n / 10);
    }
  }

  /** The position of the first hyphen, or the length. */
  function FirstHyphen(s: string): (k: nat)
    ensures k <= |s|
    ensures k < |s| ==> s[k] == '-'
    ensures forall j :: 0 <= j < k ==> s[j] != '-'
  {
    if s == "" || s[0] == '-' then 0 else 1 + FirstHyphen(s[1..])
  }

  predicate EndsWith(s: string, suffix: string) {
    |suffix| <= |s| && s[|s| - |suffix|..] == suffix
  }

  predicate IsArchiveName(name: string, isUuid: string -> bool) {
    ARCHIVE_PREFIX <= name
    && EndsWith(name[|ARCHIVE_PREFIX|..], ARCHIVE_SUFFIX)
    && var rest := name[|ARCHIVE_PREFIX|..];
       var middle := rest[..|rest| - |ARCHIVE_SUFFIX|];
       var k := FirstHyphen(middle);
       k < |middle| && 0 < k
       && (forall i :: 0 <= i < k ==> IsDigit(middle[i]))
       && Number(middle[..k]) < 0x8000_0000_0000_0000
       && isUuid(middle[k + 1..])
  }

  function ArchiveName(timestamp: nat, uuid: string): string {
    ARCHIVE_PREFIX + (Digits(timestamp) + "-" + uuid + ARCHIVE_SUFFIX)
  }

  lemma {:induction false} FirstHyphenAfterDigits(digits: string, rest: string)
    requires forall i :: 0 <= i < |digits| ==> IsDigit(digits[i])
    ensures FirstHyphen(digits + "-" + rest) == |digits|
  {
    var s := digits + "-" + rest;
    if digits != [] {
      assert s[1..] == digits[1..] + "-" + rest;
      FirstHyphenAfterDigits(digits[1..], rest);
    }
  }

  lemma ArchiveNameParts(digits: string, uuid: string)
    ensures var middle := digits + "-" + uuid;
            var name := ARCHIVE_PREFIX + (middle + ARCHIVE_SUFFIX);
            && ARCHIVE_PREFIX <= name && name[|ARCHIVE_PREFIX|..] == middle + ARCHIVE_SUFFIX
            && EndsWith(middle + ARCHIVE_SUFFIX, ARCHIVE_SUFFIX)
            && (middle + ARCHIVE_SUFFIX)[..|middle|] == middle
            && middle[..|digits|] == digits && middle[|digits| + 1..] == uuid
  {
  }

  /** The name given to an archived manifest is one that validation recognizes. */
  lemma GeneratedArchiveNameIsRecognized(timestamp: nat, uuid: string, isUuid: string -> bool)
    requires timestamp < 0x8000_0000_0000_0000
    ensures IsArchiveName(ArchiveName(timestamp, uuid), isUuid) <==> isUuid(uuid)
  {
    var digits := Digits(timestamp);
    ArchiveNameParts(digits, uuid);
    FirstHyphenAfterDigits(digits, uuid);
    NumberInvertsDigits(timestamp);
  }

  predicate IsNameOf(name: string, digits: string, uuid: string, isUuid: string -> bool) {
    && name == "setup-manifest.uninstalled-" + digits + "-" + uuid + ".json"
    && digits != "" && (forall i :: 0 <= i < |digits| ==> '0' <= digits[i] <= '9')
    && Number(digits) < 0x8000_0000_0000_0000 && isUuid(uuid)
  }

  /** An archive name is exactly the prefix, a decimal number that fits 63 bits, a hyphen, a UUID and the suffix. */
  lemma ArchiveNameIff(name: string, isUuid: string -> bool)
    ensures IsArchiveName(name, isUuid) <==> exists digits, uuid :: IsNameOf(name, digits, uuid, isUuid)
  {
    if IsArchiveName(name, isUuid) {
      var rest := name[|ARCHIVE_PREFIX|..];
      var middle := rest[..|rest| - |ARCHIVE_SUFFIX|];
      var k := FirstHyphen(middle);
      assert middle == middle[..k] + "-" + middle[k + 1..];
      assert name == ARCHIVE_PREFIX + (middle + ARCHIVE_SUFFIX);
      assert IsNameOf(name, middle[..k], middle[k + 1..], isUuid);
    }
    if digits, uuid :| IsNameOf(name, digits, uuid, isUuid) {
      NamedIsArchive(name, digits, uuid, isUuid);
    }
  }

  lemma NamedIsArchive(name: string, digits: string, uuid: string, isUuid: string -> bool)
    requires IsNameOf(name, digits, uuid, isUuid)
    ensures IsArchiveName(name, isUuid)
  {
    assert name == ARCHIVE_PREFIX + (digits + "-" + uuid + ARCHIVE_SUFFIX);
    ArchiveNameParts(digits, uuid);
    FirstHyphenAfterDigits(digits, uuid);
  }

  // ---------------------------------------------------------------- journals

  datatype SetupPaths = SetupPaths(codexHome: string, dataDir: string, isUuid: string -> bool) {
    function HooksPath(): Path { Path(codexHome, "hooks.json") }
    function ConfigPath(): Path { Path(codexHome, "config.toml") }
    function ManifestPath(): Path { Path(dataDir, "setup-manifest.json") }
    function JournalPath(): Path { Path(dataDir, "setup-recovery-journal.json") }
    predicate IsArchive(path: Path) { path.directory == dataDir && IsArchiveName(path.name, isUuid) }
  }

  /** An archive is a file of that name in the data directory. */
  lemma ArchivePathIff(paths: SetupPaths, path: Path)
    ensures paths.IsArchive(path) <==>
            path.directory == paths.dataDir && exists digits, uuid :: IsNameOf(path.name, digits, uuid, paths.isUuid)
  {
    ArchiveNameIff(path.name, paths.isUuid);
  }

  datatype Operation = Install | Uninstall

  datatype Target = Target(path: Path, originalExisted: bool, originalBytes: Bytes, originalHash: Option<Digest>,
                           desired: Option<Bytes>, desiredHash: Option<Digest>)

  datatype Journal = Journal(version: nat, managedId: string, operation: Operation, targets: seq<Target>)

  /** The journal file holds a serialized journal; every other file holds bytes. */
  datatype Body = Data(bytes: Bytes) | Record(journal: Journal)

  type Files = map<Path, Body>

  function Count(targets: seq<Target>, p: Target -> bool): nat {
    if targets == [] then 0 else (if p(targets[0]) then 1 else 0) + Count(targets[1..], p)
  }

  function CountPath(targets: seq<Target>, path: Path): nat {
    Count(targets, (t: Target) => t.path == path)
  }

  predicate HashesMatch(t: Target) {
    && (if t.originalExisted then t.originalHash == Some(Digest(t.originalBytes))
        else t.originalHash == None && t.originalBytes == [])
    && (if t.desired.Some? then t.desiredHash == Some(Digest(t.desired.value)) else t.desiredHash == None)
  }

  predicate IsValidJournal(paths: SetupPaths, journal: Journal) {
    && journal.version == JOURNAL_VERSION && journal.managedId == MANAGED_ID
    && (forall t :: t in journal.targets ==> HashesMatch(t))
    && CountPath(journal.targets, paths.HooksPath()) == 1
    && CountPath(journal.targets, paths.ConfigPath()) == 1
    && CountPath(journal.targets, paths.ManifestPath()) == 1
    && match journal.operation
       case Install =>
         |journal.targets| == 3
         && forall t :: t in journal.targets ==>
              t.path in {paths.HooksPath(), paths.ConfigPath(), paths.ManifestPath()} && t.desired.Some?
       case Uninstall =>
         |journal.targets| == 4
         && Count(journal.targets, (t: Target) => paths.IsArchive(t.path)) == 1
         && forall t :: t in journal.targets ==>
              && (t.path in {paths.HooksPath(), paths.ConfigPath(), paths.ManifestPath()} || paths.IsArchive(t.path))
              && (t.path == paths.ManifestPath() ==> t.desired.None?)
              && (paths.IsArchive(t.path) ==> t.desired.Some? && !t.originalExisted)
  }

  ghost predicate DistinctPaths(targets: seq<Target>) {
    forall i, j :: 0 <= i < j < |targets| ==> targets[i].path != targets[j].path
  }

  lemma {:induction false} TwoWitnessesCountTwice(targets: seq<Target>, p: Target -> bool, i: nat, j: nat)
    requires i < j < |targets| && p(targets[i]) && p(targets[j])
    ensures Count(targets, p) >= 2
    decreases i
  {
    if i > 0 {
      TwoWitnessesCountTwice(targets[1..], p, i - 1, j - 1);
    } else {
      OneWitnessCounts(targets[1..], p, j - 1);
    }
  }

  lemma {:induction false} OneWitnessCounts(targets: seq<Target>, p: Target -> bool, j: nat)
    requires j < |targets| && p(targets[j])
    ensures Count(targets, p) >= 1
    decreases j
  {
    if j > 0 {
      OneWitnessCounts(targets[1..], p, j - 1);
    }
  }

  /** The exact allowlist: no path twice, and never the journal itself. */
  lemma ValidJournalHasDistinctPaths(paths: SetupPaths, journal: Journal)
    requires IsValidJournal(paths, journal)
    ensures DistinctPaths(journal.targets)
    ensures forall t :: t in journal.targets ==> t.path != paths.JournalPath()
  {
    var ts := journal.targets;
    forall i, j | 0 <= i < j < |ts|
      ensures ts[i].path != ts[j].path
    {
      if ts[i].path == ts[j].path {
        assert ts[i] in ts;
        if paths.IsArchive(ts[i].path) && journal.operation == Uninstall {
          TwoWitnessesCountTwice(ts, (t: Target) => paths.IsArchive(t.path), i, j);
        } else {
          TwoWitnessesCountTwice(ts, (t: Target) => t.path == ts[i].path, i, j);
        }
      }
    }
    forall t | t in ts
      ensures t.path != paths.JournalPath()
    {
      assert paths.HooksPath().name[0] == 'h' && paths.ConfigPath().name[0] == 'c';
      assert paths.ManifestPath().name[6] == 'm' && paths.JournalPath().name[6] == 'r';
      assert paths.JournalPath().name[0] == 's';
      if paths.IsArchive(t.path) {
        assert ARCHIVE_PREFIX[6] == t.path.name[6];
      }
    }
  }

  // ---------------------------------------------------------------- redo

  function ApplyTarget(files: Files, t: Target): Files {
    if t.desired.Some? then files[t.path := Data(t.desired.value)] else files - {t.path}
  }

  function ApplyAll(files: Files, targets: seq<Target>): Files {
    if targets == [] then files
    else ApplyTarget(ApplyAll(files, targets[..|targets| - 1]), targets[|targets| - 1])
  }

  /** What a target wants of its own path. */
  ghost predicate IsDesired(files: Files, t: Target) {
    if t.desired.Some? then t.path in files && files[t.path] == Data(t.desired.value) else t.path !in files
  }

  ghost predicate SameAt(a: Files, b: Files, path: Path) {
    if path in a then path in b && a[path] == b[path] else path !in b
  }

  /** Applying touches the targets, which all get what they want, and nothing else. */
  lemma {:induction false} ApplyAllMeans(files: Files, targets: seq<Target>)
    requires DistinctPaths(targets)
    ensures forall i :: 0 <= i < |targets| ==> IsDesired(ApplyAll(files, targets), targets[i])
    ensures forall path :: (forall i :: 0 <= i < |targets| ==> targets[i].path != path) ==>
              SameAt(ApplyAll(files, targets), files, path)
    decreases |targets|
  {
    if targets != [] {
      var n := |targets| - 1;
      var init := targets[..n];
      ApplyAllMeans(files, init);
      forall i | 0 <= i < |targets|
        ensures IsDesired(ApplyAll(files, targets), targets[i])
      {
        if i < n {
          assert IsDesired(ApplyAll(files, init), init[i]);
          assert targets[i].path != targets[n].path;
        }
      }
      forall path | forall i :: 0 <= i < |targets| ==> targets[i].path != path
        ensures SameAt(ApplyAll(files, targets), files, path)
      {
        assert forall i :: 0 <= i < n ==> init[i].path == targets[i].path;
        assert path != targets[n].path;
        assert SameAt(ApplyAll(files, init), files, path);
      }
    }
  }

  /** Starting over from a prefix already applied, `j` targets in: the longer of the two prefixes. */
  lemma RedoFromPrefix(initial: Files, targets: seq<Target>, k: nat, j: nat)
    requires DistinctPaths(targets) && k <= |targets| && j <= |targets|
    ensures ApplyAll(ApplyAll(initial, targets[..k]), targets[..j])
         == ApplyAll(initial, targets[..if j <= k then k else j])
  {
    var partial := ApplyAll(initial, targets[..k]);
    var redone := ApplyAll(partial, targets[..j]);
    var longest := if j <= k then k else j;
    var expected := ApplyAll(initial, targets[..longest]);
    ApplyAllMeans(initial, targets[..k]);
    ApplyAllMeans(partial, targets[..j]);
    ApplyAllMeans(initial, targets[..longest]);
    forall path
      ensures SameAt(redone, expected, path)
    {
      if i :| 0 <= i < |targets| && targets[i].path == path {
        SamePrefixValue(initial, targets, k, j, i);
      } else {
        assert forall i :: 0 <= i < |targets| ==> targets[i].path != path;
        assert SameAt(partial, initial, path) && SameAt(redone, partial, path) && SameAt(expected, initial, path);
      }
    }
    SameEverywhere(redone, expected);
  }

  lemma SameEverywhere(a: Files, b: Files)
    requires forall path :: SameAt(a, b, path)
    ensures a == b
  {
    assert forall path :: path in a <==> path in b by {
      forall path
        ensures path in a <==> path in b
      {
        assert SameAt(a, b, path);
      }
    }
    assert forall path :: path in a ==> a[path] == b[path] by {
      forall path | path in a
        ensures a[path] == b[path]
      {
        assert SameAt(a, b, path);
      }
    }
  }

  lemma SamePrefixValue(initial: Files, targets: seq<Target>, k: nat, j: nat, i: nat)
    requires DistinctPaths(targets) && k <= |targets| && j <= |targets| && i < |targets|
    ensures SameAt(ApplyAll(ApplyAll(initial, targets[..k]), targets[..j]),
                   ApplyAll(initial, targets[..if j <= k then k else j]), targets[i].path)
  {
    var path := targets[i].path;
    var longest := if j <= k then k else j;
    PrefixValue(initial, targets, k, i);
    PrefixValue(ApplyAll(initial, targets[..k]), targets, j, i);
    PrefixValue(initial, targets, longest, i);
  }

  /** A path is as desired once its target has been applied, and as before until then. */
  lemma PrefixValue(files: Files, targets: seq<Target>, k: nat, i: nat)
    requires DistinctPaths(targets) && k <= |targets| && i < |targets|
    ensures i < k ==> IsDesired(ApplyAll(files, targets[..k]), targets[i])
    ensures k <= i ==> SameAt(ApplyAll(files, targets[..k]), files, targets[i].path)
  {
    var part := targets[..k];
    ApplyAllMeans(files, part);
    if i < k {
      assert IsDesired(ApplyAll(files, part), part[i]);
    } else {
      assert forall m :: 0 <= m < |part| ==> part[m].path == targets[m].path && targets[m].path != targets[i].path;
    }
  }

  // ---------------------------------------------------------------- the file system and crashes

  datatype Status = Completed | Crashed | Refused | NothingToDo

  /** Interrupted somewhere between the journal's persisting and its removal. */
  ghost predicate InProgress(paths: SetupPaths, initial: Files, journal: Journal, files: Files) {
    exists k :: 0 <= k <= |journal.targets|
                && files == ApplyAll(initial, journal.targets[..k])[paths.JournalPath() := Record(journal)]
  }

  ghost function Final(paths: SetupPaths, initial: Files, journal: Journal): Files {
    ApplyAll(initial, journal.targets) - {paths.JournalPath()}
  }

  lemma ApplyKeepsJournal(paths: SetupPaths, files: Files, journal: Journal, targets: seq<Target>)
    requires forall t :: t in targets ==> t.path != paths.JournalPath()
    ensures ApplyAll(files[paths.JournalPath() := Record(journal)], targets)
         == ApplyAll(files, targets)[paths.JournalPath() := Record(journal)]
  {
    if targets != [] {
      var n := |targets| - 1;
      ApplyKeepsJournal(paths, files, journal, targets[..n]);
      assert targets[n].path != paths.JournalPath();
    }
  }

  lemma RedoOfInterrupted(paths: SetupPaths, initial: Files, journal: Journal, k: nat, j: nat)
    requires DistinctPaths(journal.targets) && forall t :: t in journal.targets ==> t.path != paths.JournalPath()
    requires k <= |journal.targets| && j <= |journal.targets|
    ensures ApplyAll(ApplyAll(initial, journal.targets[..k])[paths.JournalPath() := Record(journal)], journal.targets[..j])
         == ApplyAll(initial, journal.targets[..if j <= k then k else j])[paths.JournalPath() := Record(journal)]
  {
    ApplyKeepsJournal(paths, ApplyAll(initial, journal.targets[..k]), journal, journal.targets[..j]);
    RedoFromPrefix(initial, journal.targets, k, j);
  }

  /** Redoing `j` targets of an interrupted journal leaves it interrupted, or complete but for its file. */
  lemma RedoStaysInProgress(paths: SetupPaths, initial: Files, journal: Journal, files: Files, j: nat)
    requires IsValidJournal(paths, journal) && j <= |journal.targets|
    requires InProgress(paths, initial, journal, files)
    ensures InProgress(paths, initial, journal, ApplyAll(files, journal.targets[..j]))
    ensures ApplyAll(files, journal.targets) - {paths.JournalPath()} == Final(paths, initial, journal)
  {
    ValidJournalHasDistinctPaths(paths, journal);
    RedoEnds(paths, initial, journal, files, j);
  }

  lemma RedoEnds(paths: SetupPaths, initial: Files, journal: Journal, files: Files, j: nat)
    requires DistinctPaths(journal.targets) && forall t :: t in journal.targets ==> t.path != paths.JournalPath()
    requires j <= |journal.targets| && InProgress(paths, initial, journal, files)
    ensures InProgress(paths, initial, journal, ApplyAll(files, journal.targets[..j]))
    ensures ApplyAll(files, journal.targets) - {paths.JournalPath()} == Final(paths, initial, journal)
  {
    var n := |journal.targets|;
    var k :| 0 <= k <= n && files == ApplyAll(initial, journal.targets[..k])[paths.JournalPath() := Record(journal)];
    RedoOfInterrupted(paths, initial, journal, k, j);
    RedoOfInterrupted(paths, initial, journal, k, n);
    assert journal.targets[..n] == journal.targets;
    ForgetJournal(ApplyAll(initial, journal.targets), paths.JournalPath(), Record(journal));
  }

  lemma ForgetJournal(files: Files, path: Path, body: Body)
    ensures files[path := body] - {path} == files - {path}
  {
  }

  class Disk {
    var files: Files

    constructor (initial: Files)
      ensures files == initial
    {
      files := initial;
    }

    /** Applies the targets in order; `budget` file effects happen before the process stops. */
    method ApplyTargets(targets: seq<Target>, budget: nat) returns (status: Status, left: nat)
      requires forall k :: 0 <= k < |targets| ==> HashesMatch(targets[k])
      modifies this
      ensures if budget < |targets| then status == Crashed && files == ApplyAll(old(files), targets[..budget])
              else status == Completed && files == ApplyAll(old(files), targets) && left == budget - |targets|
    {
      left := budget;
      for k := 0 to |targets|
        invariant left == budget - k
        invariant files == ApplyAll(old(files), targets[..k])
      {
        var target := targets[k];
        assert targets[..k + 1][..k] == targets[..k];
        if left == 0 {
          return Crashed, left;
        }
        left := left - 1;
        match target.desired
        case Some(bytes) =>
          if target.desiredHash != Some(Digest(bytes)) {
            return Refused, left;
          }
          files := files[target.path := Data(bytes)];
        case None =>
          files := files - {target.path};
      }
      assert targets[..|targets|] == targets;
      status := Completed;
    }

    method ApplySetupJournal(paths: SetupPaths, journal: Journal, budget: nat) returns (status: Status, left: nat)
      modifies this
      ensures !IsValidJournal(paths, journal) ==> status == Refused && files == old(files) && left == budget
      ensures IsValidJournal(paths, journal) ==>
                if budget < |journal.targets|
                then status == Crashed && files == ApplyAll(old(files), journal.targets[..budget])
                else status == Completed && files == ApplyAll(old(files), journal.targets)
                     && left == budget - |journal.targets|
    {
      if !IsValidJournal(paths, journal) {
        return Refused, budget;
      }
      status, left := ApplyTargets(journal.targets, budget);
    }

    method PersistAndApplyJournal(paths: SetupPaths, journal: Journal, budget: nat) returns (status: Status)
      modifies this
      ensures status == Refused <==> !IsValidJournal(paths, journal)
      ensures status == Refused ==> files == old(files)
      ensures status == Completed <==> IsValidJournal(paths, journal) && budget >= |journal.targets| + 2
      ensures status == Completed ==> files == Final(paths, old(files), journal)
      ensures status == Crashed && budget == 0 ==> files == old(files)
      ensures status == Crashed && budget >= 1 ==> InProgress(paths, old(files), journal, files)
      ensures status != NothingToDo
    {
      if !IsValidJournal(paths, journal) {
        return Refused;
      }
      if budget == 0 {
        return Crashed;
      }
      ghost var initial := files;
      files := files[paths.JournalPath() := Record(journal)];
      ValidJournalHasDistinctPaths(paths, journal);
      var left;
      status, left := ApplySetupJournal(paths, journal, budget - 1);
      ghost var applied := if status == Crashed then journal.targets[..budget - 1] else journal.targets;
      ApplyKeepsJournal(paths, initial, journal, applied);
      assert journal.targets[..|journal.targets|] == journal.targets;
      if status == Completed {
        if left == 0 {
          return Crashed;
        }
        files := files - {paths.JournalPath()};
      }
    }

    /**
     On start-up: applies a journal found on disk and removes it. `initial` and `journal` are
     any operation that this disk may have been left in the middle of.
     */
    method RecoverSetupJournal(paths: SetupPaths, budget: nat, ghost initial: Files, ghost journal: Journal)
      returns (status: Status)
      modifies this
      ensures status == NothingToDo <==> paths.JournalPath() !in old(files)
      ensures status == Refused <==>
                paths.JournalPath() in old(files)
                && !(old(files)[paths.JournalPath()].Record?
                     && IsValidJournal(paths, old(files)[paths.JournalPath()].journal))
      ensures status == NothingToDo || status == Refused ==> files == old(files)
      ensures IsValidJournal(paths, journal) && old(InProgress(paths, initial, journal, files)) ==>
                if budget >= |journal.targets| + 1
                then status == Completed && files == Final(paths, initial, journal)
                else status == Crashed && InProgress(paths, initial, journal, files)
    {
      if paths.JournalPath() !in files {
        return NothingToDo;
      }
      var found := files[paths.JournalPath()];
      if found.Data? {
        return Refused;
      }
      if IsValidJournal(paths, journal) && InProgress(paths, initial, journal, files) {
        ghost var j := if budget < |journal.targets| then budget else |journal.targets|;
        RedoStaysInProgress(paths, initial, journal, files, j);
        assert journal.targets[..|journal.targets|] == journal.targets;
      }
      var left;
      status, left := ApplySetupJournal(paths, found.journal, budget);
      if status == Completed {
        if left == 0 {
          return Crashed;
        }
        files := files - {paths.JournalPath()};
      }
    }
  }

  /**
   One run of an operation that may stop anywhere, followed by any number of start-up
   recoveries that may stop anywhere. After a recovery that runs to its end, either nothing
   ever happened or every target holds what the journal wanted.
   */
  method CrashAndRecover(disk: Disk, paths: SetupPaths, journal: Journal, crashAt: nat, recoveries: seq<nat>)
    returns (settled: bool)
    requires IsValidJournal(paths, journal) && paths.JournalPath() !in disk.files
    modifies disk
    ensures disk.files == old(disk.files) || disk.files == Final(paths, old(disk.files), journal)
            || InProgress(paths, old(disk.files), journal, disk.files)
    ensures settled ==> disk.files == old(disk.files) || disk.files == Final(paths, old(disk.files), journal)
    ensures settled && crashAt >= 1 ==> disk.files == Final(paths, old(disk.files), journal)
    ensures crashAt == 0 ==> disk.files == old(disk.files)
    ensures recoveries != [] && recoveries[|recoveries| - 1] >= |journal.targets| + 1 ==> settled
  {
    ghost var initial := disk.files;
    var status := disk.PersistAndApplyJournal(paths, journal, crashAt);
    settled := status == Completed;
    for k := 0 to |recoveries|
      invariant disk.files == initial || disk.files == Final(paths, initial, journal)
                || InProgress(paths, initial, journal, disk.files)
      invariant settled ==> disk.files == initial || disk.files == Final(paths, initial, journal)
      invariant crashAt >= 1 ==> disk.files == Final(paths, initial, journal) || InProgress(paths, initial, journal, disk.files)
      invariant crashAt >= 1 && settled ==> disk.files == Final(paths, initial, journal)
      invariant crashAt == 0 ==> disk.files == initial
      invariant 0 < k && recoveries[k - 1] >= |journal.targets| + 1 ==> settled
    {
      status := disk.RecoverSetupJournal(paths, recoveries[k], initial, journal);
      settled := status != Crashed;
    }
  }

  /** What a settled operation means: every target as desired, everything else as it was. */
  lemma FinalMeans(paths: SetupPaths, initial: Files, journal: Journal)
    requires IsValidJournal(paths, journal) && paths.JournalPath() !in initial
    ensures forall t :: t in journal.targets ==> IsDesired(Final(paths, initial, journal), t)
    ensures forall path :: (forall t :: t in journal.targets ==> t.path != path) ==>
              SameAt(Final(paths, initial, journal), initial, path)
  {
    var ts := journal.targets;
    ValidJournalHasDistinctPaths(paths, journal);
    ApplyAllMeans(initial, ts);
    forall t | t in ts
      ensures IsDesired(Final(paths, initial, journal), t)
    {
      var i :| 0 <= i < |ts| && ts[i] == t;
      assert IsDesired(ApplyAll(initial, ts), ts[i]);
    }
    forall path | forall t :: t in ts ==> t.path != path
      ensures SameAt(Final(paths, initial, journal), initial, path)
    {
      assert forall i :: 0 <= i < |ts| ==> ts[i] in ts && ts[i].path != path;
      assert SameAt(ApplyAll(initial, ts), initial, path);
    }
  }

  // ---------------------------------------------------------------- the journals that are written

  function JournalTarget(files: Files, path: Path, desired: Option<Bytes>): Target
    requires path in files ==> files[path].Data?
  {
    var original := if path in files then Some(files[path].bytes) else None;
    Target(path, original.Some?, if original.Some? then original.value else [],
           if original.Some? then Some(Digest(original.value)) else None,
           desired, if desired.Some? then Some(Digest(desired.value)) else None)
  }

  ghost predicate PlainFiles(files: Files) {
    forall path :: path in files ==> files[path].Data?
  }

  function InstallJournal(paths: SetupPaths, files: Files, hooks: Bytes, config: Bytes, manifest: Bytes): Journal
    requires PlainFiles(files)
  {
    Journal(JOURNAL_VERSION, MANAGED_ID, Install,
            [JournalTarget(files, paths.HooksPath(), Some(hooks)),
             JournalTarget(files, paths.ConfigPath(), Some(config)),
             JournalTarget(files, paths.ManifestPath(), Some(manifest))])
  }

  function UninstallJournal(paths: SetupPaths, files: Files, hooks: Option<Bytes>, config: Option<Bytes>,
                            archive: Path): Journal
    requires PlainFiles(files) && paths.ManifestPath() in files
  {
    Journal(JOURNAL_VERSION, MANAGED_ID, Uninstall,
            [JournalTarget(files, paths.HooksPath(), hooks),
             JournalTarget(files, paths.ConfigPath(), config),
             JournalTarget(files, archive, Some(files[paths.ManifestPath()].bytes)),
             JournalTarget(files, paths.ManifestPath(), None)])
  }

  lemma PathsDiffer(paths: SetupPaths)
    ensures paths.HooksPath() != paths.ConfigPath() && paths.HooksPath() != paths.ManifestPath()
    ensures paths.ConfigPath() != paths.ManifestPath()
    ensures !paths.IsArchive(paths.HooksPath()) && !paths.IsArchive(paths.ConfigPath()) && !paths.IsArchive(paths.ManifestPath())
  {
    assert paths.HooksPath().name[0] == 'h' && paths.ConfigPath().name[0] == 'c' && paths.ManifestPath().name[0] == 's';
    assert ARCHIVE_PREFIX[0] == 's' && ARCHIVE_PREFIX[15] == 'u' && paths.ManifestPath().name[15] == 'j';
  }

  lemma CountOfThree(a: Target, b: Target, c: Target, p: Target -> bool)
    ensures Count([a, b, c], p) == (if p(a) then 1 else 0) + (if p(b) then 1 else 0) + (if p(c) then 1 else 0)
  {
    assert [a, b, c][1..] == [b, c] && [b, c][1..] == [c] && [c][1..] == [];
    assert Count([c], p) == if p(c) then 1 else 0;
    assert Count([b, c], p) == (if p(b) then 1 else 0) + Count([c], p);
  }

  lemma CountOfFour(a: Target, b: Target, c: Target, d: Target, p: Target -> bool)
    ensures Count([a, b, c, d], p) == (if p(a) then 1 else 0) + (if p(b) then 1 else 0)
                                      + (if p(c) then 1 else 0) + (if p(d) then 1 else 0)
  {
    assert [a, b, c, d][1..] == [b, c, d];
    CountOfThree(b, c, d, p);
  }

  /** Installing never trips over its own validation. */
  lemma InstallJournalIsValid(paths: SetupPaths, files: Files, hooks: Bytes, config: Bytes, manifest: Bytes)
    requires PlainFiles(files)
    ensures IsValidJournal(paths, InstallJournal(paths, files, hooks, config, manifest))
  {
    PathsDiffer(paths);
    var ts := InstallJournal(paths, files, hooks, config, manifest).targets;
    CountOfThree(ts[0], ts[1], ts[2], (t: Target) => t.path == paths.HooksPath());
    CountOfThree(ts[0], ts[1], ts[2], (t: Target) => t.path == paths.ConfigPath());
    CountOfThree(ts[0], ts[1], ts[2], (t: Target) => t.path == paths.ManifestPath());
  }

  /** Neither does uninstalling, given a recognized archive path that is not yet taken. */
  lemma UninstallJournalIsValid(paths: SetupPaths, files: Files, hooks: Option<Bytes>, config: Option<Bytes>, archive: Path)
    requires PlainFiles(files) && paths.ManifestPath() in files
    requires paths.IsArchive(archive) && archive !in files
    ensures IsValidJournal(paths, UninstallJournal(paths, files, hooks, config, archive))
  {
    PathsDiffer(paths);
    var ts := UninstallJournal(paths, files, hooks, config, archive).targets;
    CountOfFour(ts[0], ts[1], ts[2], ts[3], (t: Target) => t.path == paths.HooksPath());
    CountOfFour(ts[0], ts[1], ts[2], ts[3], (t: Target) => t.path == paths.ConfigPath());
    CountOfFour(ts[0], ts[1], ts[2], ts[3], (t: Target) => t.path == paths.ManifestPath());
    CountOfFour(ts[0], ts[1], ts[2], ts[3], (t: Target) => paths.IsArchive(t.path));
  }

  /** The manifest's bytes are on disk, at the manifest or at its archive. */
  ghost predicate ManifestSurvives(files: Files, manifest: Path, archive: Path, bytes: Bytes) {
    (manifest in files && files[manifest] == Data(bytes)) || (archive in files && files[archive] == Data(bytes))
  }

  /**
   An uninstall journal that archives the manifest's bytes keeps them on disk at every crash
   point exactly when the archive is written before the manifest is removed.
   */
  lemma ManifestSurvivesIffArchivedFirst(initial: Files, targets: seq<Target>, m: nat, a: nat, bytes: Bytes)
    requires DistinctPaths(targets) && m < |targets| && a < |targets|
    requires targets[m].desired == None && targets[a].desired == Some(bytes)
    requires targets[m].path in initial && initial[targets[m].path] == Data(bytes)
    requires targets[a].path !in initial
    ensures (forall k :: 0 <= k <= |targets| ==>
               ManifestSurvives(ApplyAll(initial, targets[..k]), targets[m].path, targets[a].path, bytes))
            <==> a < m
  {
    if a < m {
      forall k | 0 <= k <= |targets|
        ensures ManifestSurvives(ApplyAll(initial, targets[..k]), targets[m].path, targets[a].path, bytes)
      {
        PrefixValue(initial, targets, k, a);
        PrefixValue(initial, targets, k, m);
      }
    } else {
      PrefixValue(initial, targets, m + 1, a);
      PrefixValue(initial, targets, m + 1, m);
      assert !ManifestSurvives(ApplyAll(initial, targets[..m + 1]), targets[m].path, targets[a].path, bytes);
    }
  }

  /** So an uninstall never loses the manifest, wherever it and its recoveries are interrupted. */
  lemma UninstallNeverLosesManifest(paths: SetupPaths, initial: Files, hooks: Option<Bytes>, config: Option<Bytes>,
                                    archive: Path, files: Files)
    requires PlainFiles(initial) && paths.ManifestPath() in initial && paths.JournalPath() !in initial
    requires paths.IsArchive(archive) && archive !in initial
    requires var journal := UninstallJournal(paths, initial, hooks, config, archive);
             files == initial || files == Final(paths, initial, journal) || InProgress(paths, initial, journal, files)
    ensures ManifestSurvives(files, paths.ManifestPath(), archive, initial[paths.ManifestPath()].bytes)
  {
    var journal := UninstallJournal(paths, initial, hooks, config, archive);
    var bytes := initial[paths.ManifestPath()].bytes;
    UninstallJournalIsValid(paths, initial, hooks, config, archive);
    ValidJournalHasDistinctPaths(paths, journal);
    ManifestSurvivesIffArchivedFirst(initial, journal.targets, 3, 2, bytes);
    assert journal.targets[2].path == archive && journal.targets[3].path == paths.ManifestPath();
    assert journal.targets[2] in journal.targets && journal.targets[3] in journal.targets;
    assert journal.targets[..4] == journal.targets;
    if files != initial {
      if files == Final(paths, initial, journal) {
        assert ManifestSurvives(ApplyAll(initial, journal.targets[..4]), paths.ManifestPath(), archive, bytes);
      } else {
        var k :| 0 <= k <= 4 && files == ApplyAll(initial, journal.targets[..k])[paths.JournalPath() := Record(journal)];
        assert ManifestSurvives(ApplyAll(initial, journal.targets[..k]), paths.ManifestPath(), archive, bytes);
      }
    }
  }

  /** On a fresh install the manifest appears only once both integration files are in place. */
  lemma ManifestMeansInstalled(paths: SetupPaths, initial: Files, hooks: Bytes, config: Bytes, manifest: Bytes, k: nat)
    requires PlainFiles(initial) && paths.ManifestPath() !in initial && k <= 3
    ensures var files := ApplyAll(initial, InstallJournal(paths, initial, hooks, config, manifest).targets[..k]);
            paths.ManifestPath() in files ==>
              && paths.HooksPath() in files && files[paths.HooksPath()] == Data(hooks)
              && paths.ConfigPath() in files && files[paths.ConfigPath()] == Data(config)
  {
    var journal := InstallJournal(paths, initial, hooks, config, manifest);
    InstallJournalIsValid(paths, initial, hooks, config, manifest);
    ValidJournalHasDistinctPaths(paths, journal);
    PrefixValue(initial, journal.targets, k, 0);
    PrefixValue(initial, journal.targets, k, 1);
    PrefixValue(initial, journal.targets, k, 2);
  }

  // ---------------------------------------------------------------- what ends up in which file

  /** The file holds exactly these bytes, or is not there when there are none. */
  ghost predicate Holds(files: Files, path: Path, content: Option<Bytes>) {
    if content.Some? then path in files && files[path] == Data(content.value) else path !in files
  }

  /** As it was before the operation, or already holding what it is to hold. */
  ghost predicate IsOldOrNew(files: Files, initial: Files, path: Path, content: Option<Bytes>) {
    SameAt(files, initial, path) || Holds(files, path, content)
  }

  lemma OtherPathsStay(files: Files, targets: seq<Target>, k: nat)
    requires DistinctPaths(targets) && k <= |targets|
    ensures forall path :: (forall i :: 0 <= i < |targets| ==> targets[i].path != path) ==>
              SameAt(ApplyAll(files, targets[..k]), files, path)
  {
    ApplyAllMeans(files, targets[..k]);
    assert forall i :: 0 <= i < k ==> targets[..k][i] == targets[i];
  }

  /**
   An uninstall brings `hooks` to hooks.json first, then `config` to config.toml, then the manifest's bytes to the
   archive, and removes the manifest last; nothing else is touched.
   */
  lemma UninstallWritesInOrder(paths: SetupPaths, initial: Files, hooks: Option<Bytes>, config: Option<Bytes>,
                               archive: Path, k: nat)
    requires PlainFiles(initial) && paths.ManifestPath() in initial && k <= 4
    requires paths.IsArchive(archive) && archive !in initial
    ensures var files := ApplyAll(initial, UninstallJournal(paths, initial, hooks, config, archive).targets[..k]);
            var hooksFile := Path(paths.codexHome, "hooks.json"); var configFile := Path(paths.codexHome, "config.toml");
            var manifest := Path(paths.dataDir, "setup-manifest.json");
            && (if k >= 1 then Holds(files, hooksFile, hooks) else SameAt(files, initial, hooksFile))
            && (if k >= 2 then Holds(files, configFile, config) else SameAt(files, initial, configFile))
            && (if k >= 3 then Holds(files, archive, Some(initial[manifest].bytes)) else SameAt(files, initial, archive))
            && (if k >= 4 then Holds(files, manifest, None) else SameAt(files, initial, manifest))
            && forall path :: path !in {hooksFile, configFile, archive, manifest} ==> SameAt(files, initial, path)
  {
    var journal := UninstallJournal(paths, initial, hooks, config, archive);
    UninstallJournalIsValid(paths, initial, hooks, config, archive);
    ValidJournalHasDistinctPaths(paths, journal);
    PrefixValue(initial, journal.targets, k, 0);
    PrefixValue(initial, journal.targets, k, 1);
    PrefixValue(initial, journal.targets, k, 2);
    PrefixValue(initial, journal.targets, k, 3);
    OtherPathsStay(initial, journal.targets, k);
  }

  /** An install brings the hooks first, then the configuration, then the manifest; nothing else is touched. */
  lemma InstallWritesInOrder(paths: SetupPaths, initial: Files, hooks: Bytes, config: Bytes, manifest: Bytes, k: nat)
    requires PlainFiles(initial) && k <= 3
    ensures var files := ApplyAll(initial, InstallJournal(paths, initial, hooks, config, manifest).targets[..k]);
            var hooksFile := Path(paths.codexHome, "hooks.json"); var configFile := Path(paths.codexHome, "config.toml");
            var manifestFile := Path(paths.dataDir, "setup-manifest.json");
            && (if k >= 1 then Holds(files, hooksFile, Some(hooks)) else SameAt(files, initial, hooksFile))
            && (if k >= 2 then Holds(files, configFile, Some(config)) else SameAt(files, initial, configFile))
            && (if k >= 3 then Holds(files, manifestFile, Some(manifest)) else SameAt(files, initial, manifestFile))
            && forall path :: path !in {hooksFile, configFile, manifestFile} ==> SameAt(files, initial, path)
  {
    var journal := InstallJournal(paths, initial, hooks, config, manifest);
    InstallJournalIsValid(paths, initial, hooks, config, manifest);
    ValidJournalHasDistinctPaths(paths, journal);
    PrefixValue(initial, journal.targets, k, 0);
    PrefixValue(initial, journal.targets, k, 1);
    PrefixValue(initial, journal.targets, k, 2);
    OtherPathsStay(initial, journal.targets, k);
  }

  /** Some crash or recovery left the disk like this. */
  ghost predicate MayBeLeft(paths: SetupPaths, initial: Files, journal: Journal, files: Files) {
    files == initial || files == Final(paths, initial, journal) || InProgress(paths, initial, journal, files)
  }

  /**
   Wherever an uninstall and its recoveries stop, hooks.json is as before or holds exactly the restored hooks, and
   config.toml is as before or holds exactly the restored configuration.
   */
  lemma UninstallLeavesOldOrNew(paths: SetupPaths, initial: Files, hooks: Option<Bytes>, config: Option<Bytes>,
                                archive: Path, files: Files)
    requires PlainFiles(initial) && paths.ManifestPath() in initial && paths.JournalPath() !in initial
    requires paths.IsArchive(archive) && archive !in initial
    requires MayBeLeft(paths, initial, UninstallJournal(paths, initial, hooks, config, archive), files)
    ensures IsOldOrNew(files, initial, Path(paths.codexHome, "hooks.json"), hooks)
    ensures IsOldOrNew(files, initial, Path(paths.codexHome, "config.toml"), config)
  {
    var journal := UninstallJournal(paths, initial, hooks, config, archive);
    JournalIsNoIntegrationFile(paths);
    assert journal.targets[..4] == journal.targets;
    if files != initial {
      var k := 4;
      if files != Final(paths, initial, journal) {
        var stop :| 0 <= stop <= 4 && files == ApplyAll(initial, journal.targets[..stop])[paths.JournalPath() := Record(journal)];
        k := stop;
      }
      UninstallWritesInOrder(paths, initial, hooks, config, archive, k);
    }
  }

  lemma InstallLeavesOldOrNew(paths: SetupPaths, initial: Files, hooks: Bytes, config: Bytes, manifest: Bytes, files: Files)
    requires PlainFiles(initial) && paths.JournalPath() !in initial
    requires MayBeLeft(paths, initial, InstallJournal(paths, initial, hooks, config, manifest), files)
    ensures IsOldOrNew(files, initial, Path(paths.codexHome, "hooks.json"), Some(hooks))
    ensures IsOldOrNew(files, initial, Path(paths.codexHome, "config.toml"), Some(config))
  {
    var journal := InstallJournal(paths, initial, hooks, config, manifest);
    JournalIsNoIntegrationFile(paths);
    assert journal.targets[..3] == journal.targets;
    if files != initial {
      var k := 3;
      if files != Final(paths, initial, journal) {
        var stop :| 0 <= stop <= 3 && files == ApplyAll(initial, journal.targets[..stop])[paths.JournalPath() := Record(journal)];
        k := stop;
      }
      InstallWritesInOrder(paths, initial, hooks, config, manifest, k);
    }
  }

  lemma JournalIsNoIntegrationFile(paths: SetupPaths)
    ensures paths.JournalPath() != Path(paths.codexHome, "hooks.json")
    ensures paths.JournalPath() != Path(paths.codexHome, "config.toml")
    ensures paths.JournalPath() != Path(paths.dataDir, "setup-manifest.json")
    ensures !paths.IsArchive(paths.JournalPath())
  {
    assert paths.JournalPath().name[0] == 's' && paths.JournalPath().name[6] == 'r';
    assert "hooks.json"[0] == 'h' && "config.toml"[0] == 'c' && "setup-manifest.json"[6] == 'm' && ARCHIVE_PREFIX[6] == 'm';
  }

  /**
   A finished uninstall leaves hooks.json and config.toml as desired, the manifest's bytes in the archive, no
   manifest and no journal.
   */
  lemma UninstallEnds(paths: SetupPaths, initial: Files, hooks: Option<Bytes>, config: Option<Bytes>, archive: Path)
    requires PlainFiles(initial) && paths.ManifestPath() in initial && paths.JournalPath() !in initial
    requires paths.IsArchive(archive) && archive !in initial
    ensures var files := Final(paths, initial, UninstallJournal(paths, initial, hooks, config, archive));
            var manifest := Path(paths.dataDir, "setup-manifest.json");
            && Holds(files, Path(paths.codexHome, "hooks.json"), hooks)
            && Holds(files, Path(paths.codexHome, "config.toml"), config)
            && Holds(files, archive, Some(initial[manifest].bytes))
            && manifest !in files && Path(paths.dataDir, "setup-recovery-journal.json") !in files
  {
    var journal := UninstallJournal(paths, initial, hooks, config, archive);
    JournalIsNoIntegrationFile(paths);
    assert journal.targets[..4] == journal.targets;
    UninstallWritesInOrder(paths, initial, hooks, config, archive, 4);
  }

  lemma InstallEnds(paths: SetupPaths, initial: Files, hooks: Bytes, config: Bytes, manifest: Bytes)
    requires PlainFiles(initial) && paths.JournalPath() !in initial
    ensures var files := Final(paths, initial, InstallJournal(paths, initial, hooks, config, manifest));
            && Holds(files, Path(paths.codexHome, "hooks.json"), Some(hooks))
            && Holds(files, Path(paths.codexHome, "config.toml"), Some(config))
            && Holds(files, Path(paths.dataDir, "setup-manifest.json"), Some(manifest))
            && Path(paths.dataDir, "setup-recovery-journal.json") !in files
  {
    var journal := InstallJournal(paths, initial, hooks, config, manifest);
    JournalIsNoIntegrationFile(paths);
    assert journal.targets[..3] == journal.targets;
    InstallWritesInOrder(paths, initial, hooks, config, manifest, 3);
  }

  // ---------------------------------------------------------------- which journals are accepted

  predicate HasPath(targets: seq<Target>, path: Path) {
    exists i :: 0 <= i < |targets| && targets[i].path == path
  }

  predicate HasArchive(paths: SetupPaths, targets: seq<Target>) {
    exists i :: 0 <= i < |targets| && paths.IsArchive(targets[i].path)
  }

  predicate HasAllThree(paths: SetupPaths, targets: seq<Target>) {
    && HasPath(targets, Path(paths.codexHome, "hooks.json")) && HasPath(targets, Path(paths.codexHome, "config.toml"))
    && HasPath(targets, Path(paths.dataDir, "setup-manifest.json"))
  }

  /** Both recorded digests of a target are those of its bytes, and there is none where there are no bytes. */
  predicate IsDigested(t: Target) {
    && (t.originalExisted ==> t.originalHash == Some(Digest(t.originalBytes)))
    && (!t.originalExisted ==> t.originalHash == None && t.originalBytes == [])
    && (t.desired.Some? ==> t.desiredHash == Some(Digest(t.desired.value)))
    && (t.desired.None? ==> t.desiredHash == None)
  }

  predicate IsOurs(journal: Journal) {
    journal.version == 1 && journal.managedId == "previously-on-v1" && forall t :: t in journal.targets ==> IsDigested(t)
  }

  lemma {:induction false} CountIsPositiveIff(targets: seq<Target>, p: Target -> bool)
    ensures Count(targets, p) >= 1 <==> exists i :: 0 <= i < |targets| && p(targets[i])
    decreases |targets|
  {
    if targets != [] {
      CountIsPositiveIff(targets[1..], p);
      if i :| 0 <= i < |targets| && p(targets[i]) {
        OneWitnessCounts(targets, p, i);
      }
      if i :| 0 <= i < |targets[1..]| && p(targets[1..][i]) {
        assert p(targets[i + 1]);
      }
    }
  }

  /** An install journal is accepted exactly when it writes the two integration files and the manifest, and only them. */
  lemma InstallAcceptedIff(paths: SetupPaths, journal: Journal)
    requires journal.operation == Install
    ensures IsValidJournal(paths, journal) <==>
            IsOurs(journal) && |journal.targets| == 3 && HasAllThree(paths, journal.targets)
            && forall t :: t in journal.targets ==> t.desired.Some?
  {
    var ts := journal.targets;
    CountIsPositiveIff(ts, (t: Target) => t.path == paths.HooksPath());
    CountIsPositiveIff(ts, (t: Target) => t.path == paths.ConfigPath());
    CountIsPositiveIff(ts, (t: Target) => t.path == paths.ManifestPath());
    PathsDiffer(paths);
    if |ts| == 3 {
      assert ts == [ts[0], ts[1], ts[2]];
      CountOfThree(ts[0], ts[1], ts[2], (t: Target) => t.path == paths.HooksPath());
      CountOfThree(ts[0], ts[1], ts[2], (t: Target) => t.path == paths.ConfigPath());
      CountOfThree(ts[0], ts[1], ts[2], (t: Target) => t.path == paths.ManifestPath());
    }
  }

  function Class(paths: SetupPaths, t: Target): nat {
    if t.path == paths.HooksPath() then 0
    else if t.path == paths.ConfigPath() then 1
    else if t.path == paths.ManifestPath() then 2
    else if paths.IsArchive(t.path) then 3
    else 4
  }

  predicate OneEach(a: nat, b: nat, c: nat, d: nat) {
    a < 4 && b < 4 && c < 4 && d < 4 && a != b && a != c && a != d && b != c && b != d && c != d
  }

  function Is(class_: nat, k: nat): nat {
    if class_ == k then 1 else 0
  }

  lemma OneEachIffCountedOnce(a: nat, b: nat, c: nat, d: nat)
    ensures OneEach(a, b, c, d) <==> forall k: nat :: k < 4 ==> Is(a, k) + Is(b, k) + Is(c, k) + Is(d, k) == 1
  {
    if forall k: nat :: k < 4 ==> Is(a, k) + Is(b, k) + Is(c, k) + Is(d, k) == 1 {
      assert Is(a, 0) + Is(b, 0) + Is(c, 0) + Is(d, 0) == 1;
      assert Is(a, 1) + Is(b, 1) + Is(c, 1) + Is(d, 1) == 1;
      assert Is(a, 2) + Is(b, 2) + Is(c, 2) + Is(d, 2) == 1;
      assert Is(a, 3) + Is(b, 3) + Is(c, 3) + Is(d, 3) == 1;
    }
  }

  lemma ClassIs(paths: SetupPaths, t: Target)
    ensures t.path == paths.HooksPath() <==> Class(paths, t) == 0
    ensures t.path == paths.ConfigPath() <==> Class(paths, t) == 1
    ensures t.path == paths.ManifestPath() <==> Class(paths, t) == 2
    ensures paths.IsArchive(t.path) <==> Class(paths, t) == 3
  {
    PathsDiffer(paths);
  }

  /** The path classes of four targets. */
  predicate AreClasses(paths: SetupPaths, ts: seq<Target>, a: nat, b: nat, c: nat, d: nat) {
    |ts| == 4 && Class(paths, ts[0]) == a && Class(paths, ts[1]) == b && Class(paths, ts[2]) == c && Class(paths, ts[3]) == d
  }

  lemma CountOfClass(paths: SetupPaths, ts: seq<Target>, a: nat, b: nat, c: nat, d: nat, p: Target -> bool, k: nat)
    requires AreClasses(paths, ts, a, b, c, d) && forall t :: p(t) <==> Class(paths, t) == k
    ensures Count(ts, p) == Is(a, k) + Is(b, k) + Is(c, k) + Is(d, k)
  {
    assert ts == [ts[0], ts[1], ts[2], ts[3]];
    CountOfFour(ts[0], ts[1], ts[2], ts[3], p);
  }

  predicate AreCountedOnce(paths: SetupPaths, ts: seq<Target>) {
    CountPath(ts, paths.HooksPath()) == 1 && CountPath(ts, paths.ConfigPath()) == 1
    && CountPath(ts, paths.ManifestPath()) == 1 && Count(ts, (t: Target) => paths.IsArchive(t.path)) == 1
  }

  lemma CountedOnceIff(paths: SetupPaths, ts: seq<Target>, a: nat, b: nat, c: nat, d: nat)
    requires AreClasses(paths, ts, a, b, c, d)
    ensures AreCountedOnce(paths, ts) <==> OneEach(a, b, c, d)
  {
    forall t {
      ClassIs(paths, t);
    }
    CountOfClass(paths, ts, a, b, c, d, (t: Target) => t.path == paths.HooksPath(), 0);
    CountOfClass(paths, ts, a, b, c, d, (t: Target) => t.path == paths.ConfigPath(), 1);
    CountOfClass(paths, ts, a, b, c, d, (t: Target) => t.path == paths.ManifestPath(), 2);
    CountOfClass(paths, ts, a, b, c, d, (t: Target) => paths.IsArchive(t.path), 3);
    OneEachIffCountedOnce(a, b, c, d);
  }

  lemma HasClassIff(paths: SetupPaths, ts: seq<Target>, a: nat, b: nat, c: nat, d: nat, p: Target -> bool, k: nat)
    requires AreClasses(paths, ts, a, b, c, d) && forall t :: p(t) <==> Class(paths, t) == k
    ensures (exists i :: 0 <= i < |ts| && p(ts[i])) <==> k in {a, b, c, d}
  {
    if k in {a, b, c, d} {
      var i :| 0 <= i < 4 && Class(paths, ts[i]) == k;
      assert p(ts[i]);
    }
  }

  lemma AllFourIff(a: nat, b: nat, c: nat, d: nat)
    ensures OneEach(a, b, c, d) <==> 0 in {a, b, c, d} && 1 in {a, b, c, d} && 2 in {a, b, c, d} && 3 in {a, b, c, d}
  {
  }

  lemma HasEachIff(paths: SetupPaths, ts: seq<Target>, a: nat, b: nat, c: nat, d: nat)
    requires AreClasses(paths, ts, a, b, c, d)
    ensures HasPath(ts, paths.HooksPath()) <==> 0 in {a, b, c, d}
    ensures HasPath(ts, paths.ConfigPath()) <==> 1 in {a, b, c, d}
    ensures HasPath(ts, paths.ManifestPath()) <==> 2 in {a, b, c, d}
    ensures HasArchive(paths, ts) <==> 3 in {a, b, c, d}
  {
    forall t {
      ClassIs(paths, t);
    }
    HasClassIff(paths, ts, a, b, c, d, (t: Target) => t.path == paths.HooksPath(), 0);
    HasClassIff(paths, ts, a, b, c, d, (t: Target) => t.path == paths.ConfigPath(), 1);
    HasClassIff(paths, ts, a, b, c, d, (t: Target) => t.path == paths.ManifestPath(), 2);
    HasClassIff(paths, ts, a, b, c, d, (t: Target) => paths.IsArchive(t.path), 3);
  }

  /** A path of the exact allowlist. */
  predicate IsAllowed(paths: SetupPaths, t: Target) {
    t.path in {paths.HooksPath(), paths.ConfigPath(), paths.ManifestPath()} || paths.IsArchive(t.path)
  }

  lemma OneEachIsAllowed(paths: SetupPaths, ts: seq<Target>, a: nat, b: nat, c: nat, d: nat)
    requires AreClasses(paths, ts, a, b, c, d) && OneEach(a, b, c, d)
    ensures forall t :: t in ts ==> IsAllowed(paths, t)
  {
    forall t | t in ts
      ensures IsAllowed(paths, t)
    {
      ClassIs(paths, t);
    }
  }

  /** Four targets that are counted once each are all of the allowed paths. */
  lemma AllowedIff(paths: SetupPaths, ts: seq<Target>)
    requires |ts| == 4
    ensures AreCountedOnce(paths, ts) <==> HasAllThree(paths, ts) && HasArchive(paths, ts)
    ensures AreCountedOnce(paths, ts) ==> forall t :: t in ts ==> IsAllowed(paths, t)
  {
    var a, b, c, d := Class(paths, ts[0]), Class(paths, ts[1]), Class(paths, ts[2]), Class(paths, ts[3]);
    CountedOnceIff(paths, ts, a, b, c, d);
    HasEachIff(paths, ts, a, b, c, d);
    AllFourIff(a, b, c, d);
    if OneEach(a, b, c, d) {
      OneEachIsAllowed(paths, ts, a, b, c, d);
    }
  }

  /**
   An uninstall journal is accepted exactly when it has the same three paths and an archive that did not exist, keeps
   the archive and removes the manifest.
   */
  lemma UninstallAcceptedIff(paths: SetupPaths, journal: Journal)
    requires journal.operation == Uninstall
    ensures IsValidJournal(paths, journal) <==>
            && IsOurs(journal) && |journal.targets| == 4
            && HasAllThree(paths, journal.targets) && HasArchive(paths, journal.targets)
            && (forall t :: t in journal.targets && t.path == Path(paths.dataDir, "setup-manifest.json") ==> t.desired.None?)
            && (forall t :: t in journal.targets && paths.IsArchive(t.path) ==> t.desired.Some? && !t.originalExisted)
  {
    if |journal.targets| == 4 {
      AllowedIff(paths, journal.targets);
    }
  }
}
