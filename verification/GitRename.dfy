/**
 A commit of exactly what a checkpoint fingerprinted that changes the verdict of `revalidate_task`:
 Git folds a new file of the task and a deleted file outside it into one rename.
 */
module GitRename {
  import opened GitChanges
  import opened GitPaths
  import opened GitRevalidation
  import opened Wrappers

  lemma PlainName(p: string, sensitive: Sensitive)
    requires |p| == 1 && 'a' <= p[0] <= 'z' && !sensitive(p)
    ensures ValidatePath(p, sensitive) == Some(p) && NormalizePath(p) == p
  {
    SplitWithoutSlash(p);
    assert ForwardSlashes(p) == p;
    ValidatedPathIsNormalIffTrimmed(p, sensitive);
  }

  /** A checkpoint with a new file `p` of the task and a deleted file `q` that is not one of its files. */
  function AtRename(hash: string): Repository {
    Repository("r", Some("1"), [Change("p", None, Added), Change("q", None, Deleted)], true, true, [],
               path => if path == "p" then Found(Sha256(hash)) else Found(Missing))
  }

  /** Both committed, and Git lists them as one rename. */
  function AfterRename(hash: string): Repository {
    AtRename(hash).(head := Some("2"), working := [], committed := [Change("p", Some("q"), Renamed)])
  }

  const TASK_FILES := [Change("p", None, Added)]
  const DIRTY_PATHS := ["p", "q"]

  function AtRenameBaseline(hash: string): Baseline {
    Baseline("r", Some("1"), map["p" := Some(hash), "q" := None])
  }

  lemma RenamePaths(sensitive: Sensitive)
    requires !sensitive("p") && !sensitive("q")
    ensures Checked(TASK_FILES, sensitive) == {"p"}
    ensures FingerprintedPaths(DIRTY_PATHS, sensitive) == {"p", "q"}
  {
    PlainName("p", sensitive);
    PlainName("q", sensitive);
    assert TASK_FILES[0] in TASK_FILES;
    assert DIRTY_PATHS[0] in DIRTY_PATHS && DIRTY_PATHS[1] in DIRTY_PATHS;
  }

  lemma RenameRecorded(hash: string, sensitive: Sensitive)
    requires !sensitive("p") && !sensitive("q")
    ensures forall k :: k in DIRTY_PATHS <==> k in AtRenameBaseline(hash).fingerprints
    ensures Recorded(DIRTY_PATHS, AtRenameBaseline(hash).fingerprints, {"p"}, sensitive) == map["p" := Sha256(hash)]
  {
    PlainName("p", sensitive);
    PlainName("q", sensitive);
    assert DIRTY_PATHS[0] == "p" && DIRTY_PATHS[1] == "q";
    forall p
      ensures p in Recorded(DIRTY_PATHS, AtRenameBaseline(hash).fingerprints, {"p"}, sensitive) <==> p == "p"
    {
      RecordedAre(DIRTY_PATHS, AtRenameBaseline(hash).fingerprints, {"p"}, sensitive, p);
    }
    RecordedAre(DIRTY_PATHS, AtRenameBaseline(hash).fingerprints, {"p"}, sensitive, "p");
  }

  lemma RenameIsCommit(hash: string)
    requires NormalizePath("p") == "p" && NormalizePath("q") == "q"
    ensures IsCommitOf(AtRename(hash), AfterRename(hash), {"p", "q"})
  {
  }

  lemma RenameMovesNothingBefore(hash: string)
    requires NormalizePath("p") == "p" && NormalizePath("q") == "q"
    ensures NothingMoved(AtRename(hash), TASK_FILES, map["p" := Sha256(hash)], {"p"})
  {
  }

  lemma RenameLeavesChecked(hash: string)
    requires NormalizePath("p") == "p" && NormalizePath("q") == "q"
    ensures !CommittedStaysChecked(AfterRename(hash), {"p"})
  {
    var renamed := Change("p", Some("q"), Renamed);
    assert renamed in AfterRename(hash).committed && TouchesAny(renamed, {"p"});
    assert !NamesOnly(renamed, {"p"});
  }

  lemma RenameReportsRename(hash: string, related: map<Key, Change>)
    requires NormalizePath("p") == "p" && NormalizePath("q") == "q"
    requires Reports(AfterRename(hash), map["p" := Sha256(hash)], {"p"}, related)
    ensures forall k :: k in related ==> related[k] == Change("p", Some("q"), Renamed)
  {
  }

  lemma RenameIsUnrestored(hash: string)
    requires NormalizePath("p") == "p" && NormalizePath("q") == "q"
    ensures Unrestored([Change("p", Some("q"), Renamed)], {"p"}, map["p" := Sha256(hash)], AfterRename(hash).content)
         == [Change("p", Some("q"), Renamed)]
  {
    var renamed := Change("p", Some("q"), Renamed);
    assert IsUnrestored(renamed, {"p"}, map["p" := Sha256(hash)], AfterRename(hash).content);
    assert [renamed][..0] == [];
  }

  lemma RenameMovesNowhere()
    requires NormalizePath("p") == "p" && NormalizePath("q") == "q"
    ensures Moved([Change("p", Some("q"), Renamed)], {"p"}) == {"p"}
  {
    assert [Change("p", Some("q"), Renamed)][..0] == [];
  }

  lemma RenameMovedPaths(hash: string)
    requires NormalizePath("p") == "p" && NormalizePath("q") == "q"
    ensures MovedPaths(AfterRename(hash), map["p" := Sha256(hash)], {"p"}) == {"p"}
  {
    RenameIsUnrestored(hash);
    RenameMovesNowhere();
    assert AfterRename(hash).committed + AfterRename(hash).working == [Change("p", Some("q"), Renamed)];
  }

  lemma RenameIsNotLost(hash: string, related: map<Key, Change>)
    requires NormalizePath("p") == "p" && NormalizePath("q") == "q"
    requires Reports(AfterRename(hash), map["p" := Sha256(hash)], {"p"}, related)
    ensures !IsLost(AfterRename(hash), TASK_FILES, map["p" := Sha256(hash)], {"p"}, related, {"p"})
  {
    RenameReportsRename(hash, related);
  }

  /** The only dirty paths are the two. */
  lemma RenameDirtyPaths(hash: string, sensitive: Sensitive, p: string)
    requires ValidatePath("p", sensitive) == Some("p") && ValidatePath("q", sensitive) == Some("q")
    ensures IsDirty(AtRename(hash).working, sensitive, p) ==> p == "p" || p == "q"
  {
  }

  lemma RenameIsCheckpoint(hash: string, sensitive: Sensitive)
    requires !sensitive("p") && !sensitive("q")
    ensures IsCheckpointOf(AtRenameBaseline(hash), AtRename(hash), sensitive)
  {
    PlainName("p", sensitive);
    PlainName("q", sensitive);
    RenameFingerprints(hash);
    forall p | IsDirty(AtRename(hash).working, sensitive, p)
      ensures p in AtRenameBaseline(hash).fingerprints
    {
      RenameDirtyPaths(hash, sensitive, p);
    }
  }

  lemma RenameFingerprints(hash: string)
    ensures forall p :: p in AtRenameBaseline(hash).fingerprints <==> p == "p" || p == "q"
    ensures AtRenameBaseline(hash).fingerprints["p"] == Some(hash) && AtRenameBaseline(hash).fingerprints["q"] == None
    ensures AtRename(hash).content("p") == Found(Sha256(hash)) && AtRename(hash).content("q") == Found(Missing)
  {
    assert "p"[0] != "q"[0];
  }

  /** The two states are a checkpoint and a commit of exactly what it fingerprinted. */
  lemma RenameIsCommitOfCheckpoint(hash: string, sensitive: Sensitive)
    requires !sensitive("p") && !sensitive("q")
    ensures IsCheckpointOf(AtRenameBaseline(hash), AtRename(hash), sensitive)
    ensures IsCommitOf(AtRename(hash), AfterRename(hash), FingerprintedPaths(DIRTY_PATHS, sensitive))
  {
    PlainName("p", sensitive);
    PlainName("q", sensitive);
    RenamePaths(sensitive);
    RenameIsCommit(hash);
    RenameIsCheckpoint(hash, sensitive);
  }

  lemma RenameMovesAfter(hash: string)
    requires NormalizePath("p") == "p" && NormalizePath("q") == "q"
    ensures !NothingMoved(AfterRename(hash), TASK_FILES, map["p" := Sha256(hash)], {"p"})
  {
    RenameMovesNothingBefore(hash);
    RenameIsCommit(hash);
    RenameLeavesChecked(hash);
    CommitMovesNothingIff(AtRename(hash), AfterRename(hash), TASK_FILES, map["p" := Sha256(hash)], {"p"}, {"p", "q"});
  }

  lemma RenameVerdicts(hash: string, atCommit: bool, status: Temporal, related: map<Key, Change>, moved: set<string>)
    requires NormalizePath("p") == "p" && NormalizePath("q") == "q"
    requires Justified(if atCommit then AfterRename(hash) else AtRename(hash), TASK_FILES, map["p" := Sha256(hash)], {"p"},
                       status, related, moved)
    ensures status == if atCommit then Changed else Unchanged
  {
    if atCommit {
      RenameMovesAfter(hash);
      RenameMovedPaths(hash);
      RenameIsNotLost(hash, related);
    } else {
      RenameMovesNothingBefore(hash);
    }
  }

  lemma RenameIsComparable(hash: string, sensitive: Sensitive)
    requires !sensitive("p") && !sensitive("q")
    ensures Comparable(Some(AtRenameBaseline(hash)), AtRename(hash), TASK_FILES, sensitive)
    ensures Comparable(Some(AtRenameBaseline(hash)), AfterRename(hash), TASK_FILES, sensitive)
  {
    RenamePaths(sensitive);
    assert "p" in Checked(TASK_FILES, sensitive);
    assert IsChecked(TASK_FILES, sensitive, "p");
  }

  method RevalidateRename(hash: string, sensitive: Sensitive, atCommit: bool) returns (r: Outcome)
    requires !sensitive("p") && !sensitive("q")
    ensures r.Verdict? && r.status == if atCommit then Changed else Unchanged
  {
    var repo := if atCommit then AfterRename(hash) else AtRename(hash);
    RenameRecorded(hash, sensitive);
    r := RevalidateTask(repo, Some(AtRenameBaseline(hash)), TASK_FILES, DIRTY_PATHS, sensitive);
    RenamePaths(sensitive);
    RenameIsComparable(hash, sensitive);
    assert repo.content("p").Found?;
    PlainName("p", sensitive);
    PlainName("q", sensitive);
    RenameVerdicts(hash, atCommit, r.status, r.related, r.checked);
  }

  /** And yet it changes the verdict, because Git folds it into a rename that leaves the checked paths. */
  method RenameChangesVerdict(hash: string, sensitive: Sensitive) returns (first: Outcome, second: Outcome)
    requires !sensitive("p") && !sensitive("q")
    ensures first.Verdict? && first.status == Unchanged && second.Verdict? && second.status == Changed
  {
    first := RevalidateRename(hash, sensitive, false);
    second := RevalidateRename(hash, sensitive, true);
  }
}
