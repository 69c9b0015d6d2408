/**
 The bytes hashed into a related-content fingerprint by `src/contracts.rs`, computed from
 the live worktree and from a stored snapshot. Hashing itself is an abstract function with
 a fixed-width result.
 */
module Fingerprint {
  import opened ByteStrings
  import Lexicographic
  import opened Wrappers

  datatype Result<+T> = Ok(value: T) | Err(path: Bytes)

  /** `Content` holds the hex text of a content hash. */
  datatype State = Missing | Content(hex: Bytes)

  datatype Entry = Entry(path: Bytes, state: State)

  const HEX_LENGTH := 64
  const FILE: Bytes := [102, 105, 108, 101, 0]
  const SYMLINK: Bytes := [115, 121, 109, 108, 105, 110, 107, 0]
  const SHA256: Bytes := [115, 104, 97, 50, 53, 54, 0]
  const MISSING: Bytes := [109, 105, 115, 115, 105, 110, 103, 0]

  // ---------------------------------------------------------------- the hashed stream

  function EncodeState(state: State): Bytes {
    match state
    case Missing => MISSING
    case Content(hex) => SHA256 + hex
  }

  function EncodeEntry(e: Entry): Bytes {
    e.path + [0] + EncodeState(e.state)
  }

  function Concat(parts: seq<Bytes>): Bytes {
    if parts == [] then [] else parts[0] + Concat(parts[1..])
  }

  function Parts(entries: seq<Entry>): seq<Bytes> {
    seq(|entries|, i requires 0 <= i < |entries| => EncodeEntry(entries[i]))
  }

  function Encode(entries: seq<Entry>): Bytes {
    Concat(Parts(entries))
  }

  /** Paths hold no NUL, as the path validation guarantees, and hashes have their full width. */
  ghost predicate WellFormed(e: Entry) {
    0 !in e.path && (e.state.Content? ==> |e.state.hex| == HEX_LENGTH)
  }

  ghost predicate AllWellFormed(entries: seq<Entry>) {
    forall i :: 0 <= i < |entries| ==> WellFormed(entries[i])
  }

  lemma {:induction false} ConcatSnoc(parts: seq<Bytes>, last: Bytes)
    ensures Concat(parts + [last]) == Concat(parts) + last
  {
    if parts == [] {
      assert parts + [last] == [last];
      assert Concat([last]) == last + [];
    } else {
      assert (parts + [last])[1..] == parts[1..] + [last];
      ConcatSnoc(parts[1..], last);
    }
  }

  lemma EncodeSnoc(entries: seq<Entry>, e: Entry)
    ensures Encode(entries + [e]) == Encode(entries) + EncodeEntry(e)
  {
    assert Parts(entries + [e]) == Parts(entries) + [EncodeEntry(e)];
    ConcatSnoc(Parts(entries), EncodeEntry(e));
  }

  lemma EncodeSplit(entries: seq<Entry>)
    requires entries != []
    ensures Encode(entries) == EncodeEntry(entries[0]) + Encode(entries[1..])
  {
    assert Parts(entries)[1..] == Parts(entries[1..]);
  }

  /** The first NUL of a stream ends its first path. */
  lemma FirstPathIsDetermined(p: Bytes, q: Bytes, x: Bytes, y: Bytes)
    requires 0 !in p && 0 !in q
    requires p + [0] + x == q + [0] + y
    ensures p == q && x == y
  {
    var s := p + [0] + x;
    assert s[|p|] == 0 && s[|q|] == 0;
    assert forall i :: 0 <= i < |p| ==> s[i] == p[i] && s[i] != 0;
    assert forall i :: 0 <= i < |q| ==> s[i] == q[i] && s[i] != 0;
    assert |p| == |q|;
    assert p == s[..|p|] && q == s[..|q|];
    assert x == s[|p| + 1..] && y == s[|q| + 1..];
  }

  lemma FirstStateIsDetermined(a: State, b: State, x: Bytes, y: Bytes)
    requires a.Content? ==> |a.hex| == HEX_LENGTH
    requires b.Content? ==> |b.hex| == HEX_LENGTH
    requires EncodeState(a) + x == EncodeState(b) + y
    ensures a == b && x == y
  {
    var s, t := EncodeState(a) + x, EncodeState(b) + y;
    assert s[0] == EncodeState(a)[0] && t[0] == EncodeState(b)[0];
    assert |EncodeState(a)| == |EncodeState(b)|;
    assert EncodeState(a) == s[..|EncodeState(a)|] && EncodeState(b) == t[..|EncodeState(b)|];
    assert x == s[|EncodeState(a)|..] && y == t[|EncodeState(b)|..];
    if a.Content? {
      assert a.hex == EncodeState(a)[|SHA256|..] && b.hex == EncodeState(b)[|SHA256|..];
    }
  }

  lemma FirstEntryIsDetermined(e: Entry, f: Entry, x: Bytes, y: Bytes)
    requires WellFormed(e) && WellFormed(f)
    requires EncodeEntry(e) + x == EncodeEntry(f) + y
    ensures e == f && x == y
  {
    assert EncodeEntry(e) + x == e.path + [0] + (EncodeState(e.state) + x);
    assert EncodeEntry(f) + y == f.path + [0] + (EncodeState(f.state) + y);
    FirstPathIsDetermined(e.path, f.path, EncodeState(e.state) + x, EncodeState(f.state) + y);
    FirstStateIsDetermined(e.state, f.state, x, y);
  }

  lemma EncodeIsNotEmpty(entries: seq<Entry>)
    requires entries != []
    ensures Encode(entries) != []
  {
    EncodeSplit(entries);
    assert |EncodeEntry(entries[0])| > 0;
  }

  /** The stream is uniquely decodable: it determines every path and every state, in order. */
  lemma {:induction false} EncodeIsInjective(a: seq<Entry>, b: seq<Entry>)
    requires AllWellFormed(a) && AllWellFormed(b)
    requires Encode(a) == Encode(b)
    ensures a == b
    decreases |a|
  {
    if a == [] {
      if b != [] {
        EncodeIsNotEmpty(b);
      }
    } else if b == [] {
      EncodeIsNotEmpty(a);
    } else {
      EncodeSplit(a);
      EncodeSplit(b);
      FirstEntryIsDetermined(a[0], b[0], Encode(a[1..]), Encode(b[1..]));
      EncodeIsInjective(a[1..], b[1..]);
      assert a == [a[0]] + a[1..] && b == [b[0]] + b[1..];
    }
  }

  /** Without the fixed hash width the stream is ambiguous: a longer state swallows the next entry. */
  lemma VariableWidthIsAmbiguous(p: Bytes, q: Bytes, hex: Bytes)
    ensures var long := [Entry(p, Content(hex + q + [0] + MISSING))];
            var two := [Entry(p, Content(hex)), Entry(q, Missing)];
            long != two && Encode(long) == Encode(two)
  {
    var first, second := Entry(p, Content(hex)), Entry(q, Missing);
    var long := Entry(p, Content(hex + q + [0] + MISSING));
    EncodeSnoc([], long);
    EncodeSnoc([], first);
    EncodeSnoc([first], second);
    assert [] + [long] == [long] && [] + [first] == [first] && [first] + [second] == [first, second];
    assert EncodeEntry(long) == EncodeEntry(first) + EncodeEntry(second);
  }

  // ---------------------------------------------------------------- sorted walks

  function Paths(entries: seq<Entry>): seq<Bytes> {
    seq(|entries|, i requires 0 <= i < |entries| => entries[i].path)
  }

  function Rank(b: Byte): int {
    b as int
  }

  function EntrySet(entries: seq<Entry>): set<Entry> {
    set e | e in entries
  }

  ghost predicate Ordered(entries: seq<Entry>) {
    Lexicographic.Increasing(Paths(entries), Rank)
  }

  lemma OrderedPathsDiffer(entries: seq<Entry>, i: nat, j: nat)
    requires Ordered(entries) && i < |entries| && j < |entries|
    requires entries[i].path == entries[j].path
    ensures i == j
  {
    if i != j {
      var (low, high) := if i < j then (i, j) else (j, i);
      assert Lexicographic.Less(Paths(entries)[low], Paths(entries)[high], Rank);
      Lexicographic.LessIsIrreflexive(entries[i].path, Rank);
    }
  }

  /** Two sorted walks hash equal streams exactly when they saw the same states on the same paths. */
  lemma EqualStreamsIffEqualStates(a: seq<Entry>, b: seq<Entry>)
    requires Ordered(a) && Ordered(b) && AllWellFormed(a) && AllWellFormed(b)
    ensures Encode(a) == Encode(b) <==> EntrySet(a) == EntrySet(b)
  {
    if Encode(a) == Encode(b) {
      EncodeIsInjective(a, b);
    }
    if EntrySet(a) == EntrySet(b) {
      SameEntriesSameOrder(a, b);
    }
  }

  lemma PathsMembers(entries: seq<Entry>, p: Bytes)
    ensures p in Paths(entries) <==> exists e :: e in entries && e.path == p
  {
    if p in Paths(entries) {
      var i :| 0 <= i < |Paths(entries)| && Paths(entries)[i] == p;
      assert entries[i] in entries;
    }
    forall e | e in entries && e.path == p
      ensures p in Paths(entries)
    {
      var i :| 0 <= i < |entries| && entries[i] == e;
      assert Paths(entries)[i] == p;
    }
  }

  lemma SameEntriesSameOrder(a: seq<Entry>, b: seq<Entry>)
    requires Ordered(a) && Ordered(b)
    requires EntrySet(a) == EntrySet(b)
    ensures a == b
  {
    forall e
      ensures e in a <==> e in b
    {
      assert e in a <==> e in EntrySet(a);
      assert e in b <==> e in EntrySet(b);
    }
    forall p
      ensures p in Paths(a) <==> p in Paths(b)
    {
      PathsMembers(a, p);
      PathsMembers(b, p);
    }
    Lexicographic.IncreasingListingIsUnique(Paths(a), Paths(b), Rank);
    assert |a| == |Paths(a)| && |b| == |Paths(b)|;
    forall i | 0 <= i < |a|
      ensures a[i] == b[i]
    {
      assert a[i] in b;
      var j :| 0 <= j < |b| && b[j] == a[i];
      assert b[j].path == Paths(a)[i] == Paths(b)[i] == b[i].path;
      OrderedPathsDiffer(b, i, j);
    }
  }

  // ---------------------------------------------------------------- content hashes

  type Hash = Bytes -> Bytes

  /** What the filesystem shows at a path. `Refused` covers directories, oversized and unreadable files. */
  datatype File = Absent | Symlink(target: Bytes) | Regular(mode: Bytes, content: Bytes) | Refused

  function ContentPreimage(file: File): Bytes
    requires file.Symlink? || file.Regular?
  {
    match file
    case Symlink(target) => SYMLINK + target
    case Regular(mode, content) => FILE + mode + content
  }

  /** The content hash tells links from files, and files by mode and bytes. */
  lemma ContentPreimageIsInjective(f: File, g: File)
    requires f.Symlink? || f.Regular?
    requires g.Symlink? || g.Regular?
    requires f.Regular? ==> |f.mode| == 4
    requires g.Regular? ==> |g.mode| == 4
    requires ContentPreimage(f) == ContentPreimage(g)
    ensures f == g
  {
    var s, t := ContentPreimage(f), ContentPreimage(g);
    assert s[0] == (if f.Symlink? then SYMLINK[0] else FILE[0]);
    assert t[0] == (if g.Symlink? then SYMLINK[0] else FILE[0]);
    match f
    case Symlink(target) =>
      assert target == s[|SYMLINK|..] && g.target == t[|SYMLINK|..];
    case Regular(mode, content) =>
      assert mode == s[|FILE|..|FILE| + 4] && g.mode == t[|FILE|..|FILE| + 4];
      assert content == s[|FILE| + 4..] && g.content == t[|FILE| + 4..];
  }

  // ---------------------------------------------------------------- the two computations

  function LiveState(path: Bytes, file: File, hash: Hash): Result<State> {
    match file
    case Absent => Ok(Missing)
    case Refused => Err(path)
    case _ => Ok(Content(hash(ContentPreimage(file))))
  }

  /** `recorded` maps dirty paths to stored states; `tree` is the lookup in the snapshot's commit. */
  datatype Snapshot = Snapshot(recorded: map<Bytes, State>, dirty: set<Bytes>, hasHead: bool,
                               tree: Bytes -> Result<State>)

  function SnapshotState(path: Bytes, snapshot: Snapshot): Result<State> {
    if path in snapshot.recorded then Ok(snapshot.recorded[path])
    else if path in snapshot.dirty then Err(path)
    else if snapshot.hasHead then snapshot.tree(path)
    else Ok(Missing)
  }

  /** The entries of a walk over `paths`, or the first path whose state cannot be had. */
  ghost function Walk(paths: seq<Bytes>, stateOf: Bytes -> Result<State>): Result<seq<Entry>> {
    if paths == [] then Ok([])
    else
      var init := Walk(paths[..|paths| - 1], stateOf);
      var path := paths[|paths| - 1];
      if init.Err? then init
      else match stateOf(path)
        case Err(p) => Err(p)
        case Ok(state) => Ok(init.value + [Entry(path, state)])
  }

  ghost function WalkStream(paths: seq<Bytes>, stateOf: Bytes -> Result<State>): Result<Bytes> {
    match Walk(paths, stateOf)
    case Err(p) => Err(p)
    case Ok(entries) => Ok(Encode(entries))
  }

  lemma {:induction false} WalkStopsAtError(paths: seq<Bytes>, k: nat, stateOf: Bytes -> Result<State>)
    requires k <= |paths| && Walk(paths[..k], stateOf).Err?
    ensures Walk(paths, stateOf) == Walk(paths[..k], stateOf)
    decreases |paths|
  {
    if k == |paths| {
      assert paths[..k] == paths;
    } else {
      var init := paths[..|paths| - 1];
      assert init[..k] == paths[..k];
      WalkStopsAtError(init, k, stateOf);
    }
  }

  lemma WalkStep(paths: seq<Bytes>, k: nat, stateOf: Bytes -> Result<State>)
    requires k < |paths| && Walk(paths[..k], stateOf).Ok?
    ensures var found := stateOf(paths[k]);
            && (found.Err? ==> WalkStream(paths, stateOf) == Err(found.path))
            && (found.Ok? ==>
                  (Walk(paths[..k + 1], stateOf).Ok?
                   && WalkStream(paths[..k + 1], stateOf)
                      == Ok(WalkStream(paths[..k], stateOf).value + paths[k] + [0] + EncodeState(found.value))))
  {
    assert paths[..k + 1][..k] == paths[..k];
    var found := stateOf(paths[k]);
    if found.Err? {
      WalkStopsAtError(paths, k + 1, stateOf);
    } else {
      var e := Entry(paths[k], found.value);
      var init := Walk(paths[..k], stateOf).value;
      EncodeSnoc(init, e);
      assert Encode(init) + EncodeEntry(e) == Encode(init) + paths[k] + [0] + EncodeState(found.value);
    }
  }

  // ---------------------------------------------------------------- the relevant paths

  type Validate = Bytes -> Option<Bytes>

  /** A path put in its place in a sorted set. */
  function InsertPath(paths: seq<Bytes>, p: Bytes): (r: seq<Bytes>)
    ensures forall q :: q in r <==> q in paths || q == p
  {
    if paths == [] || Lexicographic.Less(p, paths[0], Rank) then [p] + paths
    else if p == paths[0] then paths
    else
      assert paths == [paths[0]] + paths[1..];
      [paths[0]] + InsertPath(paths[1..], p)
  }

  /** The sorted set of the paths that are valid. */
  function RelevantPaths(raw: seq<Bytes>, validate: Validate): seq<Bytes> {
    if raw == [] then []
    else
      var init := RelevantPaths(raw[..|raw| - 1], validate);
      var valid := validate(raw[|raw| - 1]);
      if valid.None? then init else InsertPath(init, valid.value)
  }

  lemma {:induction false} InsertPathKeepsOrder(paths: seq<Bytes>, p: Bytes)
    requires Lexicographic.Increasing(paths, Rank)
    ensures Lexicographic.Increasing(InsertPath(paths, p), Rank)
  {
    if paths != [] && !Lexicographic.Less(p, paths[0], Rank) && p != paths[0] {
      Lexicographic.LessIsTotal(p, paths[0], Rank);
      var rest := InsertPath(paths[1..], p);
      InsertPathKeepsOrder(paths[1..], p);
      forall j | 0 <= j < |rest|
        ensures Lexicographic.Less(paths[0], rest[j], Rank)
      {
        assert rest[j] in rest;
        if rest[j] != p {
          var i :| 0 <= i < |paths[1..]| && paths[1..][i] == rest[j];
          assert paths[i + 1] == rest[j];
        }
      }
    } else if paths != [] && p != paths[0] {
      forall j | 0 <= j < |paths|
        ensures Lexicographic.Less(p, paths[j], Rank)
      {
        if j > 0 {
          Lexicographic.LessIsTransitive(p, paths[0], paths[j], Rank);
        }
      }
    }
  }

  /** What is walked: each valid path once, in byte order. No other list of paths has that form. */
  lemma {:induction false} RelevantPathsAreSorted(raw: seq<Bytes>, validate: Validate)
    ensures Lexicographic.Increasing(RelevantPaths(raw, validate), Rank)
    ensures forall p :: p in RelevantPaths(raw, validate) <==> exists r :: r in raw && validate(r) == Some(p)
  {
    if raw != [] {
      var init, last := raw[..|raw| - 1], raw[|raw| - 1];
      assert raw == init + [last];
      RelevantPathsAreSorted(init, validate);
      if validate(last).Some? {
        InsertPathKeepsOrder(RelevantPaths(init, validate), validate(last).value);
      }
    }
  }

  method CollectPaths(raw: seq<Bytes>, validate: Validate) returns (paths: seq<Bytes>)
    ensures paths == RelevantPaths(raw, validate)
  {
    paths := [];
    for k := 0 to |raw|
      invariant paths == RelevantPaths(raw[..k], validate)
    {
      assert raw[..k + 1][..k] == raw[..k];
      var valid := validate(raw[k]);
      if valid.Some? {
        paths := InsertPath(paths, valid.value);
      }
    }
    assert raw[..|raw|] == raw;
  }

  /** The fingerprint of a walk: the hash of its stream. */
  ghost function Digested(stream: Result<Bytes>, hash: Hash): Result<Bytes> {
    match stream
    case Err(p) => Err(p)
    case Ok(bytes) => Ok(hash(bytes))
  }

  ghost function LiveFingerprint(raw: seq<Bytes>, validate: Validate, worktree: Bytes -> File, hash: Hash): Result<Bytes> {
    Digested(WalkStream(RelevantPaths(raw, validate), p => LiveState(p, worktree(p), hash)), hash)
  }

  ghost function SnapshotFingerprint(raw: seq<Bytes>, validate: Validate, snapshot: Snapshot, hash: Hash): Result<Bytes> {
    Digested(WalkStream(RelevantPaths(raw, validate), p => SnapshotState(p, snapshot)), hash)
  }

  method RelatedContentFingerprint(raw: seq<Bytes>, validate: Validate, worktree: Bytes -> File, hash: Hash)
    returns (fingerprint: Result<Bytes>)
    ensures fingerprint == LiveFingerprint(raw, validate, worktree, hash)
  {
    var paths := CollectPaths(raw, validate);
    var stream := HashWorktree(paths, worktree, hash);
    fingerprint := if stream.Err? then stream else Ok(hash(stream.value));
  }

  /** What the hasher is fed for the worktree. */
  method HashWorktree(paths: seq<Bytes>, worktree: Bytes -> File, hash: Hash) returns (stream: Result<Bytes>)
    ensures stream == WalkStream(paths, p => LiveState(p, worktree(p), hash))
  {
    ghost var stateOf := p => LiveState(p, worktree(p), hash);
    var hasher: Bytes := [];
    for k := 0 to |paths|
      invariant Walk(paths[..k], stateOf).Ok? && WalkStream(paths[..k], stateOf) == Ok(hasher)
    {
      var path := paths[k];
      WalkStep(paths, k, stateOf);
      hasher := hasher + path;
      hasher := hasher + [0];
      match worktree(path) {
        case Absent =>
          hasher := hasher + MISSING;
        case Refused =>
          return Err(path);
        case file =>
          hasher := hasher + EncodeState(Content(hash(ContentPreimage(file))));
      }
    }
    assert paths[..|paths|] == paths;
    stream := Ok(hasher);
  }

  method RelatedContentFingerprintFromSnapshot(raw: seq<Bytes>, validate: Validate, snapshot: Snapshot, hash: Hash)
    returns (fingerprint: Result<Bytes>)
    ensures fingerprint == SnapshotFingerprint(raw, validate, snapshot, hash)
  {
    var paths := CollectPaths(raw, validate);
    var stream := HashSnapshot(paths, snapshot);
    fingerprint := if stream.Err? then stream else Ok(hash(stream.value));
  }

  /** What it is fed for a snapshot. */
  method HashSnapshot(paths: seq<Bytes>, snapshot: Snapshot) returns (stream: Result<Bytes>)
    ensures stream == WalkStream(paths, p => SnapshotState(p, snapshot))
  {
    ghost var stateOf := p => SnapshotState(p, snapshot);
    var hasher: Bytes := [];
    for k := 0 to |paths|
      invariant Walk(paths[..k], stateOf).Ok? && WalkStream(paths[..k], stateOf) == Ok(hasher)
    {
      var path := paths[k];
      WalkStep(paths, k, stateOf);
      hasher := hasher + path;
      hasher := hasher + [0];
      if path in snapshot.recorded {
        hasher := hasher + EncodeState(snapshot.recorded[path]);
        continue;
      }
      if path in snapshot.dirty {
        return Err(path);
      }
      var state := if snapshot.hasHead then snapshot.tree(path) else Ok(Missing);
      if state.Err? {
        return Err(state.path);
      }
      hasher := hasher + EncodeState(state.value);
    }
    assert paths[..|paths|] == paths;
    stream := Ok(hasher);
  }

  // ---------------------------------------------------------------- the bytes and the states, spelled out

  /** A text of ASCII characters as bytes. */
  function Ascii(text: string): Bytes
    requires forall i :: 0 <= i < |text| ==> text[i] < '\U{80}'
  {
    seq(|text|, i requires 0 <= i < |text| => text[i] as int as Byte)
  }

  /** The tags are words that end with a NUL. */
  lemma TagsAreWords()
    ensures FILE == Ascii("file") + [0] && SYMLINK == Ascii("symlink") + [0]
    ensures SHA256 == Ascii("sha256") + [0] && MISSING == Ascii("missing") + [0]
  {
  }

  /** An entry is its path, a NUL and either the word for a missing file or that for a hash and the hash. */
  lemma EntryBytes(path: Bytes, hex: Bytes)
    ensures Encode([Entry(path, Missing)]) == path + [0] + (Ascii("missing") + [0])
    ensures Encode([Entry(path, Content(hex))]) == path + [0] + (Ascii("sha256") + [0] + hex)
  {
    TagsAreWords();
    var missing, content := Entry(path, Missing), Entry(path, Content(hex));
    assert Parts([missing]) == [EncodeEntry(missing)] && Parts([content]) == [EncodeEntry(content)];
    assert Concat([EncodeEntry(missing)]) == EncodeEntry(missing) + [] && Concat([EncodeEntry(content)]) == EncodeEntry(content) + [];
  }

  /** The state of a file: missing, or the hash of a link's target or of a file's mode and bytes behind their word. */
  predicate IsStateOf(state: State, file: File, hash: Hash) {
    match file
    case Absent => state == Missing
    case Symlink(target) => state == Content(hash(Ascii("symlink") + [0] + target))
    case Regular(mode, content) => state == Content(hash(Ascii("file") + [0] + mode + content))
    case Refused => false
  }

  lemma LiveStateIff(path: Bytes, file: File, hash: Hash, state: State)
    ensures LiveState(path, file, hash) == Ok(state) <==> IsStateOf(state, file, hash)
    ensures LiveState(path, file, hash).Err? <==> file.Refused?
  {
    TagsAreWords();
  }

  /** A snapshot speaks of a path by its record, else, unless the path was dirty, by its commit's tree if it had one. */
  predicate IsStoredState(state: State, path: Bytes, snapshot: Snapshot) {
    || (path in snapshot.recorded && state == snapshot.recorded[path])
    || (path !in snapshot.recorded && path !in snapshot.dirty
        && if snapshot.hasHead then snapshot.tree(path) == Ok(state) else state == Missing)
  }

  /** It cannot speak of a dirty path without a record, or of one its tree cannot be read at. */
  predicate IsUnknown(path: Bytes, snapshot: Snapshot) {
    path !in snapshot.recorded && (path in snapshot.dirty || (snapshot.hasHead && snapshot.tree(path).Err?))
  }

  lemma SnapshotStateIff(path: Bytes, snapshot: Snapshot, state: State)
    ensures SnapshotState(path, snapshot) == Ok(state) <==> IsStoredState(state, path, snapshot)
    ensures SnapshotState(path, snapshot).Err? <==> IsUnknown(path, snapshot)
  {
  }

  lemma {:induction false} WalkFailsIff(paths: seq<Bytes>, stateOf: Bytes -> Result<State>)
    ensures Walk(paths, stateOf).Err? <==> exists p :: p in paths && stateOf(p).Err?
    decreases |paths|
  {
    if paths != [] {
      var init, last := paths[..|paths| - 1], paths[|paths| - 1];
      assert paths == init + [last];
      WalkFailsIff(init, stateOf);
    }
  }

  /** There is no live fingerprint exactly when a relevant path holds what cannot be read. */
  lemma LiveFingerprintFailsIff(raw: seq<Bytes>, validate: Validate, worktree: Bytes -> File, hash: Hash)
    ensures LiveFingerprint(raw, validate, worktree, hash).Err? <==>
            exists r :: r in raw && validate(r).Some? && worktree(validate(r).value).Refused?
  {
    var stateOf := p => LiveState(p, worktree(p), hash);
    var paths := RelevantPaths(raw, validate);
    RelevantPathsAreSorted(raw, validate);
    WalkFailsIff(paths, stateOf);
    if r :| r in raw && validate(r).Some? && worktree(validate(r).value).Refused? {
      assert validate(r).value in paths && stateOf(validate(r).value).Err?;
    }
  }

  /** And none from a snapshot exactly when it cannot speak of a relevant path. */
  lemma SnapshotFingerprintFailsIff(raw: seq<Bytes>, validate: Validate, snapshot: Snapshot, hash: Hash)
    ensures SnapshotFingerprint(raw, validate, snapshot, hash).Err? <==>
            exists r :: r in raw && validate(r).Some? && IsUnknown(validate(r).value, snapshot)
  {
    var stateOf := p => SnapshotState(p, snapshot);
    var paths := RelevantPaths(raw, validate);
    RelevantPathsAreSorted(raw, validate);
    WalkFailsIff(paths, stateOf);
    if r :| r in raw && validate(r).Some? && IsUnknown(validate(r).value, snapshot) {
      SnapshotStateIff(validate(r).value, snapshot, Missing);
      assert validate(r).value in paths && stateOf(validate(r).value).Err?;
    }
    if p :| p in paths && stateOf(p).Err? {
      SnapshotStateIff(p, snapshot, Missing);
    }
  }

  // ---------------------------------------------------------------- comparing the two

  lemma {:induction false} WalkEntries(paths: seq<Bytes>, stateOf: Bytes -> Result<State>)
    requires Walk(paths, stateOf).Ok?
    ensures var entries := Walk(paths, stateOf).value;
            && |entries| == |paths|
            && forall i :: 0 <= i < |paths| ==>
                 stateOf(paths[i]).Ok? && entries[i] == Entry(paths[i], stateOf(paths[i]).value)
    decreases |paths|
  {
    if paths != [] {
      WalkEntries(paths[..|paths| - 1], stateOf);
    }
  }

  ghost predicate FixedWidth(state: Result<State>) {
    state.Ok? && state.value.Content? ==> |state.value.hex| == HEX_LENGTH
  }

  /** No two of these inputs have one hash. */
  ghost predicate NoCollision(hash: Hash, inputs: set<Bytes>) {
    forall x, y :: x in inputs && y in inputs && hash(x) == hash(y) ==> x == y
  }

  /** Validated paths hold no NUL. */
  ghost predicate ValidatesText(validate: Validate) {
    forall r :: validate(r).Some? ==> 0 !in validate(r).value
  }

  lemma RelevantPathsAreText(raw: seq<Bytes>, validate: Validate)
    requires ValidatesText(validate)
    ensures forall i :: 0 <= i < |RelevantPaths(raw, validate)| ==> 0 !in RelevantPaths(raw, validate)[i]
  {
    RelevantPathsAreSorted(raw, validate);
    var paths := RelevantPaths(raw, validate);
    forall i | 0 <= i < |paths|
      ensures 0 !in paths[i]
    {
      assert paths[i] in paths;
    }
  }

  lemma StreamsAgreeIffStates(paths: seq<Bytes>, worktree: Bytes -> File, hash: Hash, snapshot: Snapshot)
    requires forall i :: 0 <= i < |paths| ==> 0 !in paths[i]
    requires forall x :: |hash(x)| == HEX_LENGTH
    requires forall i :: 0 <= i < |paths| ==> FixedWidth(SnapshotState(paths[i], snapshot))
    requires WalkStream(paths, p => LiveState(p, worktree(p), hash)).Ok?
    requires WalkStream(paths, p => SnapshotState(p, snapshot)).Ok?
    ensures WalkStream(paths, p => LiveState(p, worktree(p), hash)) == WalkStream(paths, p => SnapshotState(p, snapshot))
            <==> forall i :: 0 <= i < |paths| ==>
                   LiveState(paths[i], worktree(paths[i]), hash) == SnapshotState(paths[i], snapshot)
  {
    var live := p => LiveState(p, worktree(p), hash);
    var stored := p => SnapshotState(p, snapshot);
    WalkEntries(paths, live);
    WalkEntries(paths, stored);
    var a, b := Walk(paths, live).value, Walk(paths, stored).value;
    assert AllWellFormed(a) && AllWellFormed(b);
    if Encode(a) == Encode(b) {
      EncodeIsInjective(a, b);
      forall i | 0 <= i < |paths|
        ensures live(paths[i]) == stored(paths[i])
      {
        assert a[i] == b[i];
      }
    }
    if forall i :: 0 <= i < |paths| ==> live(paths[i]) == stored(paths[i]) {
      assert a == b;
    }
  }

  lemma StatesAgreeIff(paths: seq<Bytes>, p: Bytes, worktree: Bytes -> File, hash: Hash, snapshot: Snapshot)
    requires p in paths && Walk(paths, q => LiveState(q, worktree(q), hash)).Ok?
    ensures LiveState(p, worktree(p), hash) == SnapshotState(p, snapshot) <==>
            exists state :: IsStateOf(state, worktree(p), hash) && IsStoredState(state, p, snapshot)
  {
    WalkFailsIff(paths, q => LiveState(q, worktree(q), hash));
    var live := LiveState(p, worktree(p), hash);
    if live == SnapshotState(p, snapshot) {
      LiveStateIff(p, worktree(p), hash, live.value);
      SnapshotStateIff(p, snapshot, live.value);
      assert IsStateOf(live.value, worktree(p), hash) && IsStoredState(live.value, p, snapshot);
    }
    if state :| IsStateOf(state, worktree(p), hash) && IsStoredState(state, p, snapshot) {
      LiveStateIff(p, worktree(p), hash, state);
      SnapshotStateIff(p, snapshot, state);
    }
  }

  /**
   A passing run counts for the live content exactly when the snapshot taken with it saw,
   on every relevant path, the state the worktree has now, unless the two streams collide.
   */
  lemma LiveEqualsSnapshotIffStatesAgree(raw: seq<Bytes>, validate: Validate, worktree: Bytes -> File, hash: Hash,
                                         snapshot: Snapshot)
    requires ValidatesText(validate) && forall x :: |hash(x)| == HEX_LENGTH
    requires forall p :: FixedWidth(SnapshotState(p, snapshot))
    requires LiveFingerprint(raw, validate, worktree, hash).Ok? && SnapshotFingerprint(raw, validate, snapshot, hash).Ok?
    requires var paths := RelevantPaths(raw, validate);
             NoCollision(hash, {WalkStream(paths, p => LiveState(p, worktree(p), hash)).value,
                                WalkStream(paths, p => SnapshotState(p, snapshot)).value})
    ensures LiveFingerprint(raw, validate, worktree, hash) == SnapshotFingerprint(raw, validate, snapshot, hash)
            <==> forall r :: r in raw && validate(r).Some? ==>
                   exists state :: IsStateOf(state, worktree(validate(r).value), hash)
                                   && IsStoredState(state, validate(r).value, snapshot)
  {
    var paths := RelevantPaths(raw, validate);
    RelevantPathsAreText(raw, validate);
    RelevantPathsAreSorted(raw, validate);
    StreamsAgreeIffStates(paths, worktree, hash, snapshot);
    assert forall r :: r in raw && validate(r).Some? ==> validate(r).value in paths;
    assert forall i :: 0 <= i < |paths| ==> paths[i] in paths;
    forall p | p in paths
      ensures LiveState(p, worktree(p), hash) == SnapshotState(p, snapshot) <==>
              exists state :: IsStateOf(state, worktree(p), hash) && IsStoredState(state, p, snapshot)
    {
      StatesAgreeIff(paths, p, worktree, hash, snapshot);
    }
  }

  /** What is hashed for a walk over a worktree: the content of each path and the whole stream. */
  ghost function HashedInputs(paths: seq<Bytes>, worktree: Bytes -> File, hash: Hash): set<Bytes>
    requires WalkStream(paths, p => LiveState(p, worktree(p), hash)).Ok?
  {
    (set p | p in paths && (worktree(p).Symlink? || worktree(p).Regular?) :: ContentPreimage(worktree(p)))
    + {WalkStream(paths, p => LiveState(p, worktree(p), hash)).value}
  }

  /** Equal streams of two walks over the same paths saw equal states. */
  lemma EqualStreamsMeanEqualStates(paths: seq<Bytes>, earlier: Bytes -> Result<State>, later: Bytes -> Result<State>, i: nat)
    requires i < |paths| && forall k :: 0 <= k < |paths| ==> 0 !in paths[k]
    requires forall p :: FixedWidth(earlier(p)) && FixedWidth(later(p))
    requires WalkStream(paths, earlier).Ok? && WalkStream(paths, later) == WalkStream(paths, earlier)
    ensures earlier(paths[i]).Ok? && later(paths[i]) == earlier(paths[i])
  {
    WalkEntries(paths, earlier);
    WalkEntries(paths, later);
    var a, b := Walk(paths, earlier).value, Walk(paths, later).value;
    EncodeIsInjective(a, b);
    assert a[i] == b[i];
  }

  lemma EqualStreamsMeanEqualFiles(paths: seq<Bytes>, before: Bytes -> File, after: Bytes -> File, hash: Hash, i: nat)
    requires i < |paths| && forall k :: 0 <= k < |paths| ==> 0 !in paths[k]
    requires forall x :: |hash(x)| == HEX_LENGTH
    requires before(paths[i]).Regular? ==> |before(paths[i]).mode| == 4
    requires after(paths[i]).Regular? ==> |after(paths[i]).mode| == 4
    requires WalkStream(paths, p => LiveState(p, before(p), hash)).Ok?
    requires WalkStream(paths, p => LiveState(p, after(p), hash)) == WalkStream(paths, p => LiveState(p, before(p), hash))
    requires NoCollision(hash, HashedInputs(paths, before, hash) + HashedInputs(paths, after, hash))
    ensures before(paths[i]) == after(paths[i])
  {
    var earlier, later := p => LiveState(p, before(p), hash), p => LiveState(p, after(p), hash);
    assert forall p :: FixedWidth(LiveState(p, before(p), hash)) && FixedWidth(LiveState(p, after(p), hash));
    EqualStreamsMeanEqualStates(paths, earlier, later, i);
    var f, g := before(paths[i]), after(paths[i]);
    assert LiveState(paths[i], f, hash) == LiveState(paths[i], g, hash);
    if !f.Absent? {
      assert paths[i] in paths;
      assert ContentPreimage(f) in HashedInputs(paths, before, hash) && ContentPreimage(g) in HashedInputs(paths, after, hash);
      ContentPreimageIsInjective(f, g);
    }
  }

  /** Unless the hash collides on what was hashed, equal fingerprints of two worktrees mean equal files on every relevant path. */
  lemma EqualFingerprintsMeanEqualFiles(raw: seq<Bytes>, validate: Validate, before: Bytes -> File, after: Bytes -> File,
                                        hash: Hash, r: Bytes)
    requires ValidatesText(validate) && forall x :: |hash(x)| == HEX_LENGTH
    requires forall p :: (before(p).Regular? ==> |before(p).mode| == 4) && (after(p).Regular? ==> |after(p).mode| == 4)
    requires LiveFingerprint(raw, validate, before, hash).Ok?
    requires LiveFingerprint(raw, validate, after, hash) == LiveFingerprint(raw, validate, before, hash)
    requires var paths := RelevantPaths(raw, validate);
             NoCollision(hash, HashedInputs(paths, before, hash) + HashedInputs(paths, after, hash))
    requires r in raw && validate(r).Some?
    ensures before(validate(r).value) == after(validate(r).value)
  {
    var paths := RelevantPaths(raw, validate);
    RelevantPathsAreText(raw, validate);
    RelevantPathsAreSorted(raw, validate);
    assert validate(r).value in paths;
    var i :| 0 <= i < |paths| && paths[i] == validate(r).value;
    EqualStreamsMeanEqualFiles(paths, before, after, hash, i);
  }
}
