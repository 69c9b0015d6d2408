/**
 The two path normalizations of `src/git.rs`: the validation that admits a path into the
 model, and the looser one applied when changes are compared. `sensitive` is the redaction
 rule for path names.
 */
module GitPaths {
  import opened Characters
  import opened Wrappers

  function ForwardSlashes(path: string): (r: string)
    ensures |r| == |path|
    ensures forall i :: 0 <= i < |r| ==> r[i] == if path[i] == '\\' then '/' else path[i]
  {
    seq(|path|, i requires 0 <= i < |path| => if path[i] == '\\' then '/' else path[i])
  }

  function TrimStart(s: string): string {
    if s != "" && IsWhitespace(s[0]) then TrimStart(s[1..]) else s
  }

  function TrimEnd(s: string): string {
    if s != "" && IsWhitespace(s[|s| - 1]) then TrimEnd(s[..|s| - 1]) else s
  }

  function DropDotSlashes(s: string): string
    decreases |s|
  {
    if "./" <= s then DropDotSlashes(s[2..]) else s
  }

  function NormalizePath(path: string): string {
    DropDotSlashes(ForwardSlashes(TrimEnd(TrimStart(path))))
  }

  /** The components between slashes. */
  function Split(s: string): (r: seq<string>)
    ensures r != []
  {
    if s == "" then [""]
    else
      var rest := Split(s[1..]);
      if s[0] == '/' then [""] + rest else [[s[0]] + rest[0]] + rest[1..]
  }

  function Join(components: seq<string>): string
    requires components != []
  {
    if |components| == 1 then components[0] else components[0] + "/" + Join(components[1..])
  }

  predicate BadComponent(component: string) {
    component == "" || component == "." || component == ".."
  }

  /** The second byte is a colon, which can only follow a first character of one byte. */
  predicate HasDriveLetter(path: string) {
    |path| > 1 && path[0] as int < 0x80 && path[1] == ':'
  }

  predicate HasNul(path: string) {
    exists i :: 0 <= i < |path| && path[i] == '\0'
  }

  predicate HasBadComponent(components: seq<string>) {
    exists k :: 0 <= k < |components| && BadComponent(components[k])
  }

  function ValidateNormalized(normalized: string, sensitive: string -> bool): Option<string> {
    if normalized == "" || normalized[0] == '/' || normalized[|normalized| - 1] == '/' || HasDriveLetter(normalized) then None
    else if HasBadComponent(Split(normalized)) || sensitive(normalized) then None
    else Some(Join(Split(normalized)))
  }

  function ValidatePath(path: string, sensitive: string -> bool): Option<string> {
    if HasNul(path) then None else ValidateNormalized(ForwardSlashes(path), sensitive)
  }

  lemma {:induction false} JoinInvertsSplit(s: string)
    ensures Join(Split(s)) == s
  {
    if s != "" {
      var rest := Split(s[1..]);
      JoinInvertsSplit(s[1..]);
      if s[0] == '/' {
        assert ([""] + rest)[1..] == rest;
        assert "" + "/" + s[1..] == s;
      } else {
        var all := [[s[0]] + rest[0]] + rest[1..];
        if |rest| > 1 {
          assert all[1..] == rest[1..];
          assert [s[0]] + rest[0] + "/" + Join(rest[1..]) == [s[0]] + (rest[0] + "/" + Join(rest[1..]));
        }
      }
    }
  }

  lemma {:induction false} SplitWithoutSlash(s: string)
    requires '/' !in s
    ensures Split(s) == [s]
  {
    if s != "" {
      SplitWithoutSlash(s[1..]);
      assert [s[0]] + s[1..] == s;
    }
  }

  lemma ForwardSlashesTwice(path: string)
    ensures ForwardSlashes(ForwardSlashes(path)) == ForwardSlashes(path)
    ensures HasNul(ForwardSlashes(path)) <==> HasNul(path)
  {
    var normalized := ForwardSlashes(path);
    assert forall i :: 0 <= i < |path| ==> (path[i] == '\0' <==> normalized[i] == '\0');
  }

  /** A valid path is its own validated form: validating twice is validating once. */
  lemma ValidatedPathIsStable(path: string, sensitive: string -> bool)
    requires ValidatePath(path, sensitive).Some?
    ensures ValidatePath(path, sensitive) == Some(ForwardSlashes(path))
    ensures ValidatePath(ForwardSlashes(path), sensitive) == Some(ForwardSlashes(path))
  {
    JoinInvertsSplit(ForwardSlashes(path));
    ForwardSlashesTwice(path);
  }

  lemma {:induction false} TrimStartShortens(s: string)
    ensures TrimStart(s) == s || |TrimStart(s)| < |s|
    ensures TrimStart(s) == s <==> s == "" || !IsWhitespace(s[0])
  {
    if s != "" && IsWhitespace(s[0]) {
      TrimStartShortens(s[1..]);
    }
  }

  lemma {:induction false} TrimEndShortens(s: string)
    ensures TrimEnd(s) == s || |TrimEnd(s)| < |s|
    ensures TrimEnd(s) == s <==> s == "" || !IsWhitespace(s[|s| - 1])
  {
    if s != "" && IsWhitespace(s[|s| - 1]) {
      TrimEndShortens(s[..|s| - 1]);
    }
  }

  lemma {:induction false} DropDotSlashesShortens(s: string)
    ensures |DropDotSlashes(s)| <= |s|
    decreases |s|
  {
    if "./" <= s {
      DropDotSlashesShortens(s[2..]);
    }
  }

  lemma DotSlashIsABadComponent(s: string)
    requires "./" <= s
    ensures Split(s)[0] == "."
  {
    assert s[0] == '.' && s[1] == '/';
    assert s[1..][0] == '/';
  }

  /**
   The two normalizations agree on a validated path exactly when it neither begins nor ends
   with white space.
   */
  lemma ValidatedPathIsNormalIffTrimmed(path: string, sensitive: string -> bool)
    requires ValidatePath(path, sensitive) == Some(path)
    ensures NormalizePath(path) == path
            <==> !IsWhitespace(path[0]) && !IsWhitespace(path[|path| - 1])
  {
    ValidatedPathIsStable(path, sensitive);
    TrimStartShortens(path);
    TrimEndShortens(TrimStart(path));
    DropDotSlashesShortens(ForwardSlashes(TrimEnd(TrimStart(path))));
    if TrimEnd(TrimStart(path)) == path {
      if "./" <= path {
        DotSlashIsABadComponent(path);
        assert BadComponent(Split(path)[0]);
      }
    }
  }

  lemma NormalizeShortens(path: string)
    ensures |NormalizePath(path)| <= |path|
    ensures |NormalizePath(path)| == |path| && path != "" ==> !IsWhitespace(path[0]) && !IsWhitespace(path[|path| - 1])
  {
    TrimStartShortens(path);
    TrimEndShortens(TrimStart(path));
    DropDotSlashesShortens(ForwardSlashes(TrimEnd(TrimStart(path))));
  }

  /** Normalizing a validated path twice gives it back exactly when normalizing it once does. */
  lemma NormalizedTwiceIsOnce(path: string, sensitive: string -> bool)
    requires ValidatePath(path, sensitive) == Some(path)
    ensures NormalizePath(NormalizePath(path)) == path <==> NormalizePath(path) == path
  {
    var once := NormalizePath(path);
    NormalizeShortens(path);
    NormalizeShortens(once);
    ValidatedPathIsNormalIffTrimmed(path, sensitive);
    assert NormalizePath(once) == path ==> |once| == |path|;
  }

  // ---------------------------------------------------------------- what the two normalizations mean

  /** `path[i..j]` is a component: between slashes or the ends, with no slash in it. */
  predicate IsComponent(path: string, i: int, j: int) {
    && 0 <= i <= j <= |path| && (i == 0 || path[i - 1] == '/') && (j == |path| || path[j] == '/')
    && forall k :: i <= k < j ==> path[k] != '/'
  }

  predicate IsBadAt(path: string, i: int, j: int) {
    IsComponent(path, i, j) && (path[i..j] == "" || path[i..j] == "." || path[i..j] == "..")
  }

  ghost predicate HasBadPart(path: string) {
    exists i, j :: IsBadAt(path, i, j)
  }

  /** The first component of a path ends at its first slash. */
  lemma {:induction false} FirstComponent(path: string)
    ensures var first := Split(path)[0]; IsComponent(path, 0, |first|) && path[..|first|] == first
    ensures var n := |Split(path)[0]|; if n == |path| then Split(path)[1..] == [] else Split(path)[1..] == Split(path[n + 1..])
  {
    if path != "" {
      var rest := Split(path[1..]);
      FirstComponent(path[1..]);
      if path[0] == '/' {
        assert Split(path) == [""] + rest;
      } else {
        var first := [path[0]] + rest[0];
        assert Split(path) == [first] + rest[1..];
        assert path[..|first|] == [path[0]] + path[1..][..|rest[0]|];
        assert path[|first|..] == path[1..][|rest[0]|..];
        if |first| < |path| {
          assert path[|first| + 1..] == path[1..][|rest[0]| + 1..];
        }
      }
    }
  }

  /** Every other component is one of the path behind that slash. */
  lemma LaterComponent(path: string, n: nat, i: int, j: int)
    requires IsComponent(path, 0, n) && n < |path| && 0 < i
    ensures IsBadAt(path, i, j) <==> IsBadAt(path[n + 1..], i - n - 1, j - n - 1)
  {
    var rest := path[n + 1..];
    if n + 1 <= i <= j <= |path| {
      assert rest[i - n - 1..j - n - 1] == path[i..j];
      assert forall k :: i <= k < j ==> rest[k - n - 1] == path[k];
    }
  }

  lemma OnlyFirstComponent(path: string, n: nat, i: int, j: int)
    requires IsComponent(path, 0, n) && IsComponent(path, i, j)
    ensures i == 0 ==> j == n
    ensures n == |path| ==> i == 0
  {
  }

  lemma BadComponentNext(path: string, n: nat)
    requires IsComponent(path, 0, n)
    ensures HasBadPart(path) <==> IsBadAt(path, 0, n) || (n < |path| && HasBadPart(path[n + 1..]))
  {
    if i, j :| IsBadAt(path, i, j) {
      OnlyFirstComponent(path, n, i, j);
      if i > 0 {
        LaterComponent(path, n, i, j);
      }
    }
    if n < |path| {
      var rest := path[n + 1..];
      if i, j :| IsBadAt(rest, i, j) {
        LaterComponent(path, n, i + n + 1, j + n + 1);
        assert IsBadAt(path, i + n + 1, j + n + 1);
      }
    }
  }

  /** Splitting finds a bad component exactly when the path has one. */
  lemma {:induction false} BadComponentIff(path: string)
    ensures HasBadComponent(Split(path)) <==> HasBadPart(path)
    decreases |path|
  {
    var parts := Split(path);
    var n := |parts[0]|;
    FirstComponent(path);
    BadComponentNext(path, n);
    assert BadComponent(parts[0]) <==> IsBadAt(path, 0, n) by {
      assert path[0..n] == path[..n];
    }
    HasBadNext(parts);
    if n < |path| {
      BadComponentIff(path[n + 1..]);
    }
  }

  lemma HasBadNext(parts: seq<string>)
    requires parts != []
    ensures HasBadComponent(parts) <==> BadComponent(parts[0]) || HasBadComponent(parts[1..])
  {
    assert forall k :: 1 <= k < |parts| ==> parts[1..][k - 1] == parts[k];
  }

  /**
   A path is valid, as itself with forward slashes, exactly when it has no NUL, is relative and not empty, names no
   drive and no sensitive file, and has no component that is empty, a dot or two dots.
   */
  lemma ValidatePathIff(path: string, sensitive: string -> bool, valid: string)
    ensures ValidatePath(path, sensitive) == Some(valid) <==>
            && |valid| == |path| && (forall i :: 0 <= i < |path| ==> valid[i] == if path[i] == '\\' then '/' else path[i])
            && '\0' !in path && path != ""
            && valid[0] != '/' && valid[|valid| - 1] != '/' && !(|valid| > 1 && valid[0] < '\U{80}' && valid[1] == ':')
            && !sensitive(valid) && !HasBadPart(valid)
  {
    ForwardSlashesIff(path, valid);
    ValidateNormalizedIff(ForwardSlashes(path), sensitive, valid);
  }

  lemma ForwardSlashesIff(path: string, valid: string)
    ensures valid == ForwardSlashes(path) <==>
            |valid| == |path| && forall i :: 0 <= i < |path| ==> valid[i] == if path[i] == '\\' then '/' else path[i]
  {
  }

  lemma ValidateNormalizedIff(normalized: string, sensitive: string -> bool, valid: string)
    ensures ValidateNormalized(normalized, sensitive) == Some(valid) <==>
            && valid == normalized && valid != ""
            && valid[0] != '/' && valid[|valid| - 1] != '/' && !(|valid| > 1 && valid[0] < '\U{80}' && valid[1] == ':')
            && !sensitive(valid) && !HasBadPart(valid)
  {
    JoinInvertsSplit(normalized);
    BadComponentIff(normalized);
  }

  /** `path[a..b]` without its outer white space. */
  predicate IsTrimmedPart(path: string, a: int, b: int) {
    && 0 <= a <= b <= |path|
    && (forall i :: 0 <= i < a ==> IsWhitespace(path[i])) && (forall i :: b <= i < |path| ==> IsWhitespace(path[i]))
    && (a < b ==> !IsWhitespace(path[a]) && !IsWhitespace(path[b - 1]))
  }

  lemma {:induction false} TrimStartCuts(s: string) returns (a: nat)
    ensures a <= |s| && TrimStart(s) == s[a..]
    ensures (forall i :: 0 <= i < a ==> IsWhitespace(s[i])) && (a < |s| ==> !IsWhitespace(s[a]))
  {
    if s != "" && IsWhitespace(s[0]) {
      var rest := TrimStartCuts(s[1..]);
      a := rest + 1;
      assert s[1..][rest..] == s[a..];
    } else {
      a := 0;
    }
  }

  lemma {:induction false} TrimEndCuts(s: string) returns (b: nat)
    ensures b <= |s| && TrimEnd(s) == s[..b]
    ensures (forall i :: b <= i < |s| ==> IsWhitespace(s[i])) && (b > 0 ==> !IsWhitespace(s[b - 1]))
  {
    if s != "" && IsWhitespace(s[|s| - 1]) {
      b := TrimEndCuts(s[..|s| - 1]);
      assert s[..|s| - 1][..b] == s[..b];
    } else {
      b := |s|;
    }
  }

  function DotSlashes(n: nat): string {
    if n == 0 then "" else "./" + DotSlashes(n - 1)
  }

  lemma Regrouped(a: string, b: string, c: string)
    ensures a + (b + c) == a + b + c
  {
  }

  lemma {:induction false} DropDotSlashesCuts(s: string) returns (n: nat)
    ensures s == DotSlashes(n) + DropDotSlashes(s) && !("./" <= DropDotSlashes(s))
    decreases |s|
  {
    if "./" <= s {
      var rest := DropDotSlashesCuts(s[2..]);
      n := rest + 1;
      Regrouped("./", DotSlashes(rest), DropDotSlashes(s[2..]));
      assert s[..2] == "./" && s == s[..2] + s[2..];
    } else {
      n := 0;
    }
  }

  /** Normalizing cuts the outer white space, turns the slashes forward, then drops every leading dot and slash. */
  lemma NormalizedPathIs(path: string) returns (a: nat, b: nat, n: nat)
    ensures IsTrimmedPart(path, a, b)
    ensures ForwardSlashes(path[a..b]) == DotSlashes(n) + NormalizePath(path)
    ensures !("./" <= NormalizePath(path))
  {
    a := TrimStartCuts(path);
    var end := TrimEndCuts(path[a..]);
    b := a + end;
    assert path[a..][..end] == path[a..b];
    assert forall i :: b <= i < |path| ==> path[i] == path[a..][i - a];
    n := DropDotSlashesCuts(ForwardSlashes(path[a..b]));
  }
}
