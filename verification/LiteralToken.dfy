/**
 The literal-token scan, the hunk merge and the contract matcher of `src/contracts.rs`.
 `ident` is the identifier-character test; nothing is assumed about it except where a lemma
 says so, and hunks of text are sequences of characters.
 */
module LiteralToken {
  import opened Wrappers

  type CharTest = char -> bool

  ghost predicate Occurs(text: string, symbol: string, i: nat) {
    i + |symbol| <= |text| && text[i..i + |symbol|] == symbol
  }

  /** No identifier character touches `text[i..i + n]`. */
  predicate Bounded(text: string, i: nat, n: nat, ident: CharTest)
    requires i + n <= |text|
  {
    (i > 0 ==> !ident(text[i - 1])) && (i + n < |text| ==> !ident(text[i + n]))
  }

  /** The symbol stands here with no identifier character right before or right after it. */
  ghost predicate IsTokenAt(text: string, symbol: string, i: nat, ident: CharTest) {
    var end := i + |symbol|;
    && end <= |text| && text[i..end] == symbol
    && (i == 0 || !ident(text[i - 1])) && (end == |text| || !ident(text[end]))
  }

  /** Some occurrence, overlapping another or not, stands alone. */
  ghost predicate HasToken(text: string, symbol: string, ident: CharTest) {
    exists i: nat :: IsTokenAt(text, symbol, i, ident)
  }

  /** Left to right over the non-overlapping occurrences at or after `from`. */
  predicate ScanFrom(text: string, symbol: string, from: nat, ident: CharTest)
    decreases |text| + 1 - from
  {
    if from + |symbol| > |text| then false
    else if text[from..from + |symbol|] == symbol then
      Bounded(text, from, |symbol|, ident)
      || ScanFrom(text, symbol, from + (if symbol == "" then 1 else |symbol|), ident)
    else ScanFrom(text, symbol, from + 1, ident)
  }

  predicate ContainsLiteralToken(text: string, symbol: string, ident: CharTest) {
    ScanFrom(text, symbol, 0, ident)
  }

  // ---------------------------------------------------------------- when the scan is complete

  /** The symbol overlaps itself at shift `p`, and a non-identifier stands just before the overlap. */
  predicate SplitsAt(symbol: string, p: nat, ident: CharTest) {
    0 < p < |symbol| && symbol[p..] == symbol[..|symbol| - p] && !ident(symbol[p - 1])
  }

  predicate HasSplitBorder(symbol: string, ident: CharTest) {
    exists p :: 0 < p < |symbol| && SplitsAt(symbol, p, ident)
  }

  lemma {:induction false} ScanIsSound(text: string, symbol: string, from: nat, ident: CharTest)
    requires ScanFrom(text, symbol, from, ident)
    ensures HasToken(text, symbol, ident)
    decreases |text| + 1 - from
  {
    if text[from..from + |symbol|] == symbol {
      if Bounded(text, from, |symbol|, ident) {
        assert IsTokenAt(text, symbol, from, ident);
      } else {
        ScanIsSound(text, symbol, from + (if symbol == "" then 1 else |symbol|), ident);
      }
    } else {
      ScanIsSound(text, symbol, from + 1, ident);
    }
  }

  /** Two overlapping occurrences make a border, and show the character before the second. */
  lemma OverlapIsBorder(text: string, symbol: string, first: nat, second: nat)
    requires Occurs(text, symbol, first) && Occurs(text, symbol, second)
    requires first < second < first + |symbol|
    ensures var p := second - first; symbol[p..] == symbol[..|symbol| - p]
    ensures text[second - 1] == symbol[second - first - 1]
  {
    var n, p := |symbol|, second - first;
    forall k | 0 <= k < n - p
      ensures symbol[p..][k] == symbol[..n - p][k]
    {
      assert text[first..first + n][p + k] == text[second..second + n][k];
    }
    assert text[first..first + n][p - 1] == text[second - 1];
  }

  lemma {:induction false} ScanFindsToken(text: string, symbol: string, from: nat, i: nat, ident: CharTest)
    requires !HasSplitBorder(symbol, ident)
    requires from <= i && IsTokenAt(text, symbol, i, ident)
    ensures ScanFrom(text, symbol, from, ident)
    decreases |text| + 1 - from
  {
    if text[from..from + |symbol|] == symbol {
      if !Bounded(text, from, |symbol|, ident) {
        assert i != from;
        if i < from + |symbol| {
          OverlapIsBorder(text, symbol, from, i);
          assert SplitsAt(symbol, i - from, ident);
          assert false;
        }
        ScanFindsToken(text, symbol, from + (if symbol == "" then 1 else |symbol|), i, ident);
      }
    } else {
      ScanFindsToken(text, symbol, from + 1, i, ident);
    }
  }

  /** A text whose only standalone occurrence hides behind an overlapping one. */
  function HidingText(symbol: string, p: nat, glue: char): string
    requires p <= |symbol|
  {
    [glue] + symbol[..p] + symbol
  }

  lemma HidingTextOccurrences(symbol: string, p: nat, glue: char)
    requires 0 < p < |symbol| && symbol[p..] == symbol[..|symbol| - p] && glue != symbol[0]
    ensures var text := HidingText(symbol, p, glue);
            && |text| == 1 + p + |symbol| && text[0] == glue && text[p] == symbol[p - 1]
            && text[0..|symbol|] != symbol
            && text[1..1 + |symbol|] == symbol
            && text[1 + p..1 + p + |symbol|] == symbol
  {
    var n, text := |symbol|, HidingText(symbol, p, glue);
    assert text[0..n][0] == glue;
    assert text[1..1 + n] == symbol[..p] + symbol[..n - p];
    assert symbol[..p] + symbol[p..] == symbol;
  }

  lemma HidingTextIsMissed(symbol: string, p: nat, glue: char, ident: CharTest)
    requires SplitsAt(symbol, p, ident)
    requires ident(glue) && glue != symbol[0]
    ensures HasToken(HidingText(symbol, p, glue), symbol, ident)
    ensures !ContainsLiteralToken(HidingText(symbol, p, glue), symbol, ident)
  {
    var n, text := |symbol|, HidingText(symbol, p, glue);
    HidingTextOccurrences(symbol, p, glue);
    assert IsTokenAt(text, symbol, 1 + p, ident);
    ScanPastEnd(text, symbol, 1 + n, ident);
    assert !ScanFrom(text, symbol, 1, ident);
  }

  /**
   The scan finds every standalone occurrence in every text exactly when the symbol has no
   self-overlap that begins right after a non-identifier character. `a`, `b` are any two
   identifier characters.
   */
  lemma ScanCompleteIffNoSplitBorder(symbol: string, ident: CharTest, a: char, b: char)
    requires a != b && ident(a) && ident(b)
    ensures (forall text :: ContainsLiteralToken(text, symbol, ident) == HasToken(text, symbol, ident))
            <==> !HasSplitBorder(symbol, ident)
  {
    if HasSplitBorder(symbol, ident) {
      var p :| 0 < p < |symbol| && SplitsAt(symbol, p, ident);
      HidingTextIsMissed(symbol, p, if symbol[0] != a then a else b, ident);
    } else {
      forall text
        ensures ContainsLiteralToken(text, symbol, ident) == HasToken(text, symbol, ident)
      {
        if ContainsLiteralToken(text, symbol, ident) {
          ScanIsSound(text, symbol, 0, ident);
        }
        if HasToken(text, symbol, ident) {
          var i: nat :| IsTokenAt(text, symbol, i, ident);
          ScanFindsToken(text, symbol, 0, i, ident);
        }
      }
    }
  }

  /** In particular for symbols made of identifier characters alone. */
  lemma ScanCompleteForIdentifiers(text: string, symbol: string, ident: CharTest)
    requires forall i :: 0 <= i < |symbol| ==> ident(symbol[i])
    ensures ContainsLiteralToken(text, symbol, ident) <==> HasToken(text, symbol, ident)
  {
    if ContainsLiteralToken(text, symbol, ident) {
      ScanIsSound(text, symbol, 0, ident);
    }
    if HasToken(text, symbol, ident) {
      var i: nat :| IsTokenAt(text, symbol, i, ident);
      ScanFindsToken(text, symbol, 0, i, ident);
    }
  }

  /** The dotted symbol `a.a` stands alone in `ba.a.a`, and the scan does not see it. */
  lemma DottedSymbolIsMissed(ident: CharTest)
    requires ident('a') && ident('b') && !ident('.')
    ensures HasToken("ba.a.a", "a.a", ident)
    ensures !ContainsLiteralToken("ba.a.a", "a.a", ident)
  {
    assert SplitsAt("a.a", 2, ident);
    assert HidingText("a.a", 2, 'b') == "ba.a.a";
    HidingTextIsMissed("a.a", 2, 'b', ident);
  }

  // ---------------------------------------------------------------- merging hunks

  datatype Hunk = Available(text: string) | Unavailable(reason: string)

  function MergeChangedHunks(left: Hunk, right: Hunk): Hunk {
    match (left, right)
    case (Available(l), Available(r)) =>
      Available(if l == "" then r else if r == "" then l else l + "\n" + r)
    case (Unavailable(l), Unavailable(r)) => Unavailable(l + "; " + r)
    case (Unavailable(reason), _) => Unavailable(reason)
    case (_, Unavailable(reason)) => Unavailable(reason)
  }

  /** What the scan sees at a position is the same behind a prefix that ends outside an identifier. */
  lemma SameBehindPrefix(prefix: string, text: string, from: nat, n: nat, ident: CharTest)
    requires prefix != "" && !ident(prefix[|prefix| - 1]) && from + n <= |text|
    ensures (prefix + text)[|prefix| + from..|prefix| + from + n] == text[from..from + n]
    ensures Bounded(prefix + text, |prefix| + from, n, ident) == Bounded(text, from, n, ident)
  {
  }

  function NextPosition(matched: bool, symbol: string, from: nat): nat {
    if matched && symbol != "" then from + |symbol| else from + 1
  }

  lemma {:induction false} ScanUnfold(text: string, symbol: string, from: nat, ident: CharTest, matched: bool, next: nat)
    requires from + |symbol| <= |text| && matched == (text[from..from + |symbol|] == symbol)
    requires next == NextPosition(matched, symbol, from)
    ensures ScanFrom(text, symbol, from, ident)
        <==> (matched && Bounded(text, from, |symbol|, ident)) || ScanFrom(text, symbol, next, ident)
  {
  }

  lemma {:induction false} ScanAfterPrefix(prefix: string, text: string, symbol: string, from: nat, ident: CharTest)
    requires prefix != "" && !ident(prefix[|prefix| - 1])
    ensures ScanFrom(prefix + text, symbol, |prefix| + from, ident) == ScanFrom(text, symbol, from, ident)
    decreases |text| + 1 - from
  {
    if from + |symbol| <= |text| {
      SameBehindPrefix(prefix, text, from, |symbol|, ident);
      var matched := text[from..from + |symbol|] == symbol;
      var next := NextPosition(matched, symbol, from);
      ScanUnfold(prefix + text, symbol, |prefix| + from, ident, matched, |prefix| + next);
      ScanAfterPrefix(prefix, text, symbol, next, ident);
      ScanUnfold(text, symbol, from, ident, matched, next);
    } else {
      ScanPastEnd(text, symbol, from, ident);
      ScanPastEnd(prefix + text, symbol, |prefix| + from, ident);
    }
  }

  lemma {:induction false} ScanAcrossNewline(left: string, right: string, symbol: string, from: nat, ident: CharTest)
    requires symbol != "" && '\n' !in symbol && !ident('\n')
    requires from <= |left| + 1
    ensures ScanFrom(left + "\n" + right, symbol, from, ident)
        <==> ScanFrom(left, symbol, from, ident) || ContainsLiteralToken(right, symbol, ident)
    decreases |left| + 1 - from
  {
    var whole, n := left + "\n" + right, |symbol|;
    if from == |left| + 1 {
      ScanAfterPrefix(left + "\n", right, symbol, 0, ident);
    } else if from + n <= |left| {
      assert whole[from..from + n] == left[from..from + n];
      assert Bounded(whole, from, n, ident) == Bounded(left, from, n, ident);
      ScanAcrossNewline(left, right, symbol, if left[from..from + n] == symbol then from + n else from + 1, ident);
    } else {
      if from + n <= |whole| {
        assert whole[from..from + n][|left| - from] == '\n';
        assert whole[from..from + n] != symbol;
      }
      ScanAcrossNewline(left, right, symbol, from + 1, ident);
      assert |whole| == |left| + 1 + |right|;
      if from + n > |whole| {
        ScanPastEnd(whole, symbol, from + 1, ident);
      }
    }
  }

  lemma ScanPastEnd(text: string, symbol: string, from: nat, ident: CharTest)
    requires from + |symbol| > |text|
    ensures !ScanFrom(text, symbol, from, ident)
  {
  }

  /** Merging two inspectable hunks neither loses nor invents a token. */
  lemma MergedHunkKeepsTokens(left: string, right: string, symbol: string, ident: CharTest)
    requires symbol != "" && '\n' !in symbol && !ident('\n')
    ensures MergeChangedHunks(Available(left), Available(right)).Available?
    ensures ContainsLiteralToken(MergeChangedHunks(Available(left), Available(right)).text, symbol, ident)
        <==> ContainsLiteralToken(left, symbol, ident) || ContainsLiteralToken(right, symbol, ident)
  {
    ScanAcrossNewline(left, right, symbol, 0, ident);
  }

  // ---------------------------------------------------------------- matching contracts

  datatype PathSelector = Exact(value: string) | Prefix(value: string)

  datatype SelectorGroup = SelectorGroup(path: PathSelector, symbols: seq<string>)

  datatype Contract = Contract(id: string, active: bool, selectors: seq<SelectorGroup>)

  datatype Change = Change(path: string, previous: Option<string>, hunk: Hunk)

  predicate PathMatches(selector: PathSelector, candidate: string) {
    match selector
    case Exact(value) => candidate == value
    case Prefix(value) => value <= candidate
  }

  /** The new path when it matches, otherwise the previous one when that matches. */
  function MatchingPath(group: SelectorGroup, change: Change): Option<string> {
    if PathMatches(group.path, change.path) then Some(change.path)
    else if change.previous.Some? && PathMatches(group.path, change.previous.value) then change.previous
    else None
  }

  predicate AnySymbol(symbols: seq<string>, text: string, ident: CharTest) {
    exists k :: 0 <= k < |symbols| && ContainsLiteralToken(text, symbols[k], ident)
  }

  /** A change concerns a selector group. */
  predicate Concerns(group: SelectorGroup, change: Change, ident: CharTest) {
    MatchingPath(group, change).Some?
    && (group.symbols == [] || change.hunk.Unavailable? || AnySymbol(group.symbols, change.hunk.text, ident))
  }

  ghost predicate GroupTouched(group: SelectorGroup, changes: seq<Change>, ident: CharTest) {
    exists c :: 0 <= c < |changes| && Concerns(group, changes[c], ident)
  }

  ghost predicate GroupReaches(group: SelectorGroup, changes: seq<Change>, path: string, ident: CharTest) {
    exists c :: 0 <= c < |changes| && Concerns(group, changes[c], ident)
                && MatchingPath(group, changes[c]) == Some(path)
  }

  ghost predicate Relevant(contract: Contract, changes: seq<Change>, ident: CharTest) {
    contract.active
    && exists g :: 0 <= g < |contract.selectors| && GroupTouched(contract.selectors[g], changes, ident)
  }

  /** The paths through which one contract is reached. */
  ghost predicate ReachedBy(contract: Contract, changes: seq<Change>, path: string, ident: CharTest) {
    exists g :: 0 <= g < |contract.selectors| && GroupReaches(contract.selectors[g], changes, path, ident)
  }

  ghost function RelevantContracts(contracts: seq<Contract>, changes: seq<Change>, ident: CharTest): seq<Contract> {
    if contracts == [] then []
    else
      var init := RelevantContracts(contracts[..|contracts| - 1], changes, ident);
      var last := contracts[|contracts| - 1];
      if Relevant(last, changes, ident) then init + [last] else init
  }

  /** The loops over one contract: whether it is touched, and through which paths. */
  method MatchContract(contract: Contract, changes: seq<Change>, ident: CharTest)
    returns (matched: bool, paths: set<string>)
    requires contract.active
    ensures matched <==> Relevant(contract, changes, ident)
    ensures forall path :: path in paths <==> ReachedBy(contract, changes, path, ident)
  {
    matched, paths := false, {};
    for g := 0 to |contract.selectors|
      invariant matched <==> exists g' :: 0 <= g' < g && GroupTouched(contract.selectors[g'], changes, ident)
      invariant forall path :: path in paths <==>
                  exists g' :: 0 <= g' < g && GroupReaches(contract.selectors[g'], changes, path, ident)
    {
      var here, herePaths := MatchGroup(contract.selectors[g], changes, ident);
      matched := matched || here;
      paths := paths + herePaths;
    }
  }

  method MatchGroup(group: SelectorGroup, changes: seq<Change>, ident: CharTest)
    returns (matched: bool, paths: set<string>)
    ensures matched <==> GroupTouched(group, changes, ident)
    ensures forall path :: path in paths <==> GroupReaches(group, changes, path, ident)
  {
    matched, paths := false, {};
    for c := 0 to |changes|
      invariant matched <==> exists c' :: 0 <= c' < c && Concerns(group, changes[c'], ident)
      invariant forall path :: path in paths <==>
                  exists c' :: 0 <= c' < c && Concerns(group, changes[c'], ident)
                               && MatchingPath(group, changes[c']) == Some(path)
    {
      var change := changes[c];
      var path := MatchingPath(group, change);
      if path.None? {
        continue;
      }
      if group.symbols == [] {
        matched := true;
        paths := paths + {path.value};
        continue;
      }
      match change.hunk
      case Available(text) =>
        if AnySymbol(group.symbols, text, ident) {
          matched := true;
          paths := paths + {path.value};
        }
      case Unavailable(_) =>
        matched := true;
        paths := paths + {path.value};
    }
  }

  method MatchContractsForChanges(contracts: seq<Contract>, changes: seq<Change>, ident: CharTest)
    returns (relevant: seq<Contract>, matchedPaths: set<string>)
    ensures relevant == RelevantContracts(contracts, changes, ident)
    ensures forall path :: path in matchedPaths <==>
              exists k :: 0 <= k < |contracts| && contracts[k].active
                          && ReachedBy(contracts[k], changes, path, ident)
  {
    relevant, matchedPaths := [], {};
    for k := 0 to |contracts|
      invariant relevant == RelevantContracts(contracts[..k], changes, ident)
      invariant forall path :: path in matchedPaths <==>
                  exists k' :: 0 <= k' < k && contracts[k'].active
                               && ReachedBy(contracts[k'], changes, path, ident)
    {
      assert contracts[..k + 1][..k] == contracts[..k];
      if contracts[k].active {
        var matched, paths := MatchContract(contracts[k], changes, ident);
        if matched {
          matchedPaths := matchedPaths + paths;
          relevant := relevant + [contracts[k]];
        }
      }
    }
    assert contracts[..|contracts|] == contracts;
  }

  // ---------------------------------------------------------------- which contracts, and through which paths

  /** The path itself, or any path that begins with the selector's text. */
  predicate IsUnder(selector: PathSelector, path: string) {
    || (selector.Exact? && path == selector.value)
    || (selector.Prefix? && |selector.value| <= |path| && path[..|selector.value|] == selector.value)
  }

  /** A change with an inspectable hunk passes when the selector has no symbols or one of them stands in the hunk. */
  predicate PassesSymbols(symbols: seq<string>, hunk: Hunk, ident: CharTest) {
    || symbols == [] || hunk.Unavailable?
    || exists k :: 0 <= k < |symbols| && ContainsLiteralToken(hunk.text, symbols[k], ident)
  }

  predicate IsPathOf(change: Change, path: string) {
    path == change.path || Some(path) == change.previous
  }

  /** A contract is relevant exactly when it is active and a change of a selected path, new or previous, passes its symbols. */
  lemma RelevantIff(contract: Contract, changes: seq<Change>, ident: CharTest)
    ensures Relevant(contract, changes, ident) <==>
            contract.active
            && exists g, c, path :: 0 <= g < |contract.selectors| && 0 <= c < |changes| && IsPathOf(changes[c], path)
                                    && IsUnder(contract.selectors[g].path, path)
                                    && PassesSymbols(contract.selectors[g].symbols, changes[c].hunk, ident)
  {
    if Relevant(contract, changes, ident) {
      var g :| 0 <= g < |contract.selectors| && GroupTouched(contract.selectors[g], changes, ident);
      var c :| 0 <= c < |changes| && Concerns(contract.selectors[g], changes[c], ident);
      var path := MatchingPath(contract.selectors[g], changes[c]).value;
      assert IsPathOf(changes[c], path) && IsUnder(contract.selectors[g].path, path);
    }
    forall g, c, path | 0 <= g < |contract.selectors| && 0 <= c < |changes| && IsPathOf(changes[c], path)
                        && IsUnder(contract.selectors[g].path, path)
                        && PassesSymbols(contract.selectors[g].symbols, changes[c].hunk, ident)
      ensures GroupTouched(contract.selectors[g], changes, ident)
    {
      assert Concerns(contract.selectors[g], changes[c], ident);
    }
  }

  /** It is reached through the new path of such a change, or through the previous one when only that is selected. */
  lemma ReachedIff(contract: Contract, changes: seq<Change>, path: string, ident: CharTest)
    ensures ReachedBy(contract, changes, path, ident) <==>
            exists g, c :: 0 <= g < |contract.selectors| && 0 <= c < |changes|
                           && IsReachedThrough(contract.selectors[g], changes[c], path)
                           && PassesSymbols(contract.selectors[g].symbols, changes[c].hunk, ident)
  {
    forall g | 0 <= g < |contract.selectors|
      ensures GroupReaches(contract.selectors[g], changes, path, ident) <==>
              exists c :: 0 <= c < |changes| && IsReachedThrough(contract.selectors[g], changes[c], path)
                          && PassesSymbols(contract.selectors[g].symbols, changes[c].hunk, ident)
    {
      forall c | 0 <= c < |changes|
        ensures Concerns(contract.selectors[g], changes[c], ident) && MatchingPath(contract.selectors[g], changes[c]) == Some(path)
                <==> IsReachedThrough(contract.selectors[g], changes[c], path)
                     && PassesSymbols(contract.selectors[g].symbols, changes[c].hunk, ident)
      {
        ThroughIff(contract.selectors[g], changes[c], path);
      }
    }
  }

  predicate IsReachedThrough(group: SelectorGroup, change: Change, path: string) {
    || (path == change.path && IsUnder(group.path, path))
    || (!IsUnder(group.path, change.path) && Some(path) == change.previous && IsUnder(group.path, path))
  }

  lemma ThroughIff(group: SelectorGroup, change: Change, path: string)
    ensures MatchingPath(group, change) == Some(path) <==> IsReachedThrough(group, change, path)
  {
  }

  /** The relevant contracts are listed in their order, each as often as it is given. */
  lemma {:induction false} RelevantOneByOne(before: seq<Contract>, contract: Contract, rest: seq<Contract>,
                                            changes: seq<Change>, ident: CharTest)
    ensures RelevantContracts(before + [contract] + rest, changes, ident)
         == RelevantContracts(before, changes, ident) + (if Relevant(contract, changes, ident) then [contract] else [])
            + RelevantContracts(rest, changes, ident)
    decreases |rest|
  {
    var all := before + [contract] + rest;
    if rest == [] {
      assert all == before + [contract] && all[..|all| - 1] == before;
    } else {
      var init := rest[..|rest| - 1];
      assert all[..|all| - 1] == before + [contract] + init;
      RelevantOneByOne(before, contract, init, changes, ident);
    }
  }

  // ---------------------------------------------------------------- merged and uninspectable changes

  ghost predicate UsableSymbols(group: SelectorGroup) {
    forall k :: 0 <= k < |group.symbols| ==> group.symbols[k] != "" && '\n' !in group.symbols[k]
  }

  /**
   Folding a committed and a dirty diff of one file into a single change, as the check does,
   leaves every selector's verdict unchanged.
   */
  lemma MergedChangeConcernsSameGroups(group: SelectorGroup, a: Change, b: Change, ident: CharTest)
    requires a.path == b.path && a.previous == b.previous
    requires UsableSymbols(group) && !ident('\n')
    ensures Concerns(group, a.(hunk := MergeChangedHunks(a.hunk, b.hunk)), ident)
        <==> Concerns(group, a, ident) || Concerns(group, b, ident)
  {
    if a.hunk.Available? && b.hunk.Available? {
      forall k | 0 <= k < |group.symbols|
        ensures ContainsLiteralToken(MergeChangedHunks(a.hunk, b.hunk).text, group.symbols[k], ident)
            <==> ContainsLiteralToken(a.hunk.text, group.symbols[k], ident)
                 || ContainsLiteralToken(b.hunk.text, group.symbols[k], ident)
      {
        MergedHunkKeepsTokens(a.hunk.text, b.hunk.text, group.symbols[k], ident);
      }
    }
  }

  /** Losing the hunks of any changes never hides a contract: the hook's fallback is conservative. */
  lemma UninspectableChangesAreConservative(contract: Contract, changes: seq<Change>, blind: seq<Change>, ident: CharTest)
    requires |blind| == |changes|
    requires forall c :: 0 <= c < |changes| ==>
               blind[c] == changes[c] || exists reason :: blind[c] == changes[c].(hunk := Unavailable(reason))
    ensures Relevant(contract, changes, ident) ==> Relevant(contract, blind, ident)
    ensures forall path :: ReachedBy(contract, changes, path, ident) ==> ReachedBy(contract, blind, path, ident)
  {
    forall g | 0 <= g < |contract.selectors|
      ensures GroupTouched(contract.selectors[g], changes, ident) ==> GroupTouched(contract.selectors[g], blind, ident)
      ensures forall path :: GroupReaches(contract.selectors[g], changes, path, ident)
                             ==> GroupReaches(contract.selectors[g], blind, path, ident)
    {
      var group := contract.selectors[g];
      assert forall c :: 0 <= c < |changes| && Concerns(group, changes[c], ident) ==>
                           Concerns(group, blind[c], ident)
                           && MatchingPath(group, blind[c]) == MatchingPath(group, changes[c]);
    }
  }
}
