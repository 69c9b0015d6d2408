/**
 The argv parser and the shell quoter of `src/hook/tool_evidence.rs`. The parser's loop is
 proved against a character machine; the machine is proved to accept exactly the command
 lines of a declarative word grammar, and to invert the quoter on every argv.
 */
module ShellArgv {
  import opened Characters
  import opened Wrappers

  // ---------------------------------------------------------------- characters

  /** Unquoted characters that a shell would interpret. */
  predicate IsMeta(c: char) {
    c == ';' || c == '&' || c == '|' || c == '<' || c == '>' || c == '$' || c == '`' || c == '('
    || c == ')' || c == '#' || c == '*' || c == '?' || c == '[' || c == ']' || c == '{' || c == '}'
    || c == '~'
  }

  /** Characters that end the parse inside double quotes. */
  predicate IsDoubleQuoteMeta(c: char) {
    c == '$' || c == '`' || c == '\n' || c == '\r'
  }

  predicate IsAsciiAlphanumeric(c: char) {
    '0' <= c <= '9' || 'A' <= c <= 'Z' || 'a' <= c <= 'z'
  }

  predicate IsSafe(c: char) {
    IsAsciiAlphanumeric(c) || c == '_' || c == '.' || c == '/' || c == ':' || c == '@' || c == '%'
    || c == '+' || c == '=' || c == ',' || c == '-'
  }

  // ---------------------------------------------------------------- the parser

  datatype Quote = Unquoted | Single | Double

  datatype Machine =
    | Reading(argv: seq<string>, current: string, quote: Quote, escaped: bool, started: bool)
    | Rejected

  const START := Reading([], "", Unquoted, false, false)

  function Push(m: Machine, c: char): Machine
    requires m.Reading?
  {
    m.(current := m.current + [c], started := true, escaped := false)
  }

  function Step(m: Machine, c: char): Machine {
    if m.Rejected? then Rejected
    else if m.escaped then Push(m, c)
    else match m.quote
      case Single =>
        if c == '\'' then m.(quote := Unquoted) else Push(m, c)
      case Double =>
        if c == '\"' then m.(quote := Unquoted)
        else if c == '\\' then m.(escaped := true)
        else if IsDoubleQuoteMeta(c) then Rejected
        else Push(m, c)
      case Unquoted =>
        if c == '\'' then m.(quote := Single, started := true)
        else if c == '\"' then m.(quote := Double, started := true)
        else if c == '\\' then m.(escaped := true)
        else if IsWhitespace(c) then
          if m.started then m.(argv := m.argv + [m.current], current := "", started := false) else m
        else if IsMeta(c) then Rejected
        else Push(m, c)
  }

  function Run(m: Machine, s: string): Machine
    decreases |s|
  {
    if s == "" then m else Run(Step(m, s[0]), s[1..])
  }

  function Finish(m: Machine): Option<seq<string>> {
    if m.Rejected? || m.escaped || m.quote != Unquoted then None
    else
      var argv := if m.started then m.argv + [m.current] else m.argv;
      if argv == [] then None else Some(argv)
  }

  function Parse(command: string): Option<seq<string>> {
    Finish(Run(START, command))
  }

  method ParseSimpleArgv(command: string) returns (result: Option<seq<string>>)
    ensures result == Parse(command)
  {
    var argv: seq<string> := [];
    var current: string := "";
    var quote := Unquoted;
    var escaped, started := false, false;
    var i := 0;
    while i < |command|
      invariant 0 <= i <= |command|
      invariant Run(START, command) == Run(Reading(argv, current, quote, escaped, started), command[i..])
    {
      var character := command[i];
      ghost var rest := command[i..];
      assert rest[0] == character && rest[1..] == command[i + 1..];
      i := i + 1;
      if escaped {
        current := current + [character];
        started := true;
        escaped := false;
        continue;
      }
      match quote
      case Single =>
        if character == '\'' {
          quote := Unquoted;
        } else {
          current := current + [character];
          started := true;
        }
      case Double =>
        if character == '\"' {
          quote := Unquoted;
        } else if character == '\\' {
          escaped := true;
        } else if IsDoubleQuoteMeta(character) {
          RejectedStays(command[i..]);
          return None;
        } else {
          current := current + [character];
          started := true;
        }
      case Unquoted =>
        if character == '\'' {
          quote := Single;
          started := true;
        } else if character == '\"' {
          quote := Double;
          started := true;
        } else if character == '\\' {
          escaped := true;
        } else if IsWhitespace(character) {
          if started {
            argv := argv + [current];
            current := "";
            started := false;
          }
        } else if IsMeta(character) {
          RejectedStays(command[i..]);
          return None;
        } else {
          current := current + [character];
          started := true;
        }
    }
    if escaped || quote != Unquoted {
      return None;
    }
    if started {
      argv := argv + [current];
    }
    return if argv == [] then None else Some(argv);
  }

  lemma {:induction false} RejectedStays(s: string)
    ensures Run(Rejected, s) == Rejected
    decreases |s|
  {
    if s != "" {
      RejectedStays(s[1..]);
    }
  }

  lemma {:induction false} RunConcat(m: Machine, a: string, b: string)
    ensures Run(m, a + b) == Run(Run(m, a), b)
    decreases |a|
  {
    if a == "" {
      assert a + b == b;
    } else {
      assert (a + b)[0] == a[0] && (a + b)[1..] == a[1..] + b;
      RunConcat(Step(m, a[0]), a[1..], b);
    }
  }

  lemma RunOne(m: Machine, a: char)
    ensures Run(m, [a]) == Step(m, a)
  {
    assert [a][1..] == "";
  }

  lemma RunTwo(m: Machine, a: char, b: char)
    ensures Run(m, [a, b]) == Step(Step(m, a), b)
  {
    assert [a, b][1..] == [b];
    RunOne(Step(m, a), b);
  }

  // ---------------------------------------------------------------- the quoter

  function ReplaceQuotes(word: string): string {
    if word == "" then ""
    else (if word[0] == '\'' then "'\\''" else [word[0]]) + ReplaceQuotes(word[1..])
  }

  predicate AllSafe(word: string) {
    forall i :: 0 <= i < |word| ==> IsSafe(word[i])
  }

  function ShellDisplayWord(word: string): string {
    if word != "" && AllSafe(word) then word else "'" + ReplaceQuotes(word) + "'"
  }

  function Display(argv: seq<string>): string {
    if argv == [] then ""
    else if |argv| == 1 then ShellDisplayWord(argv[0])
    else ShellDisplayWord(argv[0]) + " " + Display(argv[1..])
  }

  /** Between words: nothing pending. */
  function Between(argv: seq<string>): Machine {
    Reading(argv, "", Unquoted, false, false)
  }

  lemma {:induction false} RunSafe(argv: seq<string>, done: string, word: string, started: bool)
    requires AllSafe(word)
    ensures Run(Reading(argv, done, Unquoted, false, started), word)
         == Reading(argv, done + word, Unquoted, false, started || word != "")
    decreases |word|
  {
    if word == "" {
      assert done + word == done;
    } else {
      assert IsSafe(word[0]);
      RunSafe(argv, done + [word[0]], word[1..], true);
      assert done + [word[0]] + word[1..] == done + word;
    }
  }

  lemma {:induction false} RunEscapedQuotes(argv: seq<string>, done: string, word: string)
    ensures Run(Reading(argv, done, Single, false, true), ReplaceQuotes(word))
         == Reading(argv, done + word, Single, false, true)
    decreases |word|
  {
    var m := Reading(argv, done, Single, false, true);
    if word == "" {
      assert done + word == done;
    } else {
      var head := if word[0] == '\'' then "'\\''" else [word[0]];
      var next := Reading(argv, done + [word[0]], Single, false, true);
      assert Run(m, head) == next by {
        if word[0] == '\'' {
          assert head[1..] == "\\''" && "\\''"[1..] == "''" && "''"[1..] == "'" && "'"[1..] == "";
        } else {
          assert head[1..] == "";
        }
      }
      RunConcat(m, head, ReplaceQuotes(word[1..]));
      RunEscapedQuotes(argv, done + [word[0]], word[1..]);
      assert done + [word[0]] + word[1..] == done + word;
    }
  }

  /** One quoted word, of any characters, is read back as that word. */
  lemma RunDisplayWord(argv: seq<string>, word: string)
    ensures Run(Between(argv), ShellDisplayWord(word)) == Reading(argv, word, Unquoted, false, true)
  {
    if word != "" && AllSafe(word) {
      RunSafe(argv, "", word, false);
      assert "" + word == word;
    } else {
      var body := ReplaceQuotes(word);
      var open := Reading(argv, "", Single, false, true);
      assert Run(Between(argv), "'") == open by {
        assert "'"[1..] == "";
      }
      RunConcat(Between(argv), "'", body + "'");
      assert "'" + body + "'" == "'" + (body + "'");
      RunConcat(open, body, "'");
      RunEscapedQuotes(argv, "", word);
      assert "" + word == word;
      assert "'"[1..] == "";
    }
  }

  lemma RunDisplayWordAndSpace(argv: seq<string>, word: string)
    ensures Run(Between(argv), ShellDisplayWord(word) + " ") == Between(argv + [word])
  {
    RunDisplayWord(argv, word);
    RunConcat(Between(argv), ShellDisplayWord(word), " ");
    RunOne(Reading(argv, word, Unquoted, false, true), ' ');
  }

  lemma {:induction false} RunDisplay(argv: seq<string>, words: seq<string>)
    requires words != []
    ensures Finish(Run(Between(argv), Display(words))) == Some(argv + words)
    decreases |words|
  {
    if |words| == 1 {
      RunDisplayWord(argv, words[0]);
      assert words == [words[0]];
    } else {
      var next := argv + [words[0]];
      RunDisplayWordAndSpace(argv, words[0]);
      RunConcat(Between(argv), ShellDisplayWord(words[0]) + " ", Display(words[1..]));
      RunDisplay(next, words[1..]);
      assert next + words[1..] == argv + words;
    }
  }

  /** Parsing the displayed form of any non-empty argv gives back exactly that argv. */
  lemma ParseInvertsDisplay(argv: seq<string>)
    requires argv != []
    ensures Parse(Display(argv)) == Some(argv)
  {
    RunDisplay([], argv);
    assert [] + argv == argv;
  }

  // ---------------------------------------------------------------- the accepted language

  datatype Quoted = Plain(c: char) | Escape(c: char)

  datatype Token =
    | Space(c: char)
    | Bare(c: char)
    | Escaped(c: char)
    | SingleQuoted(body: string)
    | DoubleQuoted(items: seq<Quoted>)

  /** Inside double quotes: what ends them, what escapes, what a shell would expand and the ends of lines. */
  const SPECIAL_IN_QUOTES: set<char> := {'\"', '\\', '$', '`', '\n', '\r'}

  /** Outside quotes: the operators, expansions, patterns and comments of a shell. */
  const SHELL_SYNTAX: set<char> :=
    {';', '&', '|', '<', '>', '$', '`', '(', ')', '#', '*', '?', '[', ']', '{', '}', '~'}

  ghost predicate WellFormedItem(q: Quoted) {
    q.Plain? ==> q.c !in SPECIAL_IN_QUOTES
  }

  ghost predicate WellFormed(t: Token) {
    match t
    case Space(c) => IsWhitespace(c)
    case Bare(c) => !IsWhitespace(c) && c !in SHELL_SYNTAX && c != '\'' && c != '\"' && c != '\\'
    case Escaped(_) => true
    case SingleQuoted(body) => '\'' !in body
    case DoubleQuoted(items) => forall i :: 0 <= i < |items| ==> WellFormedItem(items[i])
  }

  ghost predicate WellFormedLine(line: seq<Token>) {
    forall i :: 0 <= i < |line| ==> WellFormed(line[i])
  }

  ghost function RenderItems(items: seq<Quoted>): string {
    if items == [] then ""
    else (if items[0].Plain? then [items[0].c] else ['\\', items[0].c]) + RenderItems(items[1..])
  }

  ghost function Render(t: Token): string {
    match t
    case Space(c) => [c]
    case Bare(c) => [c]
    case Escaped(c) => ['\\', c]
    case SingleQuoted(body) => "'" + body + "'"
    case DoubleQuoted(items) => "\"" + RenderItems(items) + "\""
  }

  ghost function RenderLine(line: seq<Token>): string {
    if line == [] then "" else Render(line[0]) + RenderLine(line[1..])
  }

  ghost function ItemText(items: seq<Quoted>): string {
    if items == [] then "" else [items[0].c] + ItemText(items[1..])
  }

  /** The characters a token contributes to its word. */
  ghost function Text(t: Token): string {
    match t
    case Space(_) => ""
    case Bare(c) => [c]
    case Escaped(c) => [c]
    case SingleQuoted(body) => body
    case DoubleQuoted(items) => ItemText(items)
  }

  /** The words a line denotes: maximal runs of non-space tokens. `open` is a word begun before. */
  ghost function Words(line: seq<Token>, open: Option<string>): seq<string> {
    if line == [] then (if open.Some? then [open.value] else [])
    else if line[0].Space? then (if open.Some? then [open.value] else []) + Words(line[1..], None)
    else Words(line[1..], Some((if open.Some? then open.value else "") + Text(line[0])))
  }

  ghost function Opened(argv: seq<string>, open: Option<string>): Machine {
    if open.Some? then Reading(argv, open.value, Unquoted, false, true) else Between(argv)
  }

  ghost function Append(open: Option<string>, text: string): Option<string> {
    Some((if open.Some? then open.value else "") + text)
  }

  lemma {:induction false} RunSingleBody(argv: seq<string>, done: string, body: string)
    requires '\'' !in body
    ensures Run(Reading(argv, done, Single, false, true), body)
         == Reading(argv, done + body, Single, false, true)
    decreases |body|
  {
    if body == "" {
      assert done + body == done;
    } else {
      assert body[0] != '\'';
      RunSingleBody(argv, done + [body[0]], body[1..]);
      assert done + [body[0]] + body[1..] == done + body;
    }
  }

  lemma {:induction false} RunDoubleBody(argv: seq<string>, done: string, items: seq<Quoted>)
    requires forall i :: 0 <= i < |items| ==> WellFormedItem(items[i])
    ensures Run(Reading(argv, done, Double, false, true), RenderItems(items))
         == Reading(argv, done + ItemText(items), Double, false, true)
    decreases |items|
  {
    var m := Reading(argv, done, Double, false, true);
    if items == [] {
      assert done + "" == done;
    } else {
      var c := items[0].c;
      assert WellFormedItem(items[0]);
      var head := if items[0].Plain? then [c] else ['\\', c];
      assert Run(m, head) == Reading(argv, done + [c], Double, false, true) by {
        RunOne(m, c);
        RunTwo(m, '\\', c);
      }
      RunConcat(m, head, RenderItems(items[1..]));
      RunDoubleBody(argv, done + [c], items[1..]);
      assert done + [c] + ItemText(items[1..]) == done + ([c] + ItemText(items[1..]));
    }
  }

  lemma RunSingleQuoted(argv: seq<string>, open: Option<string>, body: string)
    requires '\'' !in body
    ensures Run(Opened(argv, open), "'" + (body + "'")) == Opened(argv, Append(open, body))
  {
    var m := Opened(argv, open);
    var done := if open.Some? then open.value else "";
    var rendered := "'" + (body + "'");
    assert rendered[0] == '\'' && rendered[1..] == body + "'";
    RunConcat(Step(m, '\''), body, "'");
    RunSingleBody(argv, done, body);
    RunOne(Reading(argv, done + body, Single, false, true), '\'');
  }

  lemma RunDoubleQuoted(argv: seq<string>, open: Option<string>, items: seq<Quoted>)
    requires forall i :: 0 <= i < |items| ==> WellFormedItem(items[i])
    ensures Run(Opened(argv, open), "\"" + (RenderItems(items) + "\"")) == Opened(argv, Append(open, ItemText(items)))
  {
    var m := Opened(argv, open);
    var done := if open.Some? then open.value else "";
    var rendered := "\"" + (RenderItems(items) + "\"");
    assert rendered[0] == '\"' && rendered[1..] == RenderItems(items) + "\"";
    RunConcat(Step(m, '\"'), RenderItems(items), "\"");
    RunDoubleBody(argv, done, items);
    RunOne(Reading(argv, done + ItemText(items), Double, false, true), '\"');
  }

  lemma RunToken(argv: seq<string>, open: Option<string>, t: Token)
    requires WellFormed(t) && !t.Space?
    ensures Run(Opened(argv, open), Render(t)) == Opened(argv, Append(open, Text(t)))
  {
    var m := Opened(argv, open);
    match t
    case Bare(c) => RunOne(m, c);
    case Escaped(c) => RunTwo(m, '\\', c);
    case SingleQuoted(body) =>
      assert Render(t) == "'" + (body + "'");
      RunSingleQuoted(argv, open, body);
    case DoubleQuoted(items) =>
      assert Render(t) == "\"" + (RenderItems(items) + "\"");
      RunDoubleQuoted(argv, open, items);
  }

  ghost function Flush(open: Option<string>): seq<string> {
    if open.Some? then [open.value] else []
  }

  lemma RunSpace(argv: seq<string>, open: Option<string>, c: char)
    requires IsWhitespace(c)
    ensures Run(Opened(argv, open), [c]) == Between(argv + Flush(open))
  {
    RunOne(Opened(argv, open), c);
    if open.None? {
      assert argv + Flush(open) == argv;
    }
  }

  /** Where the machine is after one token, and the words still to come. */
  lemma RunHead(argv: seq<string>, open: Option<string>, line: seq<Token>)
    requires line != [] && WellFormed(line[0])
    ensures var (argv', open') := AfterToken(argv, open, line[0]);
            && Run(Opened(argv, open), Render(line[0])) == Opened(argv', open')
            && argv + Words(line, open) == argv' + Words(line[1..], open')
  {
    var t := line[0];
    if t.Space? {
      RunSpace(argv, open, t.c);
      assert argv + (Flush(open) + Words(line[1..], None)) == argv + Flush(open) + Words(line[1..], None);
    } else {
      RunToken(argv, open, t);
    }
  }

  ghost function AfterToken(argv: seq<string>, open: Option<string>, t: Token): (seq<string>, Option<string>) {
    if t.Space? then (argv + Flush(open), None) else (argv, Append(open, Text(t)))
  }

  /** A rendered line is accepted, and the argv is what the line denotes. */
  lemma {:induction false} RunLine(argv: seq<string>, open: Option<string>, line: seq<Token>)
    requires WellFormedLine(line)
    ensures var all := argv + Words(line, open);
            Finish(Run(Opened(argv, open), RenderLine(line))) == if all == [] then None else Some(all)
    decreases |line|
  {
    if line == [] {
      assert argv + Words(line, open) == argv + Flush(open);
      assert argv + [] == argv;
    } else {
      assert WellFormed(line[0]);
      var (argv', open') := AfterToken(argv, open, line[0]);
      RunHead(argv, open, line);
      RunConcat(Opened(argv, open), Render(line[0]), RenderLine(line[1..]));
      RunLine(argv', open', line[1..]);
    }
  }

  lemma {:induction false} SingleQuoteCloses(argv: seq<string>, done: string, s: string) returns (n: nat)
    requires Finish(Run(Reading(argv, done, Single, false, true), s)).Some?
    ensures n < |s| && s[n] == '\'' && '\'' !in s[..n]
    decreases |s|
  {
    if s[0] == '\'' {
      n := 0;
    } else {
      n := SingleQuoteCloses(argv, done + [s[0]], s[1..]);
      n := n + 1;
      assert s[..n] == [s[0]] + s[1..][..n - 1];
    }
  }

  lemma {:induction false} DoubleQuoteCloses(argv: seq<string>, done: string, s: string)
    returns (items: seq<Quoted>)
    requires Finish(Run(Reading(argv, done, Double, false, true), s)).Some?
    ensures forall i :: 0 <= i < |items| ==> WellFormedItem(items[i])
    ensures RenderItems(items) + "\"" <= s
    decreases |s|
  {
    var m := Reading(argv, done, Double, false, true);
    if s[0] == '\"' {
      items := [];
    } else if s[0] == '\\' {
      assert |s| > 1;
      assert s == s[..2] + s[2..];
      RunConcat(m, s[..2], s[2..]);
      assert s[..2] == [s[0], s[1]];
      RunTwo(m, s[0], s[1]);
      var tail := DoubleQuoteCloses(argv, done + [s[1]], s[2..]);
      items := [Escape(s[1])] + tail;
    } else if IsDoubleQuoteMeta(s[0]) {
      RejectedStays(s[1..]);
      assert false;
    } else {
      var tail := DoubleQuoteCloses(argv, done + [s[0]], s[1..]);
      items := [Plain(s[0])] + tail;
    }
  }

  /** The first token of a non-empty command line that is not rejected. */
  lemma FirstToken(argv: seq<string>, open: Option<string>, s: string) returns (t: Token)
    requires s != "" && Finish(Run(Opened(argv, open), s)).Some?
    ensures WellFormed(t) && Render(t) <= s
  {
    var c := s[0];
    var done := if open.Some? then open.value else "";
    if c == '\'' {
      var n := SingleQuoteCloses(argv, done, s[1..]);
      t := SingleQuoted(s[1..][..n]);
    } else if c == '\"' {
      var items := DoubleQuoteCloses(argv, done, s[1..]);
      t := DoubleQuoted(items);
      assert Render(t) == ['\"'] + (RenderItems(items) + "\"");
    } else if c == '\\' {
      assert |s| > 1;
      t := Escaped(s[1]);
    } else if IsWhitespace(c) {
      t := Space(c);
    } else if IsMeta(c) {
      RejectedStays(s[1..]);
      assert false;
    } else {
      t := Bare(c);
    }
  }

  /** Every accepted command line is the rendering of some well-formed line. */
  lemma {:induction false} Tokenize(argv: seq<string>, open: Option<string>, s: string)
    returns (line: seq<Token>)
    requires Finish(Run(Opened(argv, open), s)).Some?
    ensures WellFormedLine(line) && RenderLine(line) == s
    decreases |s|
  {
    if s == "" {
      line := [];
    } else {
      var t := FirstToken(argv, open, s);
      var rest := s[|Render(t)|..];
      assert s == Render(t) + rest;
      RunConcat(Opened(argv, open), Render(t), rest);
      RunHead(argv, open, [t]);
      var (argv', open') := AfterToken(argv, open, t);
      var tail := Tokenize(argv', open', rest);
      line := [t] + tail;
    }
  }

  /** A well-formed line is accepted with its words, unless it has none. */
  lemma ParseOfLine(line: seq<Token>)
    requires WellFormedLine(line)
    ensures Parse(RenderLine(line)) == if Words(line, None) == [] then None else Some(Words(line, None))
  {
    RunLine([], None, line);
    assert [] + Words(line, None) == Words(line, None);
  }

  ghost predicate IsLineOf(line: seq<Token>, command: string, argv: seq<string>) {
    WellFormedLine(line) && RenderLine(line) == command && Words(line, None) == argv && argv != []
  }

  /** The parser accepts exactly the non-empty lines of the word grammar, with their words. */
  lemma ParseAcceptsExactlyTheGrammar(command: string, argv: seq<string>)
    ensures Parse(command) == Some(argv) <==> exists line :: IsLineOf(line, command, argv)
  {
    if Parse(command) == Some(argv) {
      var line := Tokenize([], None, command);
      ParseOfLine(line);
      assert IsLineOf(line, command, argv);
    }
    forall line | IsLineOf(line, command, argv)
      ensures Parse(command) == Some(argv)
    {
      ParseOfLine(line);
    }
  }

  // ---------------------------------------------------------------- what is refused, and what needs no quotes

  /** After a well-formed line the machine stands outside quotes. */
  lemma {:induction false} RunWellFormed(argv: seq<string>, open: Option<string>, line: seq<Token>)
    returns (words: seq<string>, last: Option<string>)
    requires WellFormedLine(line)
    ensures Run(Opened(argv, open), RenderLine(line)) == Opened(words, last)
    decreases |line|
  {
    if line == [] {
      words, last := argv, open;
    } else {
      assert WellFormed(line[0]);
      var (argv', open') := AfterToken(argv, open, line[0]);
      RunHead(argv, open, line);
      RunConcat(Opened(argv, open), Render(line[0]), RenderLine(line[1..]));
      words, last := RunWellFormed(argv', open', line[1..]);
    }
  }

  lemma RejectedAfter(m: Machine, before: string, c: char, rest: string)
    requires Step(Run(m, before), c) == Rejected
    ensures Run(m, before + ([c] + rest)) == Rejected
  {
    RunConcat(m, before, [c] + rest);
    RunConcat(Run(m, before), [c], rest);
    RunOne(Run(m, before), c);
    RejectedStays(rest);
  }

  /** Shell syntax outside quotes refuses the command, whatever comes before and after it. */
  lemma ShellSyntaxIsRefused(line: seq<Token>, c: char, rest: string)
    requires WellFormedLine(line) && c in SHELL_SYNTAX
    ensures Parse(RenderLine(line) + ([c] + rest)) == None
  {
    var words, last := RunWellFormed([], None, line);
    RejectedAfter(START, RenderLine(line), c, rest);
  }

  /** An expansion or the end of a line inside double quotes refuses it too. */
  lemma QuotedExpansionIsRefused(line: seq<Token>, items: seq<Quoted>, c: char, rest: string)
    requires WellFormedLine(line) && forall i :: 0 <= i < |items| ==> WellFormedItem(items[i])
    requires c in {'$', '`', '\n', '\r'}
    ensures Parse(RenderLine(line) + ("\"" + RenderItems(items)) + ([c] + rest)) == None
  {
    var words, last := RunWellFormed([], None, line);
    var quoted := "\"" + RenderItems(items);
    var done := if last.Some? then last.value else "";
    RunConcat(START, RenderLine(line), quoted);
    assert quoted[0] == '\"' && quoted[1..] == RenderItems(items);
    RunDoubleBody(words, done, items);
    RejectedAfter(START, RenderLine(line) + quoted, c, rest);
  }

  predicate IsPlainCharacter(c: char) {
    'a' <= c <= 'z' || 'A' <= c <= 'Z' || '0' <= c <= '9' || c in {'_', '.', '/', ':', '@', '%', '+', '=', ',', '-'}
  }

  lemma {:induction false} ReplaceQuotesGrows(word: string)
    ensures |ReplaceQuotes(word)| >= |word|
  {
    if word != "" {
      ReplaceQuotesGrows(word[1..]);
    }
  }

  /** A word is displayed as it is exactly when it is not empty and has only letters, digits and these ten characters. */
  lemma DisplayedAsItIsIff(word: string)
    ensures ShellDisplayWord(word) == word <==> word != "" && forall i :: 0 <= i < |word| ==> IsPlainCharacter(word[i])
  {
    assert AllSafe(word) <==> forall i :: 0 <= i < |word| ==> IsPlainCharacter(word[i]);
    ReplaceQuotesGrows(word);
    assert |"'" + ReplaceQuotes(word) + "'"| > |word|;
  }

  // ---------------------------------------------------------------- normalized commands

  datatype TestCommand = TestCommand(program: string, args: seq<string>)

  /** `isValidation` stands for the table of recognised test programs. */
  function Normalize(command: string, isValidation: (string, seq<string>) -> bool): Option<TestCommand> {
    var argv := Parse(command);
    if argv.None? then None
    else
      var (program, args) := (argv.value[0], argv.value[1..]);
      if '=' in program || !isValidation(program, args) then None
      else Some(TestCommand(program, args))
  }

  /** A test command is a parsed argv whose program is no assignment and is recognised with these arguments. */
  lemma NormalizeIff(command: string, isValidation: (string, seq<string>) -> bool, normal: TestCommand)
    ensures Normalize(command, isValidation) == Some(normal) <==>
            && (exists line :: IsLineOf(line, command, [normal.program] + normal.args))
            && '=' !in normal.program && isValidation(normal.program, normal.args)
  {
    var argv := [normal.program] + normal.args;
    ParseAcceptsExactlyTheGrammar(command, argv);
    if Parse(command).Some? {
      ParseOnlyGivesWords(command);
      assert Parse(command).value == [Parse(command).value[0]] + Parse(command).value[1..];
    }
  }

  lemma ParseOnlyGivesWords(command: string)
    requires Parse(command).Some?
    ensures Parse(command).value != []
  {
  }

  /** Normalizing the displayed form of a normalized command changes nothing. */
  lemma NormalizeIsStableUnderDisplay(command: string, isValidation: (string, seq<string>) -> bool)
    requires Normalize(command, isValidation).Some?
    ensures var normal := Normalize(command, isValidation).value;
            Normalize(Display([normal.program] + normal.args), isValidation) == Some(normal)
  {
    var normal := Normalize(command, isValidation).value;
    ParseInvertsDisplay([normal.program] + normal.args);
  }

  /** Two argvs with the same displayed form are the same argv. */
  lemma DisplayIsInjective(a: seq<string>, b: seq<string>)
    requires a != [] && b != [] && Display(a) == Display(b)
    ensures a == b
  {
    ParseInvertsDisplay(a);
    ParseInvertsDisplay(b);
  }
}
