/** Splitting a command line into arguments (internal/cli/guided_try.go,
    `parseGuidedArgv`): a quote and escape state machine, the grammar it accepts,
    and printers it inverts. */
module ArgvTokenizer {
  import opened Prelude

  /** The two Unicode classes the tokenizer consults. */
  datatype Classes = Classes(isSpace: char -> bool, isControl: char -> bool) {
    /** The few entries the results depend on. */
    ghost predicate Standard() {
      && isSpace(' ') && Allowed(' ')
      && Allowed('\\') && Allowed('\'') && Allowed('"')
      && !isSpace('\\') && !isSpace('\'') && !isSpace('"')
    }

    predicate Allowed(c: char) {
      c != '\U{FFFD}' && c != '\0' && c != '\r' && c != '\n' && !isControl(c)
    }

    /** TrimSpace leaves nothing. */
    predicate Blank(s: string) {
      forall i :: 0 <= i < |s| ==> isSpace(s[i])
    }
  }

  datatype Error = CommandRequired | InvalidControl | EmptyArgument | Unterminated

  datatype Result<T> = Ok(value: T) | Err(error: Error)

  // ---------------------------------------------------------------------------
  // The state machine
  // ---------------------------------------------------------------------------

  datatype Quote = Unquoted | Single | Double

  datatype State = State(arguments: seq<string>, current: string, quote: Quote, escaped: bool, started: bool)

  const START := State([], "", Unquoted, false, false)

  function Flush(st: State): Result<State> {
    if !st.started || st.current == "" then Err(EmptyArgument)
    else Ok(st.(arguments := st.arguments + [st.current], current := "", started := false))
  }

  function Step(u: Classes, st: State, c: char): Result<State> {
    if !u.Allowed(c) then Err(InvalidControl)
    else if st.escaped then Ok(st.(current := st.current + [c], started := true, escaped := false))
    else if c == '\\' && st.quote != Single then Ok(st.(escaped := true, started := true))
    else if st.quote != Unquoted then
      if c == (if st.quote == Single then '\'' else '"') then Ok(st.(quote := Unquoted, started := true))
      else Ok(st.(current := st.current + [c], started := true))
    else if c == '\'' then Ok(st.(quote := Single, started := true))
    else if c == '"' then Ok(st.(quote := Double, started := true))
    else if u.isSpace(c) then
      if st.started then Flush(st) else Ok(st)
    else Ok(st.(current := st.current + [c], started := true))
  }

  function Run(u: Classes, st: State, s: string): Result<State>
    decreases |s|
  {
    if s == "" then Ok(st)
    else
      match Step(u, st, s[0])
      case Err(e) => Err(e)
      case Ok(next) => Run(u, next, s[1..])
  }

  function Finish(st: State): Result<seq<string>> {
    if st.escaped || st.quote != Unquoted then Err(Unterminated)
    else if st.started then
      match Flush(st)
      case Err(e) => Err(e)
      case Ok(done) => Ok(done.arguments)
    else if st.arguments == [] then Err(CommandRequired)
    else Ok(st.arguments)
  }

  function FinishRun(r: Result<State>): Result<seq<string>> {
    match r
    case Err(e) => Err(e)
    case Ok(st) => Finish(st)
  }

  function Parse(u: Classes, input: string): Result<seq<string>> {
    if u.Blank(input) then Err(CommandRequired) else FinishRun(Run(u, START, input))
  }

  lemma RunStep(u: Classes, st: State, s: string)
    requires s != ""
    ensures Run(u, st, s) ==
            if Step(u, st, s[0]).Err? then Err(Step(u, st, s[0]).error) else Run(u, Step(u, st, s[0]).value, s[1..])
  {
  }

  method ParseGuidedArgv(u: Classes, input: string) returns (result: Result<seq<string>>)
    ensures result == Parse(u, input)
  {
    hide Run;
    if u.Blank(input) {
      return Err(CommandRequired);
    }
    var arguments: seq<string> := [];
    var current := "";
    var quote := Unquoted;
    var escaped, started := false, false;
    assert input[0..] == input;
    for k := 0 to |input|
      invariant Run(u, State(arguments, current, quote, escaped, started), input[k..]) == Run(u, START, input)
    {
      var character := input[k];
      RunStep(u, State(arguments, current, quote, escaped, started), input[k..]);
      assert input[k..][1..] == input[k + 1..];
      if !u.Allowed(character) {
        return Err(InvalidControl);
      }
      if escaped {
        current, started, escaped := current + [character], true, false;
        continue;
      }
      if character == '\\' && quote != Single {
        escaped, started := true, true;
        continue;
      }
      if quote != Unquoted {
        if character == (if quote == Single then '\'' else '"') {
          quote := Unquoted;
        } else {
          current := current + [character];
        }
        started := true;
        continue;
      }
      if character == '\'' {
        quote, started := Single, true;
        continue;
      }
      if character == '"' {
        quote, started := Double, true;
        continue;
      }
      if u.isSpace(character) {
        if started {
          if current == "" {
            return Err(EmptyArgument);
          }
          arguments, current, started := arguments + [current], "", false;
        }
        continue;
      }
      current, started := current + [character], true;
    }
    RunNothing(u, State(arguments, current, quote, escaped, started));
    assert input[|input|..] == "";
    if escaped || quote != Unquoted {
      return Err(Unterminated);
    }
    if started {
      if current == "" {
        return Err(EmptyArgument);
      }
      arguments := arguments + [current];
    }
    if |arguments| == 0 {
      return Err(CommandRequired);
    }
    return Ok(arguments);
  }

  lemma RunNothing(u: Classes, st: State)
    ensures Run(u, st, "") == Ok(st)
  {
  }

  // ---------------------------------------------------------------------------
  // The grammar
  // ---------------------------------------------------------------------------

  /** A character inside double quotes. */
  datatype Part = Literal(c: char) | Backslashed(c: char)

  datatype Token =
    | Gap(c: char)
    | Bare(c: char)
    | Escape(c: char)
    | SingleQuoted(s: string)
    | DoubleQuoted(parts: seq<Part>)

  predicate GoodPart(u: Classes, p: Part) {
    u.Allowed(p.c) && (p.Literal? ==> p.c != '"' && p.c != '\\')
  }

  predicate Special(c: char) {
    c == '\\' || c == '\'' || c == '"'
  }

  predicate Good(u: Classes, t: Token) {
    match t
    case Gap(c) => u.Allowed(c) && u.isSpace(c) && !Special(c)
    case Bare(c) => u.Allowed(c) && !u.isSpace(c) && !Special(c)
    case Escape(c) => u.Allowed(c)
    case SingleQuoted(s) => forall i :: 0 <= i < |s| ==> u.Allowed(s[i]) && s[i] != '\''
    case DoubleQuoted(parts) => forall i :: 0 <= i < |parts| ==> GoodPart(u, parts[i])
  }

  function PartText(p: Part): string {
    if p.Literal? then [p.c] else ['\\', p.c]
  }

  function PartsText(parts: seq<Part>): string {
    if parts == [] then "" else PartText(parts[0]) + PartsText(parts[1..])
  }

  function PartsMeaning(parts: seq<Part>): string {
    if parts == [] then "" else [parts[0].c] + PartsMeaning(parts[1..])
  }

  function TokenText(t: Token): string {
    match t
    case Gap(c) => [c]
    case Bare(c) => [c]
    case Escape(c) => ['\\', c]
    case SingleQuoted(s) => "'" + s + "'"
    case DoubleQuoted(parts) => "\"" + PartsText(parts) + "\""
  }

  function Meaning(t: Token): string {
    match t
    case Gap(_) => ""
    case Bare(c) => [c]
    case Escape(c) => [c]
    case SingleQuoted(s) => s
    case DoubleQuoted(parts) => PartsMeaning(parts)
  }

  function Text(tokens: seq<Token>): string {
    if tokens == [] then "" else TokenText(tokens[0]) + Text(tokens[1..])
  }

  /** The words the tokens spell after `current` of a word has been read; none if
      some word is empty. */
  function Words(tokens: seq<Token>, current: string, started: bool): Option<seq<string>>
    decreases |tokens|
  {
    if tokens == [] then
      if !started then Some([]) else if current == "" then None else Some([current])
    else if !tokens[0].Gap? then Words(tokens[1..], current + Meaning(tokens[0]), true)
    else if !started then Words(tokens[1..], "", false)
    else if current == "" then None
    else
      match Words(tokens[1..], "", false)
      case None => None
      case Some(rest) => Some([current] + rest)
  }

  ghost predicate AllGood(u: Classes, tokens: seq<Token>) {
    forall i :: 0 <= i < |tokens| ==> Good(u, tokens[i])
  }

  /** `tokens` is a reading of `input` as the words `arguments`. */
  ghost predicate Reads(u: Classes, tokens: seq<Token>, input: string, arguments: seq<string>) {
    AllGood(u, tokens) && Text(tokens) == input && Words(tokens, "", false) == Some(arguments)
  }

  // ---------------------------------------------------------------------------
  // Every reading is what the machine computes
  // ---------------------------------------------------------------------------

  /** A state between tokens. */
  predicate Outside(st: State) {
    st.quote == Unquoted && !st.escaped && (!st.started ==> st.current == "")
  }

  lemma {:induction false} RunQuoted(u: Classes, st: State, s: string, rest: string)
    requires u.Standard() && st.quote == Single && !st.escaped && st.started
    requires forall i :: 0 <= i < |s| ==> u.Allowed(s[i]) && s[i] != '\''
    ensures Run(u, st, s + "'" + rest) == Run(u, st.(current := st.current + s, quote := Unquoted), rest)
    decreases |s|
  {
    var t := s + "'" + rest;
    RunStep(u, st, t);
    hide Run;
    if s == "" {
      assert t[1..] == rest && t[0] == '\'';
      assert st.current + s == st.current;
    } else {
      assert t[0] == s[0] && t[1..] == s[1..] + "'" + rest;
      RunQuoted(u, st.(current := st.current + [s[0]]), s[1..], rest);
      assert st.current + [s[0]] + s[1..] == st.current + s;
    }
  }

  lemma {:induction false} RunParts(u: Classes, st: State, parts: seq<Part>, rest: string)
    requires u.Standard() && st.quote == Double && !st.escaped && st.started
    requires forall i :: 0 <= i < |parts| ==> GoodPart(u, parts[i])
    ensures Run(u, st, PartsText(parts) + "\"" + rest) ==
            Run(u, st.(current := st.current + PartsMeaning(parts), quote := Unquoted), rest)
    decreases |parts|
  {
    var t := PartsText(parts) + "\"" + rest;
    if parts == [] {
      RunStep(u, st, t);
      assert t[1..] == rest && t[0] == '"';
      assert st.current + "" == st.current;
      return;
    }
    var p, tail := parts[0], PartsText(parts[1..]) + "\"" + rest;
    var next := st.(current := st.current + [p.c]);
    FirstPart(st, p, parts[1..], rest);
    assert [p] + parts[1..] == parts;
    RunPart(u, st, p, tail);
    hide Run;
    hide PartText;
    RunParts(u, next, parts[1..], rest);
  }

  lemma FirstPart(st: State, first: Part, more: seq<Part>, rest: string)
    ensures var parts := [first] + more;
      && PartText(first) + (PartsText(more) + "\"" + rest) == PartsText(parts) + "\"" + rest
      && st.current + [first.c] + PartsMeaning(more) == st.current + PartsMeaning(parts)
  {
    assert ([first] + more)[1..] == more && ([first] + more)[0] == first;
    Regroup(PartText(first), PartsText(more), "\"" + rest);
    Regroup(PartText(first) + PartsText(more), "\"", rest);
    Regroup(PartsText(more), "\"", rest);
    Regroup(st.current, [first.c], PartsMeaning(more));
    hide PartText;
  }

  lemma RunPart(u: Classes, st: State, p: Part, tail: string)
    requires u.Standard() && st.quote == Double && !st.escaped && st.started && GoodPart(u, p)
    ensures Run(u, st, PartText(p) + tail) == Run(u, st.(current := st.current + [p.c]), tail)
  {
    var t := PartText(p) + tail;
    RunStep(u, st, t);
    if p.Literal? {
      assert t[1..] == tail;
    } else {
      assert t[0] == '\\' && t[1..] == [p.c] + tail;
      RunStep(u, st.(escaped := true), [p.c] + tail);
      assert ([p.c] + tail)[1..] == tail;
    }
  }

  /** What one token does to a state between tokens. */
  function Feed(st: State, t: Token): State
    requires t.Gap? ==> !(st.started && st.current == "")
  {
    if !t.Gap? then st.(current := st.current + Meaning(t), started := true)
    else if st.started then st.(arguments := st.arguments + [st.current], current := "", started := false)
    else st
  }

  lemma RunToken(u: Classes, st: State, t: Token, rest: string)
    requires u.Standard() && Outside(st) && Good(u, t)
    ensures t.Gap? && st.started && st.current == "" ==> Run(u, st, TokenText(t) + rest) == Err(EmptyArgument)
    ensures !(t.Gap? && st.started && st.current == "") ==> Run(u, st, TokenText(t) + rest) == Run(u, Feed(st, t), rest)
  {
    if t.Escape? {
      RunEscape(u, st, t.c, rest);
    } else if t.SingleQuoted? {
      RunSingle(u, st, t.s, rest);
    } else if t.DoubleQuoted? {
      RunDouble(u, st, t.parts, rest);
    } else {
      var s := TokenText(t) + rest;
      RunStep(u, st, s);
      hide Run;
      assert s[0] == t.c && s[1..] == rest;
    }
  }

  lemma QuotedText(q: string, text: string, rest: string)
    requires |q| == 1
    ensures var s := q + text + q + rest; s[0] == q[0] && s[1..] == text + q + rest
  {
  }

  lemma RunSingle(u: Classes, st: State, q: string, rest: string)
    requires u.Standard() && Outside(st) && Good(u, SingleQuoted(q))
    ensures Run(u, st, TokenText(SingleQuoted(q)) + rest) == Run(u, st.(current := st.current + q, started := true), rest)
  {
    var s := TokenText(SingleQuoted(q)) + rest;
    RunStep(u, st, s);
    hide Run;
    QuotedText("'", q, rest);
    RunQuoted(u, st.(quote := Single, started := true), q, rest);
  }

  lemma RunDouble(u: Classes, st: State, parts: seq<Part>, rest: string)
    requires u.Standard() && Outside(st) && Good(u, DoubleQuoted(parts))
    ensures Run(u, st, TokenText(DoubleQuoted(parts)) + rest) ==
            Run(u, st.(current := st.current + PartsMeaning(parts), started := true), rest)
  {
    var s := TokenText(DoubleQuoted(parts)) + rest;
    RunStep(u, st, s);
    hide Run;
    hide PartsText;
    hide PartsMeaning;
    QuotedText("\"", PartsText(parts), rest);
    RunParts(u, st.(quote := Double, started := true), parts, rest);
  }

  lemma RunEscape(u: Classes, st: State, c: char, rest: string)
    requires u.Standard() && Outside(st) && u.Allowed(c)
    ensures Run(u, st, ['\\', c] + rest) == Run(u, st.(current := st.current + [c], started := true), rest)
  {
    var s := ['\\', c] + rest;
    RunStep(u, st, s);
    assert s[0] == '\\' && s[1..] == [c] + rest;
    RunStep(u, st.(escaped := true, started := true), [c] + rest);
    assert ([c] + rest)[1..] == rest;
  }

  function WithWords(arguments: seq<string>, words: Option<seq<string>>): Result<seq<string>> {
    if words.None? then Err(EmptyArgument)
    else if arguments + words.value == [] then Err(CommandRequired)
    else Ok(arguments + words.value)
  }

  lemma NoTokens(st: State)
    requires Outside(st)
    ensures Finish(st) == WithWords(st.arguments, Words([], st.current, st.started))
  {
    assert st.arguments + [] == st.arguments;
  }

  /** Feeding a token and then reading the rest is reading both. */
  lemma WordsStep(st: State, tokens: seq<Token>)
    requires Outside(st) && tokens != []
    requires !(tokens[0].Gap? && st.started && st.current == "")
    ensures var next := Feed(st, tokens[0]);
      Outside(next) && WithWords(st.arguments, Words(tokens, st.current, st.started)) ==
                       WithWords(next.arguments, Words(tokens[1..], next.current, next.started))
  {
    hide Meaning;
    if tokens[0].Gap? && st.started {
      var words := Words(tokens[1..], "", false);
      if words.Some? {
        assert st.arguments + [st.current] + words.value == st.arguments + ([st.current] + words.value);
      }
    }
  }

  lemma {:induction false} RunTokens(u: Classes, st: State, tokens: seq<Token>)
    requires u.Standard() && Outside(st) && AllGood(u, tokens)
    ensures FinishRun(Run(u, st, Text(tokens))) == WithWords(st.arguments, Words(tokens, st.current, st.started))
    decreases |tokens|
  {
    if tokens == [] {
      NoTokens(st);
      return;
    }
    var t, rest := tokens[0], tokens[1..];
    RunToken(u, st, t, Text(rest));
    if !(t.Gap? && st.started && st.current == "") {
      WordsStep(st, tokens);
      hide Run;
      hide Good;
      hide TokenText;
      hide Words;
      hide WithWords;
      hide Feed;
      RunTokens(u, Feed(st, t), rest);
    }
  }

  // ---------------------------------------------------------------------------
  // Everything the machine accepts has a reading
  // ---------------------------------------------------------------------------

  predicate Closed(r: Result<State>) {
    r.Ok? && r.value.quote == Unquoted && !r.value.escaped
  }

  /** An accepted text inside single quotes reaches its closing quote. */
  lemma {:induction false} FindClose(u: Classes, st: State, s: string) returns (k: nat)
    requires st.quote == Single && !st.escaped && st.started && Closed(Run(u, st, s))
    ensures k < |s| && s[k] == '\'' && (forall i :: 0 <= i < k ==> u.Allowed(s[i]) && s[i] != '\'')
    ensures Run(u, st, s) == Run(u, st.(current := st.current + s[..k], quote := Unquoted), s[k + 1..])
    decreases |s|
  {
    RunStep(u, st, s);
    if s[0] == '\'' {
      assert st.current + s[..0] == st.current;
      return 0;
    }
    var next := st.(current := st.current + [s[0]]);
    k := FindClose(u, next, s[1..]);
    assert s[..k + 1] == [s[0]] + s[1..][..k];
    assert next.current + s[1..][..k] == st.current + s[..k + 1];
    assert s[1..][k + 1..] == s[k + 2..];
    k := k + 1;
  }

  /** An accepted text inside double quotes is a list of parts and a closing quote. */
  lemma {:induction false} FindParts(u: Classes, st: State, s: string) returns (parts: seq<Part>, rest: string)
    requires st.quote == Double && !st.escaped && st.started && Closed(Run(u, st, s))
    ensures s == PartsText(parts) + "\"" + rest && (forall i :: 0 <= i < |parts| ==> GoodPart(u, parts[i]))
    ensures Run(u, st, s) == Run(u, st.(current := st.current + PartsMeaning(parts), quote := Unquoted), rest)
    decreases |s|
  {
    RunStep(u, st, s);
    if s[0] == '"' {
      assert st.current + "" == st.current;
      assert s == "" + "\"" + s[1..];
      return [], s[1..];
    }
    var first, tail;
    if s[0] == '\\' {
      RunStep(u, st.(escaped := true), s[1..]);
      first, tail := Backslashed(s[1]), s[2..];
      assert s[1..][1..] == tail && s[1..][0] == s[1];
    } else {
      first, tail := Literal(s[0]), s[1..];
    }
    hide Run;
    assert s == PartText(first) + tail;
    var next := st.(current := st.current + [first.c]);
    var more;
    more, rest := FindParts(u, next, tail);
    parts := [first] + more;
    FirstPart(st, first, more, rest);
  }

  /** What it takes for `t` to be the first token of an accepted text. */
  ghost predicate StartsWith(u: Classes, st: State, s: string, t: Token, rest: string) {
    && Good(u, t) && s == TokenText(t) + rest && |rest| < |s|
    && !(t.Gap? && st.started && st.current == "")
    && Run(u, st, s) == Run(u, Feed(st, t), rest)
  }

  lemma FirstEscape(u: Classes, st: State, s: string)
    requires Outside(st) && s != "" && s[0] == '\\' && Closed(Run(u, st, s))
    ensures |s| > 1 && StartsWith(u, st, s, Escape(s[1]), s[2..])
  {
    RunStep(u, st, s);
    RunStep(u, st.(escaped := true, started := true), s[1..]);
    assert s[1..][1..] == s[2..];
  }

  lemma {:induction false} FirstSingle(u: Classes, st: State, s: string) returns (t: Token, rest: string)
    requires Outside(st) && s != "" && s[0] == '\'' && Closed(Run(u, st, s))
    ensures StartsWith(u, st, s, t, rest)
  {
    RunStep(u, st, s);
    var inner := s[1..];
    var k := FindClose(u, st.(quote := Single, started := true), inner);
    hide Run;
    t, rest := SingleQuoted(inner[..k]), inner[k + 1..];
    SplitQuoted(s, k);
  }

  lemma SplitQuoted(s: string, k: nat)
    requires s != "" && s[0] == '\'' && k + 1 < |s| && s[k + 1] == '\''
    ensures s == "'" + s[1..][..k] + "'" + s[1..][k + 1..]
  {
  }

  lemma {:induction false} FirstDouble(u: Classes, st: State, s: string) returns (t: Token, rest: string)
    requires Outside(st) && s != "" && s[0] == '"' && Closed(Run(u, st, s))
    ensures StartsWith(u, st, s, t, rest)
  {
    RunStep(u, st, s);
    var parts;
    parts, rest := FindParts(u, st.(quote := Double, started := true), s[1..]);
    hide Run;
    t := DoubleQuoted(parts);
    assert s == "\"" + s[1..];
    assert s == TokenText(t) + rest;
  }

  /** The first token of an accepted text. */
  lemma FirstToken(u: Classes, st: State, s: string) returns (t: Token, rest: string)
    requires Outside(st) && s != "" && Closed(Run(u, st, s))
    ensures StartsWith(u, st, s, t, rest)
  {
    var c := s[0];
    if c == '\\' {
      FirstEscape(u, st, s);
      return Escape(s[1]), s[2..];
    } else if c == '\'' {
      t, rest := FirstSingle(u, st, s);
    } else if c == '"' {
      t, rest := FirstDouble(u, st, s);
    } else {
      RunStep(u, st, s);
      t, rest := if u.isSpace(c) then Gap(c) else Bare(c), s[1..];
      assert s == TokenText(t) + rest;
    }
  }

  lemma {:induction false} Tokenize(u: Classes, st: State, s: string) returns (tokens: seq<Token>)
    requires u.Standard() && Outside(st) && Closed(Run(u, st, s))
    ensures AllGood(u, tokens) && Text(tokens) == s
    decreases |s|
  {
    if s == "" {
      return [];
    }
    var t, rest := FirstToken(u, st, s);
    hide Run;
    hide Good;
    hide TokenText;
    hide Feed;
    FeedOutside(st, t);
    var more := Tokenize(u, Feed(st, t), rest);
    tokens := [t] + more;
    assert tokens[1..] == more;
  }

  lemma FeedOutside(st: State, t: Token)
    requires Outside(st) && !(t.Gap? && st.started && st.current == "")
    ensures Outside(Feed(st, t))
  {
  }

  lemma {:induction false} BlankTokens(u: Classes, tokens: seq<Token>)
    requires u.Standard() && AllGood(u, tokens) && u.Blank(Text(tokens))
    ensures Words(tokens, "", false) == Some([])
    decreases |tokens|
  {
    if tokens != [] {
      var text := Text(tokens);
      assert Good(u, tokens[0]) && text[0] == TokenText(tokens[0])[0] && u.isSpace(text[0]);
      var rest := Text(tokens[1..]);
      assert tokens[0].Gap?;
      assert rest == text[1..];
      BlankTokens(u, tokens[1..]);
    }
  }

  /** The tokenizer accepts exactly the grammar: it returns `arguments` if and only
      if some reading of the input spells them, none of them empty. */
  lemma ParsesItsGrammar(u: Classes, input: string, arguments: seq<string>)
    requires u.Standard()
    ensures Parse(u, input) == Ok(arguments) <==>
            arguments != [] && exists tokens :: Reads(u, tokens, input, arguments)
  {
    hide Run;
    hide Words;
    hide Good;
    hide Text;
    if Parse(u, input) == Ok(arguments) {
      var tokens := Tokenize(u, START, input);
      RunTokens(u, START, tokens);
      var words := Words(tokens, "", false);
      assert words.Some? && [] + words.value == words.value;
      assert Reads(u, tokens, input, arguments);
    }
    if tokens :| arguments != [] && Reads(u, tokens, input, arguments) {
      RunTokens(u, START, tokens);
      if u.Blank(input) {
        BlankTokens(u, tokens);
      }
      assert [] + arguments == arguments;
    }
  }

  // ---------------------------------------------------------------------------
  // Consequences
  // ---------------------------------------------------------------------------

  lemma {:induction false} TextAppend(a: seq<Token>, b: seq<Token>)
    ensures Text(a + b) == Text(a) + Text(b)
    decreases |a|
  {
    if a == [] {
      assert a + b == b;
    } else {
      assert (a + b)[1..] == a[1..] + b;
      TextAppend(a[1..], b);
    }
  }

  lemma {:induction false} WordsAppend(a: seq<Token>, gap: Token, b: seq<Token>, current: string, started: bool)
    requires gap.Gap? && Words(a, current, started).Some? && Words(b, "", false).Some? && (!started ==> current == "")
    ensures Words(a + [gap] + b, current, started) ==
            Some(Words(a, current, started).value + Words(b, "", false).value)
    decreases |a|
  {
    var all := a + [gap] + b;
    if a == [] {
      assert all == [gap] + b && all[1..] == b;
      assert [] + Words(b, "", false).value == Words(b, "", false).value;
    } else {
      assert all[0] == a[0] && all[1..] == a[1..] + [gap] + b;
      if !a[0].Gap? {
        WordsAppend(a[1..], gap, b, current + Meaning(a[0]), true);
      } else {
        WordsAppend(a[1..], gap, b, "", false);
        if started {
          assert [current] + Words(a[1..], "", false).value + Words(b, "", false).value ==
                 [current] + (Words(a[1..], "", false).value + Words(b, "", false).value);
        }
      }
    }
  }

  lemma {:induction false} JoinReadings(u: Classes, a: seq<Token>, x: string, v: seq<string>, b: seq<Token>, y: string, w: seq<string>)
    requires u.Standard() && Reads(u, a, x, v) && Reads(u, b, y, w)
    ensures Reads(u, a + [Gap(' ')] + b, x + " " + y, v + w)
  {
    var gap := Gap(' ');
    WordsAppend(a, gap, b, "", false);
    TextAppend(a + [gap], b);
    TextAppend(a, [gap]);
    assert [gap][1..] == [] && Text([gap]) == " ";
  }

  /** Two command lines joined by a space give their arguments one after the other. */
  lemma JoinedLines(u: Classes, x: string, y: string)
    requires u.Standard() && Parse(u, x).Ok? && Parse(u, y).Ok?
    ensures Parse(u, x + " " + y) == Ok(Parse(u, x).value + Parse(u, y).value)
  {
    hide Parse;
    hide Reads;
    var v, w := Parse(u, x).value, Parse(u, y).value;
    ParsesItsGrammar(u, x, v);
    ParsesItsGrammar(u, y, w);
    var a :| Reads(u, a, x, v);
    var b :| Reads(u, b, y, w);
    JoinReadings(u, a, x, v, b, y, w);
    ParsesItsGrammar(u, x + " " + y, v + w);
  }

  /** `a` can be had from `b` by deleting characters. */
  predicate Subsequence(a: string, b: string)
    decreases |b|
  {
    if a == "" then true
    else if b == "" then false
    else if a[0] == b[0] && Subsequence(a[1..], b[1..]) then true
    else Subsequence(a, b[1..])
  }

  lemma {:induction false} SubsequenceEmpty(b: string)
    ensures Subsequence("", b)
  {
  }

  lemma {:induction false} SubsequenceSkip(a: string, c: string, b: string)
    requires Subsequence(a, b)
    ensures Subsequence(a, c + b)
    decreases |c|
  {
    if c == "" {
      assert c + b == b;
    } else {
      SubsequenceSkip(a, c[1..], b);
      assert (c + b)[1..] == c[1..] + b;
    }
  }

  lemma {:induction false} SubsequenceKeep(c: string, a: string, b: string)
    requires Subsequence(a, b)
    ensures Subsequence(c + a, c + b)
    decreases |c|
  {
    if c == "" {
      assert c + a == a && c + b == b;
    } else {
      SubsequenceKeep(c[1..], a, b);
      assert (c + a)[1..] == c[1..] + a && (c + b)[1..] == c[1..] + b;
    }
  }

  lemma {:induction false} PartsSubsequence(parts: seq<Part>, a: string, b: string)
    requires Subsequence(a, b)
    ensures Subsequence(PartsMeaning(parts) + a, PartsText(parts) + b)
    decreases |parts|
  {
    hide Subsequence;
    if parts == [] {
      assert "" + a == a && "" + b == b;
      return;
    }
    PartsSubsequence(parts[1..], a, b);
    PartSubsequence(parts[0], PartsMeaning(parts[1..]) + a, PartsText(parts[1..]) + b);
    hide PartText;
    Regroup([parts[0].c], PartsMeaning(parts[1..]), a);
    Regroup(PartText(parts[0]), PartsText(parts[1..]), b);
  }

  lemma PartSubsequence(p: Part, a: string, b: string)
    requires Subsequence(a, b)
    ensures Subsequence([p.c] + a, PartText(p) + b)
  {
    hide Subsequence;
    SubsequenceKeep([p.c], a, b);
    if p.Backslashed? {
      SubsequenceSkip([p.c] + a, "\\", [p.c] + b);
      assert "\\" + ([p.c] + b) == PartText(p) + b;
    }
  }

  lemma TokenSubsequence(t: Token, a: string, b: string)
    requires Subsequence(a, b)
    ensures Subsequence(Meaning(t) + a, TokenText(t) + b)
  {
    hide Subsequence;
    if t.Gap? {
      SubsequenceSkip(a, [t.c], b);
      assert "" + a == a;
    } else if t.Bare? {
      SubsequenceKeep([t.c], a, b);
    } else if t.Escape? {
      SubsequenceKeep([t.c], a, b);
      SubsequenceSkip([t.c] + a, "\\", [t.c] + b);
      assert TokenText(t) + b == "\\" + ([t.c] + b);
    } else if t.SingleQuoted? {
      SubsequenceSkip(a, "'", b);
      SubsequenceKeep(t.s, a, "'" + b);
      Quoted("'", t.s, t.s + a, b);
    } else {
      SubsequenceSkip(a, "\"", b);
      PartsSubsequence(t.parts, a, "\"" + b);
      Quoted("\"", PartsText(t.parts), PartsMeaning(t.parts) + a, b);
    }
  }

  lemma Quoted(q: string, text: string, a: string, b: string)
    requires Subsequence(a, text + (q + b))
    ensures Subsequence(a, q + text + q + b)
  {
    SubsequenceSkip(a, q, text + (q + b));
    assert q + (text + (q + b)) == q + text + q + b;
  }

  /** The words spelled by tokens, after `current`, add a subsequence of the text. */
  ghost predicate AddsFrom(words: seq<string>, current: string, text: string) {
    exists rest :: Concat(words) == current + rest && Subsequence(rest, text)
  }

  lemma AddsAfterToken(words: seq<string>, current: string, t: Token, text: string)
    requires AddsFrom(words, current + Meaning(t), text)
    ensures AddsFrom(words, current, TokenText(t) + text)
  {
    hide Subsequence;
    hide Concat;
    hide Meaning;
    hide TokenText;
    var rest :| Concat(words) == current + Meaning(t) + rest && Subsequence(rest, text);
    TokenSubsequence(t, rest, text);
    Regroup(current, Meaning(t), rest);
  }

  lemma AddsAfterWord(words: seq<string>, current: string, t: Token, text: string)
    requires AddsFrom(words, "", text) && t.Gap?
    ensures AddsFrom([current] + words, current, TokenText(t) + text)
    ensures AddsFrom(words, "", TokenText(t) + text)
  {
    hide Subsequence;
    var rest :| Concat(words) == "" + rest && Subsequence(rest, text);
    SubsequenceSkip(rest, TokenText(t), text);
    assert ([current] + words)[1..] == words && "" + rest == rest;
    assert Concat([current] + words) == current + rest;
  }

  lemma {:induction false} WordsSubsequence(tokens: seq<Token>, current: string, started: bool)
    requires Words(tokens, current, started).Some? && (!started ==> current == "")
    ensures AddsFrom(Words(tokens, current, started).value, current, Text(tokens))
    decreases |tokens|
  {
    if tokens == [] {
      SubsequenceEmpty("");
      var words := Words(tokens, current, started).value;
      assert words == [] || words[1..] == [];
      assert Concat(words) == current + "";
      return;
    }
    hide Subsequence;
    var t, after := tokens[0], tokens[1..];
    if !t.Gap? {
      WordsSubsequence(after, current + Meaning(t), true);
      AddsAfterToken(Words(after, current + Meaning(t), true).value, current, t, Text(after));
    } else {
      WordsSubsequence(after, "", false);
      AddsAfterWord(Words(after, "", false).value, current, t, Text(after));
    }
  }

  /** Nothing is invented or reordered: the arguments' characters are an in-order
      subsequence of the input's. */
  lemma ArgumentsComeFromInput(u: Classes, input: string)
    requires u.Standard() && Parse(u, input).Ok?
    ensures Subsequence(Concat(Parse(u, input).value), input)
  {
    var arguments := Parse(u, input).value;
    ParsesItsGrammar(u, input, arguments);
    hide Parse;
    var tokens :| Reads(u, tokens, input, arguments);
    WordsSubsequence(tokens, "", false);
    var rest :| Concat(arguments) == "" + rest && Subsequence(rest, Text(tokens));
    assert "" + rest == rest;
  }

  lemma {:induction false} RunVisits(u: Classes, st: State, s: string)
    ensures Run(u, st, s).Ok? ==> forall i :: 0 <= i < |s| ==> u.Allowed(s[i])
    ensures Run(u, st, s) == Err(InvalidControl) ==> exists i :: 0 <= i < |s| && !u.Allowed(s[i])
    ensures Run(u, st, s).Err? ==> Run(u, st, s).error in {InvalidControl, EmptyArgument}
    ensures Run(u, st, s).Ok? && (st.started || st.arguments != [] || !u.Blank(s)) ==>
      Run(u, st, s).value.started || Run(u, st, s).value.arguments != []
    decreases |s|
  {
    if s != "" {
      RunStep(u, st, s);
      hide Run;
      if Step(u, st, s[0]).Ok? {
        RunVisits(u, Step(u, st, s[0]).value, s[1..]);
        assert u.Blank(s[1..]) && u.isSpace(s[0]) ==> u.Blank(s);
      }
    }
  }

  /** A complete reading decides the result. */
  lemma ReadingDecides(u: Classes, input: string, tokens: seq<Token>)
    requires u.Standard() && AllGood(u, tokens) && Text(tokens) == input && !u.Blank(input)
    ensures Parse(u, input) == if Words(tokens, "", false).None? then Err(EmptyArgument) else Ok(Words(tokens, "", false).value)
  {
    RunVisits(u, START, input);
    hide Run;
    hide Words;
    RunTokens(u, START, tokens);
    var words := Words(tokens, "", false);
    assert words.Some? ==> [] + words.value == words.value;
  }

  // ---------------------------------------------------------------------------
  // Why parsing fails
  // ---------------------------------------------------------------------------

  /** What can be left open where a text ends. */
  datatype Tail =
    | DanglingBackslash
    | OpenSingle(s: string)
    | OpenDouble(parts: seq<Part>, backslash: bool)

  predicate GoodTail(u: Classes, tail: Tail) {
    match tail
    case DanglingBackslash => true
    case OpenSingle(s) => forall i :: 0 <= i < |s| ==> u.Allowed(s[i]) && s[i] != '\''
    case OpenDouble(parts, _) => forall i :: 0 <= i < |parts| ==> GoodPart(u, parts[i])
  }

  function TailText(tail: Tail): string {
    match tail
    case DanglingBackslash => "\\"
    case OpenSingle(s) => "'" + s
    case OpenDouble(parts, backslash) => "\"" + PartsText(parts) + if backslash then "\\" else ""
  }

  /** Every word that a gap ends has a character in it. */
  predicate Completed(tokens: seq<Token>, current: string, started: bool) {
    tokens == [] ||
    if !tokens[0].Gap? then Completed(tokens[1..], current + Meaning(tokens[0]), true)
    else !(started && current == "") && Completed(tokens[1..], "", false)
  }

  /** The last word has begun but has no character in it; the words before have. */
  predicate EndsEmpty(tokens: seq<Token>) {
    Completed(tokens, "", false) && Words(tokens, "", false).None?
  }

  /** `s` is the text of `tokens`, with `tail` left open. */
  ghost predicate Unfinished(u: Classes, s: string, tokens: seq<Token>, tail: Tail) {
    AllGood(u, tokens) && GoodTail(u, tail) && s == Text(tokens) + TailText(tail)
  }

  /** A reading of `s`, finished or not. */
  ghost predicate ReadBy(u: Classes, s: string, tokens: seq<Token>, tail: Option<Tail>) {
    if tail.Some? then Unfinished(u, s, tokens, tail.value) else AllGood(u, tokens) && s == Text(tokens)
  }

  /** Some reading of `s`, finished or not, has no empty word before its last. */
  ghost predicate ReadsOn(u: Classes, s: string) {
    exists tokens, tail :: ReadBy(u, s, tokens, tail) && Completed(tokens, "", false)
  }

  /** `s` ends in an open quote or escape, and has no empty word before it. */
  ghost predicate OpenAtEnd(u: Classes, s: string) {
    exists tokens, tail :: Unfinished(u, s, tokens, tail) && Completed(tokens, "", false)
  }

  /** After a text that reads on there is a forbidden character. */
  ghost predicate ForbiddenFirst(u: Classes, s: string) {
    exists k :: 0 <= k < |s| && !u.Allowed(s[k]) && ReadsOn(u, s[..k])
  }

  /** The first empty word comes before anything else that is wrong: at the end of
      the text, or before a space. */
  ghost predicate EmptyFirst(u: Classes, s: string) {
    exists tokens, rest :: EmptyBefore(u, s, tokens, rest)
  }

  ghost predicate EmptyBefore(u: Classes, s: string, tokens: seq<Token>, rest: string) {
    && AllGood(u, tokens) && EndsEmpty(tokens) && s == Text(tokens) + rest
    && (rest == "" || Good(u, Gap(rest[0])))
  }

  // What the machine does on each kind of text.

  /** The state after tokens none of which ends an empty word. */
  function FeedAll(st: State, tokens: seq<Token>): State
    requires Outside(st) && Completed(tokens, st.current, st.started)
    decreases |tokens|
  {
    if tokens == [] then st else FeedAll(Feed(st, tokens[0]), tokens[1..])
  }

  lemma CompletedStep(st: State, tokens: seq<Token>)
    requires Outside(st) && tokens != [] && Completed(tokens, st.current, st.started)
    ensures !(tokens[0].Gap? && st.started && st.current == "")
    ensures var next := Feed(st, tokens[0]);
      && Outside(next) && Completed(tokens[1..], next.current, next.started)
      && FeedAll(st, tokens) == FeedAll(next, tokens[1..])
  {
  }

  lemma {:induction false} RunFront(u: Classes, st: State, tokens: seq<Token>, rest: string)
    requires u.Standard() && Outside(st) && AllGood(u, tokens) && Completed(tokens, st.current, st.started)
    ensures Run(u, st, Text(tokens) + rest) == Run(u, FeedAll(st, tokens), rest)
    ensures Outside(FeedAll(st, tokens))
    decreases |tokens|
  {
    if tokens == [] {
      assert "" + rest == rest;
      return;
    }
    CompletedStep(st, tokens);
    var t, more := tokens[0], tokens[1..];
    Regroup(TokenText(t), Text(more), rest);
    RunToken(u, st, t, Text(more) + rest);
    hide Run;
    hide Good;
    hide TokenText;
    hide Completed;
    hide FeedAll;
    var next := Feed(st, t);
    hide Feed;
    RunFront(u, next, more, rest);
  }

  /** The last word is empty exactly if the state says so. */
  lemma {:induction false} EmptyAtEnd(st: State, tokens: seq<Token>)
    requires Outside(st) && Completed(tokens, st.current, st.started)
    ensures Words(tokens, st.current, st.started).None? <==> FeedAll(st, tokens).started && FeedAll(st, tokens).current == ""
    decreases |tokens|
  {
    if tokens != [] {
      CompletedStep(st, tokens);
      var next := Feed(st, tokens[0]);
      EmptyAtEnd(next, tokens[1..]);
      hide FeedAll;
      hide Completed;
    }
  }

  lemma {:induction false} RunOpenSingle(u: Classes, st: State, s: string)
    requires u.Standard() && st.quote == Single && !st.escaped
    requires forall i :: 0 <= i < |s| ==> u.Allowed(s[i]) && s[i] != '\''
    ensures Run(u, st, s).Ok? && Run(u, st, s).value.quote == Single
    decreases |s|
  {
    if s != "" {
      RunStep(u, st, s);
      hide Run;
      RunOpenSingle(u, st.(current := st.current + [s[0]], started := true), s[1..]);
    }
  }

  lemma {:induction false} RunOpenDouble(u: Classes, st: State, parts: seq<Part>, backslash: bool)
    requires u.Standard() && st.quote == Double && !st.escaped && st.started
    requires forall i :: 0 <= i < |parts| ==> GoodPart(u, parts[i])
    ensures var end := Run(u, st, PartsText(parts) + if backslash then "\\" else "");
      end.Ok? && end.value.quote == Double
    decreases |parts|
  {
    var last := if backslash then "\\" else "";
    if parts == [] {
      assert "" + last == last;
      if backslash {
        RunStep(u, st, last);
        RunNothing(u, st.(escaped := true));
        assert last[1..] == "";
      }
      return;
    }
    RunPart(u, st, parts[0], PartsText(parts[1..]) + last);
    Regroup(PartText(parts[0]), PartsText(parts[1..]), last);
    hide Run;
    hide PartText;
    RunOpenDouble(u, st.(current := st.current + [parts[0].c]), parts[1..], backslash);
  }

  /** A tail is open at its end. */
  lemma {:induction false} RunTail(u: Classes, st: State, tail: Tail)
    requires u.Standard() && Outside(st) && GoodTail(u, tail)
    ensures Run(u, st, TailText(tail)).Ok? && Finish(Run(u, st, TailText(tail)).value) == Err(Unterminated)
  {
    var s := TailText(tail);
    RunStep(u, st, s);
    match tail {
      case DanglingBackslash =>
        assert s[1..] == "";
        RunNothing(u, Step(u, st, '\\').value);
      case OpenSingle(q) =>
        hide Run;
        assert s[1..] == q;
        RunOpenSingle(u, Step(u, st, '\'').value, q);
      case OpenDouble(parts, backslash) =>
        hide Run;
        hide PartsText;
        assert s[1..] == PartsText(parts) + if backslash then "\\" else "";
        RunOpenDouble(u, Step(u, st, '"').value, parts, backslash);
    }
  }

  lemma {:induction false} RunConcat(u: Classes, st: State, a: string, b: string)
    ensures Run(u, st, a).Ok? ==> Run(u, st, a + b) == Run(u, Run(u, st, a).value, b)
    decreases |a|
  {
    if a == "" {
      assert a + b == b;
    } else {
      RunStep(u, st, a);
      RunStep(u, st, a + b);
      hide Run;
      assert (a + b)[1..] == a[1..] + b && (a + b)[0] == a[0];
      if Step(u, st, a[0]).Ok? {
        RunConcat(u, Step(u, st, a[0]).value, a[1..], b);
      }
    }
  }

  lemma NotBlank(u: Classes, s: string, i: nat)
    requires i < |s| && !u.isSpace(s[i])
    ensures !u.Blank(s)
  {
  }

  lemma OpenIsUnterminated(u: Classes, s: string)
    requires u.Standard() && OpenAtEnd(u, s)
    ensures Parse(u, s) == Err(Unterminated)
  {
    var tokens, tail :| Unfinished(u, s, tokens, tail) && Completed(tokens, "", false);
    RunFront(u, START, tokens, TailText(tail));
    RunTail(u, FeedAll(START, tokens), tail);
    hide Run;
    assert s[|Text(tokens)|] == TailText(tail)[0];
    NotBlank(u, s, |Text(tokens)|);
  }

  lemma RunReadsOn(u: Classes, s: string)
    requires u.Standard() && ReadsOn(u, s)
    ensures Run(u, START, s).Ok?
  {
    hide Run;
    var tokens, tail :| ReadBy(u, s, tokens, tail) && Completed(tokens, "", false);
    if tail.Some? {
      RunFront(u, START, tokens, TailText(tail.value));
      RunTail(u, FeedAll(START, tokens), tail.value);
    } else {
      RunFront(u, START, tokens, "");
      RunNothing(u, FeedAll(START, tokens));
      assert s + "" == s;
    }
  }

  lemma ForbiddenIsInvalid(u: Classes, s: string)
    requires u.Standard() && ForbiddenFirst(u, s) && !u.Blank(s)
    ensures Parse(u, s) == Err(InvalidControl)
  {
    hide Run;
    hide ReadsOn;
    var k :| 0 <= k < |s| && !u.Allowed(s[k]) && ReadsOn(u, s[..k]);
    var front, back := s[..k], s[k..];
    assert s == front + back && back[0] == s[k];
    hide Classes.Allowed;
    RunReadsOn(u, front);
    RunConcat(u, START, front, back);
    StopsAt(u, Run(u, START, front).value, back);
  }

  lemma StopsAt(u: Classes, st: State, s: string)
    requires s != "" && !u.Allowed(s[0])
    ensures Run(u, st, s) == Err(InvalidControl)
  {
  }

  lemma EmptyIsReported(u: Classes, s: string)
    requires u.Standard() && EmptyFirst(u, s) && !u.Blank(s)
    ensures Parse(u, s) == Err(EmptyArgument)
  {
    var tokens, rest :| EmptyBefore(u, s, tokens, rest);
    RunFront(u, START, tokens, rest);
    EmptyAtEnd(START, tokens);
    var st := FeedAll(START, tokens);
    if rest == "" {
      RunNothing(u, st);
    } else {
      RunStep(u, st, rest);
    }
    hide Run;
  }

  // Every text of allowed characters has a reading, finished or not.

  lemma {:induction false} ReadParts(u: Classes, s: string) returns (parts: seq<Part>, closed: bool, backslash: bool, rest: string)
    requires u.Standard() && forall i :: 0 <= i < |s| ==> u.Allowed(s[i])
    ensures forall i :: 0 <= i < |parts| ==> GoodPart(u, parts[i])
    ensures closed ==> s == PartsText(parts) + "\"" + rest
    ensures !closed ==> s == PartsText(parts) + if backslash then "\\" else ""
    decreases |s|
  {
    if s == "" {
      return [], false, false, "";
    } else if s[0] == '"' {
      assert s == "" + "\"" + s[1..];
      return [], true, false, s[1..];
    } else if s == "\\" {
      return [], false, true, "";
    }
    var first, tail;
    if s[0] == '\\' {
      assert |s| > 1;
      first, tail := Backslashed(s[1]), s[2..];
    } else {
      first, tail := Literal(s[0]), s[1..];
    }
    assert s == PartText(first) + tail;
    var more;
    more, closed, backslash, rest := ReadParts(u, tail);
    parts := [first] + more;
    assert parts[1..] == more;
  }

  /** The first token of an allowed text, or the tail it is. */
  lemma {:induction false} ReadOne(u: Classes, s: string) returns (t: Token, rest: string, tail: Option<Tail>)
    requires u.Standard() && s != "" && forall i :: 0 <= i < |s| ==> u.Allowed(s[i])
    ensures tail.None? ==> Good(u, t) && s == TokenText(t) + rest && |rest| < |s|
    ensures tail.Some? ==> GoodTail(u, tail.value) && s == TailText(tail.value)
  {
    hide PartsText;
    var c, inner := s[0], s[1..];
    t, rest, tail := Gap(' '), "", None;
    assert s == [c] + inner;
    if c == '\\' {
      if inner == "" {
        tail := Some(DanglingBackslash);
      } else {
        t, rest := Escape(inner[0]), inner[1..];
        assert inner == [inner[0]] + rest;
      }
    } else if c == '\'' {
      var k := PlainLength(inner);
      if k == |inner| {
        tail := Some(OpenSingle(inner));
      } else {
        t, rest := SingleQuoted(inner[..k]), inner[k + 1..];
        SplitQuoted(s, k);
      }
    } else if c == '"' {
      var parts, closed, backslash, more := ReadParts(u, inner);
      if closed {
        t, rest := DoubleQuoted(parts), more;
      } else {
        tail := Some(OpenDouble(parts, backslash));
      }
    } else {
      t, rest := if u.isSpace(c) then Gap(c) else Bare(c), inner;
    }
  }

  /** A text of allowed characters is read by tokens, up to a tail left open. */
  lemma {:induction false} AllowedTextReads(u: Classes, s: string) returns (tokens: seq<Token>, tail: Option<Tail>)
    requires u.Standard() && forall i :: 0 <= i < |s| ==> u.Allowed(s[i])
    ensures ReadBy(u, s, tokens, tail)
    decreases |s|
  {
    if s == "" {
      return [], None;
    }
    var t, rest;
    t, rest, tail := ReadOne(u, s);
    hide Good;
    hide GoodTail;
    hide TokenText;
    hide TailText;
    if tail.Some? {
      tokens := [];
      assert "" + s == s;
      return;
    }
    var more;
    assert forall i :: 0 <= i < |rest| ==> rest[i] == s[|TokenText(t)| + i];
    more, tail := AllowedTextReads(u, rest);
    tokens := [t] + more;
    assert tokens[1..] == more;
    if tail.Some? {
      Regroup(TokenText(t), Text(more), TailText(tail.value));
    }
  }

  /** Where the first empty word ends. */
  lemma {:induction false} FirstEmpty(tokens: seq<Token>, current: string, started: bool) returns (i: nat)
    requires !Completed(tokens, current, started)
    ensures i < |tokens| && tokens[i].Gap?
    ensures Completed(tokens[..i], current, started) && Words(tokens[..i], current, started).None?
    decreases |tokens|
  {
    var t, more := tokens[0], tokens[1..];
    if t.Gap? && started && current == "" {
      return 0;
    }
    if t.Gap? {
      i := FirstEmpty(more, "", false);
    } else {
      i := FirstEmpty(more, current + Meaning(t), true);
    }
    assert tokens[..i + 1][0] == t && tokens[..i + 1][1..] == more[..i];
    i := i + 1;
  }

  lemma {:induction false} NotCompleted(u: Classes, s: string, tokens: seq<Token>, end: string)
    requires AllGood(u, tokens) && !Completed(tokens, "", false) && s == Text(tokens) + end
    ensures EmptyFirst(u, s)
  {
    var i := FirstEmpty(tokens, "", false);
    hide Completed;
    hide Words;
    SplitText(tokens, i, end);
    hide Text;
    hide TokenText;
    assert Good(u, tokens[i]) && tokens[i] == Gap(tokens[i].c);
    hide Good;
    assert AllGood(u, tokens[..i]);
    assert EmptyBefore(u, s, tokens[..i], [tokens[i].c] + (Text(tokens[i + 1..]) + end));
  }

  lemma SplitText(tokens: seq<Token>, i: nat, end: string)
    requires i < |tokens| && tokens[i].Gap?
    ensures Text(tokens) + end == Text(tokens[..i]) + ([tokens[i].c] + (Text(tokens[i + 1..]) + end))
  {
    var front, back := tokens[..i], tokens[i..];
    assert tokens == front + back;
    TextAppend(front, back);
    assert Text(back) == [tokens[i].c] + Text(tokens[i + 1..]);
    Regroup(Text(front), Text(back), end);
    Regroup([tokens[i].c], Text(tokens[i + 1..]), end);
  }

  /** A reading of the text before position k, whose words are complete. */
  lemma ReadingEnds(u: Classes, s: string, k: nat, tokens: seq<Token>, tail: Option<Tail>)
    requires u.Standard() && !u.Blank(s) && k <= |s| && (k < |s| ==> !u.Allowed(s[k]))
    requires ReadBy(u, s[..k], tokens, tail) && Completed(tokens, "", false)
    ensures Parse(u, s).Ok? || OpenAtEnd(u, s) || ForbiddenFirst(u, s) || EmptyFirst(u, s)
  {
    hide Parse;
    hide Text;
    hide TailText;
    if k < |s| {
      assert ReadsOn(u, s[..k]);
    } else {
      assert s[..k] == s && s + "" == s;
      if tail.None? {
        ReadingDecides(u, s, tokens);
        assert EndsEmpty(tokens) ==> EmptyBefore(u, s, tokens, "");
      }
    }
  }

  /** A reading of the text before position k, some word of which is empty. */
  lemma ReadingBreaks(u: Classes, s: string, k: nat, tokens: seq<Token>, tail: Option<Tail>)
    requires k <= |s| && ReadBy(u, s[..k], tokens, tail) && !Completed(tokens, "", false)
    ensures EmptyFirst(u, s)
  {
    hide Completed;
    hide Text;
    hide TailText;
    hide Good;
    var open := if tail.Some? then TailText(tail.value) else "";
    assert s[..k] == Text(tokens) + open && s == s[..k] + s[k..];
    Regroup(Text(tokens), open, s[k..]);
    NotCompleted(u, s, tokens, open + s[k..]);
  }

  /** Nothing else can happen. */
  lemma FailuresAreAll(u: Classes, s: string)
    requires u.Standard() && !u.Blank(s)
    ensures Parse(u, s).Ok? || OpenAtEnd(u, s) || ForbiddenFirst(u, s) || EmptyFirst(u, s)
  {
    var k := FirstForbidden(u, s);
    var tokens, tail := AllowedTextReads(u, s[..k]);
    hide *;
    if Completed(tokens, "", false) {
      ReadingEnds(u, s, k, tokens, tail);
    } else {
      ReadingBreaks(u, s, k, tokens, tail);
    }
  }

  ghost function FirstForbidden(u: Classes, s: string): (k: nat)
    ensures k <= |s| && (k < |s| ==> !u.Allowed(s[k])) && forall i :: 0 <= i < k ==> u.Allowed(s[i])
  {
    if s == "" || !u.Allowed(s[0]) then 0 else 1 + FirstForbidden(u, s[1..])
  }

  /** When parsing fails, and how: whatever is wrong first decides. On blank input
      "command is required"; otherwise a forbidden character if the text before it
      reads on; an empty word if it comes first; and an open quote or escape if the
      text is otherwise in order. */
  lemma WhyParsingFails(u: Classes, input: string)
    requires u.Standard()
    ensures Parse(u, input) == Err(CommandRequired) <==> forall i :: 0 <= i < |input| ==> u.isSpace(input[i])
    ensures Parse(u, input) == Err(InvalidControl) <==> !u.Blank(input) && ForbiddenFirst(u, input)
    ensures Parse(u, input) == Err(EmptyArgument) <==> !u.Blank(input) && EmptyFirst(u, input)
    ensures Parse(u, input) == Err(Unterminated) <==> OpenAtEnd(u, input)
    ensures Parse(u, input).Ok? ==> forall i :: 0 <= i < |input| ==>
              input[i] !in {'\U{FFFD}', '\0', '\r', '\n'} && !u.isControl(input[i])
    ensures Parse(u, input) == Err(InvalidControl) ==>
              exists i :: 0 <= i < |input| && (input[i] in {'\U{FFFD}', '\0', '\r', '\n'} || u.isControl(input[i]))
  {
    RunVisits(u, START, input);
    hide Run;
    hide OpenAtEnd;
    hide ForbiddenFirst;
    hide EmptyFirst;
    if OpenAtEnd(u, input) {
      OpenIsUnterminated(u, input);
    }
    if !u.Blank(input) {
      FailuresAreAll(u, input);
      if ForbiddenFirst(u, input) {
        ForbiddenIsInvalid(u, input);
      }
      if EmptyFirst(u, input) {
        EmptyIsReported(u, input);
      }
    }
  }

  // ---------------------------------------------------------------------------
  // Printers
  // ---------------------------------------------------------------------------

  /** Tokens other than gaps that together mean `argument`. */
  ghost predicate Spells(u: Classes, word: seq<Token>, argument: string) {
    && AllGood(u, word) && word != []
    && (forall i :: 0 <= i < |word| ==> !word[i].Gap?)
    && WordMeaning(word) == argument
  }

  function WordMeaning(word: seq<Token>): string {
    if word == [] then "" else Meaning(word[0]) + WordMeaning(word[1..])
  }

  lemma {:induction false} OneWord(word: seq<Token>, current: string)
    requires forall i :: 0 <= i < |word| ==> !word[i].Gap?
    ensures Words(word, current, true) ==
            if current + WordMeaning(word) == "" then None else Some([current + WordMeaning(word)])
    decreases |word|
  {
    WordStep(word, current);
    hide Words;
    hide WordMeaning;
    hide Meaning;
    if word != [] {
      OneWord(word[1..], current + Meaning(word[0]));
      Regroup(current, Meaning(word[0]), WordMeaning(word[1..]));
    }
  }

  lemma WordStep(word: seq<Token>, current: string)
    requires forall i :: 0 <= i < |word| ==> !word[i].Gap?
    ensures word == [] ==> Words(word, current, true) == if current == "" then None else Some([current])
    ensures word == [] ==> current + WordMeaning(word) == current
    ensures word != [] ==> Words(word, current, true) == Words(word[1..], current + Meaning(word[0]), true)
    ensures word != [] ==> WordMeaning(word) == Meaning(word[0]) + WordMeaning(word[1..])
  {
  }

  /** Any spelling of a single non-empty argument parses to it. */
  lemma {:induction false} SpellingParses(u: Classes, word: seq<Token>, argument: string)
    requires u.Standard() && Spells(u, word, argument) && argument != ""
    ensures Parse(u, Text(word)) == Ok([argument])
  {
    hide Parse;
    hide Text;
    hide Good;
    hide Meaning;
    OneWord(word[1..], "" + Meaning(word[0]));
    assert "" + Meaning(word[0]) + WordMeaning(word[1..]) == argument;
    hide WordMeaning;
    ParsesItsGrammar(u, Text(word), [argument]);
    assert Reads(u, word, Text(word), [argument]);
  }

  function Print(words: seq<seq<Token>>): string
    requires words != []
  {
    if |words| == 1 then Text(words[0]) else Text(words[0]) + " " + Print(words[1..])
  }

  /** However each argument is spelled, joined by spaces they parse back exactly. */
  lemma {:induction false} PrintedArgumentsParseBack(u: Classes, words: seq<seq<Token>>, arguments: seq<string>)
    requires u.Standard() && words != [] && |words| == |arguments|
    requires forall i :: 0 <= i < |words| ==> Spells(u, words[i], arguments[i]) && arguments[i] != ""
    ensures Parse(u, Print(words)) == Ok(arguments)
    decreases |words|
  {
    hide Parse;
    hide Spells;
    SpellingParses(u, words[0], arguments[0]);
    if |words| > 1 {
      PrintedArgumentsParseBack(u, words[1..], arguments[1..]);
      JoinedLines(u, Text(words[0]), Print(words[1..]));
      assert [arguments[0]] + arguments[1..] == arguments;
    } else {
      assert arguments == [arguments[0]];
    }
  }

  /** A backslash before every character. */
  function BackslashWord(argument: string): seq<Token> {
    if argument == "" then [] else [Escape(argument[0])] + BackslashWord(argument[1..])
  }

  /** Single quotes around every stretch without one, and a backslash before each
      single quote. */
  function QuoteWord(argument: string): seq<Token>
    decreases |argument|
  {
    if argument == "" then []
    else if argument[0] == '\'' then [Escape('\'')] + QuoteWord(argument[1..])
    else
      var k := PlainLength(argument);
      [SingleQuoted(argument[..k])] + QuoteWord(argument[k..])
  }

  function PlainLength(s: string): (k: nat)
    ensures k <= |s| && (k < |s| ==> s[k] == '\'') && forall i :: 0 <= i < k ==> s[i] != '\''
    ensures s != "" && s[0] != '\'' ==> k > 0
  {
    if s == "" || s[0] == '\'' then 0 else 1 + PlainLength(s[1..])
  }

  lemma {:induction false} BackslashSpells(u: Classes, argument: string)
    requires argument != "" && forall i :: 0 <= i < |argument| ==> u.Allowed(argument[i])
    ensures Spells(u, BackslashWord(argument), argument)
    decreases |argument|
  {
    var rest := BackslashWord(argument[1..]);
    assert BackslashWord(argument)[1..] == rest;
    if argument[1..] != "" {
      BackslashSpells(u, argument[1..]);
    }
    assert argument == [argument[0]] + argument[1..];
  }

  lemma {:induction false} QuoteSpells(u: Classes, argument: string)
    requires u.Standard() && argument != "" && forall i :: 0 <= i < |argument| ==> u.Allowed(argument[i])
    ensures Spells(u, QuoteWord(argument), argument)
    decreases |argument|
  {
    var k, first := FirstQuoted(u, argument);
    var rest := argument[k..];
    assert argument == argument[..k] + rest;
    assert forall i :: 0 <= i < |rest| ==> rest[i] == argument[k + i];
    assert forall i :: 0 <= i < |rest| ==> u.Allowed(rest[i]);
    hide *;
    if rest != "" {
      QuoteSpells(u, rest);
    }
    ConsSpells(u, first, QuoteWord(rest), argument[..k], rest);
  }

  lemma FirstQuoted(u: Classes, argument: string) returns (k: nat, first: Token)
    requires u.Standard() && argument != "" && forall i :: 0 <= i < |argument| ==> u.Allowed(argument[i])
    ensures 0 < k <= |argument| && QuoteWord(argument) == [first] + QuoteWord(argument[k..])
    ensures Good(u, first) && Meaning(first) == argument[..k] && !first.Gap?
    ensures QuoteWord("") == []
  {
    k := if argument[0] == '\'' then 1 else PlainLength(argument);
    first := if argument[0] == '\'' then Escape('\'') else SingleQuoted(argument[..k]);
    assert argument[..1] == [argument[0]];
  }

  lemma ConsSpells(u: Classes, first: Token, rest: seq<Token>, front: string, back: string)
    requires Good(u, first) && !first.Gap? && Meaning(first) == front
    requires if back == "" then rest == [] else Spells(u, rest, back)
    ensures Spells(u, [first] + rest, front + back)
  {
    hide Good;
    hide Meaning;
    assert ([first] + rest)[1..] == rest;
    assert WordMeaning([]) == "";
  }
}
