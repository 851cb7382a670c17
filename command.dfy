/**
 * `Command::from`: one input line becomes a `Command` or a `CommandError`.
 *
 * The line is trimmed and split into tokens; a loop then removes each
 * redirection operator together with the filename token after it, keeping the
 * last redirection per stream; the first remaining token picks the command.
 * The search-path lookup for external programs and the argument parser of
 * `exit` belong to code outside this model and are parameters (`Env`).
 */
module CommandParse {
  import opened Wrappers
  import opened Strings
  import opened Utils
  import opened Errors
  import opened CommandTypes
  import Echo
  import Cd
  import Pwd
  import Typee

  /** What the parser consults outside the line: the search-path lookup of an
    * external program (its path, if found) and the parser of `exit`. */
  datatype Env = Env(
    resolve: string -> Option<string>,
    parseExit: string -> Result<Command, CommandError>)

  const MissingFile := InvalidArguments("Missing file for redirection")

  const Builtins: set<string> := {"echo", "exit", "type", "pwd", "cd"}

  // ---------------------------------------------------------------------------
  // Redirection operators
  // ---------------------------------------------------------------------------

  /** The six redirection operators, recognised only as whole tokens. */
  function RedirectionOperator(token: string): Option<(RedirectionTarget, RedirectionMode)> {
    if token == ">" || token == "1>" then Some((Stdout, Overwrite))
    else if token == ">>" || token == "1>>" then Some((Stdout, Append))
    else if token == "2>" then Some((Stderr, Overwrite))
    else if token == "2>>" then Some((Stderr, Append))
    else None
  }

  /** The token with its leading stream digit, if any, removed. */
  function OperatorBody(token: string): string {
    if |token| > 0 && (token[0] == '1' || token[0] == '2') then token[1..] else token
  }

  /** The operators are exactly an optional stream digit `1` or `2` followed
    * by `>` or `>>`. */
  lemma OperatorGrammar(token: string)
    ensures RedirectionOperator(token).Some? <==> OperatorBody(token) == ">" || OperatorBody(token) == ">>"
  {
    var body := OperatorBody(token);
    if |token| > 0 && (token[0] == '1' || token[0] == '2') {
      assert token == [token[0]] + body;
      assert token == "1>" <==> token[0] == '1' && body == ">";
      assert token == "2>" <==> token[0] == '2' && body == ">";
      assert token == "1>>" <==> token[0] == '1' && body == ">>";
      assert token == "2>>" <==> token[0] == '2' && body == ">>";
    }
  }

  /** The digit `2` selects standard error, and a final `>>` appends. */
  lemma OperatorMeaning(token: string)
    requires RedirectionOperator(token).Some?
    ensures RedirectionOperator(token).value.0 == Stderr <==> token[0] == '2'
    ensures RedirectionOperator(token).value.1 == Append <==> |token| >= 2 && token[|token| - 2..] == ">>"
  {
  }

  /** A token that starts with neither `>` nor a stream digit, or is longer
    * than three characters, is no operator. */
  lemma NotAnOperator(token: string)
    requires |token| > 3 || (|token| > 0 && token[0] != '>' && token[0] != '1' && token[0] != '2')
    ensures RedirectionOperator(token).None?
  {
  }

  // ---------------------------------------------------------------------------
  // Redirection extraction (the `while i < input_tokens.len()` loop)
  // ---------------------------------------------------------------------------

  /** What the loop leaves behind: the tokens that were not part of a
    * redirection, in order, and the redirection kept for each stream. */
  datatype Extraction = Extraction(clean: seq<string>, stdout: Option<Redirection>, stderr: Option<Redirection>)

  const NoRedirections := Extraction([], None, None)

  /** A later redirection for a stream supersedes an earlier one. */
  function Latest(earlier: Option<Redirection>, later: Option<Redirection>): Option<Redirection> {
    if later.Some? then later else earlier
  }

  /** The extraction of a line made of two parts, from the extractions of the parts. */
  function Then(earlier: Extraction, later: Extraction): Extraction {
    Extraction(earlier.clean + later.clean, Latest(earlier.stdout, later.stdout), Latest(earlier.stderr, later.stderr))
  }

  function ThenResult(earlier: Extraction, later: Result<Extraction, CommandError>): Result<Extraction, CommandError> {
    match later
    case Ok(e) => Ok(Then(earlier, e))
    case Err(x) => Err(x)
  }

  /** The extraction of one operator and its filename. */
  function Recorded(r: Redirection): Extraction {
    if r.target == Stdout then Extraction([], Some(r), None) else Extraction([], None, Some(r))
  }

  /** The redirection kept for `target`. */
  function KeptFor(e: Extraction, target: RedirectionTarget): Option<Redirection> {
    if target == Stdout then e.stdout else e.stderr
  }

  predicate WellTargeted(e: Extraction) {
    && (e.stdout.Some? ==> e.stdout.value.target == Stdout)
    && (e.stderr.Some? ==> e.stderr.value.target == Stderr)
  }

  /** The loop's outcome, read from left to right: an operator consumes the
    * next token verbatim as its filename (even if that token is itself an
    * operator), and an operator with nothing after it is an error. No clean
    * token is an operator, tokens are only ever removed, and the only error
    * is the missing filename. */
  function Extract(tokens: seq<string>): (r: Result<Extraction, CommandError>)
    ensures r.Err? ==> r.error == MissingFile
    ensures r.Ok? ==> WellTargeted(r.value)
    ensures r.Ok? ==> forall t :: t in r.value.clean ==> RedirectionOperator(t).None?
    ensures r.Ok? ==> |r.value.clean| <= |tokens|
    decreases |tokens|
  {
    if tokens == [] then Ok(NoRedirections)
    else match RedirectionOperator(tokens[0])
      case None => ThenResult(Extraction([tokens[0]], None, None), Extract(tokens[1..]))
      case Some((target, mode)) =>
        if |tokens| < 2 then Err(MissingFile)
        else ThenResult(Recorded(Redirection(target, tokens[1], mode)), Extract(tokens[2..]))
  }

  /** `a` is `b` with some elements deleted, the rest kept in order. */
  predicate Subsequence(a: seq<string>, b: seq<string>)
    decreases |b|
  {
    if a == [] then true
    else if b == [] then false
    else (a[0] == b[0] && Subsequence(a[1..], b[1..])) || Subsequence(a, b[1..])
  }

  lemma SubsequenceSkip(a: seq<string>, x: string, b: seq<string>)
    requires Subsequence(a, b)
    ensures Subsequence(a, [x] + b)
  {
    assert ([x] + b)[1..] == b;
  }

  lemma SubsequenceKeep(x: string, a: seq<string>, b: seq<string>)
    requires Subsequence(a, b)
    ensures Subsequence([x] + a, [x] + b)
  {
    assert ([x] + a)[1..] == a;
    assert ([x] + b)[1..] == b;
  }

  /** Extraction only deletes tokens: the clean tokens are the input with
    * some tokens removed and the others in their original order. */
  lemma {:induction false} ExtractOnlyRemoves(tokens: seq<string>)
    requires Extract(tokens).Ok?
    ensures Subsequence(Extract(tokens).value.clean, tokens)
    decreases |tokens|
  {
    if tokens != [] {
      match RedirectionOperator(tokens[0])
      case None =>
        ExtractOnlyRemoves(tokens[1..]);
        var rest := Extract(tokens[1..]).value.clean;
        assert Extract(tokens).value.clean == [tokens[0]] + rest;
        SubsequenceKeep(tokens[0], rest, tokens[1..]);
        assert [tokens[0]] + tokens[1..] == tokens;
      case Some(_) =>
        ExtractOnlyRemoves(tokens[2..]);
        var rest := Extract(tokens[2..]).value.clean;
        assert Extract(tokens).value.clean == [] + rest == rest;
        SubsequenceSkip(rest, tokens[1], tokens[2..]);
        SubsequenceSkip(rest, tokens[0], [tokens[1]] + tokens[2..]);
        assert [tokens[0]] + ([tokens[1]] + tokens[2..]) == tokens;
    }
  }

  lemma ThenAssociative(a: Extraction, b: Extraction, c: Result<Extraction, CommandError>)
    ensures ThenResult(a, ThenResult(b, c)) == ThenResult(Then(a, b), c)
  {
    if c.Ok? {
      assert a.clean + (b.clean + c.value.clean) == (a.clean + b.clean) + c.value.clean;
    }
  }

  /** Extraction works piece by piece: once a prefix has been extracted
    * without error, the rest of the line is extracted on its own and the
    * results combine, later redirections superseding earlier ones. */
  lemma {:induction false} ExtractAppend(a: seq<string>, b: seq<string>)
    requires Extract(a).Ok?
    ensures Extract(a + b) == ThenResult(Extract(a).value, Extract(b))
    decreases |a|
  {
    if a == [] {
      assert a + b == b;
      if Extract(b).Ok? {
        assert [] + Extract(b).value.clean == Extract(b).value.clean;
      }
    } else {
      assert (a + b)[0] == a[0];
      match RedirectionOperator(a[0])
      case None =>
        ExtractAppendStep(a, b, 1, Extraction([a[0]], None, None));
      case Some((target, mode)) =>
        assert (a + b)[1] == a[1];
        ExtractAppendStep(a, b, 2, Recorded(Redirection(target, a[1], mode)));
    }
  }

  /** One unfolding of `ExtractAppend`: the first `k` tokens of `a` give
    * `head`, in `a` and in `a + b` alike. */
  lemma {:induction false} ExtractAppendStep(a: seq<string>, b: seq<string>, k: nat, head: Extraction)
    requires 0 < k <= |a| && Extract(a).Ok?
    requires Extract(a) == ThenResult(head, Extract(a[k..]))
    requires Extract(a + b) == ThenResult(head, Extract((a + b)[k..]))
    ensures Extract(a + b) == ThenResult(Extract(a).value, Extract(b))
    decreases |a|, 0
  {
    DropFromAppend(a, b, k);
    ExtractAppend(a[k..], b);
    ThenAssociative(head, Extract(a[k..]).value, Extract(b));
  }

  /** Tokens that are not operators pass through unchanged and in order. */
  lemma {:induction false} ExtractKeepsPlainTokens(tokens: seq<string>)
    requires forall t :: t in tokens ==> RedirectionOperator(t).None?
    ensures Extract(tokens) == Ok(Extraction(tokens, None, None))
    decreases |tokens|
  {
    if tokens != [] {
      assert tokens[0] in tokens;
      assert forall t :: t in tokens[1..] ==> t in tokens;
      ExtractKeepsPlainTokens(tokens[1..]);
      assert [tokens[0]] + tokens[1..] == tokens;
    }
  }

  /** Each operator removes exactly itself and the following token, taken
    * verbatim as the filename; for its stream it wins unless a later
    * operator for the same stream follows, and it leaves the other stream
    * and the order of the remaining tokens alone. */
  lemma ExtractLastWins(a: seq<string>, op: string, file: string, b: seq<string>)
    requires Extract(a).Ok? && Extract(b).Ok?
    requires RedirectionOperator(op).Some?
    ensures var (target, mode) := RedirectionOperator(op).value;
      var ea, eb := Extract(a).value, Extract(b).value;
      var r := Extract(a + [op, file] + b);
      && r.Ok?
      && r.value.clean == ea.clean + eb.clean
      && KeptFor(r.value, target) == (if KeptFor(eb, target).Some? then KeptFor(eb, target) else Some(Redirection(target, file, mode)))
      && (var other := if target == Stdout then Stderr else Stdout;
          KeptFor(r.value, other) == Latest(KeptFor(ea, other), KeptFor(eb, other)))
  {
    var (target, mode) := RedirectionOperator(op).value;
    var pair := [op, file];
    var tail := pair + b;
    assert a + pair + b == a + tail;
    ExtractAppend(a, tail);
    assert tail[0] == op && tail[1] == file && tail[2..] == b;
    var rec := Recorded(Redirection(target, file, mode));
    assert Extract(tail) == ThenResult(rec, Extract(b));
    var ea, eb := Extract(a).value, Extract(b).value;
    assert Extract(a + pair + b) == Ok(Then(ea, Then(rec, eb)));
    assert [] + eb.clean == eb.clean;
  }

  /** An operator in last position, after a prefix that extracts without
    * error, makes the line an error. An operator that is the filename of the
    * one before it is not dangling: `> >` redirects to a file named `>`. */
  lemma ExtractDangling(a: seq<string>, op: string)
    requires Extract(a).Ok? && RedirectionOperator(op).Some?
    ensures Extract(a + [op]) == Err(MissingFile)
  {
    ExtractAppend(a, [op]);
  }

  /** The converse: the only way to fail is a final operator that is not
    * the filename of the one before it. */
  lemma {:induction false} ExtractErrorIsDangling(tokens: seq<string>)
    requires Extract(tokens).Err?
    ensures tokens != [] && RedirectionOperator(tokens[|tokens| - 1]).Some?
    ensures tokens != [] && Extract(tokens[..|tokens| - 1]).Ok?
    decreases |tokens|
  {
    var n := |tokens|;
    if RedirectionOperator(tokens[0]).None? {
      var rest := tokens[1..];
      assert Extract(rest).Err?;
      ExtractErrorIsDangling(rest);
      assert tokens[n - 1] == rest[|rest| - 1];
      ExtractWordThenOk(tokens[..n - 1], rest[..|rest| - 1]);
    } else if n >= 2 {
      var rest := tokens[2..];
      assert Extract(rest).Err?;
      ExtractErrorIsDangling(rest);
      assert tokens[n - 1] == rest[|rest| - 1];
      ExtractPairThenOk(tokens[..n - 1], rest[..|rest| - 1]);
    } else {
      assert tokens[..n - 1] == [];
    }
  }

  lemma ExtractWordThenOk(u: seq<string>, tail: seq<string>)
    requires u != [] && RedirectionOperator(u[0]).None? && u[1..] == tail
    requires Extract(tail).Ok?
    ensures Extract(u).Ok?
  {
  }

  lemma ExtractPairThenOk(u: seq<string>, tail: seq<string>)
    requires |u| >= 2 && RedirectionOperator(u[0]).Some? && u[2..] == tail
    requires Extract(tail).Ok?
    ensures Extract(u).Ok?
  {
  }

  /** One operator and its filename, alone. */
  lemma ExtractPair(op: string, file: string)
    requires RedirectionOperator(op).Some?
    ensures var (target, mode) := RedirectionOperator(op).value;
      Extract([op, file]) == Ok(Recorded(Redirection(target, file, mode)))
  {
    assert [op, file][2..] == [];
    assert [op, file][1] == file;
  }

  // ---------------------------------------------------------------------------
  // Assembly and dispatch
  // ---------------------------------------------------------------------------

  /** The `redirections` vector: the kept standard-output redirection, then
    * the kept standard-error one. */
  function Assemble(stdout: Option<Redirection>, stderr: Option<Redirection>): seq<Redirection> {
    (if stdout.Some? then [stdout.value] else []) + (if stderr.Some? then [stderr.value] else [])
  }

  /** The vector holds exactly the kept redirections, and for a well-targeted
    * extraction every standard-output entry precedes every standard-error
    * one. */
  lemma AssembleKeepsBoth(stdout: Option<Redirection>, stderr: Option<Redirection>)
    ensures var r := Assemble(stdout, stderr);
      |r| <= 2 && forall x :: x in r <==> stdout == Some(x) || stderr == Some(x)
    ensures var r := Assemble(stdout, stderr);
      (stdout.Some? ==> stdout.value.target == Stdout) && (stderr.Some? ==> stderr.value.target == Stderr) ==>
        forall i, j :: 0 <= i < j < |r| ==> r[i].target == Stdout && r[j].target == Stderr
  {
  }

  lemma AssembleNothing()
    ensures Assemble(None, None) == []
  {
  }

  lemma AssembleBoth(out: Redirection, err: Redirection)
    ensures Assemble(Some(out), Some(err)) == [out, err]
  {
  }

  lemma AssembleRecorded(r: Redirection)
    ensures Assemble(Recorded(r).stdout, Recorded(r).stderr) == [r]
  {
  }

  /** The builtin or program a command stands for. */
  function CommandName(c: Command): string {
    match c
    case Noop => ""
    case Exit(_) => "exit"
    case Cd(_) => "cd"
    case Echo(_, _) => "echo"
    case Type(_, _) => "type"
    case Pwd(_) => "pwd"
    case External(cmd, _, _, _) => cmd
  }

  /** The final `match cmd`: the first clean token, matched case-sensitively,
    * picks the command; builtins get the other tokens joined by single spaces,
    * an external program gets them as a list with its resolved path; a name
    * that is neither is `NotFound`. Except for `exit`, whose parser is not
    * modelled, the chosen command is named by the first token and carries
    * the redirections given. */
  function Dispatch(tokens: seq<string>, redirections: seq<Redirection>, env: Env): (r: Result<Command, CommandError>)
    ensures tokens == [] ==> r == Ok(Noop)
    ensures tokens != [] && tokens[0] !in Builtins && tokens[0] != "" ==>
      match env.resolve(tokens[0])
      case Some(path) => r == Ok(External(tokens[0], tokens[1..], path, redirections))
      case None => r == Err(NotFound(tokens[0]))
  {
    var cmd := if |tokens| > 0 then tokens[0] else "";
    var argsTokens := if |tokens| > 1 then tokens[1..] else [];
    var argsForBuiltins := if argsTokens == [] then "" else Join(argsTokens);
    if cmd == "" then Ok(Noop)
    else if cmd == "echo" then Echo.ParseEchoCmd(argsForBuiltins, redirections)
    else if cmd == "exit" then env.parseExit(argsForBuiltins)
    else if cmd == "type" then Typee.ParseTypeCmd(argsForBuiltins, redirections)
    else if cmd == "pwd" then Pwd.ParsePwdCmd(argsForBuiltins, redirections)
    else if cmd == "cd" then Cd.ParseCdCmd(argsForBuiltins)
    else
      match env.resolve(cmd)
      case Some(path) => Ok(External(cmd, argsTokens, path, redirections))
      case None => Err(NotFound(cmd))
  }

  /** Except for `exit`, whose parser is not modelled, a successful dispatch
    * gives the command named by the first token, carrying the redirections
    * given (`Cd` has no place for them). */
  lemma DispatchFollowsFirstToken(tokens: seq<string>, redirections: seq<Redirection>, env: Env)
    requires tokens != [] && tokens[0] != "exit" && Dispatch(tokens, redirections, env).Ok?
    ensures var c := Dispatch(tokens, redirections, env).value;
      && CommandName(c) == tokens[0]
      && (c.Echo? || c.Type? || c.Pwd? || c.External? ==> c.redirections == redirections)
  {
    var args := if |tokens| > 1 && tokens[1..] != [] then Join(tokens[1..]) else "";
    var cmd := tokens[0];
    if cmd == "echo" {
      assert Dispatch(tokens, redirections, env) == Echo.ParseEchoCmd(args, redirections);
    } else if cmd == "type" {
      assert Dispatch(tokens, redirections, env) == Typee.ParseTypeCmd(args, redirections);
    } else if cmd == "pwd" {
      assert Dispatch(tokens, redirections, env) == Pwd.ParsePwdCmd(args, redirections);
    } else if cmd == "cd" {
      assert Dispatch(tokens, redirections, env) == Cd.ParseCdCmd(args);
    }
  }

  // ---------------------------------------------------------------------------
  // The whole line
  // ---------------------------------------------------------------------------

  /** The tokens of a line: trimmed, then split on unquoted spaces. */
  function Tokenize(line: string): seq<string> {
    Split(Trim(line))
  }

  /** `Command::from` as a function of the line. */
  function Parse(input: string, env: Env): Result<Command, CommandError> {
    match Extract(Tokenize(input))
    case Err(e) => Err(e)
    case Ok(x) => Dispatch(x.clean, Assemble(x.stdout, x.stderr), env)
  }

  // ---------------------------------------------------------------------------
  // What a line means
  // ---------------------------------------------------------------------------

  /** `raw` is how the token `t` may be typed on a line: bare or between
    * single quotes, and neither starting nor ending with whitespace. */
  predicate Typed(raw: string, t: string) {
    && Spells(raw, t)
    && |raw| > 0
    && !IsWhitespace(raw[0])
    && !IsWhitespace(raw[|raw| - 1])
  }

  /** A token typed bare: no space, no quote, no whitespace at either end. */
  predicate Plain(t: string) {
    Word(t) && !IsWhitespace(t[0]) && !IsWhitespace(t[|t| - 1])
  }

  lemma OperatorsArePlain(op: string)
    requires RedirectionOperator(op).Some?
    ensures Plain(op)
  {
  }

  lemma JoinOfTypedHasTrimmedEnds(raws: seq<string>, tokens: seq<string>)
    requires |raws| == |tokens|
    requires forall i :: 0 <= i < |raws| ==> Typed(raws[i], tokens[i])
    ensures var line := Join(raws);
      line == [] || (!IsWhitespace(line[0]) && !IsWhitespace(line[|line| - 1]))
  {
    if raws != [] {
      JoinEnds(raws);
      var line, first, last := Join(raws), raws[0], raws[|raws| - 1];
      assert Typed(first, tokens[0]);
      assert Typed(last, tokens[|raws| - 1]);
      assert line[0] == line[..|first|][0] == first[0];
      assert line[|line| - 1] == line[|line| - |last|..][|last| - 1] == last[|last| - 1];
    }
  }

  /** Typed tokens joined by single spaces tokenize back into the tokens. */
  lemma TokenizeJoin(raws: seq<string>, tokens: seq<string>)
    requires |raws| == |tokens|
    requires forall i :: 0 <= i < |raws| ==> Typed(raws[i], tokens[i])
    ensures Tokenize(Join(raws)) == tokens
  {
    JoinOfTypedIsTrimmed(raws, tokens);
    TypedSpells(raws, tokens);
    SplitJoin(raws, tokens);
    TokenizeTrimmed(Join(raws), tokens);
  }

  lemma JoinOfTypedIsTrimmed(raws: seq<string>, tokens: seq<string>)
    requires |raws| == |tokens|
    requires forall i :: 0 <= i < |raws| ==> Typed(raws[i], tokens[i])
    ensures Trim(Join(raws)) == Join(raws)
  {
    JoinOfTypedHasTrimmedEnds(raws, tokens);
    TrimKeepsTrimmed(Join(raws));
  }

  lemma TypedSpells(raws: seq<string>, tokens: seq<string>)
    requires |raws| == |tokens|
    requires forall i :: 0 <= i < |raws| ==> Typed(raws[i], tokens[i])
    ensures forall i :: 0 <= i < |raws| ==> Spells(raws[i], tokens[i])
  {
  }

  lemma TokenizeTrimmed(line: string, tokens: seq<string>)
    requires Trim(line) == line && Split(line) == tokens
    ensures Tokenize(line) == tokens
  {
  }

  /** The same with one space after the line, as `type` builds it. */
  lemma TokenizeJoinSpace(raws: seq<string>, tokens: seq<string>)
    requires |raws| == |tokens|
    requires forall i :: 0 <= i < |raws| ==> Typed(raws[i], tokens[i])
    ensures Tokenize(Join(raws) + " ") == tokens
  {
    TokenizeJoin(raws, tokens);
    SpaceIsWhitespace();
    TrimIgnoresTrailing(Join(raws), " ");
  }

  /** A line parses as its tokens say. */
  lemma ParseOfTokens(line: string, tokens: seq<string>, env: Env)
    requires Tokenize(line) == tokens && Extract(tokens).Ok?
    ensures var x := Extract(tokens).value;
      Parse(line, env) == Dispatch(x.clean, Assemble(x.stdout, x.stderr), env)
  {
  }

  lemma ParseOfTokensErr(line: string, tokens: seq<string>, env: Env)
    requires Tokenize(line) == tokens && Extract(tokens).Err?
    ensures Parse(line, env) == Err(Extract(tokens).error)
  {
  }

  /** Whitespace around a line does not change what it parses to. */
  lemma ParseIgnoresSurroundingWhitespace(a: string, line: string, b: string, env: Env)
    requires AllWhitespace(a) && AllWhitespace(b)
    ensures Parse(a + line + b, env) == Parse(line, env)
  {
    TrimIgnoresSurrounding(a, line, b);
  }

  /** A blank line is `Noop`. */
  lemma ParseBlank(line: string, env: Env)
    requires AllWhitespace(line)
    ensures Parse(line, env) == Ok(Noop)
  {
    SplitBlank([]);
  }

  /** A line none of whose tokens is an operator names an external program
    * by its first token (when that is no builtin) and hands it the other
    * tokens as they are: the program if the lookup finds it, `NotFound`
    * otherwise. */
  lemma ParseExternal(line: string, env: Env)
    requires var tokens := Tokenize(line);
      && tokens != [] && tokens[0] !in Builtins
      && forall t :: t in tokens ==> RedirectionOperator(t).None?
    ensures var tokens := Tokenize(line);
      Parse(line, env) ==
        match env.resolve(tokens[0])
        case Some(path) => Ok(External(tokens[0], tokens[1..], path, []))
        case None => Err(NotFound(tokens[0]))
  {
    var tokens := Tokenize(line);
    SplitTokensAreGood(Trim(line));
    assert tokens[0] in tokens;
    ExtractKeepsPlainTokens(tokens);
    ParseOfTokens(line, tokens, env);
    AssembleNothing();
  }

  /** `echo` gets its arguments as tokens joined by single spaces: runs of
    * unquoted spaces collapse, quoted text is kept as typed. */
  lemma ParseEcho(line: string, words: seq<string>, env: Env)
    requires Tokenize(line) == ["echo"] + words
    requires forall w :: w in words ==> RedirectionOperator(w).None?
    ensures Parse(line, env) == Ok(Echo(Join(words), []))
  {
    NotAnOperator("echo");
    ExtractNameThenPlain("echo", words);
    ParseOfTokens(line, ["echo"] + words, env);
    AssembleNothing();
    DispatchEcho(words, [], env);
  }

  /** `cd` takes the rest of the line, operators and filenames removed, as
    * its path, and drops the redirections; `cd` alone is `Cd("")`. */
  lemma ParseCd(line: string, env: Env)
    requires var tokens := Tokenize(line);
      tokens != [] && tokens[0] == "cd" && Extract(tokens[1..]).Ok?
    ensures var tokens := Tokenize(line);
      Parse(line, env) == Ok(Cd(Join(Extract(tokens[1..]).value.clean)))
  {
    var tokens := Tokenize(line);
    var rest := Extract(tokens[1..]).value;
    HeadThenTail(tokens);
    NotAnOperator("cd");
    ExtractWord("cd");
    ExtractAppend(["cd"], tokens[1..]);
    assert Extract(tokens).value.clean == ["cd"] + rest.clean;
    ParseOfTokens(line, tokens, env);
    DispatchCd(rest.clean, Assemble(rest.stdout, rest.stderr), env);
  }

  /** `echo` with the given argument tokens. */
  lemma DispatchEcho(args: seq<string>, redirections: seq<Redirection>, env: Env)
    ensures Dispatch(["echo"] + args, redirections, env) == Ok(Echo(Join(args), redirections))
  {
    var tokens := ["echo"] + args;
    assert tokens[0] == "echo";
    if |tokens| > 1 {
      assert tokens[1..] == args;
    }
  }

  /** `type` with the given argument tokens. */
  lemma DispatchType(args: seq<string>, redirections: seq<Redirection>, env: Env)
    ensures Dispatch(["type"] + args, redirections, env) == Ok(Type(Trim(Join(args)), redirections))
  {
    var tokens := ["type"] + args;
    assert tokens[0] == "type";
    if |tokens| > 1 {
      assert tokens[1..] == args;
    }
  }

  /** `type` queries the rest of the line, joined and trimmed. */
  lemma ParseType(line: string, args: seq<string>, env: Env)
    requires Tokenize(line) == ["type"] + args
    requires forall w :: w in args ==> RedirectionOperator(w).None?
    ensures Parse(line, env) == Ok(Type(Trim(Join(args)), []))
  {
    NotAnOperator("type");
    ExtractNameThenPlain("type", args);
    ParseOfTokens(line, ["type"] + args, env);
    AssembleNothing();
    DispatchType(args, [], env);
  }

  /** A bare word followed by the space `type` appends is that one token. */
  lemma TokenizeWordSpace(name: string)
    requires Plain(name)
    ensures Tokenize(name + " ") == [name]
  {
    TokenizeJoinSpace([name], [name]);
    assert Join([name]) == name;
  }

  /** `cd` with the given argument tokens. */
  lemma DispatchCd(args: seq<string>, redirections: seq<Redirection>, env: Env)
    ensures Dispatch(["cd"] + args, redirections, env) == Ok(Cd(Join(args)))
  {
    var tokens := ["cd"] + args;
    assert tokens[0] == "cd";
    if |tokens| > 1 {
      assert tokens[1..] == args;
    }
  }

  /** `pwd` with the given argument tokens. */
  lemma DispatchPwd(args: seq<string>, redirections: seq<Redirection>, env: Env)
    ensures Dispatch(["pwd"] + args, redirections, env) ==
      if AllWhitespace(Join(args)) then Ok(Pwd(redirections)) else Err(InvalidArguments("pwd"))
  {
    var tokens := ["pwd"] + args;
    assert tokens[0] == "pwd";
    if |tokens| > 1 {
      assert tokens[1..] == args;
    }
  }

  lemma ExtractAppendErrorTail(err: string, args: seq<string>)
    requires forall w :: w in args ==> RedirectionOperator(w).None?
    ensures Extract(["2>>", err] + args) == Ok(Extraction(args, None, Some(Redirection(Stderr, err, Append))))
  {
    ExtractKeepsPlainTokens(args);
    ExtractPair("2>>", err);
    ExtractAppend(["2>>", err], args);
    assert [] + args == args;
  }

  lemma ExtractOverwriteOutput(out: string, tail: seq<string>, rest: Extraction)
    requires Extract(tail) == Ok(rest) && rest.stdout.None?
    ensures Extract([">", out] + tail) == Ok(rest.(stdout := Some(Redirection(Stdout, out, Overwrite))))
  {
    ExtractPair(">", out);
    ExtractAppend([">", out], tail);
    assert [] + rest.clean == rest.clean;
  }

  /** A token that is not an operator, alone. */
  lemma ExtractWord(t: string)
    requires RedirectionOperator(t).None?
    ensures Extract([t]) == Ok(Extraction([t], None, None))
  {
    assert [t][1..] == [];
    assert [t] + [] == [t];
  }

  /** The extraction of `pwd > out 2>> err` followed by plain arguments. */
  lemma ExtractPwdLine(out: string, err: string, args: seq<string>)
    requires forall w :: w in args ==> RedirectionOperator(w).None?
    ensures Extract(["pwd", ">", out, "2>>", err] + args) ==
      Ok(Extraction(["pwd"] + args, Some(Redirection(Stdout, out, Overwrite)), Some(Redirection(Stderr, err, Append))))
  {
    var r1, r2 := Redirection(Stdout, out, Overwrite), Redirection(Stderr, err, Append);
    var tail := ["2>>", err] + args;
    ExtractAppendErrorTail(err, args);
    ExtractOverwriteOutput(out, tail, Extraction(args, None, Some(r2)));
    var rest := [">", out] + tail;
    NotAnOperator("pwd");
    ExtractWord("pwd");
    ExtractAppend(["pwd"], rest);
    Regroup("pwd", ">", out, "2>>", err, args);
  }

  lemma Regroup<T>(a: T, b: T, c: T, d: T, e: T, rest: seq<T>)
    ensures [a] + ([b, c] + ([d, e] + rest)) == [a, b, c, d, e] + rest
  {
  }

  /** `pwd` accepts only arguments that are all whitespace once joined, and
    * keeps the redirections it was given: with `> out` and `2>> err` on the
    * line, standard output goes to `out`, standard error is appended to
    * `err`, and only the remaining tokens reach `pwd`. */
  lemma ParsePwd(line: string, out: string, err: string, args: seq<string>, env: Env)
    requires Tokenize(line) == ["pwd", ">", out, "2>>", err] + args
    requires forall w :: w in args ==> RedirectionOperator(w).None?
    ensures var redirections := [Redirection(Stdout, out, Overwrite), Redirection(Stderr, err, Append)];
      Parse(line, env) ==
        if AllWhitespace(Join(args)) then Ok(Pwd(redirections)) else Err(InvalidArguments("pwd"))
  {
    var r1, r2 := Redirection(Stdout, out, Overwrite), Redirection(Stderr, err, Append);
    ExtractPwdLine(out, err, args);
    ParseOfTokens(line, Tokenize(line), env);
    AssembleBoth(r1, r2);
    DispatchPwd(args, [r1, r2], env);
  }

  /** A line made of one redirection and nothing else is `Noop`. */
  lemma ParseRedirectionOnly(line: string, env: Env)
    requires var tokens := Tokenize(line);
      |tokens| == 2 && RedirectionOperator(tokens[0]).Some?
    ensures Parse(line, env) == Ok(Noop)
  {
    var tokens := Tokenize(line);
    assert tokens[2..] == [];
    ParseOfTokens(line, tokens, env);
  }

  /** An operator at the end of a line, after a prefix that extracts without
    * error, makes the line the missing-file error. */
  lemma ParseDangling(line: string, env: Env)
    requires var tokens := Tokenize(line);
      && tokens != []
      && RedirectionOperator(tokens[|tokens| - 1]).Some?
      && Extract(tokens[..|tokens| - 1]).Ok?
    ensures Parse(line, env) == Err(MissingFile)
  {
    var tokens := Tokenize(line);
    var n := |tokens|;
    ExtractDangling(tokens[..n - 1], tokens[n - 1]);
    ButLastThenLast(tokens);
    ParseOfTokensErr(line, tokens, env);
  }

  /** Quotes do not protect an operator: they are removed while the line is
    * split, before operators are looked for, so `echo '>' file` still
    * redirects to `file`. */
  lemma ParseQuotedOperator(op: string, file: string, env: Env)
    requires RedirectionOperator(op).Some? && Plain(file)
    ensures var (target, mode) := RedirectionOperator(op).value;
      Parse(Join(["echo", [Quote] + op + [Quote], file]), env) ==
        Ok(Echo("", [Redirection(target, file, mode)]))
  {
    OperatorsArePlain(op);
    var raws, tokens := ["echo", [Quote] + op + [Quote], file], ["echo", op, file];
    assert Typed(raws[1], tokens[1]);
    TokenizeJoin(raws, tokens);
    EchoToFile(Join(raws), op, file, env);
  }

  lemma EchoToFile(line: string, op: string, file: string, env: Env)
    requires Tokenize(line) == ["echo", op, file] && RedirectionOperator(op).Some?
    ensures var (target, mode) := RedirectionOperator(op).value;
      Parse(line, env) == Ok(Echo("", [Redirection(target, file, mode)]))
  {
    var (target, mode) := RedirectionOperator(op).value;
    var redir := Redirection(target, file, mode);
    NotAnOperator("echo");
    ExtractWord("echo");
    ExtractPair(op, file);
    ExtractAppend(["echo"], [op, file]);
    Regroup3("echo", op, file);
    assert Extract(["echo", op, file]) == Ok(Extraction(["echo"], Recorded(redir).stdout, Recorded(redir).stderr));
    AssembleRecorded(redir);
    ParseOfTokens(line, ["echo", op, file], env);
    DispatchEcho([], [redir], env);
  }

  lemma Regroup3<T>(a: T, b: T, c: T)
    ensures [a] + [b, c] == [a, b, c] && [a] + [] == [a]
  {
  }

  /** `pwd` followed by quoted blanks only is still a valid `pwd`: its
    * argument is trimmed before it is checked. */
  lemma ParsePwdQuotedBlanks(q: string, env: Env)
    requires q != [] && forall i :: 0 <= i < |q| ==> q[i] == Space
    ensures Parse(Join(["pwd", [Quote] + q + [Quote]]), env) == Ok(Pwd([]))
  {
    PwdQuotedTokens(q);
    PwdBlankAccepted(Join(["pwd", [Quote] + q + [Quote]]), q, env);
  }

  lemma PwdQuotedTokens(q: string)
    requires q != [] && forall i :: 0 <= i < |q| ==> q[i] == Space
    ensures Tokenize(Join(["pwd", [Quote] + q + [Quote]])) == ["pwd"] + [q]
  {
    assert Quote !in q by {
      forall c | c in q
        ensures c != Quote
      {
        var i :| 0 <= i < |q| && q[i] == c;
      }
    }
    var quoted := [Quote] + q + [Quote];
    assert Typed(quoted, q);
    assert Typed("pwd", "pwd");
    TokenizeJoinTwo("pwd", "pwd", quoted, q);
  }

  lemma TokenizeJoinTwo(raw0: string, t0: string, raw1: string, t1: string)
    requires Typed(raw0, t0) && Typed(raw1, t1)
    ensures Tokenize(Join([raw0, raw1])) == [t0] + [t1]
  {
    var raws, tokens := [raw0, raw1], [t0, t1];
    assert forall i :: 0 <= i < 2 ==> raws[i] == [raw0, raw1][i];
    TokenizeJoin(raws, tokens);
  }

  lemma PwdBlankAccepted(line: string, q: string, env: Env)
    requires q != [] && forall i :: 0 <= i < |q| ==> q[i] == Space
    requires Tokenize(line) == ["pwd"] + [q]
    ensures Parse(line, env) == Ok(Pwd([]))
  {
    assert q[0] == Space;
    NotAnOperator(q);
    assert forall w :: w in [q] ==> w == q;
    ParsePwdPlain(line, [q], env);
    assert Join([q]) == q;
    SpacesAreWhitespace(q);
  }

  lemma SpacesAreWhitespace(q: string)
    requires forall i :: 0 <= i < |q| ==> q[i] == Space
    ensures AllWhitespace(q)
  {
    forall c | c in q
      ensures IsWhitespace(c)
    {
      var i :| 0 <= i < |q| && q[i] == c;
    }
  }

  /** `pwd` with plain arguments and no redirection accepts exactly
    * arguments that are all whitespace once joined. */
  lemma ParsePwdPlain(line: string, args: seq<string>, env: Env)
    requires Tokenize(line) == ["pwd"] + args
    requires forall w :: w in args ==> RedirectionOperator(w).None?
    ensures Parse(line, env) ==
      if AllWhitespace(Join(args)) then Ok(Pwd([])) else Err(InvalidArguments("pwd"))
  {
    NotAnOperator("pwd");
    ExtractNameThenPlain("pwd", args);
    ParseOfTokens(line, ["pwd"] + args, env);
    AssembleNothing();
    DispatchPwd(args, [], env);
  }

  /** A command name followed by tokens none of which is an operator. */
  lemma ExtractNameThenPlain(name: string, args: seq<string>)
    requires RedirectionOperator(name).None?
    requires forall w :: w in args ==> RedirectionOperator(w).None?
    ensures Extract([name] + args) == Ok(Extraction([name] + args, None, None))
  {
    ExtractWord(name);
    ExtractKeepsPlainTokens(args);
    ExtractAppend([name], args);
  }

  /** The loop's progress measure: what is still to be extracted, preceded by
    * what has been extracted so far. */
  function Pending(tokens: seq<string>, i: nat, stdout: Option<Redirection>, stderr: Option<Redirection>): Result<Extraction, CommandError>
    requires i <= |tokens|
  {
    ThenResult(Extraction(tokens[..i], stdout, stderr), Extract(tokens[i..]))
  }

  /** Stepping over a token that is not an operator. */
  lemma PendingSkip(tokens: seq<string>, i: nat, stdout: Option<Redirection>, stderr: Option<Redirection>)
    requires i < |tokens| && RedirectionOperator(tokens[i]).None?
    ensures Pending(tokens, i, stdout, stderr) == Pending(tokens, i + 1, stdout, stderr)
  {
    assert tokens[i..][0] == tokens[i] && tokens[i..][1..] == tokens[i + 1..];
    ThenAssociative(Extraction(tokens[..i], stdout, stderr), Extraction([tokens[i]], None, None), Extract(tokens[i + 1..]));
    assert tokens[..i] + [tokens[i]] == tokens[..i + 1];
  }

  /** Removing an operator at `i` and its filename, and recording the redirection. */
  lemma PendingConsume(tokens: seq<string>, i: nat, stdout: Option<Redirection>, stderr: Option<Redirection>,
                       target: RedirectionTarget, mode: RedirectionMode)
    requires i + 1 < |tokens| && RedirectionOperator(tokens[i]) == Some((target, mode))
    ensures var redir := Redirection(target, tokens[i + 1], mode);
      var rest := tokens[..i] + tokens[i + 2..];
      Pending(tokens, i, stdout, stderr) ==
        if target == Stdout then Pending(rest, i, Some(redir), stderr) else Pending(rest, i, stdout, Some(redir))
  {
    var redir := Redirection(target, tokens[i + 1], mode);
    var rest := tokens[..i] + tokens[i + 2..];
    assert tokens[i..][0] == tokens[i] && tokens[i..][1] == tokens[i + 1] && tokens[i..][2..] == tokens[i + 2..];
    assert Extract(tokens[i..]) == ThenResult(Recorded(redir), Extract(tokens[i + 2..]));
    ThenAssociative(Extraction(tokens[..i], stdout, stderr), Recorded(redir), Extract(tokens[i + 2..]));
    assert rest[..i] == tokens[..i] && rest[i..] == tokens[i + 2..];
    assert tokens[..i] + [] == tokens[..i];
  }

  /** An operator in last position. */
  lemma PendingDangling(tokens: seq<string>, i: nat, stdout: Option<Redirection>, stderr: Option<Redirection>)
    requires i + 1 == |tokens| && RedirectionOperator(tokens[i]).Some?
    ensures Pending(tokens, i, stdout, stderr) == Err(MissingFile)
  {
    assert tokens[i..] == [tokens[i]];
  }

  /** Nothing scanned yet. */
  lemma PendingStart(tokens: seq<string>)
    ensures Pending(tokens, 0, None, None) == Extract(tokens)
  {
    assert tokens[..0] == [] && tokens[0..] == tokens;
    if Extract(tokens).Ok? {
      assert [] + Extract(tokens).value.clean == Extract(tokens).value.clean;
    }
  }

  /** `remove(i + 1)` followed by `remove(i)` drops exactly those two tokens. */
  lemma RemoveTwice(tokens: seq<string>, i: nat)
    requires i + 1 < |tokens|
    ensures var once := tokens[..i + 1] + tokens[i + 2..];
      once[..i] + once[i + 1..] == tokens[..i] + tokens[i + 2..]
  {
    var once := tokens[..i + 1] + tokens[i + 2..];
    assert once[..i] == tokens[..i];
    assert once[i + 1..] == tokens[i + 2..];
  }

  /** Nothing left to scan. */
  lemma PendingDone(tokens: seq<string>, stdout: Option<Redirection>, stderr: Option<Redirection>)
    ensures Pending(tokens, |tokens|, stdout, stderr) == Ok(Extraction(tokens, stdout, stderr))
  {
    assert tokens[..|tokens|] == tokens && tokens[|tokens|..] == [];
    assert tokens + [] == tokens;
  }

  /** The `while i < input_tokens.len()` loop of `Command::from`: it edits
    * the token vector in place and keeps the last redirection per stream. */
  method ExtractRedirections(input: seq<string>)
    returns (r: Result<Extraction, CommandError>)
    ensures r == Extract(input)
  {
    var tokens := input;
    var stdoutRedir: Option<Redirection> := None;
    var stderrRedir: Option<Redirection> := None;
    var i := 0;
    PendingStart(tokens);
    while i < |tokens|
      invariant 0 <= i <= |tokens|
      invariant Extract(input) == Pending(tokens, i, stdoutRedir, stderrRedir)
      decreases |tokens| - i
    {
      var op := RedirectionOperator(tokens[i]);
      if op.None? {
        PendingSkip(tokens, i, stdoutRedir, stderrRedir);
        i := i + 1;
        continue;
      }
      var (target, mode) := op.value;
      if i + 1 >= |tokens| {
        PendingDangling(tokens, i, stdoutRedir, stderrRedir);
        return Err(MissingFile);
      }
      PendingConsume(tokens, i, stdoutRedir, stderrRedir, target, mode);
      var file := tokens[i + 1];
      RemoveTwice(tokens, i);
      tokens := tokens[..i + 1] + tokens[i + 2..];
      tokens := tokens[..i] + tokens[i + 1..];
      var redir := Redirection(target, file, mode);
      match redir.target {
        case Stdout => stdoutRedir := Some(redir);
        case Stderr => stderrRedir := Some(redir);
      }
    }
    PendingDone(tokens, stdoutRedir, stderrRedir);
    r := Ok(Extraction(tokens, stdoutRedir, stderrRedir));
  }

  /** The pushes that build the `redirections` vector. */
  method CollectRedirections(stdout: Option<Redirection>, stderr: Option<Redirection>)
    returns (redirections: seq<Redirection>)
    ensures redirections == Assemble(stdout, stderr)
  {
    redirections := [];
    if stdout.Some? {
      redirections := redirections + [stdout.value];
    }
    if stderr.Some? {
      redirections := redirections + [stderr.value];
    }
  }

  /** `Command::from`. */
  method From(input: string, env: Env) returns (r: Result<Command, CommandError>)
    ensures r == Parse(input, env)
  {
    var line := Trim(input);
    var inputTokens := SplitArgsRespectingSingleQuotes(line);
    var extracted := ExtractRedirections(inputTokens);
    if extracted.Err? {
      return Err(extracted.error);
    }
    var x := extracted.value;
    var redirections := CollectRedirections(x.stdout, x.stderr);
    r := Dispatch(x.clean, redirections, env);
  }
}
