/** The argument parser of the `type` builtin. What `type` prints is in
  * module TypeeReport, which needs the whole parser. */
module Typee {
  import opened Wrappers
  import opened Strings
  import opened Errors
  import opened CommandTypes

  /** `parse_type_cmd` never fails; the queried name is the argument string
    * with surrounding whitespace removed, and the redirections are passed
    * through. */
  function ParseTypeCmd(args: string, redirections: seq<Redirection>): (r: Result<Command, CommandError>)
    ensures r.Ok? && r.value.Type? && r.value.redirections == redirections
    ensures r.value.cmd == Trim(args)
    ensures r.value.cmd == [] || (!IsWhitespace(r.value.cmd[0]) && !IsWhitespace(r.value.cmd[|r.value.cmd| - 1]))
    ensures r.value.cmd == [] <==> AllWhitespace(args)
  {
    Ok(Type(Trim(args), redirections))
  }
}

/** `type_cmd`: what `type <name>` prints. The name is parsed as a command
  * line of its own, with one space appended, and the outcome decides the
  * message and the stream it goes to. */
module TypeeReport {
  import opened Wrappers
  import opened Strings
  import opened Errors
  import opened CommandTypes
  import opened CommandParse

  /** The line `type` prints for a name, given what the name parsed to. */
  function Report(cmd: string, p: Result<Command, CommandError>): (w: Written)
    ensures w.stream == Stdout <==> p.Ok? && !p.value.Noop?
    ensures |w.text| > 0 && w.text[|w.text| - 1] == '\n'
  {
    match p
    case Ok(External(_, _, path, _)) => Written(Stdout, cmd + " is " + path + "\n")
    case Ok(Noop) => Written(Stderr, cmd + ": not found\n")
    case Ok(_) => Written(Stdout, cmd + " is a shell builtin\n")
    case Err(NotFound(_)) => Written(Stderr, cmd + ": not found\n")
    case Err(e) => Written(Stderr, "type: error: " + Render(e) + "\n")
  }

  /** Nothing is printed for an empty name; otherwise one line, on standard
    * output exactly when the name parses to a command other than `Noop`. */
  function TypeCmd(cmd: string, env: Env): (r: Option<Written>)
    ensures r.None? <==> cmd == ""
    ensures r.Some? ==>
      var p := Parse(cmd + " ", env);
      (r.value.stream == Stdout <==> p.Ok? && !p.value.Noop?)
  {
    if cmd == "" then None else Some(Report(cmd, Parse(cmd + " ", env)))
  }

  /** A builtin name alone is the token list `[name]`, free of operators. */
  lemma AloneTokens(name: string)
    requires name == "echo" || name == "type" || name == "pwd" || name == "cd"
    ensures Tokenize(name + " ") == [name] + []
    ensures forall w :: w in [] ==> RedirectionOperator(w).None?
  {
    NotAnOperator(name);
    TokenizeWordSpace(name);
    assert [name] == [name] + [];
  }

  /** The builtins that take no arguments parse to themselves. */
  lemma BuiltinParses(name: string, env: Env)
    requires name == "echo" || name == "type" || name == "pwd" || name == "cd"
    ensures var p := Parse(name + " ", env);
      p.Ok? && !p.value.Noop? && !p.value.External?
  {
    AloneTokens(name);
    var line := name + " ";
    if name == "echo" {
      ParseEcho(line, [], env);
    } else if name == "type" {
      ParseType(line, [], env);
    } else if name == "pwd" {
      ParsePwdPlain(line, [], env);
    } else {
      ParseCd(line, env);
    }
  }

  /** The four builtins that parse without arguments are reported as
    * builtins. */
  lemma TypeReportsBuiltin(name: string, env: Env)
    requires name == "echo" || name == "type" || name == "pwd" || name == "cd"
    ensures TypeCmd(name, env) == Some(Written(Stdout, name + " is a shell builtin\n"))
  {
    BuiltinParses(name, env);
  }

  /** A name that is neither a builtin nor an operator is looked up: its
    * path is reported when found, and "not found" otherwise. */
  lemma TypeReportsProgram(name: string, env: Env)
    requires Plain(name) && name !in Builtins && RedirectionOperator(name).None?
    ensures TypeCmd(name, env) ==
      match env.resolve(name)
      case Some(path) => Some(Written(Stdout, name + " is " + path + "\n"))
      case None => Some(Written(Stderr, name + ": not found\n"))
  {
    match env.resolve(name)
    case Some(path) => FoundProgramReport(name, path, env);
    case None => MissingProgramReport(name, env);
  }

  lemma FoundProgramReport(name: string, path: string, env: Env)
    requires Plain(name) && name !in Builtins && RedirectionOperator(name).None?
    requires env.resolve(name) == Some(path)
    ensures TypeCmd(name, env) == Some(Written(Stdout, name + " is " + path + "\n"))
  {
    ProgramParses(name, env);
    ReportOfParse(name, env, Ok(External(name, [], path, [])));
  }

  lemma MissingProgramReport(name: string, env: Env)
    requires Plain(name) && name !in Builtins && RedirectionOperator(name).None?
    requires env.resolve(name).None?
    ensures TypeCmd(name, env) == Some(Written(Stderr, name + ": not found\n"))
  {
    ProgramParses(name, env);
    ReportOfParse(name, env, Err(NotFound(name)));
  }

  lemma ProgramParses(name: string, env: Env)
    requires Plain(name) && name !in Builtins && RedirectionOperator(name).None?
    ensures Parse(name + " ", env) ==
      match env.resolve(name)
      case Some(path) => Ok(External(name, [], path, []))
      case None => Err(NotFound(name))
  {
    TokenizeWordSpace(name);
    assert [name][1..] == [];
    ParseExternal(name + " ", env);
  }

  lemma DanglingParses(op: string, env: Env)
    requires RedirectionOperator(op).Some?
    ensures Parse(op + " ", env) == Err(MissingFile)
  {
    OperatorsArePlain(op);
    TokenizeWordSpace(op);
    assert [op][..0] == [];
    ParseDangling(op + " ", env);
  }

  /** An operator on its own lacks its filename, and `type` reports the
    * parse error. */
  lemma TypeReportsDanglingOperator(op: string, env: Env)
    requires RedirectionOperator(op).Some?
    ensures TypeCmd(op, env) == Some(Written(Stderr, "type: error: " + Render(MissingFile) + "\n"))
  {
    DanglingParses(op, env);
  }

  lemma InvalidPwdParses(w: string, env: Env)
    requires Plain(w) && RedirectionOperator(w).None?
    ensures Parse(Join(["pwd", w]) + " ", env) == Err(InvalidArguments("pwd"))
  {
    PwdWordTokens(w);
    PwdWordRejected(Join(["pwd", w]) + " ", w, env);
  }

  lemma PwdWordTokens(w: string)
    requires Plain(w)
    ensures Tokenize(Join(["pwd", w]) + " ") == ["pwd"] + [w]
  {
    PwdIsPlain();
    TokenizePairSpace("pwd", w);
  }

  lemma PwdIsPlain()
    ensures Plain("pwd")
  {
    assert forall c :: c in "pwd" ==> c == 'p' || c == 'w' || c == 'd';
  }

  /** Two bare words and the space `type` appends are those two tokens. */
  lemma TokenizePairSpace(a: string, b: string)
    requires Plain(a) && Plain(b)
    ensures Tokenize(Join([a, b]) + " ") == [a] + [b]
  {
    TokenizeJoinSpace([a, b], [a, b]);
    assert [a, b] == [a] + [b];
  }

  lemma PwdWordRejected(line: string, w: string, env: Env)
    requires Plain(w) && RedirectionOperator(w).None?
    requires Tokenize(line) == ["pwd"] + [w]
    ensures Parse(line, env) == Err(InvalidArguments("pwd"))
  {
    assert forall x :: x in [w] ==> x == w;
    ParsePwdPlain(line, [w], env);
    assert Join([w]) == w;
    assert !AllWhitespace(w) by {
      assert w[0] in w;
    }
  }

  /** The report follows from what the name parses to. */
  lemma ReportOfParse(cmd: string, env: Env, p: Result<Command, CommandError>)
    requires cmd != "" && Parse(cmd + " ", env) == p
    ensures TypeCmd(cmd, env) == Some(Report(cmd, p))
  {
  }

  /** `pwd` with a word after it does not parse, and `type` reports why. */
  lemma TypeReportsInvalidPwd(w: string, env: Env)
    requires Plain(w) && RedirectionOperator(w).None?
    ensures TypeCmd(Join(["pwd", w]), env) ==
      Some(Written(Stderr, "type: error: " + Render(InvalidArguments("pwd")) + "\n"))
  {
    InvalidPwdParses(w, env);
    JoinEnds(["pwd", w]);
  }

  /** A redirection with nothing else parses to `Noop`, which `type` reports
    * as not found. */
  lemma TypeReportsRedirectionOnly(op: string, file: string, env: Env)
    requires RedirectionOperator(op).Some? && Plain(file)
    ensures TypeCmd(Join([op, file]), env) == Some(Written(Stderr, Join([op, file]) + ": not found\n"))
  {
    OperatorsArePlain(op);
    TokenizeJoinSpace([op, file], [op, file]);
    ParseRedirectionOnly(Join([op, file]) + " ", env);
    JoinEnds([op, file]);
  }
}
