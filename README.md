# Command-line parser of a small Rust shell

This project models, in Dafny, how the shell turns one line of input into a
typed `Command` or a `CommandError`, before anything is executed:

- `Command::from` trims the line and splits it into tokens. A `while` loop then
  removes every redirection operator (`>`, `1>`, `>>`, `1>>`, `2>`, `2>>`)
  together with the filename token after it. For each stream it keeps the last
  redirection. The surviving redirections are pushed standard output first.
  The first remaining token selects `Noop`, a builtin (`echo`, `exit`, `type`,
  `pwd`, `cd`) or an external program.
- The two single-quote-aware scanners of the argument utilities:
  `preprocess_args` and `split_args_respecting_single_quotes`.
- The argument parsers of `echo`, `type`, `pwd` and `cd`.
- What `echo` prints, and what `cd` prints when it fails.
- The decision table of `type`, which re-parses the queried name and prints
  one line on one stream.
- The `Display` text of `CommandError`.

The loops of the source are methods with loop invariants
(`Utils.PreprocessArgs`, `Utils.SplitArgsRespectingSingleQuotes`,
`CommandParse.ExtractRedirections`). The pushes that build the redirection
vector and `Command::from` as a whole are imperative methods without a loop
(`CommandParse.CollectRedirections`, `CommandParse.From`). Each of these
methods is proved equal to a specification function (`Preprocess`, `Split`,
`Extract`, `Assemble`, `Parse`). The properties are
proved as lemmas about those functions.

Modules, one per source file:

- `Wrappers`: `Option` and `Result`.
- `Strings`: Rust's `str::trim` (Unicode White_Space) and `join(" ")`.
- `Utils`: `src/command/utils.rs`.
- `Errors`: `src/command/error.rs`.
- `CommandTypes`: the types of `src/command.rs`.
- `Echo`, `Cd`, `Pwd` and `Typee`: the builtin modules.
- `CommandParse`: `Command::from`.
- `TypeeReport`: the output of `type_cmd`. It is a separate module because it
  calls the whole parser.

The tokenizer called at `src/command.rs:92`, `utils::split_args`, is not part
of this model. In its place the model uses `split_args_respecting_single_quotes`
from `src/command/utils.rs`. Two things outside the line are parameters
(`CommandParse.Env`):

- the search-path lookup of an external program (`resolve`, the program's
  path if found);
- the argument parser of `exit` (`parseExit`).

With this stand-in tokenizer, quoted operators are not inert. Quotes are
removed while the line is split, before operators are recognised, so
`echo '>' f` redirects to `f` (`CommandParse.ParseQuotedOperator`). This
follows from `split_args_respecting_single_quotes`; `utils::split_args`,
which is not part of this model, may behave differently.

## Model

| member | source | states |
|---|---|---|
| CommandParse.OperatorGrammar | src/command.rs:100-106 | A token is an operator exactly when, after an optional stream digit `1` or `2`, what remains is `>` or `>>`. |
| CommandParse.OperatorMeaning | src/command.rs:100-106 | An operator targets standard error exactly when it starts with `2`, and appends exactly when it ends in `>>`. |
| CommandParse.NotAnOperator | src/command.rs:100-107 | A token longer than three characters, or one starting with neither `>` nor a stream digit, is never an operator. |
| CommandParse.Extract | src/command.rs:98-126 | The loop's outcome. Its only error is the missing filename. No surviving token is an operator. The stdout slot holds a stdout redirection and the stderr slot a stderr one. There are never more surviving tokens than input tokens. |
| CommandParse.ExtractOnlyRemoves | src/command.rs:107-119 | Tokens are only ever removed: the surviving tokens are the input with some tokens deleted and the rest in their original order. |
| CommandParse.ExtractAppend | src/command.rs:98-126 | Once a prefix extracts without error, the rest of the line extracts on its own, and the results combine. Later redirections supersede earlier ones. |
| CommandParse.ExtractKeepsPlainTokens | src/command.rs:107-110 | Tokens that are not operators pass through unchanged and in order, and no redirection is recorded. |
| CommandParse.ExtractLastWins | src/command.rs:118-125 | An operator removes exactly itself and the next token, which it takes verbatim as the filename. The surviving tokens keep their order. The operator's redirection is kept for its stream unless a later one for the same stream follows. The other stream is untouched. |
| CommandParse.ExtractDangling | src/command.rs:113-117 | An operator in last position, after a prefix that extracts without error, makes the line `InvalidArguments("Missing file for redirection")`. An operator that is the filename of the one before it is not dangling. |
| CommandParse.ExtractErrorIsDangling | src/command.rs:113-117 | Conversely, extraction fails only when the last token is an operator and everything before it extracts without error. |
| CommandParse.ExtractPair | src/command.rs:113-125 | An operator and a filename alone record exactly one redirection, with the operator's target and mode, and leave no tokens. |
| CommandParse.ExtractRedirections | src/command.rs:98-126 | The in-place `remove`/`remove` loop terminates (`len - i` decreases), and its result equals `Extract` of the tokens. |
| CommandParse.AssembleKeepsBoth | src/command.rs:128-134 | The vector has at most two entries and holds exactly the kept redirections. Every standard-output entry precedes every standard-error entry. |
| CommandParse.CollectRedirections | src/command.rs:128-134 | The conditional pushes build exactly `Assemble` of the two kept redirections. |
| CommandParse.Dispatch | src/command.rs:136-159 | No tokens means `Noop`. A first token that is not a builtin yields `External` with the resolved path, the remaining tokens as a list and the redirections, or else `NotFound` of that name. |
| CommandParse.DispatchFollowsFirstToken | src/command.rs:148-159 | Apart from `exit`, a successful dispatch yields the command named by the first token. `Echo`, `Type`, `Pwd` and `External` carry the given redirections. |
| CommandParse.DispatchEcho | src/command.rs:142-150 | `echo` receives the remaining tokens joined by single spaces, together with the redirections. |
| CommandParse.DispatchType | src/command.rs:142-152 | `type` queries the remaining tokens joined by single spaces and then trimmed, and keeps the redirections. |
| CommandParse.DispatchCd | src/command.rs:142-154 | `cd` receives the joined remaining tokens. Its redirections are dropped. |
| CommandParse.DispatchPwd | src/command.rs:142-153 | `pwd` succeeds exactly when the joined remaining tokens are all whitespace. Otherwise the result is `InvalidArguments("pwd")`. |
| CommandParse.From | src/command.rs:89-160 | The method `Command::from` (trim, split, extraction loop, pushes, dispatch) returns exactly `Parse` of the line. |
| CommandParse.ParseIgnoresSurroundingWhitespace | src/command.rs:91 | Whitespace before or after a line never changes what it parses to. |
| CommandParse.ParseBlank | src/command.rs:91-149 | A blank or all-whitespace line parses to `Noop`. |
| CommandParse.TokenizeJoin | src/command.rs:91-92 | Tokens typed bare or in single quotes, with no whitespace at their ends and joined by single spaces, tokenize back into those tokens. |
| CommandParse.TokenizeJoinSpace | src/command/typee.rs:14-15 | The same holds after one trailing space, the form in which `type` re-parses a name. |
| CommandParse.ParseExternal | src/command.rs:136-158 | A line with no operator and a non-builtin first token is that program with the other tokens as arguments and no redirections, or `NotFound` of its name. |
| CommandParse.ParseEcho | src/command.rs:142-150 | `echo` with plain words is an `Echo` whose message is the words joined by single spaces. Unquoted space runs collapse. |
| CommandParse.ParseType | src/command.rs:142-152 | `type` with plain words queries their trimmed join. |
| CommandParse.ParseCd | src/command.rs:136-154 | `cd` gets the rest of the line, with operators and filenames removed, as its path. It drops the redirections. `cd` alone is `Cd("")`. |
| CommandParse.ParsePwd | src/command.rs:98-153 | `pwd > out 2>> err args` gives `Pwd` with the stdout-overwrite and stderr-append redirections, in that order, exactly when the arguments are blank. Otherwise it is `InvalidArguments("pwd")`. |
| CommandParse.ParsePwdPlain | src/command.rs:142-153 | `pwd` with plain arguments parses exactly when the joined arguments are all whitespace. |
| CommandParse.ParsePwdQuotedBlanks | src/command/pwd.rs:24 | `pwd ' '` is accepted, because the argument is trimmed before it is checked. |
| CommandParse.ParseRedirectionOnly | src/command.rs:128-149 | A line holding only one redirection is `Noop`, although a redirection was recorded. |
| CommandParse.ParseDangling | src/command.rs:113-117 | A line whose last token is an operator, after tokens that extract without error, is the missing-file error, whatever the command name. |
| CommandParse.ParseQuotedOperator | src/command.rs:91-125 | With the stand-in tokenizer, a single-quoted operator still redirects: `echo '>' f` is an `Echo` of the empty message into `f`. |
| Utils.PreprocessArgs | src/command/utils.rs:3-32 | The character loop, including the final `pop`, equals the specification function `Preprocess`. |
| Utils.PreprocessDropsQuotes | src/command/utils.rs:10 | The output never contains `'`. |
| Utils.PreprocessKeepsText | src/command/utils.rs:8-25 | With spaces removed, the output is the input with spaces and quotes removed: every other character is kept, in order. |
| Utils.PreprocessCollapsesSpaces | src/command/utils.rs:11-29 | For input without quotes, the output has no two adjacent spaces and no trailing space. |
| Utils.PreprocessKeepsQuotedAfter | src/command/utils.rs:10-14 | Wherever a quoted text stands, after any prefix that leaves no quote open, it appends exactly what is written between the quotes, spaces one for one, and leaves no quote open. |
| Utils.PreprocessKeepsQuoted | src/command/utils.rs:12-14 | A line that is one quoted text comes out exactly as written between the quotes. |
| Utils.SplitArgsRespectingSingleQuotes | src/command/utils.rs:34-58 | The character loop equals the specification function `Split`. |
| Utils.SplitTokensAreGood | src/command/utils.rs:41-55 | No token is empty, and no token contains `'`. |
| Utils.SplitBlank | src/command/utils.rs:42-48 | Empty or all-space input gives no tokens. |
| Utils.SplitKeepsText | src/command/utils.rs:39-55 | The tokens concatenated are the input with quotes and unquoted spaces removed. Quoted spaces stay. |
| Utils.SplitQuoted | src/command/utils.rs:41-55 | A quoted text is one token. An unterminated quote behaves as if closed at the end of the input. |
| Utils.SplitIgnoresTrailingQuote | src/command/utils.rs:41 | A quote at the end of the input changes no token. |
| Utils.SplitJoin | src/command/utils.rs:39-55 | Tokens written bare or quoted and joined by single spaces split back into exactly those tokens. |
| Strings.Trim | src/command.rs:91 | Neither end of the result is whitespace. The result is empty exactly when the input is all whitespace. |
| Strings.TrimIsMiddle | src/command.rs:91 | The trimmed string is a contiguous piece of the input with only whitespace before it and after it. |
| Strings.TrimIgnoresSurrounding | src/command.rs:91 | Whitespace around a string never changes its trim. |
| Errors.Render | src/command/error.rs:9-16 | `NotFound(c)` renders as `c` followed by `: command not found`. `InvalidArguments(d)` renders as `Invalid arguments for command '`, then `d`, then a closing quote. |
| Errors.RenderInjective | src/command/error.rs:11-14 | The message determines the variant and its payload. |
| Echo.ParseEchoCmd | src/command/echo.rs:12-17 | Never fails. The message is the argument string verbatim, and the redirections pass through. |
| Echo.EchoOutput | src/command/echo.rs:4-10 | One write to standard output: the message followed by exactly one newline. |
| Cd.ParseCdCmd | src/command/cd.rs:15-17 | Never fails. The argument string is kept verbatim, with no trimming and no `~` expansion. |
| Cd.CdFailure | src/command/cd.rs:11 | On standard error, `cd: `, then the path, then `: No such file or directory` and a newline. |
| Cd.CdFailureInjective | src/command/cd.rs:11 | Different paths give different failure messages. |
| Pwd.ParsePwdCmd | src/command/pwd.rs:23-29 | Succeeds exactly when the arguments are empty or all whitespace, passing the redirections through. Otherwise the result is `InvalidArguments("pwd")`. |
| Typee.ParseTypeCmd | src/command/typee.rs:35-38 | Never fails. The query is the argument trimmed (`Strings.Trim` of it): it is empty exactly for blank arguments, and otherwise neither of its ends is whitespace. The redirections pass through. |
| TypeeReport.Report | src/command/typee.rs:15-32 | Exactly one line, ending in a newline, on standard output exactly when the re-parse succeeded with a command other than `Noop`. |
| TypeeReport.TypeCmd | src/command/typee.rs:4-33 | An empty query prints nothing. Any other query prints one line, on standard output exactly when the name with a trailing space parses to a command other than `Noop`. |
| TypeeReport.TypeReportsBuiltin | src/command/typee.rs:23-25 | `echo`, `type`, `pwd` and `cd` are reported on standard output as shell builtins. |
| TypeeReport.TypeReportsProgram | src/command/typee.rs:16-18 | Any other plain name is reported on standard output with its resolved path (`<cmd> is <path>`), or as `<cmd>: not found` on standard error. |
| TypeeReport.TypeReportsDanglingOperator | src/command/typee.rs:29-31 | An operator alone is reported on standard error as `type: error: ` followed by the missing-file error's text. |
| TypeeReport.TypeReportsInvalidPwd | src/command/typee.rs:29-31 | `pwd <word>` is reported on standard error as `type: error: Invalid arguments for command 'pwd'`. |
| TypeeReport.TypeReportsRedirectionOnly | src/command/typee.rs:19-22 | A lone redirection parses to `Noop` and is reported as `<cmd>: not found` on standard error. |

## Left out

- Execution is not modelled: `Command::execute`, and `utils::get_output_writer`, which opens or creates the redirection files and is not part of this model. Only the values these are given are modelled, and the lines `echo`, `cd` and `type` print.
- The bodies of `pwd_cmd` and `cd_cmd` are left out, because their results depend on the process's working directory, an operating-system effect. Only `cd`'s failure message is modelled.
- `src/main.rs` (the read–parse–execute loop) is I/O and is not part of this model.
- `src/command/external.rs` reads `PATH` and probes the file system. It is the `resolve` parameter of `CommandParse.Env`, and spawning programs is not modelled.
- `src/command/external.rs:17` builds `External` from an argument string, while `src/command.rs:155` passes the argument tokens and the redirections. The model follows the call in `src/command.rs`.
- `parse_exit_cmd` lives in a module that is not part of this model. It is the `parseExit` parameter, and no rules of `exit` are assumed.
- `utils::split_args`, the tokenizer `Command::from` calls, is not part of this model. `split_args_respecting_single_quotes` stands in for it, so the model's tokenizer separates only on unquoted U+0020 spaces.
- Double quotes, backslash escapes and tabs as separators do not occur in the modelled code, and are not modelled.
- `preprocess_args` has no caller among the modelled files, so it is modelled on its own.
- CommandParse.DispatchFollowsFirstToken: says nothing about `exit`, because the result then comes from the `parseExit` parameter.
- TypeeReport.TypeReportsBuiltin: does not cover `exit`, for the same reason.
