/** The `echo` builtin: its argument parser and what it prints. */
module Echo {
  import opened Wrappers
  import opened Errors
  import opened CommandTypes

  /** `parse_echo_cmd` never fails: the message is the argument string
    * exactly as given, and the redirections are passed through. */
  function ParseEchoCmd(args: string, redirections: seq<Redirection>): (r: Result<Command, CommandError>)
    ensures r.Ok? && r.value.Echo?
    ensures r.value.message == args && r.value.redirections == redirections
  {
    Ok(Echo(args, redirections))
  }

  /** `echo_cmd` writes one line: the message and a single newline, on the
    * (possibly redirected) standard output. */
  function EchoOutput(message: string): (w: Written)
    ensures w.stream == Stdout
    ensures |w.text| == |message| + 1 && w.text[..|message|] == message && w.text[|message|] == '\n'
  {
    Written(Stdout, message + "\n")
  }
}
