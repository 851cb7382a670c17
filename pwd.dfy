/** The argument parser of the `pwd` builtin. */
module Pwd {
  import opened Wrappers
  import opened Strings
  import opened Errors
  import opened CommandTypes

  /** `parse_pwd_cmd` accepts exactly the argument strings that are empty or
    * all whitespace (so a quoted space is accepted), passing the redirections
    * through; anything else is `InvalidArguments("pwd")`. */
  function ParsePwdCmd(args: string, redirections: seq<Redirection>): (r: Result<Command, CommandError>)
    ensures r.Ok? <==> AllWhitespace(args)
    ensures r.Ok? ==> r.value == Pwd(redirections)
    ensures r.Err? ==> r.error == InvalidArguments("pwd")
  {
    if Trim(args) == "" then Ok(Pwd(redirections)) else Err(InvalidArguments("pwd"))
  }
}
