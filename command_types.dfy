/** The values the parser produces: redirections and the `Command` sum type. */
module CommandTypes {

  /** Rust's `i32`, the type of an exit code. */
  newtype int32 = x: int | -0x8000_0000 <= x < 0x8000_0000

  /** Whether to truncate (`>`) or append (`>>`). */
  datatype RedirectionMode = Overwrite | Append

  /** The output stream a redirection replaces. */
  datatype RedirectionTarget = Stdout | Stderr

  datatype Redirection = Redirection(target: RedirectionTarget, file: string, mode: RedirectionMode)

  datatype Command =
    | Noop
    | Exit(code: int32)
    | Cd(path: string)
    | Echo(message: string, redirections: seq<Redirection>)
    | Type(cmd: string, redirections: seq<Redirection>)
    | Pwd(redirections: seq<Redirection>)
    | External(cmd: string, args: seq<string>, path: string, redirections: seq<Redirection>)

  /** One `writeln!`/`eprintln!` of a builtin: the stream and the text,
    * newline included. */
  datatype Written = Written(stream: RedirectionTarget, text: string)
}
