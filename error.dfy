/** The two parse-time errors of the shell and the text they print as. */
module Errors {

  datatype CommandError =
    | NotFound(name: string)
    | InvalidArguments(detail: string)

  const NotFoundSuffix := ": command not found"
  const InvalidPrefix := "Invalid arguments for command '"

  /** `Display for CommandError`: the payload appears verbatim, followed by
    * (NotFound) or wrapped in (InvalidArguments) fixed text. */
  function Render(e: CommandError): (s: string)
    ensures e.NotFound? ==>
              && |s| == |e.name| + |NotFoundSuffix|
              && s[..|e.name|] == e.name
              && s[|e.name|..] == NotFoundSuffix
    ensures e.InvalidArguments? ==>
              && |s| == |InvalidPrefix| + |e.detail| + 1
              && s[..|InvalidPrefix|] == InvalidPrefix
              && s[|InvalidPrefix|..|s| - 1] == e.detail
              && s[|s| - 1] == '\''
  {
    match e
    case NotFound(name) => name + NotFoundSuffix
    case InvalidArguments(detail) => InvalidPrefix + detail + "'"
  }

  /** Different errors never print the same message: the message determines
    * both the variant and its payload. */
  lemma RenderInjective(a: CommandError, b: CommandError)
    requires Render(a) == Render(b)
    ensures a == b
  {
    var s := Render(a);
    if a.NotFound? && b.NotFound? {
      assert a.name == s[..|a.name|] == b.name;
    } else if a.InvalidArguments? && b.InvalidArguments? {
      assert a.detail == s[|InvalidPrefix|..|s| - 1] == b.detail;
    }
    // Otherwise the variants differ, which cannot be: a NotFound message
    // ends in 'd' and an InvalidArguments one in a quote.
  }
}
