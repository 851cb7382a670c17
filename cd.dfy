/** The `cd` builtin: its argument parser and its failure message. */
module Cd {
  import opened Wrappers
  import opened Errors
  import opened CommandTypes

  /** `parse_cd_cmd` never fails and keeps the argument string verbatim: no
    * trimming and no `~` expansion happen at parse time. `Cd` carries no
    * redirections, so any on the line are dropped. */
  function ParseCdCmd(args: string): (r: Result<Command, CommandError>)
    ensures r.Ok? && r.value.Cd? && r.value.path == args
  {
    Ok(Cd(args))
  }

  const CdFailurePrefix := "cd: "
  const CdFailureSuffix := ": No such file or directory\n"

  /** What `cd_cmd` prints on standard error when the directory cannot be
    * entered: the path as given, between fixed text. */
  function CdFailure(path: string): (w: Written)
    ensures w.stream == Stderr
    ensures |w.text| == |CdFailurePrefix| + |path| + |CdFailureSuffix|
    ensures w.text[|CdFailurePrefix|..|CdFailurePrefix| + |path|] == path
    ensures w.text[..|CdFailurePrefix|] == CdFailurePrefix
    ensures w.text[|CdFailurePrefix| + |path|..] == CdFailureSuffix
  {
    Written(Stderr, CdFailurePrefix + path + CdFailureSuffix)
  }

  /** The failure message names the path unambiguously. */
  lemma CdFailureInjective(a: string, b: string)
    requires CdFailure(a) == CdFailure(b)
    ensures a == b
  {
    var t := CdFailure(a).text;
    assert a == t[|CdFailurePrefix|..|CdFailurePrefix| + |a|];
  }
}
