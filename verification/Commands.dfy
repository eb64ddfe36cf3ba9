/** What the fixed command runner hands back. */
module Commands {
  import opened Basics

  datatype CommandOutput = CommandOutput(exited: bool, exitCode: int, signaled: bool, stdout: string, stderr: string)

  predicate CleanExit(o: CommandOutput, code: int) { o.exited && o.exitCode == code && !o.signaled }

  /** A command that succeeded without a complaint; without an output it did not complete. */
  predicate Clean(o: Option<CommandOutput>) { o.Some? && CleanExit(o.value, 0) && o.value.stderr == "" }

  lemma CleanIs(o: Option<CommandOutput>)
    ensures Clean(o) <==> exists text :: o == Some(CommandOutput(true, 0, false, text, ""))
    ensures Silent(o) <==> o == Some(CommandOutput(true, 0, false, "", ""))
  {
    if Clean(o) { assert o == Some(CommandOutput(true, 0, false, o.value.stdout, "")); }
  }

  /** A command that succeeded without a word. */
  predicate Silent(o: Option<CommandOutput>) { Clean(o) && o.value.stdout == "" }
}
