/**
 * The host as the version package sees it: which paths exist (`os.Stat`)
 * and what each command line prints and whether it exits successfully
 * (`exec.Command(...).Output()` and `.Run()`). Both are inputs of the
 * model, never computed by it.
 */
module System {
  import opened Wrappers

  /** How a command ended: exit status zero, or the text of the Go error. */
  datatype Status = Success | Failure(reason: string)

  /** What running one command line captured. */
  datatype Run = Run(stdout: string, stderr: string, status: Status)

  /**
   * `existing` is the set of paths `os.Stat` finds; `run` gives, for every
   * argument vector (program first), what running it would capture. A
   * command that cannot be started is a `Failure` with empty streams.
   */
  datatype Host = Host(existing: set<string>, run: seq<string> -> Run)

  /** `cmd.Output()`: the captured stdout when the command succeeds, nothing when it fails. */
  function Output(h: Host, argv: seq<string>): (r: Option<string>)
    ensures r.Some? <==> h.run(argv).status == Success
    ensures r.Some? ==> r.value == h.run(argv).stdout
  {
    var ran := h.run(argv);
    if ran.status == Success then Some(ran.stdout) else None
  }
}
