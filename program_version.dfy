/**
 * program / Program / ProgramDnsname: runs `<name> --version` and returns
 * what it printed, less one trailing newline, from stdout or (for dnsname)
 * from stderr; a failed run is an error carrying both captured streams.
 */
module ProgramVersion {
  import opened Wrappers
  import opened StringOps
  import opened System

  /** The error of a failed `--version` run, with what it captured and the Go error's text. */
  datatype VersionError = CommandFailed(program: string, stderr: string, stdout: string, cause: string)

  /** The command line that asks `program` for its version. */
  function VersionArgs(program: string): seq<string> {
    [program, "--version"]
  }

  /**
   * The error's text: "`<program> --version` failed: <stderr> <stdout> (<cause>)";
   * the program name and both captured streams can be read from it.
   */
  function ErrorMessage(e: VersionError): (m: string)
    ensures OccursAt(m, e.program, 1)
    ensures OccursAt(m, e.stderr, |e.program| + 21)
    ensures OccursAt(m, e.stdout, |e.program| + 22 + |e.stderr|)
    ensures Contains(m, e.program) && Contains(m, e.stderr) && Contains(m, e.stdout) && Contains(m, e.cause)
  {
    var head := "`" + e.program + " --version` failed: ";
    var m := head + e.stderr + " " + e.stdout + " (" + e.cause + ")";
    assert |head| == |e.program| + 21;
    assert m[1..1 + |e.program|] == e.program;
    assert m[|head|..|head| + |e.stderr|] == e.stderr;
    assert m[|head| + |e.stderr| + 1..|head| + |e.stderr| + 1 + |e.stdout|] == e.stdout;
    var c := |head| + |e.stderr| + 1 + |e.stdout| + 2;
    assert m[c..c + |e.cause|] == e.cause;
    assert OccursAt(m, e.program, 1) && OccursAt(m, e.cause, c);
    assert OccursAt(m, e.stderr, |head|);
    assert OccursAt(m, e.stdout, |head| + |e.stderr| + 1);
    m
  }

  /**
   * program(name, dnsname): on success, the chosen stream (stderr for
   * dnsname, stdout otherwise) with exactly one trailing newline removed if
   * present; on failure, an error with the name and both captured streams.
   */
  function VersionOf(h: Host, name: string, dnsname: bool): (r: Result<string, VersionError>)
    ensures var ran := h.run(VersionArgs(name));
            && (r.Err? <==> ran.status.Failure?)
            && (r.Err? ==> r.error.program == name && r.error.stderr == ran.stderr && r.error.stdout == ran.stdout)
            && (r.Ok? ==> var chosen := if dnsname then ran.stderr else ran.stdout;
                          chosen == r.value + "\n" || (chosen == r.value && (chosen == [] || chosen[|chosen| - 1] != '\n')))
  {
    var ran := h.run(VersionArgs(name));
    match ran.status
    case Failure(cause) => Err(CommandFailed(name, ran.stderr, ran.stdout, cause))
    case Success => Ok(TrimOneNewline(if dnsname then ran.stderr else ran.stdout))
  }

  /** Program(name): the version text `name --version` writes to stdout. */
  function Program(h: Host, name: string): (r: Result<string, VersionError>)
    ensures var ran := h.run(VersionArgs(name));
            (r.Err? <==> ran.status.Failure?) && (r.Ok? ==> TrimOneNewline(ran.stdout) == r.value)
  {
    VersionOf(h, name, false)
  }

  /** ProgramDnsname(name): the version text `name --version` writes to stderr. */
  function ProgramDnsname(h: Host, name: string): (r: Result<string, VersionError>)
    ensures var ran := h.run(VersionArgs(name));
            (r.Err? <==> ran.status.Failure?) && (r.Ok? ==> TrimOneNewline(ran.stderr) == r.value)
  {
    VersionOf(h, name, true)
  }

  /** A tool printing "<text>\n" on stdout reports exactly <text>, even when <text> ends in a newline. */
  lemma ProgramStripsOneNewline(h: Host, name: string, text: string)
    requires h.run(VersionArgs(name)).status == Success
    requires h.run(VersionArgs(name)).stdout == text + "\n"
    ensures Program(h, name) == Ok(text)
  {
    TrimOneNewlineUndoesAppend(text);
  }

  /** On success, what the dnsname variant reports does not depend on stdout. */
  lemma DnsnameIgnoresStdout(h1: Host, h2: Host, name: string)
    requires h1.run(VersionArgs(name)).status == Success == h2.run(VersionArgs(name)).status
    requires h1.run(VersionArgs(name)).stderr == h2.run(VersionArgs(name)).stderr
    ensures ProgramDnsname(h1, name) == ProgramDnsname(h2, name)
  {
  }

  /** A failed run's error text names the program and holds both captured streams. */
  lemma FailureMessageIsDiagnosable(h: Host, name: string, dnsname: bool)
    requires h.run(VersionArgs(name)).status.Failure?
    ensures var r := VersionOf(h, name, dnsname);
            var ran := h.run(VersionArgs(name));
            r.Err? && Contains(ErrorMessage(r.error), name)
            && Contains(ErrorMessage(r.error), ran.stderr) && Contains(ErrorMessage(r.error), ran.stdout)
  {
  }
}
