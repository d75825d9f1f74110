/**
 * queryPackageVersion: asks one package manager which package owns a file,
 * then post-processes its answer (the Debian dpkg-query canonicalisation and
 * the Alpine "is owned by" prefix) and trims surrounding newlines.
 */
module OwnerQuery {
  import opened Wrappers
  import opened StringOps
  import opened System

  /** The sentinel for "no definitive package". */
  const Unknown: string := "Unknown"

  const Dlocate: string := "/usr/bin/dlocate"
  const Dpkg: string := "/usr/bin/dpkg"
  const DpkgQuery: string := "/usr/bin/dpkg-query"
  const Apk: string := "/sbin/apk"

  /** The dpkg-query output format giving `name_version_arch`. */
  const QueryFormat: string := "${Package}_${Version}_${Architecture}"

  /** What apk prints between the queried path and the package. */
  const OwnedBy: string := " is owned by "

  /** The package managers whose answers get special treatment, told apart by path. */
  datatype Tool = DlocateTool | DpkgTool | ApkTool | OtherTool

  function ToolOf(bin: string): Tool {
    if bin == Dlocate then DlocateTool
    else if bin == Dpkg then DpkgTool
    else if bin == Apk then ApkTool
    else OtherTool
  }

  /** The special paths are recognised as their tools. */
  lemma ToolOfKnownPaths()
    ensures ToolOf(Dlocate) == DlocateTool && ToolOf(Dpkg) == DpkgTool && ToolOf(Apk) == ApkTool
  {
    assert |Dlocate| == 16 && |Dpkg| == 13 && |Apk| == 9;
  }

  /** The Debian second lookup for a package name. */
  function DpkgQueryArgs(name: string): seq<string> {
    [DpkgQuery, "-f", QueryFormat, "-W", name]
  }

  /** The part of a Debian tool's answer that names the package: before the first ": ". */
  function DebianName(line: string): string {
    BeforeSep(line, ": ")
  }

  /**
   * The Debian canonicalisation of `line`: dpkg-query's stdout for the name
   * in `line` when that lookup succeeds, `line` itself otherwise.
   */
  function Canonical(h: Host, line: string): string {
    match Output(h, DpkgQueryArgs(DebianName(line)))
    case Some(canonical) => canonical
    case None => line
  }

  /**
   * The answer after the Debian quirks, given that the tool succeeded with
   * `stdout`: dlocate keeps only its first line, and dlocate and dpkg answers
   * are canonicalised.
   */
  function AfterDebian(h: Host, tool: Tool, stdout: string): string {
    match tool
    case DlocateTool => Canonical(h, FirstLine(stdout))
    case DpkgTool => Canonical(h, stdout)
    case _ => stdout
  }

  /**
   * The answer of `cmdArg` before trimming, when the package manager
   * exists and there is something to run: its stdout after the Debian
   * quirks, or "Unknown" when it fails; for apk, with the first
   * "<last argument> is owned by " removed.
   */
  function Answer(h: Host, cmdArg: seq<string>): string
    requires |cmdArg| > 1
  {
    var tool := ToolOf(cmdArg[0]);
    var answer :=
      match Output(h, cmdArg)
      case Some(stdout) => AfterDebian(h, tool, stdout)
      case None => Unknown;
    if tool == ApkTool then RemoveFirst(answer, cmdArg[|cmdArg| - 1] + OwnedBy) else answer
  }

  /**
   * queryPackageVersion(cmdArg...): "" when the package manager `cmdArg[0]`
   * is absent; otherwise its answer, "Unknown" when it was not run or
   * failed; never with a leading or trailing newline.
   */
  function QueryPackageVersion(h: Host, cmdArg: seq<string>): (r: string)
    requires |cmdArg| > 0
    ensures cmdArg[0] !in h.existing ==> r == ""
    ensures cmdArg[0] in h.existing && (|cmdArg| == 1 || Output(h, cmdArg).None?) ==> r == Unknown
    ensures NoEdgeNewline(r)
  {
    if cmdArg[0] !in h.existing then ""
    else
      var answer := if 1 < |cmdArg| then Answer(h, cmdArg) else Unknown;
      assert Output(h, cmdArg).None? ==> answer == Unknown by {
        if 1 < |cmdArg| && Output(h, cmdArg).None? {
          FailedRunAnswersUnknown(h, cmdArg);
        }
      }
      UnknownIsClean();
      TrimNewlines(answer)
  }

  /** "Unknown" survives newline trimming untouched. */
  lemma UnknownIsClean()
    ensures TrimNewlines(Unknown) == Unknown
  {
    assert Unknown[0] == 'U' && Unknown[|Unknown| - 1] == 'n';
    TrimNewlinesKeepsClean(Unknown);
  }

  /** apk's prefix removal leaves "Unknown" untouched: the prefix is longer than it. */
  lemma ApkLeavesUnknown(path: string)
    ensures RemoveFirst(Unknown, path + OwnedBy) == Unknown
  {
    assert |Unknown| < |path + OwnedBy|;
  }

  /** A run that fails answers "Unknown", apk included. */
  lemma FailedRunAnswersUnknown(h: Host, cmdArg: seq<string>)
    requires |cmdArg| > 1 && Output(h, cmdArg).None?
    ensures Answer(h, cmdArg) == Unknown
  {
    ApkLeavesUnknown(cmdArg[|cmdArg| - 1]);
  }

  /** A present package manager with something to run answers its trimmed Answer. */
  lemma QueryIsTrimmedAnswer(h: Host, cmdArg: seq<string>)
    requires |cmdArg| > 1 && cmdArg[0] in h.existing
    ensures QueryPackageVersion(h, cmdArg) == TrimNewlines(Answer(h, cmdArg))
  {
  }

  /** A successful run of a tool other than apk is answered by the Debian step. */
  lemma AnswerOfSuccess(h: Host, cmdArg: seq<string>)
    requires |cmdArg| > 1 && ToolOf(cmdArg[0]) != ApkTool
    requires h.run(cmdArg).status == Success
    ensures Answer(h, cmdArg) == AfterDebian(h, ToolOf(cmdArg[0]), h.run(cmdArg).stdout)
  {
  }

  /** The answer is already trimmed: trimming it again changes nothing. */
  lemma QueryResultIsTrimmed(h: Host, cmdArg: seq<string>)
    requires |cmdArg| > 0
    ensures TrimNewlines(QueryPackageVersion(h, cmdArg)) == QueryPackageVersion(h, cmdArg)
  {
    TrimNewlinesKeepsClean(QueryPackageVersion(h, cmdArg));
  }

  /** A package manager without quirks (rpm, pacman, qfile, equery, pkg) answers its stdout, trimmed. */
  lemma PlainAnswerIsStdout(h: Host, cmdArg: seq<string>)
    requires |cmdArg| > 1 && cmdArg[0] in h.existing
    requires cmdArg[0] != Dlocate && cmdArg[0] != Dpkg && cmdArg[0] != Apk
    requires h.run(cmdArg).status == Success
    ensures QueryPackageVersion(h, cmdArg) == TrimNewlines(h.run(cmdArg).stdout)
  {
    assert ToolOf(cmdArg[0]) == OtherTool;
    AnswerOfSuccess(h, cmdArg);
    QueryIsTrimmedAnswer(h, cmdArg);
  }

  /** Canonicalising depends only on the name in the line and on the dpkg-query lookups. */
  lemma CanonicalOfSameLine(h1: Host, h2: Host, line: string)
    requires forall name :: h1.run(DpkgQueryArgs(name)) == h2.run(DpkgQueryArgs(name))
    ensures Canonical(h1, line) == Canonical(h2, line)
  {
    var argv := DpkgQueryArgs(DebianName(line));
    assert h1.run(argv) == h2.run(argv);
  }

  /**
   * dlocate may list several matches: only its first line matters. Two hosts
   * whose dlocate answers share a first line, and whose dpkg-query lookups
   * agree, give the same result.
   */
  lemma DlocateUsesFirstLine(h1: Host, h2: Host, cmdArg: seq<string>)
    requires |cmdArg| > 1 && cmdArg[0] == Dlocate
    requires h1.existing == h2.existing
    requires h1.run(cmdArg).status == Success && h2.run(cmdArg).status == Success
    requires FirstLine(h1.run(cmdArg).stdout) == FirstLine(h2.run(cmdArg).stdout)
    requires forall name :: h1.run(DpkgQueryArgs(name)) == h2.run(DpkgQueryArgs(name))
    ensures QueryPackageVersion(h1, cmdArg) == QueryPackageVersion(h2, cmdArg)
  {
    ToolOfKnownPaths();
    var line := FirstLine(h1.run(cmdArg).stdout);
    CanonicalOfSameLine(h1, h2, line);
    AnswerOfSuccess(h1, cmdArg);
    AnswerOfSuccess(h2, cmdArg);
    assert Answer(h1, cmdArg) == Canonical(h1, line) == Canonical(h2, line) == Answer(h2, cmdArg);
    if Dlocate in h1.existing {
      QueryIsTrimmedAnswer(h1, cmdArg);
      QueryIsTrimmedAnswer(h2, cmdArg);
    }
  }

  /** The line a Debian tool's stdout is reduced to: dlocate's first line, all of dpkg's. */
  function DebianLine(bin: string, stdout: string): string {
    if bin == Dlocate then FirstLine(stdout) else stdout
  }

  /** A successful dpkg-query lookup replaces a Debian tool's answer with its canonical form. */
  lemma DebianLookupReplacesAnswer(h: Host, cmdArg: seq<string>)
    requires |cmdArg| > 1 && cmdArg[0] in h.existing && (cmdArg[0] == Dlocate || cmdArg[0] == Dpkg)
    requires h.run(cmdArg).status == Success
    requires h.run(DpkgQueryArgs(DebianName(DebianLine(cmdArg[0], h.run(cmdArg).stdout)))).status == Success
    ensures QueryPackageVersion(h, cmdArg) ==
              TrimNewlines(h.run(DpkgQueryArgs(DebianName(DebianLine(cmdArg[0], h.run(cmdArg).stdout)))).stdout)
  {
    ToolOfKnownPaths();
    AnswerOfSuccess(h, cmdArg);
    QueryIsTrimmedAnswer(h, cmdArg);
  }

  /**
   * When the dpkg-query lookup fails, a Debian tool's own answer is kept:
   * the first line for dlocate, the whole stdout for dpkg.
   */
  lemma DebianLookupFailureKeepsAnswer(h: Host, cmdArg: seq<string>)
    requires |cmdArg| > 1 && cmdArg[0] in h.existing && (cmdArg[0] == Dlocate || cmdArg[0] == Dpkg)
    requires h.run(cmdArg).status == Success
    requires h.run(DpkgQueryArgs(DebianName(DebianLine(cmdArg[0], h.run(cmdArg).stdout)))).status != Success
    ensures QueryPackageVersion(h, cmdArg) == TrimNewlines(DebianLine(cmdArg[0], h.run(cmdArg).stdout))
  {
    ToolOfKnownPaths();
    AnswerOfSuccess(h, cmdArg);
    QueryIsTrimmedAnswer(h, cmdArg);
  }

  /** For apk, the answer is its stdout with at most the first "<path> is owned by " removed. */
  lemma ApkRemovesOneOwnerPrefix(h: Host, cmdArg: seq<string>)
    requires |cmdArg| > 1 && cmdArg[0] == Apk && Apk in h.existing
    requires h.run(cmdArg).status == Success
    ensures QueryPackageVersion(h, cmdArg) == TrimNewlines(RemoveFirst(h.run(cmdArg).stdout, cmdArg[|cmdArg| - 1] + OwnedBy))
  {
    ToolOfKnownPaths();
    assert AfterDebian(h, ApkTool, h.run(cmdArg).stdout) == h.run(cmdArg).stdout;
    QueryIsTrimmedAnswer(h, cmdArg);
  }

  /**
   * `dpkg -S path` answers "name: path"; the result is dpkg-query's
   * canonical `name_version_arch` for that name.
   */
  lemma DpkgAnswerIsCanonicalised(h: Host, path: string, name: string, canonical: string)
    requires Dpkg in h.existing && ':' !in name
    requires h.run([Dpkg, "-S", path]) == Run(name + ": " + path + "\n", "", Success)
    requires h.run(DpkgQueryArgs(name)) == Run(canonical, "", Success)
    ensures QueryPackageVersion(h, [Dpkg, "-S", path]) == TrimNewlines(canonical)
  {
    var cmd := [Dpkg, "-S", path];
    var out := name + ": " + path + "\n";
    assert out == name + ": " + (path + "\n");
    NameBeforeColon(name, path + "\n");
    assert DebianLine(cmd[0], out) == out;
    DebianLookupReplacesAnswer(h, cmd);
  }

  /**
   * `dlocate -F path` may answer several lines "name: path"; only the
   * first one's name is canonicalised.
   */
  lemma DlocateFirstMatchIsCanonicalised(h: Host, path: string, name: string, more: string, canonical: string)
    requires Dlocate in h.existing && ':' !in name && '\n' !in name && '\n' !in path
    requires h.run([Dlocate, "-F", path]) == Run(name + ": " + path + "\n" + more, "", Success)
    requires h.run(DpkgQueryArgs(name)) == Run(canonical, "", Success)
    ensures QueryPackageVersion(h, [Dlocate, "-F", path]) == TrimNewlines(canonical)
  {
    var cmd := [Dlocate, "-F", path];
    var line := name + ": " + path;
    assert name + ": " + path + "\n" + more == line + "\n" + more;
    FirstLineOfJoin(line, more);
    NameBeforeColon(name, path);
    assert DebianLine(cmd[0], h.run(cmd).stdout) == line;
    DebianLookupReplacesAnswer(h, cmd);
  }

  /** `apk info -W path` answers "path is owned by pkg": the result is pkg. */
  lemma ApkStripsOwnerPrefix(h: Host, path: string, pkg: string)
    requires Apk in h.existing
    requires h.run([Apk, "info", "-W", path]) == Run(path + OwnedBy + pkg, "", Success)
    ensures QueryPackageVersion(h, [Apk, "info", "-W", path]) == TrimNewlines(pkg)
  {
    var cmd := [Apk, "info", "-W", path];
    assert path + OwnedBy + pkg == (path + OwnedBy) + pkg;
    RemoveFirstOfPrefix(path + OwnedBy, pkg);
    ApkRemovesOneOwnerPrefix(h, cmd);
  }

  /** A name without ':' is what precedes the first ": " of "name: rest". */
  lemma NameBeforeColon(name: string, rest: string)
    requires ':' !in name
    ensures DebianName(name + ": " + rest) == name
  {
    var s := name + ": " + rest;
    forall k: nat | k < |name| ensures !OccursAt(s, ": ", k) {
      assert s[k] == name[k];
    }
    BeforeSepOfJoin(name, ": ", rest);
  }

  /** The first line of "line\nmore" is `line` when `line` has no newline. */
  lemma FirstLineOfJoin(line: string, more: string)
    requires '\n' !in line
    ensures FirstLine(line + "\n" + more) == line
  {
    var s := line + "\n" + more;
    forall k: nat | k < |line| ensures !OccursAt(s, "\n", k) {
      assert s[k] == line[k];
    }
    BeforeSepOfJoin(line, "\n", more);
  }
}
