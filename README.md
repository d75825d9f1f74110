# version: which package owns a program, and what version a program reports

A Dafny model of the Go package `pkg/version` (`version.go`), a small library
with two jobs:

- **Package(path)** finds the OS package that owns an executable. It walks a
  fixed, ordered table of eight package-manager probes: rpm, dlocate and dpkg
  (the two Debian tools, fast then slow), pacman, qfile and equery (the two
  Gentoo tools, fast then slow), apk and FreeBSD pkg. For each probe it runs
  `queryPackageVersion`. It skips a probe whose family ("Format") equals
  `lastformat`, the family of the last probe that answered `"Unknown"`. It
  returns the first answer that is neither `""` (the tool is absent or answered nothing) nor
  `"Unknown"`. When the path does not exist, or nothing answers, the result is
  `"Unknown"`.
- **queryPackageVersion(cmd...)** runs one probe and post-processes its
  answer. dlocate keeps only its first line. For dlocate and dpkg, the text
  before the first `": "` is looked up with
  `dpkg-query -f '${Package}_${Version}_${Architecture}' -W`, and that lookup's
  stdout replaces the answer when it succeeds. apk drops the first
  `"<path> is owned by "`. Every answer is trimmed of leading and trailing
  newlines.
- **Program(name)** and **ProgramDnsname(name)** run `name --version`. They
  return stdout, or stderr for the dnsname variant, with one trailing newline
  removed. A failed run gives an error that carries the name and both captured
  streams.

The host is an input of the model, `System.Host`, with two parts:

- `existing`: the paths `os.Stat` finds.
- `run`: maps every argument vector to what running it captures (stdout,
  stderr, success or the failure's text).

Processes, the filesystem and buffering are not modelled beyond that.

Modules:

- `StringOps`: the Go `strings` functions the code uses, on `seq<char>`.
- `System`: the host oracle.
- `OwnerQuery`: `queryPackageVersion`.
- `PackageResolver`: `Package`. The loop is the method `PackageWith`, written
  for any probe table; `Package` runs it on the fixed table. It is proved
  against `SearchAfter`, a recursive function that gives the walk's state
  after each probe. The walk ranges over the probe answers (`ProbeAnswers`).
- `ProgramVersion`: `program`, `Program` and `ProgramDnsname`.

Notes on the code's behaviour:

- dpkg-query is given the text *before* the first `": "` (`r[0]`). That is the
  package name in dlocate's and dpkg's output `name: path`.
- A probe that answers `""` leaves `lastformat` unchanged. The `continue` at
  version.go:84-86 skips the assignment at line 89. So when dlocate answers
  `""`, `lastformat` is still `""` or `"rpm"` when dpkg is reached, never
  `"deb"`, and dpkg runs.
- Once a probe answers definitively the loop returns, so no later probe
  (pacman, for instance) runs after it.

## Model

| member | source | states |
|---|---|---|
| StringOps.Index | pkg/version/version.go:37-47 | the result is -1 exactly when the pattern does not occur; otherwise the pattern occurs there and nowhere before |
| StringOps.BeforeSep | pkg/version/version.go:37-39 | `Split(s, sep)[0]` is a prefix of `s` with no separator starting inside it, and it is all of `s` or is followed by the separator |
| StringOps.FirstLine | pkg/version/version.go:28-32 | `Split(s, "\n")[0]` is a newline-free prefix of `s` that is all of `s` or ends where `s` has its first newline |
| StringOps.RemoveFirst | pkg/version/version.go:45-48 | `Replace(s, p, "", 1)` leaves `s` unchanged when `p` does not occur; otherwise it removes exactly one `p`, and putting `p` back at the removal point gives `s`, with no earlier occurrence |
| StringOps.TrimNewlines | pkg/version/version.go:50 | `Trim(s, "\n")` is a substring of `s` with only newlines cut on each side and no newline at either end |
| StringOps.TrimNewlinesIdempotent | pkg/version/version.go:50 | trimming newlines twice equals trimming once |
| StringOps.TrimNewlinesKeepsClean | pkg/version/version.go:50 | a string with no edge newline is unchanged by trimming |
| StringOps.TrimOneNewline | pkg/version/version.go:116-120 | `TrimSuffix(s, "\n")` removes one trailing newline if present, otherwise nothing |
| StringOps.TrimOneNewlineUndoesAppend | pkg/version/version.go:116-120 | removing the suffix undoes appending one newline, even after text that already ends in a newline |
| StringOps.BeforeSepOfJoin | pkg/version/version.go:37-39 | the text before the separator in `a + sep + b` is `a` when no separator starts inside `a` |
| StringOps.RemoveFirstOfPrefix | pkg/version/version.go:45-47 | removing the first `p` from `p + rest` gives `rest` |
| System.Output | pkg/version/version.go:24-26 | `cmd.Output()` yields stdout exactly when the command succeeds |
| OwnerQuery.QueryPackageVersion | pkg/version/version.go:17-51 | `""` when the package manager is absent; `"Unknown"` when it exists but has nothing to run or its command fails (apk included); never a leading or trailing newline |
| OwnerQuery.ApkLeavesUnknown | pkg/version/version.go:45-47 | apk's prefix removal leaves `"Unknown"` unchanged, whatever the path |
| OwnerQuery.FailedRunAnswersUnknown | pkg/version/version.go:22-48 | a package manager whose run fails answers `"Unknown"` before trimming, apk included |
| OwnerQuery.CanonicalOfSameLine | pkg/version/version.go:36-43 | the Debian canonicalisation depends only on the line and on dpkg-query's answers |
| OwnerQuery.QueryResultIsTrimmed | pkg/version/version.go:50 | trimming the result again changes nothing |
| OwnerQuery.PlainAnswerIsStdout | pkg/version/version.go:22-26 | for a tool without quirks, a successful run's stdout, trimmed, is the result |
| OwnerQuery.DlocateUsesFirstLine | pkg/version/version.go:28-32 | dlocate answers that share a first line give the same result |
| OwnerQuery.DebianLookupReplacesAnswer | pkg/version/version.go:36-43 | for dlocate and dpkg, a successful dpkg-query lookup of the name before `": "` supplies the result |
| OwnerQuery.DebianLookupFailureKeepsAnswer | pkg/version/version.go:36-43 | when the dpkg-query lookup fails, the earlier answer (dlocate's first line, dpkg's stdout) is kept |
| OwnerQuery.DpkgAnswerIsCanonicalised | pkg/version/version.go:33-43 | dpkg answering `name: path` yields dpkg-query's canonical string for `name` |
| OwnerQuery.DlocateFirstMatchIsCanonicalised | pkg/version/version.go:28-43 | dlocate answering several `name: path` lines yields the canonical string for the first line's name |
| OwnerQuery.NameBeforeColon | pkg/version/version.go:37-39 | the Debian name of `name: rest` is `name` when `name` has no colon |
| OwnerQuery.FirstLineOfJoin | pkg/version/version.go:30-31 | the first line of `line + "\n" + more` is `line` |
| OwnerQuery.ApkRemovesOneOwnerPrefix | pkg/version/version.go:45-50 | for a successful apk run, the result is stdout with at most its first `"<path> is owned by "` removed, trimmed |
| OwnerQuery.ApkStripsOwnerPrefix | pkg/version/version.go:45-48 | apk answering `"<path> is owned by pkg"` yields `pkg` |
| PackageResolver.ProbeAnswers | pkg/version/version.go:77-83 | there is one answer per probe of the table |
| PackageResolver.ProbeAnswersAt | pkg/version/version.go:81-83 | probe `i` answers `queryPackageVersion` of its command with the path appended |
| PackageResolver.AbsentProbeAnswersEmpty | pkg/version/version.go:18-21 | a probe whose package manager is absent answers `""` |
| PackageResolver.SearchAfter | pkg/version/version.go:76-90 | the walk's state after the first `n` probes, a reference definition of the loop; a result it stops with is neither `""` nor `"Unknown"` (the checks at lines 83-84) |
| PackageResolver.PackageOf | pkg/version/version.go:55-91 | `"Unknown"` when the path does not exist; never `""` |
| PackageResolver.Package | pkg/version/version.go:55-92 | the result is the walk's result over the fixed table: `"Unknown"` for a missing path, never `""` |
| PackageResolver.PackageWith | pkg/version/version.go:56-91 | the loop with `lastformat` and its early return computes the walk's result (`PackageOf`) over the given table |
| PackageResolver.RunProbe | pkg/version/version.go:81-83 | running probe `i` yields that probe's answer |
| PackageResolver.WalkStep | pkg/version/version.go:78-89 | a skipped probe or a `""` answer keeps `lastformat`; an `"Unknown"` sets it to the probe's family; a definitive answer is the final result |
| PackageResolver.FoundPersists | pkg/version/version.go:87 | once a probe answers, that answer is the result at the end of the table |
| PackageResolver.SearchingBefore | pkg/version/version.go:77-90 | a walk still searching at probe n was searching at every earlier probe |
| PackageResolver.SearchingMeansNoAnswer | pkg/version/version.go:83-88 | while searching, no probe tried so far answered definitively |
| PackageResolver.FoundComesFromProbe | pkg/version/version.go:77-88 | a result comes from a probe that was tried when no earlier tried probe had answered |
| PackageResolver.PackageIsFirstAnswer | pkg/version/version.go:65-91 | the result is `"Unknown"` or the answer of a tried probe before which no tried probe answered definitively |
| PackageResolver.AnswerEndsWalk | pkg/version/version.go:83-87 | a tried probe with a definitive answer ends the walk with that answer |
| PackageResolver.FirstAnswerWins | pkg/version/version.go:77-87 | a tried probe with a definitive answer is the result of Package |
| PackageResolver.PackageUnknownIff | pkg/version/version.go:55-91 | the result is `"Unknown"` exactly when the path is missing or no tried probe answers definitively |
| PackageResolver.LatestUnknown | pkg/version/version.go:83-89 | the latest tried probe that answered `"Unknown"`, with none such after it, or -1 |
| PackageResolver.LastFormatIsLatestUnknown | pkg/version/version.go:76-89 | `lastformat` is the family of the latest tried probe that answered `"Unknown"`, or `""` when none did |
| PackageResolver.NewFamilyIsAttempted | pkg/version/version.go:76-80 | a probe whose family differs from every earlier one is tried whenever it is reached |
| PackageResolver.SameFamilyFollowsPrevious | pkg/version/version.go:76-89 | a probe of the previous probe's family is tried exactly when that probe was tried and did not answer `"Unknown"` |
| PackageResolver.FamilyLeadersAreAttempted | pkg/version/version.go:65-80 | in the fixed table, rpm, dlocate, pacman, qfile, apk and pkg are tried whenever reached |
| PackageResolver.DpkgSkippedIffDlocateUnknown | pkg/version/version.go:67-89 | dpkg is skipped exactly when dlocate answered `"Unknown"`; a `""` from dlocate lets dpkg run |
| PackageResolver.EquerySkippedIffQfileUnknown | pkg/version/version.go:70-89 | equery is skipped exactly when qfile answered `"Unknown"` |
| PackageResolver.DpkgAnswersAfterEmptyAnswers | pkg/version/version.go:65-87 | when rpm and dlocate both answer `""` (an absent tool, or nothing printed), dpkg runs and its definitive answer is the result |
| ProgramVersion.ErrorMessage | pkg/version/version.go:113 | the error text contains the program name, the captured stderr, the captured stdout and the cause, at fixed positions |
| ProgramVersion.VersionOf | pkg/version/version.go:104-123 | an error exactly when the run fails, carrying the name and both streams; otherwise the chosen stream less one trailing newline |
| ProgramVersion.Program | pkg/version/version.go:96-98 | on success, stdout less one trailing newline |
| ProgramVersion.ProgramDnsname | pkg/version/version.go:100-102 | on success, stderr less one trailing newline |
| ProgramVersion.ProgramStripsOneNewline | pkg/version/version.go:116 | a tool printing `text + "\n"` reports `text` |
| ProgramVersion.DnsnameIgnoresStdout | pkg/version/version.go:117-120 | on success, the dnsname variant's result does not depend on stdout |
| ProgramVersion.FailureMessageIsDiagnosable | pkg/version/version.go:111-114 | a failed run's error text contains the name and both captured streams |

## Left out

- Process spawning and waiting (`exec.Command`, `cmd.Output`, `cmd.Run`) and stream buffering in `bytes.Buffer`. Each command line is a key of the host's `run` oracle. A command that cannot be started is a failure with empty streams.
- The lookup of a bare program name in `PATH` by `exec.Command`. The oracle is keyed by the argument vector as written.
- `os.Stat` is membership in the host's `existing` set. Permission errors and other Stat failures count as "does not exist", as in the code.
- The Go `error` value. The cause of a failed `--version` run is the failure's text. `ErrorMessage` spells out the `fmt.Errorf` layout with `%v` rendering strings as they are.
- ProgramVersion.VersionOf: on failure the Go function also returns an empty string beside the error. The model returns `Err` only.
- StringOps.BeforeSep: requires a non-empty separator. Go's `Split` with an empty separator splits into characters, which version.go never does (it only splits on `"\n"` and `": "`).
- OwnerQuery.QueryPackageVersion: requires a non-empty argument list. Go panics on `cmdArg[0]` otherwise, and `Package` always passes the command plus the path.
- Bytes and UTF-8: strings are `seq<char>`. Go's `string(outp)` conversion is the identity here.
- Slice aliasing in `append(cmd, program)`: the table's literals are fresh, so the model appends to a value.
