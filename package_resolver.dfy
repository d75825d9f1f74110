/**
 * Package: finds the OS package owning an executable by walking a fixed,
 * ordered table of package-manager probes. A probe is skipped when its
 * family is that of the last probe that answered "Unknown"; the walk stops
 * at the first answer that is neither "" nor "Unknown".
 */
module PackageResolver {
  import opened StringOps
  import opened System
  import opened OwnerQuery

  /** One probe: its family ("Format") and the command the path is appended to. */
  datatype Packager = Packager(format: string, command: seq<string>)

  /** The probes, in the order they are tried. */
  const Packagers: seq<Packager> := [
    Packager("rpm", ["/usr/bin/rpm", "-q", "-f"]),
    Packager("deb", ["/usr/bin/dlocate", "-F"]),
    Packager("deb", ["/usr/bin/dpkg", "-S"]),
    Packager("pacman", ["/usr/bin/pacman", "-Qo"]),
    Packager("gentoo", ["/usr/bin/qfile", "-qv"]),
    Packager("gentoo", ["/usr/bin/equery", "b"]),
    Packager("apk", ["/sbin/apk", "info", "-W"]),
    Packager("pkg", ["/usr/local/sbin/pkg", "which", "-q"])
  ]

  /** A definitive answer: neither "" (tool absent or silent) nor "Unknown". */
  predicate Definitive(out: string) {
    out != "" && out != Unknown
  }

  /** The state of the walk: still searching (with `lastformat`), or done with a result. */
  datatype Search = Searching(lastformat: string) | Found(result: string)

  /** What probe `p` answers for `program`: the path is appended to its command. */
  function ProbeAnswer(h: Host, p: Packager, program: string): string {
    QueryPackageVersion(h, p.command + [program])
  }

  /** What every probe of `table` would answer for `program`, in table order. */
  function ProbeAnswers(h: Host, table: seq<Packager>, program: string): (answers: seq<string>)
    ensures |answers| == |table|
  {
    if table == [] then [] else [ProbeAnswer(h, table[0], program)] + ProbeAnswers(h, table[1..], program)
  }

  /** Entry `i` of the answers is what probe `i` answers. */
  lemma {:induction false} ProbeAnswersAt(h: Host, table: seq<Packager>, program: string, i: nat)
    requires i < |table|
    ensures ProbeAnswers(h, table, program)[i] == ProbeAnswer(h, table[i], program)
  {
    if i > 0 {
      ProbeAnswersAt(h, table[1..], program, i - 1);
    }
  }

  /** One iteration of the loop, for a probe of family `format` that would answer `out`. */
  function Step(format: string, out: string, s: Search): Search {
    match s
    case Found(_) => s
    case Searching(lastformat) =>
      if format == lastformat then s
      else if out != Unknown then
        if out == "" then s else Found(out)
      else Searching(format)
  }

  /**
   * The state of the walk over `table` after its first `n` probes, when
   * probe `i` would answer `answers[i]`.
   */
  function SearchAfter(table: seq<Packager>, answers: seq<string>, n: nat): (r: Search)
    requires |answers| == |table| && n <= |table|
    ensures r.Found? ==> Definitive(r.result)
  {
    if n == 0 then Searching("")
    else Step(table[n - 1].format, answers[n - 1], SearchAfter(table, answers, n - 1))
  }

  /** The walk reaches probe `i` still searching and does not skip it. */
  predicate Attempted(table: seq<Packager>, answers: seq<string>, i: nat)
    requires |answers| == |table| && i < |table|
  {
    var s := SearchAfter(table, answers, i);
    s.Searching? && table[i].format != s.lastformat
  }

  /** Package(program) over a given probe table. */
  function PackageOf(h: Host, table: seq<Packager>, program: string): (r: string)
    ensures program !in h.existing ==> r == Unknown
    ensures r != ""
  {
    if program !in h.existing then Unknown
    else
      var answers := ProbeAnswers(h, table, program);
      match SearchAfter(table, answers, |table|)
      case Found(out) => out
      case Searching(_) => Unknown
  }

  /** Package(program): the walk over the fixed table. */
  method Package(h: Host, program: string) returns (r: string)
    ensures r == PackageOf(h, Packagers, program)
    ensures program !in h.existing ==> r == Unknown
    ensures r != ""
  {
    r := PackageWith(h, Packagers, program);
  }

  /** The body of Package for a given probe table: the loop with `lastformat`. */
  method PackageWith(h: Host, table: seq<Packager>, program: string) returns (r: string)
    ensures r == PackageOf(h, table, program)
  {
    if program !in h.existing {
      return Unknown;
    }
    ghost var answers := ProbeAnswers(h, table, program);
    var lastformat := "";
    for i := 0 to |table|
      invariant SearchAfter(table, answers, i) == Searching(lastformat)
    {
      var packager := table[i];
      WalkStep(table, answers, i, lastformat);
      if packager.format == lastformat {
        continue;
      }
      var out := RunProbe(h, table, program, i);
      if out != Unknown {
        if out == "" {
          continue;
        }
        return out;
      }
      lastformat := packager.format;
    }
    return Unknown;
  }

  /** Runs probe `i` of `table`: the path is appended to its command. */
  method RunProbe(h: Host, table: seq<Packager>, program: string, i: nat) returns (out: string)
    requires i < |table|
    ensures out == ProbeAnswers(h, table, program)[i]
  {
    var cmd := table[i].command + [program];
    out := QueryPackageVersion(h, cmd);
    ProbeAnswersAt(h, table, program, i);
  }

  /** How one probe moves a walk that is still searching. */
  lemma WalkStep(table: seq<Packager>, answers: seq<string>, i: nat, lastformat: string)
    requires |answers| == |table| && i < |table|
    requires SearchAfter(table, answers, i) == Searching(lastformat)
    ensures table[i].format == lastformat || answers[i] == "" ==>
              SearchAfter(table, answers, i + 1) == Searching(lastformat)
    ensures table[i].format != lastformat && answers[i] == Unknown ==>
              SearchAfter(table, answers, i + 1) == Searching(table[i].format)
    ensures table[i].format != lastformat && Definitive(answers[i]) ==>
              SearchAfter(table, answers, |table|) == Found(answers[i])
  {
    if table[i].format != lastformat && Definitive(answers[i]) {
      FoundPersists(table, answers, i + 1);
    }
  }

  /** Once found, the walk keeps its result to the end of the table. */
  lemma {:induction false} FoundPersists(table: seq<Packager>, answers: seq<string>, n: nat)
    requires |answers| == |table| && n <= |table|
    requires SearchAfter(table, answers, n).Found?
    ensures SearchAfter(table, answers, |table|) == SearchAfter(table, answers, n)
    decreases |table| - n
  {
    if n < |table| {
      FoundPersists(table, answers, n + 1);
    }
  }

  /** Probe `i` was tried and answered "Unknown" (the only way `lastformat` is set). */
  predicate AnsweredUnknown(table: seq<Packager>, answers: seq<string>, i: nat)
    requires |answers| == |table| && i < |table|
  {
    Attempted(table, answers, i) && answers[i] == Unknown
  }

  /** No probe tried before `n` gave a definitive answer. */
  predicate NoAnswerBefore(table: seq<Packager>, answers: seq<string>, n: nat)
    requires |answers| == |table| && n <= |table|
  {
    forall j :: 0 <= j < n && Attempted(table, answers, j) ==> !Definitive(answers[j])
  }

  /** `r` is the answer of a probe tried before `n` while no earlier tried probe had answered. */
  predicate FirstDefinitive(table: seq<Packager>, answers: seq<string>, n: nat, r: string)
    requires |answers| == |table| && n <= |table|
  {
    exists i :: 0 <= i < n && Attempted(table, answers, i) && NoAnswerBefore(table, answers, i) && answers[i] == r
  }

  /** A walk still searching at `n` was searching at every earlier point. */
  lemma {:induction false} SearchingBefore(table: seq<Packager>, answers: seq<string>, m: nat, n: nat)
    requires |answers| == |table| && m <= n <= |table|
    requires SearchAfter(table, answers, n).Searching?
    ensures SearchAfter(table, answers, m).Searching?
    decreases n - m
  {
    if m < n {
      SearchingBefore(table, answers, m, n - 1);
    }
  }

  /** While the walk is searching, no probe tried so far gave a definitive answer. */
  lemma {:induction false} SearchingMeansNoAnswer(table: seq<Packager>, answers: seq<string>, n: nat)
    requires |answers| == |table| && n <= |table|
    requires SearchAfter(table, answers, n).Searching?
    ensures NoAnswerBefore(table, answers, n)
  {
    if n > 0 {
      SearchingBefore(table, answers, n - 1, n);
      SearchingMeansNoAnswer(table, answers, n - 1);
      assert Attempted(table, answers, n - 1) ==> !Definitive(answers[n - 1]);
    }
  }

  /** A found result is the answer of a probe tried while nothing had answered before it. */
  lemma {:induction false} FoundComesFromProbe(table: seq<Packager>, answers: seq<string>, n: nat)
    requires |answers| == |table| && n <= |table|
    requires SearchAfter(table, answers, n).Found?
    ensures FirstDefinitive(table, answers, n, SearchAfter(table, answers, n).result)
  {
    if SearchAfter(table, answers, n - 1).Found? {
      FoundComesFromProbe(table, answers, n - 1);
    } else {
      SearchingMeansNoAnswer(table, answers, n - 1);
      assert Attempted(table, answers, n - 1);
    }
  }

  /**
   * Probes are tried in table order and the first definitive answer wins:
   * the result is "Unknown" or the answer of a tried probe before which no
   * tried probe answered definitively.
   */
  lemma PackageIsFirstAnswer(h: Host, table: seq<Packager>, program: string)
    ensures var r := PackageOf(h, table, program);
            r == Unknown || FirstDefinitive(table, ProbeAnswers(h, table, program), |table|, r)
  {
    var answers := ProbeAnswers(h, table, program);
    if program in h.existing && SearchAfter(table, answers, |table|).Found? {
      FoundComesFromProbe(table, answers, |table|);
    }
  }

  /** A tried probe that answers definitively ends the walk with its answer. */
  lemma AnswerEndsWalk(table: seq<Packager>, answers: seq<string>, i: nat)
    requires |answers| == |table| && i < |table|
    requires Attempted(table, answers, i) && Definitive(answers[i])
    ensures SearchAfter(table, answers, |table|) == Found(answers[i])
  {
    assert SearchAfter(table, answers, i + 1) == Found(answers[i]);
    FoundPersists(table, answers, i + 1);
  }

  /** A tried probe that answers definitively decides the result. */
  lemma FirstAnswerWins(h: Host, table: seq<Packager>, program: string, i: nat)
    requires program in h.existing && i < |table|
    requires var answers := ProbeAnswers(h, table, program);
             Attempted(table, answers, i) && Definitive(answers[i])
    ensures PackageOf(h, table, program) == ProbeAnswers(h, table, program)[i]
  {
    AnswerEndsWalk(table, ProbeAnswers(h, table, program), i);
  }

  /** The result is "Unknown" exactly when the path is missing or no tried probe answers definitively. */
  lemma PackageUnknownIff(h: Host, table: seq<Packager>, program: string)
    ensures PackageOf(h, table, program) == Unknown <==>
              program !in h.existing || NoAnswerBefore(table, ProbeAnswers(h, table, program), |table|)
  {
    var answers := ProbeAnswers(h, table, program);
    if program in h.existing {
      if SearchAfter(table, answers, |table|).Found? {
        FoundComesFromProbe(table, answers, |table|);
      } else {
        SearchingMeansNoAnswer(table, answers, |table|);
      }
    }
  }

  /** The index of the latest probe before `n` that was tried and answered "Unknown", or -1. */
  function LatestUnknown(table: seq<Packager>, answers: seq<string>, n: nat): (j: int)
    requires |answers| == |table| && n <= |table|
    ensures -1 <= j < n
    ensures j >= 0 ==> AnsweredUnknown(table, answers, j)
    ensures forall k :: j < k < n ==> !AnsweredUnknown(table, answers, k)
  {
    if n == 0 then -1
    else if AnsweredUnknown(table, answers, n - 1) then n - 1
    else LatestUnknown(table, answers, n - 1)
  }

  /**
   * `lastformat` is the family of the latest tried probe that answered
   * "Unknown", or "" when none did: it changes only on an "Unknown".
   */
  lemma {:induction false} LastFormatIsLatestUnknown(table: seq<Packager>, answers: seq<string>, n: nat)
    requires |answers| == |table| && n <= |table|
    requires SearchAfter(table, answers, n).Searching?
    ensures var j := LatestUnknown(table, answers, n);
            SearchAfter(table, answers, n).lastformat == if j < 0 then "" else table[j].format
  {
    if n > 0 {
      SearchingBefore(table, answers, n - 1, n);
      LastFormatIsLatestUnknown(table, answers, n - 1);
      if !AnsweredUnknown(table, answers, n - 1) {
        assert SearchAfter(table, answers, n) == SearchAfter(table, answers, n - 1);
      }
    }
  }

  /** A probe whose family differs from every earlier one is never skipped. */
  lemma NewFamilyIsAttempted(table: seq<Packager>, answers: seq<string>, i: nat)
    requires |answers| == |table| && i < |table| && table[i].format != ""
    requires forall j :: 0 <= j < i ==> table[j].format != table[i].format
    requires SearchAfter(table, answers, i).Searching?
    ensures Attempted(table, answers, i)
  {
    LastFormatIsLatestUnknown(table, answers, i);
  }

  /**
   * A probe of the same family as the one before it runs exactly when that
   * one was tried and did not answer "Unknown".
   */
  lemma SameFamilyFollowsPrevious(table: seq<Packager>, answers: seq<string>, i: nat)
    requires |answers| == |table| && 0 < i < |table| && table[i].format == table[i - 1].format
    requires SearchAfter(table, answers, i).Searching?
    ensures Attempted(table, answers, i) <==> Attempted(table, answers, i - 1) && answers[i - 1] != Unknown
  {
    SearchingBefore(table, answers, i - 1, i);
  }

  /** In the fixed table, every probe other than dpkg and equery runs whenever it is reached. */
  lemma FamilyLeadersAreAttempted(answers: seq<string>, i: nat)
    requires |answers| == |Packagers| && i < |Packagers| && i != 2 && i != 5
    requires SearchAfter(Packagers, answers, i).Searching?
    ensures Attempted(Packagers, answers, i)
  {
    NewFamilyIsAttempted(Packagers, answers, i);
  }

  /** dpkg is skipped exactly when dlocate answered "Unknown"; a "" from dlocate lets dpkg run. */
  lemma DpkgSkippedIffDlocateUnknown(answers: seq<string>)
    requires |answers| == |Packagers|
    requires SearchAfter(Packagers, answers, 2).Searching?
    ensures !Attempted(Packagers, answers, 2) <==> answers[1] == Unknown
  {
    SearchingBefore(Packagers, answers, 1, 2);
    FamilyLeadersAreAttempted(answers, 1);
    SameFamilyFollowsPrevious(Packagers, answers, 2);
  }

  /** equery is skipped exactly when qfile answered "Unknown". */
  lemma EquerySkippedIffQfileUnknown(answers: seq<string>)
    requires |answers| == |Packagers|
    requires SearchAfter(Packagers, answers, 5).Searching?
    ensures !Attempted(Packagers, answers, 5) <==> answers[4] == Unknown
  {
    SearchingBefore(Packagers, answers, 4, 5);
    FamilyLeadersAreAttempted(answers, 4);
    SameFamilyFollowsPrevious(Packagers, answers, 5);
  }

  /**
   * When rpm and dlocate both answer "" (an absent tool, or nothing
   * printed), dpkg is asked, and a definitive dpkg answer is the result.
   */
  lemma DpkgAnswersAfterEmptyAnswers(answers: seq<string>)
    requires |answers| == |Packagers|
    requires answers[0] == "" && answers[1] == "" && Definitive(answers[2])
    ensures SearchAfter(Packagers, answers, |Packagers|) == Found(answers[2])
  {
    assert Packagers[0].format == "rpm" && Packagers[1].format == "deb" && Packagers[2].format == "deb";
    assert SearchAfter(Packagers, answers, 1) == Searching("");
    assert SearchAfter(Packagers, answers, 2) == Searching("");
    AnswerEndsWalk(Packagers, answers, 2);
  }

  /** A probe whose package manager is absent answers "". */
  lemma AbsentProbeAnswersEmpty(h: Host, p: Packager, program: string)
    requires |p.command| > 0 && p.command[0] !in h.existing
    ensures ProbeAnswer(h, p, program) == ""
  {
    assert (p.command + [program])[0] == p.command[0];
  }
}
