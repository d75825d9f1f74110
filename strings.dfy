/**
 * The few functions of Go's `strings` package that version.go relies on,
 * stated over `seq<char>`: Index, Split(...)[0], Replace(..., 1), Trim and
 * TrimSuffix with a newline cut set.
 */
module StringOps {

  /** `pat` occurs in `s` starting at position `k`. */
  predicate OccursAt(s: string, pat: string, k: nat) {
    k + |pat| <= |s| && s[k..k + |pat|] == pat
  }

  /** No occurrence of `pat` in `s` starts before position `n`. */
  predicate NoOccurrenceBefore(s: string, pat: string, n: nat) {
    forall k: nat :: k < n ==> !OccursAt(s, pat, k)
  }

  /** `pat` occurs somewhere in `s`. */
  predicate Contains(s: string, pat: string) {
    exists k: nat :: k <= |s| && OccursAt(s, pat, k)
  }

  /** Every character of `s` is a newline. */
  predicate AllNewlines(s: string) {
    forall c :: c in s ==> c == '\n'
  }

  /** `r` sits in `s` with only newlines before and after it. */
  predicate BetweenNewlines(s: string, r: string) {
    exists a: nat :: a + |r| <= |s| && r == s[a..a + |r|] && AllNewlines(s[..a]) && AllNewlines(s[a + |r|..])
  }

  /** `s` neither starts nor ends with a newline. */
  predicate NoEdgeNewline(s: string) {
    s == [] || (s[0] != '\n' && s[|s| - 1] != '\n')
  }

  /** Position of the first occurrence of `pat` at or after `from`, or -1. */
  function IndexFrom(s: string, pat: string, from: nat): (r: int)
    requires from <= |s|
    ensures r == -1 || from <= r <= |s|
    ensures r >= 0 ==> OccursAt(s, pat, r)
    ensures r >= 0 ==> forall k: nat :: from <= k < r ==> !OccursAt(s, pat, k)
    ensures r < 0 ==> forall k: nat :: from <= k <= |s| ==> !OccursAt(s, pat, k)
    decreases |s| - from
  {
    if OccursAt(s, pat, from) then from
    else if from == |s| then -1
    else IndexFrom(s, pat, from + 1)
  }

  /** Go's `strings.Index`: the first occurrence of `pat` in `s`, or -1. */
  function Index(s: string, pat: string): (r: int)
    ensures -1 <= r <= |s|
    ensures r >= 0 ==> OccursAt(s, pat, r) && NoOccurrenceBefore(s, pat, r)
    ensures r < 0 ==> !Contains(s, pat)
  {
    IndexFrom(s, pat, 0)
  }

  /**
   * Go's `strings.Split(s, sep)[0]`: the text before the first `sep`, or
   * the whole of `s` when `sep` does not occur.
   */
  function BeforeSep(s: string, sep: string): (r: string)
    requires |sep| > 0
    ensures r <= s
    ensures NoOccurrenceBefore(s, sep, |r|)
    ensures r == s || OccursAt(s, sep, |r|)
  {
    var i := Index(s, sep);
    if i < 0 then s else s[..i]
  }

  /** The text of `s` before its first newline (`strings.Split(s, "\n")[0]`). */
  function FirstLine(s: string): (r: string)
    ensures r <= s
    ensures '\n' !in r
    ensures r == s || s[|r|] == '\n'
  {
    var r := BeforeSep(s, "\n");
    assert forall k :: 0 <= k < |r| ==> r[k] != '\n' by {
      forall k | 0 <= k < |r| ensures r[k] != '\n' {
        assert !OccursAt(s, "\n", k);
        assert s[k..k + 1] == [s[k]];
      }
    }
    assert r == s || s[|r|] == '\n' by {
      if r != s {
        assert OccursAt(s, "\n", |r|);
        assert s[|r|..|r| + 1] == [s[|r|]];
      }
    }
    r
  }

  /**
   * Go's `strings.Replace(s, pat, "", 1)`: removes the first occurrence of
   * `pat`, if any.
   */
  function RemoveFirst(s: string, pat: string): (r: string)
    requires |pat| > 0
    ensures |r| == |s| || |r| == |s| - |pat|
    ensures |r| == |s| ==> r == s && !Contains(s, pat)
    ensures |r| < |s| ==> exists k: nat :: k <= |r| && NoOccurrenceBefore(s, pat, k) && r[..k] + pat + r[k..] == s
  {
    var i := Index(s, pat);
    if i < 0 then s
    else
      var r := s[..i] + s[i + |pat|..];
      assert r[..i] + pat + r[i..] == s by {
        assert r[..i] == s[..i];
        assert r[i..] == s[i + |pat|..];
        assert s[i..i + |pat|] == pat;
        assert s == s[..i] + s[i..i + |pat|] + s[i + |pat|..];
      }
      r
  }

  function TrimLeadingNewlines(s: string): (r: string)
    ensures |r| <= |s| && r == s[|s| - |r|..]
    ensures AllNewlines(s[..|s| - |r|])
    ensures r == [] || r[0] != '\n'
  {
    if |s| > 0 && s[0] == '\n' then
      var r := TrimLeadingNewlines(s[1..]);
      NewlineBefore(s, |s| - 1 - |r|);
      r
    else s
  }

  function TrimTrailingNewlines(s: string): (r: string)
    ensures r <= s
    ensures AllNewlines(s[|r|..])
    ensures r == [] || r[|r| - 1] != '\n'
  {
    if |s| > 0 && s[|s| - 1] == '\n' then
      var r := TrimTrailingNewlines(s[..|s| - 1]);
      NewlineAfter(s, |r|);
      r
    else s
  }

  /** A leading newline followed by `k` newlines makes `k + 1` newlines. */
  lemma NewlineBefore(s: string, k: nat)
    requires k < |s| && s[0] == '\n' && AllNewlines(s[1..][..k])
    ensures AllNewlines(s[..k + 1])
  {
    assert s[..k + 1] == [s[0]] + s[1..][..k];
  }

  /** Newlines from `k` up to a trailing newline make newlines from `k` to the end. */
  lemma NewlineAfter(s: string, k: nat)
    requires k < |s| && s[|s| - 1] == '\n' && AllNewlines(s[..|s| - 1][k..])
    ensures AllNewlines(s[k..])
  {
    assert s[k..] == s[..|s| - 1][k..] + [s[|s| - 1]];
  }

  /** Go's `strings.Trim(s, "\n")`: drops every leading and trailing newline. */
  function TrimNewlines(s: string): (r: string)
    ensures NoEdgeNewline(r)
    ensures BetweenNewlines(s, r)
  {
    var t := TrimLeadingNewlines(s);
    var r := TrimTrailingNewlines(t);
    NewlinesAround(s, t, r);
    r
  }

  /**
   * Dropping the leading newlines of `s` (leaving `t`) and then the trailing
   * newlines of `t` (leaving `r`) leaves `r` between newlines in `s`.
   */
  lemma NewlinesAround(s: string, t: string, r: string)
    requires |t| <= |s| && t == s[|s| - |t|..] && AllNewlines(s[..|s| - |t|])
    requires t == [] || t[0] != '\n'
    requires r <= t && AllNewlines(t[|r|..]) && (r == [] || r[|r| - 1] != '\n')
    ensures NoEdgeNewline(r)
    ensures BetweenNewlines(s, r)
  {
    var a := |s| - |t|;
    assert t[|r|..] == s[a + |r|..];
    assert r == s[a..a + |r|];
  }

  /** Go's `strings.TrimSuffix(s, "\n")`: drops at most one trailing newline. */
  function TrimOneNewline(s: string): (r: string)
    ensures s == r + "\n" || (s == r && (s == [] || s[|s| - 1] != '\n'))
  {
    if |s| > 0 && s[|s| - 1] == '\n' then s[..|s| - 1] else s
  }

  /** Trimming a string with no edge newline leaves it as it is. */
  lemma TrimNewlinesKeepsClean(s: string)
    requires NoEdgeNewline(s)
    ensures TrimNewlines(s) == s
  {
  }

  /** Trimming newlines twice is the same as trimming once. */
  lemma TrimNewlinesIdempotent(s: string)
    ensures TrimNewlines(TrimNewlines(s)) == TrimNewlines(s)
  {
    TrimNewlinesKeepsClean(TrimNewlines(s));
  }

  /** TrimSuffix removes exactly the one newline appended, even when `s` already ends with one. */
  lemma TrimOneNewlineUndoesAppend(s: string)
    ensures TrimOneNewline(s + "\n") == s
  {
    assert (s + "\n")[..|s|] == s;
  }

  /** The text before a separator that follows `a` is `a`, when `a` holds no earlier separator. */
  lemma BeforeSepOfJoin(a: string, sep: string, b: string)
    requires |sep| > 0
    requires NoOccurrenceBefore(a + sep + b, sep, |a|)
    ensures BeforeSep(a + sep + b, sep) == a
  {
    var s := a + sep + b;
    assert OccursAt(s, sep, |a|) by {
      assert s[|a|..|a| + |sep|] == sep;
    }
    var r := BeforeSep(s, sep);
    assert |r| == |a|;
    assert r == s[..|r|];
    assert s[..|a|] == a;
  }

  /** Removing `pat` from the front of `pat + rest` leaves `rest`. */
  lemma RemoveFirstOfPrefix(pat: string, rest: string)
    requires |pat| > 0
    ensures RemoveFirst(pat + rest, pat) == rest
  {
    var s := pat + rest;
    assert OccursAt(s, pat, 0) by {
      assert s[0..|pat|] == pat;
    }
    assert Index(s, pat) == 0;
    assert s[|pat|..] == rest;
  }
}
