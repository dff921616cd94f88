/** `re.sub("#+", rep, s)`: every maximal run of `#` in `s` is replaced
    by `rep`. `rep` is inserted literally; the callers only ever pass a
    frame number, which holds no regex-template escapes.

    The companion view is `re.split("#+", s)`: `s` is a sequence of
    `#`-free pieces separated by maximal `#` runs, and the substitution
    joins those pieces with `rep`.

    All scans work on positions of one fixed string `s`, starting at
    `from`, the way the regex engine resumes after each match. */
module HashRuns {
  import opened PyStr

  /** Position of the first `#` at or after `from`, or `|s|` when there is
      none: where the next match of `#+` starts. */
  function NextHash(s: string, from: nat): (i: nat)
    requires from <= |s|
    ensures from <= i <= |s|
    ensures forall k :: from <= k < i ==> s[k] != '#'
    ensures i < |s| ==> s[i] == '#'
    decreases |s| - from
  {
    if from == |s| || s[from] == '#' then from else NextHash(s, from + 1)
  }

  /** End of the run of `#` starting at `i`: the match of `#+` is greedy,
      so it stops only at a character other than `#` or at the end. */
  function RunEnd(s: string, i: nat): (j: nat)
    requires i <= |s|
    ensures i <= j <= |s|
    ensures forall k :: i <= k < j ==> s[k] == '#'
    ensures j < |s| ==> s[j] != '#'
    decreases |s| - i
  {
    if i < |s| && s[i] == '#' then RunEnd(s, i + 1) else i
  }

  /** `re.sub("#+", rep, s[from..])`: copy the text before the next match,
      emit `rep` for the whole run, continue after it. */
  function SubstituteFrom(s: string, from: nat, rep: string): string
    requires from <= |s|
    decreases |s| - from
  {
    var i := NextHash(s, from);
    if i == |s| then s[from..] else s[from..i] + rep + SubstituteFrom(s, RunEnd(s, i), rep)
  }

  /** `re.sub("#+", rep, s)`; a string without `#` comes back unchanged. */
  function Substitute(s: string, rep: string): (r: string)
    ensures '#' !in s ==> r == s
  {
    SubstituteFrom(s, 0, rep)
  }

  /** `re.split("#+", s[from..])`: the `#`-free pieces between maximal
      `#` runs. */
  function SplitFrom(s: string, from: nat): (parts: seq<string>)
    requires from <= |s|
    ensures |parts| >= 1
    ensures forall j :: 0 <= j < |parts| ==> '#' !in parts[j]
    ensures from < |s| && s[from] != '#' ==> |parts[0]| > 0
    ensures forall j :: 0 < j < |parts| - 1 ==> |parts[j]| > 0
    decreases |s| - from
  {
    var i := NextHash(s, from);
    if i == |s| then [s[from..]]
    else [s[from..i]] + SplitFrom(s, RunEnd(s, i))
  }

  /** Lengths of the maximal `#` runs of `s[from..]`, left to right. */
  function RunLengthsFrom(s: string, from: nat): (runs: seq<nat>)
    requires from <= |s|
    ensures forall j :: 0 <= j < |runs| ==> runs[j] >= 1
    decreases |s| - from
  {
    var i := NextHash(s, from);
    if i == |s| then []
    else
      var e := RunEnd(s, i);
      [e - i] + RunLengthsFrom(s, e)
  }

  /** `parts[0] + "#"*runs[0] + parts[1] + ... + parts[n]`. */
  function Weave(parts: seq<string>, runs: seq<nat>): string
    requires |parts| == |runs| + 1
  {
    if |runs| == 0 then parts[0]
    else parts[0] + Repeat('#', runs[0]) + Weave(parts[1..], runs[1..])
  }

  /** `sep.join(parts)`. */
  function JoinWith(sep: string, parts: seq<string>): string
    requires |parts| >= 1
  {
    if |parts| == 1 then parts[0] else parts[0] + sep + JoinWith(sep, parts[1..])
  }

  /** The split is a faithful decomposition: weaving the pieces back with
      runs of the recorded lengths rebuilds the string. Together with
      the pieces being `#`-free and the inner ones non-empty (the contract
      of `SplitFrom`), the runs are exactly the maximal `#` runs. */
  lemma {:induction false} SplitRebuilds(s: string, from: nat)
    requires from <= |s|
    ensures |SplitFrom(s, from)| == |RunLengthsFrom(s, from)| + 1
    ensures Weave(SplitFrom(s, from), RunLengthsFrom(s, from)) == s[from..]
    decreases |s| - from
  {
    var i := NextHash(s, from);
    if i < |s| {
      var e := RunEnd(s, i);
      var tailParts, tailRuns := SplitFrom(s, e), RunLengthsFrom(s, e);
      assert SplitFrom(s, from) == [s[from..i]] + tailParts;
      assert RunLengthsFrom(s, from) == [e - i] + tailRuns;
      SplitRebuilds(s, e);
      WeaveCons(s[from..i], tailParts, e - i, tailRuns);
      RunIsHashes(s, i);
      SliceSplit(s, from, i, e);
    }
  }

  lemma RunIsHashes(s: string, i: nat)
    requires i <= |s|
    ensures s[i..RunEnd(s, i)] == Repeat('#', RunEnd(s, i) - i)
  {
  }

  lemma SliceSplit(s: string, a: nat, b: nat, c: nat)
    requires a <= b <= c <= |s|
    ensures s[a..] == s[a..b] + s[b..c] + s[c..]
  {
  }

  lemma WeaveCons(first: string, parts: seq<string>, run: nat, runs: seq<nat>)
    requires |parts| == |runs| + 1
    ensures Weave([first] + parts, [run] + runs) == first + Repeat('#', run) + Weave(parts, runs)
  {
    assert ([first] + parts)[1..] == parts;
    assert ([run] + runs)[1..] == runs;
  }

  /** Substitution replaces every separating run by `rep`:
      `re.sub("#+", rep, s) == rep.join(re.split("#+", s))`. */
  lemma {:induction false} SubstituteJoinsSplit(s: string, from: nat, rep: string)
    requires from <= |s|
    ensures SubstituteFrom(s, from, rep) == JoinWith(rep, SplitFrom(s, from))
    decreases |s| - from
  {
    var i := NextHash(s, from);
    if i < |s| {
      var e := RunEnd(s, i);
      var parts := [s[from..i]] + SplitFrom(s, e);
      assert SplitFrom(s, from) == parts;
      SubstituteJoinsSplit(s, e, rep);
      assert parts[1..] == SplitFrom(s, e);
    }
  }

  /** A character absent from `rep` and from the non-`#` text of `s` is
      absent from the substitution: the result holds nothing but text of
      `s` outside the runs and copies of `rep`. */
  lemma {:induction false} SubstituteAvoids(s: string, from: nat, rep: string, c: char)
    requires from <= |s|
    requires c !in rep
    requires c == '#' || c !in s[from..]
    ensures c !in SubstituteFrom(s, from, rep)
    decreases |s| - from
  {
    var i := NextHash(s, from);
    if i < |s| {
      var e := RunEnd(s, i);
      assert c != '#' ==> c !in s[e..] by {
        if c != '#' {
          assert forall k :: 0 <= k < |s| - e ==> s[e..][k] == s[from..][k + e - from];
        }
      }
      SubstituteAvoids(s, e, rep, c);
      assert c !in s[from..i] by {
        assert forall k :: 0 <= k < i - from ==> s[from..i][k] == s[from + k];
      }
    } else if c == '#' {
      assert forall k :: 0 <= k < |s| - from ==> s[from..][k] == s[from + k];
    }
  }
}
