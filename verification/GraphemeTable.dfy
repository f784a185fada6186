/** The run-length compression of desktop/de/textmodel/gen-graphemes.py: an array with one property value
    per code point becomes a sorted table of runs of one non-zero value. */
module GraphemeTable {

  datatype Run = Run(first: int, last: int, value: nat)

  /** Looking code point c up: the value of the entry it lies in, 0 (Other, no flags) in none. */
  ghost predicate Represents(t: seq<Run>, value: seq<nat>) {
    && (forall k :: 0 <= k < |t| ==> 0 <= t[k].first <= t[k].last < |value|)
    && (forall c, k :: 0 <= c < |value| && 0 <= k < |t| && t[k].first <= c <= t[k].last ==> t[k].value == value[c])
    && (forall c :: 0 <= c < |value| && value[c] != 0 ==> Covered(t, c))
  }

  ghost predicate Covered(t: seq<Run>, c: int) {
    exists k :: 0 <= k < |t| && t[k].first <= c <= t[k].last
  }

  /** Sorted and disjoint, every run of a value that is not the default. */
  ghost predicate Sorted(t: seq<Run>) {
    && (forall k :: 0 <= k < |t| ==> t[k].first <= t[k].last && t[k].value != 0)
    && (forall j, k :: 0 <= j < k < |t| ==> t[j].last < t[k].first)
  }

  /** Each run goes as far as its value does, in both directions. */
  ghost predicate Maximal(t: seq<Run>, value: seq<nat>) {
    forall k :: 0 <= k < |t| && 0 <= t[k].first <= t[k].last < |value| ==>
      && (t[k].first > 0 ==> value[t[k].first - 1] != t[k].value)
      && (t[k].last + 1 < |value| ==> value[t[k].last + 1] != t[k].value)
  }

  /** What the table says of c, as grapheme.rs asks it. */
  function Lookup(t: seq<Run>, c: int): nat {
    if t == [] then 0 else if t[0].first <= c <= t[0].last then t[0].value else Lookup(t[1..], c)
  }

  lemma {:induction false} LookupIs(t: seq<Run>, value: seq<nat>, c: int, from: nat)
    requires Represents(t, value) && 0 <= c < |value| && from <= |t|
    ensures (forall k :: from <= k < |t| ==> !(t[k].first <= c <= t[k].last)) ==> Lookup(t[from..], c) == 0
    ensures (exists k :: from <= k < |t| && t[k].first <= c <= t[k].last) ==> Lookup(t[from..], c) == value[c]
    decreases |t| - from
  {
    if from < |t| {
      LookupIs(t, value, c, from + 1);
      assert t[from..][1..] == t[from + 1..];
    }
  }

  /** Compression loses nothing: looking any code point up gives back its value. */
  lemma LookupRecovers(t: seq<Run>, value: seq<nat>, c: int)
    requires Represents(t, value) && 0 <= c < |value|
    ensures Lookup(t, c) == value[c]
  {
    LookupIs(t, value, c, 0);
    assert t[0..] == t;
    if value[c] != 0 { assert Covered(t, c); }
  }

  lemma {:induction false} LookupAt(t: seq<Run>, c: int, k: nat)
    requires Sorted(t) && k < |t| && t[k].first <= c <= t[k].last
    ensures Lookup(t, c) == t[k].value
    decreases k
  {
    if k > 0 { LookupAt(t[1..], c, k - 1); }
  }

  lemma {:induction false} LookupNone(t: seq<Run>, c: int)
    requires forall k :: 0 <= k < |t| ==> !(t[k].first <= c <= t[k].last)
    ensures Lookup(t, c) == 0
  {
    if t != [] { LookupNone(t[1..], c); }
  }

  /** The binary search of grapheme.rs, with 0 (Other) when it finds nothing. */
  method Property(t: seq<Run>, c: int) returns (value: nat)
    requires Sorted(t)
    ensures value == Lookup(t, c)
  {
    var lo, hi := 0, |t|;
    while lo < hi
      invariant 0 <= lo <= hi <= |t|
      invariant forall k :: 0 <= k < lo ==> t[k].last < c
      invariant forall k :: hi <= k < |t| ==> c < t[k].first
    {
      var mid := lo + (hi - lo) / 2;
      if t[mid].last < c {
        lo := mid + 1;
      } else if t[mid].first > c {
        hi := mid;
      } else {
        LookupAt(t, c, mid);
        return t[mid].value;
      }
    }
    LookupNone(t, c);
    return 0;
  }

  // ----------------------------------------------------------------------- the loop

  /** One emitted run: non-zero, constant, and going as far as its value does. */
  ghost predicate RunOk(r: Run, value: seq<nat>) {
    && 0 <= r.first <= r.last < |value| && r.value != 0
    && (forall i :: r.first <= i <= r.last ==> value[i] == r.value)
    && (r.first > 0 ==> value[r.first - 1] != r.value)
    && (r.last + 1 < |value| ==> value[r.last + 1] != r.value)
  }

  ghost predicate Zeros(value: seq<nat>, from: int, to: int) {
    forall i :: from <= i < to && 0 <= i < |value| ==> value[i] == 0
  }

  /** The runs emitted once everything before `start` is done: the default between them, and nothing else. */
  ghost predicate SoFar(runs: seq<Run>, value: seq<nat>, start: int)
    decreases |runs|
  {
    && 0 <= start <= |value|
    && if runs == [] then Zeros(value, 0, start)
       else
         var r := runs[|runs| - 1];
         RunOk(r, value) && r.last < start && Zeros(value, r.last + 1, start) && SoFar(runs[..|runs| - 1], value, r.first)
  }

  /** A maximal stretch of one non-zero value becomes the next run. */
  lemma Emit(runs: seq<Run>, value: seq<nat>, r: Run)
    requires SoFar(runs, value, r.first) && RunOk(r, value)
    ensures SoFar(runs + [r], value, r.last + 1)
  {
    assert (runs + [r])[..|runs + [r]| - 1] == runs;
  }

  /** A stretch of the default value is left out. */
  lemma Skip(runs: seq<Run>, value: seq<nat>, start: int, c: int)
    requires SoFar(runs, value, start) && start <= c <= |value| && Zeros(value, start, c)
    ensures SoFar(runs, value, c)
  {
  }

  /** What is emitted when the stretch of one value from `start` ends before c. */
  function Ended(runs: seq<Run>, value: seq<nat>, start: nat, c: nat): seq<Run>
    requires start < |value|
  {
    if value[start] != 0 then runs + [Run(start, c - 1, value[start])] else runs
  }

  lemma EndRun(runs: seq<Run>, value: seq<nat>, start: nat, c: nat)
    requires SoFar(runs, value, start) && start < c <= |value|
    requires start > 0 ==> value[start - 1] != value[start]
    requires c < |value| ==> value[c] != value[start]
    requires forall i :: start <= i < c ==> value[i] == value[start]
    ensures SoFar(Ended(runs, value, start, c), value, c)
  {
    if value[start] != 0 {
      Emit(runs, value, Run(start, c - 1, value[start]));
    } else {
      Skip(runs, value, start, c);
    }
  }

  lemma {:induction false} RunAt(runs: seq<Run>, value: seq<nat>, start: int, k: nat)
    requires SoFar(runs, value, start) && k < |runs|
    ensures RunOk(runs[k], value) && runs[k].last < start
    ensures k + 1 < |runs| ==> runs[k].last < runs[|runs| - 1].first
    decreases |runs|
  {
    var front, r := runs[..|runs| - 1], runs[|runs| - 1];
    if k < |front| { RunAt(front, value, r.first, k); }
  }

  lemma {:induction false} InOrder(runs: seq<Run>, value: seq<nat>, start: int, j: nat, k: nat)
    requires SoFar(runs, value, start) && j < k < |runs|
    ensures runs[j].last < runs[k].first
    decreases |runs|
  {
    var front, r := runs[..|runs| - 1], runs[|runs| - 1];
    if k < |front| {
      InOrder(front, value, r.first, j, k);
    } else {
      RunAt(runs, value, start, j);
    }
  }

  lemma {:induction false} AllCovered(runs: seq<Run>, value: seq<nat>, start: int, i: nat)
    requires SoFar(runs, value, start) && i < start && value[i] != 0
    ensures Covered(runs, i)
    decreases |runs|
  {
    assert runs != [];
    var front, r := runs[..|runs| - 1], runs[|runs| - 1];
    if i < r.first {
      AllCovered(front, value, r.first, i);
      var k :| 0 <= k < |front| && front[k].first <= i <= front[k].last;
      assert runs[k] == front[k];
    } else {
      assert runs[|runs| - 1].first <= i <= runs[|runs| - 1].last;
    }
  }

  lemma AtTheEnd(runs: seq<Run>, value: seq<nat>)
    requires SoFar(runs, value, |value|)
    ensures Sorted(runs) && Represents(runs, value) && Maximal(runs, value)
  {
    forall k | 0 <= k < |runs| ensures RunOk(runs[k], value) {
      RunAt(runs, value, |value|, k);
    }
    forall j, k | 0 <= j < k < |runs| ensures runs[j].last < runs[k].first {
      InOrder(runs, value, |value|, j, k);
    }
    forall i | 0 <= i < |value| && value[i] != 0 ensures Covered(runs, i) {
      AllCovered(runs, value, |value|, i);
    }
  }

  /** The loop over c = 1 .. n: a run ends at the end and wherever the value changes. */
  method Compress(value: seq<nat>) returns (runs: seq<Run>)
    requires |value| > 0
    ensures Sorted(runs) && Represents(runs, value) && Maximal(runs, value)
  {
    runs := [];
    var start := 0;
    for c := 1 to |value| + 1
      invariant SoFar(runs, value, start)
      invariant if c <= |value| then start < c else start == |value|
      invariant 0 < start < |value| ==> value[start - 1] != value[start]
      invariant forall i :: start <= i < c && i < |value| ==> value[i] == value[start]
    {
      if c == |value| || value[c] != value[start] {
        EndRun(runs, value, start, c);
        ghost var next := Ended(runs, value, start, c);
        if value[start] != 0 {
          runs := runs + [Run(start, c - 1, value[start])];
        }
        assert runs == next;
        start := c;
      }
    }
    AtTheEnd(runs, value);
  }

  // --------------------------------------------------------------------- no table is shorter

  /** An entry of any table for the same values that covers the start of a maximal run lies in it. */
  lemma EntryInRun(value: seq<nat>, other: seq<Run>, runs: seq<Run>, j: nat, k: nat)
    requires Represents(other, value) && Represents(runs, value) && Sorted(runs) && Maximal(runs, value)
    requires j < |other| && k < |runs| && other[j].first <= runs[k].first <= other[j].last
    ensures runs[k].first <= other[j].first && other[j].last <= runs[k].last
  {
    var o, r := other[j], runs[k];
    assert forall i :: o.first <= i <= o.last ==> value[i] == o.value;
    assert r.value == value[r.first] == o.value;
  }

  lemma DifferentEntries(value: seq<nat>, other: seq<Run>, runs: seq<Run>, i: nat, j: nat, k: nat, m: nat)
    requires Represents(other, value) && Represents(runs, value) && Sorted(runs) && Maximal(runs, value)
    requires i < |other| && j < |other| && k < m < |runs|
    requires other[i].first <= runs[k].first <= other[i].last && other[j].first <= runs[m].first <= other[j].last
    ensures i != j
  {
    EntryInRun(value, other, runs, i, k);
    assert runs[k].last < runs[m].first;
  }

  /** The entry of `other` that answers for s. */
  ghost function EntryFor(other: seq<Run>, s: int): (j: nat)
    requires Covered(other, s)
    ensures j < |other| && other[j].first <= s <= other[j].last
  {
    var j: nat :| j < |other| && other[j].first <= s <= other[j].last;
    j
  }

  lemma StartsCovered(value: seq<nat>, other: seq<Run>, runs: seq<Run>, k: nat)
    requires Represents(other, value) && Represents(runs, value) && Sorted(runs) && k < |runs|
    ensures Covered(other, runs[k].first)
  {
    assert value[runs[k].first] == runs[k].value != 0;
  }

  lemma {:induction false} DistinctBelow(at: seq<nat>, n: nat)
    requires forall k :: 0 <= k < |at| ==> at[k] < n
    requires forall k, m :: 0 <= k < m < |at| ==> at[k] != at[m]
    ensures |at| <= n
    decreases n
  {
    if at != [] {
      assert at[0] < n;
      if exists k :: 0 <= k < |at| && at[k] == n - 1 {
        var k :| 0 <= k < |at| && at[k] == n - 1;
        var rest := at[..k] + at[k + 1..];
        DistinctBelow(rest, n - 1);
      } else {
        DistinctBelow(at, n - 1);
      }
    }
  }

  /** The table is as short as a table of runs can be: any other one for the same values, in any order,
      overlapping or not, has at least as many entries. */
  lemma NoShorterTable(value: seq<nat>, runs: seq<Run>, other: seq<Run>)
    requires Represents(runs, value) && Sorted(runs) && Maximal(runs, value)
    requires Represents(other, value)
    ensures |runs| <= |other|
  {
    forall k | 0 <= k < |runs| ensures Covered(other, runs[k].first) {
      StartsCovered(value, other, runs, k);
    }
    var at := seq(|runs|, k requires 0 <= k < |runs| => EntryFor(other, runs[k].first));
    forall k, m | 0 <= k < m < |at| ensures at[k] != at[m] {
      DifferentEntries(value, other, runs, at[k], at[m], k, m);
    }
    DistinctBelow(at, |other|);
  }
}
