/** What the supervisor makes of the lock screen's output, in desktop/de/anchor/src/supervisor.rs:
    bytes arrive in reads of any size, whole lines are handled, an unfinished one waits. Bytes are
    modelled as characters. */
module LockStream {
  import opened Wrappers

  const NEWLINE: char := '\n'
  const PREFIX: string := "abyss-lock-outcome: "
  const LOCKED: string := PREFIX + "locked"

  /** The complete lines of a stream, without their newlines. */
  function Lines(s: string): (r: seq<string>)
  {
    var nl := Newline(s);
    if nl == |s| then [] else [s[..nl]] + Lines(s[nl + 1..])
  }

  /** What follows the last newline. */
  function Tail(s: string): (t: string)
    ensures NEWLINE !in t
  {
    var nl := Newline(s);
    if nl == |s| then s else Tail(s[nl + 1..])
  }

  /** Where the first newline is; |s| when there is none. */
  function Newline(s: string): (i: nat)
    ensures i <= |s| && (i < |s| ==> s[i] == NEWLINE)
    ensures forall k :: 0 <= k < i ==> s[k] != NEWLINE
  {
    NewlineFrom(s, 0)
  }

  function NewlineFrom(s: string, from: nat): (i: nat)
    requires from <= |s|
    ensures from <= i <= |s| && (i < |s| ==> s[i] == NEWLINE)
    ensures forall k :: from <= k < i ==> s[k] != NEWLINE
    decreases |s| - from
  {
    if from == |s| || s[from] == NEWLINE then from else NewlineFrom(s, from + 1)
  }

  lemma NewlineIs(s: string, i: nat)
    requires i <= |s| && (i < |s| ==> s[i] == NEWLINE) && forall k :: 0 <= k < i ==> s[k] != NEWLINE
    ensures Newline(s) == i
  {
  }

  lemma LinesFront(s: string)
    ensures var nl := Newline(s);
      if nl == |s| then Lines(s) == [] && Tail(s) == s
      else Lines(s) == [s[..nl]] + Lines(s[nl + 1..]) && Tail(s) == Tail(s[nl + 1..])
  {
  }

  /** Handling the whole lines of `pending` after those handled ends with `all`, and `tail` pending. */
  ghost predicate Yields(handled: seq<string>, pending: string, all: seq<string>, tail: string)
    decreases |pending|
  {
    var nl := Newline(pending);
    if nl == |pending| then handled == all && pending == tail
    else Yields(handled + [pending[..nl]], pending[nl + 1..], all, tail)
  }

  lemma {:induction false} YieldsLines(handled: seq<string>, pending: string)
    ensures Yields(handled, pending, handled + Lines(pending), Tail(pending))
    decreases |pending|
  {
    var nl := Newline(pending);
    LinesFront(pending);
    if nl < |pending| {
      var line, rest := pending[..nl], pending[nl + 1..];
      YieldsLines(handled + [line], rest);
      assert handled + Lines(pending) == handled + [line] + Lines(rest);
    } else {
      assert handled + [] == handled;
    }
  }

  lemma FirstLine(line: string, rest: string)
    requires NEWLINE !in line
    ensures Lines(line + [NEWLINE] + rest) == [line] + Lines(rest)
    ensures Tail(line + [NEWLINE] + rest) == Tail(rest)
  {
    var s := line + [NEWLINE] + rest;
    NewlineIs(s, |line|);
    LinesFront(s);
    assert s[..|line|] == line && s[|line| + 1..] == rest;
  }

  /** Handling a stream in two parts, the unfinished line kept in between, is handling it whole. */
  lemma {:induction false} InTwoReads(a: string, b: string)
    ensures Lines(a + b) == Lines(a) + Lines(Tail(a) + b)
    ensures Tail(a + b) == Tail(Tail(a) + b)
    decreases |a|
  {
    var nl := Newline(a);
    if nl < |a| {
      var line, rest := a[..nl], a[nl + 1..];
      assert a == line + [NEWLINE] + rest && a + b == line + [NEWLINE] + (rest + b);
      FirstLine(line, rest);
      FirstLine(line, rest + b);
      InTwoReads(rest, b);
    } else {
      LinesFront(a);
    }
  }

  function Flat(cuts: seq<string>): string {
    if cuts == [] then "" else cuts[0] + Flat(cuts[1..])
  }

  /** The same, one read after another: what was handled, and what is pending. */
  function Handle(pending: string, cuts: seq<string>): (r: (seq<string>, string))
    decreases |cuts|
  {
    if cuts == [] then ([], pending)
    else
      var s := pending + cuts[0];
      var rest := Handle(Tail(s), cuts[1..]);
      (Lines(s) + rest.0, rest.1)
  }

  /** However the stream is cut into reads, exactly its lines are handled and its last part kept. */
  lemma {:induction false} CutAnywhere(pending: string, cuts: seq<string>)
    requires NEWLINE !in pending
    ensures Handle(pending, cuts) == (Lines(pending + Flat(cuts)), Tail(pending + Flat(cuts)))
    decreases |cuts|
  {
    if cuts == [] {
      assert pending + Flat(cuts) == pending;
      assert pending[..|pending|] == pending;
      NewlineIs(pending, |pending|);
    } else {
      var s := pending + cuts[0];
      assert pending + Flat(cuts) == s + Flat(cuts[1..]);
      CutAnywhere(Tail(s), cuts[1..]);
      InTwoReads(s, Flat(cuts[1..]));
    }
  }

  // ------------------------------------------------------------------- what a line says

  predicate IsOutcome(line: string) { |line| >= |PREFIX| && line[..|PREFIX|] == PREFIX }

  /** The word the lock screen last announced, other than that it has locked. */
  function Outcome(lines: seq<string>): Option<string> {
    if lines == [] then None
    else
      var last := lines[|lines| - 1];
      if IsOutcome(last) && last != LOCKED then Some(last[|PREFIX|..]) else Outcome(lines[..|lines| - 1])
  }

  predicate SaidLocked(lines: seq<string>) { LOCKED in lines }

  /** A line that says so makes its word the outcome, except that `locked` only says that it has locked; any
      other line changes nothing. */
  lemma LastWord(lines: seq<string>, word: string, other: string)
    requires !("abyss-lock-outcome: " <= other)
    ensures var all := lines + ["abyss-lock-outcome: " + word];
      if word == "locked" then SaidLocked(all) && Outcome(all) == Outcome(lines)
      else SaidLocked(all) == SaidLocked(lines) && Outcome(all) == Some(word)
    ensures Outcome(lines + [other]) == Outcome(lines) && SaidLocked(lines + [other]) == SaidLocked(lines)
    ensures Outcome([]) == None && !SaidLocked([])
  {
    var line := PREFIX + word;
    assert (lines + [line])[..|lines|] == lines && (lines + [other])[..|lines|] == lines;
    assert line[..|PREFIX|] == PREFIX && line[|PREFIX|..] == word;
    assert LOCKED[|PREFIX|..] == "locked" && LOCKED[..|PREFIX|] == PREFIX;
  }

  /** What has become of all that was heard: its whole lines are handled, the last word of them is kept, and
      the rest is pending. */
  ghost predicate Followed(heard: string, handled: seq<string>, pending: string, outcome: Option<string>) {
    var lines := handled == Lines(heard);
    lines && pending == Tail(heard) && outcome == Outcome(handled)
  }
}
