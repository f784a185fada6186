/** The two limiters that stop the session supervisor from restarting for ever, as properties of whole
    histories: RestartPolicy of desktop/de/anchor/src/policy.rs, and the lock screen's crash list of
    supervisor.rs. Seconds are reals. */
module RestartLimits {

  // ------------------------------------------------------------- a component's streak

  datatype Policy = Policy(maxFailures: nat, healthySeconds: real)

  datatype Decision = Restart(failures: nat) | GiveUp(failures: nat)

  function Decide(p: Policy, ranFor: real, previous: nat): Decision {
    var failures := if ranFor >= p.healthySeconds then 1 else previous + 1;
    if failures > p.maxFailures then GiveUp(failures) else Restart(failures)
  }

  /** The streak the supervisor carries after these runs, each decided in turn. */
  function Streak(p: Policy, runs: seq<real>): (n: nat)
  {
    if runs == [] then 0 else Decide(p, runs[|runs| - 1], Streak(p, runs[..|runs| - 1])).failures
  }

  /** The last k runs all ended before they counted as healthy. */
  ghost predicate LastUnhealthy(p: Policy, runs: seq<real>, k: nat) {
    k <= |runs| && forall i :: |runs| - k <= i < |runs| ==> runs[i] < p.healthySeconds
  }

  lemma {:induction false} StreakCounts(p: Policy, runs: seq<real>, k: nat)
    ensures Streak(p, runs) > k <==> |runs| > k && LastUnhealthy(p, runs, k)
    decreases |runs|
  {
    if runs != [] && k > 0 {
      var before := runs[..|runs| - 1];
      StreakCounts(p, before, k - 1);
      if |runs| > k && LastUnhealthy(p, runs, k) {
        assert runs[|runs| - 1] < p.healthySeconds;
        forall i | |before| - (k - 1) <= i < |before| ensures before[i] < p.healthySeconds {
          assert before[i] == runs[i];
        }
      }
      if runs[|runs| - 1] < p.healthySeconds && |before| > k - 1 && LastUnhealthy(p, before, k - 1) {
        forall i | |runs| - k <= i < |runs| ensures runs[i] < p.healthySeconds {
          if i < |before| { assert runs[i] == before[i]; }
        }
      }
    }
  }

  /** A component is given up on exactly when it has exited more than maxFailures times and its last
      maxFailures runs were all unhealthy, whatever happened before them. */
  lemma GivesUpExactly(p: Policy, runs: seq<real>, ranFor: real)
    ensures Decide(p, ranFor, Streak(p, runs)).GiveUp? <==>
      |runs + [ranFor]| >= p.maxFailures + 1 && LastUnhealthy(p, runs + [ranFor], p.maxFailures)
  {
    var all := runs + [ranFor];
    assert all[..|all| - 1] == runs;
    StreakCounts(p, all, p.maxFailures);
  }

  // ----------------------------------------------------------- the lock screen's crashes

  const WINDOW: real := 60.0
  const LIMIT: nat := 5

  function Retain(ts: seq<real>, now: real): (r: seq<real>)
    ensures |r| <= |ts|
  {
    if ts == [] then []
    else (if now - ts[0] < WINDOW then [ts[0]] else []) + Retain(ts[1..], now)
  }

  /** lock_crashes after these crashes: each prunes what it can no longer see, then adds itself. */
  function Crashes(ts: seq<real>): seq<real> {
    if ts == [] then []
    else Retain(Crashes(ts[..|ts| - 1]), ts[|ts| - 1]) + [ts[|ts| - 1]]
  }

  ghost predicate Monotone(ts: seq<real>) {
    forall i, j :: 0 <= i <= j < |ts| ==> ts[i] <= ts[j]
  }

  lemma {:induction false} RetainConcat(a: seq<real>, b: seq<real>, now: real)
    ensures Retain(a + b, now) == Retain(a, now) + Retain(b, now)
  {
    if a == [] {
      assert a + b == b;
    } else {
      assert (a + b)[1..] == a[1..] + b;
      RetainConcat(a[1..], b, now);
    }
  }

  lemma {:induction false} RetainAgain(ts: seq<real>, earlier: real, now: real)
    requires earlier <= now
    ensures Retain(Retain(ts, earlier), now) == Retain(ts, now)
  {
    if ts != [] {
      RetainAgain(ts[1..], earlier, now);
      var head := if earlier - ts[0] < WINDOW then [ts[0]] else [];
      RetainConcat(head, Retain(ts[1..], earlier), now);
    }
  }

  /** Pruning as it goes loses nothing: the list is the whole history's last minute. */
  lemma {:induction false} CrashesAreTheLastMinute(ts: seq<real>)
    requires Monotone(ts) && ts != []
    ensures Crashes(ts) == Retain(ts, ts[|ts| - 1])
    decreases |ts|
  {
    var before, now := ts[..|ts| - 1], ts[|ts| - 1];
    assert ts == before + [now];
    RetainConcat(before, [now], now);
    assert Retain([now], now) == [now];
    if before != [] {
      CrashesAreTheLastMinute(before);
      RetainAgain(before, before[|before| - 1], now);
    }
  }

  /** Whether the k-th crash was answered by starting the lock screen again. */
  predicate Restarted(ts: seq<real>, k: nat)
    requires k < |ts|
  {
    |Crashes(ts[..k + 1])| <= LIMIT
  }

  lemma {:induction false} RetainKeepsSuffix(ts: seq<real>, i: nat, now: real)
    requires i <= |ts| && forall k :: i <= k < |ts| ==> now - ts[k] < WINDOW
    ensures |Retain(ts, now)| >= |ts| - i
  {
    if i > 0 && ts != [] {
      RetainKeepsSuffix(ts[1..], i - 1, now);
    } else if ts != [] {
      RetainKeepsSuffix(ts[1..], 0, now);
    }
  }

  ghost function RestartsIn(ts: seq<real>, i: nat, j: nat): (n: nat)
    requires i <= j <= |ts|
    ensures n <= j - i
    decreases j
  {
    if i == j then 0 else RestartsIn(ts, i, j - 1) + (if Restarted(ts, j - 1) then 1 else 0)
  }

  /** Between two unlocks, no minute holds more than five automatic restarts of the lock screen. */
  lemma {:induction false} AtMostFiveRestarts(ts: seq<real>, i: nat, j: nat)
    requires Monotone(ts) && i < j <= |ts| && ts[j - 1] - ts[i] < WINDOW
    ensures RestartsIn(ts, i, j) <= LIMIT
    decreases j
  {
    if j - i > LIMIT {
      var seen := ts[..j];
      CrashesAreTheLastMinute(seen);
      RetainKeepsSuffix(seen, i, seen[j - 1]);
      assert seen == ts[..(j - 1) + 1];
      AtMostFiveRestarts(ts, i, j - 1);
    }
  }

  /** And the limit is not stricter than that: with at most five crashes in its last minute, a crash is
      always answered. */
  lemma RestartedIff(ts: seq<real>, k: nat)
    requires Monotone(ts) && k < |ts|
    ensures Restarted(ts, k) <==> |Retain(ts[..k + 1], ts[k])| <= LIMIT
  {
    CrashesAreTheLastMinute(ts[..k + 1]);
  }

  /** Of times in order, more than m are of the last minute exactly if the m-th before the last is. */
  lemma {:induction false} RetainCounts(ts: seq<real>, now: real, m: nat)
    requires Monotone(ts)
    ensures |Retain(ts, now)| > m <==> |ts| > m && now - ts[|ts| - 1 - m] < 60.0
  {
    if ts != [] {
      RetainCounts(ts[1..], now, m);
      if |ts| == m + 1 && now - ts[0] < 60.0 { RetainKeepsSuffix(ts, 0, now); }
    }
  }

  /** In seconds: a crash is answered unless the fifth crash before it was less than a minute ago. */
  lemma RestartedUnless(ts: seq<real>, k: nat)
    requires Monotone(ts) && k < |ts|
    ensures Restarted(ts, k) <==> k < 5 || ts[k] - ts[k - 5] >= 60.0
  {
    var seen := ts[..k + 1];
    CrashesAreTheLastMinute(seen);
    RetainCounts(seen, ts[k], 5);
  }

  /** These times come one after the other, none after `now`. */
  ghost predicate Dated(ts: seq<real>, now: real)
    decreases |ts|
  {
    ts == [] || (ts[|ts| - 1] <= now && Dated(ts[..|ts| - 1], ts[|ts| - 1]))
  }

  lemma DatedLater(ts: seq<real>, now: real, later: real)
    requires Dated(ts, now) && now <= later
    ensures Dated(ts, later)
  {
  }

  lemma DatedMore(ts: seq<real>, now: real)
    requires Dated(ts, now)
    ensures Dated(ts + [now], now)
  {
    assert (ts + [now])[..|ts|] == ts;
  }

  lemma {:induction false} DatedIsMonotone(ts: seq<real>, now: real)
    requires Dated(ts, now)
    ensures Monotone(ts) && forall t :: t in ts ==> t <= now
    decreases |ts|
  {
    if ts != [] {
      var front, last := ts[..|ts| - 1], ts[|ts| - 1];
      DatedIsMonotone(front, last);
      forall i, j | 0 <= i <= j < |ts| ensures ts[i] <= ts[j] {
        if j == |ts| - 1 && i < j { assert front[i] in front; }
      }
      forall t | t in ts ensures t <= now {
        if t != last { assert t in front; }
      }
    }
  }

  /** The answers given to these crashes, one by one: whether each was within the limit. */
  ghost predicate Answers(ts: seq<real>, answered: seq<bool>)
    decreases |ts|
  {
    |answered| == |ts| && (ts == [] ||
      (answered[|ts| - 1] == (|Crashes(ts)| <= LIMIT) && Answers(ts[..|ts| - 1], answered[..|ts| - 1])))
  }

  /** The time of the last crash; the clock starts at 0. */
  function Latest(ts: seq<real>): real { if ts == [] then 0.0 else ts[|ts| - 1] }

  /** The list of crashes is what it should be after these, answered so. */
  ghost predicate Recorded(ts: seq<real>, crashes: seq<real>, answered: seq<bool>) {
    var kept := crashes == Crashes(ts);
    kept && Answers(ts, answered) && Dated(ts, Latest(ts))
  }

  lemma RecordedMore(ts: seq<real>, crashes: seq<real>, answered: seq<bool>, now: real)
    requires Recorded(ts, crashes, answered) && Latest(ts) <= now
    ensures var more := Retain(crashes, now) + [now];
      Recorded(ts + [now], more, answered + [|more| <= LIMIT]) && Latest(ts + [now]) == now
  {
    DatedLater(ts, Latest(ts), now);
    DatedMore(ts, now);
    AnswersMore(ts, answered, now);
  }

  lemma AnswersMore(ts: seq<real>, answered: seq<bool>, now: real)
    requires Answers(ts, answered)
    ensures Answers(ts + [now], answered + [|Crashes(ts + [now])| <= LIMIT])
    ensures Crashes(ts + [now]) == Retain(Crashes(ts), now) + [now]
  {
    assert (ts + [now])[..|ts|] == ts;
    var all := answered + [|Crashes(ts + [now])| <= LIMIT];
    assert all[..|ts|] == answered;
  }

  /** Each answer is the exact limit of its crash. */
  lemma {:induction false} AnswersAreRestarts(ts: seq<real>, answered: seq<bool>, k: nat)
    requires Answers(ts, answered) && k < |ts|
    ensures answered[k] == Restarted(ts, k)
    decreases |ts|
  {
    if k == |ts| - 1 {
      assert ts[..k + 1] == ts;
    } else {
      var front := ts[..|ts| - 1];
      AnswersAreRestarts(front, answered[..|ts| - 1], k);
      assert front[..k + 1] == ts[..k + 1];
    }
  }
}
