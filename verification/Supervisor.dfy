/** The session supervisor of desktop/de/anchor/src/supervisor.rs: one poll loop over child exits, the
    control socket, the lock screen's pipe and signals. What poll reports and what is read are arguments; the
    system's other answers (whether a spawn works, whether a socket accepts, what the clock says) are
    arbitrary, each a `*`, and `log` keeps them. */
module Supervisor {
  import opened Wrappers
  import opened Children
  import opened RestartLimits
  import opened LockStream
  import opened SystemCalls
  import opened PollRound

  datatype Running = Running(spec: Spec, child: Handle, startedAt: real, failures: nat, restarts: nat)

  datatype Reply =
    | Refused
    | Done(already: bool)
    | Status(components: nat, up: seq<bool>, restarts: seq<nat>, locking: bool, locked: bool)

  function ChildrenOf(rs: seq<Running>): (hs: seq<Handle>)
    ensures |hs| == |rs|
  {
    seq(|rs|, i requires 0 <= i < |rs| => rs[i].child)
  }

  /** The children that are live, in order. */
  function AllLogged(rs: seq<Running>): seq<nat>
    decreases |rs|
  {
    if rs == [] then [] else AllLogged(rs[..|rs| - 1]) + Logged(rs[|rs| - 1].child)
  }

  lemma AllLoggedMore(rs: seq<Running>, n: nat)
    requires n < |rs|
    ensures AllLogged(rs[..n + 1]) == AllLogged(rs[..n]) + Logged(rs[n].child)
  {
    assert rs[..n + 1][..n] == rs[..n];
  }

  /** Each component's streak is that of the runs it has had. */
  ghost predicate Tallied(policy: Policy, rs: seq<Running>, exits: seq<seq<real>>)
    decreases |rs|
  {
    |rs| == |exits| && (rs == [] ||
      (rs[|rs| - 1].failures == Streak(policy, exits[|rs| - 1]) && Tallied(policy, rs[..|rs| - 1], exits[..|rs| - 1])))
  }

  lemma {:induction false} TalliedAt(policy: Policy, rs: seq<Running>, exits: seq<seq<real>>, i: nat)
    requires Tallied(policy, rs, exits) && i < |rs|
    ensures rs[i].failures == Streak(policy, exits[i])
    decreases |rs|
  {
    if i < |rs| - 1 { TalliedAt(policy, rs[..|rs| - 1], exits[..|rs| - 1], i); }
  }

  lemma {:induction false} TalliedPut(policy: Policy, rs: seq<Running>, exits: seq<seq<real>>, i: nat, r: Running, e: seq<real>)
    requires Tallied(policy, rs, exits) && i < |rs| && r.failures == Streak(policy, e)
    ensures Tallied(policy, rs[i := r], exits[i := e])
    decreases |rs|
  {
    var n := |rs| - 1;
    if i < n {
      TalliedPut(policy, rs[..n], exits[..n], i, r, e);
      assert rs[i := r][..n] == rs[..n][i := r] && exits[i := e][..n] == exits[..n][i := e];
    } else {
      assert rs[i := r][..n] == rs[..n] && exits[i := e][..n] == exits[..n];
    }
  }

  lemma TalliedKept(policy: Policy, rs: seq<Running>, exits: seq<seq<real>>, i: nat, r: Running)
    requires Tallied(policy, rs, exits) && i < |rs| && r.failures == rs[i].failures
    ensures Tallied(policy, rs[i := r], exits)
  {
    TalliedAt(policy, rs, exits, i);
    TalliedPut(policy, rs, exits, i, r, exits[i]);
    assert exits[i := exits[i]] == exits;
  }

  lemma {:induction false} TalliedFresh(policy: Policy, rs: seq<Running>, exits: seq<seq<real>>)
    requires |rs| == |exits| && forall i :: 0 <= i < |rs| ==> rs[i].failures == 0 && exits[i] == []
    ensures Tallied(policy, rs, exits)
    decreases |rs|
  {
    if rs != [] { TalliedFresh(policy, rs[..|rs| - 1], exits[..|rs| - 1]); }
  }

  class Supervisor {
    const policy: Policy
    var components: seq<Running>
    const compositor: Option<Spec>
    var compositorChild: Handle
    var control: bool
    var signals: bool
    var stopping: bool
    var exitCode: int
    const lockScreen: Option<Spec>
    const firstRun: Option<Spec>
    var firstRunChild: Handle
    var lockChild: Handle
    var lockPipe: bool
    var lockPending: string
    var lockOutcome: Option<string>
    var lockConfirmed: bool
    var lockCrashes: seq<real>

    // The system: children started so far (0, 1, ..., spawned - 1), and the monotonic clock.
    var spawned: nat
    var clock: real

    // History, for stating what the run did.
    ghost var reaped: seq<nat>             // children waited for, in order
    ghost var exits: seq<seq<real>>        // per component, how long each run that was restarted lasted
    ghost var heard: string                // all that was read from the current lock screen
    ghost var handled: seq<string>         // the lines of it that were acted on
    ghost var crashLog: seq<real>          // the lock screen's crashes since the last unlock
    ghost var answered: seq<bool>          // which of them started it again
    ghost var writer: nat                  // the child at the other end of lockPipe
    ghost var log: seq<Query>              // what the system was asked, and its answers
    ghost var ended: End

    // ------------------------------------------------------------------- invariants

    /** Every child handle: the compositor's, the lock screen's, the Setup Assistant's, the components'. */
    ghost function Handles(): seq<Handle>
      reads this`compositorChild, this`lockChild, this`firstRunChild, this`components
    {
      [compositorChild, lockChild, firstRunChild] + ChildrenOf(components)
    }

    ghost predicate Ledger()
      reads this`compositorChild, this`lockChild, this`firstRunChild, this`components, this`spawned, this`reaped
    {
      Conserved(Handles(), spawned, reaped)
    }

    ghost predicate Counting()
      reads this`components, this`exits
    {
      Tallied(policy, components, exits)
    }

    ghost predicate Crashing()
      reads this`crashLog, this`clock, this`lockCrashes, this`answered
    {
      var past := 0.0 <= Latest(crashLog) <= clock;
      past && Recorded(crashLog, lockCrashes, answered)
    }

    ghost predicate LockText()
      reads this`lockPending, this`heard, this`handled, this`lockOutcome, this`lockPipe, this`lockConfirmed
    {
      Followed(heard, handled, lockPending, lockOutcome) && (lockPipe ==> lockConfirmed == SaidLocked(handled))
    }

    /** What the poll loop sees of the lock screen. */
    ghost function Seats(): View
      reads this`lockChild, this`lockPipe, this`writer, this`heard, this`spawned
    {
      View(if Live(lockChild) then Some(lockChild.value.id) else None, if lockPipe then Some(writer) else None, heard, spawned)
    }

    /** An open pipe is the live lock screen's. */
    ghost predicate Piped()
      reads this`lockChild, this`lockPipe, this`writer
    {
      lockPipe ==> Live(lockChild) && lockChild.value.id == writer
    }

    /** The exit code and whether the loop is to stop say how the session ends. */
    ghost predicate Coded()
      reads this`exitCode, this`ended, this`stopping
    {
      exitCode == CodeOf(ended) && (stopping <==> !ended.Going?)
    }

    ghost predicate Locking()
      reads this`lockPending, this`heard, this`handled, this`lockOutcome, this`lockPipe, this`lockConfirmed, this`lockChild,
            this`writer
    {
      var confirmed := if Live(lockChild) then lockConfirmed == SaidLocked(handled) else !lockConfirmed && !lockPipe;
      LockText() && Piped() && confirmed
    }

    ghost predicate Valid()
      reads this
    {
      var children, lock := Ledger() && Counting(), Crashing() && Locking();
      children && lock && Coded()
    }

    constructor (compositor: Option<Spec>, specs: seq<Spec>, lockScreen: Option<Spec>, firstRun: Option<Spec>, policy: Policy)
      ensures Valid() && !stopping && spawned == 0 && exitCode == 0
      ensures forall k :: 0 <= k < |Handles()| ==> Handles()[k] == None
      ensures |components| == |specs| && forall i :: 0 <= i < |specs| ==> components[i].spec == specs[i]
    {
      this.policy, this.compositor, this.lockScreen, this.firstRun := policy, compositor, lockScreen, firstRun;
      components := seq(|specs|, i requires 0 <= i < |specs| => Running(specs[i], None, 0.0, 0, 0));
      compositorChild, firstRunChild, lockChild := None, None, None;
      control, signals, stopping, exitCode := false, false, false, 0;
      lockPipe, lockPending, lockOutcome, lockConfirmed, lockCrashes := false, "", None, false, [];
      spawned, reaped, clock, heard, handled, crashLog, answered := 0, [], 0.0, "", [], [], [];
      exits := seq(|specs|, _ => []);
      writer, log, ended := 0, [], Going;
      new;
      TalliedFresh(policy, components, exits);
    }

    // ------------------------------------------------------------ what the system does

    /** monotonic_seconds. */
    method Now() returns (t: real)
      modifies this`clock
      ensures t == clock && clock >= old(clock)
    {
      t := *;
      if t < clock { t := clock; }
      clock := t;
    }

    /** Supervisor::spawn: an absolute command, and a fork that may fail. */
    method Spawn(spec: Spec) returns (h: Handle)
      modifies this`spawned, this`log
      ensures h == None ==> spawned == old(spawned)
      ensures h.Some? ==> h == Some(Child(old(spawned), true)) && spawned == old(spawned) + 1 && !Malformed(spec)
      ensures log == old(log) + Spawning(spec, h.Some?)
    {
      if spec.argv == [] || spec.argv[0] == "" || spec.argv[0][0] != '/' { return None; }
      var forked: bool := *;
      log := log + [Forks(spec, forked)];
      if !forked { return None; }
      h := Some(Child(spawned, true));
      spawned := spawned + 1;
    }

    /** wait_for_socket: the deadline passes or a connection is accepted. */
    method WaitForSocket(path: string) returns (ready: bool)
      modifies this`clock, this`log
      ensures clock >= old(clock) && log == old(log) + [Accepts(path, ready)]
    {
      var t := Now();
      ready := *;
      log := log + [Accepts(path, ready)];
    }

    /** Every socket in turn, up to the first that does not accept. */
    method WaitForAll(needs: seq<string>) returns (ready: bool, ghost q: seq<Query>)
      modifies this`clock, this`log
      ensures clock >= old(clock) && log == old(log) + q
      ensures if ready then q == Waits(needs) else NotReady(needs, q)
    {
      q := [];
      for k := 0 to |needs|
        invariant clock >= old(clock) && log == old(log) + q && q == Waits(needs[..k])
      {
        WaitsMore(needs, k);
        ready := WaitForSocket(needs[k]);
        q := q + [Accepts(needs[k], ready)];
        if !ready { return; }
      }
      assert needs[..|needs|] == needs;
      ready := true;
    }

    // ------------------------------------------------------------------ child handles

    lemma ComponentHandle(i: nat)
      requires i < |components|
      ensures Handles()[3 + i] == components[i].child
    {
    }

    twostate lemma ComponentReplaced(i: nat)
      requires |components| == |old(components)| && i < |components| && components == old(components)[i := components[i]]
      requires compositorChild == old(compositorChild) && lockChild == old(lockChild) && firstRunChild == old(firstRunChild)
      ensures Handles() == old(Handles())[3 + i := components[i].child]
    {
    }

    method ReapComponent(i: nat)
      requires Ledger() && i < |components|
      modifies this`components, this`reaped
      ensures Ledger() && components == old(components)[i := old(components[i]).(child := Reaped(old(components[i].child)))]
      ensures Handles() == old(Handles())[3 + i := Reaped(old(Handles()[3 + i]))]
      ensures reaped == old(reaped) + Logged(old(components[i].child))
    {
      ComponentHandle(i);
      ReapConserves(Handles(), spawned, reaped, 3 + i);
      reaped := reaped + Logged(components[i].child);
      components := components[i := components[i].(child := Reaped(components[i].child))];
      ComponentReplaced(i);
    }

    method ReapCompositor()
      requires Ledger()
      modifies this`compositorChild, this`reaped
      ensures Ledger() && compositorChild == Reaped(old(compositorChild))
      ensures Handles() == old(Handles())[0 := Reaped(old(compositorChild))]
      ensures reaped == old(reaped) + Logged(old(compositorChild))
    {
      ReapConserves(Handles(), spawned, reaped, 0);
      reaped := reaped + Logged(compositorChild);
      compositorChild := Reaped(compositorChild);
      assert Handles() == old(Handles())[0 := compositorChild];
    }

    method ReapLock()
      requires Ledger()
      modifies this`lockChild, this`reaped
      ensures Ledger() && lockChild == Reaped(old(lockChild))
      ensures Handles() == old(Handles())[1 := Reaped(old(lockChild))]
      ensures reaped == old(reaped) + Logged(old(lockChild))
    {
      ReapConserves(Handles(), spawned, reaped, 1);
      reaped := reaped + Logged(lockChild);
      lockChild := Reaped(lockChild);
      assert Handles() == old(Handles())[1 := lockChild];
    }

    method ReapFirstRun()
      requires Ledger()
      modifies this`firstRunChild, this`reaped
      ensures Ledger() && firstRunChild == Reaped(old(firstRunChild))
      ensures Handles() == old(Handles())[2 := Reaped(old(firstRunChild))]
      ensures reaped == old(reaped) + Logged(old(firstRunChild))
    {
      ReapConserves(Handles(), spawned, reaped, 2);
      reaped := reaped + Logged(firstRunChild);
      firstRunChild := Reaped(firstRunChild);
      assert Handles() == old(Handles())[2 := firstRunChild];
    }

    method PlaceComponent(i: nat) returns (ok: bool)
      requires Ledger() && i < |components| && !Live(components[i].child)
      modifies this`components, this`spawned, this`log
      ensures Ledger() && log == old(log) + Spawning(old(components[i].spec), ok) && (ok ==> !Malformed(old(components[i].spec)))
      ensures !ok ==> components == old(components) && spawned == old(spawned)
      ensures ok ==> spawned == old(spawned) + 1 && Handles() == old(Handles())[3 + i := Some(Child(old(spawned), true))]
      ensures ok ==> components == old(components)[i := old(components[i]).(child := Some(Child(old(spawned), true)))]
    {
      ComponentHandle(i);
      SpawnConserves(Handles(), spawned, reaped, 3 + i);
      var child := Spawn(components[i].spec);
      if child == None { return false; }
      components := components[i := components[i].(child := child)];
      ComponentReplaced(i);
      ok := true;
    }

    /** Start component i once everything it needs accepts connections; `q` is what that asks. Its run begins
        when it is started, not while it waits. */
    method Start(i: nat) returns (ok: bool, ghost q: seq<Query>)
      requires Ledger() && Counting() && i < |components| && !Live(components[i].child)
      modifies this`components, this`spawned, this`clock, this`log
      ensures Ledger() && Counting() && clock >= old(clock)
      ensures log == old(log) + q && Starting(old(components[i].spec), ok, q)
      ensures !ok ==> components == old(components) && spawned == old(spawned)
      ensures ok ==> components[i].child == Some(Child(old(spawned), true)) && components[i].startedAt == clock
      ensures ok ==> spawned == old(spawned) + 1 && Handles() == old(Handles())[3 + i := Some(Child(old(spawned), true))]
      ensures |components| == |old(components)|
      ensures components[i] == old(components[i]).(child := components[i].child, startedAt := components[i].startedAt)
      ensures forall k :: 0 <= k < |components| && k != i ==> components[k] == old(components)[k]
    {
      ghost var spec := components[i].spec;
      ok, q := WaitForAll(components[i].spec.needs);
      if !ok { return; }
      ghost var first := components;
      ok := PlaceComponent(i);
      q := q + Spawning(spec, ok);
      if ok {
        TalliedKept(policy, first, exits, i, components[i]);
        var t := Now();
        ghost var before := components;
        TalliedKept(policy, before, exits, i, components[i].(startedAt := t));
        components := components[i := components[i].(startedAt := t)];
        assert ChildrenOf(components) == ChildrenOf(before);
      }
    }

    // --------------------------------------------------------------------- bring-up

    lemma AllNone()
      requires forall k :: 0 <= k < |Handles()| ==> Handles()[k] == None
      ensures compositorChild == None && lockChild == None && firstRunChild == None
      ensures forall k :: 0 <= k < |components| ==> components[k].child == None
    {
      assert Handles()[0] == None && Handles()[1] == None && Handles()[2] == None;
      forall k | 0 <= k < |components| ensures components[k].child == None {
        ComponentHandle(k);
      }
    }

    method StartCompositor() returns (ok: bool)
      requires Ledger() && compositorChild == None
      modifies this`compositorChild, this`spawned, this`log
      ensures log == old(log) + if compositor.Some? then Spawning(compositor.value, ok) else []
      ensures Ledger() && (!ok ==> compositor.Some? && compositorChild == None && spawned == old(spawned))
      ensures ok ==> compositorChild == (if compositor.Some? then Some(Child(old(spawned), true)) else None)
      ensures ok ==> spawned == old(spawned) + if compositor.Some? then 1 else 0
    {
      if compositor == None { return true; }
      SpawnConserves(Handles(), spawned, reaped, 0);
      var child := Spawn(compositor.value);
      if child == None { return false; }
      compositorChild := child;
      assert Handles() == old(Handles())[0 := compositorChild];
      ok := true;
    }

    /** The Setup Assistant, best effort: it is up exactly when there is one and all it asks for is there. */
    method StartFirstRun() returns (ghost q: seq<Query>)
      requires Ledger() && firstRunChild == None
      modifies this`firstRunChild, this`spawned, this`clock, this`log
      ensures Ledger() && clock >= old(clock) && log == old(log) + q
      ensures firstRun.Some? ==> Starting(firstRun.value, firstRunChild.Some?, q)
      ensures firstRun == None ==> q == [] && firstRunChild == None
      ensures firstRunChild == None || firstRunChild == Some(Child(old(spawned), true))
      ensures spawned == old(spawned) + if firstRunChild.Some? then 1 else 0
    {
      q := [];
      if firstRun == None { return; }
      var ready;
      ready, q := WaitForAll(firstRun.value.needs);
      if !ready { return; }
      SpawnConserves(Handles(), spawned, reaped, 2);
      var child := Spawn(firstRun.value);
      q := q + Spawning(firstRun.value, child.Some?);
      if child == None { return; }
      firstRunChild := child;
      assert Handles() == old(Handles())[2 := firstRunChild];
    }

    /** Components 0 to n-1 are up, started one after the other from child number `from` on; no other is. */
    ghost predicate UpTo(n: nat, from: nat)
      reads this`components
    {
      && n <= |components|
      && (forall k :: 0 <= k < n ==> components[k].child == Some(Child(from + k, true)))
      && (forall k :: n <= k < |components| ==> components[k].child == None)
    }

    /** Every component in order, up to the first that cannot be started. */
    method StartComponents() returns (ok: bool, ghost n: nat)
      requires Ledger() && Counting() && forall k :: 0 <= k < |components| ==> components[k].child == None
      modifies this`components, this`spawned, this`clock, this`log
      ensures Ledger() && Counting() && clock >= old(clock) && |components| == |old(components)|
      ensures UpTo(n, old(spawned)) && (ok <==> n == |components|) && spawned == old(spawned) + n
    {
      n := 0;
      for i := 0 to |components|
        invariant Ledger() && Counting() && clock >= old(clock) && |components| == |old(components)|
        invariant n == i && UpTo(i, old(spawned)) && spawned == old(spawned) + i
      {
        ghost var q;
        ok, q := Start(i);
        if !ok { return; }
        n := n + 1;
      }
      ok := true;
    }

    /** The compositor, then the components in order, then the Setup Assistant: it succeeds exactly when
        the compositor and all the components are up, and otherwise stops at the first that is not. */
    method BringUp() returns (ok: bool, ghost n: nat)
      requires Ledger() && Counting() && spawned == 0 && forall k :: 0 <= k < |Handles()| ==> Handles()[k] == None
      modifies this`components, this`compositorChild, this`firstRunChild, this`spawned, this`clock, this`control, this`signals,
               this`log
      ensures Ledger() && Counting() && clock >= old(clock) && |components| == |old(components)|
      ensures UpTo(n, if compositor.Some? then 1 else 0)
      ensures ok <==> n == |components| && (compositor.Some? <==> compositorChild.Some?)
      ensures compositorChild.Some? ==> compositorChild == Some(Child(0, true))
      ensures compositorChild == None && compositor.Some? ==> n == 0
      ensures firstRunChild.Some? ==> ok && firstRun.Some?
    {
      AllNone();
      n := 0;
      ok := StartCompositor();
      if !ok { return; }
      ok, n := StartComponents();
      if !ok { return; }
      control := *;
      signals := *;
      ghost var q := StartFirstRun();
    }

    // ---------------------------------------------------------------------- handlers

    method CompositorExited()
      requires Ledger()
      modifies this`compositorChild, this`reaped, this`stopping, this`ended
      ensures Ledger() && stopping && reaped == old(reaped) + Logged(old(compositorChild)) && ended == CompositorLeft
    {
      ReapCompositor();
      stopping := true;
      ended := CompositorLeft;
    }

    /** Polls for the compositor's exit without waiting for it. */
    method CompositorIsGone() returns (gone: bool)
      modifies this`log
      ensures (gone ==> Live(compositorChild)) && log == old(log) + Leaving(Live(compositorChild), gone)
    {
      if !Live(compositorChild) { return false; }
      gone := *;
      log := log + [Gone(gone)];
    }

    method CountRestart(i: nat, n: nat, ghost ran: real)
      requires Ledger() && Counting() && i < |components| && n == Streak(policy, exits[i] + [ran])
      modifies this`components, this`exits
      ensures Ledger() && Counting() && Handles() == old(Handles())
      ensures exits == old(exits)[i := old(exits[i]) + [ran]]
      ensures components == old(components)[i := old(components[i]).(failures := n, restarts := old(components[i].restarts) + 1)]
    {
      ghost var before := components;
      TalliedPut(policy, components, exits, i, components[i].(failures := n, restarts := components[i].restarts + 1), exits[i] + [ran]);
      components := components[i := components[i].(failures := n, restarts := components[i].restarts + 1)];
      exits := exits[i := exits[i] + [ran]];
      assert ChildrenOf(components) == ChildrenOf(before);
    }

    method CountAndStart(i: nat, n: nat, ghost ran: real) returns (ok: bool, ghost q: seq<Query>)
      requires Ledger() && Counting() && i < |components| && !Live(components[i].child)
      requires n == Streak(policy, exits[i] + [ran])
      modifies this`components, this`spawned, this`clock, this`exits, this`log
      ensures Ledger() && Counting() && clock >= old(clock) && |components| == |old(components)|
      ensures log == old(log) + q && Starting(old(components[i].spec), ok, q)
      ensures exits == old(exits)[i := old(exits[i]) + [ran]]
      ensures components[i].restarts == old(components[i].restarts) + 1
      ensures spawned == old(spawned) + if ok then 1 else 0
      ensures ok ==> components[i].startedAt == clock
      ensures ok ==> Handles() == old(Handles())[3 + i := Some(Child(old(spawned), true))]
    {
      CountRestart(i, n, ran);
      ok, q := Start(i);
    }

    /** Bring component i back with its streak now at n; if it cannot be, the session ends. */
    method Restart(i: nat, n: nat, ghost ran: real) returns (ghost f: Fate)
      requires Ledger() && Counting() && Coded() && !stopping && i < |components| && !Live(components[i].child)
      requires n == Streak(policy, exits[i] + [ran])
      modifies this`components, this`compositorChild, this`reaped, this`stopping, this`exitCode,
               this`spawned, this`clock, this`exits, this`log, this`ended
      ensures Ledger() && Counting() && Coded() && clock >= old(clock) && |components| == |old(components)|
      ensures exits == old(exits)[i := old(exits[i]) + [ran]]
      ensures components[i].restarts == old(components[i].restarts) + 1
      ensures reaped == old(reaped) || reaped == old(reaped) + Logged(old(compositorChild))
      ensures Retried(f) && spawned == old(spawned) + (if f.Back? then 1 else 0)
      ensures ended == EndOf(i, f) && (stopping <==> f.Stuck?)
      ensures f.Back? ==> compositorChild == old(compositorChild)
      ensures f.Back? ==> Handles() == old(Handles())[3 + i := Some(Child(old(spawned), true))]
      ensures f.Back? ==> f.startedAt == components[i].startedAt == clock
      ensures f.Stuck? ==> Starting(old(components[i].spec), false, f.asked)
      ensures log == old(log) + Asks(old(components[i].spec), Live(old(compositorChild)), f)
    {
      var ok;
      ghost var q;
      ok, q := CountAndStart(i, n, ran);
      if ok {
        f := Back(components[i].startedAt);
      } else {
        ghost var gone := RestartFailed(i);
        f := Stuck(gone, q);
      }
    }

    /** A component that cannot be started again ends the session, with the compositor's exit if that is why. */
    method RestartFailed(ghost i: nat) returns (ghost gone: bool)
      requires Ledger() && Coded() && !stopping
      modifies this`compositorChild, this`reaped, this`stopping, this`exitCode, this`ended, this`log
      ensures Ledger() && Coded() && stopping && log == old(log) + Leaving(Live(old(compositorChild)), gone)
      ensures reaped == old(reaped) || reaped == old(reaped) + Logged(old(compositorChild))
      ensures ended == if gone then CompositorLeft else NotRestarted(i)
    {
      var left := CompositorIsGone();
      gone := left;
      if left {
        CompositorExited();
      } else {
        exitCode := 1;
        stopping := true;
        ended := NotRestarted(i);
      }
    }

    /** What the end of component i's run, which lasted so long, leads to. */
    twostate predicate EndedSo(i: nat, r: RunEnd)
      requires i < |old(components)| && |old(exits)| == |components| == |old(components)|
      reads this
    {
      && Judged(policy, r) && r.runs == old(exits[i])
      && ended == EndOf(i, r.fate) && (stopping <==> !r.fate.Back?)
      && exits == (if Retried(r.fate) then old(exits)[i := AllRuns(r)] else old(exits))
      && components[i].restarts == old(components[i].restarts) + (if Retried(r.fate) then 1 else 0)
      && spawned == old(spawned) + (if r.fate.Back? then 1 else 0)
      && (r.fate.Back? ==> compositorChild == old(compositorChild))
      && (r.fate.Back? ==> Handles() == old(Handles())[3 + i := Some(Child(old(spawned), true))])
      && (r.fate.Back? ==> r.fate.startedAt == components[i].startedAt == clock)
      && (r.fate.Stuck? ==> Starting(old(components[i].spec), false, r.fate.asked))
    }

    /** What a finished run of component i, already reaped, leads to, once the compositor is still there. */
    method AfterRun(i: nat, ran: real, ghost startedAt: real) returns (ghost r: RunEnd)
      requires Ledger() && Counting() && Coded() && !stopping && i < |components| && !Live(components[i].child)
      requires ran == clock - startedAt
      modifies this`components, this`compositorChild, this`reaped, this`stopping, this`exitCode,
               this`spawned, this`clock, this`exits, this`log, this`ended
      ensures Ledger() && Counting() && Coded() && clock >= old(clock) && |components| == |old(components)|
      ensures reaped == old(reaped) || reaped == old(reaped) + Logged(old(compositorChild))
      ensures r.startedAt == startedAt && r.t == old(clock) && !r.fate.WithCompositor? && EndedSo(i, r)
      ensures log == old(log) + Asks(old(components[i].spec), Live(old(compositorChild)), r.fate)
    {
      GivesUpExactly(policy, exits[i], ran);
      TalliedAt(policy, components, exits, i);
      ghost var runs := exits[i];
      match Decide(policy, ran, components[i].failures)
      case GiveUp(n) =>
        exitCode := 1;
        stopping := true;
        ended := GaveUp(i);
        r := RunEnd(startedAt, clock, runs, GivenUp);
      case Restart(n) =>
        assert (exits[i] + [ran])[..|exits[i] + [ran]| - 1] == exits[i];
        ghost var t := clock;
        ghost var f := Restart(i, n, ran);
        r := RunEnd(startedAt, t, runs, f);
    }

    /** Component i's exit was polled: it is reaped, and how long it ran decides. */
    method ComponentExited(i: nat, ghost polled: nat) returns (ghost r: RunEnd)
      requires Ledger() && Counting() && Coded() && !stopping
      requires i < |components| && components[i].child == Some(Child(polled, true))
      modifies this`components, this`compositorChild, this`reaped, this`stopping, this`exitCode,
               this`spawned, this`clock, this`exits, this`log, this`ended
      ensures Ledger() && Counting() && Coded() && |components| == |old(components)|
      ensures reaped == old(reaped) + [polled] || reaped == old(reaped) + [polled] + Logged(old(compositorChild))
      ensures r.startedAt == old(components[i].startedAt) && old(clock) <= r.t <= clock && EndedSo(i, r)
      ensures log == old(log) + EndQueries(old(components[i].spec), Live(old(compositorChild)), r.fate)
    {
      ComponentHandle(i);
      var now := Now();
      ghost var startedAt, asked, live, spec := components[i].startedAt, log, Live(compositorChild), components[i].spec;
      var ran := now - components[i].startedAt;
      TalliedKept(policy, components, exits, i, components[i].(child := Reaped(components[i].child)));
      ReapComponent(i);
      var gone := CompositorIsGone();
      if gone {
        CompositorExited();
        r := RunEnd(startedAt, now, exits[i], WithCompositor);
      } else {
        r := AfterRun(i, ran, startedAt);
        Appended(asked, Leaving(live, false), Asks(spec, live, r.fate));
      }
    }

    method FirstRunExited(ghost polled: nat)
      requires Ledger() && firstRunChild == Some(Child(polled, true))
      modifies this`firstRunChild, this`reaped
      ensures Ledger() && Handles() == old(Handles())[2 := Reaped(old(firstRunChild))]
      ensures reaped == old(reaped) + [polled]
    {
      ReapFirstRun();
    }

    /** The signal pipe was readable; the read may still come back with nothing. */
    method HandleSignal(one: bool)
      requires Coded() && !stopping
      modifies this`stopping, this`ended
      ensures Coded() && ended == if signals && one then Signalled else Going
    {
      if !signals { return; }
      if one { stopping, ended := true, Signalled; }
    }

    // --------------------------------------------------------------- the lock screen

    method PlaceLock() returns (ok: bool)
      requires Ledger() && lockScreen.Some? && !Live(lockChild)
      modifies this`lockChild, this`spawned, this`log
      ensures Ledger() && log == old(log) + Spawning(lockScreen.value, ok) && (ok ==> !Malformed(lockScreen.value))
      ensures ok ==> lockChild == Some(Child(old(spawned), true)) && spawned == old(spawned) + 1
      ensures !ok ==> lockChild == old(lockChild) && spawned == old(spawned)
    {
      SpawnConserves(Handles(), spawned, reaped, 1);
      var child := Spawn(lockScreen.value);
      if child == None { return false; }
      lockChild := child;
      assert Handles() == old(Handles())[1 := lockChild];
      ok := true;
    }

    /** Start the lock screen, writing to a pipe of its own; `q` is what that asks. */
    method StartLock() returns (ok: bool, ghost q: seq<Query>)
      requires Ledger() && Locking() && !Live(lockChild)
      modifies this`lockChild, this`lockPipe, this`lockPending, this`lockOutcome, this`lockConfirmed,
               this`spawned, this`heard, this`handled, this`writer, this`log
      ensures Ledger() && Locking() && Seats() == if ok then NewLock(old(Seats())) else old(Seats())
      ensures log == old(log) + q && LockStarting(lockScreen, ok, q)
      ensures ok ==> lockChild == Some(Child(old(spawned), true)) && heard == ""
      ensures !ok ==> lockChild == old(lockChild) && spawned == old(spawned)
    {
      q := [];
      if lockScreen == None { return false, q; }
      var paired: bool := *;
      log, q := log + [Pairs(paired)], [Pairs(paired)];
      if !paired { return false, q; }
      ok := PlaceLock();
      q := q + Spawning(lockScreen.value, ok);
      if ok { OpenPipe(); }
    }

    /** Our end of the pipe of the lock screen just started, and a stream that begins with it. */
    method OpenPipe()
      requires Live(lockChild)
      modifies this`lockPipe, this`lockPending, this`lockOutcome, this`lockConfirmed, this`heard, this`handled, this`writer
      ensures Locking() && lockPipe && writer == lockChild.value.id && heard == "" && !lockConfirmed
    {
      lockPipe := true;
      writer := lockChild.value.id;
      lockPending := "";
      lockOutcome := None;
      lockConfirmed := false;
      heard, handled := "", [];
      EmptyStream();
    }

    /** Everything readable goes to lock_pending: `got` is what the reads come back with, one after the other,
        until there is nothing more for now, or ever. */
    method ReadAll(got: seq<Reading>) returns (eof: bool)
      modifies this`lockPending, this`heard
      ensures lockPending == old(lockPending) + Gathered(got) && heard == old(heard) + Gathered(got) && eof == Closed(got)
    {
      eof := false;
      var n := 0;
      while n < |got|
        invariant n <= |got| && !eof
        invariant lockPending + Gathered(got[n..]) == old(lockPending) + Gathered(got)
        invariant heard + Gathered(got[n..]) == old(heard) + Gathered(got)
        invariant Closed(got[n..]) == Closed(got)
      {
        var r := got[n];
        assert got[n..][0] == r && got[n..][1..] == got[n + 1..];
        match r {
          case Bytes(data) =>
            lockPending := lockPending + data;
            heard := heard + data;
          case Interrupted =>
          case WouldBlock => return false;
          case Ended => return true;
        }
        n := n + 1;
      }
    }

    method HandleLine(line: string)
      requires lockOutcome == Outcome(handled) && lockConfirmed == SaidLocked(handled)
      modifies this`lockOutcome, this`lockConfirmed, this`handled
      ensures handled == old(handled) + [line]
      ensures lockOutcome == Outcome(handled) && lockConfirmed == SaidLocked(handled)
    {
      if IsOutcome(line) {
        if line[|PREFIX|..] == "locked" {
          lockConfirmed := true;
        } else {
          lockOutcome := Some(line[|PREFIX|..]);
        }
      }
      LineHandled(handled, line);
      handled := handled + [line];
    }

    /** Every whole line in lock_pending is acted on. */
    method HandleLines()
      requires lockOutcome == Outcome(handled) && lockConfirmed == SaidLocked(handled)
      modifies this`lockPending, this`lockOutcome, this`lockConfirmed, this`handled
      ensures handled == old(handled) + Lines(old(lockPending)) && lockPending == Tail(old(lockPending))
      ensures lockOutcome == Outcome(handled) && lockConfirmed == SaidLocked(handled)
    {
      ghost var all, tail := handled + Lines(lockPending), Tail(lockPending);
      YieldsLines(handled, lockPending);
      while true
        invariant Yields(handled, lockPending, all, tail)
        invariant lockOutcome == Outcome(handled) && lockConfirmed == SaidLocked(handled)
        decreases |lockPending|
      {
        var nl := Newline(lockPending);
        if nl == |lockPending| { break; }
        var line := lockPending[..nl];
        lockPending := lockPending[nl + 1..];
        HandleLine(line);
      }
    }

    /** Read what the lock screen wrote and act on its whole lines; at the end of the stream, or when it is
        the last time, the pipe is closed. */
    method DrainLock(final: bool, got: seq<Reading>)
      requires LockText()
      modifies this`lockPipe, this`lockPending, this`lockOutcome, this`lockConfirmed, this`heard, this`handled
      ensures LockText() && heard == if old(lockPipe) then old(heard) + Gathered(got) else old(heard)
      ensures lockConfirmed == if old(lockPipe) then SaidLocked(handled) else old(lockConfirmed)
      ensures lockPipe <==> old(lockPipe) && !Closed(got) && !final
    {
      if !lockPipe { return; }
      var eof := ReadAll(got);
      InTwoReads(old(heard), Gathered(got));
      HandleLines();
      if eof || final { lockPipe := false; }
    }

    /** A crash of the lock screen: prune, count, and say whether to start it again. */
    method CountCrash() returns (again: bool)
      requires Crashing()
      modifies this`lockCrashes, this`crashLog, this`answered, this`clock
      ensures Crashing() && clock >= old(clock)
      ensures crashLog == old(crashLog) + [clock] && answered == old(answered) + [again]
      ensures |lockCrashes| == |Retain(old(lockCrashes), clock)| + 1 && (again <==> |lockCrashes| <= 5)
    {
      ghost var before := lockCrashes;
      var now := Now();
      lockCrashes := Retain(lockCrashes, now);
      lockCrashes := lockCrashes + [now];
      RecordedMore(crashLog, before, answered, now);
      crashLog := crashLog + [now];
      var n := |lockCrashes|;
      again := !(n > LIMIT);
      answered := answered + [again];
    }

    /** Reap the lock screen and take its last words, the last of all it has written. */
    method BuryLock(got: seq<Reading>, ghost polled: nat) returns (said: Option<string>)
      requires Ledger() && Locking() && lockChild == Some(Child(polled, true))
      modifies this`lockChild, this`reaped, this`lockPipe, this`lockPending, this`lockOutcome, this`lockConfirmed,
               this`heard, this`handled
      ensures Ledger() && Locking() && lockChild == Some(Child(polled, false)) && reaped == old(reaped) + [polled]
      ensures heard == Hearing(old(Seats()), got) && said == Outcome(Lines(heard)) && !lockPipe
    {
      ReapLock();
      DrainLock(true, got);
      lockConfirmed := false;
      said := lockOutcome;
    }

    /** What a lock screen's end leads to: `unlocked` empties the list of crashes, `refused` and a compositor
        that is gone leave it, and anything else adds one, `recent` being how many crashes the last minute
        then holds. Only after a crash within the limit is a new lock screen asked for. */
    ghost predicate Tells(d: Deed, before: seq<real>, crashes: seq<real>)
      requires d.Dies?
      reads this`crashLog, this`clock
    {
      && (if d.gone || PartingOf(d.said).NotLocked? then crashLog == before
          else if PartingOf(d.said).Unlocked? then crashLog == []
          else crashLog == before + [clock] && d.recent == |Retain(crashes, clock)| + 1)
      && (if !d.gone && PartingOf(d.said).Crash? && d.recent <= 5 then LockStarting(lockScreen, d.starts, d.asked)
          else d.asked == [] && !d.starts)
    }

    /** What the lock screen's last words lead to: `unlocked` forgets the crashes and `refused` keeps them,
        and nothing is started; anything else is a crash, and starts a new lock screen exactly when the last
        minute holds at most five and one can be started. `got` is what was read last. */
    method AfterLock(said: Option<string>, ghost got: seq<Reading>) returns (ghost d: Deed)
      requires Ledger() && Crashing() && Locking() && !Live(lockChild)
      modifies this`lockCrashes, this`crashLog, this`answered, this`clock, this`lockChild, this`lockPipe, this`lockPending,
               this`lockOutcome, this`lockConfirmed, this`spawned, this`heard, this`handled, this`writer, this`log
      ensures Ledger() && Crashing() && Locking() && clock >= old(clock)
      ensures d.Dies? && !d.gone && d.got == got && d.said == said
      ensures Tells(d, old(crashLog), old(lockCrashes)) && log == old(log) + d.asked
      ensures Seats() == if Again(d) then NewLock(old(Seats())) else old(Seats())
    {
      d := Dies(false, got, said, 0, false, []);
      if said == Some("unlocked") {
        lockCrashes := [];
        crashLog, answered := [], [];
        return;
      }
      if said == Some("refused") { return; }
      ghost var recent, starts, q := AnswerCrash();
      d := Dies(false, got, said, recent, starts, q);
    }

    method AnswerCrash() returns (ghost recent: nat, ghost starts: bool, ghost q: seq<Query>)
      requires Ledger() && Crashing() && Locking() && !Live(lockChild)
      modifies this`lockCrashes, this`crashLog, this`answered, this`clock, this`lockChild, this`lockPipe, this`lockPending,
               this`lockOutcome, this`lockConfirmed, this`spawned, this`heard, this`handled, this`writer, this`log
      ensures Ledger() && Crashing() && Locking() && clock >= old(clock) && log == old(log) + q
      ensures crashLog == old(crashLog) + [clock] && recent == |Retain(old(lockCrashes), clock)| + 1
      ensures if recent <= 5 then LockStarting(lockScreen, starts, q) else q == [] && !starts
      ensures Seats() == if starts then NewLock(old(Seats())) else old(Seats())
    {
      starts, q := false, [];
      var again := CountCrash();
      recent := |lockCrashes|;
      if again {
        var ok;
        ok, q := StartLock();
        starts := ok;
      }
    }

    /** The clock may have gone on, but the lock screen is as it was. */
    twostate lemma LockKept()
      requires old(Crashing()) && old(Locking()) && clock >= old(clock)
      requires unchanged(this`lockCrashes, this`crashLog, this`answered, this`lockChild, this`lockPipe, this`lockPending,
                         this`lockOutcome, this`lockConfirmed, this`heard, this`handled, this`writer)
      ensures Crashing() && Locking()
    {
    }

    /** Unless the compositor is gone too, the last words decide. `got` is what was read last. */
    method DecideLock(said: Option<string>, ghost got: seq<Reading>) returns (ghost d: Deed)
      requires Ledger() && Crashing() && Locking() && !stopping && ended.Going? && !Live(lockChild)
      modifies this`lockCrashes, this`crashLog, this`answered, this`clock, this`lockChild, this`lockPipe, this`lockPending,
               this`lockOutcome, this`lockConfirmed, this`spawned, this`heard, this`handled, this`writer, this`log,
               this`reaped, this`compositorChild, this`stopping, this`ended
      ensures Ledger() && Crashing() && Locking() && clock >= old(clock) && d.Dies? && (stopping <==> d.gone)
      ensures reaped == old(reaped) || reaped == old(reaped) + Logged(old(compositorChild))
      ensures !d.gone ==> compositorChild == old(compositorChild)
      ensures d.said == said && d.got == got && ended == if d.gone then CompositorLeft else Going
      ensures Seats() == if Again(d) then NewLock(old(Seats())) else old(Seats())
      ensures Tells(d, old(crashLog), old(lockCrashes)) && log == old(log) + Leaving(Live(old(compositorChild)), d.gone) + d.asked
    {
      var gone := CompositorIsGone();
      if gone {
        CompositorExited();
        d := Dies(true, got, said, 0, false, []);
        assert log + [] == log;
      } else {
        d := AfterLock(said, got);
      }
    }

    /** The lock screen's exit was polled: it is reaped, and the last words of all that it wrote decide. */
    method LockExited(got: seq<Reading>, ghost polled: nat) returns (ghost d: Deed)
      requires Ledger() && Crashing() && Locking() && !stopping && ended.Going? && lockChild == Some(Child(polled, true))
      modifies this`lockCrashes, this`crashLog, this`answered, this`clock, this`lockChild, this`lockPipe, this`lockPending,
               this`lockOutcome, this`lockConfirmed, this`spawned, this`heard, this`handled, this`writer, this`log,
               this`reaped, this`compositorChild, this`stopping, this`ended
      ensures Ledger() && Crashing() && Locking() && clock >= old(clock) && d.Dies? && (stopping <==> d.gone)
      ensures reaped == old(reaped) + [polled] || reaped == old(reaped) + [polled] + Logged(old(compositorChild))
      ensures !d.gone ==> compositorChild == old(compositorChild)
      ensures d.got == got && d.said == Outcome(Lines(Hearing(old(Seats()), got)))
      ensures Seats() == Next(old(Seats()), d) && ended == if d.gone then CompositorLeft else Going
      ensures Tells(d, old(crashLog), old(lockCrashes)) && log == old(log) + Leaving(Live(old(compositorChild)), d.gone) + d.asked
    {
      ghost var v := Seats();
      var said := BuryLock(got, polled);
      ghost var u := Seats();
      d := DecideLock(said, got);
      NextDies(v, u, d);
    }

    // ------------------------------------------------------------ the control service

    method Answer(request: string) returns (reply: Reply, ghost locks: bool, ghost q: seq<Query>)
      requires Ledger() && Locking() && Coded() && !stopping
      modifies this`stopping, this`lockChild, this`lockPipe, this`lockPending, this`lockOutcome,
               this`lockConfirmed, this`spawned, this`heard, this`handled, this`writer, this`log, this`ended
      ensures Ledger() && Locking() && Coded() && ended == if CallOf(Some(request)).AsksQuit? then Asked else Going
      ensures Seats() == (if locks then NewLock(old(Seats())) else old(Seats())) && log == old(log) + q
      ensures Live(old(lockChild)) ==> lockChild == old(lockChild)
      ensures if CallOf(Some(request)).AsksLock? && !Live(old(lockChild)) then LockStarting(lockScreen, locks, q) else !locks && q == []
      ensures request == "status" ==> StatusIs(reply)
      ensures (ended == Asked <==> request == "quit" || request == "shutdown") && (ended == Asked ==> reply == Done(false))
      ensures request == "lock" ==>
        reply == if lockScreen == None || (!Live(old(lockChild)) && !locks) then Refused else Done(Live(old(lockChild)))
      ensures request !in {"status", "quit", "shutdown", "lock"} ==> reply == Refused
    {
      locks, q := false, [];
      if request == "status" {
        reply := Status(|components|, seq(|components|, i requires 0 <= i < |components| reads this => Live(components[i].child)),
                        seq(|components|, i requires 0 <= i < |components| reads this => components[i].restarts),
                        Live(lockChild), Live(lockChild) && lockConfirmed);
      } else if request == "quit" || request == "shutdown" {
        stopping, ended := true, Asked;
        reply := Done(false);
      } else if request == "lock" {
        if lockScreen == None {
          reply := Refused;
        } else if Live(lockChild) {
          reply := Done(true);
        } else {
          var ok;
          ok, q := StartLock();
          locks := ok;
          reply := if ok then Done(false) else Refused;
        }
      } else {
        reply := Refused;
      }
    }

    /** Every component, whether it is up and how often it was restarted; locking while the lock screen is
        live, and locked once it has said so. */
    ghost predicate StatusIs(reply: Reply)
      reads this`components, this`lockChild, this`heard
    {
      && reply.Status?
      && reply.locking == Live(lockChild)
      && reply.locked == (Live(lockChild) && LOCKED in Lines(heard))
      && reply.components == |components| == |reply.up| == |reply.restarts|
      && forall i :: 0 <= i < |components| ==>
           reply.up[i] == Live(components[i].child) && reply.restarts[i] == components[i].restarts
    }

    /** The control socket was readable: `request` is the one that arrived, if any did. */
    method HandleControl(request: Option<string>) returns (ghost locks: bool, ghost q: seq<Query>)
      requires Ledger() && Locking() && Coded() && !stopping
      modifies this`stopping, this`lockChild, this`lockPipe, this`lockPending, this`lockOutcome,
               this`lockConfirmed, this`spawned, this`heard, this`handled, this`writer, this`log, this`ended
      ensures Ledger() && Locking() && Coded() && ended == if control && CallOf(request).AsksQuit? then Asked else Going
      ensures Seats() == (if locks then NewLock(old(Seats())) else old(Seats())) && log == old(log) + q
      ensures Live(old(lockChild)) ==> lockChild == old(lockChild)
      ensures if control && CallOf(request).AsksLock? && !Live(old(lockChild)) then LockStarting(lockScreen, locks, q)
              else !locks && q == []
    {
      locks, q := false, [];
      if !control { return; }
      if request.Some? {
        var reply;
        reply, locks, q := Answer(request.value);
      }
    }

    // ------------------------------------------------------------------- the poll loop

    /** The handle behind an owner, for the owners that are children. */
    ghost function HandleOf(o: Owner): Handle
      reads this`compositorChild, this`lockChild, this`firstRunChild, this`components
    {
      match o
      case Compositor => compositorChild
      case Component(i) => if i < |components| then components[i].child else None
      case Lock => lockChild
      case FirstRun => firstRunChild
      case _ => None
    }

    /** What is polled: every live child, the control socket and the signals if there are any, and the lock
        screen's pipe while it is open. */
    ghost predicate Watched(o: Owner)
      reads this`compositorChild, this`lockChild, this`firstRunChild, this`components, this`control, this`lockPipe, this`signals
    {
      match o
      case Compositor => Live(compositorChild)
      case Component(i) => i < |components| && Live(components[i].child)
      case Control => control
      case Lock => Live(lockChild)
      case LockPipe => lockPipe
      case FirstRun => Live(firstRunChild)
      case Signal => signals
    }

    method WatchComponents(first: seq<Owner>) returns (owners: seq<Owner>)
      requires Ordered(first) && forall o :: o in first ==> o == Compositor
      ensures Ordered(owners) && forall o :: o in owners ==> Class(o) <= 1
      ensures forall o :: o in owners <==> o in first || (o.Component? && Watched(o))
    {
      owners := first;
      for i := 0 to |components|
        invariant Ordered(owners) && forall o :: o in owners ==> Before(o, Component(i))
        invariant forall o :: o in owners <==> o in first || (o.Component? && o.i < i && Live(components[o.i].child))
      {
        owners := Add(owners, Live(components[i].child), Component(i));
      }
    }

    /** The descriptors poll is asked about, in the order it is asked. */
    method Watch() returns (owners: seq<Owner>)
      ensures Ordered(owners) && forall o :: o in owners <==> Watched(o)
    {
      var children := WatchComponents(Add([], Live(compositorChild), Compositor));
      owners := WatchRest(children);
      assert forall o :: o in owners <==> Watched(o);
    }

    method WatchRest(first: seq<Owner>) returns (owners: seq<Owner>)
      requires Ordered(first) && forall o :: o in first ==> Class(o) <= 1
      ensures Ordered(owners) && forall o :: o in owners <==> o in first || (Class(o) > 1 && Watched(o))
    {
      var more := WatchLock(Add(first, control, Control));
      owners := Add(Add(more, Live(firstRunChild), FirstRun), signals, Signal);
    }

    method WatchLock(first: seq<Owner>) returns (owners: seq<Owner>)
      requires Ordered(first) && forall o :: o in first ==> Class(o) <= 2
      ensures Ordered(owners) && forall o :: o in owners ==> Class(o) <= 4
      ensures forall o :: o in owners <==> o in first || ((o.Lock? || o.LockPipe?) && Watched(o))
    {
      owners := Add(Add(first, Live(lockChild), Lock), lockPipe, LockPipe);
    }

    lemma HandleAt(o: Owner)
      requires IsChild(o) && (o.Component? ==> o.i < |components|)
      ensures Slot(o) < |Handles()| && HandleOf(o) == Handles()[Slot(o)]
    {
    }

    /** What one entry has left of the handles, unless the session is ending. */
    twostate predicate KeepsOthers(o: Owner)
      reads this
    {
      !stopping ==> KeptBut(old(Handles()), Handles(), o)
    }

    /** The run that ended is the one since the component was last started, after those it was restarted after. */
    twostate predicate RanSo(i: nat, r: RunEnd)
      requires i < |old(components)| && i < |old(exits)|
      reads this
    {
      && r.startedAt == old(components[i].startedAt) && old(clock) <= r.t <= clock && r.runs == old(exits[i])
      && exits == (if Retried(r.fate) then old(exits)[i := AllRuns(r)] else old(exits))
      && log == old(log) + EndQueries(old(components[i].spec), Live(old(compositorChild)), r.fate)
    }

    /** A lock screen is asked for exactly by a request for one while none is live. */
    twostate predicate LockedSo(d: Deed)
      requires d.Request?
      reads this
    {
      var answered :=
        if CallOf(d.what).AsksLock? && !Live(old(lockChild)) then LockStarting(lockScreen, d.locks, d.asked)
        else !d.locks && d.asked == [];
      answered && log == old(log) + d.asked
    }

    twostate predicate DiedSo(d: Deed)
      requires d.Dies?
      reads this
    {
      Tells(d, old(crashLog), old(lockCrashes)) && log == old(log) + Leaving(Live(old(compositorChild)), d.gone) + d.asked
    }

    /** What an entry has asked for, and on what account. */
    twostate predicate DidSo(o: Owner, d: Deed)
      reads this
    {
      var so := match d
        case Exits(run) => o.Component? && o.i < |old(components)| && o.i < |old(exits)| && RanSo(o.i, run)
        case Request(_, _, _) => LockedSo(d)
        case Dies(_, _, _, _, _, _) => DiedSo(d)
        case _ => log == old(log);
      so
    }

    method DispatchComponent(i: nat, ghost news: News, ghost h: Handle, ghost bound: nat) returns (ghost d: Deed)
      requires Valid() && !stopping && i < |components| && components[i].child == h && Live(h)
      requires h.value.id < bound && (Live(compositorChild) ==> compositorChild.value.id < bound)
      modifies this`components, this`compositorChild, this`reaped, this`stopping, this`exitCode,
               this`spawned, this`clock, this`exits, this`log, this`ended
      ensures Valid() && |components| == |old(components)|
      ensures h.value.id in reaped && ReapedBelow(old(reaped), reaped, bound)
      ensures Fits(policy, news, old(Seats()), Entry(Component(i), d)) && Seats() == Next(old(Seats()), d)
      ensures ended == Ends(Entry(Component(i), d)) && DidSo(Component(i), d)
      ensures KeepsOthers(Component(i)) && (!stopping ==> compositorChild == old(compositorChild))
    {
      ghost var compositor := compositorChild;
      ghost var r := ComponentExited(i, h.value.id);
      LockKept();
      d := Exits(r);
      Reapings(old(reaped), reaped, h.value.id, compositor, bound);
    }

    method DispatchLock(news: News, ghost h: Handle, ghost bound: nat) returns (ghost d: Deed)
      requires Valid() && !stopping && lockChild == h && Live(h)
      requires h.value.id < bound && (Live(compositorChild) ==> compositorChild.value.id < bound)
      modifies this`lockCrashes, this`crashLog, this`answered, this`clock, this`lockChild, this`lockPipe, this`lockPending,
               this`lockOutcome, this`lockConfirmed, this`spawned, this`heard, this`handled, this`writer, this`log,
               this`reaped, this`compositorChild, this`stopping, this`ended
      ensures Valid()
      ensures h.value.id in reaped && ReapedBelow(old(reaped), reaped, bound)
      ensures Fits(policy, news, old(Seats()), Entry(Lock, d)) && Seats() == Next(old(Seats()), d)
      ensures ended == Ends(Entry(Lock, d)) && DidSo(Lock, d)
      ensures KeepsOthers(Lock) && (!stopping ==> compositorChild == old(compositorChild))
    {
      ghost var compositor, firstRun := compositorChild, firstRunChild;
      d := LockExited(news.last, h.value.id);
      OnlyLock(compositor, h, lockChild, firstRun, components, Lock);
      Reapings(old(reaped), reaped, h.value.id, compositor, bound);
    }

    method DispatchCompositor(ghost h: Handle, ghost bound: nat)
      requires Ledger() && Coded() && !stopping && compositorChild == h && Live(h) && h.value.id < bound
      modifies this`compositorChild, this`stopping, this`reaped, this`ended
      ensures Ledger() && Coded() && ended == CompositorLeft
      ensures h.value.id in reaped && ReapedBelow(old(reaped), reaped, bound)
    {
      CompositorExited();
      assert reaped == old(reaped) + [h.value.id];
    }

    method DispatchFirstRun(ghost h: Handle, ghost bound: nat)
      requires Ledger() && firstRunChild == h && Live(h) && h.value.id < bound
      modifies this`firstRunChild, this`reaped
      ensures Ledger() && h.value.id in reaped && ReapedBelow(old(reaped), reaped, bound)
      ensures KeptBut(old(Handles()), Handles(), FirstRun)
    {
      FirstRunExited(h.value.id);
      assert reaped == old(reaped) + [h.value.id];
    }

    method DispatchControl(request: Option<string>) returns (ghost d: Deed)
      requires Ledger() && Locking() && Coded() && !stopping && control
      modifies this`stopping, this`lockChild, this`lockPipe, this`lockPending, this`lockOutcome,
               this`lockConfirmed, this`spawned, this`heard, this`handled, this`writer, this`log, this`ended
      ensures Ledger() && Locking() && Coded() && KeptBut(old(Handles()), Handles(), Control)
      ensures d.Request? && d.what == request && Seats() == Next(old(Seats()), d)
      ensures ended == (if CallOf(request).AsksQuit? then Asked else Going) && DidSo(Control, d)
    {
      ghost var was := lockChild;
      ghost var locks, q := HandleControl(request);
      d := Request(request, locks, q);
      OnlyLock(compositorChild, was, lockChild, firstRunChild, components, Control);
    }

    /** What is read from the pipe is read from the child that now writes to it. */
    method DispatchPipe(got: seq<Reading>) returns (ghost d: Deed)
      requires Locking()
      modifies this`lockPipe, this`lockPending, this`lockOutcome, this`lockConfirmed, this`heard, this`handled
      ensures Locking() && d == Reads(got) && Seats() == Next(old(Seats()), d)
    {
      DrainLock(false, got);
      d := Reads(got);
    }

    /** Everything else: the lock screen's words, a request, a signal, the Setup Assistant's or the
        compositor's exit. */
    method DispatchOther(o: Owner, news: News, ghost h: Handle, ghost bound: nat) returns (ghost d: Deed)
      requires Ledger() && Locking() && Coded() && !stopping && !o.Component? && !o.Lock?
      requires IsChild(o) ==> HandleOf(o) == h && Live(h) && h.value.id < bound
      requires (o.Control? ==> control) && (o.Signal? ==> signals)
      modifies this`stopping, this`lockChild, this`lockPipe, this`lockPending, this`lockOutcome,
               this`lockConfirmed, this`spawned, this`heard, this`handled, this`writer, this`log, this`compositorChild,
               this`firstRunChild, this`reaped, this`ended
      ensures Ledger() && Locking() && Coded()
      ensures IsChild(o) ==> h.value.id in reaped
      ensures ReapedBelow(old(reaped), reaped, bound)
      ensures Fits(policy, news, old(Seats()), Entry(o, d)) && Seats() == Next(old(Seats()), d)
      ensures ended == Ends(Entry(o, d)) && DidSo(o, d)
      ensures KeepsOthers(o) && (!stopping ==> compositorChild == old(compositorChild))
    {
      d := Other;
      match o
      case Compositor => DispatchCompositor(h, bound);
      case Control => d := DispatchControl(news.request);
      case LockPipe => d := DispatchPipe(news.got);
      case FirstRun => DispatchFirstRun(h, bound);
      case Signal =>
        HandleSignal(news.signal);
        d := Signals(news.signal);
    }

    method DispatchRest(o: Owner, news: News, ghost h: Handle, ghost bound: nat) returns (ghost d: Deed)
      requires Valid() && !stopping && !o.Component?
      requires IsChild(o) ==> HandleOf(o) == h && Live(h) && h.value.id < bound
      requires (o.Control? ==> control) && (o.Signal? ==> signals)
      requires Live(compositorChild) ==> compositorChild.value.id < bound
      modifies this`lockCrashes, this`crashLog, this`answered, this`clock, this`lockChild, this`lockPipe, this`lockPending,
               this`lockOutcome, this`lockConfirmed, this`spawned, this`heard, this`handled, this`writer, this`log,
               this`reaped, this`compositorChild, this`firstRunChild, this`stopping, this`ended
      ensures Valid()
      ensures IsChild(o) ==> h.value.id in reaped
      ensures ReapedBelow(old(reaped), reaped, bound)
      ensures Fits(policy, news, old(Seats()), Entry(o, d)) && Seats() == Next(old(Seats()), d)
      ensures ended == Ends(Entry(o, d)) && DidSo(o, d)
      ensures KeepsOthers(o) && (!stopping ==> compositorChild == old(compositorChild))
    {
      if o.Lock? {
        d := DispatchLock(news, h, bound);
      } else {
        d := DispatchOther(o, news, h, bound);
      }
    }

    /** One ready entry of a poll. When it is a child's exit, the child reaped is the one that was polled,
        and no other live child's handle changes unless the session is ending. Any child reaped has a number
        below the bound when the polled child and the compositor have. */
    method Dispatch(o: Owner, news: News, ghost h: Handle, ghost bound: nat) returns (ghost d: Deed)
      requires Valid() && !stopping
      requires IsChild(o) ==> HandleOf(o) == h && Live(h) && h.value.id < bound
      requires (o.Control? ==> control) && (o.Signal? ==> signals)
      requires o.Component? ==> o.i < |components|
      requires Live(compositorChild) ==> compositorChild.value.id < bound
      modifies this
      ensures Valid() && |components| == |old(components)| && control == old(control) && signals == old(signals)
      ensures IsChild(o) ==> h.value.id in reaped
      ensures ReapedBelow(old(reaped), reaped, bound)
      ensures Fits(policy, news, old(Seats()), Entry(o, d)) && Seats() == Next(old(Seats()), d)
      ensures ended == Ends(Entry(o, d)) && DidSo(o, d)
      ensures KeepsOthers(o) && (!stopping ==> compositorChild == old(compositorChild))
    {
      if o.Component? {
        d := DispatchComponent(o.i, news, h, bound);
      } else {
        d := DispatchRest(o, news, h, bound);
      }
    }

    /** What the loop looks at before it polls. */
    ghost function Seen(): Sight
      reads this`lockChild, this`lockPipe, this`writer, this`heard, this`spawned, this`compositorChild, this`firstRunChild,
            this`components, this`control, this`signals
    {
      Sight(Seats(), Handles(), control, signals)
    }

    /** Unless the session is ending, the entries from k on still stand for the children that were polled. */
    ghost predicate OnTrack(owners: seq<Owner>, k: nat, polled: seq<Handle>, bound: nat)
      reads this`compositorChild, this`lockChild, this`firstRunChild, this`components, this`stopping
    {
      var still := StillPolled(Handles(), owners, k, polled);
      stopping || (still && (Live(compositorChild) ==> compositorChild.value.id < bound))
    }

    /** `es` is what has been handled of the first k entries, since the loop saw `first` and had reaped `was`. */
    ghost predicate SoFar(owners: seq<Owner>, news: News, polled: seq<Handle>, bound: nat,
                          first: Sight, was: seq<nat>, es: seq<Entry>, k: nat)
      requires k <= |owners|
      reads this`lockChild, this`lockPipe, this`writer, this`heard, this`spawned, this`reaped, this`ended, this`components,
            this`control, this`signals
    {
      var carried := Carried(owners, news.ready, polled, es, reaped, k) && ReapedBelow(was, reaped, bound);
      var kept := 3 + |components| == |first.handles| && control == first.control && signals == first.signals;
      carried && kept && Handled(policy, news, first.view, es) && Through(first.view, es) == Seats() && ended == LastEnds(es)
    }

    /** The entry at k: handled if it was reported. `es` is what was handled before. */
    method HandleEntry(owners: seq<Owner>, news: News, k: nat, ghost polled: seq<Handle>, ghost bound: nat,
                       ghost first: Sight, ghost was: seq<nat>, ghost es: seq<Entry>)
        returns (ghost es': seq<Entry>)
      requires Valid() && !stopping && Ordered(owners) && k < |owners| && BelowBound(owners, polled, bound)
      requires (owners[k].Control? ==> first.control) && (owners[k].Signal? ==> first.signals)
      requires OnTrack(owners, k, polled, bound) && SoFar(owners, news, polled, bound, first, was, es, k)
      modifies this
      ensures Valid() && OnTrack(owners, k + 1, polled, bound) && SoFar(owners, news, polled, bound, first, was, es', k + 1)
      ensures stopping ==> owners[k] in news.ready
    {
      if owners[k] !in news.ready {
        CarriedPast(owners, news.ready, polled, es, reaped, k);
        return es;
      }
      ghost var hs, since := Handles(), reaped;
      StillAt(hs, owners, k, polled);
      BelowAt(owners, polled, bound, k);
      ghost var d := Dispatch(owners[k], news, polled[k], bound);
      ReapedOn(was, since, reaped, bound);
      es' := Book(policy, news, owners, polled, first.view, es, since, reaped, Entry(owners[k], d), k);
      if !stopping { StillNext(hs, Handles(), owners, k, polled); }
    }

    /** The loop over what poll reported: everything, or everything up to the entry that ends the session. */
    method HandleEntries(owners: seq<Owner>, news: News, ghost polled: seq<Handle>, ghost bound: nat)
        returns (ghost es: seq<Entry>, ghost upto: nat)
      requires Valid() && !stopping && Ordered(owners) && OnTrack(owners, 0, polled, bound)
      requires (Control in owners ==> control) && (Signal in owners ==> signals)
      requires BelowBound(owners, polled, bound)
      modifies this
      ensures Valid() && upto <= |owners| && SoFar(owners, news, polled, bound, old(Seen()), old(reaped), es, upto)
      ensures if stopping then upto > 0 && owners[upto - 1] in news.ready else upto == |owners|
    {
      ghost var first, was := Seen(), reaped;
      es := [];
      var k := 0;
      while k < |owners| && !stopping
        invariant Valid() && k <= |owners|
        invariant OnTrack(owners, k, polled, bound) && SoFar(owners, news, polled, bound, first, was, es, k)
        invariant stopping ==> k > 0 && owners[k - 1] in news.ready
        decreases |owners| - k
      {
        es := HandleEntry(owners, news, k, polled, bound, first, was, es);
        k := k + 1;
      }
      upto := k;
    }

    /** One round of the loop: everything poll reported is handled, in order, unless the session ends first.
        `polled` are the children behind the descriptors when they were polled; `es` is what was handled, for
        the first `upto` of the owners. Each child's exit reaps the child that was polled; only children that were
        started before the round are reaped; and the pipe is read from the child that was polled, from
        nobody, or from a later one, each exactly when PollRound.PipeReport says. */
    method Round(owners: seq<Owner>, news: News, ghost polled: seq<Handle>) returns (ghost es: seq<Entry>, ghost upto: nat)
      requires Valid() && !stopping && Ordered(owners) && StillPolled(Handles(), owners, 0, polled)
      requires forall o :: o in owners <==> Watched(o)
      modifies this
      ensures Valid() && |components| == |old(components)| && control == old(control) && signals == old(signals)
      ensures ReapedBelow(old(reaped), reaped, old(spawned))
      ensures Handled(policy, news, old(Seats()), es) && Through(old(Seats()), es) == Seats() && ended == LastEnds(es)
      ensures AllHandled(owners, news.ready, es, upto)
      ensures Carried(owners, news.ready, polled, es, reaped, upto) && PipeReports(old(Seats()), es)
    {
      ghost var v := Seats();
      Numbering(owners, polled);
      assert (Control in owners ==> Watched(Control)) && (Signal in owners ==> Watched(Signal));
      assert LockPipe in owners ==> Watched(LockPipe);
      es, upto := HandleEntries(owners, news, polled, spawned);
      CarriedAnswered(owners, news.ready, polled, es, reaped, upto);
      if v.pipe.Some? { AllReports(policy, news, v, es); } else { NoReports(v, owners, news.ready, es, upto); }
    }

    /** Every child polled has a number, and so has the compositor; an open pipe is the live lock screen's. */
    lemma Numbering(owners: seq<Owner>, polled: seq<Handle>)
      requires Valid() && StillPolled(Handles(), owners, 0, polled)
      ensures BelowBound(owners, polled, spawned) && Consistent(Seats())
      ensures Live(compositorChild) ==> compositorChild.value.id < spawned
    {
      forall j | 0 <= j < |owners| && IsChild(owners[j]) ensures polled[j].Some? && polled[j].value.id < spawned {
        LiveIsNumbered(Handles(), spawned, reaped, Slot(owners[j]));
      }
      assert Handles()[0] == compositorChild && Handles()[1] == lockChild;
      if Live(compositorChild) { LiveIsNumbered(Handles(), spawned, reaped, 0); }
      if Live(lockChild) { LiveIsNumbered(Handles(), spawned, reaped, 1); }
    }

    lemma PolledNow(owners: seq<Owner>) returns (polled: seq<Handle>)
      requires forall o :: o in owners ==> Watched(o)
      ensures StillPolled(Handles(), owners, 0, polled)
    {
      polled := seq(|owners|, k requires 0 <= k < |owners| reads this => HandleOf(owners[k]));
      forall j | 0 <= j < |owners| && IsChild(owners[j])
        ensures Slot(owners[j]) < |Handles()| && Handles()[Slot(owners[j])] == polled[j] && Live(polled[j])
      {
        assert Watched(owners[j]);
        HandleAt(owners[j]);
      }
    }

    /** What is watched is what the loop sees to poll. */
    lemma WatchedIs()
      ensures forall o :: Watched(o) <==> Polls(Seen(), o)
    {
      forall o ensures Watched(o) <==> Polls(Seen(), o) {
        if IsChild(o) && (o.Component? ==> o.i < |components|) { HandleAt(o); }
      }
    }

    /** The loop, for a system whose poll comes back with these results, one after the other. `ts` is one turn
        for each that was waited for: it goes on until the session ends, poll fails, or there is nothing left
        to poll. */
    method RunLoop(polls: seq<PollResult>) returns (ghost ts: seq<Turn>)
      requires Valid() && !stopping
      modifies this
      ensures Valid() && |components| == |old(components)| && old(reaped) <= reaped
      ensures Turns(policy, polls, old(Seen()), ts, Seen(), ended)
      ensures stopping || |ts| == |polls| || polls[|ts|].PollFailed? || forall o :: !Polls(Seen(), o)
    {
      var n := 0;
      ts := [];
      while !stopping && n < |polls|
        invariant Valid() && |components| == |old(components)| && old(reaped) <= reaped
        invariant n == |ts| <= |polls| && Turns(policy, polls, old(Seen()), ts, Seen(), ended)
      {
        var owners := Watch();
        WatchedIs();
        if owners == [] {
          assert forall o :: !Polls(Seen(), o);
          return;
        }
        if polls[n].PollFailed? { return; }
        ghost var before := Seen();
        ghost var es, upto := [], 0;
        if polls[n].Reports? {
          ghost var polled := PolledNow(owners);
          es, upto := Round(owners, polls[n].news, polled);
        }
        ghost var t := Turn(before, owners, upto, es, Seen());
        TurnMore(policy, polls, old(Seen()), ts, t);
        ts := ts + [t];
        n := n + 1;
      }
    }

    // ------------------------------------------------------------------------ teardown

    method ReapComponents()
      requires Ledger()
      modifies this`components, this`reaped
      ensures Ledger() && |components| == |old(components)| && reaped == old(reaped) + AllLogged(old(components))
      ensures forall i :: 0 <= i < |components| ==> !Live(components[i].child)
    {
      ghost var was := components;
      for i := 0 to |components|
        invariant Ledger() && |components| == |was| && reaped == old(reaped) + AllLogged(was[..i])
        invariant forall j :: 0 <= j < |was| ==> if j < i then !Live(components[j].child) else components[j] == was[j]
      {
        AllLoggedMore(was, i);
        ReapComponent(i);
      }
      assert was[..|was|] == was;
    }

    /** SIGTERM, a beat, and reap everything that is live, the components in order and the compositor last;
        nothing is left live. */
    method Teardown()
      requires Ledger()
      modifies this`stopping, this`components, this`reaped, this`lockChild, this`firstRunChild, this`compositorChild,
               this`lockPipe, this`control
      ensures Ledger() && stopping && !lockPipe && !control
      ensures reaped == old(reaped) + AllLogged(old(components)) + Logged(old(lockChild)) + Logged(old(firstRunChild))
        + Logged(old(compositorChild))
      ensures forall k :: 0 <= k < |Handles()| ==> !Live(Handles()[k])
    {
      stopping := true;
      ReapComponents();
      ReapOthers();
      lockPipe := false;
      control := false;
      NoneLive();
    }

    method ReapOthers()
      requires Ledger()
      modifies this`reaped, this`lockChild, this`firstRunChild, this`compositorChild
      ensures Ledger() && reaped == old(reaped) + Logged(old(lockChild)) + Logged(old(firstRunChild)) + Logged(old(compositorChild))
      ensures !Live(lockChild) && !Live(firstRunChild) && !Live(compositorChild)
    {
      ReapLock();
      ReapFirstRun();
      ReapCompositor();
    }

    lemma NoneLive()
      requires !Live(compositorChild) && !Live(lockChild) && !Live(firstRunChild)
      requires forall i :: 0 <= i < |components| ==> !Live(components[i].child)
      ensures forall k :: 0 <= k < |Handles()| ==> !Live(Handles()[k])
    {
    }

    /** Bring the session up and supervise it. When run returns, every child it ever started has been
        waited for, exactly once, and the code says whether the session failed: it could not be brought up,
        or a component was given up on or could not be restarted. */
    method Run(polls: seq<PollResult>) returns (code: int, ghost up: bool)
      requires Valid() && !stopping && spawned == 0
      requires forall k :: 0 <= k < |Handles()| ==> Handles()[k] == None
      modifies this
      ensures stopping
      ensures Distinct(reaped) && forall id: nat :: id in reaped <==> id < spawned
      ensures code == if up then CodeOf(ended) else 1
    {
      var ok;
      ghost var n;
      ok, n := BringUp();
      up := ok;
      code := 1;
      if ok {
        LockKept();
        ghost var ts := RunLoop(polls);
        code := exitCode;
      }
      Teardown();
      AllReaped(Handles(), spawned, reaped);
    }
  }

  lemma Appended(log: seq<Query>, q: seq<Query>, more: seq<Query>)
    ensures log + q + more == log + (q + more)
  {
  }

  lemma Reapings(was: seq<nat>, now: seq<nat>, id: nat, compositor: Handle, bound: nat)
    requires id < bound && (Live(compositor) ==> compositor.value.id < bound)
    requires now == was + [id] || now == was + [id] + Logged(compositor)
    ensures id in now && ReapedBelow(was, now, bound)
  {
    assert now[|was|] == id;
  }

  lemma NextDies(v: View, u: View, d: Deed)
    requires d.Dies? && u == View(None, None, Hearing(v, d.got), v.spawned)
    ensures Next(v, d) == if Again(d) then NewLock(u) else u
  {
  }

  predicate IsChild(o: Owner) { o.Compositor? || o.Component? || o.Lock? || o.FirstRun? }

  function Slot(o: Owner): nat
    requires IsChild(o)
  {
    match o
    case Compositor => 0
    case Lock => 1
    case FirstRun => 2
    case Component(i) => 3 + i
  }

  /** Every live child behind another owner than o is where it was. */
  ghost predicate KeptBut(was: seq<Handle>, now: seq<Handle>, o: Owner) {
    |was| == |now| &&
    forall k :: 0 <= k < |was| && Live(was[k]) && !(IsChild(o) && k == Slot(o)) ==> now[k] == was[k]
  }

  /** Changing the lock screen's handle keeps the others. */
  lemma OnlyLock(compositor: Handle, was: Handle, now: Handle, firstRun: Handle, rs: seq<Running>, o: Owner)
    requires o == Lock || (o == Control && (Live(was) ==> now == was))
    ensures KeptBut([compositor, was, firstRun] + ChildrenOf(rs), [compositor, now, firstRun] + ChildrenOf(rs), o)
  {
  }

  /** The entries from k on still stand for the children that were polled. */
  ghost predicate StillPolled(hs: seq<Handle>, owners: seq<Owner>, k: nat, polled: seq<Handle>) {
    |polled| == |owners| &&
    forall j :: k <= j < |owners| && IsChild(owners[j]) ==>
      Slot(owners[j]) < |hs| && hs[Slot(owners[j])] == polled[j] && Live(polled[j])
  }

  lemma StillAt(hs: seq<Handle>, owners: seq<Owner>, k: nat, polled: seq<Handle>)
    requires StillPolled(hs, owners, k, polled) && k < |owners|
    ensures IsChild(owners[k]) ==> Slot(owners[k]) < |hs| && hs[Slot(owners[k])] == polled[k] && Live(polled[k])
  {
  }

  lemma StillNext(was: seq<Handle>, now: seq<Handle>, owners: seq<Owner>, k: nat, polled: seq<Handle>)
    requires StillPolled(was, owners, k, polled) && k < |owners| && Ordered(owners) && KeptBut(was, now, owners[k])
    ensures StillPolled(now, owners, k + 1, polled)
  {
    forall j | k + 1 <= j < |owners| && IsChild(owners[j]) ensures now[Slot(owners[j])] == polled[j] {
      OrderedAt(owners, k, j);
    }
  }

  /** The entries handled are those of the first k owners that are ready, in order, and the child behind each
      of them, as it was polled, was reaped. */
  ghost predicate Carried(owners: seq<Owner>, ready: set<Owner>, polled: seq<Handle>, es: seq<Entry>, reaped: seq<nat>, k: nat)
    requires k <= |owners|
  {
    if k == 0 then es == []
    else if owners[k - 1] !in ready then Carried(owners, ready, polled, es, reaped, k - 1)
    else
      && es != [] && es[|es| - 1].owner == owners[k - 1]
      && (IsChild(owners[k - 1]) ==> k <= |polled| && polled[k - 1].Some? && polled[k - 1].value.id in reaped)
      && Carried(owners, ready, polled, es[..|es| - 1], reaped, k - 1)
  }

  lemma {:induction false} CarriedStill(owners: seq<Owner>, ready: set<Owner>, polled: seq<Handle>, es: seq<Entry>,
                                        was: seq<nat>, now: seq<nat>, k: nat)
    requires k <= |owners| && Carried(owners, ready, polled, es, was, k) && was <= now
    ensures Carried(owners, ready, polled, es, now, k)
  {
    if k > 0 {
      CarriedStill(owners, ready, polled, if owners[k - 1] in ready then es[..|es| - 1] else es, was, now, k - 1);
    }
  }

  lemma CarriedPast(owners: seq<Owner>, ready: set<Owner>, polled: seq<Handle>, es: seq<Entry>, reaped: seq<nat>, k: nat)
    requires k < |owners| && owners[k] !in ready && Carried(owners, ready, polled, es, reaped, k)
    ensures Carried(owners, ready, polled, es, reaped, k + 1)
  {
  }

  lemma CarriedMore(owners: seq<Owner>, ready: set<Owner>, polled: seq<Handle>, es: seq<Entry>,
                    was: seq<nat>, now: seq<nat>, e: Entry, k: nat)
    requires k < |owners| && k < |polled| && e.owner == owners[k] && owners[k] in ready
    requires Carried(owners, ready, polled, es, was, k) && was <= now
    requires IsChild(e.owner) ==> polled[k].Some? && polled[k].value.id in now
    ensures Carried(owners, ready, polled, es + [e], now, k + 1)
  {
    CarriedStill(owners, ready, polled, es, was, now, k);
    assert (es + [e])[..|es|] == es;
  }

  lemma {:induction false} CarriedAnswered(owners: seq<Owner>, ready: set<Owner>, polled: seq<Handle>, es: seq<Entry>,
                                           reaped: seq<nat>, k: nat)
    requires k <= |owners| && Carried(owners, ready, polled, es, reaped, k)
    ensures Answered(owners, ready, es, k)
  {
    if k > 0 {
      CarriedAnswered(owners, ready, polled, if owners[k - 1] in ready then es[..|es| - 1] else es, reaped, k - 1);
    }
  }

  lemma Book(p: Policy, news: News, owners: seq<Owner>, polled: seq<Handle>, v: View, es: seq<Entry>,
             was: seq<nat>, now: seq<nat>, e: Entry, k: nat) returns (es': seq<Entry>)
    requires Handled(p, news, v, es) && Fits(p, news, Through(v, es), e) && LastEnds(es) == Going && Ordered(owners)
    requires k < |owners| && k < |polled| && e.owner == owners[k] && owners[k] in news.ready
    requires Carried(owners, news.ready, polled, es, was, k) && was <= now
    requires IsChild(e.owner) ==> polled[k].Some? && polled[k].value.id in now
    ensures Handled(p, news, v, es') && Through(v, es') == Next(Through(v, es), e.deed)
    ensures Carried(owners, news.ready, polled, es', now, k + 1) && LastEnds(es') == Ends(e)
  {
    CarriedAnswered(owners, news.ready, polled, es, was, k);
    if es != [] { AnsweredBefore(owners, news.ready, es, k, k); }
    OneMore(p, news, v, es, e);
    CarriedMore(owners, news.ready, polled, es, was, now, e, k);
    es' := es + [e];
  }

  /** The children polled all have numbers below the bound. */
  ghost predicate BelowBound(owners: seq<Owner>, polled: seq<Handle>, bound: nat) {
    |polled| == |owners| && forall j :: 0 <= j < |owners| && IsChild(owners[j]) ==> polled[j].Some? && polled[j].value.id < bound
  }

  lemma BelowAt(owners: seq<Owner>, polled: seq<Handle>, bound: nat, k: nat)
    requires BelowBound(owners, polled, bound) && k < |owners|
    ensures IsChild(owners[k]) ==> polled[k].Some? && polled[k].value.id < bound
  {
  }

  ghost predicate PipeReports(v: View, es: seq<Entry>) {
    forall k :: 0 <= k < |es| && es[k].owner == LockPipe ==> PipeReport(v, es, k)
  }

  lemma AllReports(p: Policy, news: News, v: View, es: seq<Entry>)
    requires Consistent(v) && v.pipe.Some? && Handled(p, news, v, es)
    ensures PipeReports(v, es)
  {
    forall k | 0 <= k < |es| && es[k].owner == LockPipe ensures PipeReport(v, es, k) {
      PipeReportIs(p, news, v, es, k);
    }
  }

  lemma NoReports(v: View, owners: seq<Owner>, ready: set<Owner>, es: seq<Entry>, upto: nat)
    requires upto <= |owners| && Answered(owners, ready, es, upto) && LockPipe !in owners
    ensures PipeReports(v, es)
  {
    AnsweredIs(owners, ready, es, upto, LockPipe);
  }

  function Add(os: seq<Owner>, watched: bool, o: Owner): (r: seq<Owner>)
    requires Ordered(os) && forall q :: q in os ==> Before(q, o)
    ensures Ordered(r) && forall q :: q in r <==> q in os || (watched && q == o)
  {
    if watched then
      assert (os + [o])[..|os + [o]| - 1] == os;
      os + [o]
    else os
  }

  lemma EmptyStream()
    ensures Tail("") == "" && Lines("") == [] && Outcome([]) == None && !SaidLocked([])
  {
  }

  lemma LineHandled(handled: seq<string>, line: string)
    ensures Outcome(handled + [line]) ==
      if IsOutcome(line) && line[|PREFIX|..] != "locked" then Some(line[|PREFIX|..]) else Outcome(handled)
    ensures SaidLocked(handled + [line]) == (SaidLocked(handled) || (IsOutcome(line) && line[|PREFIX|..] == "locked"))
  {
    assert (handled + [line])[..|handled|] == handled;
    if IsOutcome(line) {
      assert line == PREFIX + line[|PREFIX|..];
    }
    assert LOCKED[..|PREFIX|] == PREFIX && LOCKED[|PREFIX|..] == "locked";
  }
}
