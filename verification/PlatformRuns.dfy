/** Whole runs of the device and driver tables: entry points called from outside and from inside
    probe and remove callbacks, in any order, with any results. */
module PlatformRuns {
  import opened Wrappers
  import opened Platform

  // ------------------------------------------------------------------- in every run

  /** A bound device is in the table, and its driver matches it and has a probe. */
  ghost predicate Sound(w: World, s: State) {
    && |s.pdevs| == SLOTS && |s.drivers| == DRIVERS
    && (forall dev :: dev in s.bound ==> Probes(w, s.bound[dev], dev) && Some(dev) in s.pdevs)
  }

  lemma InUpdated(t: seq<Option<nat>>, i: nat, x: nat, y: nat)
    requires i < |t| && t[i] == None
    ensures Some(y) in t[i := Some(x)] <==> y == x || Some(y) in t
  {
    if Some(y) in t {
      var k :| 0 <= k < |t| && t[k] == Some(y);
      assert t[i := Some(x)][k] == Some(y);
    }
    assert t[i := Some(x)][i] == Some(x);
  }

  lemma InWithout(t: seq<Option<nat>>, x: nat, y: nat)
    ensures Some(y) in Without(t, x) <==> y != x && Some(y) in t
  {
    if y != x && Some(y) in t {
      var k :| 0 <= k < |t| && t[k] == Some(y);
      assert Without(t, x)[k] == Some(y);
    }
  }

  lemma StepKeepsSound(w: World, s: State, e: Event)
    requires Sound(w, s)
    ensures Sound(w, Step(w, s, e))
  {
    forall dev: nat | Some(dev) in s.pdevs
      ensures e.Add? && Free(s.pdevs, 0) < |s.pdevs| ==> Some(dev) in s.pdevs[Free(s.pdevs, 0) := Some(e.dev)]
    {
      if e.Add? && Free(s.pdevs, 0) < |s.pdevs| { InUpdated(s.pdevs, Free(s.pdevs, 0), e.dev, dev); }
    }
    forall dev: nat, x: nat | Some(dev) in s.pdevs && dev != x ensures Some(dev) in Without(s.pdevs, x) {
      InWithout(s.pdevs, x, dev);
    }
  }

  /** In every run a device has at most one driver, one that matches it, and only while it is in the table. */
  lemma {:induction false} BoundToAMatch(w: World, run: seq<Event>)
    ensures Sound(w, After(w, run))
    decreases |run|
  {
    if run != [] {
      BoundToAMatch(w, run[..|run| - 1]);
      StepKeepsSound(w, After(w, run[..|run| - 1]), run[|run| - 1]);
    }
  }

  /** How far the innermost scan in progress has got; past the end when there is none. */
  function Reached(stack: Stack): nat {
    match stack
    case Quiet => SLOTS
    case Call(Scan(i), below) => i
    case Call(Probing(i, dev, drv), below) => i + 1
    case Call(_, below) => Reached(below)
  }

  /** Nothing more to do for a device: it is bound, its last probe failed or its driver was taken
      away, or no registered driver wants it. */
  ghost predicate Served(w: World, s: State, dev: nat) {
    dev in s.bound || dev in s.lost || First(w, s.drivers, dev, 0) == None
  }

  ghost predicate Settled(w: World, s: State) {
    && |s.pdevs| == SLOTS
    && (forall j :: 0 <= j < |s.pdevs| && j < Reached(s.stack) && s.pdevs[j].Some? ==> Served(w, s, s.pdevs[j].value))
  }

  lemma {:induction false} NoneWithout(w: World, drivers: seq<Option<nat>>, x: nat, dev: nat, from: nat)
    requires from <= |drivers| && First(w, drivers, dev, from) == None
    ensures First(w, Without(drivers, x), dev, from) == None
    decreases |drivers| - from
  {
    if from < |drivers| { NoneWithout(w, drivers, x, dev, from + 1); }
  }

  lemma TickKeepsSettled(w: World, s: State)
    requires Settled(w, s)
    ensures Settled(w, Step(w, s, Tick))
  {
    forall dev: nat, x: nat | First(w, s.drivers, dev, 0) == None ensures First(w, Without(s.drivers, x), dev, 0) == None {
      NoneWithout(w, s.drivers, x, dev, 0);
    }
  }

  lemma StepKeepsSettled(w: World, s: State, e: Event)
    requires Settled(w, s)
    ensures Settled(w, Step(w, s, e))
  {
    if e == Tick { TickKeepsSettled(w, s); }
  }

  lemma {:induction false} AlwaysSettled(w: World, run: seq<Event>)
    ensures Settled(w, After(w, run))
    decreases |run|
  {
    if run != [] {
      AlwaysSettled(w, run[..|run| - 1]);
      StepKeepsSettled(w, After(w, run[..|run| - 1]), run[|run| - 1]);
    }
  }

  lemma StepKeepsLostUnbound(w: World, s: State, e: Event, dev: nat)
    requires !(dev in s.lost && dev in s.bound)
    ensures var n := Step(w, s, e); !(dev in n.lost && dev in n.bound)
  {
  }

  lemma {:induction false} LostIsUnbound(w: World, run: seq<Event>, dev: nat)
    ensures var s := After(w, run); !(dev in s.lost && dev in s.bound)
    decreases |run|
  {
    if run != [] {
      LostIsUnbound(w, run[..|run| - 1], dev);
      StepKeepsLostUnbound(w, After(w, run[..|run| - 1]), run[|run| - 1], dev);
    }
  }

  /** Once every call has returned no device is forgotten, whatever was registered, added or deleted
      from inside the callbacks: one that a registered driver wants is bound to one, exactly unless its
      last probe failed or its driver was unregistered. */
  lemma NoDeviceIsForgotten(w: World, run: seq<Event>, dev: nat)
    requires var s := After(w, run); s.stack == Quiet && Some(dev) in s.pdevs && First(w, s.drivers, dev, 0).Some?
    ensures var s := After(w, run); dev in s.bound <==> dev !in s.lost
  {
    AlwaysSettled(w, run);
    LostIsUnbound(w, run, dev);
  }

  ghost predicate Harmless(e: Event) { !e.Unregister? && (e.Return? ==> e.error == 0) }

  predicate Sweeps(stack: Stack) {
    stack.Call? && (stack.top.Sweep? || stack.top.Removing? || Sweeps(stack.below))
  }

  /** With no failing probe and no unregistration, nothing is ever lost. */
  lemma {:induction false} NothingLost(w: World, run: seq<Event>)
    requires forall k :: 0 <= k < |run| ==> Harmless(run[k])
    ensures After(w, run).lost == {} && !Sweeps(After(w, run).stack)
    decreases |run|
  {
    if run != [] {
      NothingLost(w, run[..|run| - 1]);
    }
  }

  // ------------------------------------------------------- one callback at a time per device

  predicate Held(stack: Stack, dev: nat) {
    stack.Call? && ((InCallback(stack.top) && stack.top.dev == dev) || Held(stack.below, dev))
  }

  /** How many probes and removes of dev are in progress. */
  function Callbacks(stack: Stack, dev: nat): nat {
    if stack == Quiet then 0
    else (if InCallback(stack.top) && stack.top.dev == dev then 1 else 0) + Callbacks(stack.below, dev)
  }

  /** Each callback in progress has its device to itself, and the device is bound to its driver. */
  predicate Seated(stack: Stack, bound: map<nat, nat>) {
    stack.Call? ==>
      && Seated(stack.below, bound)
      && (InCallback(stack.top) ==>
            stack.top.dev in bound && bound[stack.top.dev] == stack.top.drv && !Held(stack.below, stack.top.dev))
  }

  lemma {:induction false} HeldIsBound(stack: Stack, bound: map<nat, nat>, dev: nat)
    requires Seated(stack, bound) && Held(stack, dev)
    ensures dev in bound
  {
    if !(InCallback(stack.top) && stack.top.dev == dev) { HeldIsBound(stack.below, bound, dev); }
  }

  lemma {:induction false} SeatedWithout(stack: Stack, bound: map<nat, nat>, dev: nat)
    requires Seated(stack, bound)
    ensures Seated(stack, bound - {dev}) <==> !Held(stack, dev)
  {
    if stack.Call? { SeatedWithout(stack.below, bound, dev); }
  }

  lemma {:induction false} SeatedWith(stack: Stack, bound: map<nat, nat>, dev: nat, drv: nat)
    requires Seated(stack, bound) && dev !in bound
    ensures Seated(stack, bound[dev := drv])
  {
    if stack.Call? { SeatedWith(stack.below, bound, dev, drv); }
  }

  /** The step deletes or unbinds a device while a callback for it is in progress. */
  predicate Rude(s: State, e: Event) {
    || (e.Del? && MayCall(s.stack) && Held(s.stack, e.dev))
    || (e.Tick? && s.stack.Call? && s.stack.top.Sweep? && Swept(s, s.stack.top.drv, s.stack.top.i)
        && Held(s.stack.below, s.pdevs[s.stack.top.i].value))
  }

  /** Callbacks stay apart exactly as long as no step is rude. */
  lemma SeatedIff(w: World, s: State, e: Event)
    requires Seated(s.stack, s.bound)
    ensures var n := Step(w, s, e); Seated(n.stack, n.bound) <==> !Rude(s, e)
  {
    forall stack, dev: nat | Seated(stack, s.bound) ensures Seated(stack, s.bound - {dev}) <==> !Held(stack, dev) {
      SeatedWithout(stack, s.bound, dev);
    }
    forall dev: nat | Held(s.stack, dev) ensures dev in s.bound {
      HeldIsBound(s.stack, s.bound, dev);
    }
    if e.Tick? && s.stack.Call? && s.stack.top.Scan? && Wants(w, s, s.stack.top.i) {
      var dev := s.pdevs[s.stack.top.i].value;
      SeatedWith(s.stack.below, s.bound, dev, First(w, s.drivers, dev, 0).value);
    }
  }

  predicate Uses(stack: Stack, drv: nat) {
    stack.Call? && ((InCallback(stack.top) && stack.top.drv == drv) || Uses(stack.below, drv))
  }

  /** What a callback may call: no deletion of a device, and no unregistration of a driver, that a
      callback is in progress for. */
  predicate Polite(s: State, e: Event) {
    && (e.Del? ==> !Held(s.stack, e.dev))
    && (e.Unregister? ==> !Uses(s.stack, e.drv))
  }

  predicate PoliteRun(w: World, run: seq<Event>)
    decreases |run|
  {
    run == [] || (PoliteRun(w, run[..|run| - 1]) && Polite(After(w, run[..|run| - 1]), run[|run| - 1]))
  }

  /** A driver being swept has no callback in progress below. */
  predicate Apart(stack: Stack) {
    stack.Call? ==>
      && Apart(stack.below)
      && (stack.top.Sweep? || stack.top.Removing? ==> !Uses(stack.below, stack.top.drv))
  }

  lemma {:induction false} HeldIsUsed(stack: Stack, bound: map<nat, nat>, dev: nat)
    requires Seated(stack, bound) && Held(stack, dev)
    ensures dev in bound && Uses(stack, bound[dev])
  {
    if !(InCallback(stack.top) && stack.top.dev == dev) { HeldIsUsed(stack.below, bound, dev); }
  }

  lemma PoliteIsNotRude(s: State, e: Event)
    requires Seated(s.stack, s.bound) && Apart(s.stack) && Polite(s, e)
    ensures !Rude(s, e)
  {
    if e.Tick? && s.stack.Call? && s.stack.top.Sweep? && Swept(s, s.stack.top.drv, s.stack.top.i) {
      var dev := s.pdevs[s.stack.top.i].value;
      if Held(s.stack.below, dev) { HeldIsUsed(s.stack.below, s.bound, dev); }
    }
  }

  lemma {:induction false} PoliteRunsStaySeated(w: World, run: seq<Event>)
    requires PoliteRun(w, run)
    ensures var s := After(w, run); Seated(s.stack, s.bound) && Apart(s.stack)
    decreases |run|
  {
    if run != [] {
      var front, e := run[..|run| - 1], run[|run| - 1];
      PoliteRunsStaySeated(w, front);
      PoliteIsNotRude(After(w, front), e);
      SeatedIff(w, After(w, front), e);
    }
  }

  lemma {:induction false} AtMostOnce(stack: Stack, bound: map<nat, nat>, dev: nat)
    requires Seated(stack, bound)
    ensures Callbacks(stack, dev) == if Held(stack, dev) then 1 else 0
    ensures Held(stack, dev) ==> dev in bound
  {
    if stack.Call? { AtMostOnce(stack.below, bound, dev); }
  }

  /** In a polite run no probe or remove is entered for a device that another one is in progress
      for, and none for a probe of a bound device. */
  lemma OneCallbackAtATime(w: World, run: seq<Event>, dev: nat)
    requires PoliteRun(w, run)
    ensures Callbacks(After(w, run).stack, dev) <= if dev in After(w, run).bound then 1 else 0
  {
    PoliteRunsStaySeated(w, run);
    AtMostOnce(After(w, run).stack, After(w, run).bound, dev);
  }

  function Follow(w: World, s: State, more: seq<Event>): State
    decreases |more|
  {
    if more == [] then s else Follow(w, Step(w, s, more[0]), more[1..])
  }

  lemma {:induction false} FollowIsAfter(w: World, run: seq<Event>, more: seq<Event>)
    ensures After(w, run + more) == Follow(w, After(w, run), more)
    decreases |more|
  {
    if more == [] {
      assert run + more == run;
    } else {
      AfterOneMore(w, run, more[0]);
      FollowIsAfter(w, run + [more[0]], more[1..]);
      assert run + [more[0]] + more[1..] == run + more;
    }
  }

  predicate SweepsAt(s: State, drv: nat, i: nat) { s.stack.Call? && s.stack.top == Sweep(drv, i) }

  /** One slot of a sweep whose remove returns at once, when that is not rude. */
  lemma SweepOne(w: World, s: State, drv: nat, i: nat) returns (quiet: seq<Event>, n: State)
    requires SweepsAt(s, drv, i) && i < |s.pdevs| && Seated(s.stack, s.bound) && !Rude(s, Tick)
    ensures forall more :: Follow(w, s, quiet + more) == Follow(w, n, more)
    ensures SweepsAt(n, drv, i + 1) && n.stack.below == s.stack.below && n.pdevs == s.pdevs && Seated(n.stack, n.bound)
    ensures n.bound == if Swept(s, drv, i) then s.bound - {s.pdevs[i].value} else s.bound
  {
    quiet, n := [Tick], Step(w, s, Tick);
    SeatedIff(w, s, Tick);
    if Swept(s, drv, i) && w.driver(drv).hasRemove {
      SeatedIff(w, n, Return(0));
      quiet, n := [Tick, Return(0)], Step(w, n, Return(0));
      forall more ensures Follow(w, s, quiet + more) == Follow(w, n, more) {
        assert (quiet + more)[1..] == [Return(0)] + more;
        assert ([Return(0)] + more)[1..] == more;
      }
    } else {
      forall more ensures Follow(w, s, quiet + more) == Follow(w, n, more) {
        assert (quiet + more)[1..] == more;
      }
    }
  }

  lemma {:induction false} SweepHits(w: World, s: State, drv: nat, i: nat, k: nat) returns (more: seq<Event>)
    requires SweepsAt(s, drv, i) && i <= k && Swept(s, drv, k) && Held(s.stack.below, s.pdevs[k].value)
    requires Seated(s.stack, s.bound)
    ensures var n := Follow(w, s, more); !Seated(n.stack, n.bound)
    decreases k - i
  {
    if Rude(s, Tick) {
      SeatedIff(w, s, Tick);
      more := [Tick];
      assert Follow(w, s, more) == Follow(w, Step(w, s, Tick), []);
    } else {
      var quiet, n := SweepOne(w, s, drv, i);
      var rest := SweepHits(w, n, drv, i + 1, k);
      more := quiet + rest;
    }
  }

  lemma {:induction false} UsedIsHeld(stack: Stack, bound: map<nat, nat>, drv: nat) returns (dev: nat)
    requires Seated(stack, bound) && Uses(stack, drv)
    ensures Held(stack, dev) && dev in bound && bound[dev] == drv
  {
    if InCallback(stack.top) && stack.top.drv == drv {
      dev := stack.top.dev;
    } else {
      dev := UsedIsHeld(stack.below, bound, drv);
    }
  }

  /** An impolite call does break the rule: at once for a deletion, and for an unregistration at the
      latest when every remove it makes returns at once. */
  lemma ImpoliteCallsBreakIt(w: World, run: seq<Event>, e: Event) returns (more: seq<Event>)
    requires var s := After(w, run); Seated(s.stack, s.bound) && MayCall(s.stack) && !Polite(s, e)
    ensures var n := After(w, run + [e] + more); !Seated(n.stack, n.bound)
  {
    var s := After(w, run);
    AfterOneMore(w, run, e);
    more := [];
    if e.Del? {
      SeatedIff(w, s, e);
      assert run + [e] + more == run + [e];
    } else {
      var dev := UsedIsHeld(s.stack, s.bound, e.drv);
      BoundToAMatch(w, run);
      var k :| 0 <= k < |s.pdevs| && s.pdevs[k] == Some(dev);
      more := SweepHits(w, Step(w, s, e), e.drv, 0, k);
      FollowIsAfter(w, run + [e], more);
    }
  }

  /** For a deletion whose driver has a remove it is a second callback for the device, at once. */
  lemma SecondCallback(w: World, run: seq<Event>, dev: nat)
    requires var s := After(w, run); Seated(s.stack, s.bound) && MayCall(s.stack) && !Polite(s, Del(dev))
    requires var s := After(w, run); dev in s.bound ==> w.driver(s.bound[dev]).hasRemove
    ensures Callbacks(After(w, run + [Del(dev)]).stack, dev) >= 2
  {
    var s := After(w, run);
    AfterOneMore(w, run, Del(dev));
    AtMostOnce(s.stack, s.bound, dev);
  }

  // ------------------------------------------------------------------- unregistration

  predicate AtOrAfter(t: seq<Option<nat>>, dev: nat, i: nat) {
    exists k :: i <= k < |t| && t[k] == Some(dev)
  }

  /** A sweep of drv that has reached slot i has, at i or after it, every device still bound to drv;
      except the one it is removing. */
  ghost predicate Ahead(stack: Stack, pdevs: seq<Option<nat>>, bound: map<nat, nat>) {
    stack.Call? ==>
      && Ahead(stack.below, pdevs, bound)
      && (stack.top.Sweep? ==> forall d :: d in bound && bound[d] == stack.top.drv ==> AtOrAfter(pdevs, d, stack.top.i))
      && (stack.top.Removing? ==>
            forall d :: d in bound && bound[d] == stack.top.drv && d != stack.top.dev ==> AtOrAfter(pdevs, d, stack.top.i + 1))
  }

  /** Some sweep of drv in progress has passed dev's slots. */
  ghost predicate Passed(stack: Stack, pdevs: seq<Option<nat>>, dev: nat, drv: nat) {
    stack.Call? &&
      (|| Passed(stack.below, pdevs, dev, drv)
       || (stack.top.Sweep? && stack.top.drv == drv && !AtOrAfter(pdevs, dev, stack.top.i))
       || (stack.top.Removing? && stack.top.drv == drv && dev != stack.top.dev && !AtOrAfter(pdevs, dev, stack.top.i + 1)))
  }

  /** The step probes a device with a driver that is being unregistered, behind the sweep. */
  ghost predicate TakesBack(w: World, s: State, e: Event) {
    e.Tick? && s.stack.Call? && s.stack.top.Scan? && Wants(w, s, s.stack.top.i) &&
      Passed(s.stack.below, s.pdevs, s.pdevs[s.stack.top.i].value, First(w, s.drivers, s.pdevs[s.stack.top.i].value, 0).value)
  }

  lemma {:induction false} AheadAfterRelease(stack: Stack, pdevs: seq<Option<nat>>, bound: map<nat, nat>, dev: nat)
    requires Ahead(stack, pdevs, bound)
    ensures Ahead(stack, pdevs, bound - {dev})
  {
    if stack.Call? { AheadAfterRelease(stack.below, pdevs, bound, dev); }
  }

  lemma {:induction false} AheadAfterDelete(stack: Stack, pdevs: seq<Option<nat>>, bound: map<nat, nat>, dev: nat)
    requires Ahead(stack, pdevs, bound)
    ensures Ahead(stack, Without(pdevs, dev), bound - {dev})
  {
    if stack.Call? {
      AheadAfterDelete(stack.below, pdevs, bound, dev);
      forall d: nat, i: nat | AtOrAfter(pdevs, d, i) && d != dev ensures AtOrAfter(Without(pdevs, dev), d, i) {
        var k :| i <= k < |pdevs| && pdevs[k] == Some(d);
        assert Without(pdevs, dev)[k] == Some(d);
      }
    }
  }

  lemma {:induction false} AheadAfterAdd(stack: Stack, pdevs: seq<Option<nat>>, bound: map<nat, nat>, free: nat, dev: nat)
    requires Ahead(stack, pdevs, bound) && free < |pdevs| && pdevs[free] == None
    ensures Ahead(stack, pdevs[free := Some(dev)], bound)
  {
    if stack.Call? {
      AheadAfterAdd(stack.below, pdevs, bound, free, dev);
      forall d: nat, i: nat | AtOrAfter(pdevs, d, i) ensures AtOrAfter(pdevs[free := Some(dev)], d, i) {
        var k :| i <= k < |pdevs| && pdevs[k] == Some(d);
        assert pdevs[free := Some(dev)][k] == Some(d);
      }
    }
  }

  lemma {:induction false} AheadAfterBind(stack: Stack, pdevs: seq<Option<nat>>, bound: map<nat, nat>, dev: nat, drv: nat)
    requires Ahead(stack, pdevs, bound) && dev !in bound
    ensures Ahead(stack, pdevs, bound[dev := drv]) <==> !Passed(stack, pdevs, dev, drv)
  {
    if stack.Call? {
      AheadAfterBind(stack.below, pdevs, bound, dev, drv);
      var after := bound[dev := drv];
      assert dev in after && after[dev] == drv;
      assert forall d :: d in bound ==> d in after && after[d] == bound[d];
    }
  }

  lemma AheadTick(w: World, s: State)
    requires Ahead(s.stack, s.pdevs, s.bound)
    ensures var n := Step(w, s, Tick); Ahead(n.stack, n.pdevs, n.bound) <==> !TakesBack(w, s, Tick)
  {
    if s.stack.Call? {
      if s.stack.top.Scan? && Wants(w, s, s.stack.top.i) {
        var dev := s.pdevs[s.stack.top.i].value;
        AheadAfterBind(s.stack.below, s.pdevs, s.bound, dev, First(w, s.drivers, dev, 0).value);
      }
      if s.stack.top.Sweep? && Swept(s, s.stack.top.drv, s.stack.top.i) {
        AheadAfterRelease(s.stack.below, s.pdevs, s.bound, s.pdevs[s.stack.top.i].value);
      }
    }
  }

  lemma AheadReturn(w: World, s: State, error: int)
    requires Ahead(s.stack, s.pdevs, s.bound)
    ensures var n := Step(w, s, Return(error)); Ahead(n.stack, n.pdevs, n.bound)
  {
    if s.stack.Call? && InCallback(s.stack.top) {
      AheadAfterRelease(s.stack.below, s.pdevs, s.bound, s.stack.top.dev);
      AheadAfterDelete(s.stack.below, s.pdevs, s.bound, s.stack.top.dev);
    }
  }

  /** A sweep has every device still bound to its driver ahead of it exactly as long as no step takes
      a device back behind it. */
  lemma AheadIff(w: World, s: State, e: Event)
    requires Sound(w, s) && Ahead(s.stack, s.pdevs, s.bound)
    ensures var n := Step(w, s, e); Ahead(n.stack, n.pdevs, n.bound) <==> !TakesBack(w, s, e)
  {
    match e
    case Add(dev) =>
      if Free(s.pdevs, 0) < |s.pdevs| { AheadAfterAdd(s.stack, s.pdevs, s.bound, Free(s.pdevs, 0), dev); }
    case Del(dev) => AheadAfterDelete(s.stack, s.pdevs, s.bound, dev);
    case Unregister(drv) =>
      forall d | d in s.bound ensures AtOrAfter(s.pdevs, d, 0) {
        assert Some(d) in s.pdevs;
      }
    case Tick => AheadTick(w, s);
    case Return(error) => AheadReturn(w, s, error);
    case Register(_) =>
  }

  ghost predicate Registered(s: State) {
    forall dev :: dev in s.bound ==> Some(s.bound[dev]) in s.drivers
  }

  lemma StepKeepsRegistered(w: World, s: State, e: Event)
    requires Sound(w, s) && Ahead(s.stack, s.pdevs, s.bound) && Registered(s)
    ensures Registered(Step(w, s, e))
  {
    forall drv: nat, x: nat | Some(drv) in s.drivers && drv != x ensures Some(drv) in Without(s.drivers, x) {
      InWithout(s.drivers, x, drv);
    }
    if e.Register? && Free(s.drivers, 0) < |s.drivers| {
      forall drv: nat | Some(drv) in s.drivers ensures Some(drv) in s.drivers[Free(s.drivers, 0) := Some(e.drv)] {
        InUpdated(s.drivers, Free(s.drivers, 0), e.drv, drv);
      }
    }
  }

  /** No step of the run takes a device back. */
  ghost predicate Forward(w: World, run: seq<Event>)
    decreases |run|
  {
    run == [] || (Forward(w, run[..|run| - 1]) && !TakesBack(w, After(w, run[..|run| - 1]), run[|run| - 1]))
  }

  /** While no device is taken back, every device's driver is registered: once a driver is
      unregistered no device is bound to it, until it is registered again. */
  lemma {:induction false} ForwardRunsStayRegistered(w: World, run: seq<Event>)
    requires Forward(w, run)
    ensures var s := After(w, run); Registered(s) && Ahead(s.stack, s.pdevs, s.bound)
    decreases |run|
  {
    if run != [] {
      var front, e := run[..|run| - 1], run[|run| - 1];
      ForwardRunsStayRegistered(w, front);
      BoundToAMatch(w, front);
      AheadIff(w, After(w, front), e);
      StepKeepsRegistered(w, After(w, front), e);
    }
  }

  /** A remove called by an unregistration registers no driver and adds no device. */
  predicate Calm(s: State, e: Event) { e.Register? || e.Add? ==> !Sweeps(s.stack) }

  predicate CalmRun(w: World, run: seq<Event>)
    decreases |run|
  {
    run == [] || (CalmRun(w, run[..|run| - 1]) && Calm(After(w, run[..|run| - 1]), run[|run| - 1]))
  }

  predicate NoScanOverSweep(stack: Stack) {
    stack.Call? ==> NoScanOverSweep(stack.below) && (stack.top.Scan? || stack.top.Probing? ==> !Sweeps(stack.below))
  }

  lemma {:induction false} PassedIsSwept(stack: Stack, pdevs: seq<Option<nat>>, dev: nat, drv: nat)
    requires Passed(stack, pdevs, dev, drv)
    ensures Sweeps(stack)
  {
    if Passed(stack.below, pdevs, dev, drv) { PassedIsSwept(stack.below, pdevs, dev, drv); }
  }

  lemma {:induction false} CalmRunsGoForward(w: World, run: seq<Event>)
    requires CalmRun(w, run)
    ensures Forward(w, run) && NoScanOverSweep(After(w, run).stack)
    decreases |run|
  {
    if run != [] {
      var front, e := run[..|run| - 1], run[|run| - 1];
      CalmRunsGoForward(w, front);
      var s := After(w, front);
      if TakesBack(w, s, e) {
        var dev := s.pdevs[s.stack.top.i].value;
        PassedIsSwept(s.stack.below, s.pdevs, dev, First(w, s.drivers, dev, 0).value);
      }
    }
  }
}
