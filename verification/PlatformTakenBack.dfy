/** When the promises about unregistration and probing fail, and how: runs in which every callback in
    progress comes back at once, with success, one after the other. */
module PlatformTakenBack {
  import opened Wrappers
  import opened Platform
  import opened PlatformRuns

  // --------------------------------------------------------------------------- going on quietly

  /** The next thing to happen when callbacks do nothing and succeed. */
  function Onward(stack: Stack): Event
    requires stack.Call?
  {
    if InCallback(stack.top) then Return(0) else Tick
  }

  function Smooth(w: World, s: State, n: nat): State
    decreases n
  {
    if n == 0 || s.stack == Quiet then s else Smooth(w, Step(w, s, Onward(s.stack)), n - 1)
  }

  lemma {:induction false} SmoothOn(w: World, s: State, a: nat, b: nat)
    ensures Smooth(w, s, a + b) == Smooth(w, Smooth(w, s, a), b)
    decreases a
  {
    if a > 0 && s.stack.Call? { SmoothOn(w, Step(w, s, Onward(s.stack)), a - 1, b); }
  }

  // --------------------------------------------------------------------------------- one frame

  /** A scan from slot i on: it only binds, binds every device from there on that a driver wants, and
      binds them to registered drivers. */
  ghost predicate Scanned(w: World, s: State, e: State, i: nat) {
    && e.pdevs == s.pdevs && e.drivers == s.drivers
    && (forall d :: d in s.bound ==> d in e.bound && e.bound[d] == s.bound[d])
    && (forall d :: d in e.bound && d !in s.bound ==> AtOrAfter(s.pdevs, d, i) && First(w, s.drivers, d, 0) == Some(e.bound[d]))
    && (forall d :: AtOrAfter(s.pdevs, d, i) && First(w, s.drivers, d, 0).Some? ==> d in e.bound)
  }

  lemma AtOrAfterNext(t: seq<Option<nat>>, d: nat, i: nat)
    requires i < |t|
    ensures AtOrAfter(t, d, i) <==> t[i] == Some(d) || AtOrAfter(t, d, i + 1)
  {
  }

  /** One slot of a scan. */
  lemma ScanOne(w: World, s: State, i: nat) returns (n: nat)
    requires s.stack.Call? && s.stack.top == Scan(i) && i < |s.pdevs|
    ensures var e := Smooth(w, s, n); e.stack == Call(Scan(i + 1), s.stack.below) && e.pdevs == s.pdevs && e.drivers == s.drivers
    ensures var e := Smooth(w, s, n);
      e.bound == if Wants(w, s, i) then s.bound[s.pdevs[i].value := First(w, s.drivers, s.pdevs[i].value, 0).value] else s.bound
  {
    var s1 := Step(w, s, Tick);
    if Wants(w, s, i) {
      n := 2;
      assert Smooth(w, s, 2) == Smooth(w, s1, 1) == Smooth(w, Step(w, s1, Return(0)), 0);
    } else {
      n := 1;
      assert Smooth(w, s, 1) == Smooth(w, s1, 0);
    }
  }

  lemma {:induction false} ScanReturns(w: World, s: State, i: nat) returns (n: nat)
    requires s.stack.Call? && s.stack.top == Scan(i) && i <= |s.pdevs|
    ensures var e := Smooth(w, s, n); e.stack == s.stack.below && Scanned(w, s, e, i)
    decreases |s.pdevs| - i
  {
    if i == |s.pdevs| {
      n := 1;
      assert Smooth(w, s, 1) == Smooth(w, Step(w, s, Tick), 0);
    } else {
      var a := ScanOne(w, s, i);
      var b := ScanReturns(w, Smooth(w, s, a), i + 1);
      n := a + b;
      SmoothOn(w, s, a, b);
      forall d: nat ensures AtOrAfter(s.pdevs, d, i) <==> s.pdevs[i] == Some(d) || AtOrAfter(s.pdevs, d, i + 1) {
        AtOrAfterNext(s.pdevs, d, i);
      }
    }
  }

  /** One slot of a sweep. */
  lemma SweepSlot(w: World, s: State, v: nat, i: nat) returns (n: nat)
    requires SweepsAt(s, v, i) && i < |s.pdevs|
    ensures var e := Smooth(w, s, n); SweepsAt(e, v, i + 1) && e.stack.below == s.stack.below
    ensures var e := Smooth(w, s, n); e.pdevs == s.pdevs && e.drivers == s.drivers
    ensures Smooth(w, s, n).bound == if Swept(s, v, i) then s.bound - {s.pdevs[i].value} else s.bound
  {
    var s1 := Step(w, s, Tick);
    if Swept(s, v, i) && w.driver(v).hasRemove {
      n := 2;
      assert Smooth(w, s, 2) == Smooth(w, s1, 1) == Smooth(w, Step(w, s1, Return(0)), 0);
    } else {
      n := 1;
      assert Smooth(w, s, 1) == Smooth(w, s1, 0);
    }
  }

  /** A sweep from slot i up to slot j releases the driver's devices in between, and only those. */
  lemma {:induction false} SweepTo(w: World, s: State, v: nat, i: nat, j: nat) returns (n: nat)
    requires SweepsAt(s, v, i) && i <= j <= |s.pdevs|
    ensures var e := Smooth(w, s, n); SweepsAt(e, v, j) && e.stack.below == s.stack.below
    ensures var e := Smooth(w, s, n); e.pdevs == s.pdevs && e.drivers == s.drivers
    ensures var e := Smooth(w, s, n); forall d :: d in e.bound <==>
      d in s.bound && (s.bound[d] == v ==> forall k :: i <= k < j ==> s.pdevs[k] != Some(d))
    ensures var e := Smooth(w, s, n); forall d :: d in e.bound && d in s.bound ==> e.bound[d] == s.bound[d]
    decreases j - i
  {
    if i == j {
      n := 0;
    } else {
      var a := SweepSlot(w, s, v, i);
      var b := SweepTo(w, Smooth(w, s, a), v, i + 1, j);
      n := a + b;
      SmoothOn(w, s, a, b);
    }
  }

  /** A sweep's end. */
  lemma SweepReturns(w: World, s: State, v: nat, i: nat) returns (n: nat)
    requires SweepsAt(s, v, i)
    ensures var e := Smooth(w, s, n); e.stack == s.stack.below && e.pdevs == s.pdevs && e.drivers == Without(s.drivers, v)
    ensures var e := Smooth(w, s, n); forall d :: d in s.bound && (s.bound[d] == v ==> !AtOrAfter(s.pdevs, d, i)) ==>
      d in e.bound && e.bound[d] == s.bound[d]
  {
    var a, j := 0, i;
    if i < |s.pdevs| {
      a := SweepTo(w, s, v, i, |s.pdevs|);
      j := |s.pdevs|;
    }
    var t := Smooth(w, s, a);
    assert Smooth(w, t, 1) == Smooth(w, Step(w, t, Tick), 0);
    n := a + 1;
    SmoothOn(w, s, a, 1);
  }

  predicate SweepOf(f: Frame, drv: nat) { (f.Sweep? || f.Removing?) && f.drv == drv }

  /** The sweep of drv in this frame is past dev's slots. */
  ghost predicate Behind(f: Frame, pdevs: seq<Option<nat>>, dev: nat) {
    && (f.Sweep? ==> !AtOrAfter(pdevs, dev, f.i))
    && (f.Removing? ==> !AtOrAfter(pdevs, dev, f.i + 1))
  }

  /** The slots of dev that are left in e are dev's in s. */
  ghost predicate NoNewSlots(s: State, e: State, dev: nat) {
    forall i: nat :: AtOrAfter(e.pdevs, dev, i) ==> AtOrAfter(s.pdevs, dev, i)
  }

  /** The call on top returns, and a device it does not touch stays bound to its driver. */
  lemma TopReturns(w: World, s: State, dev: nat, drv: nat) returns (n: nat)
    requires s.stack.Call? && dev in s.bound && s.bound[dev] == drv && |s.pdevs| == SLOTS
    requires InCallback(s.stack.top) ==> s.stack.top.dev != dev
    requires SweepOf(s.stack.top, drv) ==> Behind(s.stack.top, s.pdevs, dev)
    requires (s.stack.top.Scan? || s.stack.top.Probing?) ==> s.stack.top.i < SLOTS || s.stack.top == Scan(SLOTS)
    ensures var e := Smooth(w, s, n); e.stack == s.stack.below && dev in e.bound && e.bound[dev] == drv && |e.pdevs| == SLOTS
    ensures NoNewSlots(s, Smooth(w, s, n), dev)
    ensures SweepOf(s.stack.top, drv) ==> Some(drv) !in Smooth(w, s, n).drivers
  {
    match s.stack.top
    case Scan(i) => n := ScanReturns(w, s, i);
    case Sweep(v, i) => n := SweepReturns(w, s, v, i);
    case Probing(i, d, v) =>
      var t := Step(w, s, Return(0));
      var m := ScanReturns(w, t, i + 1);
      n := m + 1;
      assert Smooth(w, s, n) == Smooth(w, t, m);
    case Removing(v, i, d) =>
      var t := Step(w, s, Return(0));
      var m := SweepReturns(w, t, v, i + 1);
      n := m + 1;
      assert Smooth(w, s, n) == Smooth(w, t, m);
    case Deleting(d, v) =>
      var t := Step(w, s, Return(0));
      n := 1;
      assert Smooth(w, s, 1) == Smooth(w, t, 0);
      forall i: nat | AtOrAfter(t.pdevs, dev, i) ensures AtOrAfter(s.pdevs, dev, i) {
        var k :| i <= k < |t.pdevs| && t.pdevs[k] == Some(dev);
        assert s.pdevs[k] == Some(dev);
      }
  }

  // ------------------------------------------------------------------- the calls in progress

  /** Scans and probes are inside the table, and calls below the top are callbacks. */
  predicate Called(stack: Stack) {
    stack.Call? ==>
      && Called(stack.below) && (stack.below.Call? ==> InCallback(stack.below.top))
      && (stack.top.Scan? ==> stack.top.i <= SLOTS) && (stack.top.Probing? ==> stack.top.i < SLOTS)
  }

  lemma StepKeepsCalled(w: World, s: State, e: Event)
    requires Called(s.stack) && |s.pdevs| == SLOTS
    ensures Called(Step(w, s, e).stack) && |Step(w, s, e).pdevs| == SLOTS
  {
  }

  lemma {:induction false} AlwaysCalled(w: World, run: seq<Event>)
    ensures Called(After(w, run).stack) && |After(w, run).pdevs| == SLOTS
    decreases |run|
  {
    if run != [] {
      AlwaysCalled(w, run[..|run| - 1]);
      StepKeepsCalled(w, After(w, run[..|run| - 1]), run[|run| - 1]);
    }
  }

  /** How far down the sweep of drv is: the stack under it. */
  function Under(stack: Stack, drv: nat): Stack {
    if stack == Quiet then Quiet else if SweepOf(stack.top, drv) then stack.below else Under(stack.below, drv)
  }

  predicate SweptBy(stack: Stack, drv: nat) { stack.Call? && (SweepOf(stack.top, drv) || SweptBy(stack.below, drv)) }

  /** Each driver is swept by one call at most. */
  predicate Sole(stack: Stack, drv: nat) {
    stack.Call? ==> Sole(stack.below, drv) && (SweepOf(stack.top, drv) ==> !SweptBy(stack.below, drv))
  }

  lemma {:induction false} SweptIsUsed(stack: Stack, drv: nat)
    requires Called(stack) && SweptBy(stack, drv) && (stack.Call? ==> InCallback(stack.top))
    ensures Uses(stack, drv)
  {
    if !SweepOf(stack.top, drv) { SweptIsUsed(stack.below, drv); }
  }

  /** In polite runs a driver is swept by one call at most. */
  lemma {:induction false} ApartIsSole(stack: Stack, drv: nat)
    requires Called(stack) && Apart(stack)
    ensures Sole(stack, drv)
  {
    if stack.Call? {
      ApartIsSole(stack.below, drv);
      if SweepOf(stack.top, drv) && SweptBy(stack.below, drv) { SweptIsUsed(stack.below, drv); }
    }
  }

  lemma {:induction false} PassedIsSweptBy(stack: Stack, pdevs: seq<Option<nat>>, dev: nat, drv: nat)
    requires Passed(stack, pdevs, dev, drv)
    ensures SweptBy(stack, drv)
  {
    if Passed(stack.below, pdevs, dev, drv) { PassedIsSweptBy(stack.below, pdevs, dev, drv); }
  }

  lemma {:induction false} StillPassed(stack: Stack, s: State, e: State, dev: nat, drv: nat)
    requires Passed(stack, s.pdevs, dev, drv) && NoNewSlots(s, e, dev)
    ensures Passed(stack, e.pdevs, dev, drv)
  {
    if Passed(stack.below, s.pdevs, dev, drv) { StillPassed(stack.below, s, e, dev, drv); }
  }

  /** A device bound to drv behind drv's sweep is still bound to it when the unregistration returns. */
  lemma {:induction false} UnregisterReturns(w: World, s: State, dev: nat, drv: nat) returns (n: nat)
    requires dev in s.bound && s.bound[dev] == drv && |s.pdevs| == SLOTS && Called(s.stack) && Sole(s.stack, drv)
    requires !Held(s.stack, dev) && Passed(s.stack, s.pdevs, dev, drv)
    ensures var e := Smooth(w, s, n); e.stack == Under(s.stack, drv) && dev in e.bound && e.bound[dev] == drv
    ensures Some(drv) !in Smooth(w, s, n).drivers
    decreases s.stack
  {
    if Passed(s.stack.below, s.pdevs, dev, drv) { PassedIsSweptBy(s.stack.below, s.pdevs, dev, drv); }
    n := TopReturns(w, s, dev, drv);
    if !SweepOf(s.stack.top, drv) {
      var e := Smooth(w, s, n);
      StillPassed(s.stack.below, s, e, dev, drv);
      var m := UnregisterReturns(w, e, dev, drv);
      SmoothOn(w, s, n, m);
      n := n + m;
    }
  }

  // ---------------------------------------------------------------- taking a device back

  /** One more event, politely. */
  lemma Reach(w: World, run: seq<Event>, e: Event) returns (longer: seq<Event>)
    requires PoliteRun(w, run) && Polite(After(w, run), e)
    ensures PoliteRun(w, longer) && longer == run + [e] && After(w, longer) == Step(w, After(w, run), e)
  {
    AfterOneMore(w, run, e);
    longer := run + [e];
    assert longer[..|longer| - 1] == run;
  }

  /** From the m-th event on, callbacks only come back, with success. */
  ghost predicate Quietly(run: seq<Event>, m: nat) {
    forall k :: m <= k < |run| ==> run[k] == Tick || run[k] == Return(0)
  }

  lemma {:induction false} ReachSmooth(w: World, run: seq<Event>, n: nat) returns (longer: seq<Event>)
    requires PoliteRun(w, run)
    ensures PoliteRun(w, longer) && run <= longer && Quietly(longer, |run|)
    ensures After(w, longer) == Smooth(w, After(w, run), n)
    decreases n
  {
    var s := After(w, run);
    longer := run;
    if n > 0 && s.stack.Call? {
      OneSmooth(w, s, n);
      var next := Reach(w, run, Onward(s.stack));
      longer := ReachSmooth(w, next, n - 1);
      assert longer[|run|] == next[|run|];
    }
  }

  lemma OneSmooth(w: World, s: State, n: nat)
    requires n > 0 && s.stack.Call?
    ensures Smooth(w, s, n) == Smooth(w, Step(w, s, Onward(s.stack)), n - 1)
    ensures Polite(s, Onward(s.stack))
  {
  }

  lemma TakenBackReturns(w: World, s: State, dev: nat, drv: nat) returns (n: nat)
    requires TakesBack(w, s, Tick) && s.pdevs[s.stack.top.i] == Some(dev) && First(w, s.drivers, dev, 0) == Some(drv)
    requires Seated(s.stack, s.bound) && Called(s.stack) && Sole(s.stack, drv) && |s.pdevs| == SLOTS
    ensures var e := Smooth(w, Step(w, s, Tick), n); e.stack == Under(s.stack.below, drv) && Some(drv) !in e.drivers
    ensures var e := Smooth(w, Step(w, s, Tick), n); dev in e.bound && e.bound[dev] == drv
  {
    var t := Step(w, s, Tick);
    var u := Step(w, t, Return(0));
    if Held(s.stack.below, dev) { HeldIsBound(s.stack.below, s.bound, dev); }
    var m := UnregisterReturns(w, u, dev, drv);
    n := m + 1;
    assert Smooth(w, t, n) == Smooth(w, u, m);
  }

  /** Every step that takes a device back is one that matters: in a polite run, if the callbacks in
      progress then return one after the other, the unregistration returns with the device bound to the
      driver it has just removed from the table. Without such a step none ever does. */
  lemma TakenBackStays(w: World, run: seq<Event>) returns (longer: seq<Event>, dev: nat, drv: nat)
    requires PoliteRun(w, run) && TakesBack(w, After(w, run), Tick)
    ensures PoliteRun(w, longer) && run <= longer && Quietly(longer, |run|)
    ensures var s, n := After(w, run), After(w, longer);
      && n.stack == Under(s.stack.below, drv) && Some(drv) !in n.drivers && dev in n.bound && n.bound[dev] == drv
    ensures var s := After(w, run); s.pdevs[s.stack.top.i] == Some(dev) && First(w, s.drivers, dev, 0) == Some(drv)
  {
    var s := After(w, run);
    dev := s.pdevs[s.stack.top.i].value;
    drv := First(w, s.drivers, dev, 0).value;
    PoliteRunsStaySeated(w, run);
    AlwaysCalled(w, run);
    ApartIsSole(s.stack, drv);
    var n := TakenBackReturns(w, s, dev, drv);
    longer := Reach(w, run, Tick);
    longer := ReachSmooth(w, longer, n);
  }

  /** A scan up to slot k, where a device the driver wants waits unbound. */
  lemma {:induction false} ScanTo(w: World, s: State, i: nat, k: nat, a: nat) returns (n: nat)
    requires s.stack.Call? && s.stack.top == Scan(i) && i <= k < |s.pdevs| && a !in s.bound
    requires forall j :: i <= j < k ==> s.pdevs[j] != Some(a)
    ensures var e := Smooth(w, s, n); e.stack == Call(Scan(k), s.stack.below) && a !in e.bound
    ensures var e := Smooth(w, s, n); e.pdevs == s.pdevs && e.drivers == s.drivers
    decreases k - i
  {
    if i == k {
      n := 0;
    } else {
      var m := ScanOne(w, s, i);
      var r := ScanTo(w, Smooth(w, s, m), i + 1, k, a);
      n := m + r;
      SmoothOn(w, s, m, r);
    }
  }

  /** Two devices of one driver in the table, all of a's slots before slot j and all of b's from j on. */
  ghost predicate TwoOf(w: World, s: State, a: nat, b: nat, drv: nat, j: nat) {
    && s.stack == Quiet && a != b && a in s.bound && b in s.bound && s.bound[a] == s.bound[b] == drv
    && j < |s.pdevs| && s.pdevs[j] == Some(b) && w.driver(drv).hasRemove
    && (forall k :: 0 <= k < j ==> s.pdevs[k] != Some(b)) && !AtOrAfter(s.pdevs, a, j)
  }

  /** The sweep up to the remove of slot j. */
  lemma SweepToRemove(w: World, s: State, a: nat, b: nat, drv: nat, j: nat) returns (n: nat)
    requires TwoOf(w, s, a, b, drv, j) && Some(a) in s.pdevs
    ensures var e := Smooth(w, Step(w, s, Unregister(drv)), n);
      && e.stack == Call(Removing(drv, j, b), Quiet) && e.pdevs == s.pdevs && a !in e.bound && e.drivers == s.drivers
  {
    var t := Step(w, s, Unregister(drv));
    var m := SweepTo(w, t, drv, 0, j);
    var u := Smooth(w, t, m);
    assert a !in u.bound by {
      var k :| 0 <= k < |s.pdevs| && s.pdevs[k] == Some(a);
    }
    assert u.stack == Call(Sweep(drv, j), Quiet) && Swept(u, drv, j);
    assert Smooth(w, u, 1) == Smooth(w, Step(w, u, Tick), 0);
    n := m + 1;
    SmoothOn(w, t, m, 1);
  }

  /** The driver registered inside that remove, and its scan up to a: a is unbound, behind the sweep, and
      its own driver is still registered. */
  lemma RegisterInRemove(w: World, run: seq<Event>, a: nat, b: nat, drv: nat, other: nat, j: nat, k: nat)
      returns (longer: seq<Event>)
    requires PoliteRun(w, run) && TwoOf(w, After(w, run), a, b, drv, j)
    requires Free(After(w, run).drivers, 0) < |After(w, run).drivers| && Some(a) in After(w, run).pdevs
    requires k < |After(w, run).pdevs| && forall i :: 0 <= i < k ==> After(w, run).pdevs[i] != Some(a)
    ensures PoliteRun(w, longer) && run <= longer
    ensures var s, e := After(w, run), After(w, longer);
      && e.stack == Call(Scan(k), Call(Removing(drv, j, b), Quiet)) && e.pdevs == s.pdevs && a !in e.bound
      && e.drivers == s.drivers[Free(s.drivers, 0) := Some(other)]
  {
    var n := SweepToRemove(w, After(w, run), a, b, drv, j);
    longer := Reach(w, run, Unregister(drv));
    longer := ReachSmooth(w, longer, n);
    longer := Reach(w, longer, Register(other));
    var m := ScanTo(w, After(w, longer), 0, k, a);
    longer := ReachSmooth(w, longer, m);
  }

  /** Registering a driver inside a remove takes a device back: whenever two devices are bound to a
      driver with a remove, the second one's remove registers some driver, and the first device still
      gets the driver being removed, it ends bound to that driver although it is unregistered. */
  lemma RegisterInRemoveTakesBack(w: World, run: seq<Event>, a: nat, b: nat, drv: nat, other: nat, j: nat)
      returns (longer: seq<Event>)
    requires PoliteRun(w, run) && TwoOf(w, After(w, run), a, b, drv, j)
    requires var d := After(w, run).drivers; Free(d, 0) < |d| && First(w, d[Free(d, 0) := Some(other)], a, 0) == Some(drv)
    ensures PoliteRun(w, longer) && run <= longer
    ensures var n := After(w, longer); n.stack == Quiet && Some(drv) !in n.drivers && a in n.bound && n.bound[a] == drv
  {
    ghost var pdevs := After(w, run).pdevs;
    BoundToAMatch(w, run);
    var k := FirstSlot(pdevs, a);
    var r := RegisterInRemove(w, run, a, b, drv, other, j, k);
    assert !AtOrAfter(pdevs, a, j + 1) && Passed(Call(Removing(drv, j, b), Quiet), pdevs, a, drv);
    assert TakesBack(w, After(w, r), Tick);
    var dev, v;
    longer, dev, v := TakenBackStays(w, r);
    assert Under(Call(Removing(drv, j, b), Quiet), drv) == Quiet;
  }

  lemma {:induction false} FirstSlot(t: seq<Option<nat>>, a: nat) returns (k: nat)
    requires Some(a) in t
    ensures k < |t| && t[k] == Some(a) && forall j :: 0 <= j < k ==> t[j] != Some(a)
    decreases |t|
  {
    if t[0] == Some(a) {
      k := 0;
    } else {
      k := FirstSlot(t[1..], a);
      k := k + 1;
    }
  }

  // ------------------------------------------------------------------ runs from empty tables

  /** One call from outside, all its callbacks succeeding. */
  lemma CallScans(w: World, run: seq<Event>, e: Event) returns (longer: seq<Event>)
    requires PoliteRun(w, run) && After(w, run).stack == Quiet && (e.Register? || e.Add?)
    requires var s := After(w, run); if e.Register? then Free(s.drivers, 0) < |s.drivers| else Free(s.pdevs, 0) < |s.pdevs|
    ensures PoliteRun(w, longer) && After(w, longer).stack == Quiet
    ensures Scanned(w, Step(w, After(w, run), e), After(w, longer), 0)
  {
    var r1 := Reach(w, run, e);
    var n := ScanReturns(w, After(w, r1), 0);
    longer := ReachSmooth(w, r1, n);
  }

  lemma TwoDevices(w: World, a: nat, b: nat) returns (run: seq<Event>)
    ensures PoliteRun(w, run)
    ensures var s := After(w, run);
      s.stack == Quiet && s.pdevs == [Some(a), Some(b), None, None] && s.bound == map[] && s.drivers == Start().drivers
  {
    assert forall d :: First(w, Start().drivers, d, 0) == None;
    run := CallScans(w, [], Add(a));
    run := CallScans(w, run, Add(b));
  }

  /** Two devices, then a driver for both: both are bound to it. */
  lemma TwoBound(w: World, a: nat, b: nat, drv: nat) returns (run: seq<Event>)
    requires a != b && Probes(w, drv, a) && Probes(w, drv, b) && w.driver(drv).hasRemove
    ensures PoliteRun(w, run) && TwoOf(w, After(w, run), a, b, drv, 1)
    ensures var d := After(w, run).drivers; Free(d, 0) == 1 && |d| == DRIVERS && d[0] == Some(drv)
  {
    run := TwoDevices(w, a, b);
    run := CallScans(w, run, Register(drv));
    var n := After(w, run);
    assert n.drivers[0] == Some(drv) && n.pdevs[0] == Some(a) && n.pdevs[1] == Some(b);
    assert AtOrAfter(n.pdevs, a, 0) && AtOrAfter(n.pdevs, b, 0);
    assert First(w, n.drivers, a, 0) == First(w, n.drivers, b, 0) == Some(drv);
  }

  /** So for any driver with a remove, any two devices it matches and any other driver, there is a run
      that ends with a device bound to a driver that is not registered. */
  lemma BoundAfterUnregister(w: World, a: nat, b: nat, drv: nat, other: nat) returns (run: seq<Event>)
    requires a != b && Probes(w, drv, a) && Probes(w, drv, b) && w.driver(drv).hasRemove
    ensures PoliteRun(w, run)
    ensures var n := After(w, run); n.stack == Quiet && Some(drv) !in n.drivers && a in n.bound && n.bound[a] == drv
  {
    run := TwoBound(w, a, b, drv);
    var d := After(w, run).drivers;
    assert First(w, d[1 := Some(other)], a, 0) == Some(drv);
    run := RegisterInRemoveTakesBack(w, run, a, b, drv, other, 1);
  }

  // ------------------------------------------------------------- when the promise is kept

  /** Some driver with a remove probes two devices. */
  ghost predicate Shared(w: World) {
    exists drv, a, b :: a != b && Probes(w, drv, a) && Probes(w, drv, b) && w.driver(drv).hasRemove
  }

  /** Every remove in progress is one its driver has. */
  predicate RemovesExist(w: World, stack: Stack) {
    stack.Call? ==> RemovesExist(w, stack.below) && (stack.top.Removing? ==> w.driver(stack.top.drv).hasRemove)
  }

  lemma {:induction false} AlwaysRemovesExist(w: World, run: seq<Event>)
    ensures RemovesExist(w, After(w, run).stack)
    decreases |run|
  {
    if run != [] {
      AlwaysRemovesExist(w, run[..|run| - 1]);
      assert RemovesExist(w, Step(w, After(w, run[..|run| - 1]), run[|run| - 1]).stack);
    }
  }

  /** The remove a device would be taken back behind is that of another device of the same driver. */
  lemma {:induction false} PassedInRemove(w: World, stack: Stack, s: State, dev: nat, drv: nat) returns (b: nat)
    requires Passed(stack, s.pdevs, dev, drv) && Called(stack) && InCallback(stack.top)
    requires Seated(stack, s.bound) && Sound(w, s) && RemovesExist(w, stack)
    ensures b != dev && Probes(w, drv, b) && w.driver(drv).hasRemove
  {
    if Passed(stack.below, s.pdevs, dev, drv) {
      b := PassedInRemove(w, stack.below, s, dev, drv);
    } else {
      b := stack.top.dev;
    }
  }

  lemma UnsharedGoesForward(w: World, run: seq<Event>, e: Event)
    requires PoliteRun(w, run) && !Shared(w)
    ensures !TakesBack(w, After(w, run), e)
  {
    var s := After(w, run);
    PoliteRunsStaySeated(w, run);
    BoundToAMatch(w, run);
    AlwaysCalled(w, run);
    AlwaysRemovesExist(w, run);
    if TakesBack(w, s, e) {
      var dev := s.pdevs[s.stack.top.i].value;
      var drv := First(w, s.drivers, dev, 0).value;
      var b := PassedInRemove(w, s.stack.below, s, dev, drv);
    }
  }

  lemma {:induction false} UnsharedRunsForward(w: World, run: seq<Event>)
    requires PoliteRun(w, run) && !Shared(w)
    ensures Forward(w, run)
    decreases |run|
  {
    if run != [] {
      UnsharedRunsForward(w, run[..|run| - 1]);
      UnsharedGoesForward(w, run[..|run| - 1], run[|run| - 1]);
    }
  }

  /** The promise of unregistration, exactly: over all polite runs, no device is ever bound to a driver
      that is not registered, if and only if no driver with a remove probes two devices. */
  lemma UnregisterUnbindsIff(w: World)
    ensures (forall run :: PoliteRun(w, run) ==> Registered(After(w, run))) <==> !Shared(w)
  {
    if !Shared(w) {
      forall run | PoliteRun(w, run) ensures Registered(After(w, run)) {
        UnsharedRunsForward(w, run);
        ForwardRunsStayRegistered(w, run);
      }
    } else {
      var drv, a, b :| a != b && Probes(w, drv, a) && Probes(w, drv, b) && w.driver(drv).hasRemove;
      var run := BoundAfterUnregister(w, a, b, drv, b);
      assert PoliteRun(w, run) && !Registered(After(w, run));
    }
  }

  lemma TwoDrivers(w: World, a: nat, b: nat) returns (run: seq<Event>)
    ensures PoliteRun(w, run)
    ensures var s := After(w, run);
      && s.stack == Quiet && s.pdevs == Start().pdevs && s.bound == map[]
      && |s.drivers| == DRIVERS && s.drivers[0] == Some(a) && s.drivers[1] == Some(b)
  {
    run := CallScans(w, [], Register(a));
    assert forall d, i: nat :: !AtOrAfter(Start().pdevs, d, i);
    run := CallScans(w, run, Register(b));
  }

  /** A device whose first matching driver fails to probe it is not offered to the second: for any two
      such drivers there is a run that ends with the device unbound beside a driver that wants it. */
  lemma NextDriverNotTried(w: World, a: nat, b: nat, dev: nat, error: int) returns (run: seq<Event>)
    requires a != b && Probes(w, a, dev) && Probes(w, b, dev) && error != 0
    ensures var n := After(w, run);
      n.stack == Quiet && Some(dev) in n.pdevs && Some(b) in n.drivers && dev !in n.bound && dev in n.lost
  {
    run := TwoDrivers(w, a, b);
    var s := After(w, run);
    assert First(w, s.drivers, dev, 0) == Some(a);
    run := Reach(w, run, Add(dev));
    run := Reach(w, run, Tick);
    run := Reach(w, run, Return(error));
    var t := After(w, run);
    assert t.pdevs == [Some(dev), None, None, None] && t.stack == Call(Scan(1), Quiet) && t.drivers == s.drivers;
    var n := ScanReturns(w, t, 1);
    run := ReachSmooth(w, run, n);
    assert !AtOrAfter(t.pdevs, dev, 1) && After(w, run).pdevs[0] == Some(dev) && After(w, run).drivers[1] == Some(b);
    NoDeviceIsForgotten(w, run, dev);
  }
}
