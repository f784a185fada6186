/** Whole runs of one device's runtime PM: entry points in any order, the clock, the suspend work's
    timer expiring, and its handler reaching the lock late, after a get that tried to cancel it. */
module RuntimePmRuns {
  import opened Wrappers
  import opened RuntimePm

  /** The slot, the true time, when the device was last marked busy, how many firings of the work
      wait for the lock, the device's driver, and whether an idle put still owes a suspend. */
  datatype Machine = Machine(slot: Slot, now: nat, busyAt: nat, inflight: nat, driver: Driver, owed: bool)

  type Call = op: Op | !op.SuspendWork? witness IsActive

  datatype Step =
    | Tick(dt: nat)
    | SetDriver(d: Driver)
    | TimerFires
    | WorkRuns(cb: int)
    // drop: whether cancelling or re-arming also caught a firing that was still queued
    | Do(op: Call, cb: int, drop: bool)

  datatype Moved = Moved(m: Machine, event: Option<Event>)

  function First(dev: Dev, t: nat, d: Driver): Machine {
    Machine(Fresh(dev, t), t, t, 0, d, false)
  }

  predicate Releases(op: Op) { op.GetSync? || op.ForceSuspend? || op.DontUseAutosuspend? }

  function Advance(ticks: int -> nat, m: Machine, s: Step): Moved {
    match s
    case Tick(dt) => Moved(m.(now := m.now + dt), None)
    case SetDriver(d) => Moved(m.(driver := d), None)
    case TimerFires =>
      if m.slot.timer.Some? && m.slot.timer.value <= m.now
      then Moved(m.(slot := m.slot.(timer := None), inflight := m.inflight + 1), None)
      else Moved(m, None)
    case WorkRuns(cb) =>
      if m.inflight == 0 then Moved(m, None)
      else
        var o := Apply(ticks, m.slot, SuspendWork, m.driver, cb, m.now);
        Moved(m.(slot := o.slot, inflight := m.inflight - 1, owed := m.owed && o.event == None), o.event)
    case Do(op, cb, drop) =>
      var o := Apply(ticks, m.slot, op, m.driver, cb, m.now);
      var rearmed := o.slot.timer != m.slot.timer || Releases(op);
      Moved(Machine(o.slot, m.now, if op.MarkLastBusy? then m.now else m.busyAt,
                    if drop && rearmed && m.inflight > 0 then m.inflight - 1 else m.inflight, m.driver,
                    if op.PutSync? && m.slot.usage == 1 then o.event == None
                    else m.owed && !Releases(op) && o.event == None),
            o.event)
  }

  function After(ticks: int -> nat, m: Machine, steps: seq<Step>): Machine
    decreases |steps|
  {
    if steps == [] then m else After(ticks, Advance(ticks, m, steps[0]).m, steps[1..])
  }

  function Events(ticks: int -> nat, m: Machine, steps: seq<Step>): seq<Event>
    decreases |steps|
  {
    if steps == [] then []
    else
      var a := Advance(ticks, m, steps[0]);
      Listed(a.event) + Events(ticks, a.m, steps[1..])
  }

  /** msecs_to_jiffies never gives half the clock's range. */
  ghost predicate Sane(ticks: int -> nat) {
    forall ms :: ticks(ms) < WORD / 2
  }

  ghost predicate Pending(m: Machine) { m.slot.timer.Some? || m.inflight > 0 }

  ghost predicate Inv(m: Machine) {
    && m.slot.lastBusy == Jiffies(m.busyAt)
    && m.busyAt <= m.now
    && m.slot.usage >= 0
    && (m.owed ==> m.slot.usage == 0 && (m.slot.active ==> Pending(m)))
  }

  lemma StepKeepsInv(ticks: int -> nat, m: Machine, s: Step)
    requires Inv(m)
    ensures Inv(Advance(ticks, m, s).m)
  {
  }

  lemma {:induction false} RunKeepsInv(ticks: int -> nat, m: Machine, steps: seq<Step>)
    requires Inv(m)
    ensures Inv(After(ticks, m, steps))
    decreases |steps|
  {
    if steps != [] {
      StepKeepsInv(ticks, m, steps[0]);
      RunKeepsInv(ticks, Advance(ticks, m, steps[0]).m, steps[1..]);
    }
  }

  // ------------------------------------------------------------------------ safety

  ghost predicate StopsDevice(m: Machine, a: Moved) {
    (a.event.Some? && a.event.value.Suspended?) || (m.slot.active && !a.m.slot.active)
  }

  /** In every run, a device is suspended only with nobody using it, or by force_suspend. */
  lemma SuspendedOnlyIdle(ticks: int -> nat, dev: Dev, t: nat, d: Driver, steps: seq<Step>, next: Step)
    requires var m := After(ticks, First(dev, t, d), steps);
      StopsDevice(m, Advance(ticks, m, next))
    ensures var m := After(ticks, First(dev, t, d), steps);
      (next.Do? && next.op.ForceSuspend?) || (m.slot.active && Advance(ticks, m, next).m.slot.usage == 0)
  {
    RunKeepsInv(ticks, First(dev, t, d), steps);
  }

  predicate IsGet(s: Step) { s.Do? && (s.op.GetSync? || s.op.GetIfInUse?) }

  function Gets(steps: seq<Step>): nat {
    if steps == [] then 0 else (if IsGet(steps[0]) then 1 else 0) + Gets(steps[1..])
  }

  predicate IsPut(s: Step) { s.Do? && (s.op.PutSync? || s.op.PutSyncSuspend? || s.op.PutNoidle?) }

  function Puts(steps: seq<Step>): nat {
    if steps == [] then 0 else (if IsPut(steps[0]) then 1 else 0) + Puts(steps[1..])
  }

  predicate Forces(s: Step) { s.Do? && s.op.ForceSuspend? }

  lemma HeldStep(ticks: int -> nat, m: Machine, s: Step)
    requires m.slot.active && m.slot.usage > 0 && !Forces(s)
    requires m.slot.usage > 1 || !IsPut(s)
    ensures var m1 := Advance(ticks, m, s).m;
      m1.slot.active && m1.slot.usage == m.slot.usage + (if IsGet(s) then 1 else 0) - (if IsPut(s) then 1 else 0)
  {
  }

  /** A device that is up and counted stays up, whatever work fires and however late, until its
      count is put back; and the count is exact. */
  lemma {:induction false} HeldUntilPut(ticks: int -> nat, m: Machine, steps: seq<Step>)
    requires m.slot.active && m.slot.usage > 0
    requires forall s :: s in steps ==> !Forces(s)
    requires forall k :: 0 <= k <= |steps| ==> m.slot.usage + Gets(steps[..k]) > Puts(steps[..k])
    ensures var e := After(ticks, m, steps);
      e.slot.active && e.slot.usage == m.slot.usage + Gets(steps) - Puts(steps)
    decreases |steps|
  {
    if steps != [] {
      var m1 := Advance(ticks, m, steps[0]).m;
      assert steps[0] in steps && steps[..1] == [steps[0]] && steps[..1][1..] == [];
      assert m.slot.usage + Gets(steps[..1]) > Puts(steps[..1]);
      HeldStep(ticks, m, steps[0]);
      forall k | 0 <= k <= |steps| - 1
        ensures m1.slot.usage + Gets(steps[1..][..k]) > Puts(steps[1..][..k])
      {
        assert m.slot.usage + Gets(steps[..k + 1]) > Puts(steps[..k + 1]);
        assert steps[..k + 1][1..] == steps[1..][..k];
      }
      HeldUntilPut(ticks, m1, steps[1..]);
    }
  }

  /** A get that reports success leaves the device up and counted, even after an earlier failure. */
  lemma SuccessfulGet(ticks: int -> nat, dev: Dev, t: nat, d: Driver, before: seq<Step>, cb: int, drop: bool)
    ensures var m := After(ticks, First(dev, t, d), before);
      var o := Apply(ticks, m.slot, GetSync, m.driver, cb, m.now);
      var m' := Advance(ticks, m, Do(GetSync, cb, drop)).m;
      m'.slot == o.slot && m'.slot.usage > 0 && (o.ret == 0 <==> m'.slot.active)
  {
    RunKeepsInv(ticks, First(dev, t, d), before);
  }

  // ------------------------------------------------------------------- autosuspend

  /** No run autosuspends a device before its delay has passed since it was last busy, however the
      deadline moved after the work was armed and wherever jiffies wraps. */
  lemma NeverEarly(ticks: int -> nat, dev: Dev, t: nat, d: Driver, steps: seq<Step>, next: Step)
    requires Sane(ticks)
    requires var m := After(ticks, First(dev, t, d), steps);
      && StopsDevice(m, Advance(ticks, m, next))
      && m.slot.autosuspend && m.slot.delayMs >= 0
    requires !(next.Do? && (next.op.ForceSuspend? || next.op.PutSyncSuspend? || next.op.DontUseAutosuspend?))
    ensures var m := After(ticks, First(dev, t, d), steps);
      m.now >= m.busyAt + ticks(m.slot.delayMs)
  {
    RunKeepsInv(ticks, First(dev, t, d), steps);
    var m := After(ticks, First(dev, t, d), steps);
    LeftIsTrue(m.busyAt, ticks(m.slot.delayMs), m.now);
  }

  /** No suspend callback failed. */
  ghost predicate NoneFailed(events: seq<Event>) {
    forall e :: e in events ==> e.Suspended? ==> e.error == 0
  }

  predicate Cancels(s: Step) { s.Do? && Releases(s.op) }

  lemma EventsFront(ticks: int -> nat, m: Machine, steps: seq<Step>)
    requires steps != []
    ensures var a := Advance(ticks, m, steps[0]);
      && Events(ticks, m, steps) == Listed(a.event) + Events(ticks, a.m, steps[1..])
      && (forall e :: e in Events(ticks, m, steps) <==> a.event == Some(e) || e in Events(ticks, a.m, steps[1..]))
  {
  }

  /** The device is idle, and down or owed a suspend. */
  ghost predicate Idle(m: Machine) { m.slot.usage == 0 && (m.owed || !m.slot.active) }

  /** A step that cancels nothing keeps an idle device so exactly when it is no failing suspend. */
  lemma IdleStepIff(ticks: int -> nat, m: Machine, s: Step)
    requires Inv(m) && Idle(m) && !Cancels(s)
    ensures var a := Advance(ticks, m, s);
      Idle(a.m) <==> !(a.event.Some? && a.event.value.Suspended? && a.event.value.error != 0)
  {
  }

  lemma {:induction false} StaysIdle(ticks: int -> nat, m: Machine, rest: seq<Step>)
    requires Inv(m) && Idle(m)
    requires forall s :: s in rest ==> !Cancels(s)
    requires NoneFailed(Events(ticks, m, rest))
    ensures Idle(After(ticks, m, rest))
    decreases |rest|
  {
    if rest != [] {
      var a := Advance(ticks, m, rest[0]);
      assert rest[0] in rest;
      EventsFront(ticks, m, rest);
      IdleStepIff(ticks, m, rest[0]);
      StepKeepsInv(ticks, m, rest[0]);
      StaysIdle(ticks, a.m, rest[1..]);
    }
  }

  lemma PutIdles(ticks: int -> nat, m: Machine, cb: int, drop: bool)
    requires Inv(m) && m.slot.usage == 1
    ensures var a := Advance(ticks, m, Do(PutSync, cb, drop));
      Idle(a.m) <==> !(a.event.Some? && a.event.value.Suspended? && a.event.value.error != 0)
  {
  }

  /** After the put that makes a device idle, and as long as nobody gets it, forces it or stops its
      autosuspend, and no suspend callback fails, an active device has its suspend work pending. */
  lemma SuspendNeverLost(ticks: int -> nat, dev: Dev, t: nat, d: Driver,
                         before: seq<Step>, cb: int, drop: bool, rest: seq<Step>)
    requires After(ticks, First(dev, t, d), before).slot.usage == 1
    requires forall s :: s in rest ==> !Cancels(s)
    requires NoneFailed(Events(ticks, After(ticks, First(dev, t, d), before), [Do(PutSync, cb, drop)] + rest))
    ensures var m := After(ticks, After(ticks, First(dev, t, d), before), [Do(PutSync, cb, drop)] + rest);
      m.slot.active ==> Pending(m)
  {
    RunKeepsInv(ticks, First(dev, t, d), before);
    var m := After(ticks, First(dev, t, d), before);
    var steps := [Do(PutSync, cb, drop)] + rest;
    var a := Advance(ticks, m, steps[0]);
    assert steps[1..] == rest;
    EventsFront(ticks, m, steps);
    PutIdles(ticks, m, cb, drop);
    StepKeepsInv(ticks, m, steps[0]);
    StaysIdle(ticks, a.m, rest);
    RunKeepsInv(ticks, a.m, rest);
  }

  lemma AfterOne(ticks: int -> nat, m: Machine, s: Step, rest: seq<Step>, a: Moved)
    requires Advance(ticks, m, s) == a
    ensures After(ticks, m, [s] + rest) == After(ticks, a.m, rest)
    ensures Events(ticks, m, [s] + rest) == Listed(a.event) + Events(ticks, a.m, rest)
  {
    assert ([s] + rest)[1..] == rest;
  }

  /** An idle, autosuspending device that is up and overdue, with its one firing waiting for the lock. */
  ghost predicate Due(ticks: int -> nat, m: Machine) {
    && Inv(m) && m.slot.active && m.slot.usage == 0 && m.slot.autosuspend && m.slot.delayMs >= 0
    && m.slot.timer == None && m.inflight == 1 && ticks(m.slot.delayMs) > 0
    && m.busyAt + ticks(m.slot.delayMs) <= m.now <= m.busyAt + ticks(m.slot.delayMs) + WORD / 2
  }

  /** The device is up before its deadline, and nothing will suspend it. */
  ghost predicate Lost(ticks: int -> nat, m: Machine) {
    && m.slot.active && m.slot.usage == 0 && m.slot.autosuspend && m.slot.delayMs >= 0
    && m.now < m.busyAt + ticks(m.slot.delayMs) && !Pending(m)
  }

  /** From every such device, exactly a failing callback loses the suspend: the work is not armed again,
      and marking the device busy moves the deadline ahead of it. */
  lemma FailedSuspendIsNotRetried(ticks: int -> nat, m: Machine, cb: int, drop: bool)
    requires Sane(ticks) && Due(ticks, m)
    ensures Lost(ticks, After(ticks, m, [WorkRuns(cb)] + ([Do(MarkLastBusy, 0, drop)] + []))) <==>
      m.slot.enabled && m.driver.suspend && cb != 0
  {
    LeftIsTrue(m.busyAt, ticks(m.slot.delayMs), m.now);
    var a := Advance(ticks, m, WorkRuns(cb));
    AfterOne(ticks, m, WorkRuns(cb), [Do(MarkLastBusy, 0, drop)] + [], a);
    AfterOne(ticks, a.m, Do(MarkLastBusy, 0, drop), [], Advance(ticks, a.m, Do(MarkLastBusy, 0, drop)));
  }

  function GoIdle(ms: int): seq<Step> {
    [Do(Enable, 0, false)] + ([Do(GetSync, 0, false)] + ([Do(UseAutosuspend, 0, false)] +
    ([Do(SetDelay(ms), 0, false)] + ([Do(PutSync, 0, false)] + []))))
  }

  /** A get and a put from the start: idle, with the work armed. */
  lemma IdleFromTheStart(ticks: int -> nat, dev: Dev, t: nat, d: Driver, ms: int)
    requires Sane(ticks) && ms >= 0 && ticks(ms) > 0
    ensures After(ticks, First(dev, t, d), GoIdle(ms)) ==
      Machine(Slot(dev, 0, true, true, true, ms, Jiffies(t), Some(t + ticks(ms))), t, t, 0, d, true)
  {
    LeftIsTrue(t, ticks(ms), t);
    var s5: seq<Step> := [Do(PutSync, 0, false)] + [];
    var s4 := [Do(SetDelay(ms), 0, false)] + s5;
    var s3 := [Do(UseAutosuspend, 0, false)] + s4;
    var s2 := [Do(GetSync, 0, false)] + s3;
    var m0 := First(dev, t, d);
    var m1 := m0.(slot := m0.slot.(enabled := true));
    AfterOne(ticks, m0, Do(Enable, 0, false), s2, Moved(m1, None));
    var a2 := Advance(ticks, m1, Do(GetSync, 0, false));
    AfterOne(ticks, m1, Do(GetSync, 0, false), s3, a2);
    var m3 := a2.m.(slot := a2.m.slot.(autosuspend := true));
    AfterOne(ticks, a2.m, Do(UseAutosuspend, 0, false), s4, Moved(m3, None));
    var m4 := m3.(slot := m3.slot.(delayMs := ms));
    AfterOne(ticks, m3, Do(SetDelay(ms), 0, false), s5, Moved(m4, None));
    AfterOne(ticks, m4, Do(PutSync, 0, false), [], Advance(ticks, m4, Do(PutSync, 0, false)));
  }

  /** And such a device is reached: for every device, clock, delay and driver with a suspend callback, a
      run from the start loses the suspend when that callback fails. */
  lemma LostFromTheStart(ticks: int -> nat, dev: Dev, t: nat, d: Driver, ms: int, cb: int)
    requires Sane(ticks) && ms >= 0 && ticks(ms) > 0 && d.suspend && cb != 0
    ensures var m := After(ticks, First(dev, t, d), GoIdle(ms));
      Lost(ticks, After(ticks, m, [Tick(ticks(ms))] + ([TimerFires] + ([WorkRuns(cb)] + ([Do(MarkLastBusy, 0, false)] + [])))))
  {
    IdleFromTheStart(ticks, dev, t, d, ms);
    var m := After(ticks, First(dev, t, d), GoIdle(ms));
    var s2: seq<Step> := [WorkRuns(cb)] + ([Do(MarkLastBusy, 0, false)] + []);
    var m1 := m.(now := t + ticks(ms));
    AfterOne(ticks, m, Tick(ticks(ms)), [TimerFires] + s2, Moved(m1, None));
    var m2 := m1.(slot := m1.slot.(timer := None), inflight := 1);
    AfterOne(ticks, m1, TimerFires, s2, Moved(m2, None));
    FailedSuspendIsNotRetried(ticks, m2, cb, false);
  }

  lemma OverdueWorkSuspends(ticks: int -> nat, m: Machine)
    requires Inv(m) && Sane(ticks) && m.slot.active && m.slot.usage == 0 && m.inflight > 0
    requires m.busyAt + ticks(m.slot.delayMs) <= m.now <= m.busyAt + ticks(m.slot.delayMs) + WORD / 2
    ensures !Advance(ticks, m, WorkRuns(0)).m.slot.active
  {
    LeftIsTrue(m.busyAt, ticks(m.slot.delayMs), m.now);
    assert Left(m.slot.lastBusy, ticks(m.slot.delayMs), m.now) <= 0;
  }

  /** And the pending work does its job: wait for the deadline and for the timer, let the handler
      run with a callback that succeeds, and the device is down. */
  lemma PendingWorkSuspends(ticks: int -> nat, m: Machine, wait: nat)
    requires Inv(m) && Sane(ticks) && m.slot.active && m.slot.usage == 0 && Pending(m)
    requires m.inflight == 0 ==> m.slot.timer.value <= m.now + wait
    requires m.busyAt + ticks(m.slot.delayMs) <= m.now + wait <= m.busyAt + ticks(m.slot.delayMs) + WORD / 2
    ensures !After(ticks, m, [Tick(wait)] + ([TimerFires] + ([WorkRuns(0)] + []))).slot.active
  {
    var m1 := m.(now := m.now + wait);
    AfterOne(ticks, m, Tick(wait), [TimerFires] + ([WorkRuns(0)] + []), Moved(m1, None));
    var a2 := Advance(ticks, m1, TimerFires);
    AfterOne(ticks, m1, TimerFires, [WorkRuns(0)] + [], a2);
    var a3 := Advance(ticks, a2.m, WorkRuns(0));
    AfterOne(ticks, a2.m, WorkRuns(0), [], a3);
    assert a2.m.inflight > 0 && a2.m.slot.active && a2.m.slot.usage == 0 && Inv(a2.m);
    OverdueWorkSuspends(ticks, a2.m);
  }

  // ------------------------------------------------------------------- alternation

  /** Read a history of events as changes of `active`; None when they do not fit together. */
  function Replay(events: seq<Event>, active: bool): Option<bool> {
    if events == [] then Some(active)
    else
      match events[0]
      case Resumed(e) => if active then None else Replay(events[1..], e == 0)
      case Suspended(e) => if !active then None else Replay(events[1..], e != 0)
      case Quiet(a) => if active == a then None else Replay(events[1..], a)
  }

  /** What an event says of `active` before and after it. */
  predicate Fits(e: Event, before: bool, after: bool) {
    match e
    case Resumed(error) => !before && after == (error == 0)
    case Suspended(error) => before && after == (error != 0)
    case Quiet(a) => before == !a && after == a
  }

  lemma ApplyFits(ticks: int -> nat, s: Slot, op: Op, d: Driver, cb: int, t: nat)
    ensures var o := Apply(ticks, s, op, d, cb, t);
      && (o.event == None ==> o.slot.active == s.active)
      && (o.event.Some? ==> Fits(o.event.value, s.active, o.slot.active))
      && (o.event.Some? && o.event.value.Quiet? <==>
            o.slot.active != s.active && !(s.enabled && (if s.active then d.suspend else d.resume)))
  {
  }

  lemma StepFits(ticks: int -> nat, m: Machine, s: Step)
    ensures var a := Advance(ticks, m, s);
      if a.event == None then a.m.slot.active == m.slot.active
      else Fits(a.event.value, m.slot.active, a.m.slot.active)
  {
    match s
    case Do(op, cb, drop) => ApplyFits(ticks, m.slot, op, m.driver, cb, m.now);
    case WorkRuns(cb) => ApplyFits(ticks, m.slot, SuspendWork, m.driver, cb, m.now);
    case _ =>
  }

  /** In every run, each callback comes when the device is in the other state, and the history
      says exactly whether the device is active now. */
  lemma {:induction false} HistoryFits(ticks: int -> nat, m: Machine, steps: seq<Step>)
    ensures Replay(Events(ticks, m, steps), m.slot.active) == Some(After(ticks, m, steps).slot.active)
    decreases |steps|
  {
    if steps != [] {
      var a := Advance(ticks, m, steps[0]);
      StepFits(ticks, m, steps[0]);
      HistoryFits(ticks, a.m, steps[1..]);
      EventsFront(ticks, m, steps);
      var rest := Events(ticks, a.m, steps[1..]);
      if a.event.Some? { assert Events(ticks, m, steps)[1..] == rest; } else { assert [] + rest == rest; }
    }
  }

  predicate Unsteady(s: Step) { s.SetDriver? || (s.Do? && s.op.Disable?) }

  /** `active` changes without a callback exactly when PM is disabled or the callback is missing. */
  lemma QuietIff(ticks: int -> nat, m: Machine, s: Step)
    ensures var a := Advance(ticks, m, s);
      (a.event.Some? && a.event.value.Quiet?) <==>
        a.m.slot.active != m.slot.active &&
        !(m.slot.enabled && (if m.slot.active then m.driver.suspend else m.driver.resume))
  {
    match s
    case Do(op, cb, drop) => ApplyFits(ticks, m.slot, op, m.driver, cb, m.now);
    case WorkRuns(cb) => ApplyFits(ticks, m.slot, SuspendWork, m.driver, cb, m.now);
    case _ =>
  }

  predicate Succeeded(e: Event) { e == Resumed(0) || e == Suspended(0) }

  function Successes(events: seq<Event>): (r: seq<Event>)
  {
    if events == [] then []
    else (if Succeeded(events[0]) then [events[0]] else []) + Successes(events[1..])
  }

  ghost predicate Alternate(r: seq<Event>) {
    forall i :: 0 <= i < |r| - 1 ==> r[i] != r[i + 1]
  }

  lemma {:induction false} FittingHistoryAlternates(events: seq<Event>, active: bool)
    requires Replay(events, active).Some?
    requires forall e :: e in events ==> !e.Quiet?
    ensures Alternate(Successes(events))
    ensures forall e :: e in Successes(events) ==> Succeeded(e)
    ensures Successes(events) != [] ==> Successes(events)[0] == if active then Suspended(0) else Resumed(0)
  {
    if events != [] {
      var next := if events[0].Resumed? then events[0].error == 0 else events[0].error != 0;
      FittingHistoryAlternates(events[1..], next);
    }
  }

  /** The driver has both callbacks or neither. */
  predicate Paired(d: Driver) { d.resume == d.suspend }

  predicate IsCallback(e: Event) { !e.Quiet? }

  lemma SteadyStep(ticks: int -> nat, m: Machine, s: Step)
    requires m.slot.enabled && Paired(m.driver) && !Unsteady(s)
    ensures var a := Advance(ticks, m, s);
      a.m.slot.enabled && a.m.driver == m.driver && (a.event.Some? ==> IsCallback(a.event.value) == m.driver.resume)
  {
  }

  /** Every change is a callback, or none is. */
  lemma {:induction false} SteadyRun(ticks: int -> nat, m: Machine, steps: seq<Step>)
    requires m.slot.enabled && Paired(m.driver)
    requires forall s :: s in steps ==> !Unsteady(s)
    ensures forall e :: e in Events(ticks, m, steps) ==> IsCallback(e) == m.driver.resume
    decreases |steps|
  {
    if steps != [] {
      var a := Advance(ticks, m, steps[0]);
      assert steps[0] in steps;
      SteadyStep(ticks, m, steps[0]);
      EventsFront(ticks, m, steps);
      SteadyRun(ticks, a.m, steps[1..]);
    }
  }

  lemma {:induction false} NoSuccesses(events: seq<Event>)
    requires forall e :: e in events ==> !IsCallback(e)
    ensures Successes(events) == []
  {
    if events != [] {
      assert events[0] in events && [] + Successes(events[1..]) == Successes(events[1..]);
      NoSuccesses(events[1..]);
    }
  }

  /** While PM stays enabled and the driver keeps both callbacks, or has neither, those that succeed
      strictly alternate, starting with the one that leaves the state the run began in. */
  lemma CallbacksAlternate(ticks: int -> nat, m: Machine, steps: seq<Step>)
    requires m.slot.enabled && Paired(m.driver)
    requires forall s :: s in steps ==> !Unsteady(s)
    ensures var r := Successes(Events(ticks, m, steps));
      Alternate(r) && (r != [] ==> r[0] == if m.slot.active then Suspended(0) else Resumed(0))
  {
    SteadyRun(ticks, m, steps);
    if m.driver.resume {
      HistoryFits(ticks, m, steps);
      FittingHistoryAlternates(Events(ticks, m, steps), m.slot.active);
    } else {
      NoSuccesses(Events(ticks, m, steps));
    }
  }

  const DOWN := Do(ForceSuspend, 0, false)
  const UP := Do(GetSync, 0, false)

  /** Forced down and got again, twice over, or the other way round. */
  function Twice(first: Step, second: Step): seq<Step> { [first] + ([second] + ([first] + ([second] + []))) }

  ghost predicate Steady(steps: seq<Step>) { forall s :: s in steps ==> !Unsteady(s) }

  /** A driver with one of the two callbacks: that one succeeds twice in a row. */
  lemma UnpairedRepeats(ticks: int -> nat, m: Machine)
    requires m.slot.enabled && !Paired(m.driver)
    ensures var steps := if m.driver.resume then Twice(DOWN, UP) else Twice(UP, DOWN);
      !Alternate(Successes(Events(ticks, m, steps)))
  {
    var first, second := if m.driver.resume then DOWN else UP, if m.driver.resume then UP else DOWN;
    var a1 := Advance(ticks, m, first);
    var a2 := Advance(ticks, a1.m, second);
    var a3 := Advance(ticks, a2.m, first);
    var a4 := Advance(ticks, a3.m, second);
    AfterOne(ticks, m, first, [second] + ([first] + ([second] + [])), a1);
    AfterOne(ticks, a1.m, second, [first] + ([second] + []), a2);
    AfterOne(ticks, a2.m, first, [second] + [], a3);
    AfterOne(ticks, a3.m, second, [], a4);
    var e := if m.driver.resume then Resumed(0) else Suspended(0);
    assert a2.event == a4.event == Some(e) && a3.event == Some(Quiet(!m.driver.resume));
    RepeatedAfter(a1.event, e, Quiet(!m.driver.resume));
    assert Events(ticks, m, if m.driver.resume then Twice(DOWN, UP) else Twice(UP, DOWN))
      == Listed(a1.event) + ([e] + ([Quiet(!m.driver.resume)] + ([e] + [])));
  }

  lemma RepeatedAfter(first: Option<Event>, e: Event, quiet: Event)
    requires Succeeded(e) && !Succeeded(quiet) && (first.Some? ==> !Succeeded(first.value))
    ensures Successes(Listed(first) + ([e] + ([quiet] + ([e] + [])))) == [e, e]
    ensures !Alternate([e, e])
  {
    assert [e, e][0] == [e, e][1];
    assert ([e] + [])[1..] == [] && Successes([e] + []) == [e];
    assert ([quiet] + ([e] + []))[1..] == [e] + [];
    assert ([e] + ([quiet] + ([e] + [])))[1..] == [quiet] + ([e] + []);
    var tail := [e] + ([quiet] + ([e] + []));
    assert Successes(tail) == [e, e];
    if first.Some? { assert (Listed(first) + tail)[1..] == tail; } else { assert Listed(first) + tail == tail; }
  }

  /** Alternation, exactly: for an enabled device, every run that keeps PM enabled and the driver has its
      successful callbacks alternate, if and only if the driver has both callbacks or neither. */
  lemma AlternateIff(ticks: int -> nat, m: Machine)
    requires m.slot.enabled
    ensures (forall steps :: Steady(steps) ==> Alternate(Successes(Events(ticks, m, steps)))) <==> Paired(m.driver)
  {
    if Paired(m.driver) {
      forall steps | Steady(steps) ensures Alternate(Successes(Events(ticks, m, steps))) {
        CallbacksAlternate(ticks, m, steps);
      }
    } else {
      UnpairedRepeats(ticks, m);
      var steps := if m.driver.resume then Twice(DOWN, UP) else Twice(UP, DOWN);
      assert Steady(steps);
    }
  }

  const DISABLE := Do(Disable, 0, false)
  const ENABLE := Do(Enable, 0, false)

  const AcrossDisable: seq<Step> := [UP] + ([DISABLE] + ([DOWN] + ([ENABLE] + ([UP] + []))))

  lemma ResumedTwice(ticks: int -> nat, m: Machine)
    requires m.slot.enabled && m.driver.resume && !m.slot.active
    ensures Successes(Events(ticks, m, AcrossDisable)) == [Resumed(0), Resumed(0)]
  {
    var a1 := Advance(ticks, m, UP);
    var a2 := Advance(ticks, a1.m, DISABLE);
    var a3 := Advance(ticks, a2.m, DOWN);
    var a4 := Advance(ticks, a3.m, ENABLE);
    var a5 := Advance(ticks, a4.m, UP);
    AfterOne(ticks, m, UP, [DISABLE] + ([DOWN] + ([ENABLE] + ([UP] + []))), a1);
    AfterOne(ticks, a1.m, DISABLE, [DOWN] + ([ENABLE] + ([UP] + [])), a2);
    AfterOne(ticks, a2.m, DOWN, [ENABLE] + ([UP] + []), a3);
    AfterOne(ticks, a3.m, ENABLE, [UP] + [], a4);
    AfterOne(ticks, a4.m, UP, [], a5);
    var e, q := Resumed(0), Quiet(false);
    var events := Events(ticks, m, AcrossDisable);
    assert events == [e] + ([] + ([q] + ([] + ([e] + []))));
    assert events == Listed(None) + ([e] + ([q] + ([e] + [])));
    RepeatedAfter(None, e, q);
  }

  lemma SuccessesFront(first: Option<Event>, rest: seq<Event>)
    ensures Successes(rest) == Successes(Listed(first) + rest) || Successes(Listed(first) + rest) == Listed(first) + Successes(rest)
  {
    if first.Some? { assert (Listed(first) + rest)[1..] == rest; } else { assert Listed(first) + rest == rest; }
  }

  lemma RepeatStays(first: Option<Event>, r: seq<Event>)
    requires !Alternate(r)
    ensures !Alternate(Listed(first) + r)
  {
    var i :| 0 <= i < |r| - 1 && r[i] == r[i + 1];
    var all, k := Listed(first) + r, |Listed(first)| + i;
    assert all[k] == all[k + 1];
  }

  /** And PM has to stay enabled: from any state of any device with a resume callback, forcing it down
      while PM is disabled has it resumed twice in a row. */
  lemma ResumedTwiceAcrossDisable(ticks: int -> nat, m: Machine)
    requires m.driver.resume
    ensures !Alternate(Successes(Events(ticks, m, [ENABLE] + ([DOWN] + AcrossDisable))))
  {
    var a1 := Advance(ticks, m, ENABLE);
    var a2 := Advance(ticks, a1.m, DOWN);
    AfterOne(ticks, m, ENABLE, [DOWN] + AcrossDisable, a1);
    AfterOne(ticks, a1.m, DOWN, AcrossDisable, a2);
    ResumedTwice(ticks, a2.m);
    var r := Events(ticks, a2.m, AcrossDisable);
    assert Successes(r)[0] == Successes(r)[1];
    SuccessesFront(a2.event, r);
    RepeatStays(a2.event, Successes(r));
    SuccessesFront(a1.event, Listed(a2.event) + r);
    RepeatStays(a1.event, Successes(Listed(a2.event) + r));
  }
}
