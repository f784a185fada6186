/** What each entry point of kmod/drm-msm/freebsd/msm_freebsd_power.c promises its caller, from any state
    of the device, said without the functions that compute it: what it returns, which callback it makes,
    and all that it leaves alone. */
module RuntimePmCalls {
  import opened Wrappers
  import opened RuntimePm
  import opened RuntimePmRuns

  /** An active device is left alone. Otherwise its resume callback, if there is one and PM is enabled, is
      asked, and the device is active exactly if it does not fail; and that is returned. */
  ghost predicate BroughtUp(s: Slot, d: Driver, cb: int, after: Slot, ret: int, event: Option<Event>) {
    && after == s.(active := ret == 0)
    && (s.active ==> ret == 0 && event == None)
    && (!s.active && s.enabled && d.resume ==> event == Some(Resumed(cb)) && ret == cb)
    && (!s.active && !(s.enabled && d.resume) ==> event == Some(Quiet(true)) && ret == 0)
  }

  /** An inactive device is left alone. Otherwise its suspend callback, if there is one and PM is enabled,
      is asked, and the device stays active exactly if that fails. */
  ghost predicate TakenDown(s: Slot, d: Driver, cb: int, after: Slot, event: Option<Event>) {
    && after == s.(active := after.active)
    && (event == None <==> !s.active)
    && (after.active <==> s.active && s.enabled && d.suspend && cb != 0)
    && (s.active && s.enabled && d.suspend ==> event == Some(Suspended(cb)))
    && (s.active && !(s.enabled && d.suspend) ==> event == Some(Quiet(false)))
  }

  /** Suspended at once if the device does not use autosuspend or its delay is negative; otherwise once it
      has been idle for the delay: at once if it has, and else the work is armed for that very time. */
  ghost predicate LeftIdle(ticks: int -> nat, s: Slot, busyAt: nat, now: nat, d: Driver, cb: int, after: Slot, event: Option<Event>) {
    var due := busyAt + ticks(s.delayMs);
    var waits := s.autosuspend && s.delayMs >= 0;
    && (s.active && waits && due > now ==> after == s.(timer := Some(due)) && event == None)
    && (!s.active || !waits || now - WORD / 2 <= due <= now ==> TakenDown(s, d, cb, after, event))
  }

  function Doing(ticks: int -> nat, m: Machine, op: Call, cb: int): Outcome {
    Apply(ticks, m.slot, op, m.driver, cb, m.now)
  }

  /** A step of a run does to the slot what the call does, and returns what it returns. */
  lemma StepIsCall(ticks: int -> nat, m: Machine, op: Call, cb: int, drop: bool)
    ensures var a, o := Advance(ticks, m, Do(op, cb, drop)), Doing(ticks, m, op, cb);
      a.m.slot == o.slot && a.event == o.event && a.m.now == m.now && a.m.driver == m.driver
  {
  }

  lemma GetSyncIs(ticks: int -> nat, m: Machine, cb: int)
    ensures var o := Doing(ticks, m, GetSync, cb);
      BroughtUp(m.slot.(usage := m.slot.usage + 1, timer := None), m.driver, cb, o.slot, o.ret, o.event)
  {
  }

  /** Only a device that somebody counts on is resumed; then 0 is returned exactly if it is up. */
  lemma ForceResumeIs(ticks: int -> nat, m: Machine, cb: int)
    ensures var o := Doing(ticks, m, ForceResume, cb);
      && (m.slot.usage > 0 ==> BroughtUp(m.slot, m.driver, cb, o.slot, o.ret, o.event) && (o.ret == 0 <==> o.slot.active))
      && (m.slot.usage <= 0 ==> o.slot == m.slot && o.ret == 0 && o.event == None)
  {
  }

  lemma ForceSuspendIs(ticks: int -> nat, m: Machine, cb: int)
    ensures var o := Doing(ticks, m, ForceSuspend, cb);
      o.ret == 0 && TakenDown(m.slot.(timer := None), m.driver, cb, o.slot, o.event)
  {
  }

  /** A put takes one off the count, but never below 0; what happens then happens at 0 only. */
  ghost predicate Uncounted(s: Slot, o: Outcome) {
    && o.ret == 0
    && (s.usage <= 0 ==> o.slot == s && o.event == None)
    && (s.usage > 1 ==> o.slot == s.(usage := s.usage - 1) && o.event == None)
  }

  lemma PutSyncIs(ticks: int -> nat, m: Machine, cb: int)
    requires Inv(m) && Sane(ticks)
    ensures var o := Doing(ticks, m, PutSync, cb);
      && Uncounted(m.slot, o)
      && (m.slot.usage == 1 ==> LeftIdle(ticks, m.slot.(usage := 0), m.busyAt, m.now, m.driver, cb, o.slot, o.event))
  {
    LeftIsTrue(m.busyAt, ticks(m.slot.delayMs), m.now);
  }

  /** The last user's put suspends at once, whatever the delay. */
  lemma PutSyncSuspendIs(ticks: int -> nat, m: Machine, cb: int)
    ensures var o := Doing(ticks, m, PutSyncSuspend, cb);
      && Uncounted(m.slot, o)
      && (m.slot.usage == 1 ==> TakenDown(m.slot.(usage := 0), m.driver, cb, o.slot, o.event))
  {
  }

  /** Nothing but the count. */
  lemma PutNoidleIs(ticks: int -> nat, m: Machine, cb: int, drop: bool)
    ensures var o, a := Doing(ticks, m, PutNoidle, cb), Advance(ticks, m, Do(PutNoidle, cb, drop)).m;
      && Uncounted(m.slot, o)
      && (m.slot.usage == 1 ==> o.slot == m.slot.(usage := 0) && o.event == None)
      && a.inflight == m.inflight && a.busyAt == m.busyAt
  {
  }

  /** An idle device suspends at once when autosuspend stops; the armed work is cancelled. */
  lemma DontUseAutosuspendIs(ticks: int -> nat, m: Machine, cb: int)
    ensures var o := Doing(ticks, m, DontUseAutosuspend, cb);
      var s := m.slot.(autosuspend := false, timer := None);
      && o.ret == 0
      && (m.slot.usage == 0 ==> TakenDown(s, m.driver, cb, o.slot, o.event))
      && (m.slot.usage != 0 ==> o.slot == s && o.event == None)
  {
  }

  /** A device is counted, and 1 returned, exactly if it is active and in use already. */
  lemma GetIfInUseIs(ticks: int -> nat, m: Machine, cb: int)
    ensures var o := Doing(ticks, m, GetIfInUse, cb);
      && o.event == None && (o.ret == 0 || o.ret == 1)
      && (o.ret == 1 <==> m.slot.active && m.slot.usage > 0)
      && o.slot == m.slot.(usage := m.slot.usage + o.ret)
  {
  }

  lemma AsksAre(ticks: int -> nat, m: Machine, cb: int)
    ensures var active, enabled := Doing(ticks, m, IsActive, cb), Doing(ticks, m, IsEnabled, cb);
      && active.slot == enabled.slot == m.slot && active.event == enabled.event == None
      && active.ret == (if m.slot.active then 1 else 0) && enabled.ret == (if m.slot.enabled then 1 else 0)
  {
  }

  /** Each setter sets its own field, to what it was given, and nothing happens. */
  lemma SettersAre(ticks: int -> nat, m: Machine, ms: int, cb: int, drop: bool)
    ensures var busy := Advance(ticks, m, Do(MarkLastBusy, cb, drop));
      busy.m.slot == m.slot.(lastBusy := Jiffies(m.now)) && busy.m.busyAt == m.now && busy.event == None
    ensures var delay := Doing(ticks, m, SetDelay(ms), cb); delay.slot == m.slot.(delayMs := ms) && delay.event == None
    ensures var uses := Doing(ticks, m, UseAutosuspend, cb); uses.slot == m.slot.(autosuspend := true) && uses.event == None
    ensures var on := Doing(ticks, m, Enable, cb); on.slot == m.slot.(enabled := true) && on.event == None
    ensures var off := Doing(ticks, m, Disable, cb); off.slot == m.slot.(enabled := false) && off.event == None
  {
  }

  /** The work does nothing for a device in use; it leaves an idle one like a put that made it idle. */
  lemma WorkIs(ticks: int -> nat, m: Machine, cb: int)
    requires Inv(m) && Sane(ticks) && m.inflight > 0
    ensures var a := Advance(ticks, m, WorkRuns(cb));
      && a.m.inflight == m.inflight - 1
      && (m.slot.usage != 0 ==> a.m.slot == m.slot && a.event == None)
      && (m.slot.usage == 0 ==> LeftIdle(ticks, m.slot, m.busyAt, m.now, m.driver, cb, a.m.slot, a.event))
  {
    LeftIsTrue(m.busyAt, ticks(m.slot.delayMs), m.now);
  }

  /** So a device that is down but counted on, like after force_suspend, is up again after force_resume
      unless its own callback fails. */
  lemma ForcedDownAndUp(ticks: int -> nat, m: Machine, down: int, up: int)
    requires m.slot.usage > 0 && !(m.slot.enabled && m.driver.suspend && down != 0)
    ensures var o := Doing(ticks, m, ForceSuspend, down);
      var again := Doing(ticks, m.(slot := o.slot), ForceResume, up);
      && !o.slot.active && again.slot.usage == m.slot.usage
      && (again.slot.active <==> !(m.slot.enabled && m.driver.resume) || up == 0)
  {
    ForceSuspendIs(ticks, m, down);
    ForceResumeIs(ticks, m.(slot := Doing(ticks, m, ForceSuspend, down).slot), up);
  }
}
