/** Runtime PM of kmod/drm-msm/freebsd/msm_freebsd_power.c: eight counted slots, each under its own
    lock, driver callbacks, and a delayed work item that suspends an idle device. Every entry point
    holds the slot's lock for its whole length, so a run is a sequence of whole entry points, work
    firings and ticks of the clock. */
module RuntimePm {
  import opened Wrappers

  // -------------------------------------------------------------- the jiffies clock

  const WORD: nat := 0x1_0000_0000_0000_0000

  /** The unsigned long that `jiffies` shows at true time t. */
  function Jiffies(t: int): (j: nat)
    ensures j < WORD
  {
    t % WORD
  }

  /** C's cast of an unsigned long expression to long. */
  function ToLong(u: int): (v: int)
    ensures -(WORD / 2) <= v < WORD / 2
  {
    var m := u % WORD;
    if m < WORD / 2 then m else m - WORD
  }

  /** (long)(last_busy + delay - jiffies), as the C computes it from wrapped values. */
  function Left(lastBusy: nat, delay: nat, t: nat): int {
    ToLong(lastBusy + delay - Jiffies(t))
  }

  lemma SameModulo(a: int, b: int, k: int)
    requires a == b + k * WORD
    ensures a % WORD == b % WORD
  {
  }

  /** Wrapping never makes the time left look shorter than it is, and shows it exactly until the
      device has been overdue for 2^63 jiffies. */
  lemma LeftIsTrue(busyAt: nat, delay: nat, t: nat)
    requires busyAt <= t && delay < WORD / 2
    ensures busyAt + delay > t ==> Left(Jiffies(busyAt), delay, t) == busyAt + delay - t
    ensures Left(Jiffies(busyAt), delay, t) == busyAt + delay - t <==> busyAt + delay - t >= -(WORD / 2)
  {
    var d := busyAt + delay - t;
    assert busyAt == Jiffies(busyAt) + (busyAt / WORD) * WORD;
    assert t == Jiffies(t) + (t / WORD) * WORD;
    SameModulo(Jiffies(busyAt) + delay - Jiffies(t), d, t / WORD - busyAt / WORD);
    assert ToLong(Jiffies(busyAt) + delay - Jiffies(t)) == ToLong(d);
  }

  // ------------------------------------------------------------- one device's slot

  type Dev = nat
  const NULL: Dev := 0

  /** struct msm_fbsd_rpm. `timer` is the armed suspend_work and the true time it expires at. */
  datatype Slot = Slot(dev: Dev, usage: int, enabled: bool, active: bool, autosuspend: bool,
                       delayMs: int, lastBusy: nat, timer: Option<nat>)

  /** Which callbacks dev->driver->pm has; none when there is no driver or no pm. */
  datatype Driver = Driver(resume: bool, suspend: bool)

  /** What happened to the device: a callback with what it returned, or `active` changed silently. */
  datatype Event = Resumed(error: int) | Suspended(error: int) | Quiet(active: bool)

  datatype Outcome = Outcome(slot: Slot, ret: int, event: Option<Event>)

  function Listed(e: Option<Event>): seq<Event> {
    if e.Some? then [e.value] else []
  }

  function Fresh(dev: Dev, t: nat): Slot {
    Slot(dev, 0, false, false, false, 0, Jiffies(t), None)
  }

  function ResumeSlot(s: Slot, d: Driver, cb: int): Outcome {
    if s.active then Outcome(s, 0, None)
    else if !(s.enabled && d.resume) then Outcome(s.(active := true), 0, Some(Quiet(true)))
    else if cb != 0 then Outcome(s, cb, Some(Resumed(cb)))
    else Outcome(s.(active := true), 0, Some(Resumed(0)))
  }

  function SuspendSlot(s: Slot, d: Driver, cb: int): Outcome {
    if !s.active then Outcome(s, 0, None)
    else if !(s.enabled && d.suspend) then Outcome(s.(active := false), 0, Some(Quiet(false)))
    else if cb != 0 then Outcome(s, 0, Some(Suspended(cb)))
    else Outcome(s.(active := false), 0, Some(Suspended(0)))
  }

  function IdleSlot(ticks: int -> nat, s: Slot, d: Driver, cb: int, t: nat, now: bool): Outcome {
    if !s.active then Outcome(s, 0, None)
    else if now || !s.autosuspend || s.delayMs < 0 then SuspendSlot(s, d, cb)
    else
      var left := Left(s.lastBusy, ticks(s.delayMs), t);
      if left > 0 then Outcome(s.(timer := Some(t + left)), 0, None) else SuspendSlot(s, d, cb)
  }

  /** What a caller may ask of one device, and the suspend work's handler. */
  datatype Op =
    | GetSync | PutSync | PutSyncSuspend | PutNoidle
    | MarkLastBusy | SetDelay(ms: int) | UseAutosuspend | DontUseAutosuspend
    | GetIfInUse | IsActive | Enable | Disable | IsEnabled
    | ForceSuspend | ForceResume | SuspendWork

  function PutSlot(ticks: int -> nat, s: Slot, d: Driver, cb: int, t: nat, idle: bool, now: bool): Outcome {
    if s.usage <= 0 then Outcome(s, 0, None)
    else
      var s' := s.(usage := s.usage - 1);
      if s'.usage == 0 && idle then IdleSlot(ticks, s', d, cb, t, now).(ret := 0) else Outcome(s', 0, None)
  }

  /** One entry point on one locked slot: cb is what the callback it may make returns. */
  function Apply(ticks: int -> nat, s: Slot, op: Op, d: Driver, cb: int, t: nat): Outcome {
    match op
    case GetSync => ResumeSlot(s.(timer := None, usage := s.usage + 1), d, cb)
    case PutSync => PutSlot(ticks, s, d, cb, t, true, false)
    case PutSyncSuspend => PutSlot(ticks, s, d, cb, t, true, true)
    case PutNoidle => PutSlot(ticks, s, d, cb, t, false, false)
    case MarkLastBusy => Outcome(s.(lastBusy := Jiffies(t)), 0, None)
    case SetDelay(ms) => Outcome(s.(delayMs := ms), 0, None)
    case UseAutosuspend => Outcome(s.(autosuspend := true), 0, None)
    case DontUseAutosuspend =>
      var s' := s.(autosuspend := false, timer := None);
      if s'.usage == 0 then IdleSlot(ticks, s', d, cb, t, true).(ret := 0) else Outcome(s', 0, None)
    case GetIfInUse =>
      if s.active && s.usage > 0 then Outcome(s.(usage := s.usage + 1), 1, None) else Outcome(s, 0, None)
    case IsActive => Outcome(s, if s.active then 1 else 0, None)
    case Enable => Outcome(s.(enabled := true), 0, None)
    case Disable => Outcome(s.(enabled := false), 0, None)
    case IsEnabled => Outcome(s, if s.enabled then 1 else 0, None)
    case ForceSuspend => SuspendSlot(s.(timer := None), d, cb).(ret := 0)
    case ForceResume => if s.usage > 0 then ResumeSlot(s, d, cb) else Outcome(s, 0, None)
    case SuspendWork => if s.usage == 0 then IdleSlot(ticks, s, d, cb, t, false).(ret := 0) else Outcome(s, 0, None)
  }

  // -------------------------------------------------------------- the eight slots

  const ENOMEM := 12

  function IndexOf(t: seq<Slot>, dev: Dev): (i: nat)
    ensures i <= |t|
    ensures i < |t| ==> t[i].dev == dev
    ensures forall j :: 0 <= j < i ==> t[j].dev != dev
  {
    if |t| == 0 || t[0].dev == dev then 0 else 1 + IndexOf(t[1..], dev)
  }

  /** The device's slot, else the first free one, else |t|. */
  function Where(t: seq<Slot>, dev: Dev): (i: nat)
    ensures i <= |t|
  {
    if IndexOf(t, dev) < |t| then IndexOf(t, dev) else IndexOf(t, NULL)
  }

  function Acquired(t: seq<Slot>, dev: Dev, time: nat): (t': seq<Slot>)
    ensures |t'| == |t|
  {
    var i := Where(t, dev);
    if i < |t| && t[i].dev != dev then t[i := Fresh(dev, time)] else t
  }

  ghost predicate Unique(t: seq<Slot>) {
    forall i, j :: 0 <= i < j < |t| && t[i].dev != NULL ==> t[i].dev != t[j].dev
  }

  datatype TableOutcome = TableOutcome(slots: seq<Slot>, ret: int, event: Option<Event>)

  /** An entry point as its caller sees it: find or take a slot, work on it; or no slot is left. */
  function Entry(ticks: int -> nat, t: seq<Slot>, dev: Dev, op: Op, d: Driver, cb: int, time: nat): TableOutcome {
    var i := Where(t, dev);
    var t1 := Acquired(t, dev, time);
    if i == |t| then TableOutcome(t, if op == GetSync then -ENOMEM else 0, None)
    else
      var o := Apply(ticks, t1[i], op, d, cb, time);
      TableOutcome(t1[i := o.slot], o.ret, o.event)
  }

  /** What the table says of a device: its slot, or that it was never mentioned. */
  function View(t: seq<Slot>, dev: Dev): Option<Slot> {
    var i := IndexOf(t, dev);
    if i < |t| then Some(t[i]) else None
  }

  function Known(v: Option<Slot>, dev: Dev, time: nat): Slot {
    match v
    case Some(s) => s
    case None => Fresh(dev, time)
  }

  lemma ApplyKeepsDev(ticks: int -> nat, s: Slot, op: Op, d: Driver, cb: int, t: nat)
    ensures Apply(ticks, s, op, d, cb, t).slot.dev == s.dev
  {
  }

  lemma Indexed(t: seq<Slot>, dev: Dev, i: nat)
    requires i < |t| && t[i].dev == dev && forall j :: 0 <= j < i ==> t[j].dev != dev
    ensures IndexOf(t, dev) == i
  {
  }

  lemma NotIndexed(t: seq<Slot>, dev: Dev)
    requires forall j :: 0 <= j < |t| ==> t[j].dev != dev
    ensures IndexOf(t, dev) == |t|
  {
  }

  /** Replacing dev's slot (or the first free one) by one of dev's changes nobody else's view. */
  lemma PutBack(t: seq<Slot>, dev: Dev, i: nat, s: Slot, other: Dev)
    requires Unique(t) && dev != NULL && other != NULL && other != dev && s.dev == dev
    requires i < |t| && i == Where(t, dev)
    ensures Unique(t[i := s]) && IndexOf(t[i := s], dev) == i && View(t[i := s], other) == View(t, other)
  {
    var t2 := t[i := s];
    assert forall j :: 0 <= j < |t| && j != i ==> t2[j] == t[j] && t[j].dev != dev;
    Indexed(t2, dev, i);
    var k := IndexOf(t, other);
    if k < |t| { Indexed(t2, other, k); } else { NotIndexed(t2, other); }
  }

  /** The shared table is as good as one private slot per device, as long as one is left: an entry
      point does to its own device exactly what Apply does, and nothing to any other. */
  lemma EntryIsPrivate(ticks: int -> nat, t: seq<Slot>, dev: Dev, op: Op, d: Driver, cb: int, time: nat, other: Dev)
    requires Unique(t) && dev != NULL && other != NULL && other != dev
    ensures var e := Entry(ticks, t, dev, op, d, cb, time);
      && Unique(e.slots)
      && View(e.slots, other) == View(t, other)
      && (Where(t, dev) == |t| ==> e.slots == t && e.event == None)
      && (Where(t, dev) < |t| ==>
           var o := Apply(ticks, Known(View(t, dev), dev, time), op, d, cb, time);
           View(e.slots, dev) == Some(o.slot) && e.ret == o.ret && e.event == o.event)
  {
    var i := Where(t, dev);
    if i < |t| {
      var known := Known(View(t, dev), dev, time);
      var t1 := Acquired(t, dev, time);
      assert t1[i] == known;
      var s := Apply(ticks, known, op, d, cb, time).slot;
      ApplyKeepsDev(ticks, known, op, d, cb, time);
      assert t1[i := s] == t[i := s];
      PutBack(t, dev, i, s, other);
    }
  }

  /** A device is refused exactly when it is new and all the slots are taken. */
  lemma RefusedIffFull(t: seq<Slot>, dev: Dev)
    requires dev != NULL
    ensures Where(t, dev) == |t| <==> forall i :: 0 <= i < |t| ==> t[i].dev != NULL && t[i].dev != dev
  {
    if forall i :: 0 <= i < |t| ==> t[i].dev != NULL && t[i].dev != dev {
      NotIndexed(t, dev);
      NotIndexed(t, NULL);
    }
  }

  /** The driver's view: the global array and the functions that update it in place. */
  class RuntimePm {
    const slots: array<Slot>
    const ticks: int -> nat  // msecs_to_jiffies
    ghost var log: seq<Event>

    ghost predicate Valid()
      reads this, slots
    {
      slots.Length == 8 && Unique(slots[..])
    }

    constructor (ticks: int -> nat)
      ensures Valid() && fresh(slots) && log == [] && this.ticks == ticks
      ensures forall i :: 0 <= i < 8 ==> slots[i].dev == NULL
    {
      this.ticks := ticks;
      slots := new Slot[8](_ => Slot(NULL, 0, false, false, false, 0, 0, None));
      log := [];
    }

    /** msm_fbsd_rpm_get: find or allocate the device's slot; -1 when there is none. */
    method Get(dev: Dev, t: nat) returns (i: int)
      requires Valid() && dev != NULL
      modifies slots
      ensures Valid() && slots[..] == Acquired(old(slots[..]), dev, t)
      ensures i == if Where(old(slots[..]), dev) == 8 then -1 else Where(old(slots[..]), dev)
      ensures i >= 0 ==> i < 8 && slots[i].dev == dev
    {
      ghost var before := slots[..];
      var free := -1;
      i := 0;
      while i < slots.Length && slots[i].dev != dev
        invariant 0 <= i <= slots.Length && slots[..] == before
        invariant forall j :: 0 <= j < i ==> slots[j].dev != dev
        invariant -1 <= free < i
        invariant free == -1 ==> forall j :: 0 <= j < i ==> slots[j].dev != NULL
        invariant free >= 0 ==> slots[free].dev == NULL && forall j :: 0 <= j < free ==> slots[j].dev != NULL
      {
        if free == -1 && slots[i].dev == NULL { free := i; }
        i := i + 1;
      }
      if i < slots.Length {
        Indexed(before, dev, i);
      } else {
        NotIndexed(before, dev);
        if free >= 0 {
          Indexed(before, NULL, free);
          i := free;
          slots[i] := Fresh(dev, t);
        } else {
          NotIndexed(before, NULL);
          i := -1;
        }
      }
    }

    method Resume(i: nat, d: Driver, cb: int) returns (error: int)
      requires i < slots.Length
      modifies slots, `log
      ensures var o := ResumeSlot(old(slots[i]), d, cb);
        slots[..] == old(slots[..])[i := o.slot] && error == o.ret && log == old(log) + Listed(o.event)
    {
      if slots[i].active { return 0; }
      if slots[i].enabled && d.resume {
        error := cb;
        log := log + [Resumed(cb)];
        if error != 0 { return; }
      } else {
        log := log + [Quiet(true)];
      }
      slots[i] := slots[i].(active := true);
      return 0;
    }

    method Suspend(i: nat, d: Driver, cb: int)
      requires i < slots.Length
      modifies slots, `log
      ensures var o := SuspendSlot(old(slots[i]), d, cb);
        slots[..] == old(slots[..])[i := o.slot] && log == old(log) + Listed(o.event)
    {
      if !slots[i].active { return; }
      if slots[i].enabled && d.suspend {
        log := log + [Suspended(cb)];
        if cb != 0 { return; }
      } else {
        log := log + [Quiet(false)];
      }
      slots[i] := slots[i].(active := false);
    }

    method Idle(i: nat, d: Driver, cb: int, t: nat, now: bool)
      requires i < slots.Length
      modifies slots, `log
      ensures var o := IdleSlot(ticks, old(slots[i]), d, cb, t, now);
        slots[..] == old(slots[..])[i := o.slot] && log == old(log) + Listed(o.event)
    {
      if !slots[i].active { return; }
      if now || !slots[i].autosuspend || slots[i].delayMs < 0 {
        Suspend(i, d, cb);
        return;
      }
      var left := ToLong(slots[i].lastBusy + ticks(slots[i].delayMs) - Jiffies(t));
      if left > 0 {
        slots[i] := slots[i].(timer := Some(t + left));
      } else {
        Suspend(i, d, cb);
      }
    }

    /** msm_fbsd_rpm_suspend_work, once it has the lock of slot i. */
    method SuspendWorkRuns(i: nat, d: Driver, cb: int, t: nat)
      requires Valid() && i < 8
      modifies slots, `log
      ensures Valid()
      ensures old(slots[i].dev) != NULL ==>
        var o := Apply(ticks, old(slots[i]), SuspendWork, d, cb, t);
        slots[..] == old(slots[..])[i := o.slot] && log == old(log) + Listed(o.event)
      ensures old(slots[i].dev) == NULL ==> slots[..] == old(slots[..]) && log == old(log)
    {
      if slots[i].dev != NULL && slots[i].usage == 0 {
        Idle(i, d, cb, t, false);
      }
    }

    method Put(dev: Dev, idle: bool, now: bool, d: Driver, cb: int, t: nat) returns (ret: int)
      requires Valid() && dev != NULL
      modifies slots, `log
      ensures Valid()
      ensures var op := if !idle then PutNoidle else if now then PutSyncSuspend else PutSync;
        var e := Entry(ticks, old(slots[..]), dev, op, d, cb, t);
        slots[..] == e.slots && ret == e.ret && log == old(log) + Listed(e.event)
    {
      ret := 0;
      var i := Get(dev, t);
      if i < 0 { return; }
      if slots[i].usage > 0 {
        slots[i] := slots[i].(usage := slots[i].usage - 1);
        if slots[i].usage == 0 && idle { Idle(i, d, cb, t, now); }
      }
    }

    method GetSync(dev: Dev, d: Driver, cb: int, t: nat) returns (error: int)
      requires Valid() && dev != NULL
      modifies slots, `log
      ensures Valid()
      ensures var e := Entry(ticks, old(slots[..]), dev, Op.GetSync, d, cb, t);
        slots[..] == e.slots && error == e.ret && log == old(log) + Listed(e.event)
    {
      var i := Get(dev, t);
      if i < 0 { return -ENOMEM; }
      slots[i] := slots[i].(timer := None);
      slots[i] := slots[i].(usage := slots[i].usage + 1);
      error := Resume(i, d, cb);
    }

    /** pm_runtime_mark_last_busy, _set_autosuspend_delay, _use_autosuspend, _enable and _disable. */
    method SetField(dev: Dev, op: Op, t: nat)
      requires Valid() && dev != NULL
      requires op.MarkLastBusy? || op.SetDelay? || op.UseAutosuspend? || op.Enable? || op.Disable?
      modifies slots
      ensures Valid()
      ensures var e := Entry(ticks, old(slots[..]), dev, op, Driver(false, false), 0, t);
        slots[..] == e.slots && e.event == None
    {
      var i := Get(dev, t);
      if i < 0 { return; }
      match op
      case MarkLastBusy => slots[i] := slots[i].(lastBusy := Jiffies(t));
      case SetDelay(ms) => slots[i] := slots[i].(delayMs := ms);
      case UseAutosuspend => slots[i] := slots[i].(autosuspend := true);
      case Enable => slots[i] := slots[i].(enabled := true);
      case Disable => slots[i] := slots[i].(enabled := false);
    }

    method DontUseAutosuspend(dev: Dev, d: Driver, cb: int, t: nat)
      requires Valid() && dev != NULL
      modifies slots, `log
      ensures Valid()
      ensures var e := Entry(ticks, old(slots[..]), dev, Op.DontUseAutosuspend, d, cb, t);
        slots[..] == e.slots && log == old(log) + Listed(e.event)
    {
      var i := Get(dev, t);
      if i < 0 { return; }
      slots[i] := slots[i].(autosuspend := false);
      slots[i] := slots[i].(timer := None);
      if slots[i].usage == 0 { Idle(i, d, cb, t, true); }
    }

    method GetIfInUse(dev: Dev, t: nat) returns (ret: int)
      requires Valid() && dev != NULL
      modifies slots
      ensures Valid()
      ensures var e := Entry(ticks, old(slots[..]), dev, Op.GetIfInUse, Driver(false, false), 0, t);
        slots[..] == e.slots && ret == e.ret && e.event == None
    {
      var i := Get(dev, t);
      if i < 0 { return 0; }
      ret := if slots[i].active && slots[i].usage > 0 then 1 else 0;
      if ret != 0 { slots[i] := slots[i].(usage := slots[i].usage + 1); }
    }

    /** pm_runtime_active and pm_runtime_enabled. */
    method Ask(dev: Dev, op: Op, t: nat) returns (ret: int)
      requires Valid() && dev != NULL && (op.IsActive? || op.IsEnabled?)
      modifies slots
      ensures Valid()
      ensures var e := Entry(ticks, old(slots[..]), dev, op, Driver(false, false), 0, t);
        slots[..] == e.slots && ret == e.ret && e.event == None
    {
      var i := Get(dev, t);
      if i < 0 { return 0; }
      ret := if (if op.IsActive? then slots[i].active else slots[i].enabled) then 1 else 0;
    }

    method ForceSuspend(dev: Dev, d: Driver, cb: int, t: nat) returns (ret: int)
      requires Valid() && dev != NULL
      modifies slots, `log
      ensures Valid()
      ensures var e := Entry(ticks, old(slots[..]), dev, Op.ForceSuspend, d, cb, t);
        slots[..] == e.slots && ret == e.ret && log == old(log) + Listed(e.event)
    {
      ret := 0;
      var i := Get(dev, t);
      if i < 0 { return; }
      slots[i] := slots[i].(timer := None);
      Suspend(i, d, cb);
    }

    method ForceResume(dev: Dev, d: Driver, cb: int, t: nat) returns (error: int)
      requires Valid() && dev != NULL
      modifies slots, `log
      ensures Valid()
      ensures var e := Entry(ticks, old(slots[..]), dev, Op.ForceResume, d, cb, t);
        slots[..] == e.slots && error == e.ret && log == old(log) + Listed(e.event)
    {
      error := 0;
      var i := Get(dev, t);
      if i < 0 { return; }
      if slots[i].usage > 0 { error := Resume(i, d, cb); }
    }
  }
}
