/** The tables of kmod/drm-msm/freebsd/msm_freebsd_platform.c as the code changes them, in place. */
module PlatformTables {
  import opened Wrappers
  import opened Platform
  import opened PlatformRuns

  lemma ProbeReturns(w: World, s: State, error: int)
    requires s.stack.Call? && s.stack.top.Probing?
    ensures var n := Step(w, s, Return(error)); n.pdevs == s.pdevs && n.drivers == s.drivers
    ensures Step(w, s, Return(error)).bound == if error == 0 then s.bound else s.bound - {s.stack.top.dev}
    ensures Step(w, s, Return(error)).stack == Call(Scan(s.stack.top.i + 1), s.stack.below)
  {
  }

  lemma RemoveReturns(w: World, s: State)
    requires s.stack.Call? && s.stack.top.Removing?
    ensures var n := Step(w, s, Return(0)); n.pdevs == s.pdevs && n.drivers == s.drivers
    ensures Step(w, s, Return(0)).bound == s.bound - {s.stack.top.dev}
    ensures Step(w, s, Return(0)).stack == Call(Sweep(s.stack.top.drv, s.stack.top.i + 1), s.stack.below)
  {
  }

  /** The tables themselves. `run` is what has happened so far, and `s` where the machine stands. */
  class Tables {
    const world: World
    const pdevs: array<Option<nat>>
    const drivers: array<Option<nat>>
    var bound: map<nat, nat>
    ghost var run: seq<Event>
    ghost var s: State

    ghost predicate Valid()
      reads this, pdevs, drivers
    {
      && pdevs != drivers && pdevs.Length == SLOTS && drivers.Length == DRIVERS
      && pdevs[..] == s.pdevs && drivers[..] == s.drivers && bound == s.bound
      && s == After(world, run)
    }

    constructor (w: World)
      ensures Valid() && run == [] && world == w && fresh(pdevs) && fresh(drivers)
    {
      world := w;
      pdevs := new Option<nat>[SLOTS](i => None);
      drivers := new Option<nat>[DRIVERS](i => None);
      bound := map[];
      run := [];
      s := Start();
    }

    /** The machine makes the step the code is making. */
    ghost method Did(e: Event)
      requires s == After(world, run)
      modifies this`run, this`s
      ensures run == old(run) + [e] && s == Step(world, old(s), e) && s == After(world, run)
    {
      AfterOneMore(world, run, e);
      run := run + [e];
      s := Step(world, s, e);
    }

    lemma Unbound()
      requires s == After(world, run)
      ensures Forward(world, run) ==> Registered(s)
    {
      if Forward(world, run) { ForwardRunsStayRegistered(world, run); }
    }

    method FreeSlot(t: array<Option<nat>>) returns (i: nat)
      ensures i == Free(t[..], 0)
    {
      i := 0;
      while i < t.Length && t[i].Some?
        invariant i <= t.Length && Free(t[..], 0) == Free(t[..], i)
      {
        i := i + 1;
      }
    }

    method FirstMatch(dev: nat) returns (drv: Option<nat>)
      ensures drv == First(world, drivers[..], dev, 0)
    {
      drv := None;
      var d := 0;
      while d < drivers.Length && drv == None
        invariant d <= drivers.Length
        invariant First(world, drivers[..], dev, 0) == if drv == None then First(world, drivers[..], dev, d) else drv
      {
        if drivers[d].Some? && Probes(world, drivers[d].value, dev) {
          drv := drivers[d];
        }
        d := d + 1;
      }
    }

    method Erase(t: array<Option<nat>>, x: nat)
      modifies t
      ensures t[..] == Without(old(t[..]), x)
    {
      for d := 0 to t.Length
        invariant forall k :: 0 <= k < d ==> t[k] == if old(t[k]) == Some(x) then None else old(t[k])
        invariant forall k :: d <= k < t.Length ==> t[k] == old(t[k])
      {
        if t[d] == Some(x) { t[d] := None; }
      }
    }

    /** A callback: any number of calls back into the tables, nested at most `depth` deep. */
    method Callback(depth: nat)
      requires Valid() && MayCall(s.stack)
      modifies this, pdevs, drivers
      ensures Valid() && old(run) <= run && s.stack == old(s.stack)
      decreases depth, 1, 0
    {
      var calls: int := *;
      if depth == 0 || calls < 0 { return; }
      for c := 0 to calls
        invariant Valid() && old(run) <= run && s.stack == old(s.stack)
      {
        var which: int := *;
        var x: nat := *;
        var error: int;
        match which
        case 0 => error := DriverRegister(x, depth - 1);
        case 1 => DriverUnregister(x, depth - 1);
        case 2 => error := PdevAdd(x, depth - 1);
        case _ => PdevDel(x, depth - 1);
      }
    }

    /** drv's probe of dev, once the device is bound to it. */
    method Probe(i: nat, dev: nat, drv: nat, depth: nat)
      requires Valid() && s.stack.Call? && s.stack.top == Probing(i, dev, drv)
      modifies this, pdevs, drivers
      ensures Valid() && old(run) <= run && s.stack == Call(Scan(i + 1), old(s.stack.below))
      decreases depth, 2, 0
    {
      Callback(depth);
      var error: int := *;
      ProbeReturns(world, s, error);
      if error != 0 {
        bound := bound - {dev};
      }
      Did(Return(error));
    }

    /** Slot i of msm_fbsd_probe_all. */
    method ProbeSlot(i: nat, depth: nat)
      requires Valid() && s.stack.Call? && s.stack.top == Scan(i) && i < SLOTS
      modifies this, pdevs, drivers
      ensures Valid() && old(run) <= run && s.stack == Call(Scan(i + 1), old(s.stack.below))
      decreases depth, 3, 0
    {
      var drv := None;
      if pdevs[i].Some? && pdevs[i].value !in bound {
        drv := FirstMatch(pdevs[i].value);
      }
      if drv.Some? {
        var dev := pdevs[i].value;
        bound := bound[dev := drv.value];
        Did(Tick);
        Probe(i, dev, drv.value, depth);
      } else {
        Did(Tick);
      }
    }

    method ProbeAll(depth: nat)
      requires Valid() && s.stack.Call? && s.stack.top == Scan(0)
      modifies this, pdevs, drivers
      ensures Valid() && old(run) <= run && s.stack == old(s.stack.below)
      decreases depth, 4, 0
    {
      for i := 0 to SLOTS
        invariant Valid() && old(run) <= run && s.stack == Call(Scan(i), old(s.stack.below))
      {
        ProbeSlot(i, depth);
      }
      Did(Tick);
    }

    /** The whole call is a run of the machine that starts with the call and ends with it off the stack. */
    method DriverRegister(drv: nat, depth: nat) returns (error: int)
      requires Valid() && MayCall(s.stack)
      modifies this, pdevs, drivers
      ensures Valid() && old(run) + [Register(drv)] <= run && s.stack == old(s.stack)
      ensures error == (if forall d :: 0 <= d < DRIVERS ==> old(s.drivers[d]).Some? then -ENOSPC else 0)
      ensures error != 0 ==> s == old(s)
      decreases depth, 5, 0
    {
      var d := FreeSlot(drivers);
      if d < drivers.Length {
        drivers[d] := Some(drv);
      }
      Did(Register(drv));
      if d == drivers.Length {
        return -ENOSPC;
      }
      ProbeAll(depth);
      return 0;
    }

    method PdevAdd(dev: nat, depth: nat) returns (error: int)
      requires Valid() && MayCall(s.stack)
      modifies this, pdevs, drivers
      ensures Valid() && old(run) + [Add(dev)] <= run && s.stack == old(s.stack)
      ensures error == (if forall i :: 0 <= i < SLOTS ==> old(s.pdevs[i]).Some? then ENOSPC else 0)
      ensures error != 0 ==> s == old(s)
      decreases depth, 5, 0
    {
      var i := FreeSlot(pdevs);
      if i < pdevs.Length {
        pdevs[i] := Some(dev);
      }
      Did(Add(dev));
      if i == pdevs.Length {
        return ENOSPC;
      }
      ProbeAll(depth);
      return 0;
    }

    /** drv's remove of dev, and its release. */
    method Remove(drv: nat, i: nat, dev: nat, depth: nat)
      requires Valid() && s.stack.Call? && s.stack.top == Removing(drv, i, dev)
      modifies this, pdevs, drivers
      ensures Valid() && old(run) <= run && s.stack == Call(Sweep(drv, i + 1), old(s.stack.below))
      decreases depth, 2, 0
    {
      Callback(depth);
      RemoveReturns(world, s);
      bound := bound - {dev};
      Did(Return(0));
    }

    /** Slot i of the unregistration's sweep. */
    method SweepSlot(drv: nat, i: nat, depth: nat)
      requires Valid() && s.stack.Call? && s.stack.top == Sweep(drv, i) && i < SLOTS
      modifies this, pdevs, drivers
      ensures Valid() && old(run) <= run && s.stack == Call(Sweep(drv, i + 1), old(s.stack.below))
      decreases depth, 3, 0
    {
      var mine := pdevs[i].Some? && pdevs[i].value in bound && bound[pdevs[i].value] == drv;
      if mine && world.driver(drv).hasRemove {
        var dev := pdevs[i].value;
        Did(Tick);
        Remove(drv, i, dev, depth);
      } else {
        if mine { bound := bound - {pdevs[i].value}; }
        Did(Tick);
      }
    }

    method DriverUnregister(drv: nat, depth: nat)
      requires Valid() && MayCall(s.stack)
      modifies this, pdevs, drivers
      ensures Valid() && old(run) + [Unregister(drv)] <= run && s.stack == old(s.stack)
      ensures Some(drv) !in s.drivers
      ensures Forward(world, run) ==> forall dev :: dev in s.bound ==> s.bound[dev] != drv
      decreases depth, 5, 0
    {
      Did(Unregister(drv));
      for i := 0 to SLOTS
        invariant Valid() && old(run) + [Unregister(drv)] <= run && s.stack == Call(Sweep(drv, i), old(s.stack))
      {
        SweepSlot(drv, i, depth);
      }
      Erase(drivers, drv);
      Did(Tick);
      Unbound();
    }

    /** The remove made by a deletion, the release, and the device's slots. */
    method RemoveDeleted(dev: nat, drv: nat, depth: nat)
      requires Valid() && s.stack.Call? && s.stack.top == Deleting(dev, drv)
      modifies this, pdevs, drivers
      ensures Valid() && old(run) <= run && s.stack == old(s.stack.below)
      ensures dev !in s.bound && Some(dev) !in s.pdevs
      decreases depth, 2, 0
    {
      Callback(depth);
      bound := bound - {dev};
      Erase(pdevs, dev);
      Did(Return(0));
    }

    method PdevDel(dev: nat, depth: nat)
      requires Valid() && MayCall(s.stack)
      modifies this, pdevs, drivers
      ensures Valid() && old(run) + [Del(dev)] <= run && s.stack == old(s.stack)
      ensures dev !in s.bound && Some(dev) !in s.pdevs
      decreases depth, 5, 0
    {
      if dev in bound && world.driver(bound[dev]).hasRemove {
        Did(Del(dev));
        RemoveDeleted(dev, bound[dev], depth);
      } else {
        bound := bound - {dev};
        Erase(pdevs, dev);
        Did(Del(dev));
      }
    }
  }
}
