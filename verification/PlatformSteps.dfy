/** What the code of kmod/drm-msm/freebsd/msm_freebsd_platform.c does between one callback and the next, from
    any state of its tables, told by what a match is and not by the functions of the machine. */
module PlatformSteps {
  import opened Wrappers
  import opened Platform

  /** The tables are as they were. */
  predicate SameTables(s: State, n: State) { n.pdevs == s.pdevs && n.drivers == s.drivers }

  /** x is taken out of a table, wherever it was. */
  ghost predicate TakenOut(t: seq<Option<nat>>, u: seq<Option<nat>>, x: nat) {
    |u| == |t| && forall k :: 0 <= k < |t| ==> u[k] == if t[k] == Some(x) then None else t[k]
  }

  /** x is put into the lowest free slot. */
  ghost predicate PutIn(t: seq<Option<nat>>, u: seq<Option<nat>>, x: nat) {
    exists k :: 0 <= k < |t| && t[k] == None && None !in t[..k] && u == t[k := Some(x)]
  }

  /** A probe that succeeds leaves its device bound; one that fails releases it. The scan goes on either way. */
  lemma ProbeReturns(w: World, s: State, i: nat, dev: nat, drv: nat, below: Stack, error: int)
    requires s.stack == Call(Probing(i, dev, drv), below)
    ensures var n := Step(w, s, Return(error));
      SameTables(s, n) && n.stack == Call(Scan(i + 1), below) && n.bound == if error == 0 then s.bound else s.bound - {dev}
  {
  }

  /** Whatever a remove returns, its device is released. */
  lemma RemoveReturns(w: World, s: State, drv: nat, i: nat, dev: nat, below: Stack, error: int)
    requires s.stack == Call(Removing(drv, i, dev), below)
    ensures var n := Step(w, s, Return(error));
      SameTables(s, n) && n.stack == Call(Sweep(drv, i + 1), below) && n.bound == s.bound - {dev}
  {
  }

  lemma DeletionReturns(w: World, s: State, dev: nat, drv: nat, below: Stack, error: int)
    requires s.stack == Call(Deleting(dev, drv), below)
    ensures var n := Step(w, s, Return(error));
      n.drivers == s.drivers && n.stack == below && n.bound == s.bound - {dev} && TakenOut(s.pdevs, n.pdevs, dev)
  {
  }

  /** The device in the slot a scan has got to is unbound, and some driver takes it. */
  ghost predicate Probed(w: World, s: State, i: nat) {
    i < |s.pdevs| && s.pdevs[i].Some? && s.pdevs[i].value !in s.bound && exists k: nat :: Takes(w, s.drivers, k, s.pdevs[i].value)
  }

  /** The driver is the one in the lowest slot that takes the device. */
  ghost predicate FirstTaker(w: World, drivers: seq<Option<nat>>, dev: nat, drv: nat) {
    exists k: nat :: Takes(w, drivers, k, dev) && drivers[k] == Some(drv) && forall j: nat :: j < k ==> !Takes(w, drivers, j, dev)
  }

  /** One slot of a scan: an unbound device that some driver takes is bound to the first that does, and its
      probe is called; nothing else is done. */
  lemma ScanGoesOn(w: World, s: State, i: nat, below: Stack)
    requires s.stack == Call(Scan(i), below)
    ensures var n := Step(w, s, Tick);
      if i >= |s.pdevs| then n == s.(stack := below)
      else if Probed(w, s, i) then
        && SameTables(s, n) && n.stack.Call? && n.stack.below == below && n.stack.top.Probing?
        && n.stack.top.i == i && s.pdevs[i] == Some(n.stack.top.dev)
        && n.bound == s.bound[n.stack.top.dev := n.stack.top.drv]
        && FirstTaker(w, s.drivers, n.stack.top.dev, n.stack.top.drv)
      else n == s.(stack := Call(Scan(i + 1), below))
  {
    if i < |s.pdevs| && s.pdevs[i].Some? {
      var dev := s.pdevs[i].value;
      FirstIs(w, s.drivers, dev, 0);
      if First(w, s.drivers, dev, 0).Some? {
        var k :| 0 <= k < |s.drivers| && First(w, s.drivers, dev, 0) == s.drivers[k] && Takes(w, s.drivers, k, dev) &&
          forall j :: 0 <= j < k ==> !Takes(w, s.drivers, j, dev);
        assert Takes(w, s.drivers, k, dev);
      }
    }
  }

  /** One slot of a sweep: a device bound to the driver has its remove called, if there is one, and is
      released; nothing else is done. At the end the driver is taken out of the table. */
  lemma SweepGoesOn(w: World, s: State, drv: nat, i: nat, below: Stack)
    requires s.stack == Call(Sweep(drv, i), below)
    ensures var n := Step(w, s, Tick);
      if i >= |s.pdevs| then n.pdevs == s.pdevs && n.bound == s.bound && n.stack == below && TakenOut(s.drivers, n.drivers, drv)
      else if s.pdevs[i].Some? && s.pdevs[i].value in s.bound && s.bound[s.pdevs[i].value] == drv then
        var dev := s.pdevs[i].value;
        && SameTables(s, n)
        && (w.driver(drv).hasRemove ==> n.bound == s.bound && n.stack == Call(Removing(drv, i, dev), below))
        && (!w.driver(drv).hasRemove ==> n.bound == s.bound - {dev} && n.stack == Call(Sweep(drv, i + 1), below))
      else n == s.(stack := Call(Sweep(drv, i + 1), below))
  {
  }

  /** A driver is registered, or a device added, in the lowest free slot, and every device is looked at from
      the first on; with no slot free nothing is done. */
  lemma CallsAre(w: World, s: State, x: nat)
    requires MayCall(s.stack)
    ensures var n := Step(w, s, Register(x));
      if None in s.drivers then PutIn(s.drivers, n.drivers, x) && n == s.(drivers := n.drivers, stack := Call(Scan(0), s.stack))
      else n == s
    ensures var n := Step(w, s, Add(x));
      if None in s.pdevs then PutIn(s.pdevs, n.pdevs, x) && n == s.(pdevs := n.pdevs, stack := Call(Scan(0), s.stack))
      else n == s
    ensures Step(w, s, Unregister(x)) == s.(stack := Call(Sweep(x, 0), s.stack))
  {
    FreeIs(s.drivers, x);
    FreeIs(s.pdevs, x);
  }

  lemma FreeIs(t: seq<Option<nat>>, x: nat)
    ensures Free(t, 0) == |t| <==> None !in t
    ensures Free(t, 0) < |t| ==> PutIn(t, t[Free(t, 0) := Some(x)], x)
  {
    var k := Free(t, 0);
    if k < |t| { assert t[k] == None && None !in t[..k]; }
  }

  /** A device that is deleted has its driver's remove called first, if it is bound to one that has it; it is
      then out of the table and bound to nothing, at once otherwise. */
  lemma DeletionIs(w: World, s: State, dev: nat)
    requires MayCall(s.stack)
    ensures var n := Step(w, s, Del(dev));
      if dev in s.bound && w.driver(s.bound[dev]).hasRemove
      then n == s.(stack := Call(Deleting(dev, s.bound[dev]), s.stack))
      else n.drivers == s.drivers && n.stack == s.stack && n.bound == s.bound - {dev} && TakenOut(s.pdevs, n.pdevs, dev)
  {
  }
}
