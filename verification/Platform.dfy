/** The device and driver tables of kmod/drm-msm/freebsd/msm_freebsd_platform.c. A probe or remove
    callback may call any entry point again, so the calls in progress are a stack, and what the code
    does between two callbacks is one step of a machine; the class does the work on the tables. */
module Platform {
  import opened Wrappers

  /** A driver: its name or its match table (up to the first empty entry), and which callbacks it has. */
  datatype Driver = Driver(name: string, table: Option<seq<string>>, hasProbe: bool, hasRemove: bool)

  /** A device: its name, and its tree node's compatible strings if it has a node. */
  datatype Device = Device(name: string, node: Option<seq<string>>)

  /** Devices and drivers are known by their addresses. */
  datatype World = World(driver: nat -> Driver, device: nat -> Device)

  const SLOTS: nat := 4
  const DRIVERS: nat := 8
  const ENOSPC: int := 28

  predicate OfMatch(table: seq<string>, compatible: seq<string>) {
    table != [] && table[0] != "" && (table[0] in compatible || OfMatch(table[1..], compatible))
  }

  predicate Matches(w: World, drv: nat, dev: nat) {
    var d, p := w.driver(drv), w.device(dev);
    if d.table.Some? then p.node.Some? && OfMatch(d.table.value, p.node.value) else d.name == p.name
  }

  predicate Probes(w: World, drv: nat, dev: nat) { w.driver(drv).hasProbe && Matches(w, drv, dev) }

  /** The first registered driver, from slot `from`, whose probe the device gets. */
  function First(w: World, drivers: seq<Option<nat>>, dev: nat, from: nat): (r: Option<nat>)
    requires from <= |drivers|
    ensures r.Some? ==> Some(r.value) in drivers && Probes(w, r.value, dev)
    ensures r == None ==> forall d :: from <= d < |drivers| && drivers[d].Some? ==> !Probes(w, drivers[d].value, dev)
    decreases |drivers| - from
  {
    if from == |drivers| then None
    else if drivers[from].Some? && Probes(w, drivers[from].value, dev) then drivers[from]
    else First(w, drivers, dev, from + 1)
  }

  /** A driver with a table is for the devices whose node names some entry of the table as compatible, up to
      the first empty entry; a driver without one is for the devices of its name. */
  ghost predicate IsFor(d: Driver, p: Device) {
    match d.table
    case None => p.name == d.name
    case Some(table) =>
      p.node.Some? && exists k :: 0 <= k < |table| && "" !in table[..k + 1] && table[k] in p.node.value
  }

  lemma {:induction false} OfMatchIs(table: seq<string>, compatible: seq<string>)
    ensures OfMatch(table, compatible) <==> exists k :: 0 <= k < |table| && "" !in table[..k + 1] && table[k] in compatible
  {
    if table != [] {
      var rest := table[1..];
      OfMatchIs(rest, compatible);
      if k :| 0 <= k < |rest| && "" !in rest[..k + 1] && rest[k] in compatible && table[0] != "" {
        assert table[..k + 2] == [table[0]] + rest[..k + 1] && table[k + 1] == rest[k];
      }
      if k :| 0 <= k < |table| && "" !in table[..k + 1] && table[k] in compatible {
        assert table[..k + 1][0] == table[0];
        if k > 0 { assert rest[..k] == table[..k + 1][1..] && rest[k - 1] == table[k]; }
      }
      if table[0] != "" && table[0] in compatible { assert table[..1] == [table[0]]; }
    }
  }

  lemma MatchesIff(w: World, drv: nat, dev: nat)
    ensures Matches(w, drv, dev) <==> IsFor(w.driver(drv), w.device(dev))
  {
    var d, p := w.driver(drv), w.device(dev);
    if d.table.Some? && p.node.Some? { OfMatchIs(d.table.value, p.node.value); }
  }

  /** The driver in slot k has a probe and is for the device. */
  ghost predicate Takes(w: World, drivers: seq<Option<nat>>, k: nat, dev: nat) {
    k < |drivers| && drivers[k].Some? && w.driver(drivers[k].value).hasProbe && IsFor(w.driver(drivers[k].value), w.device(dev))
  }

  /** The driver whose probe a device gets is the one in the lowest slot that takes it. */
  lemma {:induction false} FirstIs(w: World, drivers: seq<Option<nat>>, dev: nat, from: nat)
    requires from <= |drivers|
    ensures var r := First(w, drivers, dev, from);
      if r == None then forall k :: from <= k < |drivers| ==> !Takes(w, drivers, k, dev)
      else exists k ::
        from <= k < |drivers| && r == drivers[k] && Takes(w, drivers, k, dev) && forall j :: from <= j < k ==> !Takes(w, drivers, j, dev)
    decreases |drivers| - from
  {
    if from < |drivers| {
      if drivers[from].Some? { MatchesIff(w, drivers[from].value, dev); }
      if !Takes(w, drivers, from, dev) {
        FirstIs(w, drivers, dev, from + 1);
        assert First(w, drivers, dev, from) == First(w, drivers, dev, from + 1);
      } else {
        assert First(w, drivers, dev, from) == drivers[from];
      }
    }
  }

  /** The first free slot, or the table's size. */
  function Free(t: seq<Option<nat>>, from: nat): (r: nat)
    requires from <= |t|
    ensures from <= r <= |t| && (r < |t| ==> t[r] == None)
    ensures forall k :: from <= k < r ==> t[k].Some?
    decreases |t| - from
  {
    if from == |t| || t[from] == None then from else Free(t, from + 1)
  }

  function Without(t: seq<Option<nat>>, x: nat): (r: seq<Option<nat>>)
    ensures |r| == |t|
    ensures forall i :: 0 <= i < |t| ==> r[i] == if t[i] == Some(x) then None else t[i]
  {
    seq(|t|, i requires 0 <= i < |t| => if t[i] == Some(x) then None else t[i])
  }

  /** A call in progress: a scan of the device table, a probe it made, an unregistration's sweep, a
      remove it made, a remove made by a deletion. */
  datatype Frame =
    | Scan(i: nat)
    | Probing(i: nat, dev: nat, drv: nat)
    | Sweep(drv: nat, i: nat)
    | Removing(drv: nat, i: nat, dev: nat)
    | Deleting(dev: nat, drv: nat)

  datatype Stack = Quiet | Call(top: Frame, below: Stack)

  /** The tables, whom each device is bound to, the calls in progress, and the devices whose last
      probe failed or whose driver was taken away. */
  datatype State = State(pdevs: seq<Option<nat>>, drivers: seq<Option<nat>>, bound: map<nat, nat>, stack: Stack, lost: set<nat>)

  datatype Event = Register(drv: nat) | Unregister(drv: nat) | Add(dev: nat) | Del(dev: nat) | Tick | Return(error: int)

  predicate InCallback(f: Frame) { f.Probing? || f.Removing? || f.Deleting? }

  /** Entry points are called from outside, or from a callback. */
  predicate MayCall(stack: Stack) { stack == Quiet || InCallback(stack.top) }

  function Start(): State {
    State(seq(SLOTS, i => None), seq(DRIVERS, i => None), map[], Quiet, {})
  }

  function Release(s: State, dev: nat): State { s.(bound := s.bound - {dev}) }

  function Deleted(s: State, dev: nat): State {
    State(Without(s.pdevs, dev), s.drivers, s.bound - {dev}, s.stack, s.lost - {dev})
  }

  predicate Wants(w: World, s: State, i: nat) {
    i < |s.pdevs| && s.pdevs[i].Some? && s.pdevs[i].value !in s.bound && First(w, s.drivers, s.pdevs[i].value, 0).Some?
  }

  predicate Swept(s: State, drv: nat, i: nat) {
    i < |s.pdevs| && s.pdevs[i].Some? && s.pdevs[i].value in s.bound && s.bound[s.pdevs[i].value] == drv
  }

  /** What the code does from one callback's edge, or one table slot, to the next. */
  function Work(w: World, s: State): State
    requires s.stack.Call?
  {
    var below := s.stack.below;
    match s.stack.top
    case Scan(i) =>
      if i >= |s.pdevs| then s.(stack := below)
      else if Wants(w, s, i) then
        var dev := s.pdevs[i].value;
        var drv := First(w, s.drivers, dev, 0).value;
        s.(bound := s.bound[dev := drv], stack := Call(Probing(i, dev, drv), below), lost := s.lost - {dev})
      else s.(stack := Call(Scan(i + 1), below))
    case Sweep(drv, i) =>
      if i >= |s.pdevs| then s.(drivers := Without(s.drivers, drv), stack := below)
      else if Swept(s, drv, i) then
        var dev := s.pdevs[i].value;
        if w.driver(drv).hasRemove then s.(stack := Call(Removing(drv, i, dev), below))
        else Release(s, dev).(stack := Call(Sweep(drv, i + 1), below), lost := s.lost + {dev})
      else s.(stack := Call(Sweep(drv, i + 1), below))
    case _ => s
  }

  /** A callback comes back; only a probe's error is looked at. */
  function Back(s: State, error: int): State
    requires s.stack.Call?
  {
    var below := s.stack.below;
    match s.stack.top
    case Probing(i, dev, drv) =>
      var next := s.(stack := Call(Scan(i + 1), below));
      if error == 0 then next else Release(next, dev).(lost := s.lost + {dev})
    case Removing(drv, i, dev) =>
      Release(s, dev).(stack := Call(Sweep(drv, i + 1), below), lost := s.lost + {dev})
    case Deleting(dev, drv) => Deleted(s, dev).(stack := below)
    case _ => s
  }

  /** One event; one that cannot happen changes nothing. */
  function Step(w: World, s: State, e: Event): State {
    match e
    case Tick => if s.stack.Call? then Work(w, s) else s
    case Return(error) => if s.stack.Call? then Back(s, error) else s
    case Register(drv) =>
      var d := Free(s.drivers, 0);
      if !MayCall(s.stack) || d == |s.drivers| then s
      else s.(drivers := s.drivers[d := Some(drv)], stack := Call(Scan(0), s.stack))
    case Add(dev) =>
      var i := Free(s.pdevs, 0);
      if !MayCall(s.stack) || i == |s.pdevs| then s
      else s.(pdevs := s.pdevs[i := Some(dev)], stack := Call(Scan(0), s.stack))
    case Unregister(drv) => if MayCall(s.stack) then s.(stack := Call(Sweep(drv, 0), s.stack)) else s
    case Del(dev) =>
      if !MayCall(s.stack) then s
      else if dev in s.bound && w.driver(s.bound[dev]).hasRemove
        then s.(stack := Call(Deleting(dev, s.bound[dev]), s.stack))
      else Deleted(s, dev)
  }

  /** The state after a run, from empty tables. */
  function After(w: World, run: seq<Event>): State
    decreases |run|
  {
    if run == [] then Start() else Step(w, After(w, run[..|run| - 1]), run[|run| - 1])
  }

  lemma AfterOneMore(w: World, run: seq<Event>, e: Event)
    ensures After(w, run + [e]) == Step(w, After(w, run), e)
  {
    assert (run + [e])[..|run|] == run;
  }
}
