/** The session as a plan, desktop/de/anchor/src/session.rs: what to run, in what order, with which
    environment, waiting for which sockets. */
module SessionPlan {
  import opened Wrappers

  datatype Mode = DesktopMode | InstallerMode | GreeterMode

  /** What can be planned, or left out. */
  datatype Name =
    | Bus | Portal | Bridge | Menus | Idle | Jails | Desktop | Installer | LoginWindow | MenuBar | Dock
    | Lock | Setup

  /** The environment variables the plan sets. */
  datatype Var = WaylandDisplay | RuntimeDir | BusAddress | AppBinary | Scene | AppWaylandDisplay | UsePortal

  type Env = map<Var, string>

  datatype Component = Component(name: Name, argv: seq<string>, env: Env, needs: seq<string>)

  datatype Inputs = Inputs(shell: string, services: string, dir: string, display: Option<string>,
                           compositorSocket: Option<string>, menubarDisplay: Option<string>,
                           menubarSocket: Option<string>, mode: Mode, firstRunDone: bool, without: set<Name>)

  datatype Plan = Plan(components: seq<Component>, busAddress: Option<string>, notes: nat,
                       lockScreen: Option<Component>, firstRun: Option<Component>)

  // ------------------------------------------------------------------------------ addresses

  const UNIX := "unix:path="

  function BusSocket(dir: string): string { dir + "/bus" }

  function PortalSocket(dir: string): string { dir + "/portal.sock" }

  function ServicesSocket(dir: string): string { dir + "/dbus-services" }

  function UpTo(s: string, c: char): string {
    if s == [] || s[0] == c then [] else [s[0]] + UpTo(s[1..], c)
  }

  /** The socket in a unix:path= address, up to its first comma. */
  function UnixSocketPath(address: string): Option<string> {
    if UNIX <= address then Some(UpTo(address[|UNIX|..], ',')) else None
  }

  lemma {:induction false} UpToIff(s: string, c: char)
    ensures UpTo(s, c) == s <==> c !in s
    ensures UpTo(s, c) <= s
  {
    if s != [] && s[0] != c {
      UpToIff(s[1..], c);
      assert s == [s[0]] + s[1..];
    }
  }

  /** An address made from a path gives the path back exactly when the path has no comma. */
  lemma PathOfAddress(path: string)
    ensures UnixSocketPath(UNIX + path) == Some(path) <==> ',' !in path
  {
    assert (UNIX + path)[|UNIX|..] == path;
    UpToIff(path, ',');
  }

  // -------------------------------------------------------------------------------- the plan

  /** The services a login window's session does without. */
  predicate Service(n: Name) { n == Bus || n == Portal || n == Bridge || n == Menus }

  predicate LeftOut(i: Inputs, n: Name) { n in i.without || (i.mode == GreeterMode && Service(n)) }

  function Scenes(mode: Mode): seq<Name> {
    match mode
    case InstallerMode => [Desktop, Installer]
    case GreeterMode => [LoginWindow]
    case DesktopMode => [Desktop, MenuBar, Dock]
  }

  function SceneOf(n: Name): string {
    match n
    case Desktop => "wallpaper"
    case Installer => "installer"
    case LoginWindow => "loginwindow"
    case MenuBar => "menubar"
    case Dock => "dock"
    case Lock => "lock"
    case _ => "setupassistant"
  }

  /** Every component there could be, in the order they have to start. */
  function Everything(mode: Mode): seq<Name> { [Bus, Portal, Bridge, Menus, Idle, Jails] + Scenes(mode) }

  /** Whether it is part of this session: the bridge and its menus only with a bus, idling and jails only
      on a desktop. */
  predicate Present(i: Inputs, n: Name) {
    && !LeftOut(i, n)
    && (n == Bridge || n == Menus ==> !LeftOut(i, Bus))
    && (n == Idle || n == Jails || n == Lock || n == Setup ==> i.mode == DesktopMode)
    && (n == Setup ==> !i.firstRunDone)
  }

  function Listed(o: Option<string>): seq<string> { if o.Some? then [o.value] else [] }

  function Shared(i: Inputs): Env {
    (if i.display.Some? then map[WaylandDisplay := i.display.value] else map[])[RuntimeDir := i.dir]
  }

  function OnBus(i: Inputs): Env { Shared(i)[BusAddress := UNIX + ServicesSocket(i.dir)] }

  function InScene(i: Inputs, n: Name): Env { Shared(i)[Scene := SceneOf(n)][AppBinary := i.shell] }

  function BarEnv(i: Inputs): Env {
    var env := InScene(i, MenuBar);
    if i.menubarDisplay == None then env
    else (if i.display.Some? then env[AppWaylandDisplay := i.display.value] else env)[WaylandDisplay := i.menubarDisplay.value]
  }

  /** What each component is. */
  function Spec(i: Inputs, n: Name): Component {
    match n
    case Bus =>
      var argv := [i.services + "/abyss-dbus", "--endpoint", "--listen", BusSocket(i.dir), "--services", ServicesSocket(i.dir)];
      Component(Bus, argv, Shared(i), [])
    case Portal => Component(Portal, [i.services + "/abyss-portal"], Shared(i), [])
    case Bridge =>
      var needs := [ServicesSocket(i.dir)] + if LeftOut(i, Portal) then [] else [PortalSocket(i.dir)];
      Component(Bridge, [i.services + "/abyss-dbus"], OnBus(i), needs)
    case Menus => Component(Menus, [i.services + "/abyss-dbus", "--menus"], OnBus(i), [ServicesSocket(i.dir)])
    case Idle => Component(Idle, [i.services + "/abyss-idle"], Shared(i)[AppBinary := i.shell], Listed(i.compositorSocket))
    case Jails => Component(Jails, [i.services + "/abyss-jail", "serve"], Shared(i), Listed(i.compositorSocket))
    case MenuBar =>
      var needs := Listed(i.compositorSocket) + if i.menubarDisplay.Some? then Listed(i.menubarSocket) else [];
      Component(MenuBar, [i.shell], BarEnv(i), needs)
    case Lock =>
      var env := InScene(i, Lock);
      Component(Lock, [i.shell], if i.menubarDisplay.Some? then env[WaylandDisplay := i.menubarDisplay.value] else env, [])
    case _ => Component(n, [i.shell], InScene(i, n), Listed(i.compositorSocket))
  }

  function Planned(i: Inputs, names: seq<Name>): seq<Component> {
    if names == [] then []
    else if Present(i, names[0]) then [Spec(i, names[0])] + Planned(i, names[1..])
    else Planned(i, names[1..])
  }

  function Components(i: Inputs): seq<Component> { Planned(i, Everything(i.mode)) }

  lemma {:induction false} PlannedMore(i: Inputs, names: seq<Name>, n: Name)
    ensures Planned(i, names + [n]) == Planned(i, names) + if Present(i, n) then [Spec(i, n)] else []
    decreases |names|
  {
    if names == [] {
      assert Planned(i, [n]) == if Present(i, n) then [Spec(i, n)] + Planned(i, []) else Planned(i, []);
    } else {
      PlannedMore(i, names[1..], n);
      assert (names + [n])[1..] == names[1..] + [n];
    }
  }

  /** bus and portal. */
  method PlanBus(i: Inputs) returns (components: seq<Component>, busAddress: Option<string>)
    ensures components == Planned(i, [Bus, Portal])
    ensures busAddress == if Present(i, Bus) then Some(UNIX + BusSocket(i.dir)) else None
  {
    components, busAddress := [], None;
    if !LeftOut(i, Bus) {
      busAddress := Some(UNIX + BusSocket(i.dir));
      var argv := [i.services + "/abyss-dbus", "--endpoint", "--listen", BusSocket(i.dir), "--services", ServicesSocket(i.dir)];
      components := components + [Component(Bus, argv, Shared(i), [])];
    }
    PlannedMore(i, [], Bus);
    if !LeftOut(i, Portal) {
      components := components + [Component(Portal, [i.services + "/abyss-portal"], Shared(i), [])];
    }
    PlannedMore(i, [Bus], Portal);
  }

  /** bridge and menus, which need the bus. */
  method PlanBridge(i: Inputs, before: seq<Component>, ghost names: seq<Name>, bus: bool)
    returns (components: seq<Component>, notes: nat)
    requires before == Planned(i, names) && bus == Present(i, Bus)
    ensures components == Planned(i, names + [Bridge] + [Menus])
    ensures notes == if !LeftOut(i, Bridge) && LeftOut(i, Bus) then 1 else 0
  {
    components, notes := before, 0;
    if !LeftOut(i, Bridge) {
      if bus {
        var needs := [ServicesSocket(i.dir)];
        if !LeftOut(i, Portal) { needs := needs + [PortalSocket(i.dir)]; }
        assert needs == Spec(i, Bridge).needs;
        components := components + [Component(Bridge, [i.services + "/abyss-dbus"], OnBus(i), needs)];
      } else {
        notes := notes + 1;
      }
    }
    PlannedMore(i, names, Bridge);
    if !LeftOut(i, Menus) && bus {
      components := components + [Component(Menus, [i.services + "/abyss-dbus", "--menus"], OnBus(i), [ServicesSocket(i.dir)])];
    }
    PlannedMore(i, names + [Bridge], Menus);
  }

  /** idle and jails, a desktop's. */
  method PlanKeepers(i: Inputs, before: seq<Component>, ghost names: seq<Name>) returns (components: seq<Component>)
    requires before == Planned(i, names)
    ensures components == Planned(i, names + [Idle] + [Jails])
  {
    components := before;
    if i.mode == DesktopMode && !LeftOut(i, Idle) {
      components := components +
        [Component(Idle, [i.services + "/abyss-idle"], Shared(i)[AppBinary := i.shell], Listed(i.compositorSocket))];
    }
    PlannedMore(i, names, Idle);
    if i.mode == DesktopMode && !LeftOut(i, Jails) {
      components := components +
        [Component(Jails, [i.services + "/abyss-jail", "serve"], Shared(i), Listed(i.compositorSocket))];
    }
    PlannedMore(i, names + [Idle], Jails);
  }

  predicate IsScene(n: Name) { n == Desktop || n == Installer || n == LoginWindow || n == MenuBar || n == Dock }

  /** One scene of the shell. */
  method PlanScene(i: Inputs, n: Name) returns (c: Component)
    requires IsScene(n)
    ensures c == Spec(i, n)
  {
    var env := InScene(i, n);
    var needs := Listed(i.compositorSocket);
    if n == MenuBar && i.menubarDisplay.Some? {
      if WaylandDisplay in env {
        env := env[AppWaylandDisplay := env[WaylandDisplay]];
      }
      env := env[WaylandDisplay := i.menubarDisplay.value];
      needs := needs + Listed(i.menubarSocket);
    }
    c := Component(n, [i.shell], env, needs);
  }

  /** The shell, in stacking order. */
  method PlanScenes(i: Inputs, before: seq<Component>, ghost names: seq<Name>) returns (components: seq<Component>)
    requires before == Planned(i, names)
    ensures components == Planned(i, names + Scenes(i.mode))
  {
    components := before;
    var scenes := Scenes(i.mode);
    assert names + scenes[..0] == names;
    for k := 0 to |scenes|
      invariant components == Planned(i, names + scenes[..k])
    {
      if !LeftOut(i, scenes[k]) {
        var c := PlanScene(i, scenes[k]);
        components := components + [c];
      }
      PlannedMore(i, names + scenes[..k], scenes[k]);
      assert names + scenes[..k] + [scenes[k]] == names + scenes[..k + 1];
    }
    assert scenes[..|scenes|] == scenes;
  }

  method DefaultSession(i: Inputs) returns (plan: Plan)
    ensures plan.components == Components(i)
    ensures plan.busAddress == if Present(i, Bus) then Some(UNIX + BusSocket(i.dir)) else None
    ensures plan.notes == if !LeftOut(i, Bridge) && LeftOut(i, Bus) then 1 else 0
    ensures plan.lockScreen == if Present(i, Lock) then Some(Spec(i, Lock)) else None
    ensures plan.firstRun == if Present(i, Setup) then Some(Spec(i, Setup)) else None
  {
    var components, busAddress := PlanBus(i);
    var notes;
    components, notes := PlanBridge(i, components, [Bus, Portal], busAddress.Some?);
    components := PlanKeepers(i, components, [Bus, Portal] + [Bridge] + [Menus]);
    components := PlanScenes(i, components, [Bus, Portal] + [Bridge] + [Menus] + [Idle] + [Jails]);
    assert [Bus, Portal] + [Bridge] + [Menus] + [Idle] + [Jails] == [Bus, Portal, Bridge, Menus, Idle, Jails];
    var lockScreen := None;
    if i.mode == DesktopMode && !LeftOut(i, Lock) {
      var env := InScene(i, Lock);
      if i.menubarDisplay.Some? { env := env[WaylandDisplay := i.menubarDisplay.value]; }
      lockScreen := Some(Component(Lock, [i.shell], env, []));
    }
    var firstRun := None;
    if i.mode == DesktopMode && !i.firstRunDone && !LeftOut(i, Setup) {
      firstRun := Some(Component(Setup, [i.shell], InScene(i, Setup), Listed(i.compositorSocket)));
    }
    plan := Plan(components, busAddress, notes, lockScreen, firstRun);
  }

  // ------------------------------------------------------------------------------ start order

  /** The sockets a component listens on: the bus the two it is given, the portal the one in its
      runtime directory. */
  function Provides(c: Component): set<string> {
    (if |c.argv| == 6 && c.argv[1] == "--endpoint" && c.argv[2] == "--listen" && c.argv[4] == "--services"
      then {c.argv[3], c.argv[5]} else {}) +
    (if c.name == Portal && RuntimeDir in c.env then {PortalSocket(c.env[RuntimeDir])} else {})
  }

  /** The sockets that are there before any component. */
  function External(i: Inputs): set<string> {
    (if i.compositorSocket.Some? then {i.compositorSocket.value} else {}) +
    (if i.menubarSocket.Some? then {i.menubarSocket.value} else {})
  }

  /** Started one after the other, every component finds the sockets it waits for. */
  ghost predicate Startable(cs: seq<Component>, have: set<string>)
    decreases |cs|
  {
    cs == [] || ((forall s :: s in cs[0].needs ==> s in have) && Startable(cs[1..], have + Provides(cs[0])))
  }

  lemma {:induction false} StartableMeans(cs: seq<Component>, have: set<string>, k: nat, s: string)
    requires Startable(cs, have) && k < |cs| && s in cs[k].needs
    ensures s in have || exists j :: 0 <= j < k && s in Provides(cs[j])
    decreases |cs|
  {
    if k > 0 {
      StartableMeans(cs[1..], have + Provides(cs[0]), k - 1, s);
      if s !in have && s !in Provides(cs[0]) {
        var j :| 0 <= j < k - 1 && s in Provides(cs[1..][j]);
        assert cs[j + 1] == cs[1..][j];
      }
    }
  }

  /** What is there by the time the names from position p on are started. */
  ghost predicate Enough(i: Inputs, p: nat, have: set<string>) {
    && External(i) <= have
    && (p > 0 && Present(i, Bus) ==> ServicesSocket(i.dir) in have)
    && (p > 1 && Present(i, Portal) ==> PortalSocket(i.dir) in have)
  }

  lemma NeedsMet(i: Inputs, p: nat, have: set<string>)
    requires p < |Everything(i.mode)| && Enough(i, p, have) && Present(i, Everything(i.mode)[p])
    ensures var c := Spec(i, Everything(i.mode)[p]);
      (forall s :: s in c.needs ==> s in have) && Enough(i, p + 1, have + Provides(c))
  {
    var n := Everything(i.mode)[p];
    assert n == Bus <==> p == 0;
    assert n == Portal <==> p == 1;
    assert (n == Bridge <==> p == 2) && (n == Menus <==> p == 3);
  }

  lemma {:induction false} StartableFrom(i: Inputs, p: nat, have: set<string>)
    requires p <= |Everything(i.mode)| && Enough(i, p, have)
    ensures Startable(Planned(i, Everything(i.mode)[p..]), have)
    decreases |Everything(i.mode)| - p
  {
    var all := Everything(i.mode);
    if p < |all| {
      assert all[p..][1..] == all[p + 1..];
      if Present(i, all[p]) {
        NeedsMet(i, p, have);
        StartableFrom(i, p + 1, have + Provides(Spec(i, all[p])));
        assert Planned(i, all[p..])[1..] == Planned(i, all[p + 1..]);
      } else {
        assert (p == 0 ==> all[p] == Bus) && (p == 1 ==> all[p] == Portal);
        StartableFrom(i, p + 1, have);
      }
    }
  }

  /** In every session, whatever is left out, each socket a component waits for is the compositor's, or
      one that a component started earlier listens on. */
  lemma EveryNeedIsMet(i: Inputs, k: nat, s: string)
    requires k < |Components(i)| && s in Components(i)[k].needs
    ensures s in External(i) || exists j :: 0 <= j < k && s in Provides(Components(i)[j])
  {
    StartableFrom(i, 0, External(i));
    assert Everything(i.mode)[0..] == Everything(i.mode);
    StartableMeans(Components(i), External(i), k, s);
  }

  /** The bridge and the menus wait for the very socket in the bus address they are told, and the session
      bus listens at its own address; exactly when the runtime directory has no comma. */
  lemma AddressesAgreeIff(i: Inputs, n: Name)
    requires n == Bridge || n == Menus
    ensures var c := Spec(i, n);
      BusAddress in c.env && c.needs != [] && c.needs[0] in Provides(Spec(i, Bus))
    ensures var c := Spec(i, n);
      BusAddress in c.env && c.needs != [] ==>
        (UnixSocketPath(c.env[BusAddress]) == Some(c.needs[0]) <==> ',' !in i.dir)
    ensures UnixSocketPath(UNIX + BusSocket(i.dir)) == Some(BusSocket(i.dir)) <==> ',' !in i.dir
    ensures BusSocket(i.dir) in Provides(Spec(i, Bus))
  {
    PathOfAddress(ServicesSocket(i.dir));
    PathOfAddress(BusSocket(i.dir));
    assert ',' in ServicesSocket(i.dir) <==> ',' in i.dir;
    assert ',' in BusSocket(i.dir) <==> ',' in i.dir;
  }

  // ------------------------------------------------------------------------------ leaving out

  function Names(cs: seq<Component>): seq<Name> {
    if cs == [] then [] else [cs[0].name] + Names(cs[1..])
  }

  /** xs is ys with some elements dropped. */
  predicate Subsequence(xs: seq<Name>, ys: seq<Name>)
    decreases |ys|
  {
    xs == [] || (ys != [] && ((xs[0] == ys[0] && Subsequence(xs[1..], ys[1..])) || Subsequence(xs, ys[1..])))
  }

  lemma NamesOfPlanned(i: Inputs, names: seq<Name>)
    requires names != []
    ensures Names(Planned(i, names)) ==
      if Present(i, names[0]) then [names[0]] + Names(Planned(i, names[1..])) else Names(Planned(i, names[1..]))
  {
    if Present(i, names[0]) { NamesOfMore(Spec(i, names[0]), Planned(i, names[1..])); }
  }

  lemma NamesOfMore(c: Component, cs: seq<Component>)
    ensures Names([c] + cs) == [c.name] + Names(cs)
  {
    assert ([c] + cs)[1..] == cs;
  }

  lemma SubsequenceMore(n: Name, xs: seq<Name>, ys: seq<Name>)
    requires Subsequence(xs, ys)
    ensures Subsequence([n] + xs, [n] + ys) && Subsequence(xs, [n] + ys)
  {
    assert ([n] + xs)[1..] == xs && ([n] + ys)[1..] == ys;
  }

  lemma {:induction false} FewerNames(i: Inputs, j: Inputs, names: seq<Name>)
    requires forall n :: Present(j, n) ==> Present(i, n)
    ensures Subsequence(Names(Planned(j, names)), Names(Planned(i, names)))
    decreases |names|
  {
    if names != [] {
      FewerNames(i, j, names[1..]);
      NamesOfPlanned(i, names);
      NamesOfPlanned(j, names);
      SubsequenceMore(names[0], Names(Planned(j, names[1..])), Names(Planned(i, names[1..])));
    }
  }

  /** Leaving out more only drops components; the others keep their order. */
  lemma LeavingOutMore(i: Inputs, more: set<Name>)
    ensures Subsequence(Names(Components(i.(without := i.without + more))), Names(Components(i)))
  {
    FewerNames(i, i.(without := i.without + more), Everything(i.mode));
  }

  lemma {:induction false} InNames(i: Inputs, names: seq<Name>, n: Name)
    ensures n in Names(Planned(i, names)) <==> n in names && Present(i, n)
    decreases |names|
  {
    if names != [] {
      NamesOfPlanned(i, names);
      InNames(i, names[1..], n);
    }
  }

  /** What an application the session starts is told: the bus address while there is a bus, and to use the
      portal while the bridge is there to answer. */
  function ApplicationEnvironment(plan: Plan): Env {
    var env: Env := if plan.busAddress.Some? then map[BusAddress := plan.busAddress.value] else map[];
    if Bridge in Names(plan.components) then env[UsePortal := "1"] else env
  }

  /** Applications are sent to the portal exactly when the bridge runs, and never without a bus address. */
  lemma PortalOnlyWithBus(i: Inputs, plan: Plan)
    requires plan.components == Components(i)
    requires plan.busAddress == if Present(i, Bus) then Some(UNIX + BusSocket(i.dir)) else None
    ensures UsePortal in ApplicationEnvironment(plan) <==> Present(i, Bridge)
    ensures UsePortal in ApplicationEnvironment(plan) ==> BusAddress in ApplicationEnvironment(plan)
    ensures BusAddress in ApplicationEnvironment(plan) <==> Bus in Names(plan.components)
  {
    InNames(i, Everything(i.mode), Bridge);
    InNames(i, Everything(i.mode), Bus);
  }

  // ---------------------------------------------------------------------------- privileges

  function Get(env: Env, v: Var): Option<string> { if v in env then Some(env[v]) else None }

  /** Only the menu bar and the lock screen are put on the privileged display; everything else has the
      ordinary one, and so does what the menu bar launches. */
  lemma OnlyTheBarIsPrivileged(i: Inputs, n: Name)
    ensures n != MenuBar && n != Lock ==> Get(Spec(i, n).env, WaylandDisplay) == i.display
    ensures n == MenuBar || n == Lock ==>
      Get(Spec(i, n).env, WaylandDisplay) == if i.menubarDisplay.Some? then i.menubarDisplay else i.display
    ensures n == MenuBar ==>
      Get(Spec(i, n).env, AppWaylandDisplay) == if i.menubarDisplay.Some? then i.display else None
    ensures Get(Spec(i, n).env, RuntimeDir) == Some(i.dir)
  {
  }

  // -------------------------------------------------------------------- what each session is

  /** With nothing left out, each kind of session has these components, in this order. */
  lemma SessionsAre(i: Inputs)
    requires i.without == {}
    ensures Names(Components(i)) ==
      match i.mode
      case DesktopMode => [Bus, Portal, Bridge, Menus, Idle, Jails, Desktop, MenuBar, Dock]
      case InstallerMode => [Bus, Portal, Bridge, Menus, Desktop, Installer]
      case GreeterMode => [LoginWindow]
  {
    var services, keepers := [Bus, Portal, Bridge, Menus], [Idle, Jails];
    assert Everything(i.mode) == services + keepers + [] + Scenes(i.mode);
    InGroups(i, services, i.mode != GreeterMode, keepers, i.mode == DesktopMode, [], false, Scenes(i.mode), true);
  }

  /** A desktop without the bus has neither bridge nor menus. */
  lemma WithoutTheBus(i: Inputs)
    requires i.without == {Bus} && i.mode == DesktopMode
    ensures Names(Components(i)) == [Portal, Idle, Jails, Desktop, MenuBar, Dock]
  {
    var others := [Idle, Jails, Desktop, MenuBar, Dock];
    assert Everything(i.mode) == [Bus] + [Portal] + [Bridge, Menus] + others;
    InGroups(i, [Bus], false, [Portal], true, [Bridge, Menus], false, others, true);
  }

  /** Four stretches of the names, each part of the session as a whole or not at all. */
  lemma InGroups(i: Inputs, a: seq<Name>, hasA: bool, b: seq<Name>, hasB: bool, c: seq<Name>, hasC: bool, d: seq<Name>, hasD: bool)
    requires Everything(i.mode) == a + b + c + d
    requires (forall n :: n in a ==> Present(i, n) == hasA) && (forall n :: n in b ==> Present(i, n) == hasB)
    requires (forall n :: n in c ==> Present(i, n) == hasC) && (forall n :: n in d ==> Present(i, n) == hasD)
    ensures Names(Components(i)) ==
      (if hasA then a else []) + (if hasB then b else []) + (if hasC then c else []) + (if hasD then d else [])
  {
    NamesAreKept(i, Everything(i.mode));
    KeptConcat(i, a, b);
    KeptConcat(i, a + b, c);
    KeptConcat(i, a + b + c, d);
    AllOrNone(i, a, hasA);
    AllOrNone(i, b, hasB);
    AllOrNone(i, c, hasC);
    AllOrNone(i, d, hasD);
  }

  /** Those of the names that are part of the session. */
  function Kept(i: Inputs, names: seq<Name>): seq<Name> {
    if names == [] then [] else (if Present(i, names[0]) then [names[0]] else []) + Kept(i, names[1..])
  }

  lemma {:induction false} NamesAreKept(i: Inputs, names: seq<Name>)
    ensures Names(Planned(i, names)) == Kept(i, names)
    decreases |names|
  {
    if names != [] {
      NamesOfPlanned(i, names);
      NamesAreKept(i, names[1..]);
    }
  }

  lemma {:induction false} KeptConcat(i: Inputs, a: seq<Name>, b: seq<Name>)
    ensures Kept(i, a + b) == Kept(i, a) + Kept(i, b)
    decreases |a|
  {
    if a == [] {
      assert a + b == b;
    } else {
      assert (a + b)[1..] == a[1..] + b;
      KeptConcat(i, a[1..], b);
    }
  }

  lemma {:induction false} AllOrNone(i: Inputs, names: seq<Name>, all: bool)
    requires forall n :: n in names ==> Present(i, n) == all
    ensures Kept(i, names) == if all then names else []
    decreases |names|
  {
    if names != [] { AllOrNone(i, names[1..], all); }
  }

  /** The lock screen and the Setup Assistant belong to a desktop, and the Setup Assistant only until it is
      done; neither is a component. */
  lemma AsidesAre(i: Inputs)
    ensures Present(i, Lock) <==> i.mode == DesktopMode && Lock !in i.without
    ensures Present(i, Setup) <==> i.mode == DesktopMode && Setup !in i.without && !i.firstRunDone
    ensures Lock !in Names(Components(i)) && Setup !in Names(Components(i))
  {
    InNames(i, Everything(i.mode), Lock);
    InNames(i, Everything(i.mode), Setup);
  }

  /** The services' own binaries are run, and the shell for every scene. */
  lemma CommandsAre(i: Inputs, n: Name)
    ensures var argv := Spec(i, n).argv;
      && (n == Bus ==> argv == [i.services + "/abyss-dbus", "--endpoint", "--listen", i.dir + "/bus", "--services", i.dir + "/dbus-services"])
      && (n == Portal ==> argv == [i.services + "/abyss-portal"])
      && (n == Bridge ==> argv == [i.services + "/abyss-dbus"])
      && (n == Menus ==> argv == [i.services + "/abyss-dbus", "--menus"])
      && (n == Idle ==> argv == [i.services + "/abyss-idle"])
      && (n == Jails ==> argv == [i.services + "/abyss-jail", "serve"])
      && (n !in {Bus, Portal, Bridge, Menus, Idle, Jails} ==> argv == [i.shell])
  {
  }

  /** What each is told beside its display: only the shell its scene, only the bridge and its menus a bus,
      only what starts applications the shell's path. */
  lemma ToldAre(i: Inputs, n: Name)
    ensures var env := Spec(i, n).env;
      && (n == Desktop ==> Get(env, Scene) == Some("wallpaper")) && (n == MenuBar ==> Get(env, Scene) == Some("menubar"))
      && (n == Dock ==> Get(env, Scene) == Some("dock")) && (n == Lock ==> Get(env, Scene) == Some("lock"))
      && (n == Installer ==> Get(env, Scene) == Some("installer")) && (n == Setup ==> Get(env, Scene) == Some("setupassistant"))
      && (n == LoginWindow ==> Get(env, Scene) == Some("loginwindow"))
      && (Scene in env <==> n !in {Bus, Portal, Bridge, Menus, Idle, Jails})
      && Get(env, AppBinary) == (if n in {Bus, Portal, Bridge, Menus, Jails} then None else Some(i.shell))
      && Get(env, BusAddress) == (if n == Bridge || n == Menus then Some("unix:path=" + i.dir + "/dbus-services") else None)
  {
    assert UNIX + ServicesSocket(i.dir) == "unix:path=" + i.dir + "/dbus-services";
  }

  /** The shell waits for the compositor's socket when its path is known, the menu bar on a display of its
      own for that one's too; of the services only the bridge and its menus, for the bus, and the bridge for
      the portal. */
  lemma WaitsAre(i: Inputs, n: Name)
    ensures var needs := Spec(i, n).needs;
      && (n in {Bus, Portal, Lock} ==> needs == [])
      && (n == Bridge ==> needs == [i.dir + "/dbus-services"] + if LeftOut(i, Portal) then [] else [i.dir + "/portal.sock"])
      && (n == Menus ==> needs == [i.dir + "/dbus-services"])
      && (n in {Idle, Jails, Desktop, Dock, Installer, LoginWindow, Setup} ==>
            needs == if i.compositorSocket.Some? then [i.compositorSocket.value] else [])
      && (n == MenuBar ==> |needs| <= 2 && forall s :: s in needs <==>
            i.compositorSocket == Some(s) || (i.menubarDisplay.Some? && i.menubarSocket == Some(s)))
  {
  }
}
