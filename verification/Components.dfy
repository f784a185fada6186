/** Linux components in kmod/drm-msm/freebsd/msm_freebsd_platform.c: one master, bound once every one
    of its matches has a component, through binds that are undone in reverse. */
module Components {
  import opened Wrappers

  const SLOTS: nat := 4
  const ENOMEM: int := 12
  const EBUSY: int := 16
  const ENOSPC: int := 28

  /** A component table slot; free when dev is None, whatever ops still says. */
  datatype Slot = Slot(dev: Option<nat>, ops: nat)

  /** One match: what it wants (its compare function and data), whether it has a release function, and
      the component it was last given. */
  datatype Entry = Entry(want: nat, release: bool, dev: Option<nat>, ops: nat)

  type Compare = (nat, nat) -> bool

  /** What the code does to components, by match number. Opened and Released are about the match's
      resource group; Dropped is the match's own release function. */
  datatype Event =
    | Opened(i: nat)
    | Bound(i: nat, dev: nat, ops: nat)
    | Refused(i: nat)
    | Closed(i: nat)
    | Unbound(i: nat, dev: nat, ops: nat)
    | Released(i: nat)
    | Dropped(i: nat)

  // ------------------------------------------------------------------- finding components

  predicate Fits(cmp: Compare, want: nat, t: Slot) { t.dev.Some? && cmp(want, t.dev.value) }

  /** The first component a match accepts. */
  function Pick(cmp: Compare, comps: seq<Slot>, want: nat, from: nat): (j: nat)
    requires from <= |comps|
    ensures from <= j <= |comps| && (j < |comps| ==> Fits(cmp, want, comps[j]))
    ensures forall k :: from <= k < j ==> !Fits(cmp, want, comps[k])
    decreases |comps| - from
  {
    if from == |comps| || Fits(cmp, want, comps[from]) then from else Pick(cmp, comps, want, from + 1)
  }

  function Given(cmp: Compare, comps: seq<Slot>, e: Entry): Entry {
    var j := Pick(cmp, comps, e.want, 0);
    if j < |comps| then e.(dev := comps[j].dev, ops := comps[j].ops) else e.(dev := None)
  }

  /** The matches after looking for components from match i on, up to the first that has none. */
  function Resolve(cmp: Compare, comps: seq<Slot>, c: seq<Entry>, i: nat): (r: seq<Entry>)
    requires i <= |c|
    ensures |r| == |c|
    decreases |c| - i
  {
    if i == |c| then c
    else
      var now := c[i := Given(cmp, comps, c[i])];
      if now[i].dev == None then now else Resolve(cmp, comps, now, i + 1)
  }

  /** Every match has a component it accepts. */
  ghost predicate Complete(cmp: Compare, comps: seq<Slot>, c: seq<Entry>) {
    forall i :: 0 <= i < |c| ==> Pick(cmp, comps, c[i].want, 0) < |comps|
  }

  /** The match names a component that is in the table, with its operations, and that it accepts. */
  ghost predicate Named(cmp: Compare, comps: seq<Slot>, e: Entry) {
    e.dev.Some? && cmp(e.want, e.dev.value) && Slot(e.dev, e.ops) in comps
  }

  ghost predicate AllNamed(cmp: Compare, comps: seq<Slot>, c: seq<Entry>) {
    forall i :: 0 <= i < |c| ==> Named(cmp, comps, c[i])
  }

  lemma GivenIsNamed(cmp: Compare, comps: seq<Slot>, e: Entry)
    ensures Given(cmp, comps, e).dev.Some? <==> Pick(cmp, comps, e.want, 0) < |comps|
    ensures Given(cmp, comps, e).dev.Some? ==> Named(cmp, comps, Given(cmp, comps, e))
    ensures Given(cmp, comps, e).want == e.want && Given(cmp, comps, e).release == e.release
  {
    var j := Pick(cmp, comps, e.want, 0);
    if j < |comps| { assert comps[j] == Slot(comps[j].dev, comps[j].ops); }
  }

  /** The search names a component for every match exactly when each has one. */
  lemma {:induction false} ResolveNames(cmp: Compare, comps: seq<Slot>, c: seq<Entry>, i: nat)
    requires i <= |c| && forall k :: 0 <= k < i ==> Named(cmp, comps, c[k]) && Pick(cmp, comps, c[k].want, 0) < |comps|
    ensures var r := Resolve(cmp, comps, c, i);
      forall k :: 0 <= k < |c| ==> r[k].want == c[k].want && r[k].release == c[k].release
    ensures Complete(cmp, comps, c) ==> AllNamed(cmp, comps, Resolve(cmp, comps, c, i))
    ensures !Complete(cmp, comps, c) ==> exists k :: 0 <= k < |c| && Resolve(cmp, comps, c, i)[k].dev == None
    decreases |c| - i
  {
    if i < |c| {
      GivenIsNamed(cmp, comps, c[i]);
      var now := c[i := Given(cmp, comps, c[i])];
      if now[i].dev == None {
        assert Resolve(cmp, comps, c, i)[i].dev == None;
      } else {
        ResolveNames(cmp, comps, now, i + 1);
        assert Complete(cmp, comps, c) <==> Complete(cmp, comps, now) by {
          assert forall k :: 0 <= k < |c| ==> now[k].want == c[k].want;
        }
      }
    }
  }

  // ------------------------------------------------------------------------- binding order

  datatype Up = Up(dev: nat, ops: nat)

  /** Who is bound, in order; how many resource groups are held closed; and whether one is open. */
  datatype Devs = Devs(up: seq<Up>, held: nat, open: bool) | Broken

  const Nobody := Devs([], 0, false)

  /** One event; Broken if it is out of order: a bind outside its group, an unbind of anything but the
      last one bound, a group released under a bound component, a match dropped while it is in use. */
  function Play(d: Devs, e: Event): Devs {
    if d.Broken? then Broken else
    match e
    case Opened(i) => if !d.open && i == d.held == |d.up| then d.(open := true) else Broken
    case Bound(i, dev, ops) => if d.open && i == |d.up| then d.(up := d.up + [Up(dev, ops)]) else Broken
    case Refused(i) => if d.open && i == |d.up| then d else Broken
    case Closed(i) => if d.open && i == d.held && i + 1 == |d.up| then Devs(d.up, i + 1, false) else Broken
    case Unbound(i, dev, ops) =>
      if !d.open && i + 1 == |d.up| && d.up[i] == Up(dev, ops) then d.(up := d.up[..i]) else Broken
    case Released(i) =>
      if d.open && i == |d.up| then d.(open := false)
      else if !d.open && d.held == i + 1 && i == |d.up| then d.(held := i)
      else Broken
    case Dropped(i) => if d == Nobody then d else Broken
  }

  function Now(trace: seq<Event>): Devs
    decreases |trace|
  {
    if trace == [] then Nobody else Play(Now(trace[..|trace| - 1]), trace[|trace| - 1])
  }

  lemma NowOneMore(trace: seq<Event>, e: Event)
    ensures Now(trace + [e]) == Play(Now(trace), e)
  {
    assert (trace + [e])[..|trace|] == trace;
  }

  function UpOf(e: Entry): Up { Up(if e.dev.Some? then e.dev.value else 0, e.ops) }

  function Ups(c: seq<Entry>, n: nat): (r: seq<Up>)
    requires n <= |c|
    ensures |r| == n
  {
    if n == 0 then [] else Ups(c, n - 1) + [UpOf(c[n - 1])]
  }

  /** Matches 0 to n-1 are bound, in order, with their groups closed. */
  function BoundTo(c: seq<Entry>, n: nat): Devs
    requires n <= |c|
  {
    Devs(Ups(c, n), n, false)
  }

  function BindsOf(c: seq<Entry>, n: nat): seq<Event>
    requires n <= |c|
  {
    if n == 0 then []
    else BindsOf(c, n - 1) + BindOf(c, n - 1)
  }

  function UnbindOf(c: seq<Entry>, i: nat): seq<Event>
    requires i < |c|
  {
    [Unbound(i, UpOf(c[i]).dev, c[i].ops), Released(i)]
  }

  /** Matches n-1 down to 0 unbound, each with its group. */
  function UnbindsOf(c: seq<Entry>, n: nat): seq<Event>
    requires n <= |c|
  {
    if n == 0 then [] else UnbindOf(c, n - 1) + UnbindsOf(c, n - 1)
  }

  /** The same for the matches among them that have a component. */
  function UnbindsOfGiven(c: seq<Entry>, n: nat): seq<Event>
    requires n <= |c|
  {
    if n == 0 then []
    else if c[n - 1].dev.Some? then UnbindOf(c, n - 1) + UnbindsOfGiven(c, n - 1)
    else UnbindsOfGiven(c, n - 1)
  }

  lemma {:induction false} AllGiven(c: seq<Entry>, n: nat)
    requires n <= |c| && forall k :: 0 <= k < n ==> c[k].dev.Some?
    ensures UnbindsOfGiven(c, n) == UnbindsOf(c, n)
  {
    if n > 0 { AllGiven(c, n - 1); }
  }

  lemma BindPlays(c: seq<Entry>, n: nat, t: seq<Event>)
    requires n < |c| && Now(t) == BoundTo(c, n)
    ensures Now(t + BindOf(c, n)) == BoundTo(c, n + 1)
  {
    var e1, e2, e3 := Opened(n), Bound(n, UpOf(c[n]).dev, c[n].ops), Closed(n);
    NowOneMore(t, e1);
    NowOneMore(t + [e1], e2);
    NowOneMore(t + [e1] + [e2], e3);
    assert t + BindOf(c, n) == t + [e1] + [e2] + [e3];
  }

  lemma UnbindPlays(c: seq<Entry>, n: nat, t: seq<Event>)
    requires n < |c| && Now(t) == BoundTo(c, n + 1)
    ensures Now(t + UnbindOf(c, n)) == BoundTo(c, n)
  {
    var e1, e2 := Unbound(n, UpOf(c[n]).dev, c[n].ops), Released(n);
    NowOneMore(t, e1);
    NowOneMore(t + [e1], e2);
    assert Ups(c, n + 1)[..n] == Ups(c, n);
    assert t + UnbindOf(c, n) == t + [e1] + [e2];
  }

  lemma Regroup(a: seq<Event>, b: seq<Event>, c: seq<Event>)
    ensures a + (b + c) == a + b + c
  {
  }

  function BindOf(c: seq<Entry>, i: nat): seq<Event>
    requires i < |c|
  {
    [Opened(i), Bound(i, UpOf(c[i]).dev, c[i].ops), Closed(i)]
  }

  /** Binding n matches in order leaves exactly those bound, in that order. */
  lemma {:induction false} BindsPlay(c: seq<Entry>, n: nat, t: seq<Event>)
    requires n <= |c| && Now(t) == Nobody
    ensures Now(t + BindsOf(c, n)) == BoundTo(c, n)
  {
    if n == 0 {
      assert t + [] == t;
    } else {
      BindsPlay(c, n - 1, t);
      BindPlays(c, n - 1, t + BindsOf(c, n - 1));
      Regroup(t, BindsOf(c, n - 1), BindOf(c, n - 1));
    }
  }

  /** Unbinding them in reverse leaves nobody bound and no group held. */
  lemma {:induction false} UnbindsPlay(c: seq<Entry>, n: nat, t: seq<Event>)
    requires n <= |c| && Now(t) == BoundTo(c, n)
    ensures Now(t + UnbindsOf(c, n)) == Nobody
  {
    if n == 0 {
      assert t + [] == t;
    } else {
      UnbindPlays(c, n - 1, t);
      UnbindsPlay(c, n - 1, t + UnbindOf(c, n - 1));
      Regroup(t, UnbindOf(c, n - 1), UnbindsOf(c, n - 1));
    }
  }

  /** How match i fails: no memory for its group, or a bind that refuses and its group released. */
  function FailureOf(i: nat, refused: bool): seq<Event> {
    if refused then [Opened(i), Refused(i), Released(i)] else []
  }

  /** A bind_all that fails at match i has undone everything. */
  lemma FailedBindsPlay(c: seq<Entry>, i: nat, refused: bool, t: seq<Event>)
    requires i < |c| && Now(t) == Nobody
    ensures Now(t + BindsOf(c, i) + FailureOf(i, refused) + UnbindsOf(c, i)) == Nobody
  {
    BindsPlay(c, i, t);
    var t1 := t + BindsOf(c, i);
    if refused {
      NowOneMore(t1, Opened(i));
      NowOneMore(t1 + [Opened(i)], Refused(i));
      NowOneMore(t1 + [Opened(i)] + [Refused(i)], Released(i));
      assert t1 + FailureOf(i, refused) == t1 + [Opened(i)] + [Refused(i)] + [Released(i)];
    } else {
      assert t1 + FailureOf(i, refused) == t1;
    }
    UnbindsPlay(c, i, t1 + FailureOf(i, refused));
  }

  /** The release functions of the first n matches that have one. */
  function DropsOf(c: seq<Entry>, n: nat): seq<Event>
    requires n <= |c|
  {
    if n == 0 then [] else DropsOf(c, n - 1) + if c[n - 1].release then [Dropped(n - 1)] else []
  }

  /** Each match with a release function is released once, in order, and nothing else happens. */
  lemma {:induction false} DropsAre(c: seq<Entry>, n: nat)
    requires n <= |c|
    ensures var d := DropsOf(c, n);
      && (forall k :: 0 <= k < |d| ==> d[k].Dropped? && d[k].i < n && c[d[k].i].release)
      && (forall i: nat :: i < n && c[i].release ==> Dropped(i) in d)
      && (forall j, k :: 0 <= j < k < |d| ==> d[j].i < d[k].i)
  {
    if n > 0 {
      DropsAre(c, n - 1);
      var before, d := DropsOf(c, n - 1), DropsOf(c, n);
      assert d == before + if c[n - 1].release then [Dropped(n - 1)] else [];
      forall i: nat | i < n && c[i].release ensures Dropped(i) in d {
        if i == n - 1 { assert d[|d| - 1] == Dropped(i); } else { assert Dropped(i) in before; }
      }
    }
  }

  lemma {:induction false} DropsPlay(c: seq<Entry>, n: nat, t: seq<Event>)
    requires n <= |c| && Now(t) == Nobody
    ensures Now(t + DropsOf(c, n)) == Nobody
  {
    if n == 0 {
      assert t + [] == t;
    } else {
      DropsPlay(c, n - 1, t);
      var t1 := t + DropsOf(c, n - 1);
      NowOneMore(t1, Dropped(n - 1));
      assert t + DropsOf(c, n) == t1 + if c[n - 1].release then [Dropped(n - 1)] else [];
      assert t1 + [] == t1;
    }
  }

  /** The first free slot. */
  function Vacant(comps: seq<Slot>, from: nat): (j: nat)
    requires from <= |comps|
    ensures from <= j <= |comps| && (j < |comps| ==> comps[j].dev == None)
    ensures forall k :: from <= k < j ==> comps[k].dev.Some?
    decreases |comps| - from
  {
    if from == |comps| || comps[from].dev == None then from else Vacant(comps, from + 1)
  }

  /** The same components, in the same slots. */
  ghost predicate SameComponents(t: seq<Slot>, u: seq<Slot>) {
    |t| == |u| && forall j :: 0 <= j < |t| ==> t[j].dev == u[j].dev && (t[j].dev.Some? ==> t[j] == u[j])
  }

  lemma NamedStill(cmp: Compare, comps: seq<Slot>, c: seq<Entry>, j: nat, slot: Slot)
    requires AllNamed(cmp, comps, c) && j < |comps| && comps[j].dev == None
    ensures AllNamed(cmp, comps[j := slot], c)
  {
    forall i | 0 <= i < |c| ensures Named(cmp, comps[j := slot], c[i]) {
      assert Named(cmp, comps, c[i]);
      var k :| 0 <= k < |comps| && comps[k] == Slot(c[i].dev, c[i].ops);
      assert comps[j := slot][k] == Slot(c[i].dev, c[i].ops);
    }
  }

  // ------------------------------------------------------------------------------ the tables

  class Match {
    const master: nat
    var c: seq<Entry>

    constructor (m: nat)
      ensures master == m && c == []
    {
      master := m;
      c := [];
    }
  }

  /** What *matchptr holds: nothing yet, a match, or an error. */
  datatype MatchPtr = Null | Error(e: int) | At(m: Match)

  /** component_match_add_release: an error stays, and a fifth match makes one. */
  method MatchAdd(ptr: MatchPtr, master: nat, want: nat, release: bool) returns (q: MatchPtr)
    modifies if ptr.At? then {ptr.m} else {}
    ensures ptr.Error? ==> q == ptr
    ensures ptr.Null? ==> q.At? && fresh(q.m) && q.m.master == master && q.m.c == [Entry(want, release, None, 0)]
    ensures ptr.At? && old(|ptr.m.c|) == SLOTS ==> q == Error(-ENOSPC) && ptr.m.c == old(ptr.m.c)
    ensures ptr.At? && old(|ptr.m.c|) != SLOTS ==> q == ptr && ptr.m.c == old(ptr.m.c) + [Entry(want, release, None, 0)]
  {
    if ptr.Error? { return ptr; }
    var m: Match;
    if ptr.Null? { m := new Match(master); } else { m := ptr.m; }
    if |m.c| == SLOTS { return Error(-ENOSPC); }
    m.c := m.c + [Entry(want, release, None, 0)];
    return At(m);
  }

  class Components {
    const cmp: Compare
    const comps: array<Slot>
    var master: Option<nat>
    var matches: Match?
    var bound: bool
    ghost var trace: seq<Event>

    /** Bound means that every match names a component in the table, and that exactly these are bound;
        not bound means that none is. */
    ghost predicate Valid()
      reads this, comps, matches
    {
      && comps.Length == SLOTS
      && (master.Some? <==> matches != null)
      && (bound ==> matches != null && AllNamed(cmp, comps[..], matches.c))
      && Now(trace) == (if bound && matches != null then BoundTo(matches.c, |matches.c|) else Nobody)
    }

    constructor (compare: Compare)
      ensures Valid() && cmp == compare && master == None && fresh(comps) && trace == []
      ensures forall j :: 0 <= j < SLOTS ==> comps[j].dev == None
    {
      cmp := compare;
      comps := new Slot[SLOTS](j => Slot(None, 0));
      master := None;
      matches := null;
      bound := false;
      trace := [];
    }

    method Find(want: nat) returns (j: nat)
      ensures j == Pick(cmp, comps[..], want, 0)
    {
      j := 0;
      while j < comps.Length && !Fits(cmp, want, comps[j])
        invariant j <= comps.Length && Pick(cmp, comps[..], want, 0) == Pick(cmp, comps[..], want, j)
      {
        j := j + 1;
      }
    }

    /** The search of msm_fbsd_try_bind, which stops at the first match without a component. */
    method GiveComponents(m: Match) returns (all: bool)
      modifies m
      ensures m.c == Resolve(cmp, comps[..], old(m.c), 0)
      ensures all <==> forall k :: 0 <= k < |m.c| ==> m.c[k].dev.Some?
    {
      for i := 0 to |m.c|
        invariant |m.c| == |old(m.c)| && Resolve(cmp, comps[..], old(m.c), 0) == Resolve(cmp, comps[..], m.c, i)
        invariant forall k :: 0 <= k < i ==> m.c[k].dev.Some?
      {
        var j := Find(m.c[i].want);
        var e := m.c[i];
        if j == comps.Length {
          m.c := m.c[i := e.(dev := None)];
          assert m.c[i].dev == None;
          return false;
        }
        m.c := m.c[i := e.(dev := comps[j].dev, ops := comps[j].ops)];
      }
      return true;
    }

    /** component_bind_all: every match in order, or the first failure and what came before it undone. */
    method BindAll(m: Match) returns (error: int, ghost at: nat, ghost refused: bool)
      modifies this`trace
      ensures error == 0 ==> trace == old(trace) + BindsOf(m.c, |m.c|)
      ensures error != 0 ==> at < |m.c|
      ensures error != 0 && at < |m.c| ==> trace == old(trace) + BindsOf(m.c, at) + FailureOf(at, refused) + UnbindsOf(m.c, at)
    {
      var i := 0;
      at, refused, error := 0, false, 0;
      while i < |m.c|
        invariant i <= |m.c| && trace == old(trace) + BindsOf(m.c, i)
      {
        var memory: bool := *;
        if !memory {
          error, refused := -ENOMEM, false;
        } else {
          trace := trace + [Opened(i)];
          error := *;
          if error != 0 {
            trace, refused := trace + [Refused(i), Released(i)], true;
          }
        }
        if error != 0 {
          at := i;
          ghost var failed := old(trace) + BindsOf(m.c, at) + FailureOf(at, refused);
          assert trace == failed;
          UnbindDown(m, i);
          return;
        }
        trace := trace + [Bound(i, UpOf(m.c[i]).dev, m.c[i].ops), Closed(i)];
        i := i + 1;
      }
      return 0, at, refused;
    }

    /** Matches n-1 down to 0, each unbound and its group released. */
    method UnbindDown(m: Match, n: nat)
      requires n <= |m.c|
      modifies this`trace
      ensures trace == old(trace) + UnbindsOf(m.c, n)
    {
      var i := n;
      while i > 0
        invariant 0 <= i <= n && trace + UnbindsOf(m.c, i) == old(trace) + UnbindsOf(m.c, n)
      {
        i := i - 1;
        trace := trace + UnbindOf(m.c, i);
      }
    }

    /** component_unbind_all: every match that has a component, last first. */
    method UnbindAll(m: Match)
      modifies this`trace
      ensures trace == old(trace) + UnbindsOfGiven(m.c, |m.c|)
    {
      var i := |m.c|;
      while i > 0
        invariant 0 <= i <= |m.c| && trace + UnbindsOfGiven(m.c, i) == old(trace) + UnbindsOfGiven(m.c, |m.c|)
      {
        i := i - 1;
        if m.c[i].dev.Some? {
          trace := trace + UnbindOf(m.c, i);
        }
      }
    }

    /** The master's bind: it may fail before component_bind_all, in it, or after it; when after, it
        calls component_unbind_all. */
    method MasterBind(m: Match) returns (error: int)
      requires Now(trace) == Nobody
      requires forall k :: 0 <= k < |m.c| ==> m.c[k].dev.Some?
      modifies this`trace
      ensures Now(trace) == if error == 0 then BoundTo(m.c, |m.c|) else Nobody
    {
      error := *;
      if error != 0 { return; }
      ghost var was := trace;
      ghost var at, refused;
      error, at, refused := BindAll(m);
      if error != 0 {
        FailedBindsPlay(m.c, at, refused, was);
        return;
      }
      BindsPlay(m.c, |m.c|, was);
      error := *;
      if error != 0 {
        UnbindsPlay(m.c, |m.c|, trace);
        AllGiven(m.c, |m.c|);
        UnbindAll(m);
      }
    }

    /** The master's unbind: it calls component_unbind_all. */
    method MasterUnbind(m: Match)
      requires Now(trace) == BoundTo(m.c, |m.c|)
      requires forall k :: 0 <= k < |m.c| ==> m.c[k].dev.Some?
      modifies this`trace
      ensures Now(trace) == Nobody
    {
      UnbindsPlay(m.c, |m.c|, trace);
      AllGiven(m.c, |m.c|);
      UnbindAll(m);
    }

    /** Binds the master if every match has a component: without a master, or with a bound one, nothing
        happens; a failed bind leaves nobody bound. */
    method TryBind() returns (error: int)
      requires Valid()
      modifies this`trace, this`bound, matches
      ensures Valid()
      ensures old(matches) == null || old(bound) ==>
        error == 0 && bound == old(bound) && trace == old(trace) && (matches != null ==> matches.c == old(matches.c))
      ensures matches != null && !old(bound) ==> matches.c == Resolve(cmp, comps[..], old(matches.c), 0)
      ensures matches != null && !old(bound) && !Complete(cmp, comps[..], old(matches.c)) ==> error == 0 && !bound
      ensures matches != null && !old(bound) && Complete(cmp, comps[..], old(matches.c)) ==> (bound <==> error == 0)
    {
      if master == None || bound { return 0; }
      ResolveNames(cmp, comps[..], matches.c, 0);
      var all := GiveComponents(matches);
      if !all { return 0; }
      error := MasterBind(matches);
      if error == 0 { bound := true; }
    }

    /** Forget the master; each of its matches with a release function is dropped, once, in order. */
    method MasterFree()
      requires Now(trace) == Nobody
      modifies this`trace, this`master, this`matches, this`bound
      ensures master == None && matches == null && !bound && Now(trace) == Nobody
      ensures trace == old(trace) + if old(matches) == null then [] else DropsOf(old(matches.c), |old(matches.c)|)
    {
      var i := 0;
      if matches != null { DropsPlay(matches.c, |matches.c|, trace); }
      while matches != null && i < |matches.c|
        invariant matches == old(matches) && (matches != null ==> i <= |matches.c|)
        invariant matches != null ==> trace == old(trace) + DropsOf(matches.c, i)
        invariant matches == null ==> trace == old(trace)
      {
        if matches.c[i].release { trace := trace + [Dropped(i)]; }
        i := i + 1;
      }
      master, matches, bound := None, null, false;
    }

    /** component_master_add_with_match: registers a master and tries to bind it; if that fails it is forgotten. */
    method MasterAdd(dev: nat, ptr: MatchPtr) returns (error: int)
      requires Valid() && !ptr.Null?
      modifies this`master, this`matches, this`bound, this`trace, if ptr.At? then {ptr.m} else {}
      ensures Valid()
      ensures ptr.Error? || old(master).Some? ==>
        error == (if ptr.Error? then ptr.e else -EBUSY) && master == old(master) && matches == old(matches)
      ensures ptr.Error? || old(master).Some? ==> bound == old(bound) && trace == old(trace)
      ensures ptr.At? && old(master).Some? ==> ptr.m.c == old(ptr.m.c)
      ensures ptr.At? && old(master) == None && error != 0 ==> master == None && matches == null && !bound
      ensures ptr.At? && old(master) == None && error != 0 ==> Complete(cmp, comps[..], old(ptr.m.c))
      ensures ptr.At? && old(master) == None && error == 0 ==> master == Some(dev) && matches == ptr.m
      ensures ptr.At? && old(master) == None && error == 0 ==> (bound <==> Complete(cmp, comps[..], old(ptr.m.c)))
    {
      if ptr.Error? { return ptr.e; }
      if master.Some? { return -EBUSY; }
      master, matches, bound := Some(dev), ptr.m, false;
      error := TryBind();
      if error != 0 { MasterFree(); }
    }

    /** component_master_del: unbind, then forget. Another master's deletion does nothing. */
    method MasterDel(dev: nat)
      requires Valid()
      modifies this`master, this`matches, this`bound, this`trace
      ensures Valid()
      ensures old(master) == Some(dev) ==> master == None && !bound
      ensures old(master) != Some(dev) ==>
        master == old(master) && matches == old(matches) && bound == old(bound) && trace == old(trace)
    {
      if master != Some(dev) { return; }
      if bound { MasterUnbind(matches); }
      MasterFree();
    }

    /** component_add: the first free slot, taken back when the bind that the component completes fails. */
    method ComponentAdd(dev: nat, ops: nat) returns (error: int)
      requires Valid()
      modifies this`trace, this`bound, comps, matches
      ensures Valid()
      ensures error != 0 ==> SameComponents(comps[..], old(comps[..])) && bound == old(bound)
      ensures Vacant(old(comps[..]), 0) == SLOTS ==> error == -ENOSPC && trace == old(trace)
      ensures error == 0 ==> Vacant(old(comps[..]), 0) < SLOTS
      ensures error == 0 && Vacant(old(comps[..]), 0) < SLOTS ==>
        comps[..] == old(comps[..])[Vacant(old(comps[..]), 0) := Slot(Some(dev), ops)]
      ensures error == 0 && matches != null ==> (bound <==> old(bound) || Complete(cmp, comps[..], old(matches.c)))
    {
      for j := 0 to SLOTS
        invariant Valid() && trace == old(trace) && bound == old(bound) && comps[..] == old(comps[..])
        invariant matches != null ==> matches.c == old(matches.c)
        invariant Vacant(old(comps[..]), 0) == Vacant(old(comps[..]), j)
      {
        if comps[j].dev == None {
          if bound { NamedStill(cmp, comps[..], matches.c, j, Slot(Some(dev), ops)); }
          comps[j] := Slot(Some(dev), ops);
          assert comps[..] == old(comps[..])[j := Slot(Some(dev), ops)];
          error := TryBind();
          if error != 0 { comps[j] := comps[j].(dev := None); }
          return;
        }
      }
      error := -ENOSPC;
    }

    /** component_del: the master is unbound first, whichever device it is. */
    method ComponentDel(dev: nat)
      requires Valid()
      modifies this`trace, this`bound, comps
      ensures Valid() && !bound
      ensures forall j :: 0 <= j < SLOTS ==>
        comps[j] == if old(comps[j]).dev == Some(dev) then Slot(None, old(comps[j]).ops) else old(comps[j])
    {
      if bound {
        MasterUnbind(matches);
        bound := false;
      }
      for j := 0 to SLOTS
        invariant Valid() && !bound
        invariant forall k :: 0 <= k < j ==>
          comps[k] == if old(comps[k]).dev == Some(dev) then Slot(None, old(comps[k]).ops) else old(comps[k])
        invariant forall k :: j <= k < SLOTS ==> comps[k] == old(comps[k])
      {
        if comps[j].dev == Some(dev) { comps[j] := comps[j].(dev := None); }
      }
    }
  }
}
