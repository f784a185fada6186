/** The supervisor's ledger of child processes: every handle it holds, how many children it has started
    and which it has waited for. */
module Children {
  import opened Wrappers

  /** A Child of abyss_sys::proc: live while its descriptor is open, that is until it is reaped. */
  datatype Child = Child(id: nat, live: bool)

  type Handle = Option<Child>

  predicate Live(h: Handle) { h.Some? && h.value.live }

  function Reaped(h: Handle): Handle {
    if h.Some? then Some(h.value.(live := false)) else h
  }

  ghost predicate Distinct(ids: seq<nat>) {
    forall i, j :: 0 <= i < j < |ids| ==> ids[i] != ids[j]
  }

  ghost predicate Held(hs: seq<Handle>, id: nat) {
    exists k :: 0 <= k < |hs| && hs[k] == Some(Child(id, true))
  }

  /** Children 0..spawned-1 have been started; each is either reaped, once, or held live by exactly one
      handle. */
  ghost predicate Conserved(hs: seq<Handle>, spawned: nat, reaped: seq<nat>) {
    var numbered := (forall k :: 0 <= k < |hs| && hs[k].Some? ==> hs[k].value.id < spawned) && forall id :: id in reaped ==> id < spawned;
    var held := forall id :: 0 <= id < spawned && id !in reaped ==> Held(hs, id);
    var once := Distinct(reaped) && forall j, k :: 0 <= j < k < |hs| && Live(hs[j]) && Live(hs[k]) ==> hs[j].value.id != hs[k].value.id;
    numbered && held && once && forall k :: 0 <= k < |hs| && Live(hs[k]) ==> hs[k].value.id !in reaped
  }

  function Logged(h: Handle): seq<nat> {
    if Live(h) then [h.value.id] else []
  }

  /** More children have been reaped, all of them with numbers below the bound. */
  ghost predicate ReapedBelow(was: seq<nat>, now: seq<nat>, bound: nat) {
    var later := was <= now;
    later && forall k :: |was| <= k < |now| ==> now[k] < bound
  }

  lemma ReapedOn(was: seq<nat>, since: seq<nat>, now: seq<nat>, bound: nat)
    requires ReapedBelow(was, since, bound) && ReapedBelow(since, now, bound)
    ensures ReapedBelow(was, now, bound)
  {
  }

  lemma ReapConserves(hs: seq<Handle>, spawned: nat, reaped: seq<nat>, k: nat)
    requires k < |hs| && Conserved(hs, spawned, reaped)
    ensures Conserved(hs[k := Reaped(hs[k])], spawned, reaped + Logged(hs[k]))
  {
    var hs' := hs[k := Reaped(hs[k])];
    if Live(hs[k]) {
      var reaped' := reaped + [hs[k].value.id];
      forall id | 0 <= id < spawned && id !in reaped'
        ensures Held(hs', id)
      {
        var j :| 0 <= j < |hs| && hs[j] == Some(Child(id, true));
        assert hs'[j] == Some(Child(id, true));
      }
    } else {
      assert reaped + [] == reaped;
      forall id | 0 <= id < spawned && id !in reaped
        ensures Held(hs', id)
      {
        var j :| 0 <= j < |hs| && hs[j] == Some(Child(id, true));
        assert hs'[j] == Some(Child(id, true));
      }
    }
  }

  /** A new child may only take the place of a handle that is not live. */
  lemma SpawnConserves(hs: seq<Handle>, spawned: nat, reaped: seq<nat>, k: nat)
    requires k < |hs| && !Live(hs[k]) && Conserved(hs, spawned, reaped)
    ensures Conserved(hs[k := Some(Child(spawned, true))], spawned + 1, reaped)
  {
    var hs' := hs[k := Some(Child(spawned, true))];
    forall id | 0 <= id < spawned + 1 && id !in reaped
      ensures Held(hs', id)
    {
      if id == spawned {
        assert hs'[k] == Some(Child(id, true));
      } else {
        var j :| 0 <= j < |hs| && hs[j] == Some(Child(id, true));
        assert hs'[j] == Some(Child(id, true));
      }
    }
  }

  /** Overwriting a live handle loses its child for good: no reaping of handles can make it up. */
  lemma OverwritingLoses(hs: seq<Handle>, spawned: nat, reaped: seq<nat>, k: nat)
    requires k < |hs| && Live(hs[k]) && Conserved(hs, spawned, reaped)
    ensures !Conserved(hs[k := Some(Child(spawned, true))], spawned + 1, reaped)
  {
    var hs' := hs[k := Some(Child(spawned, true))];
    var id := hs[k].value.id;
    forall j | 0 <= j < |hs'| ensures hs'[j] != Some(Child(id, true)) {
      if j < k { assert hs'[j] == hs[j]; } else if j > k { assert hs'[j] == hs[j]; }
    }
  }

  /** With no live handle left, every child ever started has been reaped exactly once. */
  lemma AllReaped(hs: seq<Handle>, spawned: nat, reaped: seq<nat>)
    requires Conserved(hs, spawned, reaped) && forall k :: 0 <= k < |hs| ==> !Live(hs[k])
    ensures Distinct(reaped) && forall id: nat :: id in reaped <==> id < spawned
  {
  }

  lemma LiveIsNumbered(hs: seq<Handle>, spawned: nat, reaped: seq<nat>, k: nat)
    requires k < |hs| && Live(hs[k]) && Conserved(hs, spawned, reaped)
    ensures hs[k].value.id < spawned && hs[k].value.id !in reaped
  {
  }
}
