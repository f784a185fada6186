/** One round of the poll loop of desktop/de/anchor/src/supervisor.rs: what each ready entry does to the
    lock screen's child, to its open pipe and to the number of children started, and for which child a
    report about the pipe is acted on. And the loop: one round after the other. */
module PollRound {
  import opened Wrappers
  import opened Children
  import opened LockStream
  import opened RestartLimits
  import opened SystemCalls

  datatype Owner = Compositor | Component(i: nat) | Control | Lock | LockPipe | FirstRun | Signal

  /** The order the descriptors are polled and handled in. */
  function Class(o: Owner): nat {
    match o
    case Compositor => 0
    case Component(_) => 1
    case Control => 2
    case Lock => 3
    case LockPipe => 4
    case FirstRun => 5
    case Signal => 6
  }

  predicate Before(o: Owner, p: Owner) { Class(o) < Class(p) || (o.Component? && p.Component? && o.i < p.i) }

  predicate Ordered(os: seq<Owner>)
    decreases |os|
  {
    |os| <= 1 || (Ordered(os[..|os| - 1]) && Before(os[|os| - 2], os[|os| - 1]))
  }

  lemma {:induction false} OrderedAt(os: seq<Owner>, j: nat, k: nat)
    requires Ordered(os) && j < k < |os|
    ensures Before(os[j], os[k])
    decreases |os|
  {
    var front := os[..|os| - 1];
    if k < |os| - 1 {
      OrderedAt(front, j, k);
    } else if j < |os| - 2 {
      OrderedAt(front, j, |os| - 2);
    }
  }

  /** The lock screen's live child, the child that writes to the open pipe, all that the current lock screen
      has been heard to write, and how many children have been started: the next one gets that number. */
  datatype View = View(lock: Option<nat>, pipe: Option<nat>, heard: string, spawned: nat)

  /** What one call of poll finds: whose descriptors are ready, and what reading them brings: the request
      that has arrived, what the lock screen's pipe gives, what it gives when the lock screen has exited, and
      whether there is a signal. */
  datatype News = News(ready: set<Owner>, request: Option<string>, got: seq<Reading>, last: seq<Reading>, signal: bool)

  /** How the session came to end. */
  datatype End = Going | GaveUp(i: nat) | NotRestarted(i: nat) | CompositorLeft | Asked | Signalled

  /** What became of a component that exited: the compositor had left with it; it was given up on; it is
      back, since a time; or it could not be started again, and whether the compositor turned out to have
      left; with what was asked in trying. */
  datatype Fate = WithCompositor | GivenUp | Back(startedAt: real) | Stuck(gone: bool, asked: seq<Query>)

  /** The end of a component's run: when it was started, when it was noticed to have exited, and how long
      the runs before it lasted that it was restarted after. */
  datatype RunEnd = RunEnd(startedAt: real, t: real, runs: seq<real>, fate: Fate)

  /** How long each run has lasted, this one included. */
  function AllRuns(r: RunEnd): seq<real> { r.runs + [r.t - r.startedAt] }

  /** Unless the compositor left with it, it is given up on exactly when it has exited more often than is
      allowed in a row and its last so many runs were all unhealthy. */
  ghost predicate Judged(p: Policy, r: RunEnd) {
    !r.fate.WithCompositor? ==>
      (r.fate.GivenUp? <==> |AllRuns(r)| >= p.maxFailures + 1 && LastUnhealthy(p, AllRuns(r), p.maxFailures))
  }

  predicate Retried(f: Fate) { f.Back? || f.Stuck? }

  /** What the end of a run asks of the system, in order: whether the compositor is gone too, and then what
      starting the component again asks. */
  function EndQueries(spec: Spec, live: bool, f: Fate): seq<Query> {
    Leaving(live, f.WithCompositor?) + Asks(spec, live, f)
  }

  function Asks(spec: Spec, live: bool, f: Fate): seq<Query> {
    match f
    case WithCompositor => []
    case GivenUp => []
    case Back(_) => Waits(spec.needs) + [Forks(spec, true)]
    case Stuck(gone, asked) => asked + Leaving(live, gone)
  }

  /** The end of a run is asked about in full: the compositor first, and then the sockets in turn and the
      process, up to the first that is not there. */
  lemma EndAsks(spec: Spec, live: bool, f: Fate)
    requires f.Stuck? ==> Starting(spec, false, f.asked)
    ensures var q := EndQueries(spec, live, f);
      && (live ==> q != [] && q[0] == Gone(f.WithCompositor?))
      && (f.Back? ==> q[|q| - 1] == Forks(spec, true) && forall k :: 0 <= k < |spec.needs| ==> Accepts(spec.needs[k], true) in q)
      && (f.Stuck? && live ==> q[|q| - 1] == Gone(f.gone))
      && (Forks(spec, true) in q <==> f.Back?)
  {
    var q := EndQueries(spec, live, f);
    if f.Back? {
      var first := |Leaving(live, false)|;
      forall k | 0 <= k < |spec.needs| ensures Accepts(spec.needs[k], true) in q {
        assert q[first + k] == Waits(spec.needs)[k];
      }
    }
  }

  /** What an entry did. A request: which one, and whether it started a lock screen. A lock screen's exit:
      whether the compositor is gone too, what was still read from it, its last words, how many crashes the
      last minute then holds, and whether a new one was started. Both with what was asked in starting it. */
  datatype Deed =
    | Exits(run: RunEnd)
    | Request(what: Option<string>, locks: bool, asked: seq<Query>)
    | Dies(gone: bool, got: seq<Reading>, said: Option<string>, recent: nat, starts: bool, asked: seq<Query>)
    | Reads(got: seq<Reading>)
    | Signals(one: bool)
    | Other

  datatype Entry = Entry(owner: Owner, deed: Deed)

  /** What the end of component i's run says of the session's. */
  function EndOf(i: nat, f: Fate): End {
    match f
    case WithCompositor => CompositorLeft
    case GivenUp => GaveUp(i)
    case Back(_) => Going
    case Stuck(gone, _) => if gone then CompositorLeft else NotRestarted(i)
  }

  /** The exit code is 1 exactly when a component was given up on or could not be restarted. */
  function CodeOf(e: End): int { if e.GaveUp? || e.NotRestarted? then 1 else 0 }

  /** What a request asks for. */
  datatype Call = AsksStatus | AsksQuit | AsksLock | AsksNothing

  function CallOf(what: Option<string>): Call {
    if what == Some("status") then AsksStatus
    else if what == Some("quit") || what == Some("shutdown") then AsksQuit
    else if what == Some("lock") then AsksLock
    else AsksNothing
  }

  /** What a lock screen's last words are: a crash, unless they say otherwise. */
  datatype Parting = Unlocked | NotLocked | Crash

  function PartingOf(said: Option<string>): Parting {
    if said == Some("unlocked") then Unlocked else if said == Some("refused") then NotLocked else Crash
  }

  /** What an entry says of the session's end. */
  function Ends(e: Entry): End {
    match e.deed
    case Exits(run) => if e.owner.Component? then EndOf(e.owner.i, run.fate) else Going
    case Request(what, _, _) => if CallOf(what).AsksQuit? then Asked else Going
    case Dies(gone, _, _, _, _, _) => if gone then CompositorLeft else Going
    case Reads(_) => Going
    case Signals(one) => if one then Signalled else Going
    case Other => if e.owner.Compositor? then CompositorLeft else Going
  }

  /** A session ends with the compositor, reported itself or found gone when another child ends; with a component
      that is given up on or cannot be started again; when it is asked to; and by a signal. Only a component's
      end makes its exit code 1. */
  lemma EndsIff(e: Entry)
    requires e.deed.Exits? ==> e.owner.Component?
    ensures Ends(e) == Signalled <==> e.deed == Signals(true)
    ensures Ends(e) == Asked <==> e.deed.Request? && (e.deed.what == Some("quit") || e.deed.what == Some("shutdown"))
    ensures Ends(e) == CompositorLeft <==>
      || (e.owner == Compositor && e.deed == Other)
      || (e.deed.Dies? && e.deed.gone)
      || (e.deed.Exits? && (e.deed.run.fate.WithCompositor? || (e.deed.run.fate.Stuck? && e.deed.run.fate.gone)))
    ensures CodeOf(Ends(e)) == 1 <==>
      e.deed.Exits? && (e.deed.run.fate.GivenUp? || (e.deed.run.fate.Stuck? && !e.deed.run.fate.gone))
    ensures CodeOf(Ends(e)) == 0 || CodeOf(Ends(e)) == 1
  {
    if e.deed.Request? { WordsAre(e.deed.what); }
  }

  /** The words that are looked for, in a request and in a lock screen's output; anything else asks for nothing,
      and is a crash. */
  lemma WordsAre(word: Option<string>)
    ensures CallOf(word) == AsksStatus <==> word == Some("status")
    ensures CallOf(word) == AsksQuit <==> word == Some("quit") || word == Some("shutdown")
    ensures CallOf(word) == AsksLock <==> word == Some("lock")
    ensures PartingOf(word) == Unlocked <==> word == Some("unlocked")
    ensures PartingOf(word) == NotLocked <==> word == Some("refused")
  {
    assert "quit" != "status" && "shutdown"[1] != "status"[1] && "lock" != "status" && "lock" != "quit" && |"shutdown"| == 8;
  }

  /** The lock screen is started again: it crashed, within the limit, and could be started. */
  predicate Again(d: Deed) { d.Dies? && !d.gone && PartingOf(d.said).Crash? && d.recent <= 5 && d.starts }

  function NewLock(v: View): View { View(Some(v.spawned), Some(v.spawned), "", v.spawned + 1) }

  /** All that the lock screen has been heard to write, with what is read now if the pipe is still open. */
  function Hearing(v: View, got: seq<Reading>): string { if v.pipe.Some? then v.heard + Gathered(got) else v.heard }

  function Next(v: View, d: Deed): View {
    match d
    case Exits(run) => if run.fate.Back? then v.(spawned := v.spawned + 1) else v
    case Request(_, locks, _) => if locks then NewLock(v) else v
    case Dies(_, got, _, _, _, _) => if Again(d) then NewLock(v) else View(None, None, Hearing(v, got), v.spawned)
    case Reads(got) => v.(heard := Hearing(v, got), pipe := if Closed(got) then None else v.pipe)
    case Signals(_) => v
    case Other => v
  }

  /** A read adds what arrives while the pipe is open and closes it at its end; a lock screen that has died has
      no pipe, and one started again is the next child, unheard; a component that is back is the next child. */
  lemma NextIs(v: View, d: Deed)
    ensures var n := Next(v, d);
      && (d.Reads? ==> n.lock == v.lock && n.spawned == v.spawned)
      && (d.Reads? && v.pipe.Some? ==> n.heard == v.heard + Gathered(d.got) && n.pipe == if Closed(d.got) then None else v.pipe)
      && (d.Reads? && v.pipe == None ==> n == v)
      && (d.Dies? && !Again(d) ==> n.lock == None && n.pipe == None && n.spawned == v.spawned)
      && (Again(d) || (d.Request? && d.locks) ==>
           n.lock == Some(v.spawned) && n.pipe == Some(v.spawned) && n.heard == "" && n.spawned == v.spawned + 1)
      && (d.Request? && !d.locks ==> n == v)
      && (d.Exits? ==> n == v.(spawned := v.spawned + if d.run.fate.Back? then 1 else 0))
      && (d.Signals? || d.Other? ==> n == v)
  {
  }

  /** Which owner does what: what it does is what poll and the reads have told, a run is judged by its length
      and those before it, a request starts a lock screen only while none is live, and a lock screen's last
      words are the last of everything it was heard to write. */
  ghost predicate Fits(p: Policy, news: News, v: View, e: Entry) {
    match e.deed
    case Exits(run) => e.owner.Component? && Judged(p, run)
    case Request(what, locks, _) => e.owner.Control? && what == news.request && (locks ==> v.lock == None)
    case Dies(_, got, said, _, _, _) => e.owner.Lock? && got == news.last && said == Outcome(Lines(Hearing(v, got)))
    case Reads(got) => e.owner.LockPipe? && got == news.got
    case Signals(one) => e.owner.Signal? && one == news.signal
    case Other => e.owner.Compositor? || e.owner.FirstRun?
  }

  function Through(v: View, es: seq<Entry>): View
    decreases |es|
  {
    if es == [] then v else Next(Through(v, es[..|es| - 1]), es[|es| - 1].deed)
  }

  /** The entries handled in a round, in the order of their descriptors; only the last may end the session. */
  ghost predicate Handled(p: Policy, news: News, v: View, es: seq<Entry>)
    decreases |es|
  {
    es == [] ||
    (var front, e := es[..|es| - 1], es[|es| - 1];
     && Handled(p, news, v, front) && Fits(p, news, Through(v, front), e)
     && (front != [] ==> Follows(front[|front| - 1], e)))
  }

  predicate Follows(last: Entry, e: Entry) { Before(last.owner, e.owner) && Ends(last) == Going }

  lemma OneMore(p: Policy, news: News, v: View, es: seq<Entry>, e: Entry)
    requires Handled(p, news, v, es) && Fits(p, news, Through(v, es), e) && (es != [] ==> Follows(es[|es| - 1], e))
    ensures Handled(p, news, v, es + [e]) && Through(v, es + [e]) == Next(Through(v, es), e.deed)
  {
    assert (es + [e])[..|es|] == es;
  }

  /** While the pipe is open the child that writes to it is the live lock screen. */
  predicate Consistent(v: View) { v.pipe.Some? ==> v.lock == v.pipe && v.pipe.value < v.spawned }

  predicate Revived(es: seq<Entry>) { exists j :: 0 <= j < |es| && Again(es[j].deed) }

  predicate LockDied(es: seq<Entry>) { exists j :: 0 <= j < |es| && es[j].owner == Lock }

  /** What one entry before the pipe's own does to it. */
  lemma PipeStep(p: Policy, news: News, u: View, e: Entry)
    requires Fits(p, news, u, e) && Class(e.owner) <= 3
    ensures Again(e.deed) ==> e.owner == Lock
    ensures Next(u, e.deed).spawned >= u.spawned
    ensures e.owner != Lock && u.lock.Some? ==> Next(u, e.deed).lock == u.lock && Next(u, e.deed).pipe == u.pipe
    ensures e.owner == Lock ==> Next(u, e.deed).pipe == if Again(e.deed) then Some(u.spawned) else None
  {
  }

  /** How the pipe that was polled stands after the entries before its own. */
  lemma {:induction false} PipeAfter(p: Policy, news: News, v: View, es: seq<Entry>)
    requires Consistent(v) && v.pipe.Some? && Handled(p, news, v, es)
    requires es != [] ==> Before(es[|es| - 1].owner, LockPipe)
    ensures var u := Through(v, es);
      && u.spawned >= v.spawned
      && (!LockDied(es) ==> u.lock == v.lock && u.pipe == v.pipe)
      && (LockDied(es) ==> es[|es| - 1].owner == Lock)
      && (LockDied(es) && !Revived(es) ==> u.pipe == None)
      && (Revived(es) ==> LockDied(es) && u.pipe.Some? && u.pipe.value >= v.spawned)
    decreases |es|
  {
    if es != [] {
      var front, e := es[..|es| - 1], es[|es| - 1];
      PipeAfter(p, news, v, front);
      PipeStep(p, news, Through(v, front), e);
      assert es == front + [e];
      assert LockDied(es) <==> LockDied(front) || e.owner == Lock;
      assert Revived(es) <==> Revived(front) || Again(e.deed);
    }
  }

  lemma {:induction false} HandledPrefix(p: Policy, news: News, v: View, es: seq<Entry>, k: nat)
    requires Handled(p, news, v, es) && k < |es|
    ensures Handled(p, news, v, es[..k]) && (k > 0 ==> Before(es[k - 1].owner, es[k].owner))
    decreases |es|
  {
    var front := es[..|es| - 1];
    if k < |front| {
      HandledPrefix(p, news, v, front, k);
      assert front[..k] == es[..k];
    }
  }

  /** For which child the pipe's report is acted on: the one polled, exactly if the lock screen's exit was
      not handled before it in the round; nobody, exactly if it was and the lock screen was not started
      again; and a child started later in that very round, exactly if it was. */
  ghost predicate PipeReport(v: View, es: seq<Entry>, k: nat)
    requires k < |es|
  {
    var pipe := Through(v, es[..k]).pipe;
    && (pipe == v.pipe <==> !LockDied(es[..k]))
    && (pipe == None <==> LockDied(es[..k]) && !Revived(es[..k]))
    && (pipe.Some? && pipe.value >= v.spawned <==> Revived(es[..k]))
  }

  lemma PipeReportIs(p: Policy, news: News, v: View, es: seq<Entry>, k: nat)
    requires Consistent(v) && v.pipe.Some? && Handled(p, news, v, es) && k < |es| && es[k].owner == LockPipe
    ensures PipeReport(v, es, k)
  {
    HandledPrefix(p, news, v, es, k);
    PipeAfter(p, news, v, es[..k]);
  }

  /** The promise that no report is acted on for a child started later in its round fails, then, for the
      pipe: whenever a lock screen that crashes within the limit and can be started again is reported
      together with its pipe, what is read is its successor's. */
  lemma LateReport(p: Policy, news: News, v: View, recent: nat, asked: seq<Query>)
    requires Consistent(v) && v.pipe.Some? && recent <= 5
    requires PartingOf(Outcome(Lines(Hearing(v, news.last)))).Crash?
    ensures var said := Outcome(Lines(Hearing(v, news.last)));
      var es := [Entry(Lock, Dies(false, news.last, said, recent, true, asked)), Entry(LockPipe, Reads(news.got))];
      Handled(p, news, v, es) && Through(v, es[..1]).pipe == Some(v.spawned) && Through(v, es).heard == Gathered(news.got)
  {
    var said := Outcome(Lines(Hearing(v, news.last)));
    var e1, e2 := Entry(Lock, Dies(false, news.last, said, recent, true, asked)), Entry(LockPipe, Reads(news.got));
    assert Handled(p, news, v, []) && Through(v, []) == v;
    OneMore(p, news, v, [], e1);
    assert [] + [e1] == [e1];
    OneMore(p, news, v, [e1], e2);
    assert [e1] + [e2] == [e1, e2] && [e1, e2][..1] == [e1];
  }

  // ----------------------------------------------------------------------- what poll says

  /** What one call of poll comes back with. */
  datatype PollResult = PollInterrupted | PollFailed | Reports(news: News)

  /** The entries handled are those of the first k owners that are ready, in order. */
  predicate Answered(owners: seq<Owner>, ready: set<Owner>, es: seq<Entry>, k: nat)
    requires k <= |owners|
  {
    if k == 0 then es == []
    else if owners[k - 1] !in ready then Answered(owners, ready, es, k - 1)
    else es != [] && es[|es| - 1].owner == owners[k - 1] && Answered(owners, ready, es[..|es| - 1], k - 1)
  }

  lemma {:induction false} AnsweredIs(owners: seq<Owner>, ready: set<Owner>, es: seq<Entry>, k: nat, o: Owner)
    requires k <= |owners| && Answered(owners, ready, es, k)
    ensures o in owners[..k] && o in ready <==> exists j :: 0 <= j < |es| && es[j].owner == o
  {
    if k > 0 {
      var e, front := es, if owners[k - 1] in ready then es[..|es| - 1] else es;
      AnsweredIs(owners, ready, front, k - 1, o);
      assert owners[..k] == owners[..k - 1] + [owners[k - 1]];
      if owners[k - 1] in ready {
        assert es == front + [es[|es| - 1]];
        if j :| 0 <= j < |front| && front[j].owner == o { assert es[j].owner == o; }
      }
    }
  }

  lemma {:induction false} AnsweredBefore(owners: seq<Owner>, ready: set<Owner>, es: seq<Entry>, k: nat, n: nat)
    requires k <= n < |owners| && Ordered(owners) && Answered(owners, ready, es, k) && es != []
    ensures Before(es[|es| - 1].owner, owners[n])
    decreases k
  {
    if owners[k - 1] in ready { OrderedAt(owners, k - 1, n); } else { AnsweredBefore(owners, ready, es, k - 1, n); }
  }

  /** What the last entry says of the session's end. */
  function LastEnds(es: seq<Entry>): End { if es == [] then Going else Ends(es[|es| - 1]) }

  /** Everything reported was handled; or everything up to the entry that ended the session. */
  ghost predicate AllHandled(owners: seq<Owner>, ready: set<Owner>, es: seq<Entry>, upto: nat) {
    && upto <= |owners| && Answered(owners, ready, es, upto)
    && if LastEnds(es) == Going then upto == |owners| else upto > 0 && owners[upto - 1] == es[|es| - 1].owner
  }

  /** So nothing that poll reports is dropped unless the session ends before it, and nothing else is handled. */
  lemma NothingDropped(owners: seq<Owner>, ready: set<Owner>, es: seq<Entry>, upto: nat, o: Owner)
    requires Ordered(owners) && AllHandled(owners, ready, es, upto)
    ensures (exists j :: 0 <= j < |es| && es[j].owner == o) ==> o in owners && o in ready
    ensures o in owners && o in ready ==>
      (exists j :: 0 <= j < |es| && es[j].owner == o) || (LastEnds(es) != Going && Before(es[|es| - 1].owner, o))
  {
    AnsweredIs(owners, ready, es, upto, o);
    if o in owners && o !in owners[..upto] {
      var n :| 0 <= n < |owners| && owners[n] == o;
      forall j | 0 <= j < upto ensures owners[j] != o { assert owners[..upto][j] in owners[..upto]; }
      OrderedAt(owners, upto - 1, n);
    }
  }

  // --------------------------------------------------------------------------- the loop

  /** What the loop looks at before it polls: the lock screen, every child handle (the compositor's, the lock
      screen's, the Setup Assistant's, the components'), and whether there are a control socket and signals. */
  datatype Sight = Sight(view: View, handles: seq<Handle>, control: bool, signals: bool)

  /** What is polled: every live child, the control socket and the signals if there are any, and the lock
      screen's pipe while it is open. */
  predicate Polls(s: Sight, o: Owner) {
    |s.handles| >= 3 &&
    match o
    case Compositor => Live(s.handles[0])
    case Component(i) => 3 + i < |s.handles| && Live(s.handles[3 + i])
    case Control => s.control
    case Lock => Live(s.handles[1])
    case LockPipe => s.view.pipe.Some?
    case FirstRun => Live(s.handles[2])
    case Signal => s.signals
  }

  /** One turn of the loop. */
  datatype Turn = Turn(before: Sight, owners: seq<Owner>, upto: nat, es: seq<Entry>, after: Sight)

  /** Everything that is there to poll is polled, and everything poll reports is handled; an interrupted poll
      is nothing. */
  ghost predicate TurnIs(p: Policy, poll: PollResult, t: Turn) {
    && t.owners != [] && Ordered(t.owners) && (forall o :: o in t.owners <==> Polls(t.before, o))
    && match poll
       case PollInterrupted => t.es == [] && t.after == t.before
       case PollFailed => false
       case Reports(news) =>
         && AllHandled(t.owners, news.ready, t.es, t.upto) && Handled(p, news, t.before.view, t.es)
         && t.after.view == Through(t.before.view, t.es)
  }

  /** Turn after turn, each answered by its poll, until one ends the session. */
  ghost predicate Turns(p: Policy, polls: seq<PollResult>, first: Sight, ts: seq<Turn>, last: Sight, ended: End)
    decreases |ts|
  {
    if ts == [] then last == first && ended == Going
    else
      var t := ts[|ts| - 1];
      && |ts| <= |polls| && TurnIs(p, polls[|ts| - 1], t) && t.after == last && ended == LastEnds(t.es)
      && Turns(p, polls, first, ts[..|ts| - 1], t.before, Going)
  }

  lemma TurnMore(p: Policy, polls: seq<PollResult>, first: Sight, ts: seq<Turn>, t: Turn)
    requires Turns(p, polls, first, ts, t.before, Going) && |ts| < |polls| && TurnIs(p, polls[|ts|], t)
    ensures Turns(p, polls, first, ts + [t], t.after, LastEnds(t.es))
  {
    assert (ts + [t])[..|ts|] == ts;
  }
}
