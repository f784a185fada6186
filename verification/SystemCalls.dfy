/** What the supervisor of desktop/de/anchor/src/supervisor.rs asks the system, and what it is told: the
    questions are recorded with their answers, so that each step can say what it has asked. */
module SystemCalls {
  import opened Wrappers

  datatype Spec = Spec(name: string, argv: seq<string>, needs: seq<string>)

  /** Whether a socket accepted a connection, whether a process could be started, whether the compositor's
      exit was already waiting, and whether a socket pair could be made. */
  datatype Query = Accepts(path: string, yes: bool) | Forks(spec: Spec, yes: bool) | Gone(yes: bool) | Pairs(yes: bool)

  /** No command, or one that is not an absolute path: refused without asking. */
  predicate Malformed(spec: Spec) { spec.argv == [] || spec.argv[0] == "" || spec.argv[0][0] != '/' }

  function Waits(needs: seq<string>): (q: seq<Query>)
    ensures |q| == |needs|
  {
    seq(|needs|, k requires 0 <= k < |needs| => Accepts(needs[k], true))
  }

  lemma WaitsMore(needs: seq<string>, n: nat)
    requires n < |needs|
    ensures Waits(needs[..n + 1]) == Waits(needs[..n]) + [Accepts(needs[n], true)]
  {
  }

  /** Sockets waited for in turn, up to the first that did not accept. */
  ghost predicate NotReady(needs: seq<string>, q: seq<Query>) {
    exists n :: 0 <= n < |needs| && q == Waits(needs[..n]) + [Accepts(needs[n], false)]
  }

  function Spawning(spec: Spec, yes: bool): seq<Query> {
    if Malformed(spec) then [] else [Forks(spec, yes)]
  }

  /** What starting a component asks: every socket it needs accepts, and then it is started. */
  ghost predicate Starting(spec: Spec, ok: bool, q: seq<Query>) {
    if ok then !Malformed(spec) && q == Waits(spec.needs) + [Forks(spec, true)]
    else NotReady(spec.needs, q) || q == Waits(spec.needs) + Spawning(spec, false)
  }

  /** The compositor is only asked about while it is live. */
  function Leaving(live: bool, gone: bool): seq<Query> {
    if live then [Gone(gone)] else []
  }

  /** What starting the lock screen asks: a socket pair, and then the process. */
  ghost predicate LockStarting(spec: Option<Spec>, ok: bool, q: seq<Query>) {
    match spec
    case None => !ok && q == []
    case Some(s) =>
      if ok then !Malformed(s) && q == [Pairs(true), Forks(s, true)]
      else q == [Pairs(false)] || q == [Pairs(true)] + Spawning(s, false)
  }

  // ---------------------------------------------------------------------- reading the pipe

  /** What one read of the lock screen's pipe comes back with. */
  datatype Reading = Bytes(data: string) | Interrupted | WouldBlock | Ended

  /** Everything that is read before there is nothing more for now, or ever. */
  function Gathered(got: seq<Reading>): string
    decreases |got|
  {
    if got == [] || got[0].WouldBlock? || got[0].Ended? then ""
    else if got[0].Interrupted? then Gathered(got[1..])
    else got[0].data + Gathered(got[1..])
  }

  /** Whether the other end is closed. */
  predicate Closed(got: seq<Reading>)
    decreases |got|
  {
    got != [] && (got[0].Ended? || (!got[0].WouldBlock? && Closed(got[1..])))
  }

  /** Bytes read one after the other, up to the first read that stops, are what is gathered. */
  lemma {:induction false} GatheredIs(chunks: seq<string>, stop: Reading, rest: seq<Reading>)
    requires stop.WouldBlock? || stop.Ended?
    ensures Gathered(Chunks(chunks) + [stop] + rest) == Joined(chunks)
    ensures Closed(Chunks(chunks) + [stop] + rest) <==> stop.Ended?
  {
    if chunks != [] {
      GatheredIs(chunks[1..], stop, rest);
      assert Chunks(chunks) == [Bytes(chunks[0])] + Chunks(chunks[1..]);
      assert (Chunks(chunks) + [stop] + rest)[1..] == Chunks(chunks[1..]) + [stop] + rest;
    }
  }

  /** An interrupted read is read again. */
  lemma {:induction false} InterruptedAgain(a: seq<Reading>, b: seq<Reading>)
    ensures Gathered(a + [Interrupted] + b) == Gathered(a + b) && Closed(a + [Interrupted] + b) == Closed(a + b)
  {
    if a == [] {
      assert a + [Interrupted] + b == [Interrupted] + b && a + b == b;
    } else {
      InterruptedAgain(a[1..], b);
      assert (a + [Interrupted] + b)[1..] == a[1..] + [Interrupted] + b && (a + b)[1..] == a[1..] + b;
    }
  }

  function Chunks(chunks: seq<string>): seq<Reading> {
    seq(|chunks|, k requires 0 <= k < |chunks| => Bytes(chunks[k]))
  }

  function Joined(chunks: seq<string>): string {
    if chunks == [] then "" else chunks[0] + Joined(chunks[1..])
  }
}
