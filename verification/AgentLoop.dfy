/** The agent loop of desktop/de/agent/src/lib.rs: model, tools, model, until the model answers, within a
    step limit. The model and the tools are arbitrary functions; what is proved is the transcript. */
module AgentLoop {
  import opened Wrappers

  /** A tool call as the model wrote it; the id and the function may be missing. */
  datatype ToolCall = ToolCall(id: Option<string>, name: string, arguments: string)

  datatype Message =
    | System(text: string)
    | User(text: string)
    | Assistant(content: Option<string>, calls: seq<ToolCall>)
    | ToolResult(id: string, output: string)

  datatype Body = Body(content: Option<string>, calls: seq<ToolCall>)

  /** What one call of the model comes back with: no answer, or a status, what its `error` says and the
      message of its first choice, as far as they are there. */
  datatype Reply =
    | Unreachable(why: string)
    | Response(status: int, errorType: Option<string>, errorMessage: Option<string>, message: Option<Body>)

  predicate IsTurn(r: Reply) { r.Response? && r.status == 200 && r.message.Some? }

  predicate IsBudget(r: Reply) { r.Response? && r.status != 200 && r.errorType == Some("budget") }

  /** Why a question ends with this reply. */
  function StopOf(r: Reply): Stop {
    if IsTurn(r) then Answered else if IsBudget(r) then Budget else Failed
  }

  /** A turn that calls tools: the only reply after which the loop goes on. */
  predicate GoesOn(r: Reply) { IsTurn(r) && r.message.value.calls != [] }

  datatype Stop = Answered | Steps | Budget | Failed

  /** What the answer's text is: the model's words, or which of the loop's own sentences. */
  datatype Text = Words(text: string) | NotReached(why: string) | Said(status: int) | HadNoMessage | StoppedAfter(steps: nat)

  /** The text of an answer that ends with this reply: what the model says, or why there is nothing it says. */
  function TextOf(r: Reply): Text {
    match r
    case Unreachable(why) => NotReached(why)
    case Response(status, _, errorMessage, message) =>
      if status != 200 then (if errorMessage.Some? then Words(errorMessage.value) else Said(status))
      else if message == None then HadNoMessage
      else Words(if message.value.content.Some? then message.value.content.value else "")
  }

  datatype Answer = Answer(text: Text, stop: Stop, calls: seq<string>, steps: nat)

  // ------------------------------------------------------------- well-formed transcripts

  function Decimal(n: nat): string {
    if n < 10 then ["0123456789"[n]] else Decimal(n / 10) + ["0123456789"[n % 10]]
  }

  /** The id a result carries: the call's own, or one made from the step and the place. */
  function ResultId(c: ToolCall, step: nat, i: nat): string {
    if c.id.Some? then c.id.value else "call" + Decimal(step) + "-" + Decimal(i)
  }

  /** Messages i.. answer the calls k.. of a turn, one result each, in order. */
  ghost predicate Answers(ms: seq<Message>, calls: seq<ToolCall>) {
    |ms| == |calls| && forall k :: 0 <= k < |calls| ==>
      ms[k].ToolResult? && (calls[k].id.Some? ==> ms[k].id == calls[k].id.value)
  }

  /** A transcript: the system message (unless it has been read already), then questions, and turns each
      followed by exactly its results. */
  ghost predicate Transcript(ms: seq<Message>, started: bool)
    decreases |ms|
  {
    if ms == [] then started
    else
      match ms[0]
      case System(_) => !started && Transcript(ms[1..], true)
      case User(_) => started && Transcript(ms[1..], true)
      case Assistant(_, calls) =>
        started && |calls| < |ms| && Answers(ms[1..1 + |calls|], calls) && Transcript(ms[1 + |calls|..], true)
      case ToolResult(_, _) => false
  }

  lemma {:induction false} TranscriptPlus(a: seq<Message>, b: seq<Message>, started: bool)
    requires Transcript(a, started)
    ensures Transcript(a + b, started) <==> Transcript(b, true)
    decreases |a|
  {
    if a == [] {
      assert a + b == b;
    } else if a[0].Assistant? {
      var n := 1 + |a[0].calls|;
      assert (a + b)[1..n] == a[1..n] && (a + b)[n..] == a[n..] + b;
      TranscriptPlus(a[n..], b, true);
    } else {
      assert (a + b)[1..] == a[1..] + b;
      TranscriptPlus(a[1..], b, true);
    }
  }

  /** Wherever an assistant's turn stands in a transcript, exactly its results follow it, in order, and
      the message after them is not another result. */
  lemma {:induction false} TurnsAreAnswered(ms: seq<Message>, started: bool, at: nat)
    requires Transcript(ms, started) && at < |ms| && ms[at].Assistant?
    ensures var n := |ms[at].calls|;
      && at + n < |ms|
      && Answers(ms[at + 1..at + 1 + n], ms[at].calls)
      && (at + 1 + n < |ms| ==> !ms[at + 1 + n].ToolResult?)
    decreases |ms|
  {
    var n := |ms[at].calls|;
    if at == 0 {
      assert 1 + n < |ms| ==> ms[1 + n] == ms[1 + n..][0];
    } else {
      if ms[0].Assistant? { InTurn(ms); }
      var k := if ms[0].Assistant? then 1 + |ms[0].calls| else 1;
      TurnsAreAnswered(ms[k..], true, at - k);
      SubSlice(ms, k, at, n);
    }
  }

  /** The results of a turn at the front hold no turn. */
  lemma InTurn(ms: seq<Message>)
    requires ms != [] && ms[0].Assistant? && |ms[0].calls| < |ms| && Answers(ms[1..1 + |ms[0].calls|], ms[0].calls)
    ensures forall j :: 1 <= j <= |ms[0].calls| ==> ms[j].ToolResult?
  {
    forall j | 1 <= j <= |ms[0].calls| ensures ms[j].ToolResult? {
      assert ms[j] == ms[1..1 + |ms[0].calls|][j - 1];
    }
  }

  lemma SubSlice(ms: seq<Message>, k: nat, at: nat, n: nat)
    requires k <= at < |ms| && at + n < |ms|
    ensures ms[k..][at - k + 1..at - k + 1 + n] == ms[at + 1..at + 1 + n]
    ensures at + 1 + n < |ms| ==> ms[k..][at - k + 1 + n] == ms[at + 1 + n]
  {
  }

  // ------------------------------------------------------------------ the specification

  type Model = nat -> Reply                          // the reply to the n-th call of the model
  type Tools = (nat, nat, ToolCall) -> string        // the result of call i of the n-th turn

  function Results(tools: Tools, n: nat, step: nat, calls: seq<ToolCall>): (ms: seq<Message>)
    ensures |ms| == |calls|
  {
    seq(|calls|, i requires 0 <= i < |calls| => ToolResult(ResultId(calls[i], step, i), tools(n, i, calls[i])))
  }

  function Named(calls: seq<ToolCall>): (r: seq<string>)
    ensures |r| == |calls|
  {
    seq(|calls|, i requires 0 <= i < |calls| => calls[i].name + "(" + calls[i].arguments + ")")
  }

  /** What one reply adds to the conversation: nothing unless it is a turn. */
  function Added(tools: Tools, n: nat, step: nat, r: Reply): seq<Message> {
    if IsTurn(r) then [Assistant(r.message.value.content, r.message.value.calls)] + Results(tools, n, step, r.message.value.calls)
    else []
  }

  function CallsOf(r: Reply): seq<string> {
    if IsTurn(r) then Named(r.message.value.calls) else []
  }

  /** Everything that happened to a conversation: the system message, questions, and replies. Call n of
      the model, step `step` of its question, was sent the conversation `before` it. */
  datatype History =
    | Begun(system: string)
    | Question(before: History, text: string)
    | Heard(before: History, n: nat, step: nat, reply: Reply)

  /** The message list a history leads to. */
  function Chat(tools: Tools, h: History): seq<Message> {
    match h
    case Begun(system) => [System(system)]
    case Question(before, text) => Chat(tools, before) + [User(text)]
    case Heard(before, n, step, r) => Chat(tools, before) + Added(tools, n, step, r)
  }

  function Calls(h: History): nat {
    match h
    case Begun(_) => 0
    case Question(before, _) => Calls(before)
    case Heard(before, _, _, _) => Calls(before) + 1
  }

  /** The replies in a history are the model's, in the order it gave them. */
  ghost predicate Faithful(model: Model, h: History) {
    match h
    case Begun(_) => true
    case Question(before, _) => Faithful(model, before)
    case Heard(before, n, _, r) => n == Calls(before) && r == model(n) && Faithful(model, before)
  }

  /** h is `start` after the first `steps` steps of a question: all but the last were turns that called
      tools. */
  ghost predicate After(start: History, h: History, steps: nat)
    decreases steps
  {
    if steps == 0 then h == start
    else
      && h.Heard? && h.step == steps
      && After(start, h.before, steps - 1)
      && (steps > 1 ==> GoesOn(h.before.reply))
  }

  /** The tool calls of the last `steps` steps, as the answer lists them. */
  function CallsMade(h: History, steps: nat): seq<string>
    decreases steps
  {
    if steps == 0 || !h.Heard? then [] else CallsMade(h.before, steps - 1) + CallsOf(h.reply)
  }

  lemma ResultsAnswer(tools: Tools, n: nat, step: nat, calls: seq<ToolCall>)
    ensures Answers(Results(tools, n, step, calls), calls)
  {
    forall k | 0 <= k < |calls|
      ensures Results(tools, n, step, calls)[k] == ToolResult(ResultId(calls[k], step, k), tools(n, k, calls[k]))
    {
    }
  }

  lemma AddedIsTranscript(tools: Tools, n: nat, step: nat, r: Reply)
    ensures Transcript(Added(tools, n, step, r), true)
  {
    if IsTurn(r) {
      var calls := r.message.value.calls;
      var results := Results(tools, n, step, calls);
      var a := [Assistant(r.message.value.content, calls)] + results;
      ResultsAnswer(tools, n, step, calls);
      assert a[1..1 + |calls|] == results && a[1 + |calls|..] == [];
    }
  }

  /** A turn goes in as the model wrote it, with what the tools gave for each of its calls after it, under the
      call's own id, or else one that names the step and the place. */
  lemma AddedIs(tools: Tools, n: nat, step: nat, r: Reply)
    requires IsTurn(r)
    ensures var ms, body := Added(tools, n, step, r), r.message.value;
      && |ms| == 1 + |body.calls| && ms[0] == Assistant(body.content, body.calls)
      && forall k :: 0 <= k < |body.calls| ==>
           ms[1 + k] == ToolResult(if body.calls[k].id.Some? then body.calls[k].id.value
                                   else "call" + Decimal(step) + "-" + Decimal(k), tools(n, k, body.calls[k]))
  {
  }

  /** What decimal digits stand for. */
  function ValueOf(s: string): int
    decreases |s|
  {
    if s == [] then 0 else 10 * ValueOf(s[..|s| - 1]) + (s[|s| - 1] as int - '0' as int)
  }

  lemma {:induction false} DecimalIs(n: nat)
    ensures ValueOf(Decimal(n)) == n && '-' !in Decimal(n)
  {
    var last := "0123456789"[n % 10];
    assert last as int == '0' as int + n % 10;
    if n >= 10 {
      DecimalIs(n / 10);
      assert Decimal(n)[..|Decimal(n)| - 1] == Decimal(n / 10) && Decimal(n)[|Decimal(n)| - 1] == last;
    } else {
      assert Decimal(n) == [last] && Decimal(n)[..0] == [];
    }
  }

  lemma AtTheDash(p: string, a: string, b: string, c: string, d: string)
    requires '-' !in a && '-' !in c && p + a + "-" + b == p + c + "-" + d
    ensures a == c && b == d
  {
    var s, t := (p + a + "-" + b)[|p|..], (p + c + "-" + d)[|p|..];
    assert s == a + "-" + b && t == c + "-" + d;
    assert s[|a|] == '-' && t[|c|] == '-';
    assert forall k :: 0 <= k < |a| ==> s[k] == a[k] && a[k] != '-';
    assert forall k :: 0 <= k < |c| ==> t[k] == c[k] && c[k] != '-';
    assert |a| == |c|;
    assert a == s[..|a|] && c == t[..|c|] && b == s[|a| + 1..] && d == t[|c| + 1..];
  }

  /** So the ids made within one question are all different: each gives its step and its place. */
  lemma MadeIdsDiffer(c: ToolCall, step: nat, k: nat, c': ToolCall, step': nat, k': nat)
    requires c.id == None && c'.id == None && ResultId(c, step, k) == ResultId(c', step', k')
    ensures step == step' && k == k'
  {
    DecimalIs(step);
    DecimalIs(k);
    DecimalIs(step');
    DecimalIs(k');
    AtTheDash("call", Decimal(step), Decimal(k), Decimal(step'), Decimal(k'));
  }

  /** Whatever was asked, replied, failed and resumed, the conversation is a transcript: so is every
      request, which is the conversation before a reply. */
  lemma {:induction false} ChatIsTranscript(tools: Tools, h: History)
    ensures Transcript(Chat(tools, h), false)
  {
    match h
    case Begun(system) =>
      assert [System(system)][1..] == [];
    case Question(before, text) =>
      ChatIsTranscript(tools, before);
      assert [User(text)][1..] == [];
      TranscriptPlus(Chat(tools, before), [User(text)], false);
    case Heard(before, n, step, r) =>
      ChatIsTranscript(tools, before);
      AddedIsTranscript(tools, n, step, r);
      TranscriptPlus(Chat(tools, before), Added(tools, n, step, r), false);
  }

  /** A reply that is not a turn leaves the conversation as it was sent, so the next request repeats it. */
  lemma FailureAddsNothing(tools: Tools, h: History)
    requires h.Heard?
    ensures !IsTurn(h.reply) ==> Chat(tools, h) == Chat(tools, h.before)
    ensures IsTurn(h.reply) ==> |Chat(tools, h)| == |Chat(tools, h.before)| + 1 + |h.reply.message.value.calls|
  {
  }

  /** A question of `steps` steps made as many calls of the model, and its conversation begins with the
      one it started from. */
  lemma {:induction false} StepsAreCalls(tools: Tools, start: History, h: History, steps: nat)
    requires After(start, h, steps)
    ensures Calls(h) == Calls(start) + steps
    ensures Chat(tools, start) <= Chat(tools, h)
    decreases steps
  {
    if steps > 0 { StepsAreCalls(tools, start, h.before, steps - 1); }
  }

  /** The request of step k of a question is the conversation after k - 1 steps; the first is the start. */
  lemma {:induction false} FirstRequest(start: History, h: History, steps: nat) returns (first: History)
    requires After(start, h, steps) && steps > 0
    ensures first.Heard? && first.before == start && first.step == 1
    ensures After(start, first, 1)
    decreases steps
  {
    if steps == 1 { first := h; } else { first := FirstRequest(start, h.before, steps - 1); }
  }

  // --------------------------------------------------------------------------- the loop

  class Loop {
    const model: Model
    const tools: Tools
    const maxSteps: nat
    var messages: seq<Message>
    var asked: nat               // calls of the model so far, over all questions
    ghost var history: History

    ghost predicate Valid()
      reads this
    {
      messages == Chat(tools, history) && asked == Calls(history) && Faithful(model, history)
    }

    constructor (system: string, model: Model, tools: Tools, maxSteps: nat)
      ensures Valid() && history == Begun(system) && messages == [System(system)]
      ensures this.model == model && this.tools == tools && this.maxSteps == maxSteps
    {
      this.model, this.tools, this.maxSteps := model, tools, maxSteps;
      messages, asked, history := [System(system)], 0, Begun(system);
    }

    /** The body of the model's call: `request` is what it is sent. */
    method CallModel(request: seq<Message>, ghost h: History) returns (r: Reply)
      requires request == Chat(tools, h) && asked == Calls(h)
      modifies this`asked
      ensures asked == old(asked) + 1 && r == model(old(asked))
    {
      r := model(asked);
      asked := asked + 1;
    }

    /** Run a turn's tools, in order, and put their results into the conversation. */
    method CallTools(turn: nat, step: nat, todo: seq<ToolCall>, calls0: seq<string>) returns (calls: seq<string>)
      modifies this`messages
      ensures messages == old(messages) + Results(tools, turn, step, todo)
      ensures calls == calls0 + Named(todo)
    {
      calls := calls0;
      for i := 0 to |todo|
        invariant messages == old(messages) + Results(tools, turn, step, todo)[..i]
        invariant calls == calls0 + Named(todo)[..i]
      {
        var id := ResultId(todo[i], step, i);
        calls := calls + [todo[i].name + "(" + todo[i].arguments + ")"];
        var result := tools(turn, i, todo[i]);
        messages := messages + [ToolResult(id, result)];
        assert Results(tools, turn, step, todo)[..i + 1] == Results(tools, turn, step, todo)[..i] + [ToolResult(id, result)];
        assert Named(todo)[..i + 1] == Named(todo)[..i] + [calls[|calls| - 1]];
      }
      assert Results(tools, turn, step, todo)[..|todo|] == Results(tools, turn, step, todo);
      assert Named(todo)[..|todo|] == Named(todo);
    }

    /** A turn goes into the conversation as it came, with the results of the calls it made after it. */
    method TakeTurn(turn: nat, r: Reply, step: nat, calls0: seq<string>) returns (calls: seq<string>)
      requires IsTurn(r)
      modifies this`messages
      ensures messages == old(messages) + Added(tools, turn, step, r)
      ensures calls == calls0 + CallsOf(r)
    {
      var todo := r.message.value.calls;
      messages := messages + [Assistant(r.message.value.content, todo)];
      calls := CallTools(turn, step, todo, calls0);
      assert messages == old(messages) + Added(tools, turn, step, r);
    }

    /** One step of AgentLoop::run; None when it goes on. */
    method Step(step: nat, calls0: seq<string>) returns (answer: Option<Answer>, calls: seq<string>)
      requires Valid()
      modifies this`messages, this`asked, this`history
      ensures Valid() && history == Heard(old(history), old(asked), step, model(old(asked)))
      ensures calls == calls0 + CallsOf(history.reply)
      ensures answer == None <==> GoesOn(history.reply)
      ensures answer.Some? ==> answer.value == Answer(TextOf(history.reply), StopOf(history.reply), calls, step)
    {
      calls := calls0;
      var r := CallModel(messages, history);
      history := Heard(history, asked - 1, step, r);
      if r.Unreachable? {
        return Some(Answer(NotReached(r.why), Failed, calls, step)), calls;
      }
      if r.status != 200 {
        var why := if r.errorMessage.Some? then Words(r.errorMessage.value) else Said(r.status);
        return Some(Answer(why, if r.errorType == Some("budget") then Budget else Failed, calls, step)), calls;
      }
      if r.message == None {
        return Some(Answer(HadNoMessage, Failed, calls, step)), calls;
      }
      calls := TakeTurn(asked - 1, r, step, calls);
      if r.message.value.calls == [] {
        var text := if r.message.value.content.Some? then r.message.value.content.value else "";
        return Some(Answer(Words(text), Answered, calls, step)), calls;
      }
      answer := None;
    }

    /** AgentLoop::run. */
    method Run() returns (answer: Answer)
      requires Valid()
      modifies this`messages, this`asked, this`history
      ensures Valid() && answer.steps <= maxSteps
      ensures After(old(history), history, answer.steps) && answer.calls == CallsMade(history, answer.steps)
      ensures answer.stop == Steps ==>
        answer.steps == maxSteps && answer.text == StoppedAfter(maxSteps) && (maxSteps > 0 ==> GoesOn(history.reply))
      ensures answer.stop != Steps ==>
        && answer.steps > 0 && !GoesOn(history.reply)
        && answer.stop == StopOf(history.reply) && answer.text == TextOf(history.reply)
    {
      var calls: seq<string> := [];
      var step := 1;
      while step <= maxSteps
        invariant Valid() && 1 <= step <= maxSteps + 1
        invariant After(old(history), history, step - 1) && calls == CallsMade(history, step - 1)
        invariant step > 1 ==> GoesOn(history.reply)
        decreases maxSteps + 1 - step
      {
        var done: Option<Answer>;
        done, calls := Step(step, calls);
        if done.Some? { return done.value; }
        step := step + 1;
      }
      answer := Answer(StoppedAfter(maxSteps), Steps, calls, maxSteps);
    }

    method Ask(text: string) returns (answer: Answer)
      requires Valid()
      modifies this`messages, this`asked, this`history
      ensures Valid() && answer.steps <= maxSteps && asked == old(asked) + answer.steps
      ensures After(Question(old(history), text), history, answer.steps)
      ensures answer.stop == Steps ==> answer.text == StoppedAfter(maxSteps)
      ensures answer.stop != Steps ==>
        answer.steps > 0 && answer.stop == StopOf(history.reply) && answer.text == TextOf(history.reply)
      ensures answer.stop == Failed || answer.stop == Budget ==> messages == Chat(tools, history.before)
    {
      messages := messages + [User(text)];
      history := Question(history, text);
      ghost var start := history;
      answer := Run();
      StepsAreCalls(tools, start, history, answer.steps);
      if answer.stop != Steps { FailureAddsNothing(tools, history); }
    }

    /** Carry on: no new question, so the first request is the conversation as it stands. */
    method Resume() returns (answer: Answer)
      requires Valid()
      modifies this`messages, this`asked, this`history
      ensures Valid() && answer.steps <= maxSteps && asked == old(asked) + answer.steps
      ensures After(old(history), history, answer.steps)
      ensures answer.stop == Steps ==> answer.text == StoppedAfter(maxSteps)
      ensures answer.stop != Steps ==>
        answer.steps > 0 && answer.stop == StopOf(history.reply) && answer.text == TextOf(history.reply)
      ensures answer.stop == Failed || answer.stop == Budget ==> messages == Chat(tools, history.before)
    {
      answer := Run();
      StepsAreCalls(tools, old(history), history, answer.steps);
      if answer.stop != Steps { FailureAddsNothing(tools, history); }
    }
  }

  /** After a question that failed or ran out of budget, resuming sends the very request that failed. */
  lemma ResumeSendsItAgain(tools: Tools, failed: History, h: History, steps: nat) returns (again: History)
    requires failed.Heard? && !IsTurn(failed.reply) && After(failed, h, steps) && steps > 0
    ensures again.Heard? && again.before == failed && Chat(tools, again.before) == Chat(tools, failed.before)
  {
    again := FirstRequest(failed, h, steps);
    FailureAddsNothing(tools, failed);
  }
}
