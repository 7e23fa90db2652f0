/** The translation agent's client: one child process, at most one outstanding prompt, and a final
    event (`agent_end`) that does not say which prompt it answers.

    `View` and `Step` describe the client as its callers see it. `PiRpcClient` is the object that
    the script runs: a `pending` slot, per-call promise and timer state and a call queue. Every
    event handler of the class is proved to do to the view exactly what `Step` says. */
module RpcClient {
  import opened Text

  /** How a prompt's promise settles. */
  datatype Outcome = Resolved(text: string) | Rejected(reason: string)

  /** A line written to the process: `{"type": "prompt", "id": "req-<id>", "message": ...}`. */
  datatype Line = Line(id: nat, message: string)

  /** A line printed by the process, after parsing. `Noise` is blank, is not JSON or has another type; `Null`
      is the JSON text `null`, which the line handler cannot look into. A failed response carries the error text
      the client reports; `agent_end` carries what `extractTranslationResult` makes of it. */
  datatype Output =
    | Noise
    | Null
    | Response(id: int, failure: Option<string>)
    | AgentEnd(result: Outcome)

  /** Everything that can happen to a client. `WriteFailed` and `Expired` name the call whose closure runs. */
  datatype Event =
    | Call(message: string)
    | Begin(stderr: string)
    | Print(output: Output)
    | WriteFailed(call: nat, error: string)
    | Expired(call: nat, title: string, detail: string)
    | Broke(error: string)
    | Exited(stderr: string)
    | Close

  datatype Active = Active(id: nat, acknowledged: bool)

  /** The client as its callers see it: outcomes of the calls that settled, in call order; the one
      started call, if any; the messages still queued; and what was written to the process. */
  datatype View = View(
    closed: bool,
    settled: seq<Outcome>,
    active: Option<Active>,
    waiting: seq<string>,
    written: seq<Line>)

  const INITIAL_VIEW := View(false, [], None, [], [])

  function UnavailableText(stderr: string): string { "pi process unavailable" + stderr }
  function ExitText(stderr: string): string { "pi process closed" + stderr }

  /** `detail` is the rest of the message: the time limit, and what the process printed as errors. */
  function TimeoutText(title: string, detail: string): string {
    title + ": translation prompt timed out" + detail
  }

  function Settle(v: View, o: Outcome): View {
    if v.active.Some? then v.(settled := v.settled + [o], active := None) else v
  }

  function Step(v: View, e: Event): View {
    match e
    case Call(m) => v.(waiting := v.waiting + [m])
    case Begin(stderr) =>
      if v.active.Some? || v.waiting == [] then v
      else if v.closed then
        v.(settled := v.settled + [Rejected(UnavailableText(stderr))], waiting := v.waiting[1..])
      else
        var id := |v.written| + 1;
        v.(active := Some(Active(id, false)),
           waiting := v.waiting[1..],
           written := v.written + [Line(id, v.waiting[0])])
    case Print(Noise) => v
    case Print(Null) => v
    case Print(Response(id, failure)) =>
      if v.active.None? || id != v.active.value.id then v
      else if failure.Some? then Settle(v, Rejected(failure.value))
      else v.(active := Some(v.active.value.(acknowledged := true)))
    case Print(AgentEnd(result)) => Settle(v, result)
    case WriteFailed(call, error) => if call == |v.settled| then Settle(v, Rejected(error)) else v
    case Expired(call, title, detail) =>
      if v.active.Some? && call == |v.settled|
      then Settle(v, Rejected(TimeoutText(title, detail))).(closed := true)
      else v
    case Broke(error) => Settle(v, Rejected(error))
    case Exited(stderr) => Settle(v, Rejected(ExitText(stderr))).(closed := true)
    case Close => v.(closed := true)
  }

  function Run(v: View, es: seq<Event>): View
    decreases |es|
  {
    if es == [] then v else Run(Step(v, es[0]), es[1..])
  }

  /** The messages of the calls made in a run, in call order. */
  function Calls(es: seq<Event>): seq<string> {
    if es == [] then []
    else (if es[0].Call? then [es[0].message] else []) + Calls(es[1..])
  }

  function Started(v: View): nat {
    |v.settled| + (if v.active.Some? then 1 else 0)
  }

  /** Request ids number the written lines, and the outstanding prompt is the last line written. */
  ghost predicate Numbered(v: View) {
    && (forall j | 0 <= j < |v.written| :: v.written[j].id == j + 1)
    && |v.written| <= Started(v)
    && (v.active.Some? ==> v.written != [] && v.active.value.id == |v.written|)
  }

  /** `sent` is the calls so far: what is queued is their tail, and what was written is drawn from
      their head in call order, the outstanding prompt being the last call started. */
  ghost predicate Accounts(v: View, sent: seq<string>) {
    && Numbered(v)
    && Started(v) + |v.waiting| == |sent|
    && v.waiting == sent[Started(v)..]
    && Subsequence(Messages(v.written), sent[..Started(v)])
    && (v.active.Some? ==> v.written[|v.written| - 1].message == sent[Started(v) - 1])
  }

  function Messages(lines: seq<Line>): seq<string> {
    seq(|lines|, i requires 0 <= i < |lines| => lines[i].message)
  }

  /** `a` can be read off `b` by skipping elements. */
  predicate Subsequence(a: seq<string>, b: seq<string>) {
    || a == []
    || (b != [] && Subsequence(a, b[..|b| - 1]))
    || (b != [] && a[|a| - 1] == b[|b| - 1] && Subsequence(a[..|a| - 1], b[..|b| - 1]))
  }

  /** One event keeps the books: call order, numbering and at most one outstanding prompt. */
  lemma {:induction false} StepKeepsAccounts(v: View, e: Event, sent: seq<string>)
    requires Accounts(v, sent)
    ensures Accounts(Step(v, e), sent + (if e.Call? then [e.message] else []))
  {
    if e.Call? {
      CallKeepsAccounts(v, e.message, sent);
    } else {
      assert sent + [] == sent;
      if e.Begin? {
        BeginKeepsAccounts(v, e.stderr, sent);
      }
    }
  }

  lemma {:induction false} CallKeepsAccounts(v: View, m: string, sent: seq<string>)
    requires Accounts(v, sent)
    ensures Accounts(Step(v, Call(m)), sent + [m])
  {
    var n := Started(v);
    assert (sent + [m])[n..] == sent[n..] + [m];
    assert (sent + [m])[..n] == sent[..n];
  }

  lemma {:induction false} BeginKeepsAccounts(v: View, stderr: string, sent: seq<string>)
    requires Accounts(v, sent)
    ensures Accounts(Step(v, Begin(stderr)), sent)
  {
    var n := Started(v);
    var v' := Step(v, Begin(stderr));
    if v.active.None? && v.waiting != [] {
      assert v.waiting[0] == sent[n];
      assert sent[..n + 1][..n] == sent[..n];
      if !v.closed {
        var a := Messages(v'.written);
        assert a[..|a| - 1] == Messages(v.written);
        assert Subsequence(a, sent[..n + 1]);
      } else {
        assert Subsequence(Messages(v.written), sent[..n + 1]);
      }
    }
  }

  /** Over every run: the queue is the tail of the calls, calls settle in call order and at most one
      of them is started and unsettled, ids are 1, 2, 3, ... in writing order, and the outstanding
      prompt is the last line written and the last call started. */
  lemma {:induction false} RunKeepsAccounts(v: View, es: seq<Event>, sent: seq<string>)
    requires Accounts(v, sent)
    ensures Accounts(Run(v, es), sent + Calls(es))
    decreases |es|
  {
    if es == [] {
      assert sent + [] == sent;
    } else {
      var now := if es[0].Call? then [es[0].message] else [];
      StepKeepsAccounts(v, es[0], sent);
      RunKeepsAccounts(Step(v, es[0]), es[1..], sent + now);
      ConcatAssociates(sent, now, Calls(es[1..]));
    }
  }

  lemma {:induction false} ConcatAssociates(a: seq<string>, b: seq<string>, c: seq<string>)
    ensures a + b + c == a + (b + c)
  {
  }

  /** Over every run: a settled call keeps its outcome, a closed client stays closed, and nothing is
      written once it is closed. */
  lemma {:induction false} RunOnlyExtends(v: View, es: seq<Event>)
    ensures v.settled <= Run(v, es).settled
    ensures v.written <= Run(v, es).written
    ensures v.closed ==> Run(v, es).closed && Run(v, es).written == v.written
    decreases |es|
  {
    if es != [] {
      StepOnlyExtends(v, es[0]);
      RunOnlyExtends(Step(v, es[0]), es[1..]);
    }
  }

  lemma {:induction false} StepOnlyExtends(v: View, e: Event)
    ensures v.settled <= Step(v, e).settled
    ensures v.written <= Step(v, e).written
    ensures v.closed ==> Step(v, e).closed && Step(v, e).written == v.written
  {
  }

  /** The promise of one call together with the timers its closure holds. `id` is 0 until it starts. */
  datatype Deferred = Deferred(message: string, id: nat, outcome: Option<Outcome>, timer: bool, heartbeat: bool)

  /** The `pending` slot; `call` stands for the resolve and reject closures stored in it. */
  datatype Pending = Pending(id: nat, call: nat, responseReceived: bool)

  function Outcomes(calls: seq<Deferred>): (r: seq<Outcome>)
    requires forall i | 0 <= i < |calls| :: calls[i].outcome.Some?
  {
    seq(|calls|, i requires 0 <= i < |calls| => calls[i].outcome.value)
  }

  function Queued(calls: seq<Deferred>): seq<string> {
    seq(|calls|, i requires 0 <= i < |calls| => calls[i].message)
  }

  /** A started, unsettled call is exactly `pending`, with both timers armed; a settled call, and one
      that has not started, has neither. A started call wrote its own message under its own id. */
  ghost predicate CallOk(c: Deferred, i: nat, turn: nat, pending: Option<Pending>, wire: seq<Line>) {
    && (c.timer <==> i < turn && c.outcome.None?)
    && (c.heartbeat <==> i < turn && c.outcome.None?)
    && (i < turn && c.outcome.None? <==> pending.Some? && pending.value.call == i)
    && (i < turn && c.outcome.None? ==> pending.value.id == c.id == |wire|)
    && (i >= turn ==> c.id == 0 && c.outcome.None?)
    && c.id <= |wire|
    && (c.id > 0 ==> wire[c.id - 1] == Line(c.id, c.message))
  }

  lemma {:induction false} SettledOne(calls: seq<Deferred>, i: nat, c: Deferred)
    requires i < |calls| && c.outcome.Some?
    requires forall j | 0 <= j < i :: calls[j].outcome.Some?
    ensures var after := calls[i := c];
            && (forall j | 0 <= j < i + 1 :: after[j].outcome.Some?)
            && Outcomes(after[..i + 1]) == Outcomes(calls[..i]) + [c.outcome.value]
  {
    assert calls[i := c][..i + 1] == calls[..i] + [c];
  }

  lemma {:induction false} QueueUnchanged(calls: seq<Deferred>, i: nat, c: Deferred, turn: nat)
    requires i < turn <= |calls|
    ensures calls[i := c][turn..] == calls[turn..]
  {
  }

  lemma {:induction false} OneFewerQueued(calls: seq<Deferred>, turn: nat)
    requires turn < |calls|
    ensures Queued(calls[turn..]) == [calls[turn].message] + Queued(calls[turn + 1..])
  {
    assert calls[turn..] == [calls[turn]] + calls[turn + 1..];
  }

  /** Exactly call `i` is settled, with this outcome; both of its timers are cleared. */
  ghost predicate OnlySettles(before: seq<Deferred>, after: seq<Deferred>, i: nat, o: Outcome) {
    && i < |before| == |after|
    && (forall j | 0 <= j < |before| && j != i :: after[j] == before[j])
    && before[i].outcome.None?
    && after[i] == Deferred(before[i].message, before[i].id, Some(o), false, false)
  }

  class PiRpcClient {
    var closed: bool
    var pending: Option<Pending>
    var requestCount: nat
    var calls: seq<Deferred>
    /** How many calls have had their turn in the `sequence` promise chain. */
    var turn: nat
    var wire: seq<Line>

    ghost predicate Valid()
      reads this
    {
      && turn <= |calls|
      && requestCount == |wire|
      && (forall i | 0 <= i < |calls| :: CallOk(calls[i], i, turn, pending, wire))
      && (forall i, j | 0 <= i < j < |calls| && calls[i].id > 0 && calls[j].id > 0 :: calls[i].id != calls[j].id)
      && (forall j | 0 <= j < |wire| :: wire[j].id == j + 1)
      && (pending.Some? ==> pending.value.call == turn - 1 && pending.value.id > 0)
    }

    ghost function SettledCount(): nat
      requires Valid()
      reads this
    {
      if pending.Some? then turn - 1 else turn
    }

    ghost function AsView(): View
      requires Valid()
      reads this
    {
      View(closed,
           Outcomes(calls[..SettledCount()]),
           if pending.Some? then Some(Active(pending.value.id, pending.value.responseReceived)) else None,
           Queued(calls[turn..]),
           wire)
    }

    constructor ()
      ensures Valid() && AsView() == INITIAL_VIEW
    {
      closed, pending, requestCount, calls, turn, wire := false, None, 0, [], 0, [];
    }

    /** A promise settles once; later resolutions of the same promise change nothing. */
    method SettlePromise(i: nat, o: Outcome)
      requires i < |calls|
      modifies this`calls
      ensures calls == old(calls)[i := old(calls)[i].(timer := false, heartbeat := false,
                                   outcome := if old(calls)[i].outcome.Some? then old(calls)[i].outcome else Some(o))]
    {
      var c := calls[i];
      c := c.(timer := false, heartbeat := false);
      if c.outcome.None? {
        c := c.(outcome := Some(o));
      }
      calls := calls[i := c];
    }

    method PromptCalled(message: string)
      requires Valid()
      modifies this`calls
      ensures Valid() && AsView() == Step(old(AsView()), Call(message))
      ensures calls == old(calls) + [Deferred(message, 0, None, false, false)]
    {
      calls := calls + [Deferred(message, 0, None, false, false)];
    }

    /** The next call in the chain starts once its predecessor has settled. */
    method TurnComes(stderr: string)
      requires Valid()
      requires turn < |calls| && pending.None?
      modifies this`turn, this`calls, this`pending, this`requestCount, this`wire
      ensures Valid() && AsView() == Step(old(AsView()), Begin(stderr))
      ensures turn == old(turn) + 1
      ensures closed ==> pending.None? && wire == old(wire)
      ensures closed ==> OnlySettles(old(calls), calls, old(turn), Rejected("pi process unavailable" + stderr))
      ensures !closed ==> WrotePrompt(old(calls), old(wire), old(turn))
    {
      OneFewerQueued(calls, turn);
      assert CallOk(calls[turn], turn, turn, pending, wire);
      if closed {
        var i := turn;
        turn := turn + 1;
        SettlePromise(i, Rejected(UnavailableText(stderr)));
        SettledOne(old(calls), i, calls[i]);
        QueueUnchanged(old(calls), i, calls[i], turn);
      } else {
        WritePrompt();
      }
    }

    /** One line with the next id was written for call `i`, which is now the pending one; its timers are armed. */
    ghost predicate WrotePrompt(calls0: seq<Deferred>, wire0: seq<Line>, i: nat)
      reads this
    {
      && i < |calls0|
      && wire == wire0 + [Line(|wire0| + 1, calls0[i].message)]
      && pending == Some(Pending(|wire0| + 1, i, false))
      && calls == calls0[i := Deferred(calls0[i].message, |wire0| + 1, None, true, true)]
    }

    method WritePrompt()
      requires Valid() && !closed
      requires turn < |calls| && pending.None?
      modifies this`turn, this`calls, this`pending, this`requestCount, this`wire
      ensures Valid() && turn == old(turn) + 1 && |calls| == old(|calls|)
      ensures calls[turn..] == old(calls[turn..])[1..]
      ensures AsView().settled == old(AsView()).settled
      ensures pending == Some(Pending(old(|wire|) + 1, old(turn), false))
      ensures wire == old(wire) + [Line(old(|wire|) + 1, old(calls[turn].message))]
      ensures WrotePrompt(old(calls), old(wire), old(turn))
    {
      var i := turn;
      assert CallOk(calls[i], i, turn, pending, wire);
      turn := turn + 1;
      requestCount := requestCount + 1;
      var id := requestCount;
      calls := calls[i := calls[i].(id := id, timer := true, heartbeat := true)];
      pending := Some(Pending(id, i, false));
      wire := wire + [Line(id, calls[i].message)];
      assert calls[..i] == old(calls[..i]);
    }

    method RejectPending(o: Outcome)
      requires Valid()
      modifies this`pending, this`calls
      ensures Valid() && AsView() == Settle(old(AsView()), o)
      ensures pending.None?
      ensures old(pending).None? ==> calls == old(calls)
      ensures old(pending).Some? ==> OnlySettles(old(calls), calls, old(pending).value.call, o)
    {
      var p := pending;
      pending := None;
      if p.Some? {
        var i := p.value.call;
        assert CallOk(calls[i], i, turn, p, wire);
        SettlePromise(i, o);
        SettledOne(old(calls), i, calls[i]);
        QueueUnchanged(old(calls), i, calls[i], turn);
      }
    }

    /** A printed line is handled; the handler throws on `null`, but only while a prompt is pending. */
    method LinePrinted(output: Output) returns (thrown: bool)
      requires Valid()
      modifies this`pending, this`calls
      ensures Valid() && AsView() == Step(old(AsView()), Print(output))
      ensures thrown <==> output.Null? && old(pending).Some?
      ensures old(pending).None? || output.Noise? || output.Null? ==> pending == old(pending) && calls == old(calls)
      ensures old(pending).Some? && output.AgentEnd? ==>
        pending.None? && OnlySettles(old(calls), calls, old(pending).value.call, output.result)
      ensures old(pending).Some? && output.Response? ==>
        if output.id != old(pending).value.id then pending == old(pending) && calls == old(calls)
        else if output.failure.Some? then
          pending.None?
          && OnlySettles(old(calls), calls, old(pending).value.call, Rejected(output.failure.value))
        else pending == Some(Pending(output.id, old(pending).value.call, true)) && calls == old(calls)
    {
      thrown := false;
      if pending.None? {
        return;
      }
      match output
      case Noise =>
      case Null => thrown := true;
      case Response(id, failure) =>
        if id != pending.value.id {
          return;
        }
        if failure.Some? {
          RejectPending(Rejected(failure.value));
          return;
        }
        pending := Some(pending.value.(responseReceived := true));
      case AgentEnd(result) =>
        RejectPending(result);
    }

    /** The write callback of call `i` reports an error; it may come long after the call settled. */
    method WriteReported(i: nat, error: string)
      requires Valid()
      requires i < |calls| && calls[i].id > 0
      modifies this`pending, this`calls
      ensures Valid() && AsView() == Step(old(AsView()), WriteFailed(i, error))
      ensures if old(pending).Some? && old(pending).value.call == i
              then pending.None? && OnlySettles(old(calls), calls, i, Rejected(error))
              else pending == old(pending) && calls == old(calls)
    {
      var id := calls[i].id;
      ghost var n := SettledCount();
      assert CallOk(calls[i], i, turn, pending, wire);
      assert pending.Some? ==> CallOk(calls[n], n, turn, pending, wire);
      assert i == n <==> pending.Some? && pending.value.id == id;
      if pending.Some? && pending.value.id == id {
        pending := None;
      }
      SettlePromise(i, Rejected(error));
      if i == n {
        SettledOne(old(calls), i, calls[i]);
      } else {
        assert calls == old(calls);
      }
      QueueUnchanged(old(calls), i, calls[i], turn);
    }

    /** The timer of call `i` fires. An armed timer always finds its own call pending. */
    method TimerFired(i: nat, title: string, detail: string)
      requires Valid()
      requires i < |calls| && calls[i].timer
      modifies this`pending, this`calls, this`closed
      ensures Valid() && AsView() == Step(old(AsView()), Expired(i, title, detail))
      ensures closed && pending.None?
      ensures OnlySettles(old(calls), calls, i, Rejected(title + ": translation prompt timed out" + detail))
    {
      assert CallOk(calls[i], i, turn, pending, wire);
      calls := calls[i := calls[i].(timer := false)];
      if pending.Some? && pending.value.id == calls[i].id {
        pending := None;
        calls := calls[i := calls[i].(heartbeat := false)];
        closed := true;
        SettlePromise(i, Rejected(TimeoutText(title, detail)));
      }
      assert calls == old(calls)[i := calls[i]];
      SettledOne(old(calls), i, calls[i]);
      QueueUnchanged(old(calls), i, calls[i], turn);
    }

    method ProcessErrored(error: string)
      requires Valid()
      modifies this`pending, this`calls
      ensures Valid() && AsView() == Step(old(AsView()), Broke(error))
      ensures pending.None?
      ensures old(pending).None? ==> calls == old(calls)
      ensures old(pending).Some? ==> OnlySettles(old(calls), calls, old(pending).value.call, Rejected(error))
    {
      RejectPending(Rejected(error));
    }

    method ProcessClosed(stderr: string)
      requires Valid()
      modifies this`pending, this`calls, this`closed
      ensures Valid() && AsView() == Step(old(AsView()), Exited(stderr))
      ensures closed && pending.None?
      ensures old(pending).None? ==> calls == old(calls)
      ensures old(pending).Some? ==>
        OnlySettles(old(calls), calls, old(pending).value.call, Rejected("pi process closed" + stderr))
    {
      closed := true;
      RejectPending(Rejected(ExitText(stderr)));
    }

    method CloseClient()
      requires Valid()
      modifies this`closed
      ensures Valid() && AsView() == Step(old(AsView()), Event.Close)
      ensures closed
    {
      closed := true;
    }
  }
}
