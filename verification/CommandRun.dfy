/** Running a child process with a time limit: three timers, output collection and a promise that is
    settled by whichever of several events comes first. */
module CommandRun {
  import opened Text

  /** `hasTimeout` is a usable `timeoutMs`; `check` is the option of that name, true by default. */
  datatype Options = Options(check: bool, hasTimeout: bool, heartbeat: bool)

  datatype Event =
    | Stdout(chunk: string)
    | Stderr(chunk: string)
    | Errored(error: string)
    | Closed(exitCode: Option<int>)
    | TimerFires
    | KillWaitFires
    | HeartbeatFires

  datatype Settlement =
    | Resolved(exitCode: int, stdout: string, stderr: string)
    | SpawnFailed(error: string)
    | TimedOut
    | NotTerminated
    | Failed(exitCode: int)

  // ---------- What a run must come to, given everything that happened ----------

  predicate Terminal(e: Event) {
    e.Errored? || e.Closed? || e.KillWaitFires?
  }

  /** The position of the first event that settles the promise. */
  function Decisive(es: seq<Event>): (r: Option<nat>)
    ensures r.Some? ==> r.value < |es| && Terminal(es[r.value])
  {
    if es == [] then None
    else
      var n := |es| - 1;
      var before := Decisive(es[..n]);
      if before.Some? then before
      else if Terminal(es[n]) then Some(n)
      else None
  }

  lemma {:induction false} DecisiveIsFirst(es: seq<Event>)
    ensures var r := Decisive(es);
            forall i | 0 <= i < (if r.Some? then r.value else |es|) :: !Terminal(es[i])
  {
    if es != [] {
      DecisiveIsFirst(es[..|es| - 1]);
    }
  }

  function StdoutOf(es: seq<Event>): string {
    if es == [] then ""
    else
      var before, e := StdoutOf(es[..|es| - 1]), es[|es| - 1];
      if e.Stdout? then before + e.chunk else before
  }

  function StderrOf(es: seq<Event>): string {
    if es == [] then ""
    else
      var before, e := StderrOf(es[..|es| - 1]), es[|es| - 1];
      if e.Stderr? then before + e.chunk else before
  }

  /** The exit code a close event reports; none counts as failure. */
  function ExitCode(e: Event): int
    requires e.Closed?
  {
    if e.exitCode.Some? then e.exitCode.value else 1
  }

  /** The first decisive event decides; a close after a time-out is a time-out, a bad exit fails the run if
      exit codes are checked, and otherwise the run resolves with what was printed until then. */
  function Verdict(o: Options, es: seq<Event>): Option<Settlement> {
    var d := Decisive(es);
    if d.None? then None else Some(Settling(o, es[..d.value], es[d.value]))
  }

  /** How an event that settles the promise does so, given what happened before it. */
  function Settling(o: Options, before: seq<Event>, e: Event): Settlement
    requires Terminal(e)
  {
    match e
    case Errored(error) => SpawnFailed(error)
    case KillWaitFires => NotTerminated
    case _ =>
      if TimerFires in before then TimedOut
      else if o.check && ExitCode(e) != 0 then Failed(ExitCode(e))
      else Resolved(ExitCode(e), StdoutOf(before), StderrOf(before))
  }

  /** Data events after the decisive one. */
  function LateData(es: seq<Event>): nat {
    if es == [] then 0
    else
      var n := |es| - 1;
      LateData(es[..n]) + (if Decisive(es[..n]).Some? && (es[n].Stdout? || es[n].Stderr?) then 1 else 0)
  }

  /** The events that can happen next: a timer fires only while it is armed. */
  predicate Possible(o: Options, es: seq<Event>, e: Event) {
    var open := Decisive(es).None?;
    match e
    case TimerFires => o.hasTimeout && open && TimerFires !in es
    case KillWaitFires => open && TimerFires in es
    case HeartbeatFires => o.heartbeat && open
    case _ => true
  }

  /** A history in which every event was possible when it happened. */
  predicate IsRun(o: Options, es: seq<Event>) {
    es == [] || (IsRun(o, es[..|es| - 1]) && Possible(o, es[..|es| - 1], es[|es| - 1]))
  }

  /** Once settled, the promise keeps its settlement whatever happens afterwards. */
  lemma {:induction false} SettlesOnce(o: Options, es: seq<Event>, more: seq<Event>)
    requires Verdict(o, es).Some?
    ensures Decisive(es + more) == Decisive(es) && Verdict(o, es + more) == Verdict(o, es)
    decreases |more|
  {
    if more == [] {
      assert es + more == es;
    } else {
      var n := |more| - 1;
      SettlesOnce(o, es, more[..n]);
      assert (es + more)[..|es + more| - 1] == es + more[..n];
      var d := Decisive(es).value;
      assert (es + more)[..d] == es[..d];
    }
  }

  lemma {:induction false} NoTimerAfterDecisive(o: Options, es: seq<Event>)
    requires IsRun(o, es)
    ensures Decisive(es).Some? ==> (TimerFires in es <==> TimerFires in es[..Decisive(es).value])
    ensures TimerFires in es ==> o.hasTimeout
  {
    if es != [] {
      var n := |es| - 1;
      NoTimerAfterDecisive(o, es[..n]);
      assert es == es[..n] + [es[n]];
      var before := Decisive(es[..n]);
      if before.Some? {
        assert es[..before.value] == es[..n][..before.value];
      }
    }
  }

  /** In every run: it resolves only if it never timed out, and with a non-zero exit code only if exit codes
      are not checked; a run that has timed out can only be rejected. */
  lemma {:induction false} ResolvesOnlyInTime(o: Options, es: seq<Event>)
    requires IsRun(o, es) && Verdict(o, es).Some?
    ensures Verdict(o, es).value.Resolved? ==> TimerFires !in es
    ensures Verdict(o, es).value.Resolved? && Verdict(o, es).value.exitCode != 0 ==> !o.check
    ensures Verdict(o, es).value.Failed? ==> o.check && TimerFires !in es
    ensures Verdict(o, es).value.TimedOut? || Verdict(o, es).value.NotTerminated? ==> TimerFires in es
  {
    NoTimerAfterDecisive(o, es);
    if Verdict(o, es).value.NotTerminated? {
      KillWaitNeedsTimeout(o, es, Decisive(es).value);
    }
  }

  lemma {:induction false} KillWaitNeedsTimeout(o: Options, es: seq<Event>, i: nat)
    requires IsRun(o, es) && i < |es| && es[i] == KillWaitFires
    ensures TimerFires in es
  {
    var n := |es| - 1;
    assert es == es[..n] + [es[n]];
    if i < n {
      KillWaitNeedsTimeout(o, es[..n], i);
    }
  }

  // ---------- One event at a time ----------

  /** The runner's variables: what was collected, whether it timed out and how it was settled, which timers are
      armed, and whether the log stream was ended and how often it was written to after that. */
  datatype State = State(
    stdout: string, stderr: string, timedOut: bool, promise: Option<Settlement>,
    timer: bool, killWaitTimer: bool, heartbeatTimer: bool, logEnded: bool, lateLogWrites: nat)

  function Initial(o: Options): State {
    State("", "", false, None, o.hasTimeout, false, o.heartbeat, false, 0)
  }

  /** Only the first settlement counts; it disarms all timers and ends the log. */
  function Finalized(st: State, outcome: Settlement): State {
    if st.promise.Some? then st
    else st.(promise := Some(outcome), timer := false, killWaitTimer := false, heartbeatTimer := false,
      logEnded := true)
  }

  function Logged(st: State): State {
    if st.logEnded then st.(lateLogWrites := st.lateLogWrites + 1) else st
  }

  function Next(o: Options, st: State, e: Event): State {
    match e
    case Stdout(chunk) => Logged(st.(stdout := st.stdout + chunk))
    case Stderr(chunk) => Logged(st.(stderr := st.stderr + chunk))
    case Errored(error) => Finalized(st, SpawnFailed(error))
    case Closed(_) =>
      Finalized(st, if st.timedOut then TimedOut
                    else if o.check && ExitCode(e) != 0 then Failed(ExitCode(e))
                    else Resolved(ExitCode(e), st.stdout, st.stderr))
    case TimerFires => Logged(st.(timer := false, timedOut := true, killWaitTimer := true))
    case KillWaitFires => Finalized(st.(killWaitTimer := false), NotTerminated)
    case HeartbeatFires => Logged(st)
  }

  /** The state is what the history calls for. In particular no timer is armed once the promise is settled, and
      the kill-wait timer is armed exactly from the time-out until then. */
  ghost predicate Reflects(o: Options, es: seq<Event>, st: State) {
    && IsRun(o, es)
    && st.promise == Verdict(o, es)
    && (st.timedOut <==> TimerFires in es)
    && st.stdout == StdoutOf(es) && st.stderr == StderrOf(es)
    && (st.timer <==> o.hasTimeout && !st.timedOut && st.promise.None?)
    && (st.killWaitTimer <==> st.timedOut && st.promise.None?)
    && (st.heartbeatTimer <==> o.heartbeat && st.promise.None?)
    && (st.logEnded <==> st.promise.Some?)
    && st.lateLogWrites == LateData(es)
  }

  /** Handling one more event that can happen gives the state that the longer history calls for. */
  lemma {:induction false} NextReflects(o: Options, es: seq<Event>, st: State, e: Event)
    requires Reflects(o, es, st) && Possible(o, es, e)
    ensures Reflects(o, es + [e], Next(o, st, e))
  {
    OutputGrows(es, e);
    VerdictGrows(o, es, e);
  }

  lemma {:induction false} OutputGrows(es: seq<Event>, e: Event)
    ensures var longer := es + [e];
            && (TimerFires in longer <==> TimerFires in es || e == TimerFires)
            && StdoutOf(longer) == (if e.Stdout? then StdoutOf(es) + e.chunk else StdoutOf(es))
            && StderrOf(longer) == (if e.Stderr? then StderrOf(es) + e.chunk else StderrOf(es))
  {
    assert (es + [e])[..|es|] == es;
  }

  /** A further event settles the promise only if it is the first that can. */
  lemma {:induction false} VerdictGrows(o: Options, es: seq<Event>, e: Event)
    ensures var longer := es + [e];
            && (IsRun(o, es) && Possible(o, es, e) ==> IsRun(o, longer))
            && LateData(longer) == LateData(es) + (if Decisive(es).Some? && (e.Stdout? || e.Stderr?) then 1 else 0)
            && Verdict(o, longer) == (if Verdict(o, es).Some? || !Terminal(e)
                                      then Verdict(o, es)
                                      else Some(Settling(o, es, e)))
  {
    assert (es + [e])[..|es|] == es;
    if Decisive(es).Some? {
      SettlesOnce(o, es, [e]);
    }
  }

  // ---------- The process runner ----------

  class Run {
    const options: Options
    var stdout: string
    var stderr: string
    var timedOut: bool
    var settled: bool
    var promise: Option<Settlement>
    /** Which timers are armed. */
    var timer: bool
    var killWaitTimer: bool
    var heartbeatTimer: bool
    /** Whether the log stream was ended, and how often it was written to after that. */
    var logEnded: bool
    var lateLogWrites: nat
    ghost var seen: seq<Event>

    ghost function AsState(): State
      reads this
    {
      State(stdout, stderr, timedOut, promise, timer, killWaitTimer, heartbeatTimer, logEnded, lateLogWrites)
    }

    ghost predicate Valid()
      reads this
    {
      (settled <==> promise.Some?) && Reflects(options, seen, AsState())
    }

    constructor (options: Options)
      ensures Valid() && this.options == options && seen == []
      ensures AsState() == Initial(options)
    {
      this.options := options;
      stdout, stderr := "", "";
      timedOut, settled, promise := false, false, None;
      timer, killWaitTimer, heartbeatTimer := options.hasTimeout, false, options.heartbeat;
      logEnded, lateLogWrites := false, 0;
      seen := [];
    }

    method ClearTimers()
      modifies this`timer, this`killWaitTimer, this`heartbeatTimer
      ensures !timer && !killWaitTimer && !heartbeatTimer
    {
      if timer {
        timer := false;
      }
      if killWaitTimer {
        killWaitTimer := false;
      }
      if heartbeatTimer {
        heartbeatTimer := false;
      }
    }

    method Finalize(outcome: Settlement)
      requires settled <==> promise.Some?
      modifies this`settled, this`promise, this`timer, this`killWaitTimer, this`heartbeatTimer, this`logEnded
      ensures settled && promise == (if old(settled) then old(promise) else Some(outcome))
      ensures !old(settled) ==> !timer && !killWaitTimer && !heartbeatTimer && logEnded
      ensures old(settled) ==> unchanged(this)
      ensures AsState() == Finalized(old(AsState()), outcome)
    {
      if settled {
        return;
      }
      settled := true;
      ClearTimers();
      logEnded := true;
      promise := Some(outcome);
    }

    method WriteLog()
      modifies this`lateLogWrites
      ensures AsState() == Logged(old(AsState()))
    {
      if logEnded {
        lateLogWrites := lateLogWrites + 1;
      }
    }

    /** Records an event that has been handled. */
    ghost method Record(e: Event, before: State)
      requires (settled <==> promise.Some?) && Reflects(options, seen, before) && Possible(options, seen, e)
      requires AsState() == Next(options, before, e)
      modifies this`seen
      ensures Valid() && seen == old(seen) + [e]
    {
      NextReflects(options, seen, before, e);
      seen := seen + [e];
    }

    method OnStdout(chunk: string)
      requires Valid()
      modifies this
      ensures Valid() && seen == old(seen) + [Stdout(chunk)]
      ensures stdout == old(stdout) + chunk && stderr == old(stderr)
      ensures promise == old(promise) && timedOut == old(timedOut)
      ensures lateLogWrites == old(lateLogWrites) + (if old(settled) then 1 else 0)
    {
      ghost var before := AsState();
      stdout := stdout + chunk;
      WriteLog();
      Record(Stdout(chunk), before);
    }

    method OnStderr(chunk: string)
      requires Valid()
      modifies this
      ensures Valid() && seen == old(seen) + [Stderr(chunk)]
      ensures stderr == old(stderr) + chunk && stdout == old(stdout)
      ensures promise == old(promise) && timedOut == old(timedOut)
      ensures lateLogWrites == old(lateLogWrites) + (if old(settled) then 1 else 0)
    {
      ghost var before := AsState();
      stderr := stderr + chunk;
      WriteLog();
      Record(Stderr(chunk), before);
    }

    method OnError(error: string)
      requires Valid()
      modifies this
      ensures Valid() && seen == old(seen) + [Errored(error)]
      ensures settled && stdout == old(stdout) && stderr == old(stderr)
      ensures promise == if old(settled) then old(promise) else Some(SpawnFailed(error))
    {
      ghost var before := AsState();
      Finalize(SpawnFailed(error));
      Record(Errored(error), before);
    }

    method OnClose(exitCode: Option<int>)
      requires Valid()
      modifies this
      ensures Valid() && seen == old(seen) + [Closed(exitCode)]
      ensures settled && stdout == old(stdout) && stderr == old(stderr)
      ensures old(settled) ==> promise == old(promise)
      ensures !old(settled) && old(timedOut) ==> promise == Some(TimedOut)
      ensures !old(settled) && !old(timedOut) && exitCode.None? ==>
        promise == Some(if options.check then Failed(1) else Resolved(1, old(stdout), old(stderr)))
      ensures !old(settled) && !old(timedOut) && exitCode.Some? ==>
        promise == Some(if options.check && exitCode.value != 0 then Failed(exitCode.value)
                        else Resolved(exitCode.value, old(stdout), old(stderr)))
    {
      ghost var before := AsState();
      var code := if exitCode.Some? then exitCode.value else 1;
      if timedOut {
        Finalize(TimedOut);
      } else if options.check && code != 0 {
        Finalize(Failed(code));
      } else {
        Finalize(Resolved(code, stdout, stderr));
      }
      Record(Closed(exitCode), before);
    }

    /** The time limit is reached: the process is asked to die, and given a last grace period. */
    method OnTimer()
      requires Valid() && timer
      modifies this
      ensures Valid() && seen == old(seen) + [TimerFires]
      ensures !settled && promise.None? && timedOut && killWaitTimer && !timer
      ensures stdout == old(stdout) && stderr == old(stderr)
    {
      ghost var before := AsState();
      timer := false;
      timedOut := true;
      WriteLog();
      killWaitTimer := true;
      Record(TimerFires, before);
    }

    method OnKillWait()
      requires Valid() && killWaitTimer
      modifies this
      ensures Valid() && seen == old(seen) + [KillWaitFires]
      ensures settled && promise == Some(NotTerminated)
      ensures !timer && !killWaitTimer && !heartbeatTimer
    {
      ghost var before := AsState();
      killWaitTimer := false;
      Finalize(NotTerminated);
      Record(KillWaitFires, before);
    }

    method OnHeartbeat()
      requires Valid() && heartbeatTimer
      modifies this
      ensures Valid() && seen == old(seen) + [HeartbeatFires]
      ensures promise == old(promise) && stdout == old(stdout) && stderr == old(stderr) && timedOut == old(timedOut)
    {
      ghost var before := AsState();
      WriteLog();
      Record(HeartbeatFires, before);
    }
  }

  /** Output that arrives after the promise was settled. */
  predicate IsLate(es: seq<Event>, i: nat)
    requires i < |es|
  {
    Decisive(es).Some? && Decisive(es).value < i && (es[i].Stdout? || es[i].Stderr?)
  }

  /** No data event follows a close event: Node emits `close` only after the output streams have ended. */
  predicate ClosesLast(es: seq<Event>) {
    forall i, j | 0 <= i < j < |es| :: es[i].Closed? ==> !(es[j].Stdout? || es[j].Stderr?)
  }

  /** Then the log is written too late only in runs that were settled by an error or by giving up on a process
      that would not die. */
  lemma {:induction false} LateWritesNeedALivingProcess(es: seq<Event>)
    requires ClosesLast(es) && LateData(es) > 0
    ensures Decisive(es).Some?
    ensures es[Decisive(es).value].Errored? || es[Decisive(es).value].KillWaitFires?
  {
    LogIsWrittenLateIff(es);
  }

  /** The log is written after it was ended exactly when the process prints after the promise was settled. */
  lemma {:induction false} LogIsWrittenLateIff(es: seq<Event>)
    ensures LateData(es) > 0 <==> exists i | 0 <= i < |es| :: IsLate(es, i)
  {
    if es != [] {
      var n := |es| - 1;
      var init := es[..n];
      LogIsWrittenLateIff(init);
      forall i | 0 <= i < n ensures IsLate(es, i) <==> IsLate(init, i) {
        assert es[i] == init[i];
      }
      assert IsLate(es, n) <==> Decisive(init).Some? && (es[n].Stdout? || es[n].Stderr?);
    }
  }

  /** For that a run need only outlive its kill. */
  lemma {:induction false} LogIsWrittenLate(o: Options, text: string)
    requires o.hasTimeout
    ensures var es := [TimerFires, KillWaitFires, Stdout(text)];
            IsRun(o, es) && Verdict(o, es) == Some(NotTerminated) && LateData(es) == 1
  {
    var es1, es2 := [TimerFires], [TimerFires, KillWaitFires];
    var es3 := [TimerFires, KillWaitFires, Stdout(text)];
    assert es1[..|es1| - 1] == [] && es2[..|es2| - 1] == es1 && es3[..|es3| - 1] == es2;
    assert es1[0] == TimerFires && TimerFires in es1;
    assert IsRun(o, []) && Decisive([]) == None && Possible(o, [], TimerFires);
    assert IsRun(o, es1);
    assert Decisive(es1[..0]) == None && Decisive(es1) == None;
    assert es2[|es2| - 1] == KillWaitFires && Possible(o, es1, KillWaitFires);
    assert IsRun(o, es2) && Decisive(es2) == Some(1);
    SettlesOnce(o, es2, [Stdout(text)]);
    assert es2 + [Stdout(text)] == es3;
  }

  predicate NoErrors(es: seq<Event>) {
    forall i | 0 <= i < |es| :: !es[i].Errored?
  }

  /** No run without errors writes to the log after ending it exactly when runs have no time limit. */
  lemma {:induction false} LogIsNeverLateIffNoTimeLimit(o: Options)
    ensures (forall es | IsRun(o, es) && ClosesLast(es) && NoErrors(es) :: LateData(es) == 0) <==> !o.hasTimeout
  {
    if o.hasTimeout {
      LogIsWrittenLate(o, "");
      var es := [TimerFires, KillWaitFires, Stdout("")];
      assert IsRun(o, es) && ClosesLast(es) && NoErrors(es) && LateData(es) == 1;
    } else {
      forall es | IsRun(o, es) && ClosesLast(es) && NoErrors(es)
        ensures LateData(es) == 0
      {
        NoTimerAfterDecisive(o, es);
        if LateData(es) > 0 {
          LateWritesNeedALivingProcess(es);
          KillWaitNeedsTimeout(o, es, Decisive(es).value);
        }
      }
    }
  }
}
