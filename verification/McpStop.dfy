/** When the private event loop of an MCP session is told to stop
    (common/mcp_tool_call_conn.py): the "owner close waiters" counter against the
    zero-delay stop timer.  Every step is one uninterrupted block of the loop thread,
    except `BeginShutdown`, which runs under the shutdown lock. */
module McpStop {

  /** A timer handle returned by `call_later(0, loop.stop)`. */
  datatype Timer = Armed | Cancelled | Fired

  datatype Future = NoFuture | Running | Resolved

  /** The done-callback of the shutdown future: not due, posted to the loop, or run. */
  datatype Callback = NotDue | Posted | Ran

  datatype Handle = NoHandle | Handle(index: nat)

  datatype Stop = Stop(
    waiters: nat,
    closers: set<nat>,
    future: Future,
    callback: Callback,
    timers: seq<Timer>,
    handle: Handle,
    loopClosed: bool)

  datatype Event =
    | CloseEnter(closer: nat)
    | CloseLeave(closer: nat)
    | BeginShutdown(submitted: bool)
    | ShutdownResolve
    | RunCallback
    | Fire(index: nat)
    | LoopClose

  const Fresh := Stop(0, {}, NoFuture, NotDue, [], NoHandle, false)

  predicate Enabled(s: Stop, e: Event) {
    match e
    case CloseEnter(k) => k !in s.closers && !s.loopClosed
    case CloseLeave(k) => k in s.closers && s.waiters > 0
    case BeginShutdown(_) => true
    case ShutdownResolve => s.future.Running?
    case RunCallback => s.callback.Posted?
    case Fire(i) => i < |s.timers| && s.timers[i].Armed?
    case LoopClose => Fired in s.timers
  }

  /** Cancelling a timer that has already run changes nothing that can still happen. */
  function CancelTimer(timers: seq<Timer>, h: Handle): seq<Timer> {
    if h.Handle? && h.index < |timers| && timers[h.index].Armed? then timers[h.index := Cancelled] else timers
  }

  /** `_schedule_event_loop_stop` */
  function Schedule(s: Stop): Stop {
    if s.waiters > 0 || s.loopClosed then s
    else if s.handle.NoHandle? || (s.handle.index < |s.timers| && s.timers[s.handle.index].Cancelled?)
    then s.(timers := s.timers + [Armed], handle := Handle(|s.timers|))
    else s
  }

  function Next(s: Stop, e: Event): Stop
    requires Enabled(s, e)
  {
    match e
    case CloseEnter(k) =>
      s.(waiters := s.waiters + 1, closers := s.closers + {k},
         timers := CancelTimer(s.timers, s.handle), handle := NoHandle)
    case CloseLeave(k) =>
      var left := s.(waiters := s.waiters - 1, closers := s.closers - {k});
      if left.waiters == 0 && left.future.Resolved? then Schedule(left) else left
    case BeginShutdown(submitted) =>
      if s.future.NoFuture? && submitted then s.(future := Running) else s
    case ShutdownResolve => s.(future := Resolved, callback := if s.loopClosed then Ran else Posted)
    case RunCallback => Schedule(s.(callback := Ran))
    case Fire(i) => s.(timers := s.timers[i := Fired])
    case LoopClose => s.(loopClosed := true)
  }

  predicate CanRun(s: Stop, run: seq<Event>)
    decreases |run|
  {
    run == [] || (Enabled(s, run[0]) && CanRun(Next(s, run[0]), run[1..]))
  }

  function Run(s: Stop, run: seq<Event>): Stop
    requires CanRun(s, run)
    decreases |run|
  {
    if run == [] then s else Run(Next(s, run[0]), run[1..])
  }

  /** A stop request is on its way or has been made. */
  ghost predicate StopUnderWay(s: Stop) {
    exists i :: 0 <= i < |s.timers| && !s.timers[i].Cancelled?
  }

  /** An armed timer is the one `_stop_handle` names, and `_stop_handle` never names a
      cancelled one. */
  ghost predicate OneTimer(s: Stop) {
    && (forall i | 0 <= i < |s.timers| && s.timers[i].Armed? :: s.handle == Handle(i))
    && (s.handle.Handle? ==> s.handle.index < |s.timers| && !s.timers[s.handle.index].Cancelled?)
    && (s.loopClosed ==> Fired in s.timers)
  }

  ghost predicate Inv(s: Stop) {
    && s.waiters == |s.closers|
    && OneTimer(s)
    && (s.waiters > 0 ==> Armed !in s.timers)
    && (s.callback.NotDue? <==> !s.future.Resolved?)
    && (s.callback.Ran? && s.waiters == 0 ==> StopUnderWay(s))
    && (s.timers != [] ==> s.future.Resolved?)
  }

  lemma ScheduleArms(s: Stop)
    requires OneTimer(s) && s.waiters == 0
    ensures OneTimer(Schedule(s)) && StopUnderWay(Schedule(s))
  {
    var n := Schedule(s);
    if s.loopClosed {
      var i :| 0 <= i < |s.timers| && s.timers[i] == Fired;
    } else if s.handle.NoHandle? {
      assert n.timers[|s.timers|].Armed?;
    } else {
      assert !n.timers[s.handle.index].Cancelled?;
    }
  }

  lemma CloseEnterInv(s: Stop, k: nat)
    requires Inv(s) && Enabled(s, CloseEnter(k))
    ensures Inv(Next(s, CloseEnter(k)))
  {}

  lemma CloseLeaveInv(s: Stop, k: nat)
    requires Inv(s) && Enabled(s, CloseLeave(k))
    ensures Inv(Next(s, CloseLeave(k)))
  {
    var left := s.(waiters := s.waiters - 1, closers := s.closers - {k});
    assert OneTimer(left);
    if left.waiters == 0 { ScheduleArms(left); }
  }

  lemma FireInv(s: Stop, i: nat)
    requires Inv(s) && Enabled(s, Fire(i))
    ensures Inv(Next(s, Fire(i)))
  {
    var n := Next(s, Fire(i));
    assert n.timers[i].Fired?;
  }

  lemma InvStep(s: Stop, e: Event)
    requires Inv(s) && Enabled(s, e)
    ensures Inv(Next(s, e))
  {
    match e
    case CloseEnter(k) => CloseEnterInv(s, k);
    case CloseLeave(k) => CloseLeaveInv(s, k);
    case Fire(i) => FireInv(s, i);
    case RunCallback =>
      if s.waiters == 0 { ScheduleArms(s.(callback := Ran)); }
    case _ =>
  }

  lemma {:induction false} RunInv(s: Stop, run: seq<Event>)
    requires Inv(s) && CanRun(s, run)
    ensures Inv(Run(s, run))
    decreases |run|
  {
    if run != [] {
      InvStep(s, run[0]);
      RunInv(Next(s, run[0]), run[1..]);
    }
  }

  /** `loop.stop` is only ever called when no owner-loop closer is waiting. */
  lemma StopFiresUnwatched(run: seq<Event>, i: nat)
    requires CanRun(Fresh, run) && Enabled(Run(Fresh, run), Fire(i))
    ensures Run(Fresh, run).closers == {}
  {
    RunInv(Fresh, run);
  }

  /** Once the shutdown future is resolved and its callback has run, the stop is armed
      or has fired whenever nobody waits, whatever order closers came and left in. */
  lemma StopIsNeverForgotten(run: seq<Event>)
    requires CanRun(Fresh, run)
    requires Run(Fresh, run).callback.Ran? && Run(Fresh, run).closers == {}
    ensures var s := Run(Fresh, run);
            s.future.Resolved? && exists i :: 0 <= i < |s.timers| && (s.timers[i].Armed? || s.timers[i].Fired?)
  {
    RunInv(Fresh, run);
    var s := Run(Fresh, run);
    var i :| 0 <= i < |s.timers| && !s.timers[i].Cancelled?;
    assert s.timers[i].Armed? || s.timers[i].Fired?;
  }

  /** No stop is ever armed, let alone fired, before the shutdown is done: the loop is not
      stopped in the middle of it, not even when a closer gives up waiting. */
  lemma StopOnlyAfterShutdown(run: seq<Event>)
    requires CanRun(Fresh, run) && Run(Fresh, run).timers != []
    ensures Run(Fresh, run).future.Resolved?
  {
    RunInv(Fresh, run);
  }

  /** At most one stop is armed at a time, and it is the one the session can cancel. */
  lemma OneStopAtATime(run: seq<Event>, i: nat, j: nat)
    requires CanRun(Fresh, run)
    ensures var s := Run(Fresh, run);
            i < |s.timers| && j < |s.timers| && s.timers[i].Armed? && s.timers[j].Armed? ==> i == j && s.handle == Handle(i)
  {
    RunInv(Fresh, run);
  }

  /** A closed loop is not asked for another timer. */
  lemma {:induction false} NoTimerAfterClose(s: Stop, run: seq<Event>)
    requires s.loopClosed && CanRun(s, run)
    ensures Run(s, run).loopClosed && |Run(s, run).timers| == |s.timers|
    decreases |run|
  {
    if run != [] { NoTimerAfterClose(Next(s, run[0]), run[1..]); }
  }
}
