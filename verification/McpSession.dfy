/** `MCPToolCallSession` as an object: each method is one uninterrupted block of the
    source, updates the session's fields in place, and is proved to be the step of the
    protocol machines in McpCalls and McpStop that the theorems there speak about. */
module McpSession {
  import opened McpCalls
  import S = McpStop

  /** Two pending calls never share a result queue. */
  lemma PendingQueuesDistinct(s: Session)
    requires Addressed(s)
    ensures forall c | c in s.pending :: s.pending[c] < |s.boxes|
    ensures forall c, d | c in s.pending && d in s.pending && s.pending[c] == s.pending[d] :: c == d
  {
    forall c | c in s.pending
      ensures s.pending[c] < |s.boxes| && s.boxes[s.pending[c]].creator == c
    {
      assert OwnTask(s, Task(c, s.pending[c]));
    }
  }

  /** The loop that puts "Session is closing" into the queue of each pending call: every
      queue gets the message once, and no other queue changes. */
  method TellClosing(pending: map<CallId, nat>, boxes: seq<Mailbox>) returns (told: seq<Mailbox>)
    requires forall c | c in pending :: pending[c] < |boxes|
    requires forall c, d | c in pending && d in pending && pending[c] == pending[d] :: c == d
    ensures told == PutClosing(boxes, pending.Values)
  {
    hide PutClosing;
    told := boxes;
    var left := pending.Keys;
    while left != {}
      invariant left <= pending.Keys && |told| == |boxes|
      invariant forall c | c in left :: told[pending[c]] == boxes[pending[c]]
      invariant forall c | c in pending && c !in left ::
                  told[pending[c]] == Mailbox(boxes[pending[c]].creator, boxes[pending[c]].messages + [Closing])
      invariant forall i | 0 <= i < |boxes| && i !in pending.Values :: told[i] == boxes[i]
      decreases |left|
    {
      var c :| c in left;
      told := Put(told, pending[c], Closing);
      left := left - {c};
    }
    AllTold(pending, boxes, told);
  }

  lemma AllTold(pending: map<CallId, nat>, boxes: seq<Mailbox>, told: seq<Mailbox>)
    requires |told| == |boxes| && forall c | c in pending :: pending[c] < |boxes|
    requires forall c | c in pending ::
               told[pending[c]] == Mailbox(boxes[pending[c]].creator, boxes[pending[c]].messages + [Closing])
    requires forall i | 0 <= i < |boxes| && i !in pending.Values :: told[i] == boxes[i]
    ensures told == PutClosing(boxes, pending.Values)
  {
  }

  /** What the done-callback and `close` see of the shutdown future. */
  function FutureOf(s: Shutdown): S.Future {
    match s
    case Absent => S.NoFuture
    case Complete(_) => S.Resolved
    case _ => S.Running
  }

  class MCPToolCallSession {
    var closing: bool
    var callers: map<CallId, Caller>
    var pendingCalls: map<CallId, nat>
    var resultQueues: seq<Mailbox>
    var taskQueue: seq<Task>
    var abandoned: set<CallId>
    var server: Server
    var submissions: nat
    var shutdownFuture: Shutdown
    var requestTasks: set<CallId>
    var onLoop: OnLoop

    var ownerCloseWaiters: nat
    var stopHandle: S.Handle
    var timers: seq<S.Timer>
    var closers: set<nat>
    var callback: S.Callback
    var loopClosed: bool

    function View(): Session
      reads this
    {
      Session(closing, callers, pendingCalls, resultQueues, taskQueue, abandoned, server, submissions,
              shutdownFuture, requestTasks, onLoop)
    }

    function StopView(): S.Stop
      reads this
    {
      S.Stop(ownerCloseWaiters, closers, FutureOf(shutdownFuture), callback, timers, stopHandle, loopClosed)
    }

    constructor ()
      ensures View() == Fresh && StopView() == S.Fresh
    {
      closing, callers, pendingCalls, resultQueues, taskQueue := false, map[], map[], [], [];
      abandoned, server, submissions, shutdownFuture := {}, Unstarted, 0, Absent;
      requestTasks, onLoop := {}, Free;
      ownerCloseWaiters, stopHandle, timers, closers := 0, S.NoHandle, [], {};
      callback, loopClosed := S.NotDue, false;
    }

    /** The locked block of `tool_call` and `get_tools`. */
    method SubmitCall(c: CallId) returns (accepted: bool)
      requires Enabled(View(), McpCalls.SubmitCall(c))
      modifies this`callers
      ensures View() == Next(old(View()), McpCalls.SubmitCall(c))
      ensures accepted == !closing
    {
      accepted := !closing;
      callers := callers[c := if closing then Finished(SessionClosed) else Submitted];
    }

    /** The registering half of `_call_mcp_server`: a new result queue, the pending entry
        and the queued task appear together. */
    method Register(c: CallId) returns (box: nat)
      requires Enabled(View(), McpCalls.Register(c))
      modifies this`callers, this`onLoop, this`pendingCalls, this`resultQueues, this`taskQueue
      ensures View() == Next(old(View()), McpCalls.Register(c))
      ensures c in pendingCalls && pendingCalls[c] == box == old(|resultQueues|)
    {
      box := |resultQueues|;
      resultQueues := resultQueues + [Mailbox(c, [])];
      pendingCalls := pendingCalls[c := box];
      taskQueue := taskQueue + [Task(c, box)];
      callers, onLoop := callers[c := Waiting], Free;
    }

    /** The end of `_call_mcp_server`: take a result, then abandon and unregister. */
    method TakeResult(c: CallId) returns (o: Outcome)
      requires Enabled(View(), McpCalls.TakeResult(c))
      modifies this`callers, this`pendingCalls, this`abandoned
      ensures View() == Next(old(View()), McpCalls.TakeResult(c))
      ensures callers[c] == Finished(o) && c !in pendingCalls
    {
      o := OutcomeOf(resultQueues[pendingCalls[c]].messages[0]);
      callers := callers[c := Finished(o)];
      abandoned := abandoned + {c};
      pendingCalls := pendingCalls - {c};
    }

    /** One turn of `_process_mcp_tasks` up to the server call: skip an abandoned or
        expired task, refuse it when there is no client session, else start the call. */
    method TakeTask(expired: bool, refuse: bool)
      requires Inv(View()) && Enabled(View(), ServerGet(expired))
      modifies this`taskQueue, this`server, this`resultQueues
      ensures taskQueue == old(taskQueue)[1..]
      ensures OwnTask(old(View()), old(taskQueue)[0])
      ensures View() == Next(old(View()), if refuse && !expired then ServerRefuse else ServerGet(expired))
    {
      var task := taskQueue[0];
      assert OwnTask(View(), task);
      taskQueue := taskQueue[1..];
      if task.request in abandoned || expired {
        server := LoopTop;
      } else if refuse {
        resultQueues := Put(resultQueues, task.box, ServerError(task.request));
        server := LoopTop;
      } else {
        server := Calling(task);
      }
    }

    /** The end of the turn: the result goes to the queue the task came with. */
    method PutResult(m: Message)
      requires Inv(View()) && Enabled(View(), ServerPut(m))
      modifies this`server, this`resultQueues
      ensures View() == Next(old(View()), ServerPut(m))
    {
      resultQueues := Put(resultQueues, server.task.box, m);
      server := LoopTop;
    }

    /** The transport fails during a server call: the task is dropped, its caller is left
        to its deadline, and the loop starts over without a client session. */
    method LoseTransport()
      requires Enabled(View(), ServerLost)
      modifies this`server
      ensures View() == Next(old(View()), ServerLost)
      ensures !server.Calling?
    {
      server := LoopTop;
    }

    /** `_begin_shutdown`: only the first caller for whom the submission succeeds
        creates the shutdown coroutine. */
    method BeginShutdown(submits: bool)
      modifies this`closing, this`shutdownFuture, this`submissions
      ensures View() == Next(old(View()), McpCalls.BeginShutdown(submits))
      ensures StopView() == S.Next(old(StopView()), S.BeginShutdown(submits))
    {
      if shutdownFuture.Absent? {
        closing := true;
        if submits {
          shutdownFuture := Scheduled;
          submissions := submissions + 1;
        }
      }
    }

    /** The first block of `_shutdown_on_event_loop`: tell every pending call that the
        session is closing, then drain the task queue. */
    method NotifyPending()
      requires Inv(View()) && Enabled(View(), ShutdownNotify)
      modifies this`requestTasks, this`resultQueues, this`taskQueue, this`shutdownFuture
      ensures View() == Next(old(View()), ShutdownNotify)
      ensures StopView() == old(StopView())
    {
      hide Closed, Registered, Addressed, PutClosing;
      PendingQueuesDistinct(View());
      var told := TellClosing(pendingCalls, resultQueues);
      var queue := taskQueue;
      while queue != []
        decreases |queue|
      {
        queue := queue[1..];
      }
      requestTasks, resultQueues, taskQueue, shutdownFuture := pendingCalls.Keys, told, queue, Notified;
    }

    /** `_schedule_event_loop_stop` */
    method ScheduleEventLoopStop()
      requires stopHandle.Handle? ==> stopHandle.index < |timers|
      modifies this`timers, this`stopHandle
      ensures StopView() == S.Schedule(old(StopView()))
    {
      if ownerCloseWaiters > 0 || loopClosed {
        return;
      }
      if stopHandle.NoHandle? || timers[stopHandle.index].Cancelled? {
        stopHandle := S.Handle(|timers|);
        timers := timers + [S.Armed];
      }
    }

    /** The first block of `close` on the owner loop: count the waiter, cancel the stop. */
    method CloseEnter(k: nat)
      requires S.Inv(StopView()) && S.Enabled(StopView(), S.CloseEnter(k))
      modifies this`ownerCloseWaiters, this`closers, this`timers, this`stopHandle
      ensures StopView() == S.Next(old(StopView()), S.CloseEnter(k))
    {
      ownerCloseWaiters := ownerCloseWaiters + 1;
      closers := closers + {k};
      if stopHandle.Handle? {
        if timers[stopHandle.index].Armed? {
          timers := timers[stopHandle.index := S.Cancelled];
        }
        stopHandle := S.NoHandle;
      }
    }

    /** The `finally` block of `close` on the owner loop. */
    method CloseLeave(k: nat)
      requires S.Inv(StopView()) && S.Enabled(StopView(), S.CloseLeave(k))
      modifies this`ownerCloseWaiters, this`closers, this`timers, this`stopHandle
      ensures StopView() == S.Next(old(StopView()), S.CloseLeave(k))
    {
      ownerCloseWaiters := ownerCloseWaiters - 1;
      closers := closers - {k};
      if ownerCloseWaiters == 0 && shutdownFuture.Complete? {
        ScheduleEventLoopStop();
      }
    }
  }
}
