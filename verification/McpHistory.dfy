/** What the outcomes of an MCP session's calls say about the run that led to them
    (common/mcp_tool_call_conn.py): each ending is earned by an event of the run, a caller
    gets the oldest message addressed to it, the server works only for callers that still
    wait, and closing is heard by callers and server. */
module McpHistory {
  import opened Basics
  import opened McpCalls

  lemma RunSnoc(past: seq<Event>, e: Event)
    requires CanRun(Fresh, past) && Enabled(Run(Fresh, past), e)
    ensures CanRun(Fresh, past + [e]) && Run(Fresh, past + [e]) == Next(Run(Fresh, past), e)
  {
    hide Next, Enabled;
    var s := Run(Fresh, past);
    assert [e][1..] == [] && CanRun(Next(s, e), []);
    assert CanRun(s, [e]) && Run(s, [e]) == Run(Next(s, e), []) == Next(s, e);
    RunAppend(Fresh, past, [e]);
  }

  // ------------------------------------------------------------------ who has a queue

  /** Every call has at most one result queue, and only calls that have registered have one. */
  ghost predicate OneQueueEach(s: Session) {
    && (forall i, j | 0 <= i < j < |s.boxes| :: s.boxes[i].creator != s.boxes[j].creator)
    && (forall i | 0 <= i < |s.boxes| :: Is(s, s.boxes[i].creator, Waiting) || Done(s, s.boxes[i].creator))
  }

  /** A registered call is abandoned exactly when it has left. */
  ghost predicate AbandonedLeft(s: Session) {
    && (forall c | c in s.abandoned :: Done(s, c))
    && (forall i | 0 <= i < |s.boxes| && Done(s, s.boxes[i].creator) :: s.boxes[i].creator in s.abandoned)
  }

  ghost predicate Queues(s: Session) { OneQueueEach(s) && AbandonedLeft(s) }

  lemma SameCreators(s: Session, e: Event)
    requires Enabled(s, e) && !e.Register?
    ensures |Next(s, e).boxes| == |s.boxes|
    ensures forall i | 0 <= i < |s.boxes| :: Next(s, e).boxes[i].creator == s.boxes[i].creator
  {
  }

  lemma QueuesStep(s: Session, e: Event)
    requires Inv(s) && Queues(s) && Enabled(s, e)
    ensures Queues(Next(s, e))
  {
    hide Inv, OneQueueEach, AbandonedLeft;
    OneQueueStep(s, e);
    AbandonedStep(s, e);
  }

  lemma OneQueueStep(s: Session, e: Event)
    requires Inv(s) && OneQueueEach(s) && Enabled(s, e)
    ensures OneQueueEach(Next(s, e))
  {
    hide Addressed, Closed, Put, PutClosing;
    if !e.Register? { SameCreators(s, e); }
  }

  lemma AbandonedStep(s: Session, e: Event)
    requires Inv(s) && Queues(s) && Enabled(s, e)
    ensures AbandonedLeft(Next(s, e))
  {
    hide Addressed, Closed, Put, PutClosing;
    if !e.Register? { SameCreators(s, e); }
  }

  lemma {:induction false} QueuesAlong(s: Session, run: seq<Event>)
    requires Inv(s) && Queues(s) && CanRun(s, run)
    ensures Inv(Run(s, run)) && Queues(Run(s, run))
    decreases |run|
  {
    hide Inv, Queues, Next, Enabled;
    if run != [] {
      InvStep(s, run[0]);
      QueuesStep(s, run[0]);
      QueuesAlong(Next(s, run[0]), run[1..]);
    }
  }

  lemma Reached(run: seq<Event>)
    requires CanRun(Fresh, run)
    ensures Inv(Run(Fresh, run)) && Queues(Run(Fresh, run))
  {
    QueuesAlong(Fresh, run);
  }

  // ------------------------------------------------------------------ the oldest message

  /** What an event delivers to a call, told by call ids alone. */
  function Delivered(s: Session, e: Event, c: CallId): seq<Message>
    requires Enabled(s, e)
  {
    match e
    case ServerPut(m) => if m == Closing || m.answers != c then [] else [m]
    case ServerRefuse => if s.queue[0].request == c && !Done(s, c) then [ServerError(c)] else []
    case ShutdownNotify => if Is(s, c, Waiting) then [Closing] else []
    case _ => []
  }

  /** Everything a run delivers to a call, in order. */
  function Deliveries(s: Session, run: seq<Event>, c: CallId): seq<Message>
    requires CanRun(s, run)
    decreases |run|
  {
    if run == [] then [] else Delivered(s, run[0], c) + Deliveries(Next(s, run[0]), run[1..], c)
  }

  /** The messages in the result queue of a call; none before it registers. */
  ghost function Inbox(s: Session, c: CallId): seq<Message> {
    if exists i: nat :: i < |s.boxes| && s.boxes[i].creator == c then
      var i: nat :| i < |s.boxes| && s.boxes[i].creator == c;
      s.boxes[i].messages
    else []
  }

  lemma InboxAt(s: Session, i: nat)
    requires Queues(s) && i < |s.boxes|
    ensures Inbox(s, s.boxes[i].creator) == s.boxes[i].messages
  {
  }

  /** An event adds to each inbox exactly what it delivers to the call. */
  lemma InboxStep(s: Session, e: Event, c: CallId)
    requires Inv(s) && Queues(s) && Enabled(s, e)
    ensures Inbox(Next(s, e), c) == Inbox(s, c) + Delivered(s, e, c)
  {
    hide Inv, Queues;
    QueuesStep(s, e);
    if i: nat :| i < |s.boxes| && s.boxes[i].creator == c {
      BoxStep(s, e, i);
      InboxAt(s, i);
      InboxAt(Next(s, e), i);
    } else {
      NothingDelivered(s, e, c);
      if e.Register? && e.call == c {
        var n := Next(s, e);
        assert n.boxes[|s.boxes|] == Mailbox(c, []);
        InboxAt(n, |s.boxes|);
      } else {
        NoBoxStep(s, e, c);
      }
    }
  }

  lemma NoBoxStep(s: Session, e: Event, c: CallId)
    requires Enabled(s, e) && !(e.Register? && e.call == c)
    requires forall i | 0 <= i < |s.boxes| :: s.boxes[i].creator != c
    ensures Inbox(Next(s, e), c) == []
  {
    if !e.Register? { SameCreators(s, e); }
  }

  lemma TaskBox(s: Session, t: Task, i: nat)
    requires Queues(s) && OwnTask(s, t) && i < |s.boxes|
    ensures t.request == s.boxes[i].creator <==> t.box == i
  {
  }

  lemma BoxStep(s: Session, e: Event, i: nat)
    requires Inv(s) && Queues(s) && Enabled(s, e) && i < |s.boxes|
    ensures i < |Next(s, e).boxes| && Next(s, e).boxes[i].creator == s.boxes[i].creator
    ensures Next(s, e).boxes[i].messages == s.boxes[i].messages + Delivered(s, e, s.boxes[i].creator)
  {
    hide Queues, Closed;
    var c := s.boxes[i].creator;
    match e
    case ServerPut(m) => TaskBox(s, s.server.task, i);
    case ServerRefuse =>
      assert OwnTask(s, s.queue[0]);
      TaskBox(s, s.queue[0], i);
      CreatorIs(s, i);
      CreatorIs(s, s.queue[0].box);
    case ShutdownNotify => PendingBox(s, i);
    case _ =>
  }

  lemma CreatorIs(s: Session, i: nat)
    requires Queues(s) && i < |s.boxes|
    ensures var c := s.boxes[i].creator;
            (Is(s, c, Waiting) || Done(s, c)) && (c in s.abandoned <==> Done(s, c))
  {
  }

  lemma PendingBox(s: Session, i: nat)
    requires Inv(s) && Queues(s) && i < |s.boxes|
    ensures i in s.pending.Values <==> Is(s, s.boxes[i].creator, Waiting)
  {
    hide Closed;
    var c := s.boxes[i].creator;
    if i in s.pending.Values {
      var d :| d in s.pending && s.pending[d] == i;
      assert OwnTask(s, Task(d, s.pending[d]));
    }
    if Is(s, c, Waiting) {
      assert c in s.pending && OwnTask(s, Task(c, s.pending[c]));
      TaskBox(s, Task(c, s.pending[c]), i);
    }
  }

  lemma NothingDelivered(s: Session, e: Event, c: CallId)
    requires Inv(s) && Queues(s) && Enabled(s, e)
    requires forall i | 0 <= i < |s.boxes| :: s.boxes[i].creator != c
    ensures Delivered(s, e, c) == []
  {
    hide Queues, Closed;
    match e
    case ServerPut(m) => assert OwnTask(s, s.server.task);
    case ServerRefuse => assert OwnTask(s, s.queue[0]);
    case ShutdownNotify => assert forall d | d in s.pending :: OwnTask(s, Task(d, s.pending[d]));
    case _ =>
  }

  lemma {:induction false} InboxIsHistory(s: Session, run: seq<Event>, c: CallId)
    requires Inv(s) && Queues(s) && CanRun(s, run)
    ensures Inbox(Run(s, run), c) == Inbox(s, c) + Deliveries(s, run, c)
    decreases |run|
  {
    hide Inv, Queues, Inbox, Delivered, Next, Enabled;
    if run != [] {
      var n := Next(s, run[0]);
      InvStep(s, run[0]);
      QueuesStep(s, run[0]);
      InboxStep(s, run[0], c);
      InboxIsHistory(n, run[1..], c);
      assert (Inbox(s, c) + Delivered(s, run[0], c)) + Deliveries(n, run[1..], c)
          == Inbox(s, c) + (Delivered(s, run[0], c) + Deliveries(n, run[1..], c));
    }
  }

  /** A caller that takes its result takes the first thing the run delivered to it, and ends
      accordingly: a reply is returned with its payload, an error is raised, a notice of
      closing ends the call as such. */
  lemma OldestMessageDecides(run: seq<Event>, c: CallId)
    requires CanRun(Fresh, run) && Enabled(Run(Fresh, run), TakeResult(c))
    ensures Deliveries(Fresh, run, c) != []
    ensures var n := Next(Run(Fresh, run), TakeResult(c));
            var first := Deliveries(Fresh, run, c)[0];
            && (first.Reply? ==> Is(n, c, Finished(Returned(c, first.payload))))
            && (first.ServerError? ==> Is(n, c, Finished(ServerFailed(c))))
            && (first.Closing? ==> Is(n, c, Finished(SessionClosing)))
  {
    hide Queues, Closed;
    Reached(run);
    Reached([]);
    var s := Run(Fresh, run);
    InboxIsHistory(Fresh, run, c);
    assert OwnTask(s, Task(c, s.pending[c]));
    var i := s.pending[c];
    InboxAt(s, i);
    assert Inbox(Fresh, c) == [];
    assert s.boxes[i] in s.boxes && OwnMessages(s.boxes[i]) && s.boxes[i].messages[0] in s.boxes[i].messages;
  }

  // ------------------------------------------------------------------ endings are earned

  /** The server refused the task of a call somewhere in the run. */
  ghost predicate Refused(run: seq<Event>, c: CallId)
    requires CanRun(Fresh, run)
  {
    exists i: nat :: i < |run| && CanRun(Fresh, run[..i]) && run[i] == ServerRefuse
                     && Run(Fresh, run[..i]).queue != [] && Run(Fresh, run[..i]).queue[0].request == c
  }

  ghost predicate ShutdownBegun(run: seq<Event>) { BeginShutdown(true) in run || BeginShutdown(false) in run }

  ghost predicate EarnedMessage(run: seq<Event>, c: CallId, m: Message)
    requires CanRun(Fresh, run)
  {
    match m
    case Reply(d, p) => d == c && ServerPut(Reply(c, p)) in run
    case ServerError(d) => d == c && (ServerPut(ServerError(c)) in run || Refused(run, c))
    case Closing => ShutdownNotify in run
  }

  /** The event of the run that an ending goes back to. */
  ghost predicate EarnedOutcome(run: seq<Event>, c: CallId, o: Outcome)
    requires CanRun(Fresh, run)
  {
    match o
    case Returned(d, p) => d == c && ServerPut(Reply(c, p)) in run
    case ServerFailed(d) => d == c && (ServerPut(ServerError(c)) in run || Refused(run, c))
    case SessionClosing => ShutdownNotify in run
    case SessionClosed => ShutdownBegun(run)
    case TimedOut => Expire(c) in run
    case Cancelled => CancelCall(c) in run
  }

  ghost predicate AllEarned(run: seq<Event>)
    requires CanRun(Fresh, run)
  {
    var s := Run(Fresh, run);
    && (forall c | c in s.callers && s.callers[c].Finished? :: EarnedOutcome(run, c, s.callers[c].outcome))
    && (forall b, m | b in s.boxes && m in b.messages :: EarnedMessage(run, b.creator, m))
    && (s.closing <==> ShutdownBegun(run))
  }

  lemma RefusedStays(past: seq<Event>, e: Event, c: CallId)
    requires CanRun(Fresh, past) && CanRun(Fresh, past + [e]) && Refused(past, c)
    ensures Refused(past + [e], c)
  {
    hide Run, CanRun;
    var i: nat :| i < |past| && CanRun(Fresh, past[..i]) && past[i] == ServerRefuse
                  && Run(Fresh, past[..i]).queue != [] && Run(Fresh, past[..i]).queue[0].request == c;
    assert (past + [e])[..i] == past[..i] && (past + [e])[i] == past[i];
  }

  lemma MessageStays(past: seq<Event>, e: Event, c: CallId, m: Message)
    requires CanRun(Fresh, past) && CanRun(Fresh, past + [e]) && EarnedMessage(past, c, m)
    ensures EarnedMessage(past + [e], c, m)
  {
    hide Run, CanRun;
    if Refused(past, c) { RefusedStays(past, e, c); }
  }

  lemma OutcomeStays(past: seq<Event>, e: Event, c: CallId, o: Outcome)
    requires CanRun(Fresh, past) && CanRun(Fresh, past + [e]) && EarnedOutcome(past, c, o)
    ensures EarnedOutcome(past + [e], c, o)
  {
    hide Run, CanRun;
    if Refused(past, c) { RefusedStays(past, e, c); }
  }

  lemma DeliveredIsEarned(past: seq<Event>, e: Event, c: CallId, m: Message)
    requires CanRun(Fresh, past) && Enabled(Run(Fresh, past), e) && CanRun(Fresh, past + [e])
    requires m in Delivered(Run(Fresh, past), e, c)
    ensures EarnedMessage(past + [e], c, m)
  {
    hide Run, CanRun;
    var run := past + [e];
    assert run[|past|] == e && run[..|past|] == past && e in run;
    assert e.ServerRefuse? ==> Run(Fresh, past).queue != [];
  }

  lemma MessagesEarned(past: seq<Event>, e: Event)
    requires CanRun(Fresh, past) && Enabled(Run(Fresh, past), e) && CanRun(Fresh, past + [e])
    requires Inv(Run(Fresh, past)) && Queues(Run(Fresh, past)) && AllEarned(past)
    ensures var n := Next(Run(Fresh, past), e);
            forall b, m | b in n.boxes && m in b.messages :: EarnedMessage(past + [e], b.creator, m)
  {
    hide Run, CanRun, Inv, Queues, Delivered, EarnedMessage, EarnedOutcome;
    var s := Run(Fresh, past);
    var n := Next(s, e);
    forall b, m | b in n.boxes && m in b.messages ensures EarnedMessage(past + [e], b.creator, m) {
      var i: nat :| i < |n.boxes| && n.boxes[i] == b;
      if i < |s.boxes| {
        BoxStep(s, e, i);
        if m in s.boxes[i].messages {
          assert s.boxes[i] in s.boxes;
          MessageStays(past, e, b.creator, m);
        } else {
          DeliveredIsEarned(past, e, b.creator, m);
        }
      } else {
        NewBoxIsEmpty(s, e, i);
      }
    }
  }

  lemma NewBoxIsEmpty(s: Session, e: Event, i: nat)
    requires Enabled(s, e) && |s.boxes| <= i < |Next(s, e).boxes|
    ensures Next(s, e).boxes[i].messages == []
  {
  }

  /** The ending an event gives to a call. */
  lemma NewEnding(s: Session, e: Event, c: CallId)
    requires Inv(s) && Enabled(s, e) && !Done(s, c) && Done(Next(s, e), c)
    ensures var o := Next(s, e).callers[c].outcome;
            || (e == SubmitCall(c) && s.closing && o == SessionClosed)
            || (e == ReadClose(c) && s.closing && o == SessionClosed)
            || (e == Expire(c) && o == TimedOut)
            || (e == CancelCall(c) && o == Cancelled)
            || (e == TakeResult(c) && c in s.pending && OwnTask(s, Task(c, s.pending[c]))
                && s.boxes[s.pending[c]].messages != []
                && match s.boxes[s.pending[c]].messages[0]
                   case Reply(d, p) => o == Returned(d, p)
                   case ServerError(d) => o == ServerFailed(d)
                   case Closing => o == SessionClosing)
  {
    hide Closed, Put, PutClosing;
  }

  lemma OutcomesEarned(past: seq<Event>, e: Event, c: CallId)
    requires CanRun(Fresh, past) && Enabled(Run(Fresh, past), e) && CanRun(Fresh, past + [e])
    requires Inv(Run(Fresh, past)) && AllEarned(past) && Done(Next(Run(Fresh, past), e), c)
    ensures EarnedOutcome(past + [e], c, Next(Run(Fresh, past), e).callers[c].outcome)
  {
    hide Run, CanRun, Inv, Next, Enabled, Refused;
    var s := Run(Fresh, past);
    assert e in past + [e];
    if Done(s, c) {
      KeepsEnding(s, e, c);
      OutcomeStays(past, e, c, s.callers[c].outcome);
    } else {
      NewEnding(s, e, c);
      if e == TakeResult(c) {
        var b := s.boxes[s.pending[c]];
        var m := b.messages[0];
        assert b in s.boxes && m in b.messages && b.creator == c;
        MessageStays(past, e, c, m);
      }
    }
  }

  lemma KeepsEnding(s: Session, e: Event, c: CallId)
    requires Inv(s) && Enabled(s, e) && Done(s, c)
    ensures Done(Next(s, e), c) && Next(s, e).callers[c] == s.callers[c]
  {
    assert [e][1..] == [] && CanRun(Next(s, e), []);
    assert CanRun(s, [e]) && Run(s, [e]) == Next(s, e);
    OutcomeIsFinal(s, [e], c);
  }

  lemma ClosingStep(s: Session, e: Event)
    requires Enabled(s, e)
    ensures Next(s, e).closing <==> s.closing || (e.BeginShutdown? && s.shutdown.Absent?)
  {
  }

  lemma ClosingEarned(past: seq<Event>, e: Event)
    requires CanRun(Fresh, past) && Enabled(Run(Fresh, past), e) && Inv(Run(Fresh, past)) && AllEarned(past)
    ensures Next(Run(Fresh, past), e).closing <==> ShutdownBegun(past + [e])
  {
    hide Run, CanRun, Addressed, Registered, Told, EarnedMessage, EarnedOutcome;
    ClosingStep(Run(Fresh, past), e);
    assert e.BeginShutdown? ==> e in past + [e];
  }

  lemma EarnedStep(past: seq<Event>, e: Event)
    requires CanRun(Fresh, past) && Enabled(Run(Fresh, past), e) && AllEarned(past)
    ensures CanRun(Fresh, past + [e]) && AllEarned(past + [e])
  {
    hide Run, CanRun, Inv, Queues, EarnedMessage, EarnedOutcome, Next, Enabled, ShutdownBegun;
    Reached(past);
    RunSnoc(past, e);
    MessagesEarned(past, e);
    ClosingEarned(past, e);
    forall c | c in Next(Run(Fresh, past), e).callers && Done(Next(Run(Fresh, past), e), c)
      ensures EarnedOutcome(past + [e], c, Next(Run(Fresh, past), e).callers[c].outcome)
    {
      OutcomesEarned(past, e, c);
    }
  }

  lemma {:induction false} EarnedAlong(past: seq<Event>, run: seq<Event>)
    requires CanRun(Fresh, past) && CanRun(Run(Fresh, past), run) && AllEarned(past)
    ensures CanRun(Fresh, past + run) && AllEarned(past + run)
    decreases |run|
  {
    hide AllEarned, Next, Enabled;
    if run == [] {
      assert past + run == past;
    } else {
      EarnedStep(past, run[0]);
      RunSnoc(past, run[0]);
      assert (past + [run[0]]) + run[1..] == past + run;
      EarnedAlong(past + [run[0]], run[1..]);
    }
  }

  /** Over every run: a call that returns a reply returns one the server put for that very
      call in this run, with its payload; one that fails with a server error was refused or
      put an error; one told of closing was notified; one refused as closed came after a
      closer; timeouts and cancellations are the caller's own. */
  lemma EndingsAreEarned(run: seq<Event>, c: CallId)
    requires CanRun(Fresh, run) && Done(Run(Fresh, run), c)
    ensures EarnedOutcome(run, c, Run(Fresh, run).callers[c].outcome)
  {
    EarnedFromStart(run);
  }

  lemma EarnedFromStart(run: seq<Event>)
    requires CanRun(Fresh, run)
    ensures AllEarned(run)
  {
    hide Next, Enabled;
    assert [] + run == run;
    assert Run(Fresh, []) == Fresh;
    assert AllEarned([]);
    EarnedAlong([], run);
  }

  /** `_close` is up exactly from the first closer on, even if its submission failed. */
  lemma ClosingIffBegun(run: seq<Event>)
    requires CanRun(Fresh, run)
    ensures Run(Fresh, run).closing <==> ShutdownBegun(run)
  {
    EarnedFromStart(run);
  }

  // ------------------------------------------------------------------ the server's work

  /** The server takes up a task exactly when its deadline has not passed and its caller still
      waits; in any other case it goes on without touching a result queue. */
  lemma WorksForTheWaiting(run: seq<Event>, expired: bool)
    requires CanRun(Fresh, run) && Enabled(Run(Fresh, run), ServerGet(expired))
    ensures var s := Run(Fresh, run);
            var n := Next(s, ServerGet(expired));
            && n.queue == s.queue[1..] && n.boxes == s.boxes
            && (n.server == Calling(s.queue[0]) <==> !expired && Is(s, s.queue[0].request, Waiting))
            && (n.server == LoopTop <==> expired || Done(s, s.queue[0].request))
  {
    hide Closed, Registered;
    Reached(run);
    var s := Run(Fresh, run);
    assert OwnTask(s, s.queue[0]);
    CreatorIs(s, s.queue[0].box);
  }

  function Takes(e: Event): nat { if e.ServerGet? || e.ServerRefuse? then 1 else 0 }

  function TaskCount(run: seq<Event>): nat {
    if run == [] then 0 else Takes(run[0]) + TaskCount(run[1..])
  }

  lemma TakesStep(s: Session, e: Event)
    requires s.closing && Enabled(s, e)
    ensures var n := Next(s, e);
            && n.closing
            && Takes(e) + (if n.server.Getting? then 1 else 0) <= (if s.server.Getting? then 1 else 0)
  {
  }

  /** Once `_close` is up the server takes at most the one task it may be waiting for. */
  lemma {:induction false} AtMostOneMoreTask(s: Session, run: seq<Event>)
    requires s.closing && CanRun(s, run)
    ensures TaskCount(run) <= if s.server.Getting? then 1 else 0
    decreases |run|
  {
    hide Next, Enabled;
    if run != [] {
      TakesStep(s, run[0]);
      AtMostOneMoreTask(Next(s, run[0]), run[1..]);
    }
  }

  /** Once `_close` is up, a call that comes later ends as closed at once, and one that was
      submitted earlier but has not looked at `_close` yet ends as closed or is cancelled. */
  ghost predicate LateIsClosed(early: Session, s: Session) {
    && s.closing
    && (forall c | c in s.callers && c !in early.callers :: s.callers[c] == Finished(SessionClosed))
    && (forall c | Is(early, c, Submitted) ::
          Is(s, c, Submitted) || Is(s, c, Finished(SessionClosed)) || Is(s, c, Finished(Cancelled)))
  }

  lemma LateStep(early: Session, s: Session, e: Event)
    requires Inv(s) && LateIsClosed(early, s) && Enabled(s, e)
    ensures LateIsClosed(early, Next(s, e))
  {
    hide Addressed, Closed, Put, PutClosing;
  }

  lemma {:induction false} ClosedRefusesAll(early: Session, s: Session, run: seq<Event>)
    requires Inv(s) && LateIsClosed(early, s) && CanRun(s, run)
    ensures LateIsClosed(early, Run(s, run))
    decreases |run|
  {
    hide Inv, LateIsClosed, Next, Enabled;
    if run != [] {
      LateStep(early, s, run[0]);
      InvStep(s, run[0]);
      ClosedRefusesAll(early, Next(s, run[0]), run[1..]);
    }
  }

  /** In every continuation of a state in which `_close` is up, no new call is served. */
  lemma NoneServedAfterClose(s: Session, run: seq<Event>)
    requires Inv(s) && s.closing && CanRun(s, run)
    ensures LateIsClosed(s, Run(s, run))
  {
    ClosedRefusesAll(s, s, run);
  }

  // ------------------------------------------------------------------ the normal end

  lemma ExitedStep(s: Session, e: Event)
    requires Enabled(s, e) && (s.server.Exited? || e.ShutdownReturn?)
    ensures Next(s, e).server.Exited?
  {
  }

  lemma {:induction false} ExitedStays(s: Session, run: seq<Event>)
    requires CanRun(s, run) && (s.server.Exited? || ShutdownReturn in run)
    ensures Run(s, run).server.Exited?
    decreases |run|
  {
    hide Next, Enabled;
    if run != [] {
      assert run == [run[0]] + run[1..];
      if s.server.Exited? || run[0].ShutdownReturn? { ExitedStep(s, run[0]); }
      ExitedStays(Next(s, run[0]), run[1..]);
    }
  }

  /** A shutdown coroutine that returns normally has seen the server task end. */
  lemma ReturnMeansExited(run: seq<Event>)
    requires CanRun(Fresh, run) && ShutdownReturn in run
    ensures Run(Fresh, run).server.Exited?
  {
    ExitedStays(Fresh, run);
  }

  /** Whether the gather of the shutdown coroutine has ended. */
  predicate Gathered(s: Session) { s.shutdown.Joining? || s.shutdown == Complete(true) }

  lemma GatheredStep(s: Session, e: Event)
    requires Enabled(s, e)
    ensures Gathered(Next(s, e)) <==> Gathered(s) || e.GatherEnd?
  {
  }

  lemma {:induction false} GatheredAlong(s: Session, run: seq<Event>)
    requires CanRun(s, run)
    ensures Gathered(Run(s, run)) <==> Gathered(s) || GatherEnd in run
    decreases |run|
  {
    hide Next, Enabled, Gathered;
    if run != [] {
      assert run == [run[0]] + run[1..];
      GatheredStep(s, run[0]);
      GatheredAlong(Next(s, run[0]), run[1..]);
    }
  }

  /** A shutdown coroutine is past its gather exactly when the gather ended in the run, also
      if it ended with an error later. */
  lemma GatheredIff(run: seq<Event>)
    requires CanRun(Fresh, run)
    ensures Gathered(Run(Fresh, run)) <==> GatherEnd in run
  {
    GatheredAlong(Fresh, run);
  }

  // ------------------------------------------------------------------ an open session serves

  /** The server can get to its queue. */
  lemma CanGet(s: Session) returns (t: Session)
    requires Inv(s) && Queues(s) && Serving(s)
    ensures Reaches(s, t) && Inv(t) && Queues(t) && t.server.Getting? && t == s.(server := Getting)
  {
    hide Reaches, Inv, Queues;
    t := s;
    ReachesSelf(s);
    if t.server.Unstarted? {
      QueuesStep(t, ServerStart);
      t := Onward(s, t, ServerStart);
    }
    if t.server.LoopTop? {
      QueuesStep(t, ServerLoop);
      t := Onward(s, t, ServerLoop);
    }
  }

  lemma ReachesSelf(s: Session)
    ensures Reaches(s, s)
  {
    assert CanRun(s, []) && Run(s, []) == s;
  }

  /** One event further. */
  lemma Onward(s: Session, t: Session, e: Event) returns (u: Session)
    requires Reaches(s, t) && Inv(t) && Enabled(t, e)
    ensures Reaches(s, u) && Inv(u) && u == Next(t, e)
  {
    hide Reaches, Inv, Next, Enabled;
    u := Next(t, e);
    ReachesBy(t, e);
    ReachesOn(s, t, u);
  }

  lemma AliveStep(s: Session, e: Event)
    requires Enabled(s, e) && !Next(s, e).closing && !e.ServerStop? && !s.server.Exited?
    ensures !s.closing && !Next(s, e).server.Exited?
  {
  }

  lemma {:induction false} AliveAlong(s: Session, run: seq<Event>)
    requires CanRun(s, run) && !s.server.Exited? && !Run(s, run).closing && ServerStop !in run
    ensures !s.closing && !Run(s, run).server.Exited?
    decreases |run|
  {
    hide Next, Enabled;
    if run != [] {
      assert run == [run[0]] + run[1..];
      AliveOrClosing(s, run);
      AliveAlong(Next(s, run[0]), run[1..]);
      AliveStep(s, run[0]);
    }
  }

  lemma {:induction false} ClosingStays(s: Session, run: seq<Event>)
    requires CanRun(s, run) && s.closing
    ensures Run(s, run).closing
    decreases |run|
  {
    hide Next, Enabled;
    if run != [] {
      ClosingStep(s, run[0]);
      ClosingStays(Next(s, run[0]), run[1..]);
    }
  }

  lemma AliveOrClosing(s: Session, run: seq<Event>)
    requires CanRun(s, run) && run != [] && !s.server.Exited? && !Run(s, run).closing && run[0] != ServerStop
    ensures !Next(s, run[0]).closing && !Next(s, run[0]).server.Exited?
  {
    hide Next, Enabled;
    if Next(s, run[0]).closing { ClosingStays(Next(s, run[0]), run[1..]); }
    AliveStep(s, run[0]);
  }

  /** As long as nobody closes the session, the server goes on: no timeout, expired task, lost
      transport, refusal or reply ends it, only the end of its own task. */
  lemma ServerGoesOn(run: seq<Event>)
    requires CanRun(Fresh, run) && !Run(Fresh, run).closing && ServerStop !in run
    ensures !Run(Fresh, run).server.Exited?
  {
    AliveAlong(Fresh, run);
  }

  /** The ending a server can give a call: a reply, or an error when it has no client
      session. */
  function Answer(c: CallId, payload: Option<int>): Outcome {
    match payload
    case None => ServerFailed(c)
    case Some(p) => Returned(c, p)
  }

  predicate Serving(s: Session) {
    !s.closing && s.onLoop.Free? && (s.server.Unstarted? || s.server.LoopTop? || s.server.Getting?)
  }

  /** While the session is open and its server alive, a call whose task is in the queue can
      get any answer the server may give, whatever stands in front of it. */
  lemma {:induction false} CanBeServed(s: Session, k: nat, payload: Option<int>) returns (t: Session)
    requires Inv(s) && Queues(s) && Serving(s)
    requires k < |s.queue| && Is(s, s.queue[k].request, Waiting) && Inbox(s, s.queue[k].request) == []
    ensures Reaches(s, t) && Is(t, s.queue[k].request, Finished(Answer(s.queue[k].request, payload)))
    decreases k
  {
    hide Reaches, Inv, Queues, Inbox, Answer;
    var c := s.queue[k].request;
    var g := CanGet(s);
    SameInbox(s, g, c);
    if k > 0 {
      var e := ServerGet(true);
      QueuesStep(g, e);
      InboxStep(g, e, c);
      var n := Onward(s, g, e);
      assert n.queue[k - 1] == s.queue[k];
      t := CanBeServed(n, k - 1, payload);
      ReachesOn(s, n, t);
    } else {
      t := ServedNow(g, payload);
      ReachesOn(s, g, t);
    }
  }

  /** Any call submitted to an open session with a live server can be answered: its task is
      queued when it registers, and nothing in front of it can keep it from its turn. */
  lemma CallCanBeAnswered(s: Session, c: CallId, payload: Option<int>) returns (t: Session)
    requires Inv(s) && Queues(s) && Serving(s) && Is(s, c, Submitted)
    ensures Reaches(s, t) && Is(t, c, Finished(Answer(c, payload)))
  {
    hide Reaches, Inv, Queues, Inbox, Answer;
    ReachesSelf(s);
    QueuesStep(s, ReadClose(c));
    var a := Onward(s, s, ReadClose(c));
    QueuesStep(a, Register(c));
    var b := Onward(s, a, Register(c));
    var k := |b.queue| - 1;
    assert b.queue[k].request == c;
    assert b.boxes[|b.boxes| - 1] == Mailbox(c, []);
    InboxAt(b, |b.boxes| - 1);
    t := CanBeServed(b, k, payload);
    ReachesOn(s, b, t);
  }

  /** A transport failure does not end the server: calls submitted meanwhile can be told. */
  lemma AnswersAfterLoss(s: Session, c: CallId) returns (t: Session)
    requires Inv(s) && Queues(s) && Enabled(s, ServerLost) && Is(s, c, Submitted)
    ensures Reaches(Next(s, ServerLost), t) && Is(t, c, Finished(ServerFailed(c)))
  {
    hide Inv, Queues, Reaches;
    InvStep(s, ServerLost);
    QueuesStep(s, ServerLost);
    t := CallCanBeAnswered(Next(s, ServerLost), c, None);
  }

  lemma SameInbox(s: Session, t: Session, c: CallId)
    requires Queues(s) && Queues(t) && s.boxes == t.boxes
    ensures Inbox(s, c) == Inbox(t, c)
  {
    if i: nat :| i < |s.boxes| && s.boxes[i].creator == c {
      InboxAt(s, i);
      InboxAt(t, i);
    }
  }

  /** The task at the head of the queue can be answered and the answer taken. */
  lemma ServedNow(s: Session, payload: Option<int>) returns (t: Session)
    requires Inv(s) && Queues(s) && s.onLoop.Free? && s.server.Getting? && s.queue != []
    requires Is(s, s.queue[0].request, Waiting) && Inbox(s, s.queue[0].request) == []
    ensures Reaches(s, t) && Is(t, s.queue[0].request, Finished(Answer(s.queue[0].request, payload)))
  {
    hide Reaches, Closed, Registered, Queues, Inbox;
    var c, box := s.queue[0].request, s.queue[0].box;
    assert OwnTask(s, s.queue[0]);
    CreatorIs(s, box);
    PendingIs(s, s.queue[0]);
    InboxAt(s, box);
    ReachesSelf(s);
    var b;
    if payload.None? {
      b := Onward(s, s, ServerRefuse);
      assert b.boxes[box].messages == [ServerError(c)];
    } else {
      var a := Onward(s, s, ServerGet(false));
      assert a.server == Calling(s.queue[0]);
      b := Onward(s, a, ServerPut(Reply(c, payload.value)));
      assert b.boxes[box].messages == [Reply(c, payload.value)];
    }
    t := Onward(s, b, TakeResult(c));
  }

  lemma PendingIs(s: Session, task: Task)
    requires Inv(s) && Queues(s) && OwnTask(s, task) && Is(s, task.request, Waiting)
    ensures task.request in s.pending && s.pending[task.request] == task.box
  {
    hide Closed;
    var c := task.request;
    assert c in s.pending && OwnTask(s, Task(c, s.pending[c]));
    TaskBox(s, Task(c, s.pending[c]), task.box);
  }
}
