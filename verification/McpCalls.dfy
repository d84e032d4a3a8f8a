/** The request/shutdown protocol of one MCP session (common/mcp_tool_call_conn.py).

    Caller threads submit coroutines to the session's private event loop; the server
    task drains a shared queue; any thread may close the session.  A step of this
    machine is one block that no other actor can interleave with: either a block
    under `_shutdown_lock`, or the part of a coroutine between two awaits.  The one
    loop block that races with other threads, the read of `_close` followed by the
    registration, is split in two (`ReadClose`, `Register`), and `onLoop` records
    that the loop thread is between the two halves. */
module McpCalls {

  type CallId = nat

  /** What travels through a result queue; `answers` is the request the server ran. */
  datatype Message =
    | Reply(answers: CallId, payload: int)
    | ServerError(answers: CallId)
    | Closing

  datatype Outcome =
    | Returned(answers: CallId, payload: int)
    | ServerFailed(answers: CallId)
    | SessionClosing
    | SessionClosed
    | TimedOut
    | Cancelled

  datatype Caller = Submitted | Checked | Waiting | Finished(outcome: Outcome)

  /** A result queue object and the call that created it. */
  datatype Mailbox = Mailbox(creator: CallId, messages: seq<Message>)

  /** An entry of the shared queue: the request and a reference to a result queue. */
  datatype Task = Task(request: CallId, box: nat)

  datatype Server = Unstarted | LoopTop | Getting | Calling(task: Task) | Exited

  /** Progress of the shutdown coroutine; `gathered` tells a normal end from a failure. */
  datatype Shutdown = Absent | Scheduled | Notified | Gathering | Joining | Complete(gathered: bool)

  datatype OnLoop = Free | Between(call: CallId)

  datatype Session = Session(
    closing: bool,
    callers: map<CallId, Caller>,
    pending: map<CallId, nat>,
    boxes: seq<Mailbox>,
    queue: seq<Task>,
    abandoned: set<CallId>,
    server: Server,
    submissions: nat,
    shutdown: Shutdown,
    snapshot: set<CallId>,
    onLoop: OnLoop)

  datatype Event =
    | SubmitCall(call: CallId)
    | ReadClose(call: CallId)
    | Register(call: CallId)
    | TakeResult(call: CallId)
    | Expire(call: CallId)
    | CancelCall(call: CallId)
    | ServerStart
    | ServerLoop
    | ServerGetTimeout
    | ServerGet(expired: bool)
    | ServerRefuse
    | ServerPut(message: Message)
    | ServerLost
    | ServerStop
    | BeginShutdown(submitted: bool)
    | ShutdownNotify
    | ShutdownCancelServer
    | GatherEnd
    | ShutdownReturn
    | ShutdownFail

  const Fresh := Session(false, map[], map[], [], [], {}, Unstarted, 0, Absent, {}, Free)

  predicate Started(s: Session) {
    s.shutdown.Notified? || s.shutdown.Gathering? || s.shutdown.Joining? || s.shutdown.Complete?
  }

  predicate Is(s: Session, c: CallId, k: Caller) { c in s.callers && s.callers[c] == k }

  predicate Done(s: Session, c: CallId) { c in s.callers && s.callers[c].Finished? }

  /** Whether the block behind an event can run; loop blocks need the loop thread. */
  predicate Enabled(s: Session, e: Event) {
    match e
    case SubmitCall(c) => c !in s.callers
    case BeginShutdown(_) => true
    case Register(c) => s.onLoop == Between(c) && Is(s, c, Checked)
    case ReadClose(c) => s.onLoop.Free? && Is(s, c, Submitted)
    case TakeResult(c) =>
      s.onLoop.Free? && Is(s, c, Waiting) && c in s.pending && s.pending[c] < |s.boxes|
      && s.boxes[s.pending[c]].messages != []
    case Expire(c) => s.onLoop.Free? && Is(s, c, Waiting)
    case CancelCall(c) => s.onLoop.Free? && (Is(s, c, Waiting) || Is(s, c, Submitted))
    case ServerStart => s.onLoop.Free? && s.server.Unstarted?
    case ServerLoop => s.onLoop.Free? && s.server.LoopTop?
    case ServerGetTimeout => s.onLoop.Free? && s.server.Getting?
    case ServerGet(_) => s.onLoop.Free? && s.server.Getting? && s.queue != []
    case ServerRefuse => s.onLoop.Free? && s.server.Getting? && s.queue != [] && s.queue[0].box < |s.boxes|
    case ServerPut(m) =>
      s.onLoop.Free? && s.server.Calling? && s.server.task.box < |s.boxes|
      && !m.Closing? && m.answers == s.server.task.request
    case ServerLost => s.onLoop.Free? && s.server.Calling? && !s.closing
    case ServerStop => s.onLoop.Free? && !s.server.Unstarted?
    case ShutdownNotify => s.onLoop.Free? && s.shutdown.Scheduled?
    case ShutdownCancelServer => s.onLoop.Free? && s.shutdown.Notified? && !s.server.Unstarted?
    case GatherEnd => s.onLoop.Free? && s.shutdown.Gathering? && forall c | c in s.snapshot :: Done(s, c)
    case ShutdownReturn => s.onLoop.Free? && s.shutdown.Joining? && s.server.Exited?
    case ShutdownFail =>
      s.onLoop.Free? && (s.shutdown.Notified? || s.shutdown.Gathering? || s.shutdown.Joining?)
  }

  function Put(boxes: seq<Mailbox>, q: nat, m: Message): (r: seq<Mailbox>)
    requires q < |boxes|
    ensures |r| == |boxes| && r[q] == Mailbox(boxes[q].creator, boxes[q].messages + [m])
    ensures forall i | 0 <= i < |boxes| && i != q :: r[i] == boxes[i]
  {
    boxes[q := Mailbox(boxes[q].creator, boxes[q].messages + [m])]
  }

  /** The result queues after "Session is closing" went to every one in `targets`. */
  function PutClosing(boxes: seq<Mailbox>, targets: set<nat>): (r: seq<Mailbox>)
    ensures |r| == |boxes|
    ensures forall i | 0 <= i < |boxes| ::
              r[i] == if i in targets then Mailbox(boxes[i].creator, boxes[i].messages + [Closing]) else boxes[i]
  {
    seq(|boxes|, i requires 0 <= i < |boxes| =>
      if i in targets then Mailbox(boxes[i].creator, boxes[i].messages + [Closing]) else boxes[i])
  }

  function OutcomeOf(m: Message): Outcome {
    match m
    case Reply(c, p) => Returned(c, p)
    case ServerError(c) => ServerFailed(c)
    case Closing => SessionClosing
  }

  /** The `finally` block of `_call_mcp_server`: abandon the task and unregister. */
  function Leave(s: Session, c: CallId, o: Outcome): Session {
    s.(callers := s.callers[c := Finished(o)], pending := s.pending - {c}, abandoned := s.abandoned + {c})
  }

  function Next(s: Session, e: Event): Session
    requires Enabled(s, e)
  {
    match e
    case SubmitCall(c) =>
      if s.closing then s.(callers := s.callers[c := Finished(SessionClosed)])
      else s.(callers := s.callers[c := Submitted])
    case ReadClose(c) =>
      if s.closing then s.(callers := s.callers[c := Finished(SessionClosed)])
      else s.(callers := s.callers[c := Checked], onLoop := Between(c))
    case Register(c) =>
      s.(callers := s.callers[c := Waiting], onLoop := Free, pending := s.pending[c := |s.boxes|],
         boxes := s.boxes + [Mailbox(c, [])], queue := s.queue + [Task(c, |s.boxes|)])
    case TakeResult(c) => Leave(s, c, OutcomeOf(s.boxes[s.pending[c]].messages[0]))
    case Expire(c) => Leave(s, c, TimedOut)
    case CancelCall(c) => Leave(s, c, Cancelled)
    case ServerStart => s.(server := LoopTop)
    case ServerLoop => s.(server := if s.closing then Exited else Getting)
    case ServerGetTimeout => s.(server := LoopTop)
    case ServerGet(expired) =>
      s.(queue := s.queue[1..],
         server := if s.queue[0].request in s.abandoned || expired then LoopTop else Calling(s.queue[0]))
    case ServerRefuse =>
      s.(queue := s.queue[1..], server := LoopTop,
         boxes := if s.queue[0].request in s.abandoned then s.boxes
                  else Put(s.boxes, s.queue[0].box, ServerError(s.queue[0].request)))
    case ServerPut(m) => s.(server := LoopTop, boxes := Put(s.boxes, s.server.task.box, m))
    case ServerLost => s.(server := LoopTop)
    case ServerStop => s.(server := Exited)
    case BeginShutdown(submitted) =>
      if !s.shutdown.Absent? then s
      else if submitted then s.(closing := true, shutdown := Scheduled, submissions := s.submissions + 1)
      else s.(closing := true)
    case ShutdownNotify =>
      s.(shutdown := Notified, snapshot := s.pending.Keys, queue := [],
         boxes := PutClosing(s.boxes, s.pending.Values))
    case ShutdownCancelServer => s.(shutdown := Gathering)
    case GatherEnd => s.(shutdown := Joining)
    case ShutdownReturn => s.(shutdown := Complete(true))
    case ShutdownFail => s.(shutdown := Complete(s.shutdown.Joining?))
  }

  // ------------------------------------------------------------------ runs

  /** Every event of the run is enabled where it happens. */
  predicate CanRun(s: Session, run: seq<Event>)
    decreases |run|
  {
    run == [] || (Enabled(s, run[0]) && CanRun(Next(s, run[0]), run[1..]))
  }

  function Run(s: Session, run: seq<Event>): Session
    requires CanRun(s, run)
    decreases |run|
  {
    if run == [] then s else Run(Next(s, run[0]), run[1..])
  }

  // ------------------------------------------------------------------ invariant

  ghost predicate OwnMessages(b: Mailbox) {
    forall m | m in b.messages :: m.Closing? || m.answers == b.creator
  }

  ghost predicate OwnTask(s: Session, t: Task) {
    t.box < |s.boxes| && s.boxes[t.box].creator == t.request
  }

  ghost predicate OwnOutcome(c: CallId, k: Caller) {
    k.Finished? && (k.outcome.Returned? || k.outcome.ServerFailed?) ==> k.outcome.answers == c
  }

  /** Replies stay with the call whose request produced them. */
  ghost predicate Addressed(s: Session) {
    && (forall b | b in s.boxes :: OwnMessages(b))
    && (forall t | t in s.queue :: OwnTask(s, t))
    && (s.server.Calling? ==> OwnTask(s, s.server.task))
    && (forall c | c in s.pending :: OwnTask(s, Task(c, s.pending[c])))
    && (forall c | c in s.callers :: OwnOutcome(c, s.callers[c]))
  }

  /** `_pending_calls` holds exactly the calls that wait for a result. */
  ghost predicate Registered(s: Session) {
    && (forall c | c in s.pending :: Is(s, c, Waiting))
    && (forall c | c in s.callers && s.callers[c].Waiting? :: c in s.pending)
    && (forall c | c in s.callers && s.callers[c].Checked? :: s.onLoop == Between(c))
    && (s.onLoop.Between? ==> Is(s, s.onLoop.call, Checked))
  }

  /** Once the shutdown has started, the registered calls are among those it waits for, and
      each of them has been told. */
  ghost predicate Told(s: Session) {
    Started(s) ==>
      && s.onLoop.Free? && s.queue == [] && s.pending.Keys <= s.snapshot
      && (forall c | c in s.snapshot :: Is(s, c, Waiting) || Done(s, c))
      && MessagesTell(s)
  }

  ghost predicate MessagesTell(s: Session) {
    forall c | c in s.pending :: s.pending[c] < |s.boxes| && Closing in s.boxes[s.pending[c]].messages
  }

  /** What closing has established so far. */
  ghost predicate Closed(s: Session) {
    && s.submissions == (if s.shutdown.Absent? then 0 else 1)
    && (!s.shutdown.Absent? ==> s.closing)
    && (s.shutdown.Joining? || s.shutdown == Complete(true) ==> s.pending == map[])
    && (s.shutdown.Gathering? || s.shutdown.Joining? ==> !s.server.Unstarted?)
    && Told(s)
  }

  ghost predicate Inv(s: Session) { Addressed(s) && Registered(s) && Closed(s) }

  lemma PutKeepsOwn(s: Session, q: nat, m: Message)
    requires Addressed(s) && q < |s.boxes| && (m.Closing? || m.answers == s.boxes[q].creator)
    ensures forall b | b in Put(s.boxes, q, m) :: OwnMessages(b)
  {
    var r := Put(s.boxes, q, m);
    forall b | b in r
      ensures OwnMessages(b)
    {
      var i :| 0 <= i < |r| && r[i] == b;
      assert OwnMessages(s.boxes[i]);
    }
  }

  /** The queues only gain messages that belong to their creator. */
  lemma BoxesStep(s: Session, e: Event)
    requires Inv(s) && Enabled(s, e)
    ensures var n := Next(s, e);
            && |s.boxes| <= |n.boxes|
            && (forall i | 0 <= i < |s.boxes| :: n.boxes[i].creator == s.boxes[i].creator)
            && (forall b | b in n.boxes :: OwnMessages(b))
  {
    var n := Next(s, e);
    match e
    case ServerRefuse =>
      assert OwnTask(s, s.queue[0]);
      PutKeepsOwn(s, s.queue[0].box, ServerError(s.queue[0].request));
    case ServerPut(m) => PutKeepsOwn(s, s.server.task.box, m);
    case ShutdownNotify =>
      forall b | b in n.boxes
        ensures OwnMessages(b)
      {
        var i :| 0 <= i < |n.boxes| && n.boxes[i] == b;
        assert OwnMessages(s.boxes[i]);
      }
    case _ =>
  }

  lemma OutcomeStep(s: Session, e: Event)
    requires Inv(s) && Enabled(s, e)
    ensures forall c | c in Next(s, e).callers :: OwnOutcome(c, Next(s, e).callers[c])
  {
    if e.TakeResult? {
      assert OwnTask(s, Task(e.call, s.pending[e.call]));
      var b := s.boxes[s.pending[e.call]];
      assert OwnMessages(b) && b.messages[0] in b.messages;
    }
  }

  /** Tasks stay with their queue, whether waiting or with the server. */
  lemma TasksStep(s: Session, e: Event)
    requires Addressed(s) && Enabled(s, e)
    requires |s.boxes| <= |Next(s, e).boxes|
    requires forall i | 0 <= i < |s.boxes| :: Next(s, e).boxes[i].creator == s.boxes[i].creator
    ensures var n := Next(s, e);
            && (forall t | t in n.queue :: OwnTask(n, t))
            && (n.server.Calling? ==> OwnTask(n, n.server.task))
  {
    hide OwnMessages, OwnOutcome, Put, PutClosing;
    var n := Next(s, e);
    assert forall t | t in s.queue :: OwnTask(s, t) && OwnTask(n, t);
    assert forall t | t in n.queue :: t in s.queue || OwnTask(n, t);
    assert n.server.Calling? ==> s.server == n.server || n.server.task in s.queue;
  }

  lemma PendingStep(s: Session, e: Event)
    requires Addressed(s) && Enabled(s, e)
    requires |s.boxes| <= |Next(s, e).boxes|
    requires forall i | 0 <= i < |s.boxes| :: Next(s, e).boxes[i].creator == s.boxes[i].creator
    ensures var n := Next(s, e); forall c | c in n.pending :: OwnTask(n, Task(c, n.pending[c]))
  {
    hide OwnMessages, OwnOutcome, Put, PutClosing;
    var n := Next(s, e);
    assert forall c | c in s.pending :: OwnTask(s, Task(c, s.pending[c])) && OwnTask(n, Task(c, s.pending[c]));
  }

  lemma AddressedStep(s: Session, e: Event)
    requires Inv(s) && Enabled(s, e)
    ensures Addressed(Next(s, e))
  {
    hide Registered, Closed, OwnMessages, OwnOutcome, OwnTask, Next, Enabled;
    BoxesStep(s, e);
    OutcomeStep(s, e);
    TasksStep(s, e);
    PendingStep(s, e);
  }

  lemma RegisteredStep(s: Session, e: Event)
    requires Registered(s) && Enabled(s, e)
    ensures Registered(Next(s, e))
  {
    hide Put, PutClosing;
  }

  /** The notification reaches every registered call. */
  lemma NotifyTells(s: Session)
    requires Addressed(s) && Enabled(s, ShutdownNotify)
    ensures var n := Next(s, ShutdownNotify);
            forall c | c in n.pending :: n.pending[c] < |n.boxes| && Closing in n.boxes[n.pending[c]].messages
  {
    var n := Next(s, ShutdownNotify);
    forall c | c in n.pending
      ensures n.pending[c] < |n.boxes| && Closing in n.boxes[n.pending[c]].messages
    {
      assert OwnTask(s, Task(c, s.pending[c]));
      assert n.pending[c] in s.pending.Values;
      var b := n.boxes[n.pending[c]];
      assert b.messages[|b.messages| - 1] == Closing;
    }
  }

  /** After the notification no message is taken back. */
  lemma MessagesStep(s: Session, e: Event)
    requires Addressed(s) && Told(s) && Enabled(s, e) && Started(Next(s, e))
    ensures MessagesTell(Next(s, e))
  {
    hide Addressed, PutClosing;
    match e
    case ShutdownNotify => NotifyTells(s);
    case ServerPut(m) => KeepsClosing(s, s.server.task.box, m);
    case _ =>
  }

  lemma ToldStep(s: Session, e: Event)
    requires Addressed(s) && Registered(s) && Closed(s) && Enabled(s, e)
    ensures Told(Next(s, e))
  {
    hide Addressed, Put, PutClosing, MessagesTell;
    if Started(Next(s, e)) { MessagesStep(s, e); }
  }

  lemma ClosedStep(s: Session, e: Event)
    requires Inv(s) && Enabled(s, e)
    ensures Closed(Next(s, e))
  {
    hide Addressed, Put, PutClosing;
    ToldStep(s, e);
    if e.GatherEnd? { assert forall c | c in s.pending :: c in s.snapshot && Done(s, c); }
  }

  lemma KeepsClosing(s: Session, q: nat, m: Message)
    requires q < |s.boxes|
    ensures forall i | 0 <= i < |s.boxes| && Closing in s.boxes[i].messages :: Closing in Put(s.boxes, q, m)[i].messages
  {}

  lemma InvStep(s: Session, e: Event)
    requires Inv(s) && Enabled(s, e)
    ensures Inv(Next(s, e))
  {
    AddressedStep(s, e);
    RegisteredStep(s, e);
    ClosedStep(s, e);
  }

  lemma {:induction false} RunInv(s: Session, run: seq<Event>)
    requires Inv(s) && CanRun(s, run)
    ensures Inv(Run(s, run))
    decreases |run|
  {
    if run != [] {
      InvStep(s, run[0]);
      RunInv(Next(s, run[0]), run[1..]);
    }
  }

  // ------------------------------------------------------------------ theorems

  /** At most one shutdown coroutine is submitted, however many closers race, and
      `_close` is up from then on. */
  lemma OneShutdown(run: seq<Event>)
    requires CanRun(Fresh, run)
    ensures var s := Run(Fresh, run);
            s.submissions <= 1 && (s.submissions == 1 ==> s.closing)
  {
    RunInv(Fresh, run);
  }

  /** Once the shutdown coroutine has run its first block, no continuation registers a
      call or queues a task: the registered calls only shrink. */
  lemma {:induction false} NoRegistrationAfterShutdown(s: Session, run: seq<Event>)
    requires Inv(s) && Started(s) && CanRun(s, run)
    ensures var t := Run(s, run);
            Started(t) && t.pending.Keys <= s.pending.Keys && t.queue == []
    decreases |run|
  {
    if run != [] {
      InvStep(s, run[0]);
      NoRegistrationAfterShutdown(Next(s, run[0]), run[1..]);
    }
  }

  /** When the gather has ended, no registered caller is still waiting, now or later. */
  lemma NobodyWaitsAfterGather(run: seq<Event>)
    requires CanRun(Fresh, run)
    requires Run(Fresh, run).shutdown.Joining? || Run(Fresh, run).shutdown == Complete(true)
    ensures var s := Run(Fresh, run);
            s.pending == map[] && forall c | c in s.callers :: s.callers[c].Submitted? || s.callers[c].Finished?
  {
    RunInv(Fresh, run);
  }

  /** A call that ends with a server answer ends with the answer to its own request;
      every other ending is one of timeout, cancellation, closed or closing. */
  lemma OwnReplyOnly(run: seq<Event>, c: CallId)
    requires CanRun(Fresh, run) && Done(Run(Fresh, run), c)
    ensures var o := Run(Fresh, run).callers[c].outcome;
            match o
            case Returned(d, _) => d == c
            case ServerFailed(d) => d == c
            case _ => o in {TimedOut, Cancelled, SessionClosed, SessionClosing}
  {
    RunInv(Fresh, run);
    assert OwnOutcome(c, Run(Fresh, run).callers[c]);
  }

  /** A finished call keeps its outcome: nothing settles it twice. */
  lemma {:induction false} OutcomeIsFinal(s: Session, run: seq<Event>, c: CallId)
    requires Inv(s) && CanRun(s, run) && Done(s, c)
    ensures Done(Run(s, run), c) && Run(s, run).callers[c] == s.callers[c]
    decreases |run|
  {
    if run != [] {
      InvStep(s, run[0]);
      OutcomeIsFinal(Next(s, run[0]), run[1..], c);
    }
  }

  /** One registered caller picks up what is in its queue. */
  lemma LeaveStep(s: Session, c: CallId)
    requires Inv(s) && Started(s) && c in s.pending
    ensures Enabled(s, TakeResult(c))
    ensures var n := Next(s, TakeResult(c));
            Inv(n) && n.shutdown == s.shutdown && n.snapshot == s.snapshot && n.server == s.server
            && |n.pending| < |s.pending| && Done(n, c)
            && forall d | Done(s, d) :: Done(n, d)
  {
    hide Addressed;
    InvStep(s, TakeResult(c));
    assert (s.pending - {c}).Keys == s.pending.Keys - {c};
  }

  /** Some run leads from `s` to `t`. */
  ghost predicate Reaches(s: Session, t: Session) {
    exists run :: CanRun(s, run) && Run(s, run) == t
  }

  lemma ReachesBy(s: Session, e: Event)
    requires Inv(s) && Enabled(s, e)
    ensures Reaches(s, Next(s, e)) && Inv(Next(s, e))
  {
    InvStep(s, e);
    var n := Next(s, e);
    assert CanRun(n, []) && Run(n, []) == n;
    assert [e][1..] == [];
    assert CanRun(s, [e]) && Run(s, [e]) == n;
  }

  lemma {:induction false} RunAppend(s: Session, a: seq<Event>, b: seq<Event>)
    requires CanRun(s, a) && CanRun(Run(s, a), b)
    ensures CanRun(s, a + b) && Run(s, a + b) == Run(Run(s, a), b)
    decreases |a|
  {
    if a == [] {
      assert a + b == b;
    } else {
      assert (a + b)[1..] == a[1..] + b;
      RunAppend(Next(s, a[0]), a[1..], b);
    }
  }

  lemma ReachesOn(s: Session, t: Session, u: Session)
    requires Reaches(s, t) && Reaches(t, u)
    ensures Reaches(s, u)
  {
    var a :| CanRun(s, a) && Run(s, a) == t;
    var b :| CanRun(t, b) && Run(t, b) == u;
    RunAppend(s, a, b);
  }

  /** Shutdown never strands a caller: from every state reached after the notification
      the registered calls can all leave, each with what is already in its queue. */
  lemma {:induction false} CallersCanLeave(s: Session) returns (t: Session)
    requires Inv(s) && Started(s)
    ensures Reaches(s, t) && Inv(t) && t.pending == map[]
    ensures t.shutdown == s.shutdown && t.server == s.server
    decreases |s.pending|
  {
    if s.pending == map[] {
      t := s;
      assert CanRun(s, []) && Run(s, []) == s;
    } else {
      var c :| c in s.pending;
      LeaveStep(s, c);
      var n := Next(s, TakeResult(c));
      ReachesBy(s, TakeResult(c));
      t := CallersCanLeave(n);
      ReachesOn(s, n, t);
    }
  }

  lemma GatherCanEnd(s: Session) returns (t: Session)
    requires Inv(s) && s.shutdown.Gathering?
    ensures Reaches(s, t) && Inv(t) && t.shutdown.Joining? && t.server == s.server
  {
    var u := CallersCanLeave(s);
    assert forall d | d in u.snapshot :: Done(u, d);
    ReachesBy(u, GatherEnd);
    t := Next(u, GatherEnd);
    ReachesOn(s, u, t);
  }

  lemma JoinCanEnd(s: Session) returns (t: Session)
    requires Inv(s) && s.shutdown.Joining?
    ensures Reaches(s, t) && t.shutdown == Complete(true)
  {
    var u := Next(s, ServerStop);
    ReachesBy(s, ServerStop);
    ReachesBy(u, ShutdownReturn);
    t := Next(u, ShutdownReturn);
    ReachesOn(s, u, t);
  }

  lemma NotifiedCanGather(s: Session) returns (t: Session)
    requires Inv(s) && s.shutdown.Notified?
    ensures Reaches(s, t) && Inv(t) && t.shutdown.Gathering? && !t.server.Unstarted?
  {
    if s.server.Unstarted? {
      var u := Next(s, ServerStart);
      ReachesBy(s, ServerStart);
      ReachesBy(u, ShutdownCancelServer);
      t := Next(u, ShutdownCancelServer);
      ReachesOn(s, u, t);
    } else {
      ReachesBy(s, ShutdownCancelServer);
      t := Next(s, ShutdownCancelServer);
    }
  }

  lemma ScheduledCanNotify(s: Session) returns (t: Session)
    requires Inv(s) && s.shutdown.Scheduled?
    ensures Reaches(s, t) && Inv(t) && t.shutdown.Notified?
  {
    if s.onLoop.Between? {
      var e := Register(s.onLoop.call);
      var u := Next(s, e);
      ReachesBy(s, e);
      ReachesBy(u, ShutdownNotify);
      t := Next(u, ShutdownNotify);
      ReachesOn(s, u, t);
    } else {
      ReachesBy(s, ShutdownNotify);
      t := Next(s, ShutdownNotify);
    }
  }

  lemma AbsentCanSchedule(s: Session) returns (t: Session)
    requires Inv(s) && s.shutdown.Absent?
    ensures Reaches(s, t) && Inv(t) && t.shutdown.Scheduled?
  {
    ReachesBy(s, BeginShutdown(true));
    t := Next(s, BeginShutdown(true));
  }

  /** From each stage of the shutdown the coroutine can return normally. */
  lemma StageCanComplete(s: Session) returns (t: Session)
    requires Inv(s) && !s.shutdown.Complete?
    ensures Reaches(s, t) && t.shutdown == Complete(true)
    decreases match s.shutdown
              case Absent => 5 case Scheduled => 4 case Notified => 3 case Gathering => 2 case Joining => 1 case Complete(_) => 0
  {
    hide Reaches, Inv;
    if s.shutdown.Joining? {
      t := JoinCanEnd(s);
    } else {
      var u;
      match s.shutdown {
        case Absent => u := AbsentCanSchedule(s);
        case Scheduled => u := ScheduledCanNotify(s);
        case Notified => u := NotifiedCanGather(s);
        case Gathering => u := GatherCanEnd(s);
      }
      t := StageCanComplete(u);
      ReachesOn(s, u, t);
    }
  }

  /** A coroutine that ended with an error before its gather is over for good. */
  lemma {:induction false} FailureStays(s: Session, run: seq<Event>)
    requires s.shutdown == Complete(false) && CanRun(s, run)
    ensures Run(s, run).shutdown == Complete(false)
    decreases |run|
  {
    if run != [] { FailureStays(Next(s, run[0]), run[1..]); }
  }

  /** Closing is never stuck: a reachable state has a continuation in which the shutdown
      coroutine returns normally, leaving no call registered, exactly when the coroutine
      has not already ended with an error before its gather was over. */
  lemma ShutdownCanCompleteIff(past: seq<Event>)
    requires CanRun(Fresh, past)
    ensures var s := Run(Fresh, past);
            (exists t :: Reaches(s, t) && t.shutdown == Complete(true) && t.pending == map[])
            <==> s.shutdown != Complete(false)
  {
    RunInv(Fresh, past);
    var s := Run(Fresh, past);
    if s.shutdown == Complete(false) {
      forall t | Reaches(s, t) ensures t.shutdown == Complete(false) {
        var run :| CanRun(s, run) && Run(s, run) == t;
        FailureStays(s, run);
      }
    } else {
      var t := s;
      if s.shutdown.Complete? {
        assert CanRun(s, []) && Run(s, []) == s;
      } else {
        t := StageCanComplete(s);
      }
      var run :| CanRun(s, run) && Run(s, run) == t;
      RunInv(s, run);
      assert Reaches(s, t) && t.shutdown == Complete(true) && t.pending == map[];
    }
  }
}
