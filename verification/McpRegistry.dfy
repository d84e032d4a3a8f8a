/** The process-wide set of live MCP sessions and the global shutdown windows over it
    (common/mcp_tool_call_conn.py).  Each event is one block under `_INSTANCES_LOCK`
    or one `_shutdown_complete.set()`; opening a window and listing the live sessions
    are separate blocks, so anything may happen between them. */
module McpRegistry {

  /** `Counted`: the shutdown counter is up, the snapshot not yet taken. */
  datatype Window = Counted | Listed(sessions: set<nat>)

  datatype Registry = Registry(
    live: set<nat>,       // _ALL_INSTANCES
    born: set<nat>,       // every session object constructed so far
    exited: set<nat>,     // sessions whose loop thread has discarded itself
    complete: set<nat>,   // sessions whose _shutdown_complete is set
    count: nat,           // _GLOBAL_SHUTDOWN_COUNT
    windows: map<nat, Window>)

  datatype Event =
    | Construct(session: nat)
    | ThreadExit(session: nat)
    | Signal(session: nat)
    | Collect(session: nat)
    | OpenWindow(window: nat)
    | ListSessions(window: nat)
    | CloseWindow(window: nat)

  const Fresh := Registry({}, {}, {}, {}, 0, map[])

  predicate Enabled(r: Registry, e: Event) {
    match e
    case Construct(s) => s !in r.born
    case ThreadExit(s) => s in r.born
    case Signal(s) => s in r.exited
    case Collect(s) => true
    case OpenWindow(w) => w !in r.windows
    case ListSessions(w) => w in r.windows && r.windows[w].Counted?
    case CloseWindow(w) => w in r.windows && r.count > 0
  }

  /** A construction refused by an open window leaves a session that never runs: its
      rollback discards it and signals completion. */
  function Next(r: Registry, e: Event): Registry
    requires Enabled(r, e)
  {
    match e
    case Construct(s) =>
      if r.count > 0 then r.(born := r.born + {s}, exited := r.exited + {s}, complete := r.complete + {s})
      else r.(born := r.born + {s}, live := r.live + {s})
    case ThreadExit(s) => r.(live := r.live - {s}, exited := r.exited + {s})
    case Signal(s) => r.(complete := r.complete + {s})
    case Collect(s) => r.(live := r.live - {s})
    case OpenWindow(w) => r.(count := r.count + 1, windows := r.windows[w := Counted])
    case ListSessions(w) => r.(windows := r.windows[w := Listed(r.live)])
    case CloseWindow(w) => r.(count := r.count - 1, windows := r.windows - {w})
  }

  predicate CanRun(r: Registry, run: seq<Event>)
    decreases |run|
  {
    run == [] || (Enabled(r, run[0]) && CanRun(Next(r, run[0]), run[1..]))
  }

  function Run(r: Registry, run: seq<Event>): Registry
    requires CanRun(r, run)
    decreases |run|
  {
    if run == [] then r else Run(Next(r, run[0]), run[1..])
  }

  ghost predicate Inv(r: Registry) {
    && r.count == |r.windows|
    && r.live <= r.born
    && r.exited <= r.born
    && r.complete <= r.exited
    && r.live !! r.exited
    && (forall w | w in r.windows && r.windows[w].Listed? :: r.live <= r.windows[w].sessions)
  }

  /** The counter counts the windows. */
  lemma CountStep(r: Registry, e: Event)
    requires r.count == |r.windows| && Enabled(r, e)
    ensures Next(r, e).count == |Next(r, e).windows|
  {
    match e
    case OpenWindow(w) => assert r.windows[w := Counted].Keys == r.windows.Keys + {w};
    case CloseWindow(w) => assert (r.windows - {w}).Keys == r.windows.Keys - {w};
    case ListSessions(w) => assert r.windows[w := Listed(r.live)].Keys == r.windows.Keys;
    case _ =>
  }

  /** No window is open while the counter is down. */
  lemma NoWindowIffNoCount(r: Registry)
    requires r.count == |r.windows|
    ensures r.count == 0 <==> r.windows == map[]
  {
    if r.windows != map[] {
      var w :| w in r.windows;
      assert w in r.windows.Keys;
    }
  }

  lemma InvStep(r: Registry, e: Event)
    requires Inv(r) && Enabled(r, e)
    ensures Inv(Next(r, e))
  {
    CountStep(r, e);
    NoWindowIffNoCount(r);
  }

  lemma {:induction false} RunInv(r: Registry, run: seq<Event>)
    requires Inv(r) && CanRun(r, run)
    ensures Inv(Run(r, run))
    decreases |run|
  {
    if run != [] {
      InvStep(r, run[0]);
      RunInv(Next(r, run[0]), run[1..]);
    }
  }

  /** The window is open before and after every event of the run. */
  ghost predicate StaysOpen(r: Registry, run: seq<Event>, w: nat)
    requires CanRun(r, run)
    decreases |run|
  {
    w in r.windows && (run == [] || StaysOpen(Next(r, run[0]), run[1..], w))
  }

  /** While one window stays open, no session joins the live set, however many other
      windows open and close meanwhile. */
  lemma {:induction false} NobodyJoins(r: Registry, run: seq<Event>, w: nat)
    requires Inv(r) && CanRun(r, run) && StaysOpen(r, run, w)
    ensures Run(r, run).live <= r.live
    decreases |run|
  {
    if run != [] {
      assert r.count > 0 by { assert w in r.windows.Keys; }
      InvStep(r, run[0]);
      NobodyJoins(Next(r, run[0]), run[1..], w);
    }
  }

  /** In every reachable state the live set lies inside the snapshot of each open
      window; so when every session of one snapshot has signalled completion, no
      session at all is live. */
  lemma EmptyWhenSnapshotComplete(run: seq<Event>, w: nat)
    requires CanRun(Fresh, run)
    requires w in Run(Fresh, run).windows && Run(Fresh, run).windows[w].Listed?
    ensures var r := Run(Fresh, run);
            r.live <= r.windows[w].sessions && (r.windows[w].sessions <= r.complete ==> r.live == {})
  {
    RunInv(Fresh, run);
  }

  /** The counter is the number of open windows: when the last one closes, sessions can
      be constructed again, and not before. */
  lemma ConstructionAllowedIffNoWindow(run: seq<Event>, s: nat)
    requires CanRun(Fresh, run) && Enabled(Run(Fresh, run), Construct(s))
    ensures s in Next(Run(Fresh, run), Construct(s)).live <==> Run(Fresh, run).windows == map[]
  {
    RunInv(Fresh, run);
    var r := Run(Fresh, run);
    if r.windows != map[] {
      var w :| w in r.windows;
      assert w in r.windows.Keys;
    }
  }

  // ------------------------------------------------------------------ what the sets record

  lemma {:induction false} RunAppend(r: Registry, a: seq<Event>, e: Event)
    requires CanRun(r, a) && Enabled(Run(r, a), e)
    ensures CanRun(r, a + [e]) && Run(r, a + [e]) == Next(Run(r, a), e)
    decreases |a|
  {
    hide Next, Enabled;
    if a == [] {
      assert a + [e] == [e] && [e][1..] == [];
      assert CanRun(Next(r, e), []) && Run(Next(r, e), []) == Next(r, e);
    } else {
      assert (a + [e])[1..] == a[1..] + [e] && (a + [e])[0] == a[0];
      RunAppend(Next(r, a[0]), a[1..], e);
    }
  }

  /** The session was let in: no window was open when it was constructed. */
  ghost predicate LetIn(run: seq<Event>, s: nat)
    requires CanRun(Fresh, run)
  {
    exists i: nat :: i < |run| && run[i] == Construct(s) && CanRun(Fresh, run[..i]) && Run(Fresh, run[..i]).windows == map[]
  }

  ghost predicate TurnedAway(run: seq<Event>, s: nat)
    requires CanRun(Fresh, run)
  {
    Construct(s) in run && !LetIn(run, s)
  }

  /** What each set records of a session. */
  ghost predicate Recorded(run: seq<Event>, s: nat)
    requires CanRun(Fresh, run)
  {
    var r := Run(Fresh, run);
    && (s in r.born <==> Construct(s) in run)
    && (s in r.live <==> LetIn(run, s) && ThreadExit(s) !in run && !CollectedSince(run, s))
    && (s in r.complete <==> Signal(s) in run || TurnedAway(run, s))
  }

  /** The registry dropped the session after it had been constructed. */
  ghost predicate CollectedSince(run: seq<Event>, s: nat) {
    exists i: nat, j: nat :: i < j < |run| && run[i] == Construct(s) && run[j] == Collect(s)
  }

  lemma LetInStep(past: seq<Event>, e: Event, s: nat)
    requires CanRun(Fresh, past) && CanRun(Fresh, past + [e])
    ensures LetIn(past + [e], s) <==> LetIn(past, s) || (e == Construct(s) && Run(Fresh, past).windows == map[])
  {
    hide Run, CanRun;
    var run := past + [e];
    assert run[..|past|] == past && run[|past|] == e;
    if i: nat :| i < |past| && past[i] == Construct(s) && CanRun(Fresh, past[..i]) && Run(Fresh, past[..i]).windows == map[] {
      assert run[..i] == past[..i] && run[i] == past[i];
    }
    if i: nat :| i < |run| && run[i] == Construct(s) && CanRun(Fresh, run[..i]) && Run(Fresh, run[..i]).windows == map[] {
      assert i < |past| ==> run[..i] == past[..i] && run[i] == past[i];
    }
  }

  lemma CollectedStep(past: seq<Event>, e: Event, s: nat)
    ensures CollectedSince(past + [e], s) <==> CollectedSince(past, s) || (e == Collect(s) && Construct(s) in past)
    ensures CollectedSince(past, s) ==> Construct(s) in past
  {
    var run := past + [e];
    if i: nat, j: nat :| i < j < |past| && past[i] == Construct(s) && past[j] == Collect(s) {
      assert run[i] == past[i] && run[j] == past[j];
    }
    if i: nat, j: nat :| i < j < |run| && run[i] == Construct(s) && run[j] == Collect(s) {
      assert run[i] == past[i];
      assert j < |past| ==> run[j] == past[j];
    }
    if e == Collect(s) && Construct(s) in past {
      var i: nat :| i < |past| && past[i] == Construct(s);
      assert run[i] == past[i] && run[|past|] == e;
    }
  }

  lemma RecordedStep(past: seq<Event>, e: Event, s: nat)
    requires CanRun(Fresh, past) && Enabled(Run(Fresh, past), e) && Recorded(past, s)
    requires (ThreadExit(s) in past || Signal(s) in past || LetIn(past, s)) ==> Construct(s) in past
    ensures CanRun(Fresh, past + [e]) && Recorded(past + [e], s)
    ensures (ThreadExit(s) in past + [e] || Signal(s) in past + [e] || LetIn(past + [e], s)) ==> Construct(s) in past + [e]
  {
    hide Run, CanRun, LetIn, CollectedSince;
    RunInv(Fresh, past);
    RunAppend(Fresh, past, e);
    LetInStep(past, e, s);
    CollectedStep(past, e, s);
    NoWindowIffNoCount(Run(Fresh, past));
    assert forall x :: x in past + [e] <==> x in past || x == e;
    var r, n := Run(Fresh, past), Next(Run(Fresh, past), e);
    assert s in n.born <==> Construct(s) in past + [e];
    assert s in n.complete <==> Signal(s) in past + [e] || (Construct(s) in past + [e] && !LetIn(past + [e], s));
    assert s in n.live <==> LetIn(past + [e], s) && ThreadExit(s) !in past + [e] && !CollectedSince(past + [e], s);
  }

  lemma {:induction false} RecordedAlong(past: seq<Event>, run: seq<Event>, s: nat)
    requires CanRun(Fresh, past) && CanRun(Run(Fresh, past), run) && Recorded(past, s)
    requires (ThreadExit(s) in past || Signal(s) in past || LetIn(past, s)) ==> Construct(s) in past
    ensures CanRun(Fresh, past + run) && Recorded(past + run, s)
    decreases |run|
  {
    hide Recorded, LetIn, Next, Enabled;
    if run == [] {
      assert past + run == past;
    } else {
      RecordedStep(past, run[0], s);
      RunAppend(Fresh, past, run[0]);
      assert (past + [run[0]]) + run[1..] == past + run;
      RecordedAlong(past + [run[0]], run[1..], s);
    }
  }

  /** Over every run: a session is live exactly when it was constructed while no window was
      open and its thread has not discarded it since, and it counts as complete exactly when
      it has signalled, or its construction was refused and rolled back. */
  lemma LiveIff(run: seq<Event>, s: nat)
    requires CanRun(Fresh, run)
    ensures Recorded(run, s)
  {
    assert [] + run == run && Run(Fresh, []) == Fresh;
    RecordedAlong([], run, s);
  }

  /** The class-level state of `MCPToolCallSession`; each method is one locked block. */
  class Instances {
    var allInstances: set<nat>
    var globalShutdownCount: nat
    ghost var born: set<nat>
    ghost var exited: set<nat>
    ghost var complete: set<nat>
    ghost var windows: map<nat, Window>

    ghost function View(): Registry
      reads this
    {
      Registry(allInstances, born, exited, complete, globalShutdownCount, windows)
    }

    /** The locked block of `__init__`; a refusal runs the startup rollback. */
    method Construct(s: nat) returns (started: bool)
      requires Enabled(View(), Event.Construct(s))
      modifies this`allInstances, this`born, this`exited, this`complete
      ensures View() == Next(old(View()), Event.Construct(s))
      ensures started <==> globalShutdownCount == 0
      ensures started ==> s in allInstances
    {
      born := born + {s};
      started := globalShutdownCount == 0;
      if started {
        allInstances := allInstances + {s};
      } else {
        exited, complete := exited + {s}, complete + {s};
      }
    }

    /** The last block of `_run_event_loop` under the lock. */
    method ThreadExit(s: nat)
      requires Enabled(View(), Event.ThreadExit(s))
      modifies this`allInstances, this`exited
      ensures View() == Next(old(View()), Event.ThreadExit(s))
    {
      allInstances := allInstances - {s};
      exited := exited + {s};
    }

    /** `_begin_global_shutdown`, first block. */
    method OpenWindow(ghost w: nat)
      requires Enabled(View(), Event.OpenWindow(w))
      modifies this`globalShutdownCount, this`windows
      ensures View() == Next(old(View()), Event.OpenWindow(w))
    {
      globalShutdownCount := globalShutdownCount + 1;
      windows := windows[w := Counted];
    }

    /** `_begin_global_shutdown`, second block: the snapshot it returns. */
    method ListSessions(ghost w: nat) returns (sessions: set<nat>)
      requires Enabled(View(), Event.ListSessions(w))
      modifies this`windows
      ensures View() == Next(old(View()), Event.ListSessions(w))
      ensures windows[w] == Listed(sessions) && sessions == allInstances
    {
      sessions := allInstances;
      windows := windows[w := Listed(sessions)];
    }

    /** `_end_global_shutdown` */
    method CloseWindow(ghost w: nat)
      requires Enabled(View(), Event.CloseWindow(w))
      modifies this`globalShutdownCount, this`windows
      ensures View() == Next(old(View()), Event.CloseWindow(w))
    {
      globalShutdownCount := globalShutdownCount - 1;
      windows := windows - {w};
    }
  }
}
