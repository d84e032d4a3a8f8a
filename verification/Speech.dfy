/** Sentence splitting and speech together (agent/canvas.py): the stream cuts chunks into
    sentences and waits while the queue is full, the workers synthesise, and drains hand the
    audio out.  Proved here: what is heard is the answer outside thinking, in order, and the
    waiting never gets stuck. */
module Speech {
  import T = TtsPipeline
  import opened SentenceStream

  /** `chunks` are the chunks taken so far; `backlog` the sentences cut off and not yet in
      the queue. */
  datatype State = State(
    chunks: seq<string>,
    stream: Stream,
    ended: bool,
    backlog: seq<string>,
    pipe: T.Pipeline)

  datatype Event =
    | Chunk(chunk: string)
    | End
    | Push
    | Pick
    | Settle(job: T.Job, voice: T.Voice)
    | Drain

  const Silence := State([], Start, false, [], T.Idle)

  /** The next chunk is taken when the sentences of the last one are all in the queue. */
  predicate Enabled(s: State, e: Event) {
    match e
    case Chunk(_) => !s.ended && s.backlog == []
    case End => !s.ended && s.backlog == []
    case Push => s.backlog != [] && T.Enabled(s.pipe, T.Schedule(s.backlog[0]))
    case Pick => T.Enabled(s.pipe, T.Pick)
    case Settle(j, v) => T.Enabled(s.pipe, T.Settle(j, v))
    case Drain => true
  }

  /** The sentences a step of the stream adds. */
  function Added(before: Stream, after: Stream): seq<string> {
    if before.scheduled <= after.scheduled then after.scheduled[|before.scheduled|..] else []
  }

  function Next(s: State, e: Event): State
    requires Enabled(s, e)
  {
    match e
    case Chunk(c) =>
      var next := Feed(s.stream, c);
      s.(chunks := s.chunks + [c], stream := next, backlog := Added(s.stream, next))
    case End =>
      var next := Finish(s.stream);
      s.(ended := true, stream := next, backlog := Added(s.stream, next))
    case Push => s.(backlog := s.backlog[1..], pipe := T.Next(s.pipe, T.Schedule(s.backlog[0])))
    case Pick => s.(pipe := T.Next(s.pipe, T.Pick))
    case Settle(j, v) => s.(pipe := T.Next(s.pipe, T.Settle(j, v)))
    case Drain => s.(pipe := T.Next(s.pipe, T.Drain))
  }

  predicate CanRun(s: State, run: seq<Event>)
    decreases |run|
  {
    run == [] || (Enabled(s, run[0]) && CanRun(Next(s, run[0]), run[1..]))
  }

  function Run(s: State, run: seq<Event>): State
    requires CanRun(s, run)
    decreases |run|
  {
    if run == [] then s else Run(Next(s, run[0]), run[1..])
  }

  // ------------------------------------------------------------------ invariant

  /** The stream is where the chunks lead, and its sentences are those in the pipeline and
      the backlog, in order. */
  ghost predicate Inv(s: State) {
    && T.Inv(s.pipe)
    && s.stream == (if s.ended then Finish(FeedAll(Start, s.chunks)) else FeedAll(Start, s.chunks))
    && s.stream.scheduled == s.pipe.sentences + s.backlog
    && "" !in s.backlog
  }

  lemma {:induction false} FeedAppend(s: Stream, chunks: seq<string>, chunk: string)
    ensures FeedAll(s, chunks + [chunk]) == Feed(FeedAll(s, chunks), chunk)
    decreases |chunks|
  {
    hide Feed;
    if chunks == [] {
      assert chunks + [chunk] == [chunk] && [chunk][1..] == [];
      assert FeedAll(Feed(s, chunk), []) == Feed(s, chunk);
    } else {
      assert (chunks + [chunk])[1..] == chunks[1..] + [chunk] && (chunks + [chunk])[0] == chunks[0];
      FeedAppend(Feed(s, chunks[0]), chunks[1..], chunk);
    }
  }

  /** A step of the stream only appends, and appends no empty sentence. */
  lemma FeedAppends(s: Stream, chunk: string)
    ensures s.scheduled <= Feed(s, chunk).scheduled && "" !in Added(s, Feed(s, chunk))
    ensures s.scheduled <= Finish(s).scheduled && "" !in Added(s, Finish(s))
  {
    CutKeepsText(s.buffer + chunk);
    hide Cut;
  }

  lemma InvStep(s: State, e: Event)
    requires Inv(s) && Enabled(s, e)
    ensures Inv(Next(s, e))
  {
    hide T.Inv, T.Absorb, T.Gap, Feed, Finish;
    match e
    case Chunk(c) =>
      FeedAppend(Start, s.chunks, c);
      FeedAppends(s.stream, c);
      assert s.pipe.sentences + [] == s.pipe.sentences;
    case End =>
      FeedAppends(s.stream, "");
      assert s.pipe.sentences + [] == s.pipe.sentences;
    case Push =>
      T.InvStep(s.pipe, T.Schedule(s.backlog[0]));
      assert (s.pipe.sentences + [s.backlog[0]]) + s.backlog[1..] == s.pipe.sentences + s.backlog;
    case Pick => T.InvStep(s.pipe, T.Pick);
    case Settle(j, v) => T.InvStep(s.pipe, T.Settle(j, v));
    case Drain => T.InvStep(s.pipe, T.Drain);
  }

  lemma {:induction false} RunInv(s: State, run: seq<Event>)
    requires Inv(s) && CanRun(s, run)
    ensures Inv(Run(s, run))
    decreases |run|
  {
    hide Inv, Next, Enabled;
    if run != [] {
      InvStep(s, run[0]);
      RunInv(Next(s, run[0]), run[1..]);
    }
  }

  lemma SilenceInv()
    ensures Inv(Silence)
  {}

  // ------------------------------------------------------------------ what is heard

  /** The sentences whose audio was sent, in the order it was sent. */
  function Heard(p: T.Pipeline): seq<string>
    requires forall i | 0 <= i < |p.spoken| :: p.spoken[i].sequence < |p.sentences|
  {
    seq(|p.spoken|, i requires 0 <= i < |p.spoken| => p.sentences[p.spoken[i].sequence])
  }

  /** The sentences in `[0, until)` that came out as audio. */
  function Voiced(voices: map<nat, T.Voice>, sentences: seq<string>, until: nat): seq<string>
    requires until <= |sentences| && forall k | 0 <= k < until :: k in voices
  {
    if until == 0 then []
    else Voiced(voices, sentences, until - 1) + if voices[until - 1].Audio? then [sentences[until - 1]] else []
  }

  lemma {:induction false} AudibleIsVoiced(voices: map<nat, T.Voice>, sentences: seq<string>, until: nat)
    requires until <= |sentences| && forall k | 0 <= k < until :: k in voices
    ensures var a := T.Audible(voices, 0, until);
            && (forall i | 0 <= i < |a| :: a[i].sequence < |sentences|)
            && seq(|a|, i requires 0 <= i < |a| && a[i].sequence < |sentences| => sentences[a[i].sequence])
               == Voiced(voices, sentences, until)
  {
    if until > 0 { AudibleIsVoiced(voices, sentences, until - 1); }
  }

  lemma {:induction false} AllVoiced(voices: map<nat, T.Voice>, sentences: seq<string>, until: nat)
    requires until <= |sentences| && forall k | 0 <= k < until :: k in voices && voices[k].Audio?
    ensures Voiced(voices, sentences, until) == sentences[..until]
  {
    if until > 0 {
      AllVoiced(voices, sentences, until - 1);
      assert sentences[..until] == sentences[..until - 1] + [sentences[until - 1]];
    }
  }

  /** Whatever the chunk boundaries, markers and the timing of the workers: when the stream
      has ended, its sentences are all queued and the queue has been joined, the final drain
      leaves the user with the audio of every sentence that could be synthesised, in order;
      the sentences together are the text outside thinking, and if each of them could be
      synthesised, what is heard is exactly that text. */
  lemma HeardIsTheAnswer(run: seq<Event>)
    requires CanRun(Silence, run)
    requires var s := Run(Silence, run); s.ended && s.backlog == [] && s.pipe.unfinished == 0
    ensures var s := Run(Silence, run);
            var p := T.Next(s.pipe, T.Drain);
            && Flatten(p.sentences) == Outside(s.chunks, false)
            && (forall k | 0 <= k < |p.sentences| :: k in p.voices)
            && (forall i | 0 <= i < |p.spoken| :: p.spoken[i].sequence < |p.sentences|)
            && Heard(p) == Voiced(p.voices, p.sentences, |p.sentences|)
            && ((forall k | 0 <= k < |p.sentences| :: p.voices[k].Audio?) ==> Flatten(Heard(p)) == Outside(s.chunks, false))
  {
    hide T.Inv, T.Absorb, T.Gap, T.Audible, FeedAll, Outside, Unmarked;
    SilenceInv();
    RunInv(Silence, run);
    var s := Run(Silence, run);
    T.DrainedWhenSettled(s.pipe);
    var p := T.Next(s.pipe, T.Drain);
    SpeechIsTheAnswer(s.chunks);
    assert s.pipe.sentences + [] == s.pipe.sentences;
    AudibleIsVoiced(p.voices, p.sentences, |p.sentences|);
    if forall k | 0 <= k < |p.sentences| :: p.voices[k].Audio? {
      AllVoiced(p.voices, p.sentences, |p.sentences|);
      assert p.sentences[..|p.sentences|] == p.sentences;
    }
  }

  // ------------------------------------------------------------------ progress

  /** What is still to be done for the sentences that were cut off. */
  function Work(s: State): nat { 3 * |s.backlog| + 2 * |s.pipe.waiting| + |s.pipe.running| }

  /** Waiting never gets stuck: as long as a sentence is not settled, the producer can queue
      it, a worker can take it or a worker can finish it, and each of these is progress. */
  lemma NeverStuck(s: State) returns (e: Event)
    requires Inv(s) && (s.backlog != [] || s.pipe.unfinished > 0)
    ensures (e.Push? || e.Pick? || e.Settle?) && Enabled(s, e) && Work(Next(s, e)) < Work(s)
  {
    hide T.WorkersOk, T.ResultsOk, T.SpokenOk;
    if s.pipe.running != {} {
      var j :| j in s.pipe.running;
      e := Settle(j, T.Silent);
      assert |s.pipe.running - {j}| < |s.pipe.running|;
    } else if s.pipe.waiting != [] {
      e := Pick;
    } else {
      assert s.backlog[0] in s.backlog;
      e := Push;
    }
  }

  /** From every reachable state the sentences cut off so far can all be settled. */
  lemma {:induction false} CanSettle(s: State) returns (run: seq<Event>)
    requires Inv(s)
    ensures CanRun(s, run)
    ensures var t := Run(s, run);
            t.backlog == [] && t.pipe.unfinished == 0 && t.chunks == s.chunks && t.ended == s.ended
    decreases Work(s)
  {
    hide Inv;
    if s.backlog == [] && s.pipe.unfinished == 0 {
      run := [];
    } else {
      var e := NeverStuck(s);
      InvStep(s, e);
      var rest := CanSettle(Next(s, e));
      run := [e] + rest;
      assert run[1..] == rest;
    }
  }
}
