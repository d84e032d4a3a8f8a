/** The speech pipeline of the agent canvas (agent/canvas.py): sentences enter a queue
    of four, two workers synthesise them in any order, and `_drain_ready_tts` hands the
    audio out in sentence order. */
module TtsPipeline {

  const QUEUE_SIZE := 4
  const WORKERS := 2

  /** What `self.tts` produced for a sentence: audio, nothing to say, or an error. */
  datatype Voice = Audio(bytes: int) | Silent | Failed

  datatype Job = Job(sequence: nat, text: string)
  datatype Result = Result(sequence: nat, voice: Voice)

  /** `spoken` is what the user has been sent; `voices` remembers how each sentence was
      settled, for the statements below. */
  datatype Pipeline = Pipeline(
    sentences: seq<string>,          // scheduled so far; |sentences| is tts_sequence
    waiting: seq<Job>,               // tts_queue
    running: set<Job>,               // one job for each busy worker
    unfinished: nat,                 // unfinished tasks of tts_queue
    results: seq<Result>,            // tts_results
    completed: map<nat, Voice>,      // completed_tts
    next: nat,                       // next_audio_sequence
    spoken: seq<Result>,
    voices: map<nat, Voice>)

  datatype Event =
    | Schedule(text: string)
    | Pick
    | Settle(job: Job, voice: Voice)
    | Drain

  const Idle := Pipeline([], [], {}, 0, [], map[], 0, [], map[])

  /** An empty text is not scheduled, a full queue makes the producer wait. */
  predicate Enabled(p: Pipeline, e: Event) {
    match e
    case Schedule(text) => text != "" && |p.waiting| < QUEUE_SIZE
    case Pick => |p.running| < WORKERS && p.waiting != []
    case Settle(j, _) => j in p.running && p.unfinished > 0
    case Drain => true
  }

  /** `completed_tts` after taking over every result that is ready. */
  function Absorb(completed: map<nat, Voice>, results: seq<Result>): map<nat, Voice>
    decreases |results|
  {
    if results == [] then completed
    else Absorb(completed[results[0].sequence := results[0].voice], results[1..])
  }

  /** The first sequence number from `next` on that is not completed. */
  function Gap(done: map<nat, Voice>, next: nat): (gap: nat)
    ensures next <= gap && gap !in done
    ensures forall k | next <= k < gap :: k in done
    decreases |done|
  {
    if next !in done then next
    else
      assert (done - {next}).Keys == done.Keys - {next};
      var gap := Gap(done - {next}, next + 1);
      assert forall k | next <= k < gap :: k in done by {
        forall k | next <= k < gap
          ensures k in done
        {
          assert k == next || k in done - {next};
        }
      }
      gap
  }

  /** The audible results among the sequence numbers in `[from, until)`, in order. */
  function Audible(voices: map<nat, Voice>, from: nat, until: nat): seq<Result>
    requires forall k | from <= k < until :: k in voices
    decreases until - from
  {
    if from >= until then []
    else
      var rest := Audible(voices, from, until - 1);
      if voices[until - 1].Audio? then rest + [Result(until - 1, voices[until - 1])] else rest
  }

  /** What stays in `completed_tts` when `[from, until)` has been emitted. */
  function Beyond(done: map<nat, Voice>, from: nat, until: nat): map<nat, Voice> {
    map k | k in done && !(from <= k < until) :: done[k]
  }

  function Next(p: Pipeline, e: Event): Pipeline
    requires Enabled(p, e)
  {
    match e
    case Schedule(text) =>
      p.(sentences := p.sentences + [text], waiting := p.waiting + [Job(|p.sentences|, text)],
         unfinished := p.unfinished + 1)
    case Pick => p.(waiting := p.waiting[1..], running := p.running + {p.waiting[0]})
    case Settle(j, v) =>
      p.(running := p.running - {j}, unfinished := p.unfinished - 1,
         results := p.results + [Result(j.sequence, v)], voices := p.voices[j.sequence := v])
    case Drain =>
      var done := Absorb(p.completed, p.results);
      var gap := Gap(done, p.next);
      p.(results := [], next := gap, completed := Beyond(done, p.next, gap),
         spoken := p.spoken + Audible(done, p.next, gap))
  }

  predicate CanRun(p: Pipeline, run: seq<Event>)
    decreases |run|
  {
    run == [] || (Enabled(p, run[0]) && CanRun(Next(p, run[0]), run[1..]))
  }

  function Run(p: Pipeline, run: seq<Event>): Pipeline
    requires CanRun(p, run)
    decreases |run|
  {
    if run == [] then p else Run(Next(p, run[0]), run[1..])
  }

  // ------------------------------------------------------------------ invariant

  function Picked(p: Pipeline): int { |p.sentences| - |p.waiting| }

  /** The queue is first in first out: it holds exactly the last sentences scheduled. */
  ghost predicate QueueOk(p: Pipeline) {
    && Picked(p) >= 0
    && (forall i | 0 <= i < |p.waiting| ::
          p.waiting[i] == Job(Picked(p) + i, p.sentences[Picked(p) + i]))
    && p.unfinished == |p.waiting| + |p.running|
  }

  /** The sequence numbers being synthesised, and those waiting in the result queue. */
  function InFlight(p: Pipeline): set<nat> { set j | j in p.running :: j.sequence }
  function Ready(results: seq<Result>): set<nat> { set r | r in results :: r.sequence }

  /** Every picked sentence is with exactly one worker or settled. */
  ghost predicate WorkersOk(p: Pipeline) {
    && |p.running| <= WORKERS
    && (forall j | j in p.running :: j.sequence < |p.sentences| && j.text == p.sentences[j.sequence])
    && InFlight(p) !! p.voices.Keys
    && (forall n | n in InFlight(p) || n in p.voices :: n < Picked(p))
    && (forall n: nat | n < Picked(p) :: n in InFlight(p) || n in p.voices)
  }

  ghost predicate Distinct(results: seq<Result>) {
    forall i, j | 0 <= i < j < |results| :: results[i].sequence != results[j].sequence
  }

  /** Every settled sentence is emitted, completed or in the result queue, once. */
  ghost predicate ResultsOk(p: Pipeline) {
    && Distinct(p.results)
    && (forall r | r in p.results :: r.sequence in p.voices && p.voices[r.sequence] == r.voice)
    && (forall n | n in p.completed :: n in p.voices && p.voices[n] == p.completed[n])
    && p.completed.Keys !! Ready(p.results)
    && (forall n | n in p.completed || n in Ready(p.results) :: p.next <= n)
    && (forall n | n in p.voices :: n < p.next || n in p.completed || n in Ready(p.results))
  }

  /** What was spoken is the audible part of the sentences before `next`, in order. */
  ghost predicate SpokenOk(p: Pipeline) {
    && (forall k | 0 <= k < p.next :: k in p.voices)
    && p.spoken == Audible(p.voices, 0, p.next)
  }

  ghost predicate Inv(p: Pipeline) { QueueOk(p) && WorkersOk(p) && ResultsOk(p) && SpokenOk(p) }

  lemma ReadyFirst(results: seq<Result>)
    requires results != []
    ensures Ready(results) == {results[0].sequence} + Ready(results[1..])
  {
    assert results == [results[0]] + results[1..];
  }

  lemma {:induction false} AbsorbAll(completed: map<nat, Voice>, results: seq<Result>)
    requires Distinct(results) && completed.Keys !! Ready(results)
    ensures var done := Absorb(completed, results);
            && done.Keys == completed.Keys + Ready(results)
            && (forall n | n in completed :: done[n] == completed[n])
            && (forall r | r in results :: done[r.sequence] == r.voice)
    decreases |results|
  {
    if results != [] {
      var mid := completed[results[0].sequence := results[0].voice];
      var rest := results[1..];
      assert results == [results[0]] + rest;
      assert Ready(results) == {results[0].sequence} + Ready(rest) by { ReadyFirst(results); }
      assert results[0].sequence !in Ready(rest) by {
        forall i | 0 <= i < |rest|
          ensures rest[i].sequence != results[0].sequence
        {
          assert rest[i] == results[i + 1];
        }
      }
      AbsorbAll(mid, rest);
    }
  }

  lemma {:induction false} AudibleSplit(voices: map<nat, Voice>, from: nat, mid: nat, until: nat)
    requires from <= mid <= until && forall k | from <= k < until :: k in voices
    ensures Audible(voices, from, until) == Audible(voices, from, mid) + Audible(voices, mid, until)
    decreases until - mid
  {
    if mid < until { AudibleSplit(voices, from, mid, until - 1); }
  }

  lemma {:induction false} AudibleAgrees(a: map<nat, Voice>, b: map<nat, Voice>, from: nat, until: nat)
    requires forall k | from <= k < until :: k in a && k in b && a[k] == b[k]
    ensures Audible(a, from, until) == Audible(b, from, until)
    decreases until - from
  {
    if from < until { AudibleAgrees(a, b, from, until - 1); }
  }

  lemma ScheduleInv(p: Pipeline, text: string)
    requires Inv(p) && Enabled(p, Schedule(text))
    ensures Inv(Next(p, Schedule(text)))
  {
    assert InFlight(Next(p, Schedule(text))) == InFlight(p);
  }

  lemma PickInv(p: Pipeline)
    requires Inv(p) && Enabled(p, Pick)
    ensures Inv(Next(p, Pick))
  {
    hide QueueOk, WorkersOk, Audible;
    PickQueue(p);
    PickWorkers(p);
  }

  lemma PickWorkers(p: Pipeline)
    requires Inv(p) && Enabled(p, Pick)
    ensures WorkersOk(Next(p, Pick))
  {
    hide QueueOk, ResultsOk, SpokenOk, Absorb, Gap, Audible;
    var q := Next(p, Pick);
    var j := p.waiting[0];
    PickedNumber(p);
    PickedIsNew(p);
    assert InFlight(q) == InFlight(p) + {j.sequence};
  }

  lemma PickedNumber(p: Pipeline)
    requires QueueOk(p) && p.waiting != []
    ensures Picked(p) >= 0 && p.waiting[0].sequence == Picked(p) < |p.sentences|
    ensures p.waiting[0].text == p.sentences[Picked(p)]
  {
    assert p.waiting[0] == Job(Picked(p) + 0, p.sentences[Picked(p) + 0]);
  }

  lemma PickQueue(p: Pipeline)
    requires Inv(p) && Enabled(p, Pick)
    ensures QueueOk(Next(p, Pick))
  {
    hide WorkersOk, ResultsOk, SpokenOk;
    assert p.waiting[0].sequence == Picked(p);
    assert p.waiting[0] !in p.running by { PickedIsNew(p); }
  }

  lemma PickedIsNew(p: Pipeline)
    requires Inv(p) && p.waiting != []
    ensures p.waiting[0] !in p.running
  {
    PickedNumber(p);
    assert forall j | j in p.running :: j.sequence in InFlight(p);
  }

  lemma SettleWorkers(p: Pipeline, j: Job, v: Voice)
    requires Inv(p) && Enabled(p, Settle(j, v))
    ensures QueueOk(Next(p, Settle(j, v))) && WorkersOk(Next(p, Settle(j, v)))
  {
    assert j.sequence in InFlight(p);
    assert InFlight(Next(p, Settle(j, v))) == InFlight(p) - {j.sequence};
  }

  lemma SettleResults(p: Pipeline, j: Job, v: Voice)
    requires Inv(p) && Enabled(p, Settle(j, v))
    ensures ResultsOk(Next(p, Settle(j, v))) && SpokenOk(Next(p, Settle(j, v)))
  {
    var q := Next(p, Settle(j, v));
    assert j.sequence in InFlight(p) && j.sequence !in p.voices.Keys;
    assert q.results == p.results + [Result(j.sequence, v)];
    assert Ready(q.results) == Ready(p.results) + {j.sequence};
    forall i | 0 <= i < |p.results|
      ensures p.results[i].sequence != j.sequence
    {
      assert p.results[i] in p.results;
    }
    AudibleAgrees(p.voices, q.voices, 0, p.next);
  }

  lemma DrainFacts(p: Pipeline)
    requires ResultsOk(p)
    ensures var done := Absorb(p.completed, p.results);
            && (forall n | n in done :: p.next <= n && n in p.voices && done[n] == p.voices[n])
            && (forall n | n in p.voices && p.next <= n :: n in done)
  {
    AbsorbAll(p.completed, p.results);
    var done := Absorb(p.completed, p.results);
    forall n | n in done
      ensures n in p.voices && done[n] == p.voices[n]
    {
      if n !in p.completed {
        var r :| r in p.results && r.sequence == n;
      }
    }
  }

  lemma DrainResults(p: Pipeline)
    requires Inv(p)
    ensures ResultsOk(Next(p, Drain)) && Next(p, Drain).next !in p.voices
  {
    hide Absorb, Audible;
    DrainFacts(p);
    assert Ready(Next(p, Drain).results) == {};
  }

  lemma DrainSpoken(p: Pipeline)
    requires Inv(p)
    ensures SpokenOk(Next(p, Drain))
  {
    hide Absorb, Gap;
    DrainFacts(p);
    var done := Absorb(p.completed, p.results);
    var gap := Gap(done, p.next);
    AudibleAgrees(done, p.voices, p.next, gap);
    AudibleSplit(p.voices, 0, p.next, gap);
  }

  /** Draining leaves no gap: the next number to speak has not been settled yet. */
  lemma DrainInv(p: Pipeline)
    requires Inv(p)
    ensures Inv(Next(p, Drain))
    ensures Next(p, Drain).next !in Next(p, Drain).voices
  {
    hide ResultsOk, SpokenOk, Absorb, Gap, Audible;
    DrainResults(p);
    DrainSpoken(p);
    assert InFlight(Next(p, Drain)) == InFlight(p);
  }

  lemma InvStep(p: Pipeline, e: Event)
    requires Inv(p) && Enabled(p, e)
    ensures Inv(Next(p, e))
  {
    match e
    case Schedule(text) => ScheduleInv(p, text);
    case Pick => PickInv(p);
    case Settle(j, v) =>
      SettleWorkers(p, j, v);
      SettleResults(p, j, v);
    case Drain => DrainInv(p);
  }

  lemma {:induction false} RunInv(p: Pipeline, run: seq<Event>)
    requires Inv(p) && CanRun(p, run)
    ensures Inv(Run(p, run))
    decreases |run|
  {
    if run != [] {
      InvStep(p, run[0]);
      RunInv(Next(p, run[0]), run[1..]);
    }
  }

  // ------------------------------------------------------------------ theorems

  lemma {:induction false} AudibleIncreases(voices: map<nat, Voice>, from: nat, until: nat)
    requires forall k | from <= k < until :: k in voices
    ensures var a := Audible(voices, from, until);
            && (forall i | 0 <= i < |a| :: from <= a[i].sequence < until && a[i].voice == voices[a[i].sequence] && a[i].voice.Audio?)
            && (forall i, j | 0 <= i < j < |a| :: a[i].sequence < a[j].sequence)
            && (forall k | from <= k < until && voices[k].Audio? :: Result(k, voices[k]) in a)
    decreases until - from
  {
    if from < until { AudibleIncreases(voices, from, until - 1); }
  }

  /** Audio leaves in strictly increasing sentence order, in every state of every run,
      and each piece is the audio its own sentence was settled with. */
  lemma SpokenInOrder(run: seq<Event>)
    requires CanRun(Idle, run)
    ensures var p := Run(Idle, run);
            && (forall i, j | 0 <= i < j < |p.spoken| :: p.spoken[i].sequence < p.spoken[j].sequence)
            && (forall i | 0 <= i < |p.spoken| ::
                  p.spoken[i].sequence in p.voices && p.spoken[i].voice == p.voices[p.spoken[i].sequence])
  {
    RunInv(Idle, run);
    AudibleIncreases(Run(Idle, run).voices, 0, Run(Idle, run).next);
  }

  /** A worker never settles a sentence that was settled before, and what it holds is
      the sentence of that number. */
  lemma SettledOnce(run: seq<Event>, j: Job, v: Voice)
    requires CanRun(Idle, run) && Enabled(Run(Idle, run), Settle(j, v))
    ensures var p := Run(Idle, run);
            j.sequence !in p.voices && j.sequence < |p.sentences| && j.text == p.sentences[j.sequence]
  {
    RunInv(Idle, run);
    assert j.sequence in InFlight(Run(Idle, run));
  }

  lemma {:induction false} BoundsAlong(p: Pipeline, run: seq<Event>)
    requires CanRun(p, run) && |p.waiting| <= 4 && |p.running| <= 2
    ensures |Run(p, run).waiting| <= 4 && |Run(p, run).running| <= 2
    decreases |run|
  {
    hide Absorb, Gap, Audible, Beyond;
    if run != [] { BoundsAlong(Next(p, run[0]), run[1..]); }
  }

  /** The queue never holds more than four sentences, and no more than two are being
      synthesised. */
  lemma BoundsHold(run: seq<Event>)
    requires CanRun(Idle, run)
    ensures |Run(Idle, run).waiting| <= 4 && |Run(Idle, run).running| <= 2
  {
    BoundsAlong(Idle, run);
  }

  /** After `join` and the final drain nothing is left behind: every sentence was
      settled, `next_audio_sequence` equals `tts_sequence`, `completed_tts` is empty,
      and the audio sent is that of all audible sentences in order. */
  lemma DrainedAfterJoin(run: seq<Event>)
    requires CanRun(Idle, run) && Run(Idle, run).unfinished == 0
    ensures var p := Next(Run(Idle, run), Drain);
            && p.next == |p.sentences| && p.completed == map[] && p.results == []
            && (forall k | 0 <= k < |p.sentences| :: k in p.voices)
            && p.spoken == Audible(p.voices, 0, |p.sentences|)
  {
    RunInv(Idle, run);
    DrainedWhenSettled(Run(Idle, run));
  }

  lemma DrainedWhenSettled(p: Pipeline)
    requires Inv(p) && p.unfinished == 0
    ensures var q := Next(p, Drain);
            && q.next == |q.sentences| && q.completed == map[] && q.results == []
            && (forall k | 0 <= k < |q.sentences| :: k in q.voices)
            && q.spoken == Audible(q.voices, 0, |q.sentences|)
  {
    hide Absorb, Gap, Audible;
    DrainInv(p);
    var q := Next(p, Drain);
    assert p.running == {} && InFlight(p) == {};
    assert forall n: nat | n < |q.sentences| :: n in q.voices;
    assert q.next >= |q.sentences|;
    assert q.next > |q.sentences| ==> |q.sentences| in q.voices;
    assert q.completed.Keys == {};
  }

  // ------------------------------------------------------------------ the drain loops

  /** The first loop of `_drain_ready_tts`: take over every result that is ready. */
  method TakeResults(results: seq<Result>, completed: map<nat, Voice>) returns (done: map<nat, Voice>)
    ensures done == Absorb(completed, results)
  {
    done := completed;
    var queue := results;
    while queue != []
      invariant Absorb(done, queue) == Absorb(completed, results)
      decreases |queue|
    {
      done := done[queue[0].sequence := queue[0].voice];
      queue := queue[1..];
    }
  }

  lemma OneLess(done: map<nat, Voice>, from: nat, k: nat)
    requires from <= k && k in Beyond(done, from, k)
    ensures done[k] == Beyond(done, from, k)[k]
    ensures Beyond(done, from, k) - {k} == Beyond(done, from, k + 1)
    ensures |Beyond(done, from, k + 1)| < |Beyond(done, from, k)|
  {
    assert Beyond(done, from, k + 1).Keys == Beyond(done, from, k).Keys - {k};
  }

  /** The second loop: emit as long as the next sequence number is completed. */
  method EmitReady(done: map<nat, Voice>, next: nat)
    returns (completed: map<nat, Voice>, next': nat, events: seq<Result>)
    ensures next' == Gap(done, next)
    ensures completed == Beyond(done, next, next') && events == Audible(done, next, next')
  {
    hide Gap;
    completed, next', events := done, next, [];
    while next' in completed
      invariant next <= next' && forall k | next <= k < next' :: k in done
      invariant completed == Beyond(done, next, next')
      invariant events == Audible(done, next, next')
      decreases |completed|
    {
      var voice := completed[next'];
      OneLess(done, next, next');
      completed := completed - {next'};
      if voice.Audio? {
        events := events + [Result(next', voice)];
      }
      next' := next' + 1;
    }
    GapIs(done, next, next');
  }

  /** `_drain_ready_tts` */
  method DrainReady(results: seq<Result>, completed: map<nat, Voice>, next: nat)
    returns (completed': map<nat, Voice>, next': nat, events: seq<Result>)
    ensures forall p: Pipeline | p.results == results && p.completed == completed && p.next == next ::
              Next(p, Drain) == p.(results := [], completed := completed', next := next', spoken := p.spoken + events)
  {
    var done := TakeResults(results, completed);
    completed', next', events := EmitReady(done, next);
  }

  lemma {:induction false} GapIs(done: map<nat, Voice>, next: nat, gap: nat)
    requires next <= gap && gap !in done && forall k | next <= k < gap :: k in done
    ensures Gap(done, next) == gap
  {
    var g := Gap(done, next);
    assert g < gap ==> g in done;
    assert gap < g ==> gap in done;
  }
}
