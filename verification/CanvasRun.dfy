/** The path scheduler of the agent canvas (agent/canvas.py): a run executes the tail of
    `self.path` batch by batch, prunes components whose inputs have not run, extends the
    path behind the batch, and may suspend for user input. */
module CanvasRun {

  type Id = string

  datatype Kind = Begin | FillUp | Other

  /** `refs` are the component ids the inputs refer to. */
  datatype Component = Component(kind: Kind, refs: seq<Id>)

  type Graph = map<Id, Component>

  /** What invoking a component led to: the ids its kind selects to run next, and how an
      error, if any, was handled. */
  datatype Outcome =
    | Continue(next: seq<Id>)
    | Goto(ids: seq<Id>)
    | Fatal(next: seq<Id>)

  // ------------------------------------------------------------------ fill-up ids

  function LowerChar(c: char): char { if 'A' <= c <= 'Z' then (c - 'A') + 'a' else c }

  function Lower(s: string): string { seq(|s|, i requires 0 <= i < |s| => LowerChar(s[i])) }

  const MARK := "userfillup"

  predicate MarkAt(id: Id, k: nat) { k + |MARK| <= |id| && Lower(id[k..k + |MARK|]) == MARK }

  /** The id contains "userfillup", ignoring case. */
  predicate MarkedFillUp(id: Id) { exists k: nat | k <= |id| :: MarkAt(id, k) }

  lemma BeginIsUnmarked()
    ensures !MarkedFillUp("begin")
  {
    assert |"begin"| < |MARK|;
  }

  /** The case of an id does not matter for the mark. */
  lemma MarkIgnoresCase(id: Id)
    ensures MarkedFillUp(Lower(id)) <==> MarkedFillUp(id)
  {
    forall k: nat | k <= |id| ensures MarkAt(Lower(id), k) <==> MarkAt(id, k) {
      if k + |MARK| <= |id| {
        var piece := id[k..k + |MARK|];
        assert Lower(id)[k..k + |MARK|] == Lower(piece);
        assert Lower(Lower(piece)) == Lower(piece);
      }
    }
  }

  /** An id made from the component's own name carries it. */
  lemma OwnNameIsMarked(before: string, after: string)
    ensures MarkedFillUp(before + "UserFillUp" + after)
  {
    var id, k := before + "UserFillUp" + after, |before|;
    assert id[k..k + |MARK|] == "UserFillUp";
    assert Lower("UserFillUp") == MARK;
    assert MarkAt(id, k);
  }

  // ------------------------------------------------------------------ pruning

  predicate Exempt(g: Graph, c: Id)
    requires c in g
  {
    g[c].kind.Begin? || g[c].kind.FillUp?
  }

  predicate InputsReady(g: Graph, before: seq<Id>, c: Id)
    requires c in g
  {
    forall r | r in g[c].refs :: r in before
  }

  /** A component may run behind `before`; on a resumed path nothing is pruned. */
  predicate Admitted(g: Graph, before: seq<Id>, c: Id)
    requires c in g
  {
    Exempt(g, c) || InputsReady(g, before, c) || MarkedFillUp((before + [c])[0])
  }

  predicate Known(g: Graph, ids: seq<Id>) { forall c | c in ids :: c in g }

  /** The batch without the components that are not admitted where they stand. */
  function Pruned(g: Graph, before: seq<Id>, batch: seq<Id>): seq<Id>
    requires Known(g, batch)
    decreases |batch|
  {
    if batch == [] then []
    else if Admitted(g, before, batch[0])
    then [batch[0]] + Pruned(g, before + [batch[0]], batch[1..])
    else Pruned(g, before, batch[1..])
  }

  /** The entries of `s` whose flag is set, in order. */
  function Select(s: seq<Id>, keep: seq<bool>): seq<Id>
    requires |s| == |keep|
  {
    if s == [] then [] else (if keep[0] then [s[0]] else []) + Select(s[1..], keep[1..])
  }

  /** What pruning means, entry by entry: the kept entries are a subsequence, and an
      entry goes exactly when it is neither Begin nor a fill-up, some id it refers to is
      missing from the prefix and the entries kept before it, and the head of the path
      carries no mark. */
  lemma {:induction false} PrunedMeans(g: Graph, before: seq<Id>, batch: seq<Id>) returns (keep: seq<bool>)
    requires Known(g, batch)
    ensures |keep| == |batch| && Pruned(g, before, batch) == Select(batch, keep)
    ensures forall j | 0 <= j < |batch| ::
              var earlier := KeptBefore(before, batch, keep, j);
              keep[j] <==>
                || g[batch[j]].kind.Begin? || g[batch[j]].kind.FillUp?
                || (forall r | r in g[batch[j]].refs :: r in earlier)
                || MarkedFillUp(if earlier == [] then batch[j] else earlier[0])
    decreases |batch|
  {
    if batch == [] {
      keep := [];
    } else {
      var first := Admitted(g, before, batch[0]);
      var before' := if first then before + [batch[0]] else before;
      var rest := PrunedMeans(g, before', batch[1..]);
      keep := [first] + rest;
      assert keep[1..] == rest;
      forall j | 0 <= j < |batch|
        ensures keep[j] <==> Admitted(g, KeptBefore(before, batch, keep, j), batch[j])
      {
        if j > 0 {
          KeptBeforeShift(before, batch, keep, j);
          assert keep[j] == rest[j - 1] && batch[j] == batch[1..][j - 1];
        }
      }
    }
  }

  /** The path in front of entry `j`: the prefix and the entries kept before it. */
  function KeptBefore(before: seq<Id>, batch: seq<Id>, keep: seq<bool>, j: nat): seq<Id>
    requires |keep| == |batch| && j <= |batch|
  {
    before + Select(batch[..j], keep[..j])
  }

  lemma KeptBeforeShift(before: seq<Id>, batch: seq<Id>, keep: seq<bool>, j: nat)
    requires |keep| == |batch| && 0 < j <= |batch|
    ensures KeptBefore(before, batch, keep, j)
            == KeptBefore(if keep[0] then before + [batch[0]] else before, batch[1..], keep[1..], j - 1)
  {
    assert batch[..j][1..] == batch[1..][..j - 1] && keep[..j][1..] == keep[1..][..j - 1];
  }

  /** Every checked component of `path` from `start` on has all its inputs before it. */
  ghost predicate InputsBefore(g: Graph, path: seq<Id>, start: nat) {
    forall i | start <= i < |path| :: path[i] in g ==> Exempt(g, path[i]) || InputsReady(g, path[..i], path[i])
  }

  lemma {:induction false} PrunedInputs(g: Graph, before: seq<Id>, batch: seq<Id>, start: nat)
    requires Known(g, batch) && InputsBefore(g, before, start)
    requires before == [] ==> forall c | c in batch :: !MarkedFillUp(c)
    requires before != [] ==> !MarkedFillUp(before[0])
    ensures InputsBefore(g, before + Pruned(g, before, batch), start)
    decreases |batch|
  {
    if batch == [] {
      assert before + [] == before;
    } else if Admitted(g, before, batch[0]) {
      var b := before + [batch[0]];
      forall i | start <= i < |b|
        ensures b[i] in g ==> Exempt(g, b[i]) || InputsReady(g, b[..i], b[i])
      {
        assert i < |before| ==> b[..i] == before[..i] && b[i] == before[i];
        assert i == |before| ==> b[..i] == before;
      }
      PrunedInputs(g, b, batch[1..], start);
      assert before + Pruned(g, before, batch) == b + Pruned(g, b, batch[1..]);
    } else {
      PrunedInputs(g, before, batch[1..], start);
    }
  }

  /** On a resumed path the whole batch stays. */
  lemma {:induction false} ResumedKeepsAll(g: Graph, before: seq<Id>, batch: seq<Id>)
    requires Known(g, batch) && batch != [] && MarkedFillUp((before + batch)[0])
    ensures Pruned(g, before, batch) == batch
    decreases |batch|
  {
    assert (before + [batch[0]])[0] == (before + batch)[0];
    assert batch == [batch[0]] + batch[1..];
    if |batch| > 1 {
      assert ((before + [batch[0]]) + batch[1..]) == before + batch;
      ResumedKeepsAll(g, before + [batch[0]], batch[1..]);
    } else {
      assert batch[1..] == [];
    }
  }

  // ------------------------------------------------------------------ extension

  /** `_append_path` for each id: the last entry is not repeated. */
  function Extended(path: seq<Id>, ids: seq<Id>): seq<Id>
    requires path != []
    decreases |ids|
  {
    if ids == [] then path
    else Extended(if path[|path| - 1] == ids[0] then path else path + [ids[0]], ids[1..])
  }

  function After(path: seq<Id>, o: Outcome): seq<Id>
    requires path != []
  {
    match o
    case Continue(next) => Extended(path, next)
    case Goto(ids) => path + ids
    case Fatal(next) => Extended(path, next)
  }

  /** The path after the entries `[i, until)` have been post-processed in order. */
  function Processed(path: seq<Id>, outcome: nat -> Outcome, i: nat, until: nat): (r: seq<Id>)
    requires until <= |path|
    ensures path <= r
    decreases until - i
  {
    if i >= until then path
    else
      ExtendedGrows(path, outcome(i));
      Processed(After(path, outcome(i)), outcome, i + 1, until)
  }

  lemma {:induction false} ExtendedPrefix(path: seq<Id>, ids: seq<Id>)
    requires path != []
    ensures path <= Extended(path, ids)
    decreases |ids|
  {
    if ids != [] {
      ExtendedPrefix(if path[|path| - 1] == ids[0] then path else path + [ids[0]], ids[1..]);
    }
  }

  lemma ExtendedGrows(path: seq<Id>, o: Outcome)
    requires path != []
    ensures path <= After(path, o)
  {
    match o
    case Continue(next) => ExtendedPrefix(path, next);
    case Goto(ids) =>
    case Fatal(next) => ExtendedPrefix(path, next);
  }

  /** An id an outcome offers for the path; `forced` if it is appended even when it repeats
      the last entry, as the targets of an error handler are. */
  datatype Offer = Offer(id: Id, forced: bool)

  function Offers(o: Outcome): seq<Offer> {
    match o
    case Goto(ids) => seq(|ids|, i requires 0 <= i < |ids| => Offer(ids[i], true))
    case Continue(next) => seq(|next|, i requires 0 <= i < |next| => Offer(next[i], false))
    case Fatal(next) => seq(|next|, i requires 0 <= i < |next| => Offer(next[i], false))
  }

  /** The offers of the entries `[i, until)`, in order. */
  function AllOffers(outcome: nat -> Outcome, i: nat, until: nat): seq<Offer>
    decreases until - i
  {
    if i >= until then [] else Offers(outcome(i)) + AllOffers(outcome, i + 1, until)
  }

  /** What is appended: each offer that is forced or differs from the one before it, the
      first one from the last entry of the path. */
  function Taken(last: Id, offers: seq<Offer>): seq<Id>
    decreases |offers|
  {
    if offers == [] then []
    else (if offers[0].forced || offers[0].id != last then [offers[0].id] else []) + Taken(offers[0].id, offers[1..])
  }

  function LastOf(last: Id, offers: seq<Offer>): Id { if offers == [] then last else offers[|offers| - 1].id }

  lemma {:induction false} TakenAppend(last: Id, a: seq<Offer>, b: seq<Offer>)
    ensures Taken(last, a + b) == Taken(last, a) + Taken(LastOf(last, a), b)
    decreases |a|
  {
    if a == [] {
      assert a + b == b;
    } else {
      assert (a + b)[0] == a[0] && (a + b)[1..] == a[1..] + b;
      TakenAppend(a[0].id, a[1..], b);
    }
  }

  lemma FirstOffer(last: Id, ids: seq<Id>)
    requires ids != []
    ensures var offers, rest := Offers(Continue(ids)), Offers(Continue(ids[1..]));
            && Taken(last, offers) == (if ids[0] != last then [ids[0]] else []) + Taken(ids[0], rest)
            && LastOf(last, offers) == LastOf(ids[0], rest)
  {
    assert Offers(Continue(ids))[1..] == Offers(Continue(ids[1..]));
  }

  lemma {:induction false} ExtendedTakes(path: seq<Id>, ids: seq<Id>)
    requires path != []
    ensures var last := path[|path| - 1];
            && Extended(path, ids) == path + Taken(last, Offers(Continue(ids)))
            && Extended(path, ids)[|Extended(path, ids)| - 1] == LastOf(last, Offers(Continue(ids)))
    decreases |ids|
  {
    hide Taken, Offers, LastOf;
    var last := path[|path| - 1];
    if ids == [] {
      NoOffers(last);
      assert path + [] == path;
    } else {
      FirstOffer(last, ids);
      var longer := if last == ids[0] then path else path + [ids[0]];
      ExtendedTakes(longer, ids[1..]);
      var more := Taken(ids[0], Offers(Continue(ids[1..])));
      assert path + ([ids[0]] + more) == (path + [ids[0]]) + more && path + ([] + more) == path + more;
    }
  }

  lemma NoOffers(last: Id)
    ensures Taken(last, Offers(Continue([]))) == [] && LastOf(last, Offers(Continue([]))) == last
  {
  }

  lemma {:induction false} ForcedTakes(last: Id, ids: seq<Id>)
    ensures Taken(last, Offers(Goto(ids))) == ids
    decreases |ids|
  {
    if ids != [] {
      assert Offers(Goto(ids))[1..] == Offers(Goto(ids[1..]));
      ForcedTakes(ids[0], ids[1..]);
    }
  }

  lemma AfterTakes(path: seq<Id>, o: Outcome)
    requires path != []
    ensures var last, after := path[|path| - 1], After(path, o);
            after == path + Taken(last, Offers(o)) && after[|after| - 1] == LastOf(last, Offers(o))
  {
    var last := path[|path| - 1];
    match o
    case Goto(ids) =>
      ForcedTakes(last, ids);
      assert ids != [] ==> (path + ids)[|path + ids| - 1] == ids[|ids| - 1];
    case Continue(next) => ExtendedTakes(path, next);
    case Fatal(next) =>
      ExtendedTakes(path, next);
      assert Offers(o) == Offers(Continue(next));
  }

  /** Post-processing a batch appends what its entries offer, in order, leaving out an id
      that would repeat the one before it, unless an error handler names it. */
  lemma {:induction false} ProcessedTakes(path: seq<Id>, outcome: nat -> Outcome, i: nat, until: nat)
    requires until <= |path| && path != []
    ensures Processed(path, outcome, i, until) == path + Taken(path[|path| - 1], AllOffers(outcome, i, until))
    decreases until - i
  {
    hide After, Taken, Offers;
    if i < until {
      var last, after := path[|path| - 1], After(path, outcome(i));
      AfterTakes(path, outcome(i));
      ProcessedTakes(after, outcome, i + 1, until);
      TakenAppend(last, Offers(outcome(i)), AllOffers(outcome, i + 1, until));
      assert (path + Taken(last, Offers(outcome(i)))) + Taken(LastOf(last, Offers(outcome(i))), AllOffers(outcome, i + 1, until))
          == path + (Taken(last, Offers(outcome(i))) + Taken(LastOf(last, Offers(outcome(i))), AllOffers(outcome, i + 1, until)));
    } else {
      NothingTaken(path[|path| - 1]);
      assert path + [] == path;
    }
  }

  lemma NothingTaken(last: Id)
    ensures Taken(last, []) == []
  {
  }

  // ------------------------------------------------------------------ suspension

  function Filter(s: seq<Id>, keep: Id -> bool): seq<Id> {
    if s == [] then [] else (if keep(s[0]) then [s[0]] else []) + Filter(s[1..], keep)
  }

  predicate IsFillUp(g: Graph, c: Id) { c in g && g[c].kind.FillUp? }

  predicate IsOther(g: Graph, c: Id) { c in g && !g[c].kind.FillUp? }

  /** The pending components, fill-ups first; unknown ids are dropped. */
  function Frontier(g: Graph, pending: seq<Id>): seq<Id> {
    Filter(pending, c => IsFillUp(g, c)) + Filter(pending, c => IsOther(g, c))
  }

  lemma {:induction false} FilterSplits(g: Graph, s: seq<Id>)
    ensures multiset(Filter(s, c => IsFillUp(g, c))) + multiset(Filter(s, c => IsOther(g, c)))
            == multiset(Filter(s, c => c in g))
  {
    if s != [] { FilterSplits(g, s[1..]); }
  }

  /** Which entries are fill-ups, and which are other known components. */
  function FillUps(g: Graph, s: seq<Id>): seq<bool> { seq(|s|, i requires 0 <= i < |s| => IsFillUp(g, s[i])) }

  function Others(g: Graph, s: seq<Id>): seq<bool> { seq(|s|, i requires 0 <= i < |s| => IsOther(g, s[i])) }

  lemma {:induction false} FilterSelects(g: Graph, s: seq<Id>)
    ensures Filter(s, c => IsFillUp(g, c)) == Select(s, FillUps(g, s))
    ensures Filter(s, c => IsOther(g, c)) == Select(s, Others(g, s))
  {
    if s != [] {
      FilterSelects(g, s[1..]);
      assert FillUps(g, s)[1..] == FillUps(g, s[1..]) && Others(g, s)[1..] == Others(g, s[1..]);
    }
  }

  /** The suspended path is a stable partition: a permutation of the pending components
      that exist, the fill-ups in the order they had, then the others in theirs. */
  lemma FrontierIsPermutation(g: Graph, pending: seq<Id>)
    ensures multiset(Frontier(g, pending)) == multiset(Filter(pending, c => c in g))
    ensures Frontier(g, pending) == Select(pending, FillUps(g, pending)) + Select(pending, Others(g, pending))
  {
    FilterSplits(g, pending);
    FilterSelects(g, pending);
  }

  lemma {:induction false} FilterMembers(s: seq<Id>, keep: Id -> bool)
    ensures forall c | c in Filter(s, keep) :: keep(c) && c in s
    ensures forall c | c in s && keep(c) :: c in Filter(s, keep)
  {
    if s != [] {
      FilterMembers(s[1..], keep);
      assert s == [s[0]] + s[1..];
    }
  }

  // ------------------------------------------------------------------ runs

  datatype Status = Running | Finished | Failed | Suspended | Crashed

  /** `done` lists the batches completed so far, for the statements below. */
  datatype Run = Run(path: seq<Id>, idx: nat, status: Status, done: seq<seq<Id>>)

  /** What the outside world contributes to one batch. */
  datatype World = World(outcome: nat -> Outcome, inputsMissing: bool)

  predicate IsResume(path: seq<Id>) { path != [] && MarkedFillUp(path[0]) }

  /** The start of `_run_impl`. */
  function Begun(path: seq<Id>): Run {
    if IsResume(path) then Run(path, 0, Running, [])
    else Run(path + ["begin"], |path|, Running, [])
  }

  /** One turn of the main loop. */
  function Turn(g: Graph, r: Run, w: World): Run
    requires r.status.Running? && r.idx < |r.path|
  {
    if !Known(g, r.path[r.idx..]) then r.(status := Crashed)
    else
      var kept := Pruned(g, r.path[..r.idx], r.path[r.idx..]);
      var path := r.path[..r.idx] + kept;
      var idx := |path|;
      var grown := Processed(path, w.outcome, r.idx, idx);
      if exists i | r.idx <= i < idx :: w.outcome(i).Fatal? then r.(path := r.path[..r.idx], status := Failed)
      else if (exists c | c in grown[idx..] :: IsFillUp(g, c)) && w.inputsMissing
      then Run(Frontier(g, grown[idx..]), idx, Suspended, r.done + [kept])
      else Run(grown, idx, if idx < |grown| then Running else Finished, r.done + [kept])
  }

  function Turns(g: Graph, r: Run, worlds: seq<World>): Run
    requires r.status.Running? ==> r.idx < |r.path|
    decreases |worlds|
  {
    if worlds == [] || !r.status.Running? then r else Turns(g, Turn(g, r, worlds[0]), worlds[1..])
  }

  function Flatten(parts: seq<seq<Id>>): seq<Id> {
    if parts == [] then [] else Flatten(parts[..|parts| - 1]) + parts[|parts| - 1]
  }

  /** The executed part is what was there before the run and the completed batches. */
  ghost predicate Inv(g: Graph, r: Run, before: seq<Id>) {
    && (r.status.Running? ==> r.idx < |r.path| && r.path[..r.idx] == before + Flatten(r.done))
    && (r.status.Finished? || r.status.Failed? ==> r.path == before + Flatten(r.done))
  }

  lemma TurnInv(g: Graph, r: Run, w: World, before: seq<Id>)
    requires Inv(g, r, before) && r.status.Running?
    ensures Inv(g, Turn(g, r, w), before)
  {
    if Known(g, r.path[r.idx..]) {
      var kept := Pruned(g, r.path[..r.idx], r.path[r.idx..]);
      var path := r.path[..r.idx] + kept;
      var grown := Processed(path, w.outcome, r.idx, |path|);
      assert grown[..|path|] == path;
      assert (r.done + [kept])[..|r.done|] == r.done;
      assert before + Flatten(r.done + [kept]) == before + Flatten(r.done) + kept;
    }
  }

  lemma {:induction false} TurnsInv(g: Graph, r: Run, worlds: seq<World>, before: seq<Id>)
    requires Inv(g, r, before)
    ensures Inv(g, Turns(g, r, worlds), before)
    decreases |worlds|
  {
    if worlds != [] && r.status.Running? {
      TurnInv(g, r, worlds[0], before);
      TurnsInv(g, Turn(g, r, worlds[0]), worlds[1..], before);
    }
  }

  /** However a run goes: when it has ended, with or without an error, the path is what
      it was before, followed by exactly the batches completed without error. */
  lemma PathIsCompletedBatches(g: Graph, path: seq<Id>, worlds: seq<World>)
    ensures var r := Turns(g, Begun(path), worlds);
            r.status.Finished? || r.status.Failed? ==>
              r.path == (if IsResume(path) then [] else path) + Flatten(r.done)
  {
    TurnsInv(g, Begun(path), worlds, if IsResume(path) then [] else path);
  }

  /** A batch one of whose entries failed for good. */
  ghost predicate Fails(w: World, from: nat, until: nat) { exists i: nat | from <= i < until :: w.outcome(i).Fatal? }

  /** One turn: a batch with an entry that failed for good ends the run with the path it had
      in front of the batch and counts for nothing; any other batch counts as completed and
      what follows it is pending, the run waiting for input exactly when a fill-up is among
      that and input is missing. */
  lemma TurnMeans(g: Graph, r: Run, w: World)
    requires r.status.Running? && r.idx < |r.path| && Known(g, r.path[r.idx..])
    ensures var kept := Pruned(g, r.path[..r.idx], r.path[r.idx..]);
            var t := Turn(g, r, w);
            var missing := w.inputsMissing && exists c | c in Pending(g, r, w) :: IsFillUp(g, c);
            && (Fails(w, r.idx, r.idx + |kept|) ==>
                  t.status.Failed? && t.done == r.done && t.path == r.path[..r.idx])
            && (!Fails(w, r.idx, r.idx + |kept|) ==>
                  && t.done == r.done + [kept] && t.idx == r.idx + |kept|
                  && (t.status.Suspended? <==> missing)
                  && (missing ==> t.path == Frontier(g, Pending(g, r, w)))
                  && (!missing ==> t.path == r.path[..r.idx] + kept + Pending(g, r, w))
                  && (t.status.Finished? <==> !missing && Pending(g, r, w) == [])
                  && (t.status.Running? <==> !missing && Pending(g, r, w) != []))
  {
    hide Frontier, Pruned;
    var path := r.path[..r.idx] + Pruned(g, r.path[..r.idx], r.path[r.idx..]);
    var grown := Processed(path, w.outcome, r.idx, |path|);
    assert grown == path + grown[|path|..];
  }

  /** Where the k-th batch of a run begins in the path. */
  function BatchStart(start: nat, done: seq<seq<Id>>, k: nat): nat
    requires k <= |done|
  {
    start + |Flatten(done[..k])|
  }

  /** The k-th batch, which the k-th turn executed, has no entry that failed for good. */
  ghost predicate CleanBatch(start: nat, done: seq<seq<Id>>, worlds: seq<World>, k: nat)
    requires k < |done| && k < |worlds|
  {
    !Fails(worlds[k], BatchStart(start, done, k), BatchStart(start, done, k + 1))
  }

  lemma SameBatch(start: nat, done: seq<seq<Id>>, more: seq<seq<Id>>, worlds: seq<World>, others: seq<World>, k: nat)
    requires done <= more && worlds <= others && k < |done| && k < |worlds|
    ensures CleanBatch(start, more, others, k) <==> CleanBatch(start, done, worlds, k)
  {
    assert more[..k] == done[..k] && more[..k + 1] == done[..k + 1];
  }

  /** Every completed batch was completed without error, in the turn that executed it; a run
      that failed has one more turn, whose batch held an entry that failed for good. */
  ghost predicate Clean(start: nat, r: Run, worlds: seq<World>) {
    && |r.done| <= |worlds|
    && (forall k | 0 <= k < |r.done| :: CleanBatch(start, r.done, worlds, k))
    && (r.status.Failed? ==>
          |r.done| < |worlds| && exists i: nat :: BatchStart(start, r.done, |r.done|) <= i && worlds[|r.done|].outcome(i).Fatal?)
    && (r.status.Running? ==> |r.done| == |worlds| && r.idx == BatchStart(start, r.done, |r.done|) < |r.path|)
  }

  lemma FlattenOneMore(parts: seq<seq<Id>>, part: seq<Id>)
    ensures Flatten(parts + [part]) == Flatten(parts) + part
  {
    assert (parts + [part])[..|parts|] == parts;
  }

  lemma CleanStep(g: Graph, start: nat, r: Run, worlds: seq<World>, w: World)
    requires Clean(start, r, worlds) && r.status.Running?
    ensures Clean(start, Turn(g, r, w), worlds + [w])
  {
    hide Turn, Pruned, Processed, Frontier, Flatten, Fails, CleanBatch;
    var t, all := Turn(g, r, w), worlds + [w];
    assert r.done[..|r.done|] == r.done;
    if Known(g, r.path[r.idx..]) {
      TurnMeans(g, r, w);
      var kept := Pruned(g, r.path[..r.idx], r.path[r.idx..]);
      if Fails(w, r.idx, r.idx + |kept|) {
        FailsSomewhere(w, r.idx, r.idx + |kept|);
        assert all[|r.done|] == w;
      } else {
        assert all[|r.done|] == w;
        FlattenOneMore(r.done, kept);
        assert t.done[..|t.done|] == t.done && t.done[..|r.done|] == r.done;
        LastBatch(start, t.done, all, r.idx);
        TurnRuns(g, r, w);
      }
    } else {
      CrashedTurn(g, r, w);
    }
    forall k | 0 <= k < |r.done| ensures CleanBatch(start, t.done, all, k) {
      SameBatch(start, r.done, t.done, worlds, all, k);
    }
  }

  lemma LastBatch(start: nat, done: seq<seq<Id>>, worlds: seq<World>, idx: nat)
    requires |done| == |worlds| > 0
    requires idx == BatchStart(start, done, |done| - 1)
    requires !Fails(worlds[|done| - 1], idx, BatchStart(start, done, |done|))
    ensures CleanBatch(start, done, worlds, |done| - 1)
  {
  }

  lemma FailsSomewhere(w: World, from: nat, until: nat)
    requires Fails(w, from, until)
    ensures exists i: nat :: from <= i && w.outcome(i).Fatal?
  {
  }

  lemma TurnRuns(g: Graph, r: Run, w: World)
    requires r.status.Running? && r.idx < |r.path|
    ensures Turn(g, r, w).status.Running? ==> Turn(g, r, w).idx < |Turn(g, r, w).path|
  {
  }

  lemma CrashedTurn(g: Graph, r: Run, w: World)
    requires r.status.Running? && r.idx < |r.path| && !Known(g, r.path[r.idx..])
    ensures Turn(g, r, w) == r.(status := Crashed)
  {
  }

  lemma {:induction false} CleanAlong(g: Graph, start: nat, r: Run, past: seq<World>, worlds: seq<World>)
    requires Clean(start, r, past)
    ensures r.status.Running? || worlds == [] ==> Clean(start, Turns(g, r, worlds), past + worlds)
    decreases |worlds|
  {
    hide Turn;
    if worlds == [] {
      assert past + worlds == past;
    } else if r.status.Running? {
      CleanStep(g, start, r, past, worlds[0]);
      assert (past + [worlds[0]]) + worlds[1..] == past + worlds;
      var t := Turn(g, r, worlds[0]);
      if t.status.Running? || worlds[1..] == [] {
        CleanAlong(g, start, t, past + [worlds[0]], worlds[1..]);
      } else {
        assert Turns(g, t, worlds[1..]) == t;
        CleanLonger(start, t, past + [worlds[0]], worlds[1..]);
      }
    }
  }

  lemma CleanLonger(start: nat, r: Run, a: seq<World>, b: seq<World>)
    requires Clean(start, r, a) && !r.status.Running?
    ensures Clean(start, r, a + b)
  {
    hide Fails, BatchStart, CleanBatch;
    forall k | 0 <= k < |r.done| ensures CleanBatch(start, r.done, a + b, k) { SameBatch(start, r.done, r.done, a, a + b, k); }
    assert |r.done| < |a| ==> (a + b)[|r.done|] == a[|r.done|];
  }

  /** Over every run: the path a run leaves consists of what it found and of batches none of
      whose entries failed for good, each judged by the turn that executed it. */
  lemma CompletedWithoutError(g: Graph, path: seq<Id>, worlds: seq<World>)
    ensures var r := Turns(g, Begun(path), worlds);
            Clean(if IsResume(path) then 0 else |path|, r, worlds)
  {
    var start := if IsResume(path) then 0 else |path|;
    assert Clean(start, Begun(path), []);
    assert [] + worlds == worlds;
    CleanAlong(g, start, Begun(path), [], worlds);
  }

  /** Along a run that is not a resumption, the executed part keeps every checked
      component behind all its inputs, and the head of the path stays unmarked. */
  ghost predicate Ordered(g: Graph, r: Run, start: nat) {
    r.status.Running? ==>
      && start <= r.idx < |r.path|
      && (r.idx == 0 ==> |r.path| == 1)
      && !MarkedFillUp(r.path[0])
      && InputsBefore(g, r.path[..r.idx], start)
  }

  lemma TurnOrdered(g: Graph, r: Run, w: World, start: nat)
    requires r.status.Running? && Ordered(g, r, start)
    ensures Ordered(g, Turn(g, r, w), start)
    ensures var t := Turn(g, r, w);
            t.status.Finished? || t.status.Failed? ==> InputsBefore(g, t.path, start)
  {
    if Known(g, r.path[r.idx..]) {
      var before, batch := r.path[..r.idx], r.path[r.idx..];
      assert r.idx == 0 ==> batch == [r.path[0]] && batch[1..] == [];
      var kept := Pruned(g, before, batch);
      PrunedInputs(g, before, batch, start);
      var path := before + kept;
      var grown := Processed(path, w.outcome, r.idx, |path|);
      assert grown[..|path|] == path;
      if r.idx == 0 && kept == [] {
        assert grown == [];
      } else {
        assert r.idx == 0 ==> Pruned(g, before, batch[1..]) == [] && Pruned(g, before + [batch[0]], batch[1..]) == [];
        assert r.idx == 0 ==> kept == batch;
        assert grown[0] == path[0] == r.path[0];
      }
      if |path| == |grown| { assert grown == path; }
    }
  }

  lemma {:induction false} TurnsOrdered(g: Graph, r: Run, worlds: seq<World>, start: nat)
    requires Ordered(g, r, start) && (r.status.Finished? || r.status.Failed? ==> InputsBefore(g, r.path, start))
    ensures var t := Turns(g, r, worlds);
            Ordered(g, t, start) && (t.status.Finished? || t.status.Failed? ==> InputsBefore(g, t.path, start))
    decreases |worlds|
  {
    if worlds != [] && r.status.Running? {
      TurnOrdered(g, r, worlds[0], start);
      TurnsOrdered(g, Turn(g, r, worlds[0]), worlds[1..], start);
    }
  }

  /** In a run that is not a resumption, every component executed from its start index
      on (other than Begin and fill-ups, which are not checked) has all the ids it
      refers to earlier in the path. */
  lemma InputsRunFirst(g: Graph, path: seq<Id>, worlds: seq<World>)
    requires !IsResume(path)
    ensures var r := Turns(g, Begun(path), worlds);
            && (r.status.Running? ==> r.idx < |r.path| && InputsBefore(g, r.path[..r.idx], |path|))
            && (r.status.Finished? || r.status.Failed? ==> InputsBefore(g, r.path, |path|))
  {
    BeginIsUnmarked();
    TurnsOrdered(g, Begun(path), worlds, |path|);
  }

  // ------------------------------------------------------------------ suspend and resume

  /** If the first fill-up of a suspended path carries the mark in its id, the next run
      restarts at index 0 and its first batch is the whole pending frontier: nothing is
      pruned and nothing is lost. */
  lemma ResumeRunsFrontier(g: Graph, pending: seq<Id>, w: World)
    requires var p := Frontier(g, pending); p != [] && MarkedFillUp(p[0])
    ensures var p := Frontier(g, pending);
            && Begun(p) == Run(p, 0, Running, [])
            && Known(g, p) && Pruned(g, [], p) == p
            && multiset(p) == multiset(Filter(pending, c => c in g))
            && (!Turn(g, Begun(p), w).status.Failed? ==> Turn(g, Begun(p), w).done == [p])
  {
    hide MarkedFillUp, Frontier, Turn, Pruned;
    var p := Frontier(g, pending);
    FrontierIsKnown(g, pending);
    assert [] + p == p;
    ResumedKeepsAll(g, [], p);
    FrontierIsPermutation(g, pending);
    WholeFirstBatch(g, p, w);
  }

  lemma FrontierIsKnown(g: Graph, pending: seq<Id>)
    ensures Known(g, Frontier(g, pending))
  {
    FilterMembers(pending, c => IsFillUp(g, c));
    FilterMembers(pending, c => IsOther(g, c));
  }

  lemma WholeFirstBatch(g: Graph, p: seq<Id>, w: World)
    requires p != [] && Known(g, p) && Pruned(g, [], p) == p
    ensures var t := Turn(g, Run(p, 0, Running, []), w); !t.status.Failed? ==> t.done == [p]
  {
    hide Pruned, Processed, Frontier;
    assert p[..0] == [] && p[0..] == p;
    assert [] + [p] == [p];
  }

  /** The batch a run executes first. */
  function FirstBatch(g: Graph, path: seq<Id>): seq<Id>
    requires Known(g, Begun(path).path[Begun(path).idx..])
  {
    var s := Begun(path);
    Pruned(g, s.path[..s.idx], s.path[s.idx..])
  }

  lemma {:induction false} DoneGrows(g: Graph, r: Run, worlds: seq<World>)
    requires r.status.Running? ==> r.idx < |r.path|
    ensures r.done <= Turns(g, r, worlds).done
    decreases |worlds|
  {
    if worlds != [] && r.status.Running? { DoneGrows(g, Turn(g, r, worlds[0]), worlds[1..]); }
  }

  ghost predicate HasBegin(g: Graph) { "begin" in g && g["begin"].kind.Begin? }

  lemma UnmarkedFirstBatch(g: Graph, path: seq<Id>)
    requires HasBegin(g) && !IsResume(path)
    ensures var s := Begun(path);
            s.path[s.idx..] == ["begin"] && Known(g, s.path[s.idx..]) && FirstBatch(g, path) == ["begin"]
  {
    hide MarkedFillUp;
    var s := Begun(path);
    assert s.path[s.idx..] == ["begin"];
    assert ["begin"][1..] == [];
  }

  /** Without the mark the pending components are lost: throughout the next run they stand
      in the path as executed, in front of everything the run does execute, and the first
      batch of that run is "begin". */
  lemma UnmarkedFrontierIsSkipped(g: Graph, pending: seq<Id>, worlds: seq<World>)
    requires HasBegin(g)
    requires var p := Frontier(g, pending); p != [] && !MarkedFillUp(p[0])
    ensures var p := Frontier(g, pending);
            var t := Turns(g, Begun(p), worlds);
            && (t.status.Running? ==> t.idx <= |t.path| && t.path[..t.idx] == p + Flatten(t.done))
            && (t.status.Finished? || t.status.Failed? ==> t.path == p + Flatten(t.done))
            && (t.done != [] ==> t.done[0] == ["begin"])
  {
    var p := Frontier(g, pending);
    TurnsInv(g, Begun(p), worlds, p);
    UnmarkedFirstBatch(g, p);
    if worlds != [] {
      var first := Turn(g, Begun(p), worlds[0]);
      DoneGrows(g, first, worlds[1..]);
      assert first.done == [["begin"]] || (first.done == [] && !first.status.Running?);
    }
  }

  /** A run suspends only in front of a fill-up component, and leaves it first. */
  lemma SuspendedHeadIsFillUp(g: Graph, r: Run, w: World)
    requires r.status.Running? && r.idx < |r.path| && Turn(g, r, w).status.Suspended?
    ensures var p := Turn(g, r, w).path; p != [] && IsFillUp(g, p[0])
  {
    var path := r.path[..r.idx] + Pruned(g, r.path[..r.idx], r.path[r.idx..]);
    var pending := Processed(path, w.outcome, r.idx, |path|)[|path|..];
    FilterMembers(pending, c => IsFillUp(g, c));
    var fills := Filter(pending, c => IsFillUp(g, c));
    var c :| c in pending && IsFillUp(g, c);
    assert c in fills && fills[0] in fills;
    assert Frontier(g, pending)[0] == fills[0];
  }

  /** Suspension and resumption together: the next run executes the pending frontier first,
      all of it, exactly when the first fill-up id carries the mark; otherwise it starts
      over at "begin". */
  lemma ResumesIffMarked(g: Graph, r: Run, w: World)
    requires r.status.Running? && r.idx < |r.path| && Turn(g, r, w).status.Suspended?
    requires HasBegin(g)
    ensures var p := Turn(g, r, w).path;
            && p != [] && Known(g, Begun(p).path[Begun(p).idx..])
            && (FirstBatch(g, p) == p <==> MarkedFillUp(p[0]))
            && (!MarkedFillUp(p[0]) ==> FirstBatch(g, p) == ["begin"])
  {
    SuspendedHeadIsFillUp(g, r, w);
    var p := Turn(g, r, w).path;
    assert p == Frontier(g, Pending(g, r, w));
    if MarkedFillUp(p[0]) {
      ResumeRunsFrontier(g, Pending(g, r, w), w);
      assert p[..0] == [] && p[0..] == p;
    } else {
      UnmarkedFirstBatch(g, p);
      assert p[0] != "begin";
    }
  }

  /** The path behind the batch a turn has executed. */
  function Pending(g: Graph, r: Run, w: World): seq<Id>
    requires r.idx < |r.path| && Known(g, r.path[r.idx..])
  {
    var path := r.path[..r.idx] + Pruned(g, r.path[..r.idx], r.path[r.idx..]);
    Processed(path, w.outcome, r.idx, |path|)[|path|..]
  }

  /** When every fill-up id carries the mark, nothing pending is lost between the run that
      suspends and the next one: that one begins with exactly the known components that
      were pending, fill-ups first, and prunes none of them. */
  lemma NothingLost(g: Graph, r: Run, w: World, next: World)
    requires r.status.Running? && r.idx < |r.path| && Turn(g, r, w).status.Suspended?
    requires forall c | IsFillUp(g, c) :: MarkedFillUp(c)
    ensures var p, pending := Turn(g, r, w).path, Pending(g, r, w);
            && multiset(p) == multiset(Filter(pending, c => c in g))
            && Begun(p) == Run(p, 0, Running, [])
            && (!Turn(g, Begun(p), next).status.Failed? ==> Turn(g, Begun(p), next).done == [p])
  {
    SuspendedHeadIsFillUp(g, r, w);
    var pending := Pending(g, r, w);
    assert Turn(g, r, w).path == Frontier(g, pending);
    ResumeRunsFrontier(g, pending, next);
  }

  /** A canvas with a fill-up component called "ask" beside another component. */
  const AskGraph: Graph :=
    map["begin" := Component(Begin, []), "ask" := Component(FillUp, []), "llm" := Component(Other, [])]

  /** "begin" leads to both, and "ask" still wants input. */
  const AskWorld := World((i: nat) => Continue(["llm", "ask"]), true)

  lemma AskPending()
    ensures Processed(["begin"], AskWorld.outcome, 0, 1) == ["begin", "llm", "ask"]
    ensures Frontier(AskGraph, ["llm", "ask"]) == ["ask", "llm"]
  {
    var s, b := ["llm", "ask"], ["begin"];
    assert s[1..] == ["ask"] && s[1..][1..] == [];
    assert Extended(b, s) == ["begin", "llm", "ask"] by {
      assert "llm"[0] == 'l' && "ask"[0] == 'a' && "begin"[0] == 'b';
      assert b + ["llm"] == ["begin", "llm"] && ["begin", "llm"] + ["ask"] == ["begin", "llm", "ask"];
      assert Extended(["begin", "llm", "ask"], []) == ["begin", "llm", "ask"];
      assert Extended(["begin", "llm"], ["ask"]) == ["begin", "llm", "ask"];
    }
    assert After(b, AskWorld.outcome(0)) == ["begin", "llm", "ask"];
    assert Filter(s, c => IsFillUp(AskGraph, c)) == ["ask"];
    assert Filter(s, c => IsOther(AskGraph, c)) == ["llm"];
  }

  lemma AskSuspends()
    ensures Begun([]) == Run(["begin"], 0, Running, [])
    ensures Turn(AskGraph, Begun([]), AskWorld) == Run(["ask", "llm"], 1, Suspended, [["begin"]])
  {
    hide Processed, Frontier, MarkedFillUp;
    var r := Begun([]);
    assert [] + ["begin"] == ["begin"];
    var path := ["begin"];
    assert path[..0] == [] && path[0..] == path && path[1..] == [] && [] + path == path;
    assert Pruned(AskGraph, [], path) == path;
    AskPending();
    var grown := ["begin", "llm", "ask"];
    assert grown[1..] == ["llm", "ask"] && grown[1..][1] in grown[1..] && IsFillUp(AskGraph, "ask");
    assert !AskWorld.outcome(0).Fatal?;
    assert [] + [path] == [path];
  }

  /** The mark is needed: the very first run of that canvas suspends with "ask" in front,
      and the next run executes "begin" again instead of "ask" and "llm". */
  lemma ResumeNeedsMark()
    ensures var t := Turn(AskGraph, Begun([]), AskWorld);
            && t.status.Suspended? && t.path == ["ask", "llm"]
            && Known(AskGraph, Begun(t.path).path[Begun(t.path).idx..])
            && FirstBatch(AskGraph, t.path) == ["begin"]
  {
    AskSuspends();
    assert |"ask"| < |MARK|;
    UnmarkedFirstBatch(AskGraph, ["ask", "llm"]);
  }

  // ------------------------------------------------------------------ the object

  /** The canvas as an object whose `path` is popped, extended and replaced in place. */
  class Canvas {
    const g: Graph
    var path: seq<Id>

    constructor (g: Graph, path: seq<Id>)
      ensures this.g == g && this.path == path
    {
      this.g, this.path := g, path;
    }

    /** The pruning loop of `_run_batch` over `[from, until)`, which is the tail of the
        path: it terminates, leaves the executed prefix alone and prunes the rest. */
    method RunBatch(from: nat, until: nat) returns (invoked: seq<Id>)
      requires from <= until == |path| && Known(g, path[from..])
      modifies this`path
      ensures path == old(path)[..from] + Pruned(g, old(path)[..from], old(path)[from..])
      ensures invoked == path[from..]
    {
      invoked := [];
      var i, t := from, until;
      while i < t
        invariant from <= i <= t == |path|
        invariant path[..i] == old(path)[..from] + invoked && Known(g, path[i..])
        invariant old(path)[..from] + Pruned(g, old(path)[..from], old(path)[from..])
                  == path[..i] + Pruned(g, path[..i], path[i..])
        decreases t - i
      {
        var c := path[i];
        assert c in path[i..] && path[i..][0] == c && path[i..][1..] == path[i + 1..];
        assert (path[..i] + [c])[0] == path[0];
        if Exempt(g, c) || InputsReady(g, path[..i], c) || MarkedFillUp(path[0]) {
          assert path[..i + 1] == path[..i] + [c];
          invoked := invoked + [c];
          i := i + 1;
        } else {
          var popped := path[..i] + path[i + 1..];
          assert popped[..i] == path[..i] && popped[i..] == path[i + 1..];
          path := popped;
          t := t - 1;
        }
      }
      assert path[i..] == [] && path[..i] == path;
    }

    /** `_append_path` and `_extend_path`. */
    method ExtendPath(ids: seq<Id>)
      requires path != []
      modifies this`path
      ensures path == Extended(old(path), ids)
    {
      var k := 0;
      while k < |ids|
        invariant 0 <= k <= |ids| && path != []
        invariant Extended(path, ids[k..]) == Extended(old(path), ids)
      {
        assert ids[k..][1..] == ids[k + 1..];
        if path[|path| - 1] != ids[k] {
          path := path + [ids[k]];
        }
        k := k + 1;
      }
    }

    /** The post-processing loop behind a batch. */
    method PostProcess(from: nat, until: nat, outcome: nat -> Outcome) returns (failed: bool)
      requires from <= until == |path|
      modifies this`path
      ensures path == Processed(old(path), outcome, from, until)
      ensures failed <==> exists i | from <= i < until :: outcome(i).Fatal?
    {
      failed := false;
      var i := from;
      while i < until
        invariant from <= i <= until <= |path|
        invariant Processed(path, outcome, i, until) == Processed(old(path), outcome, from, until)
        invariant failed <==> exists j | from <= j < i :: outcome(j).Fatal?
      {
        ExtendedGrows(path, outcome(i));
        match outcome(i) {
          case Continue(next) => ExtendPath(next);
          case Goto(ids) => path := path + ids;
          case Fatal(next) => ExtendPath(next); failed := true;
        }
        i := i + 1;
      }
    }

    /** One turn of the main loop of `_run_impl`. */
    method MainLoopTurn(idx: nat, w: World, ghost done: seq<seq<Id>>) returns (idx': nat, status: Status)
      requires idx < |path| && Known(g, path[idx..])
      modifies this`path
      ensures var r := Turn(g, Run(old(path), idx, Running, done), w);
              path == r.path && status == r.status && (!status.Failed? ==> idx' == r.idx)
    {
      var invoked := RunBatch(idx, |path|);
      idx' := |path|;
      assert old(path)[..idx] == path[..idx];
      var failed := PostProcess(idx, idx', w.outcome);
      if failed {
        path := path[..idx];
        return idx, Failed;
      }
      if (exists c | c in path[idx'..] :: IsFillUp(g, c)) && w.inputsMissing {
        path := Frontier(g, path[idx'..]);
        return idx', Suspended;
      }
      status := if idx' < |path| then Running else Finished;
    }
  }
}
