/** The routing of a metadata filter request (common/metadata_utils.py and the Elasticsearch
    path of api/db/services/doc_metadata_service.py): when it is pushed down, what becomes of
    the engine's answer and its size limit, and when memory takes over. */
module MetadataRouting {
  import opened Basics
  import opened MetadataMemory
  import opened MetadataEs
  import opened MetadataPushdown

  /** The documents a query hits, by id. */
  function Hits(py: Env, es: Engine, docs: set<Doc>, q: Query): set<DocId> {
    set d | d in docs && Hit(py, es, d, q) :: d.id
  }

  /** A search that failed, or its ids and, if the response tells it, the number of hits. */
  datatype Response = Failed | Answer(ids: seq<DocId>, total: Option<nat>)

  function IdSet(ids: seq<DocId>): set<DocId> { set id | id in ids }

  /** An engine asked for at most `limit` hits returns that many of them, or all. */
  ghost predicate Answers(r: Response, hits: set<DocId>, limit: nat) {
    r.Answer? ==>
      && IdSet(r.ids) <= hits
      && |IdSet(r.ids)| == (if |hits| <= limit then |hits| else limit)
      && (r.total.Some? ==> r.total.value == |hits|)
  }

  /** The answer is taken: the search succeeded and is not known to exceed the limit. */
  predicate Taken(r: Response, limit: nat) { r.Answer? && !(r.total.Some? && r.total.value > limit) }

  /** The position at which an id occurs first. */
  function FirstAt(ids: seq<DocId>, id: DocId): (i: nat)
    requires id in ids
    ensures i < |ids| && ids[i] == id && id !in ids[..i]
  {
    if ids[0] == id then 0
    else
      assert ids == [ids[0]] + ids[1..];
      var i := FirstAt(ids[1..], id);
      assert ids[..i + 1] == [ids[0]] + ids[1..][..i];
      i + 1
  }

  /** The loop that keeps the first occurrence of every id, in order. */
  method Unique(ids: seq<DocId>) returns (unique: seq<DocId>)
    ensures forall id :: id in unique <==> id in ids
    ensures forall i, j | 0 <= i < j < |unique| :: FirstAt(ids, unique[i]) < FirstAt(ids, unique[j])
    ensures IdSet(unique) == IdSet(ids)
    ensures forall i, j | 0 <= i < j < |unique| :: unique[i] != unique[j]
  {
    unique := [];
    var seen: set<DocId> := {};
    for n := 0 to |ids|
      invariant forall id :: id in seen <==> id in ids[..n]
      invariant forall id :: id in unique <==> id in ids[..n]
      invariant forall i | 0 <= i < |unique| :: unique[i] in ids && FirstAt(ids, unique[i]) < n
      invariant forall i, j | 0 <= i < j < |unique| :: FirstAt(ids, unique[i]) < FirstAt(ids, unique[j])
    {
      assert ids[..n + 1] == ids[..n] + [ids[n]];
      if ids[n] !in seen {
        FirstHere(ids, n);
        seen := seen + {ids[n]};
        unique := unique + [ids[n]];
      }
    }
    assert ids[..|ids|] == ids;
  }

  lemma FirstHere(ids: seq<DocId>, n: nat)
    requires n < |ids| && ids[n] !in ids[..n]
    ensures FirstAt(ids, ids[n]) == n
  {
    var i := FirstAt(ids, ids[n]);
    assert forall j | 0 <= j < n :: ids[..n][j] == ids[j] && ids[j] in ids[..n];
    assert forall j | 0 <= j < i :: ids[..i][j] == ids[j] && ids[j] in ids[..i];
  }

  lemma AllWhenAsMany(some: set<DocId>, all: set<DocId>)
    requires some <= all && |some| == |all|
    ensures some == all
  {
    assert |all - some| == |all| - |some|;
  }

  /** The limit never cuts an answer short unnoticed, provided the response tells the number
      of hits: an answer that is taken holds all hits exactly when it does or there are no
      more hits than the limit. */
  lemma TakenIsCompleteIff(r: Response, hits: set<DocId>, limit: nat)
    requires Answers(r, hits, limit) && Taken(r, limit)
    ensures IdSet(r.ids) == hits <==> r.total.Some? || |hits| <= limit
  {
    if r.total.Some? || |hits| <= limit { AllWhenAsMany(IdSet(r.ids), hits); }
  }

  /** An answer that tells the number of hits is taken exactly when the limit leaves room for
      all of them. */
  lemma TakenIff(r: Response, hits: set<DocId>, limit: nat)
    requires Answers(r, hits, limit) && r.Answer? && r.total.Some?
    ensures Taken(r, limit) <==> |hits| <= limit
  {
  }

  /** The Elasticsearch push-down path: `None` sends the request back to memory. */
  method EsPushdown(py: Env, filters: seq<Filter>, logic: string, kbs: seq<string>,
                    search: Query -> Response, limit: nat) returns (answer: Option<seq<DocId>>)
    ensures answer.Some? ==>
              && Planned(py, filters, logic)
              && Taken(search(PlanQuery(py, filters, logic, kbs)), limit)
              && IdSet(answer.value) == IdSet(search(PlanQuery(py, filters, logic, kbs)).ids)
              && (forall i, j | 0 <= i < j < |answer.value| :: answer.value[i] != answer.value[j])
    ensures answer.None? ==> !Planned(py, filters, logic) || !Taken(search(PlanQuery(py, filters, logic, kbs)), limit)
  {
    hide Translate, ToQuery, IdSet;
    if !PushdownSupported(filters) { return None; }
    var plan := PlanPushdown(py, filters, logic);
    if plan.Unsupported? { return None; }
    assert plan.value == Plan(py, filters) by { PlanIs(py, filters, plan.value); }
    var response := search(ToQuery(plan.value, logic != "or", kbs));
    if response.Failed? { return None; }
    var unique := Unique(response.ids);
    if response.total.Some? && response.total.value > limit { return None; }
    answer := Some(unique);
  }

  /** Every filter is accepted and translates, and the logic word is known. */
  predicate Planned(py: Env, filters: seq<Filter>, logic: string) {
    PushdownSupported(filters) && logic in {"and", "or"} && forall f | f in filters :: Translate(py, f).Ok?
  }

  /** A value the engine's clause for an operator can be built from. */
  predicate Expressible(py: Env, f: Filter) {
    f.key != "" &&
    match f.op
    case Empty | NotEmpty => true
    case Eq | Ne | Contain | NotContain | StartWith | EndWith =>
      f.value.Text? && (f.op.Eq? || f.op.Ne? || f.value.text != "")
    case In | NotIn => Members(py, f.value) != []
    case Range(_) => !f.value.Missing?
  }

  /** Which filters translate. */
  lemma TranslatesIffExpressible(py: Env, f: Filter)
    ensures Translate(py, f).Ok? <==> Expressible(py, f)
  {
  }

  /** Which requests are planned: those without `≠` and `not in`, whose other filters can
      all be expressed, under a known logic word. */
  lemma PlannedIff(py: Env, filters: seq<Filter>, logic: string)
    ensures Planned(py, filters, logic) <==>
              && logic in {"and", "or"}
              && forall f | f in filters :: !f.op.Ne? && !f.op.NotIn? && Expressible(py, f)
  {
    hide Translate, Expressible;
    forall f ensures (Translate(py, f).Ok? <==> Expressible(py, f)) && (Expressible(py, f) ==> f.key != "") {
      TranslatesIffExpressible(py, f);
      KeyNeeded(py, f);
    }
  }

  lemma KeyNeeded(py: Env, f: Filter)
    ensures Expressible(py, f) ==> f.key != ""
  {
  }

  function Plan(py: Env, filters: seq<Filter>): seq<Translated>
    requires forall f | f in filters :: Translate(py, f).Ok?
  {
    seq(|filters|, i requires 0 <= i < |filters| => Translate(py, filters[i]).value)
  }

  lemma PlanIs(py: Env, filters: seq<Filter>, ts: seq<Translated>)
    requires Translates(py, filters, ts)
    ensures (forall f | f in filters :: Translate(py, f).Ok?) && ts == Plan(py, filters)
  {
    hide Translate;
    forall f | f in filters ensures Translate(py, f).Ok? {
      var i :| 0 <= i < |filters| && filters[i] == f;
    }
  }

  /** The query of a request; without a plan there is none to speak of. */
  function PlanQuery(py: Env, filters: seq<Filter>, logic: string, kbs: seq<string>): Query {
    if Planned(py, filters, logic) then ToQuery(Plan(py, filters), logic != "or", kbs) else Query([], None)
  }

  // ------------------------------------------------------------------ the result

  lemma HitsAre(py: Env, es: Engine, docs: set<Doc>, q: Query, d: Doc)
    requires UniqueIds(docs) && d in docs
    ensures d.id in Hits(py, es, docs, q) <==> Hit(py, es, d, q)
  {
  }

  ghost predicate AllAlike(py: Env, es: Engine, filters: seq<Filter>, d: Doc) {
    forall f | f in filters :: Covered(py, f) && Alike(py, es, d, f)
  }

  ghost predicate AllNarrow(py: Env, es: Engine, filters: seq<Filter>, d: Doc) {
    forall f | f in filters :: Covered(py, f) && Narrow(py, es, d, f)
  }

  /** What the query of a plan hits, for a document in scope or not. */
  lemma RouteIsRight(py: Env, es: Engine, metas: Metas, docs: set<Doc>, kbs: seq<string>,
                     filters: seq<Filter>, ts: seq<Translated>, conj: bool, d: Doc)
    requires Setting(py, metas, docs, kbs) && d in docs && filters != [] && Translates(py, filters, ts)
    ensures var hit := d.id in Hits(py, es, docs, ToQuery(ts, conj, kbs));
            && (AllAlike(py, es, filters, d) ==> (hit <==> SelectedAll(py, metas, filters, conj, d.id)))
            && (AllNarrow(py, es, filters, d) ==> (hit ==> SelectedAll(py, metas, filters, conj, d.id)))
  {
    hide Hit, ToQuery, SelectedAll, Inverts, Covered, Alike, Narrow, Hits;
    HitsAre(py, es, docs, ToQuery(ts, conj, kbs), d);
    if d.kb in kbs {
      if AllAlike(py, es, filters, d) { ListIsExact(py, es, metas, docs, kbs, filters, ts, conj, d); }
      if AllNarrow(py, es, filters, d) { ListIsIncluded(py, es, metas, docs, kbs, filters, ts, conj, d); }
    } else {
      OutOfScope(py, es, metas, docs, kbs, filters, ts, conj, d);
    }
  }

  /** `filter_doc_ids_by_metadata`: push down when there are filters and knowledge bases,
      and filter in memory when the push-down gives no answer.  Filtering in memory is exact
      for all filters, and a request with `≠` or `not in` is filtered there, whatever values
      the documents hold.  After a push-down no result is wrong for a document on which the
      filters are narrow, and the result is right for every document on which they are alike
      if the answer is complete, as it is whenever the response tells the number of hits. */
  method FilterDocIds(py: Env, es: Engine, metas: Metas, docs: set<Doc>, kbs: seq<string>, filters: seq<Filter>,
                      logic: string, search: Query -> Response, limit: nat) returns (ids: set<DocId>, pushed: bool)
    requires Setting(py, metas, docs, kbs)
    requires Answers(search(PlanQuery(py, filters, logic, kbs)),
                     Hits(py, es, docs, PlanQuery(py, filters, logic, kbs)), limit)
    ensures pushed <==>
              && filters != [] && kbs != [] && logic in {"and", "or"}
              && (forall f | f in filters :: !f.op.Ne? && !f.op.NotIn? && Expressible(py, f))
              && Taken(search(PlanQuery(py, filters, logic, kbs)), limit)
    ensures (exists f | f in filters :: f.op.Ne? || f.op.NotIn?) ==>
              forall id :: id in ids <==> SelectedAll(py, metas, filters, logic == "and", id)
    ensures !pushed ==> forall id :: id in ids <==> SelectedAll(py, metas, filters, logic == "and", id)
    ensures pushed ==> forall d | d in docs && AllNarrow(py, es, filters, d) ::
              d.id in ids ==> SelectedAll(py, metas, filters, logic == "and", d.id)
    ensures pushed && (search(PlanQuery(py, filters, logic, kbs)).total.Some?
                       || |Hits(py, es, docs, PlanQuery(py, filters, logic, kbs))| <= limit) ==>
              forall d | d in docs && AllAlike(py, es, filters, d) ::
                d.id in ids <==> SelectedAll(py, metas, filters, logic == "and", d.id)
  {
    hide Hit, Hits, ToQuery, SelectedAll, Setting, AllAlike, AllNarrow, PlanQuery, Planned, Expressible;
    pushed := false;
    PlannedIff(py, filters, logic);
    if filters != [] && kbs != [] {
      var answer := EsPushdown(py, filters, logic, kbs, search, limit);
      if answer.Some? {
        ids := IdSet(answer.value);
        TakenIsCompleteIff(search(PlanQuery(py, filters, logic, kbs)),
                           Hits(py, es, docs, PlanQuery(py, filters, logic, kbs)), limit);
        forall d | d in docs
          ensures var hit := d.id in Hits(py, es, docs, PlanQuery(py, filters, logic, kbs));
                  && (AllAlike(py, es, filters, d) ==>
                        (hit <==> SelectedAll(py, metas, filters, logic == "and", d.id)))
                  && (AllNarrow(py, es, filters, d) ==>
                        (hit ==> SelectedAll(py, metas, filters, logic == "and", d.id)))
        {
          PlanIsRight(py, es, metas, docs, kbs, filters, logic, d);
        }
        return ids, true;
      }
    }
    ids := MetaFilter(py, metas, filters, logic == "and");
  }

  lemma PlanIsRight(py: Env, es: Engine, metas: Metas, docs: set<Doc>, kbs: seq<string>, filters: seq<Filter>,
                    logic: string, d: Doc)
    requires Setting(py, metas, docs, kbs) && d in docs && filters != [] && Planned(py, filters, logic)
    ensures var hit := d.id in Hits(py, es, docs, PlanQuery(py, filters, logic, kbs));
            && (AllAlike(py, es, filters, d) ==> (hit <==> SelectedAll(py, metas, filters, logic == "and", d.id)))
            && (AllNarrow(py, es, filters, d) ==> (hit ==> SelectedAll(py, metas, filters, logic == "and", d.id)))
  {
    hide Hits, ToQuery, SelectedAll, Setting, AllAlike, AllNarrow, Translate;
    assert forall i | 0 <= i < |filters| :: filters[i] in filters;
    assert Translates(py, filters, Plan(py, filters));
    RouteIsRight(py, es, metas, docs, kbs, filters, Plan(py, filters), logic == "and", d);
  }
}
