/** The Elasticsearch translation of metadata filters (common/metadata_es_filter.py), an
    evaluator for the clauses it emits, and its relation to the in-memory filter. */
module MetadataEs {
  import opened Basics
  import opened Patterns
  import opened MetadataMemory

  /** The query clauses in use.  String clauses target the `.keyword` sub-field and
      compare without regard to case; `ExactTerm` is the plain `term`; a non-string term
      targets the parent field. */
  datatype Clause =
    | Term(key: string, value: string)
    | ExactTerm(key: string, value: string)
    | OtherTerm(key: string, id: int)
    | Prefix(key: string, value: string)
    | Wildcard(key: string, pattern: string)
    | Within(key: string, cmp: Comparison, bound: Python)
    | Exists(key: string)
    | Bool(must: seq<Clause>, should: seq<Clause>, mustNot: seq<Clause>)

  /** A `should` list always comes with `minimum_should_match: 1`. */
  datatype Translated = Translated(must: seq<Clause>, mustNot: seq<Clause>)

  /** The query body: the knowledge-base filter and, unless the plan is empty, the rest. */
  datatype Query = Query(kbs: seq<string>, inner: Option<Clause>)

  // ------------------------------------------------------------------ documents

  /** A document of the metadata index: each key holds any number of string values. */
  datatype Doc = Doc(id: DocId, kb: string, fields: map<string, seq<string>>)

  function Values(d: Doc, key: string): seq<string> { if key in d.fields then d.fields[key] else [] }

  function FoldTokens(py: Env, ts: seq<Token>): seq<Token> {
    seq(|ts|, i requires 0 <= i < |ts| => if ts[i].Lit? then Lit(py.lower(ts[i].c)) else ts[i])
  }

  /** How the engine compares an indexed value with a non-string term, and with the bound
      of a range. */
  datatype Engine = Engine(
    number: (string, int) -> bool,
    range: (string, Comparison, Python) -> bool)

  predicate Holds(py: Env, es: Engine, d: Doc, c: Clause) {
    match c
    case Term(k, v) => exists x | x in Values(d, k) :: Lower(py, x) == Lower(py, v)
    case ExactTerm(k, v) => v in Values(d, k)
    case OtherTerm(k, n) => exists x | x in Values(d, k) :: es.number(x, n)
    case Prefix(k, v) => exists x | x in Values(d, k) :: StartsWith(Lower(py, x), Lower(py, v))
    case Wildcard(k, p) => exists x | x in Values(d, k) :: Match(FoldTokens(py, Parse(p, '*', '?')), Lower(py, x))
    case Within(k, cmp, b) => exists x | x in Values(d, k) :: es.range(x, cmp, b)
    case Exists(k) => Values(d, k) != []
    case Bool(must, should, mustNot) =>
      && (forall m | m in must :: Holds(py, es, d, m))
      && (should == [] || exists s | s in should :: Holds(py, es, d, s))
      && (forall n | n in mustNot :: !Holds(py, es, d, n))
  }

  predicate Hit(py: Env, es: Engine, d: Doc, q: Query) {
    d.kb in q.kbs && (q.inner.Some? ==> Holds(py, es, d, q.inner.value))
  }

  // ------------------------------------------------------------------ translation

  /** `_coerce_scalar` and `_term_or_match` */
  function ScalarTerm(py: Env, key: string, v: Operand): Result<Clause> {
    if !v.Text? then Unsupported
    else
      var s := py.strip(v.text);
      if IsDate(s) then Ok(Term(key, s))
      else match py.literal(s)
        case None => Ok(Term(key, Lower(py, s)))
        case Some(PyText(t)) => Ok(Term(key, Lower(py, t)))
        case Some(PyTexts(_)) => Ok(Term(key, Lower(py, s)))
        case Some(PyOther(n)) => Ok(OtherTerm(key, n))
  }

  function Split(s: string, c: char): (parts: seq<string>)
    ensures parts != []
  {
    if s == "" then [""]
    else
      var rest := Split(s[1..], c);
      if s[0] == c then [""] + rest else [[s[0]] + rest[0]] + rest[1..]
  }

  function StripAll(py: Env, parts: seq<string>): seq<string> {
    if parts == [] then []
    else (if py.strip(parts[0]) != "" then [py.strip(parts[0])] else []) + StripAll(py, parts[1..])
  }

  /** `_csv_or_list`: a list, a literal list, or a comma-separated string. */
  function Members(py: Env, v: Operand): seq<string> {
    match v
    case Texts(items) => items
    case Text(t) =>
      if py.literal(t).Some? && py.literal(t).value.PyTexts? then py.literal(t).value.items
      else StripAll(py, Split(t, ','))
    case Missing => []
  }

  /** `_terms_string_or_numeric` on strings. */
  function MemberTerms(py: Env, key: string, items: seq<string>): seq<Clause> {
    seq(|items|, i requires 0 <= i < |items| => Term(key, py.strip(Lower(py, items[i]))))
  }

  function Membership(py: Env, key: string, v: Operand): Result<Clause> {
    var members := Members(py, v);
    if members == [] then Unsupported else Ok(Bool([], MemberTerms(py, key, members), []))
  }

  /** `_coerce_range_value` */
  function RangeBound(py: Env, v: Operand): Result<Python> {
    if v.Missing? then Unsupported
    else
      var s := py.strip(TextOf(py, v));
      if !IsDate(s) && py.literal(s).Some? && py.literal(s).value.PyOther? then Ok(py.literal(s).value) else Ok(PyText(s))
  }

  /** `_coerce_string` */
  function PatternText(v: Operand): Result<string> {
    if v.Text? && v.text != "" then Ok(v.text) else Unsupported
  }

  function EscapeWildcard(t: string): string { Escape(t, '*', '?') }

  function Positive(c: Clause): Translated { Translated([c], []) }

  function Negative(key: string, c: Clause): Translated { Translated([Exists(key)], [c]) }

  function Mapped(r: Result<Clause>, f: Clause -> Translated): Result<Translated> {
    if r.Ok? then Ok(f(r.value)) else Unsupported
  }

  /** `MetaFilterTranslator.translate` */
  function Translate(py: Env, f: Filter): Result<Translated> {
    var k := f.key;
    if k == "" then Unsupported
    else match f.op
      case Empty => Ok(Positive(Bool([], [Bool([], [], [Exists(k)]), ExactTerm(k, "")], [])))
      case NotEmpty => Ok(Negative(k, ExactTerm(k, "")))
      case Eq => Mapped(ScalarTerm(py, k, f.value), c => Positive(c))
      case Ne => Mapped(ScalarTerm(py, k, f.value), c => Negative(k, c))
      case In => Mapped(Membership(py, k, f.value), c => Positive(c))
      case NotIn => Mapped(Membership(py, k, f.value), c => Negative(k, c))
      case Contain => Mapped(Around(k, f.value, "*", "*"), c => Positive(c))
      case NotContain => Mapped(Around(k, f.value, "*", "*"), c => Negative(k, c))
      case StartWith =>
        (match PatternText(f.value) case Ok(t) => Ok(Positive(Prefix(k, t))) case Unsupported => Unsupported)
      case EndWith => Mapped(Around(k, f.value, "*", ""), c => Positive(c))
      case Range(cmp) => Mapped(Bounded(py, k, cmp, f.value), c => Translated([Exists(k), c], []))
  }

  function Bounded(py: Env, key: string, cmp: Comparison, v: Operand): Result<Clause> {
    match RangeBound(py, v)
    case Ok(b) => Ok(Within(key, cmp, b))
    case Unsupported => Unsupported
  }

  function Around(key: string, v: Operand, before: string, after: string): Result<Clause> {
    match PatternText(v)
    case Ok(t) => Ok(Wildcard(key, before + EscapeWildcard(t) + after))
    case Unsupported => Unsupported
  }

  /** `TranslatedFilter.to_clauses` */
  function ToClauses(t: Translated): seq<Clause> {
    if t.must == [] && t.mustNot == [] then []
    else if t.mustNot == [] then (if |t.must| == 1 then t.must else [Bool(t.must, [], [])])
    else [Bool(t.must, [], t.mustNot)]
  }

  function Flat(ts: seq<Translated>): seq<Clause> {
    if ts == [] then [] else ToClauses(ts[0]) + Flat(ts[1..])
  }

  /** `MetaFilterPushdownPlan.to_query` */
  function ToQuery(ts: seq<Translated>, conj: bool, kbs: seq<string>): Query {
    if ts == [] then Query(kbs, None)
    else if conj then Query(kbs, Some(Bool(Flat(ts), [], [])))
    else Query(kbs, Some(Bool([], Flat(ts), [])))
  }

  /** `plan_pushdown`: refuse an unknown logic word, translate in turn, give up on the
      first unsupported filter. */
  method PlanPushdown(py: Env, filters: seq<Filter>, logic: string) returns (plan: Result<seq<Translated>>)
    ensures plan.Ok? <==> logic in {"and", "or"} && forall f | f in filters :: Translate(py, f).Ok?
    ensures plan.Ok? ==> Translates(py, filters, plan.value)
  {
    if logic !in {"and", "or"} { return Unsupported; }
    var ts: seq<Translated> := [];
    for n := 0 to |filters|
      invariant Translates(py, filters[..n], ts)
    {
      var t := Translate(py, filters[n]);
      if t.Unsupported? {
        assert filters[n] in filters;
        return Unsupported;
      }
      ts := ts + [t.value];
    }
    assert filters[..|filters|] == filters;
    plan := Ok(ts);
  }

  ghost predicate Translates(py: Env, filters: seq<Filter>, ts: seq<Translated>) {
    |ts| == |filters| && forall i | 0 <= i < |ts| :: Translate(py, filters[i]) == Ok(ts[i])
  }

  // ------------------------------------------------------------------ atomicity

  /** What one filter asks for. */
  ghost predicate Satisfied(py: Env, es: Engine, d: Doc, t: Translated) {
    && (forall c | c in t.must :: Holds(py, es, d, c))
    && (forall c | c in t.mustNot :: !Holds(py, es, d, c))
  }

  /** A filter contributes one clause, and that clause is the whole filter: under an OR
      parent no half of it can match alone. */
  lemma ClausesAreAtomic(py: Env, es: Engine, d: Doc, t: Translated)
    requires t.must != []
    ensures |ToClauses(t)| == 1 && (Holds(py, es, d, ToClauses(t)[0]) <==> Satisfied(py, es, d, t))
  {
    if t.mustNot == [] && |t.must| == 1 {
      assert t.must == [t.must[0]];
    }
  }

  lemma {:induction false} FlatMembers(py: Env, es: Engine, d: Doc, ts: seq<Translated>)
    requires forall t | t in ts :: t.must != []
    ensures |Flat(ts)| == |ts|
    ensures forall i | 0 <= i < |ts| :: Holds(py, es, d, Flat(ts)[i]) <==> Satisfied(py, es, d, ts[i])
  {
    if ts != [] {
      ClausesAreAtomic(py, es, d, ts[0]);
      FlatMembers(py, es, d, ts[1..]);
      forall i | 0 <= i < |ts|
        ensures Holds(py, es, d, Flat(ts)[i]) <==> Satisfied(py, es, d, ts[i])
      {
        if i > 0 { assert ts[i] == ts[1..][i - 1] && Flat(ts)[i] == Flat(ts[1..])[i - 1]; }
      }
    }
  }

  /** The rendered query asks for all filters, or for one of them, as a whole. */
  lemma QueryMeans(py: Env, es: Engine, d: Doc, ts: seq<Translated>, conj: bool, kbs: seq<string>)
    requires ts != [] && forall t | t in ts :: t.must != []
    ensures Hit(py, es, d, ToQuery(ts, conj, kbs)) <==>
              d.kb in kbs &&
              if conj then forall i | 0 <= i < |ts| :: Satisfied(py, es, d, ts[i])
              else exists i :: 0 <= i < |ts| && Satisfied(py, es, d, ts[i])
  {
    hide Satisfied, Flat;
    FlatMembers(py, es, d, ts);
    var cs := Flat(ts);
    if conj {
      assert (forall c | c in cs :: Holds(py, es, d, c)) <==>
             (forall i | 0 <= i < |ts| :: Satisfied(py, es, d, ts[i])) by {
        if forall c | c in cs :: Holds(py, es, d, c) {
          forall i | 0 <= i < |ts| ensures Satisfied(py, es, d, ts[i]) { assert cs[i] in cs; }
        }
      }
    } else {
      forall c | c in cs && Holds(py, es, d, c)
        ensures exists i :: 0 <= i < |ts| && Satisfied(py, es, d, ts[i])
      {
        var i :| 0 <= i < |cs| && cs[i] == c;
        assert Satisfied(py, es, d, ts[i]);
      }
      if exists i :: 0 <= i < |ts| && Satisfied(py, es, d, ts[i]) {
        var i :| 0 <= i < |ts| && Satisfied(py, es, d, ts[i]);
        assert cs[i] in cs;
      }
    }
  }

  // ------------------------------------------------------------------ members of a text

  /** A stretch between two commas, or between a comma and an end of the text. */
  ghost predicate IsStretch(s: string, c: char, i: int, j: int) {
    && 0 <= i <= j <= |s|
    && (forall k | i <= k < j :: s[k] != c)
    && (i == 0 || s[i - 1] == c) && (j == |s| || s[j] == c)
  }

  /** Splitting yields exactly the stretches. */
  lemma {:induction false} SplitIff(s: string, c: char, part: string)
    ensures part in Split(s, c) <==> exists i, j :: IsStretch(s, c, i, j) && part == s[i..j]
  {
    if part in Split(s, c) {
      var k :| 0 <= k < |Split(s, c)| && Split(s, c)[k] == part;
      var i, j := StretchOf(s, c, k);
      assert IsStretch(s, c, i, j) && part == s[i..j];
    }
    if i, j :| IsStretch(s, c, i, j) && part == s[i..j] { StretchIsPart(s, c, i, j); }
  }

  lemma {:induction false} StretchOf(s: string, c: char, k: nat) returns (i: int, j: int)
    requires k < |Split(s, c)|
    ensures IsStretch(s, c, i, j) && Split(s, c)[k] == s[i..j] && (k == 0 <==> i == 0)
  {
    if s == "" {
      i, j := 0, 0;
    } else {
      var rest := Split(s[1..], c);
      if s[0] == c && k == 0 {
        i, j := 0, 0;
      } else {
        var n := if s[0] == c then k - 1 else k;
        i, j := StretchOf(s[1..], c, n);
        if s[0] != c && k == 0 {
          j := j + 1;
          assert s[0..j] == [s[0]] + s[1..][..j - 1];
        } else {
          i, j := i + 1, j + 1;
          assert s[i..j] == s[1..][i - 1..j - 1];
        }
        Stretched(s, c, i, j);
      }
    }
  }

  /** A stretch of the text without its first character is one of the text. */
  lemma Stretched(s: string, c: char, i: int, j: int)
    requires s != "" && 0 <= i <= j <= |s| && j > 0
    requires if i == 0 then s[0] != c && IsStretch(s[1..], c, 0, j - 1) else IsStretch(s[1..], c, i - 1, j - 1)
    requires i == 1 ==> s[0] == c
    ensures IsStretch(s, c, i, j)
  {
    assert forall x | 1 <= x < |s| :: s[x] == s[1..][x - 1];
  }

  lemma {:induction false} StretchIsPart(s: string, c: char, i: int, j: int)
    requires IsStretch(s, c, i, j)
    ensures s[i..j] in Split(s, c)
    ensures i == 0 ==> s[i..j] == Split(s, c)[0]
    decreases |s|, 1
  {
    if s != "" {
      var rest := Split(s[1..], c);
      assert forall x | 1 <= x < |s| :: s[x] == s[1..][x - 1];
      if i == 0 && s[0] == c {
        assert s[0..j] == "";
      } else if i == 0 {
        assert IsStretch(s[1..], c, 0, j - 1);
        StretchIsPart(s[1..], c, 0, j - 1);
        assert s[0..j] == [s[0]] + s[1..][..j - 1];
      } else {
        assert IsStretch(s[1..], c, i - 1, j - 1);
        StretchIsPart(s[1..], c, i - 1, j - 1);
        assert s[i..j] == s[1..][i - 1..j - 1];
        if s[0] != c { LaterPart(s, c, i, j); }
      }
    }
  }

  lemma {:induction false} LaterPart(s: string, c: char, i: int, j: int)
    requires IsStretch(s, c, i, j) && i > 0 && s[0] != c
    ensures s[i..j] in Split(s[1..], c)[1..]
    decreases |s|, 0
  {
    assert forall x | 1 <= x < |s| :: s[x] == s[1..][x - 1];
    assert i > 1;
    var t := s[1..];
    assert s[i..j] == t[i - 1..j - 1] && IsStretch(t, c, i - 1, j - 1);
    if t[0] == c {
      assert forall x | 1 <= x < |t| :: t[x] == t[1..][x - 1];
      assert IsStretch(t[1..], c, i - 2, j - 2);
      StretchIsPart(t[1..], c, i - 2, j - 2);
      assert t[i - 1..j - 1] == t[1..][i - 2..j - 2];
      assert Split(t, c)[1..] == Split(t[1..], c);
    } else {
      LaterPart(t, c, i - 1, j - 1);
      assert Split(t, c)[1..] == Split(t[1..], c)[1..];
    }
  }

  lemma {:induction false} StripAllIff(py: Env, parts: seq<string>, m: string)
    ensures m in StripAll(py, parts) <==> m != "" && exists i :: 0 <= i < |parts| && m == py.strip(parts[i])
  {
    if parts != [] {
      StripAllIff(py, parts[1..], m);
      if i :| 0 <= i < |parts| && m == py.strip(parts[i]) {
        assert i > 0 ==> parts[1..][i - 1] == parts[i];
      }
      if i :| 0 <= i < |parts[1..]| && m == py.strip(parts[1..][i]) {
        assert parts[i + 1] == parts[1..][i];
      }
    }
  }

  /** The members of a text that is no literal of a list are the stretches between its
      commas, stripped, without the empty ones. */
  lemma MembersIff(py: Env, t: string, m: string)
    requires !(py.literal(t).Some? && py.literal(t).value.PyTexts?)
    ensures m in Members(py, Text(t)) <==> m != "" && exists i, j :: IsStretch(t, ',', i, j) && m == py.strip(t[i..j])
  {
    hide StripAll, Split;
    var parts := Split(t, ',');
    StripAllIff(py, parts, m);
    if k :| 0 <= k < |parts| && m == py.strip(parts[k]) {
      SplitIff(t, ',', parts[k]);
    }
    if i, j :| IsStretch(t, ',', i, j) && m == py.strip(t[i..j]) {
      SplitIff(t, ',', t[i..j]);
      var k :| 0 <= k < |parts| && parts[k] == t[i..j];
    }
  }

  /** What an equality clause means for every text operand: a date as written, a number by
      the engine's own comparison, and any other text without regard to case. */
  lemma EqualInEngine(py: Env, es: Engine, d: Doc, key: string, t: string)
    requires Sane(py) && key != ""
    ensures var f := Filter(Eq, key, Text(t));
            Translate(py, f).Ok? &&
            (Satisfied(py, es, d, Translate(py, f).value) <==>
               exists x | x in Values(d, key) ::
                 if !IsDate(py.strip(t)) && py.literal(py.strip(t)).Some? && py.literal(py.strip(t)).value.PyOther?
                 then es.number(x, py.literal(py.strip(t)).value.id)
                 else if !IsDate(py.strip(t)) && py.literal(py.strip(t)).Some? && py.literal(py.strip(t)).value.PyText?
                 then Lower(py, x) == Lower(py, py.literal(py.strip(t)).value.text)
                 else Lower(py, x) == Lower(py, py.strip(t)))
  {
    hide Satisfied;
    var s := py.strip(t);
    LowerTwice(py, s);
    if py.literal(s).Some? && py.literal(s).value.PyText? { LowerTwice(py, py.literal(s).value.text); }
    SatisfiedOne(py, es, d, key, ScalarTerm(py, key, Text(t)).value);
  }

  // ------------------------------------------------------------------ one filter

  /** The text fragment: trimmed strings that are neither dates nor Python literals,
      non-empty lists of trimmed strings, non-empty patterns. */
  predicate InFragment(py: Env, f: Filter) {
    && f.key != ""
    && match f.op
       case Eq | Ne =>
         f.value.Text? && py.strip(f.value.text) == f.value.text && !IsDate(f.value.text) && py.literal(f.value.text).None?
       case In | NotIn =>
         f.value.Texts? && f.value.items != []
         && forall m | m in f.value.items :: py.strip(Lower(py, m)) == Lower(py, m)
       case Contain | NotContain | StartWith | EndWith => f.value.Text? && f.value.text != ""
       case Empty | NotEmpty => true
       case Range(_) => false
  }

  predicate IsPositive(op: Op) { op.Eq? || op.In? || op.Contain? || op.StartWith? || op.EndWith? }

  predicate IsNegative(op: Op) { op.Ne? || op.NotIn? || op.NotContain? || op.NotEmpty? }

  /** The clause a filter is built around holds when some value of the document matches
      the positive operator. */
  function Positively(op: Op): Op {
    match op
    case Ne => Eq
    case NotIn => In
    case NotContain => Contain
    case NotEmpty => Empty
    case _ => op
  }

  ghost predicate SomeValue(py: Env, d: Doc, f: Filter) {
    exists x | x in Values(d, f.key) :: Bucket(py, f.op, x, f.value)
  }

  ghost predicate EveryValue(py: Env, d: Doc, f: Filter) {
    Values(d, f.key) != [] && forall x | x in Values(d, f.key) :: Bucket(py, f.op, x, f.value)
  }

  lemma FoldInfix(py: Env, t: string)
    ensures FoldTokens(py, Parse("*" + EscapeWildcard(t) + "*", '*', '?')) == [Many] + (Lits(Lower(py, t)) + [Many])
  {
    InfixTokens(t, '*', '?');
    assert "*" == ['*'];
  }

  lemma FoldSuffix(py: Env, t: string)
    ensures FoldTokens(py, Parse("*" + EscapeWildcard(t) + "", '*', '?')) == [Many] + Lits(Lower(py, t))
  {
    SuffixTokens(t, '*', '?');
    assert "*" == ['*'] && "*" + EscapeWildcard(t) + "" == "*" + EscapeWildcard(t);
  }

  lemma WildcardMeans(py: Env, es: Engine, d: Doc, k: string, t: string)
    ensures Holds(py, es, d, Wildcard(k, "*" + EscapeWildcard(t) + "*")) <==>
              exists x | x in Values(d, k) :: Contains(Lower(py, x), Lower(py, t))
    ensures Holds(py, es, d, Wildcard(k, "*" + EscapeWildcard(t) + "")) <==>
              exists x | x in Values(d, k) :: EndsWith(Lower(py, x), Lower(py, t))
  {
    FoldInfix(py, t);
    FoldSuffix(py, t);
    forall x | x in Values(d, k)
      ensures Match([Many] + (Lits(Lower(py, t)) + [Many]), Lower(py, x)) <==> Contains(Lower(py, x), Lower(py, t))
      ensures Match([Many] + Lits(Lower(py, t)), Lower(py, x)) <==> EndsWith(Lower(py, x), Lower(py, t))
    {
      MatchInfix(Lower(py, t), Lower(py, x));
      MatchSuffix(Lower(py, t), Lower(py, x));
    }
  }

  lemma MemberMeans(py: Env, es: Engine, d: Doc, k: string, m: string)
    requires Sane(py) && py.strip(Lower(py, m)) == Lower(py, m)
    ensures Holds(py, es, d, Term(k, py.strip(Lower(py, m)))) <==>
              exists x | x in Values(d, k) :: Lower(py, m) == Lower(py, x)
  {
    LowerTwice(py, m);
  }

  lemma AnyOfHolds(py: Env, es: Engine, d: Doc, cs: seq<Clause>)
    requires cs != []
    ensures Holds(py, es, d, Bool([], cs, [])) <==> exists c | c in cs :: Holds(py, es, d, c)
  {
  }

  lemma MembershipMeans(py: Env, es: Engine, d: Doc, k: string, items: seq<string>)
    requires Sane(py) && items != []
    requires forall m | m in items :: py.strip(Lower(py, m)) == Lower(py, m)
    ensures Holds(py, es, d, Bool([], MemberTerms(py, k, items), [])) <==>
              exists x, m | x in Values(d, k) && m in items :: Lower(py, m) == Lower(py, x)
  {
    hide Holds, Lower, Values, Sane;
    var ts := MemberTerms(py, k, items);
    AnyOfHolds(py, es, d, ts);
    if exists c | c in ts :: Holds(py, es, d, c) {
      var c :| c in ts && Holds(py, es, d, c);
      var i :| 0 <= i < |ts| && ts[i] == c;
      MemberMeans(py, es, d, k, items[i]);
    }
    if exists x, m | x in Values(d, k) && m in items :: Lower(py, m) == Lower(py, x) {
      var x, m :| x in Values(d, k) && m in items && Lower(py, m) == Lower(py, x);
      MemberMeans(py, es, d, k, m);
      var i :| 0 <= i < |items| && items[i] == m;
      assert ts[i] in ts;
    }
  }

  lemma SatisfiedOne(py: Env, es: Engine, d: Doc, k: string, c: Clause)
    ensures Satisfied(py, es, d, Positive(c)) <==> Holds(py, es, d, c)
    ensures Satisfied(py, es, d, Negative(k, c)) <==> Values(d, k) != [] && !Holds(py, es, d, c)
  {
    assert c in [c] && Exists(k) in [Exists(k)];
  }

  /** The clause behind a filter of the fragment holds exactly when some value of the
      document matches the positive operator. */
  lemma ClauseMeans(py: Env, es: Engine, d: Doc, f: Filter)
    requires Sane(py) && InFragment(py, f) && !f.op.Empty?
    ensures Translate(py, f).Ok?
    ensures var t := Translate(py, f).value;
            var any := SomeValue(py, d, Filter(Positively(f.op), f.key, f.value));
            && t.must != []
            && (IsPositive(f.op) ==> (Satisfied(py, es, d, t) <==> any))
            && (IsNegative(f.op) ==> (Satisfied(py, es, d, t) <==> Values(d, f.key) != [] && !any))
  {
    hide Holds, Satisfied, Lower, Contains, Sane;
    match f.op
    case Eq =>
      ScalarMeans(py, es, d, f);
      SatisfiedOne(py, es, d, f.key, ScalarTerm(py, f.key, f.value).value);
    case Ne =>
      ScalarMeans(py, es, d, f);
      SatisfiedOne(py, es, d, f.key, ScalarTerm(py, f.key, f.value).value);
    case In =>
      ListMeans(py, es, d, f);
      SatisfiedOne(py, es, d, f.key, Bool([], MemberTerms(py, f.key, f.value.items), []));
    case NotIn =>
      ListMeans(py, es, d, f);
      SatisfiedOne(py, es, d, f.key, Bool([], MemberTerms(py, f.key, f.value.items), []));
    case Contain =>
      InfixMeans(py, es, d, f);
      SatisfiedOne(py, es, d, f.key, Wildcard(f.key, "*" + EscapeWildcard(f.value.text) + "*"));
    case NotContain =>
      InfixMeans(py, es, d, f);
      SatisfiedOne(py, es, d, f.key, Wildcard(f.key, "*" + EscapeWildcard(f.value.text) + "*"));
    case StartWith =>
      PrefixMeans(py, es, d, f);
      SatisfiedOne(py, es, d, f.key, Prefix(f.key, f.value.text));
    case EndWith =>
      SuffixMeans(py, es, d, f);
      SatisfiedOne(py, es, d, f.key, Wildcard(f.key, "*" + EscapeWildcard(f.value.text) + ""));
    case NotEmpty =>
      BlankMeans(py, es, d, f);
      SatisfiedOne(py, es, d, f.key, ExactTerm(f.key, ""));
  }

  lemma BlankMeans(py: Env, es: Engine, d: Doc, f: Filter)
    ensures Holds(py, es, d, ExactTerm(f.key, "")) <==> SomeValue(py, d, Filter(Empty, f.key, f.value))
  {
  }

  lemma InfixMeans(py: Env, es: Engine, d: Doc, f: Filter)
    requires f.value.Text?
    ensures Holds(py, es, d, Wildcard(f.key, "*" + EscapeWildcard(f.value.text) + "*"))
            <==> SomeValue(py, d, Filter(Contain, f.key, f.value))
  {
    hide Holds, Lower, Contains;
    WildcardMeans(py, es, d, f.key, f.value.text);
  }

  lemma ScalarMeans(py: Env, es: Engine, d: Doc, f: Filter)
    requires Sane(py) && InFragment(py, f) && (f.op.Eq? || f.op.Ne?)
    ensures ScalarTerm(py, f.key, f.value).Ok?
    ensures Holds(py, es, d, ScalarTerm(py, f.key, f.value).value) <==>
              SomeValue(py, d, Filter(Eq, f.key, f.value))
  {
    LowerTwice(py, f.value.text);
  }

  lemma ListMeans(py: Env, es: Engine, d: Doc, f: Filter)
    requires Sane(py) && InFragment(py, f) && (f.op.In? || f.op.NotIn?)
    ensures Holds(py, es, d, Bool([], MemberTerms(py, f.key, f.value.items), [])) <==>
              SomeValue(py, d, Filter(In, f.key, f.value))
  {
    MembershipMeans(py, es, d, f.key, f.value.items);
    forall x, m | x in Values(d, f.key) && m in f.value.items && Lower(py, m) == Lower(py, x)
      ensures SomeValue(py, d, Filter(In, f.key, f.value))
    {
      assert Bucket(py, In, x, f.value);
    }
  }

  lemma PrefixMeans(py: Env, es: Engine, d: Doc, f: Filter)
    requires Sane(py) && InFragment(py, f) && f.op.StartWith?
    ensures Holds(py, es, d, Prefix(f.key, f.value.text)) <==> SomeValue(py, d, f)
  {
    LowerTwice(py, f.value.text);
    forall x | x in Values(d, f.key) ensures Lower(py, Lower(py, x)) == Lower(py, x) { LowerTwice(py, x); }
  }

  lemma SuffixMeans(py: Env, es: Engine, d: Doc, f: Filter)
    requires Sane(py) && InFragment(py, f) && f.op.EndWith?
    ensures Holds(py, es, d, Wildcard(f.key, "*" + EscapeWildcard(f.value.text) + "")) <==> SomeValue(py, d, f)
  {
    WildcardMeans(py, es, d, f.key, f.value.text);
    LowerTwice(py, f.value.text);
    forall x | x in Values(d, f.key) ensures Lower(py, Lower(py, x)) == Lower(py, x) { LowerTwice(py, x); }
  }
}
