/** The Infinity translation of metadata filters (common/metadata_infinity_filter.py).
    Its fragments are joined without brackets around them; proved here: the joined text
    still parses to the condition that was meant, for every filter list and logic. */
module InfinityFilter {
  import opened Basics
  import opened SqlText
  import P = Patterns

  /** A value after coercion: a string literal or a number. */
  datatype Scalar = SText(s: string) | SNum(n: int)

  datatype Cond =
    | Always                                            // 1=1
    | Blank(key: string)                                // JSON_EXTRACT_STRING(...) = '""'
    | NotBlank(key: string)                             // JSON_EXTRACT_STRING(...) != '""'
    | Holds(key: string, v: Scalar)                     // JSON_CONTAINS(...)
    | Compare(key: string, cmp: Comparison, v: Scalar)  // JSON_EXTRACT_... op ...
    | Like(key: string, literal: string)                // JSON_EXTRACT_STRING(...) LIKE '<literal>'

  type Sql = Text<Cond>

  datatype Op = Eq | Ne | In | NotIn | Contains | NotContains | StartWith | EndWith | Empty | NotEmpty | Range(cmp: Comparison)

  datatype Operand = One(v: Scalar) | Many(vs: seq<Scalar>)

  datatype Filter = Filter(op: Op, key: string, value: Operand)

  /** The filters coercion leads to. */
  predicate Accepted(f: Filter) {
    match f.op
    case Empty | NotEmpty => true
    case In | NotIn => f.value.Many? && f.value.vs != []
    case NotContains | StartWith | EndWith => f.value.One? && f.value.v.SText?
    case _ => f.value.One?
  }

  // ------------------------------------------------------------------ coercion

  /** A filter value before coercion; a scalar stands as its `str`, a list as its members'. */
  datatype Raw = Missing | Single(text: string) | Items(texts: seq<string>)

  /** How Python reads texts: as a number, as a lower-cased and stripped member, as a list
      of members; and how it writes a list. */
  datatype Reading = Reading(
    number: string -> Option<int>,
    member: string -> string,
    members: string -> seq<string>,
    str: seq<string> -> string)

  /** `_coerce_scalar`, and `_coerce_range_value` on a scalar: a number if the text reads as
      one, else the text. */
  function ReadScalar(rd: Reading, t: string): Scalar {
    if rd.number(t).Some? then SNum(rd.number(t).value) else SText(t)
  }

  function ReadScalars(rd: Reading, ts: seq<string>): seq<Scalar> {
    seq(|ts|, i requires 0 <= i < |ts| => ReadScalar(rd, rd.member(ts[i])))
  }

  /** The value each operator compares with: `=`, `≠`, ranges and `contains` read numbers,
      `in` and `not in` do so member by member, and the other text operators do not. */
  function Coerce(rd: Reading, op: Op, raw: Raw): Result<Operand> {
    match op
    case Empty | NotEmpty => Ok(One(SText("")))
    case Eq | Ne => if raw.Single? then Ok(One(ReadScalar(rd, raw.text))) else Unsupported
    case In | NotIn =>
      (match raw
       case Missing => Unsupported
       case Single(t) => if rd.members(t) == [] then Unsupported else Ok(Many(ReadScalars(rd, rd.members(t))))
       case Items(ts) => if ts == [] then Unsupported else Ok(Many(ReadScalars(rd, ts))))
    case Contains =>
      (match raw
       case Missing => Unsupported
       case Single(t) => if t == "" then Unsupported else Ok(One(ReadScalar(rd, t)))
       case Items(ts) => if ts == [] then Unsupported else Ok(One(SText(rd.str(ts)))))
    case NotContains | StartWith | EndWith =>
      if raw.Single? && raw.text != "" then Ok(One(SText(raw.text))) else Unsupported
    case Range(_) =>
      (match raw
       case Missing => Unsupported
       case Single(t) => Ok(One(ReadScalar(rd, t)))
       case Items(ts) => Ok(One(SText(rd.str(ts)))))
  }

  lemma CoerceAccepted(rd: Reading, op: Op, key: string, raw: Raw)
    requires Coerce(rd, op, raw).Ok?
    ensures Accepted(Filter(op, key, Coerce(rd, op, raw).value))
  {}

  // ------------------------------------------------------------------ translation

  /** The inside of the quoted literal of `start with`, and of `end with`. */
  function PrefixLiteral(t: string): string { P.Quote(P.Escape(t, '%', '_')) + "%" }

  function SuffixLiteral(t: string): string { "%" + P.Quote(P.Escape(t, '%', '_')) }

  function Texts(vs: seq<Scalar>): seq<Scalar> {
    if vs == [] then [] else (if vs[0].SText? then [vs[0]] else []) + Texts(vs[1..])
  }

  function Nums(vs: seq<Scalar>): seq<Scalar> {
    if vs == [] then [] else (if vs[0].SNum? then [vs[0]] else []) + Nums(vs[1..])
  }

  function Parts(key: string, vs: seq<Scalar>, negated: bool): seq<Sql> {
    seq(|vs|, i requires 0 <= i < |vs| => if negated then [NOT, Atom(Holds(key, vs[i]))] else [Atom(Holds(key, vs[i]))])
  }

  /** The bracketed groups: strings first, then numbers, each only if there are any. */
  function Groups(key: string, vs: seq<Scalar>, negated: bool): seq<Sql> {
    var joiner: Token<Cond> := if negated then AND else OR;
    (if Texts(vs) == [] then [] else [Parens(Join(Parts(key, Texts(vs), negated), joiner))]) +
    (if Nums(vs) == [] then [] else [Parens(Join(Parts(key, Nums(vs), negated), joiner))])
  }

  /** The member loop of `_translate_in` and `_translate_not_in`: string and numeric parts
      go to two lists. */
  method SplitParts(key: string, vs: seq<Scalar>, negated: bool) returns (texts: seq<Sql>, nums: seq<Sql>)
    ensures texts == Parts(key, Texts(vs), negated) && nums == Parts(key, Nums(vs), negated)
  {
    hide Texts, Nums;
    texts, nums := [], [];
    SplitNone(vs);
    for n := 0 to |vs|
      invariant texts == Parts(key, Texts(vs[..n]), negated)
      invariant nums == Parts(key, Nums(vs[..n]), negated)
    {
      assert vs[..n + 1] == vs[..n] + [vs[n]];
      SplitAppend(vs[..n], vs[n]);
      var part := if negated then [NOT, Atom(Holds(key, vs[n]))] else [Atom(Holds(key, vs[n]))];
      if vs[n].SNum? {
        nums := nums + [part];
      } else {
        texts := texts + [part];
      }
    }
    assert vs[..|vs|] == vs;
  }

  lemma SplitNone(vs: seq<Scalar>)
    ensures Texts(vs[..0]) == [] && Nums(vs[..0]) == []
  {
  }

  lemma {:induction false} SplitAppend(vs: seq<Scalar>, v: Scalar)
    ensures Texts(vs + [v]) == Texts(vs) + if v.SText? then [v] else []
    ensures Nums(vs + [v]) == Nums(vs) + if v.SNum? then [v] else []
  {
    if vs == [] {
      assert [v][1..] == [] && vs + [v] == [v];
    } else {
      assert (vs + [v])[1..] == vs[1..] + [v];
      SplitAppend(vs[1..], v);
    }
  }

  /** `MetaFilterTranslator.translate`: the fragment of one filter. */
  function Fragment(f: Filter): Sql
    requires Accepted(f)
  {
    match f.op
    case Empty => [Atom(Blank(f.key))]
    case NotEmpty => [Atom(NotBlank(f.key))]
    case Eq => [Atom(Holds(f.key, f.value.v))]
    case Ne => [NOT, Atom(Holds(f.key, f.value.v))]
    case In => Parens(Join(Groups(f.key, f.value.vs, false), OR))
    case NotIn => Join(Groups(f.key, f.value.vs, true), AND)
    case Contains => [Atom(Holds(f.key, f.value.v))]
    case NotContains => [NOT, Atom(Holds(f.key, f.value.v))]
    case StartWith => [Atom(Like(f.key, PrefixLiteral(f.value.v.s)))]
    case EndWith => [Atom(Like(f.key, SuffixLiteral(f.value.v.s)))]
    case Range(cmp) => [Atom(Compare(f.key, cmp, f.value.v))]
  }

  function FragmentTexts(filters: seq<Filter>): seq<Sql>
    requires forall f | f in filters :: Accepted(f)
  {
    seq(|filters|, i requires 0 <= i < |filters| => Fragment(filters[i]))
  }

  /** `build_infinity_filter` */
  function Build(filters: seq<Filter>, conj: bool): Sql
    requires forall f | f in filters :: Accepted(f)
  {
    if filters == [] then [Atom(Always)] else Parens(Join(FragmentTexts(filters), if conj then AND else OR))
  }

  // ------------------------------------------------------------------ what is meant

  function Facts(key: string, vs: seq<Scalar>, negated: bool): seq<Factor<Cond>> {
    seq(|vs|, i requires 0 <= i < |vs| => if negated then Negated(Fact(Holds(key, vs[i]))) else Fact(Holds(key, vs[i])))
  }

  function Ends(fs: seq<Factor<Cond>>): seq<Term<Cond>> { seq(|fs|, i requires 0 <= i < |fs| => End(fs[i])) }

  /** One group: all parts for a negated list, any part otherwise. */
  function Group(key: string, vs: seq<Scalar>, negated: bool): Factor<Cond>
    requires vs != []
  {
    Bracket(if negated then Last(AllOf(Facts(key, vs, true))) else AnyOf(Ends(Facts(key, vs, false))))
  }

  function GroupFactors(key: string, vs: seq<Scalar>, negated: bool): seq<Factor<Cond>> {
    (if Texts(vs) == [] then [] else [Group(key, Texts(vs), negated)]) +
    (if Nums(vs) == [] then [] else [Group(key, Nums(vs), negated)])
  }

  lemma {:induction false} SomeGroup(vs: seq<Scalar>)
    requires vs != []
    ensures Texts(vs) != [] || Nums(vs) != []
  {}

  /** Every fragment is a chain of factors: nowhere is there an OR outside brackets. */
  function FragmentTerm(f: Filter): Term<Cond>
    requires Accepted(f)
  {
    match f.op
    case Empty => End(Fact(Blank(f.key)))
    case NotEmpty => End(Fact(NotBlank(f.key)))
    case Eq => End(Fact(Holds(f.key, f.value.v)))
    case Ne => End(Negated(Fact(Holds(f.key, f.value.v))))
    case In => SomeGroup(f.value.vs); End(Bracket(AnyOf(Ends(GroupFactors(f.key, f.value.vs, false)))))
    case NotIn => SomeGroup(f.value.vs); AllOf(GroupFactors(f.key, f.value.vs, true))
    case Contains => End(Fact(Holds(f.key, f.value.v)))
    case NotContains => End(Negated(Fact(Holds(f.key, f.value.v))))
    case StartWith => End(Fact(Like(f.key, PrefixLiteral(f.value.v.s))))
    case EndWith => End(Fact(Like(f.key, SuffixLiteral(f.value.v.s))))
    case Range(cmp) => End(Fact(Compare(f.key, cmp, f.value.v)))
  }

  lemma PrintEnds(fs: seq<Factor<Cond>>)
    ensures PrintTerms(Ends(fs)) == PrintFactors(fs)
  {}

  lemma PrintGroup(key: string, vs: seq<Scalar>, negated: bool)
    requires vs != []
    ensures PrintFactor(Group(key, vs, negated)) == Parens(Join(Parts(key, vs, negated), if negated then AND else OR))
  {
    var fs := Facts(key, vs, negated);
    forall i | 0 <= i < |vs|
      ensures PrintFactor(fs[i]) == Parts(key, vs, negated)[i]
    {
      PrintFact(Holds(key, vs[i]));
    }
    assert PrintFactors(fs) == Parts(key, vs, negated);
    if negated {
      JoinAll(fs);
      PrintBracket(Last(AllOf(fs)));
    } else {
      PrintEnds(fs);
      JoinAny(Ends(fs));
      PrintBracket(AnyOf(Ends(fs)));
    }
  }

  lemma PrintGroups(key: string, vs: seq<Scalar>, negated: bool)
    ensures PrintFactors(GroupFactors(key, vs, negated)) == Groups(key, vs, negated)
  {
    if Texts(vs) != [] { PrintGroup(key, Texts(vs), negated); }
    if Nums(vs) != [] { PrintGroup(key, Nums(vs), negated); }
  }

  lemma PrintFragment(f: Filter)
    requires Accepted(f)
    ensures PrintTerm(FragmentTerm(f)) == Fragment(f)
  {
    match f.op
    case In =>
      SomeGroup(f.value.vs);
      var fs := GroupFactors(f.key, f.value.vs, false);
      PrintGroups(f.key, f.value.vs, false);
      PrintEnds(fs);
      JoinAny(Ends(fs));
      PrintBracket(AnyOf(Ends(fs)));
    case NotIn =>
      SomeGroup(f.value.vs);
      PrintGroups(f.key, f.value.vs, true);
      JoinAll(GroupFactors(f.key, f.value.vs, true));
    case Empty => PrintFact(Blank(f.key));
    case NotEmpty => PrintFact(NotBlank(f.key));
    case StartWith => PrintFact(Like(f.key, PrefixLiteral(f.value.v.s)));
    case EndWith => PrintFact(Like(f.key, SuffixLiteral(f.value.v.s)));
    case Range(cmp) => PrintFact(Compare(f.key, cmp, f.value.v));
    case _ => PrintFact(Holds(f.key, f.value.v));
  }

  /** Two chains of factors joined by AND are one chain. */
  function Chain(a: Term<Cond>, b: Term<Cond>): Term<Cond> {
    match a
    case End(f) => Then(f, b)
    case Then(f, r) => Then(f, Chain(r, b))
  }

  lemma {:induction false} ChainMeans(a: Term<Cond>, b: Term<Cond>, v: Cond -> Truth)
    ensures PrintTerm(Chain(a, b)) == PrintTerm(a) + [AND] + PrintTerm(b)
    ensures EvalTerm(Chain(a, b), v) == And3(EvalTerm(a, v), EvalTerm(b, v))
  {
    match a
    case End(f) =>
    case Then(f, r) =>
      ChainMeans(r, b, v);
      assert PrintFactor(f) + [AND] + (PrintTerm(r) + [AND] + PrintTerm(b))
          == (PrintFactor(f) + [AND] + PrintTerm(r)) + [AND] + PrintTerm(b);
  }

  function ChainAll(ts: seq<Term<Cond>>): Term<Cond>
    requires ts != []
  {
    if |ts| == 1 then ts[0] else Chain(ts[0], ChainAll(ts[1..]))
  }

  lemma {:induction false} ChainAllMeans(ts: seq<Term<Cond>>, v: Cond -> Truth)
    requires ts != []
    ensures PrintTerm(ChainAll(ts)) == Join(PrintTerms(ts), AND)
    ensures EvalTerm(ChainAll(ts), v).TRUE? <==> forall i | 0 <= i < |ts| :: EvalTerm(ts[i], v).TRUE?
    decreases |ts|
  {
    if |ts| > 1 {
      ChainAllMeans(ts[1..], v);
      ChainMeans(ts[0], ChainAll(ts[1..]), v);
      assert PrintTerms(ts)[1..] == PrintTerms(ts[1..]);
      assert forall i | 1 <= i < |ts| :: ts[i] == ts[1..][i - 1];
      assert forall i | 0 <= i < |ts[1..]| :: ts[1..][i] == ts[i + 1];
    }
  }

  function Terms(filters: seq<Filter>): seq<Term<Cond>>
    requires forall f | f in filters :: Accepted(f)
  {
    seq(|filters|, i requires 0 <= i < |filters| => FragmentTerm(filters[i]))
  }

  /** The condition the whole text means. */
  function MeantExpr(filters: seq<Filter>, conj: bool): Expr<Cond>
    requires filters != [] && forall f | f in filters :: Accepted(f)
  {
    Last(End(Bracket(if conj then Last(ChainAll(Terms(filters))) else AnyOf(Terms(filters)))))
  }

  /** For every filter list and logic the joined text parses, with the usual precedence,
      to the condition that was meant. */
  lemma BuildParses(filters: seq<Filter>, conj: bool)
    requires filters != [] && forall f | f in filters :: Accepted(f)
    ensures Parse(Build(filters, conj)) == Some(MeantExpr(filters, conj))
  {
    var ts := Terms(filters);
    forall i | 0 <= i < |filters|
      ensures PrintTerm(ts[i]) == Fragment(filters[i])
    {
      PrintFragment(filters[i]);
    }
    assert PrintTerms(ts) == FragmentTexts(filters);
    var inner := if conj then Last(ChainAll(ts)) else AnyOf(ts);
    if conj { ChainAllMeans(ts, c => UNKNOWN); } else { JoinAny(ts); }
    assert PrintExpr(inner) == Join(FragmentTexts(filters), if conj then AND else OR);
    PrintBracket(inner);
    assert PrintTerm(End(Bracket(inner))) == PrintFactor(Bracket(inner));
    ParsePrint(MeantExpr(filters, conj));
  }

  // ------------------------------------------------------------------ meaning

  /** A row as the engine sees it: the extracted text of a key, NULL if there is none, and
      the engine's own answers to containment and comparison. */
  datatype Row = Row(
    text: string -> Option<string>,
    holds: (string, Scalar) -> Truth,
    compare: (string, Comparison, Scalar) -> Truth)

  /** What the engine reads between the quotes of a literal. */
  function Unquoted(literal: string): string { P.ReadLiteral(literal + "'").value }

  const BLANK := "\"\""

  /** Three-valued truth of an elementary condition. */
  function Value(row: Row, c: Cond): Truth {
    match c
    case Always => TRUE
    case Blank(k) => if row.text(k).Some? then Truly(row.text(k).value == BLANK) else UNKNOWN
    case NotBlank(k) => if row.text(k).Some? then Truly(row.text(k).value != BLANK) else UNKNOWN
    case Holds(k, x) => row.holds(k, x)
    case Compare(k, cmp, x) => row.compare(k, cmp, x)
    case Like(k, literal) =>
      if row.text(k).Some? then Truly(P.Match(P.Parse(Unquoted(literal), '%', '_'), row.text(k).value)) else UNKNOWN
  }

  /** What a filter asks of a row, said directly. */
  ghost predicate Asked(f: Filter, row: Row)
    requires Accepted(f)
  {
    match f.op
    case Empty => row.text(f.key) == Some(BLANK)
    case NotEmpty => row.text(f.key).Some? && row.text(f.key) != Some(BLANK)
    case Eq | Contains => row.holds(f.key, f.value.v).TRUE?
    case Ne | NotContains => row.holds(f.key, f.value.v).FALSE?
    case In => exists m | m in f.value.vs :: row.holds(f.key, m).TRUE?
    case NotIn => forall m | m in f.value.vs :: row.holds(f.key, m).FALSE?
    case StartWith => row.text(f.key).Some? && P.StartsWith(row.text(f.key).value, f.value.v.s)
    case EndWith => row.text(f.key).Some? && P.EndsWith(row.text(f.key).value, f.value.v.s)
    case Range(cmp) => row.compare(f.key, cmp, f.value.v).TRUE?
  }

  /** The literals of `start with` and `end with`, read and matched, are text tests. */
  lemma LiteralsMean(row: Row, key: string, t: string)
    ensures Value(row, Like(key, PrefixLiteral(t))).TRUE?
            <==> row.text(key).Some? && P.StartsWith(row.text(key).value, t)
    ensures Value(row, Like(key, SuffixLiteral(t))).TRUE?
            <==> row.text(key).Some? && P.EndsWith(row.text(key).value, t)
  {
    if row.text(key).Some? {
      var s := row.text(key).value;
      P.InfinityPrefix(t, s, "");
      P.InfinitySuffix(t, s, "");
      assert PrefixLiteral(t) + "'" == P.Quote(P.Escape(t, '%', '_')) + "%" + "'" + "";
      assert SuffixLiteral(t) + "'" == "%" + P.Quote(P.Escape(t, '%', '_')) + "'" + "";
    }
  }

  lemma GroupMeans(key: string, vs: seq<Scalar>, v: Cond -> Truth)
    requires vs != []
    ensures EvalFactor(Group(key, vs, false), v).TRUE? <==> exists m | m in vs :: v(Holds(key, m)).TRUE?
    ensures EvalFactor(Group(key, vs, true), v).TRUE? <==> forall m | m in vs :: v(Holds(key, m)).FALSE?
  {
    var fs, ns := Facts(key, vs, false), Facts(key, vs, true);
    forall i | 0 <= i < |vs|
      ensures EvalTerm(Ends(fs)[i], v) == v(Holds(key, vs[i]))
      ensures EvalFactor(ns[i], v) == Not3(v(Holds(key, vs[i])))
    {
      EvalFact(Holds(key, vs[i]), v);
      assert EvalTerm(End(fs[i]), v) == EvalFactor(fs[i], v);
    }
    AnyOfMeans(Ends(fs), v);
    AllOfMeans(ns, v);
    EvalBracket(AnyOf(Ends(fs)), v);
    EvalBracket(Last(AllOf(ns)), v);
    assert EvalExpr(Last(AllOf(ns)), v) == EvalTerm(AllOf(ns), v);
  }

  lemma {:induction false} SplitMembers(vs: seq<Scalar>)
    ensures forall m :: m in vs <==> m in Texts(vs) || m in Nums(vs)
  {
    if vs != [] {
      SplitMembers(vs[1..]);
      assert forall m :: m in vs <==> m == vs[0] || m in vs[1..];
    }
  }

  /** A fragment is TRUE exactly when its filter asks for the row. */
  lemma FragmentMeans(f: Filter, row: Row)
    requires Accepted(f)
    ensures EvalTerm(FragmentTerm(f), c => Value(row, c)).TRUE? <==> Asked(f, row)
  {
    var v := (c: Cond) => Value(row, c);
    match f.op
    case In => MembershipMeans(f.key, f.value.vs, v);
    case NotIn => MembershipMeans(f.key, f.value.vs, v);
    case Empty => EvalFact(Blank(f.key), v);
    case NotEmpty => EvalFact(NotBlank(f.key), v);
    case StartWith =>
      EvalFact(Like(f.key, PrefixLiteral(f.value.v.s)), v);
      LiteralsMean(row, f.key, f.value.v.s);
    case EndWith =>
      EvalFact(Like(f.key, SuffixLiteral(f.value.v.s)), v);
      LiteralsMean(row, f.key, f.value.v.s);
    case Range(cmp) => EvalFact(Compare(f.key, cmp, f.value.v), v);
    case _ => EvalFact(Holds(f.key, f.value.v), v);
  }

  lemma MembershipMeans(key: string, vs: seq<Scalar>, v: Cond -> Truth)
    requires vs != []
    ensures GroupFactors(key, vs, false) != [] && GroupFactors(key, vs, true) != []
    ensures EvalTerm(End(Bracket(AnyOf(Ends(GroupFactors(key, vs, false))))), v).TRUE? <==>
              exists m | m in vs :: v(Holds(key, m)).TRUE?
    ensures EvalTerm(AllOf(GroupFactors(key, vs, true)), v).TRUE? <==>
              forall m | m in vs :: v(Holds(key, m)).FALSE?
  {
    SomeGroup(vs);
    SplitMembers(vs);
    if Texts(vs) != [] { GroupMeans(key, Texts(vs), v); }
    if Nums(vs) != [] { GroupMeans(key, Nums(vs), v); }
    var ps, ns := GroupFactors(key, vs, false), GroupFactors(key, vs, true);
    AnyOfMeans(Ends(ps), v);
    AllOfMeans(ns, v);
    EvalBracket(AnyOf(Ends(ps)), v);
    assert forall i | 0 <= i < |ps| :: EvalTerm(Ends(ps)[i], v) == EvalFactor(ps[i], v);
  }

  /** The condition read from the text selects a row exactly when every filter, or one of
      them, asks for it. */
  lemma BuildMeans(filters: seq<Filter>, conj: bool, row: Row)
    requires filters != [] && forall f | f in filters :: Accepted(f)
    ensures EvalExpr(MeantExpr(filters, conj), c => Value(row, c)).TRUE? <==>
              if conj then forall i | 0 <= i < |filters| :: Asked(filters[i], row)
              else exists i :: 0 <= i < |filters| && Asked(filters[i], row)
  {
    hide Value, Asked;
    var ts, v := Terms(filters), (c: Cond) => Value(row, c);
    ChainAllMeans(ts, v);
    AnyOfMeans(ts, v);
    forall i | 0 <= i < |filters|
      ensures EvalTerm(ts[i], v).TRUE? <==> Asked(filters[i], row)
    {
      FragmentMeans(filters[i], row);
    }
    var inner := if conj then Last(ChainAll(ts)) else AnyOf(ts);
    EvalBracket(inner, v);
  }

  // ------------------------------------------------------------------ negations

  /** The filter an operator and a value before coercion lead to selects the row. */
  ghost predicate Selects(rd: Reading, op: Op, key: string, raw: Raw, row: Row)
    requires Coerce(rd, op, raw).Ok?
  {
    CoerceAccepted(rd, op, key, raw);
    Asked(Filter(op, key, Coerce(rd, op, raw).value), row)
  }

  /** The engine found one of the values, or ruled out every one. */
  ghost predicate Decided(row: Row, key: string, ms: seq<Scalar>) {
    (exists m | m in ms :: row.holds(key, m).TRUE?) || (forall m | m in ms :: !row.holds(key, m).UNKNOWN?)
  }

  function Compared(v: Operand): seq<Scalar> { if v.Many? then v.vs else [v.v] }

  predicate Opposite(a: Op, b: Op) { (a.Eq? && b.Ne?) || (a.In? && b.NotIn?) }

  /** `=` and `≠`, and `in` and `not in`, accept the same values, never select the same row,
      and one of them selects a row exactly when the engine's answers decide it. */
  lemma NegationPartitions(rd: Reading, key: string, a: Op, b: Op, raw: Raw, row: Row)
    requires Opposite(a, b)
    ensures Coerce(rd, a, raw) == Coerce(rd, b, raw)
    ensures Coerce(rd, a, raw).Ok? ==>
              && !(Selects(rd, a, key, raw, row) && Selects(rd, b, key, raw, row))
              && (Selects(rd, a, key, raw, row) || Selects(rd, b, key, raw, row)
                  <==> Decided(row, key, Compared(Coerce(rd, a, raw).value)))
  {
    if Coerce(rd, a, raw).Ok? {
      var ms := Compared(Coerce(rd, a, raw).value);
      assert ms[0] in ms;
    }
  }

  /** A row in which the engine finds one value and no other. */
  function OnlyRow(v: Scalar): Row { Row(k => None, (k, x) => Truly(x == v), (k, c, x) => UNKNOWN) }

  /** `contains` reads a number where `not contains` keeps the text, so the two are each
      other's negation exactly on the texts that do not read as a number. */
  lemma ContainsNegatedIff(rd: Reading, key: string, t: string)
    requires t != ""
    ensures Coerce(rd, Contains, Single(t)).Ok? && Coerce(rd, NotContains, Single(t)).Ok?
    ensures (forall row :: !(Selects(rd, Contains, key, Single(t), row) && Selects(rd, NotContains, key, Single(t), row)))
            <==> rd.number(t).None?
    ensures rd.number(t).None? ==>
              forall row :: Selects(rd, Contains, key, Single(t), row) || Selects(rd, NotContains, key, Single(t), row)
                            <==> Decided(row, key, [SText(t)])
  {
    if rd.number(t).Some? {
      var row := OnlyRow(SNum(rd.number(t).value));
      assert Selects(rd, Contains, key, Single(t), row) && Selects(rd, NotContains, key, Single(t), row);
    } else {
      forall row
        ensures !(Selects(rd, Contains, key, Single(t), row) && Selects(rd, NotContains, key, Single(t), row))
        ensures Selects(rd, Contains, key, Single(t), row) || Selects(rd, NotContains, key, Single(t), row)
                <==> Decided(row, key, [SText(t)])
      {
        assert SText(t) in [SText(t)];
      }
    }
  }

  /** On a non-empty scalar, `=`, `≠`, ranges and `contains` compare with one and the same
      value, a number if the text reads as one, and the other text operators with the text. */
  lemma SameReading(rd: Reading, t: string, cmp: Comparison)
    requires t != ""
    ensures var v := if rd.number(t).Some? then SNum(rd.number(t).value) else SText(t);
            && Coerce(rd, Eq, Single(t)) == Coerce(rd, Ne, Single(t)) == Ok(One(v))
            && Coerce(rd, Range(cmp), Single(t)) == Coerce(rd, Contains, Single(t)) == Ok(One(v))
            && Coerce(rd, NotContains, Single(t)) == Coerce(rd, StartWith, Single(t)) == Coerce(rd, EndWith, Single(t)) == Ok(One(SText(t)))
  {}

  /** A list is searched for as its text by `contains` and refused by `not contains`. */
  lemma ContainsTakesLists(rd: Reading, ts: seq<string>)
    requires ts != []
    ensures Coerce(rd, Contains, Items(ts)) == Ok(One(SText(rd.str(ts)))) && Coerce(rd, NotContains, Items(ts)).Unsupported?
  {}

  /** The value "5" on a row that holds the number 5: selected by both. */
  lemma FiveIsContainedAndNot(key: string, rd: Reading)
    requires rd.number("5") == Some(5)
    ensures Coerce(rd, Contains, Single("5")) == Ok(One(SNum(5)))
    ensures Coerce(rd, NotContains, Single("5")) == Ok(One(SText("5")))
    ensures Selects(rd, Contains, key, Single("5"), OnlyRow(SNum(5))) && Selects(rd, NotContains, key, Single("5"), OnlyRow(SNum(5)))
  {}

  /** `in` lower-cases and strips its members where `=` keeps the text: membership in a list
      of one is equality exactly for the texts this does not change the reading of. */
  lemma ListOfOneIff(rd: Reading, key: string, t: string)
    ensures Coerce(rd, In, Items([t])).Ok? && Coerce(rd, Eq, Single(t)).Ok?
    ensures (forall row :: Selects(rd, In, key, Items([t]), row) <==> Selects(rd, Eq, key, Single(t), row))
            <==> ReadScalar(rd, rd.member(t)) == ReadScalar(rd, t)
  {
    var m := ReadScalar(rd, rd.member(t));
    assert Coerce(rd, In, Items([t])).value.vs == [m];
    forall row ensures Selects(rd, In, key, Items([t]), row) <==> row.holds(key, m).TRUE? {
      assert m in [m];
    }
    if m != ReadScalar(rd, t) {
      var row := OnlyRow(m);
      assert Selects(rd, In, key, Items([t]), row) && !Selects(rd, Eq, key, Single(t), row);
    }
  }

  /** `empty` and `not empty` split the rows that have a text for the key, and no others. */
  lemma EmptinessPartitions(row: Row, key: string, value: Operand)
    ensures var blank, full := Filter(Empty, key, value), Filter(NotEmpty, key, value);
            && !(Asked(blank, row) && Asked(full, row))
            && (Asked(blank, row) || Asked(full, row) <==> row.text(key).Some?)
  {}
}
