/** The GaussDB translation of metadata filters (common/metadata_gaussdb_filter.py):
    condition text with placeholders and, beside it, a parameter list.  Proved here: the
    text parses to the intended condition with every parameter in its place, and what
    that condition means under three-valued logic. */
module GaussFilter {
  import opened Basics
  import opened SqlText
  import P = Patterns

  // ------------------------------------------------------------------ conditions

  datatype Param = Str(s: string) | Num(n: int)

  /** A placeholder, empty in the text and filled when parameters are bound. */
  datatype Hole = Open | Filled(p: Param)

  datatype Constant = NullJson | BlankText | EmptyArray | EmptyObject

  /** The elementary conditions the translator writes, by metadata key. */
  datatype Cond =
    | Always                                              // 1=1
    | KeyExists(key: string)                              // (v) IS NOT NULL
    | KeyMissing(key: string)                             // (v) IS NULL
    | ValueIs(key: string, c: Constant)                   // v = '...'::jsonb
    | TextEquals(key: string, hole: Hole)                 // lower(t) = %s
    | HasElement(key: string, hole: Hole)                 // jsonb_exists(v, %s)
    | Covers(key: string, hole: Hole)                     // v @> %s::jsonb
    | TextLike(key: string, hole: Hole)                   // lower(t) LIKE %s ESCAPE '\'
    | Compare(key: string, cmp: Comparison, hole: Hole)   // the CASE expression of a range

  predicate HasHole(c: Cond) { c.TextEquals? || c.HasElement? || c.Covers? || c.TextLike? || c.Compare? }

  function Fill(c: Cond, h: Hole): Cond
    requires HasHole(c)
  {
    c.(hole := h)
  }

  // ------------------------------------------------------------------ binding parameters

  type SqlTokens = Text<Cond>

  predicate IsPlaceholder(t: Token<Cond>) { t.Atom? && HasHole(t.a) }

  /** The text with its placeholders emptied, and the parameters it held, left to right. */
  function Erase(ts: SqlTokens): SqlTokens {
    seq(|ts|, i requires 0 <= i < |ts| => if IsPlaceholder(ts[i]) then Atom(Fill(ts[i].a, Open)) else ts[i])
  }

  function ParamsOf(ts: SqlTokens): seq<Param> {
    if ts == [] then []
    else (if IsPlaceholder(ts[0]) && ts[0].a.hole.Filled? then [ts[0].a.hole.p] else []) + ParamsOf(ts[1..])
  }

  predicate Complete(ts: SqlTokens) { forall t | t in ts && IsPlaceholder(t) :: t.a.hole.Filled? }

  /** The driver's binding: the i-th placeholder takes the i-th parameter, and both run
      out together. */
  function Bind(ts: SqlTokens, ps: seq<Param>): Option<SqlTokens> {
    if ts == [] then (if ps == [] then Some([]) else None)
    else if IsPlaceholder(ts[0]) then
      if ps == [] then None
      else match Bind(ts[1..], ps[1..])
        case None => None
        case Some(r) => Some([Atom(Fill(ts[0].a, Filled(ps[0])))] + r)
    else match Bind(ts[1..], ps)
      case None => None
      case Some(r) => Some([ts[0]] + r)
  }

  lemma {:induction false} BindErase(ts: SqlTokens)
    requires Complete(ts)
    ensures Bind(Erase(ts), ParamsOf(ts)) == Some(ts)
  {
    if ts != [] {
      assert forall t | t in ts[1..] :: t in ts;
      BindErase(ts[1..]);
      assert Erase(ts)[1..] == Erase(ts[1..]);
      assert ts == [ts[0]] + ts[1..];
      if IsPlaceholder(ts[0]) {
        assert ts[0] in ts;
        assert ParamsOf(ts)[1..] == ParamsOf(ts[1..]);
      } else {
        assert [] + ParamsOf(ts[1..]) == ParamsOf(ts[1..]);
      }
    }
  }

  lemma {:induction false} ParamsAppend(a: SqlTokens, b: SqlTokens)
    ensures ParamsOf(a + b) == ParamsOf(a) + ParamsOf(b)
  {
    if a == [] {
      assert a + b == b;
    } else {
      assert (a + b)[1..] == a[1..] + b;
      ParamsAppend(a[1..], b);
    }
  }

  /** Text and parameters that came apart from `meant`. */
  datatype Predicate = Predicate(sql: SqlTokens, params: seq<Param>)

  ghost predicate Faithful(p: Predicate, meant: SqlTokens) {
    p.sql == Erase(meant) && p.params == ParamsOf(meant) && Complete(meant)
  }

  lemma FaithfulAppend(p: Predicate, a: SqlTokens, q: Predicate, b: SqlTokens)
    requires Faithful(p, a) && Faithful(q, b)
    ensures Faithful(Predicate(p.sql + q.sql, p.params + q.params), a + b)
  {
    ParamsAppend(a, b);
    assert Erase(a + b) == Erase(a) + Erase(b);
  }

  /** Text without placeholders is its own meaning. */
  lemma {:induction false} FaithfulConstant(ts: SqlTokens)
    requires forall t | t in ts :: !IsPlaceholder(t)
    ensures Faithful(Predicate(ts, []), ts)
  {
    if ts != [] {
      assert forall t | t in ts[1..] :: t in ts;
      FaithfulConstant(ts[1..]);
      assert ts[0] in ts;
    }
    assert Erase(ts) == ts;
  }

  /** Constant text around a faithful predicate. */
  lemma FaithfulAround(before: SqlTokens, p: Predicate, meant: SqlTokens, after: SqlTokens)
    requires Faithful(p, meant)
    requires forall t | t in before || t in after :: !IsPlaceholder(t)
    ensures Faithful(Predicate(before + p.sql + after, p.params), before + meant + after)
  {
    FaithfulConstant(before);
    FaithfulConstant(after);
    FaithfulAppend(Predicate(before, []), before, p, meant);
    assert [] + p.params == p.params;
    FaithfulAppend(Predicate(before + p.sql, p.params), before + meant, Predicate(after, []), after);
    assert p.params + [] == p.params;
  }

  /** What binding the parameters and parsing the result gives. */
  function Understood(p: Predicate): Option<Expr<Cond>> {
    match Bind(p.sql, p.params)
    case None => None
    case Some(ts) => Parse(ts)
  }

  lemma FaithfulIsUnderstood(p: Predicate, e: Expr<Cond>)
    requires Faithful(p, PrintExpr(e))
    ensures Understood(p) == Some(e)
  {
    BindErase(PrintExpr(e));
    ParsePrint(e);
  }

  // ------------------------------------------------------------------ translators

  /** A filter value after `coerce_scalar_value`. */
  datatype Scalar = SNone | SText(s: string) | SNum(n: int)

  type Lower = string -> string

  /** `_equal_predicate` */
  function EqualPredicate(lower: Lower, key: string, v: Scalar): Predicate {
    match v
    case SNone => Predicate([Atom(KeyExists(key)), AND, Atom(ValueIs(key, NullJson))], [])
    case SText(s) =>
      if s == "" then Predicate([Atom(ValueIs(key, BlankText))], [])
      else Predicate([Atom(TextEquals(key, Open)), OR, Atom(HasElement(key, Open))], [Str(lower(s)), Str(lower(s))])
    case SNum(n) => Predicate([Atom(Covers(key, Open))], [Num(n)])
  }

  function EqualExpr(lower: Lower, key: string, v: Scalar): Expr<Cond> {
    match v
    case SNone => Last(Then(Fact(KeyExists(key)), End(Fact(ValueIs(key, NullJson)))))
    case SText(s) =>
      if s == "" then Last(End(Fact(ValueIs(key, BlankText))))
      else More(End(Fact(TextEquals(key, Filled(Str(lower(s)))))), Last(End(Fact(HasElement(key, Filled(Str(lower(s))))))))
    case SNum(n) => Last(End(Fact(Covers(key, Filled(Num(n))))))
  }

  lemma PrintPair(a: Cond, b: Cond)
    ensures PrintExpr(More(End(Fact(a)), Last(End(Fact(b))))) == [Atom(a), OR, Atom(b)]
    ensures PrintExpr(Last(Then(Fact(a), End(Fact(b))))) == [Atom(a), AND, Atom(b)]
  {
    PrintFact(a);
    PrintFact(b);
  }

  lemma EqualFaithful(lower: Lower, key: string, v: Scalar)
    ensures Faithful(EqualPredicate(lower, key, v), PrintExpr(EqualExpr(lower, key, v)))
  {
    var ts := PrintExpr(EqualExpr(lower, key, v));
    match v
    case SNone =>
      PrintPair(KeyExists(key), ValueIs(key, NullJson));
      ThreeParams(ts);
    case SText(s) =>
      if s == "" {
        PrintFact(ValueIs(key, BlankText));
        OneParam(ts);
      } else {
        PrintPair(TextEquals(key, Filled(Str(lower(s)))), HasElement(key, Filled(Str(lower(s)))));
        ThreeParams(ts);
      }
    case SNum(n) =>
      PrintFact(Covers(key, Filled(Num(n))));
      OneParam(ts);
  }

  function ParamOf(t: Token<Cond>): seq<Param> {
    if IsPlaceholder(t) && t.a.hole.Filled? then [t.a.hole.p] else []
  }

  lemma OneParam(ts: SqlTokens)
    requires |ts| == 1
    ensures ParamsOf(ts) == ParamOf(ts[0])
  {
    assert ts[1..] == [];
  }

  lemma ThreeParams(ts: SqlTokens)
    requires |ts| == 3
    ensures ParamsOf(ts) == ParamOf(ts[0]) + ParamOf(ts[1]) + ParamOf(ts[2])
  {
    ParamsAppend(ts[..1], ts[1..]);
    ParamsAppend(ts[1..][..1], ts[1..][1..]);
    assert ts == ts[..1] + ts[1..] && ts[1..] == ts[1..][..1] + ts[1..][1..];
    OneParam(ts[..1]);
    OneParam(ts[1..][..1]);
    OneParam(ts[1..][1..]);
  }

  /** `({sql}) IS NOT TRUE` behind the key test: the negation of a predicate. */
  function NegatedPredicate(key: string, p: Predicate): Predicate {
    Predicate([Atom(KeyExists(key)), AND] + Parens(p.sql) + [IS_NOT_TRUE], p.params)
  }

  function NotTrue(e: Expr<Cond>): Factor<Cond> { Plain(IsNotTrue(Paren(e))) }

  function NegatedExpr(key: string, e: Expr<Cond>): Expr<Cond> {
    Last(Then(Fact(KeyExists(key)), End(NotTrue(e))))
  }

  lemma NegatedFaithful(key: string, p: Predicate, e: Expr<Cond>)
    requires Faithful(p, PrintExpr(e))
    ensures Faithful(NegatedPredicate(key, p), PrintExpr(NegatedExpr(key, e)))
  {
    var before, after := [Atom(KeyExists(key)), AND, LPAREN], [RPAREN, IS_NOT_TRUE];
    FaithfulAround(before, p, PrintExpr(e), after);
    assert NegatedPredicate(key, p).sql == before + p.sql + after;
    PrintNegated(key, e);
    assert [Atom(KeyExists(key)), AND] + PrintFactor(NotTrue(e)) == before + PrintExpr(e) + after;
  }

  lemma PrintNotTrue(e: Expr<Cond>)
    ensures PrintFactor(NotTrue(e)) == Parens(PrintExpr(e)) + [IS_NOT_TRUE]
  {
    assert PrintPrimary(Paren(e)) == Parens(PrintExpr(e));
    assert PrintTest(IsNotTrue(Paren(e))) == Parens(PrintExpr(e)) + [IS_NOT_TRUE];
  }

  lemma PrintNegated(key: string, e: Expr<Cond>)
    ensures PrintExpr(NegatedExpr(key, e)) == [Atom(KeyExists(key)), AND] + PrintFactor(NotTrue(e))
    ensures PrintFactor(NotTrue(e)) == Parens(PrintExpr(e)) + [IS_NOT_TRUE]
  {
    PrintFact(KeyExists(key));
    PrintNotTrue(e);
    var t := Then(Fact(KeyExists(key)), End(NotTrue(e)));
    assert PrintTerm(End(NotTrue(e))) == PrintFactor(NotTrue(e));
    assert PrintTerm(t) == [Atom(KeyExists(key))] + [AND] + PrintFactor(NotTrue(e));
  }

  /** `_translate_contains` */
  function ContainsPredicate(lower: Lower, key: string, t: string): Predicate {
    Predicate([Atom(HasElement(key, Open)), OR, Atom(TextLike(key, Open))],
              [Str(lower(t)), Str("%" + P.Escape(lower(t), '%', '_') + "%")])
  }

  function ContainsExpr(lower: Lower, key: string, t: string): Expr<Cond> {
    More(End(Fact(HasElement(key, Filled(Str(lower(t)))))),
         Last(End(Fact(TextLike(key, Filled(Str("%" + P.Escape(lower(t), '%', '_') + "%")))))))
  }

  lemma ContainsFaithful(lower: Lower, key: string, t: string)
    ensures Faithful(ContainsPredicate(lower, key, t), PrintExpr(ContainsExpr(lower, key, t)))
  {
    var ts := PrintExpr(ContainsExpr(lower, key, t));
    PrintPair(HasElement(key, Filled(Str(lower(t)))),
              TextLike(key, Filled(Str("%" + P.Escape(lower(t), '%', '_') + "%"))));
    ThreeParams(ts);
  }

  // ------------------------------------------------------------------ joining

  function AllParams(ps: seq<Predicate>): seq<Param> {
    if ps == [] then [] else ps[0].params + AllParams(ps[1..])
  }

  function Texts(ps: seq<Predicate>): seq<SqlTokens> { seq(|ps|, i requires 0 <= i < |ps| => ps[i].sql) }

  /** Joining the texts and concatenating the parameters keeps them together. */
  lemma {:induction false} JoinFaithful(ps: seq<Predicate>, meant: seq<SqlTokens>, joiner: Token<Cond>)
    requires |ps| == |meant| > 0 && !IsPlaceholder(joiner)
    requires forall i | 0 <= i < |ps| :: Faithful(ps[i], meant[i])
    ensures Faithful(Predicate(Join(Texts(ps), joiner), AllParams(ps)), Join(meant, joiner))
    decreases |ps|
  {
    assert Faithful(ps[0], meant[0]);
    if |ps| == 1 {
      assert ps[1..] == [] && ps[0].params + [] == ps[0].params;
    } else {
      JoinFaithful(ps[1..], meant[1..], joiner);
      assert Texts(ps)[1..] == Texts(ps[1..]);
      var rest := Predicate(Join(Texts(ps[1..]), joiner), AllParams(ps[1..]));
      FaithfulAround([], ps[0], meant[0], [joiner]);
      assert [] + ps[0].sql + [joiner] == ps[0].sql + [joiner] && [] + meant[0] + [joiner] == meant[0] + [joiner];
      FaithfulAppend(Predicate(ps[0].sql + [joiner], ps[0].params), meant[0] + [joiner], rest, Join(meant[1..], joiner));
    }
  }

  lemma {:induction false} AllParamsAppend(a: seq<Predicate>, b: Predicate)
    ensures AllParams(a + [b]) == AllParams(a) + b.params
  {
    if a == [] {
      assert [b][1..] == [] && a + [b] == [b];
    } else {
      assert (a + [b])[1..] == a[1..] + [b];
      AllParamsAppend(a[1..], b);
    }
  }

  lemma BracketFaithful(p: Predicate, e: Expr<Cond>)
    requires Faithful(p, PrintExpr(e))
    ensures Faithful(Predicate(Parens(p.sql), p.params), PrintFactor(Bracket(e)))
    ensures Faithful(Predicate(Parens(p.sql) + [IS_NOT_TRUE], p.params), PrintFactor(NotTrue(e)))
  {
    PrintBracket(e);
    PrintNotTrue(e);
    FaithfulAround([LPAREN], p, PrintExpr(e), [RPAREN]);
    FaithfulAround([LPAREN], p, PrintExpr(e), [RPAREN, IS_NOT_TRUE]);
    assert [LPAREN] + p.sql + [RPAREN, IS_NOT_TRUE] == Parens(p.sql) + [IS_NOT_TRUE];
    assert [LPAREN] + PrintExpr(e) + [RPAREN, IS_NOT_TRUE] == Parens(PrintExpr(e)) + [IS_NOT_TRUE];
  }

  function Bracketed(ps: seq<Predicate>, suffix: SqlTokens): seq<Predicate> {
    seq(|ps|, i requires 0 <= i < |ps| => Predicate(Parens(ps[i].sql) + suffix, ps[i].params))
  }

  lemma {:induction false} BracketedParams(ps: seq<Predicate>, suffix: SqlTokens)
    ensures AllParams(Bracketed(ps, suffix)) == AllParams(ps)
  {
    if ps != [] {
      BracketedParams(ps[1..], suffix);
      assert Bracketed(ps, suffix)[1..] == Bracketed(ps[1..], suffix);
    }
  }

  ghost predicate AllFaithful(ps: seq<Predicate>, es: seq<Expr<Cond>>) {
    |ps| == |es| > 0 && forall i | 0 <= i < |ps| :: Faithful(ps[i], PrintExpr(es[i]))
  }

  function Brackets(es: seq<Expr<Cond>>): seq<Factor<Cond>> {
    seq(|es|, i requires 0 <= i < |es| => Bracket(es[i]))
  }

  function BracketTerms(es: seq<Expr<Cond>>): seq<Term<Cond>> {
    seq(|es|, i requires 0 <= i < |es| => End(Bracket(es[i])))
  }

  function NotTrues(es: seq<Expr<Cond>>): seq<Factor<Cond>> {
    seq(|es|, i requires 0 <= i < |es| => NotTrue(es[i]))
  }

  /** `(a) OR (b) OR ...` */
  lemma AnyFaithful(ps: seq<Predicate>, es: seq<Expr<Cond>>)
    requires AllFaithful(ps, es)
    ensures Faithful(Predicate(Join(Texts(Bracketed(ps, [])), OR), AllParams(ps)), PrintExpr(AnyOf(BracketTerms(es))))
  {
    var qs, meant := Bracketed(ps, []), PrintTerms(BracketTerms(es));
    forall i | 0 <= i < |qs|
      ensures Faithful(qs[i], meant[i])
    {
      BracketFaithful(ps[i], es[i]);
      PrintBracket(es[i]);
      assert Parens(ps[i].sql) + [] == Parens(ps[i].sql);
    }
    JoinFaithful(qs, meant, OR);
    BracketedParams(ps, []);
    JoinAny(BracketTerms(es));
  }

  /** `(a) AND (b) AND ...` */
  lemma AllBracketsFaithful(ps: seq<Predicate>, es: seq<Expr<Cond>>)
    requires AllFaithful(ps, es)
    ensures Faithful(Predicate(Join(Texts(Bracketed(ps, [])), AND), AllParams(ps)), PrintTerm(AllOf(Brackets(es))))
  {
    var qs, meant := Bracketed(ps, []), PrintFactors(Brackets(es));
    forall i | 0 <= i < |qs|
      ensures Faithful(qs[i], meant[i])
    {
      BracketFaithful(ps[i], es[i]);
      assert Parens(ps[i].sql) + [] == Parens(ps[i].sql);
    }
    JoinFaithful(qs, meant, AND);
    BracketedParams(ps, []);
    JoinAll(Brackets(es));
  }

  /** `(a) IS NOT TRUE AND (b) IS NOT TRUE AND ...` */
  lemma NoneFaithful(ps: seq<Predicate>, es: seq<Expr<Cond>>)
    requires AllFaithful(ps, es)
    ensures Faithful(Predicate(Join(Texts(Bracketed(ps, [IS_NOT_TRUE])), AND), AllParams(ps)), PrintTerm(AllOf(NotTrues(es))))
  {
    var qs, meant := Bracketed(ps, [IS_NOT_TRUE]), PrintFactors(NotTrues(es));
    forall i | 0 <= i < |qs|
      ensures Faithful(qs[i], meant[i])
    {
      BracketFaithful(ps[i], es[i]);
    }
    JoinFaithful(qs, meant, AND);
    BracketedParams(ps, [IS_NOT_TRUE]);
    JoinAll(NotTrues(es));
  }

  // ------------------------------------------------------------------ membership

  function Equals(lower: Lower, key: string, members: seq<Scalar>): seq<Predicate> {
    seq(|members|, i requires 0 <= i < |members| => EqualPredicate(lower, key, members[i]))
  }

  function EqualExprs(lower: Lower, key: string, members: seq<Scalar>): seq<Expr<Cond>> {
    seq(|members|, i requires 0 <= i < |members| => EqualExpr(lower, key, members[i]))
  }

  /** `_membership_predicates`: one equality for each member, parameters in order. */
  method MembershipPredicates(lower: Lower, key: string, members: seq<Scalar>)
    returns (fragments: seq<SqlTokens>, params: seq<Param>)
    ensures fragments == Texts(Equals(lower, key, members)) && params == AllParams(Equals(lower, key, members))
  {
    fragments, params := [], [];
    for n := 0 to |members|
      invariant fragments == Texts(Equals(lower, key, members[..n]))
      invariant params == AllParams(Equals(lower, key, members[..n]))
    {
      var p := EqualPredicate(lower, key, members[n]);
      assert Equals(lower, key, members[..n + 1]) == Equals(lower, key, members[..n]) + [p];
      AllParamsAppend(Equals(lower, key, members[..n]), p);
      fragments := fragments + [p.sql];
      params := params + p.params;
    }
    assert members[..|members|] == members;
  }

  lemma EqualsFaithful(lower: Lower, key: string, members: seq<Scalar>)
    requires members != []
    ensures AllFaithful(Equals(lower, key, members), EqualExprs(lower, key, members))
  {
    forall i | 0 <= i < |members|
      ensures Faithful(EqualPredicate(lower, key, members[i]), PrintExpr(EqualExpr(lower, key, members[i])))
    {
      EqualFaithful(lower, key, members[i]);
    }
  }

  /** `_translate_in` */
  function InPredicate(lower: Lower, key: string, members: seq<Scalar>): Predicate {
    var ps := Equals(lower, key, members);
    Predicate(Join(Texts(Bracketed(ps, [])), OR), AllParams(ps))
  }

  /** `_translate_not_in` */
  function NotInPredicate(lower: Lower, key: string, members: seq<Scalar>): Predicate {
    var ps := Equals(lower, key, members);
    Predicate([Atom(KeyExists(key)), AND] + Join(Texts(Bracketed(ps, [IS_NOT_TRUE])), AND), AllParams(ps))
  }

  function InExpr(lower: Lower, key: string, members: seq<Scalar>): Expr<Cond>
    requires members != []
  {
    AnyOf(BracketTerms(EqualExprs(lower, key, members)))
  }

  function NotInExpr(lower: Lower, key: string, members: seq<Scalar>): Expr<Cond>
    requires members != []
  {
    Last(Then(Fact(KeyExists(key)), AllOf(NotTrues(EqualExprs(lower, key, members)))))
  }

  lemma MembershipFaithful(lower: Lower, key: string, members: seq<Scalar>)
    requires members != []
    ensures Faithful(InPredicate(lower, key, members), PrintExpr(InExpr(lower, key, members)))
    ensures Faithful(NotInPredicate(lower, key, members), PrintExpr(NotInExpr(lower, key, members)))
  {
    var ps, es := Equals(lower, key, members), EqualExprs(lower, key, members);
    EqualsFaithful(lower, key, members);
    AnyFaithful(ps, es);
    NoneFaithful(ps, es);
    KeyFirst(key, Predicate(Join(Texts(Bracketed(ps, [IS_NOT_TRUE])), AND), AllParams(ps)), AllOf(NotTrues(es)));
  }

  /** The key test in front of a conjunction. */
  lemma KeyFirst(key: string, p: Predicate, t: Term<Cond>)
    requires Faithful(p, PrintTerm(t))
    ensures Faithful(Predicate([Atom(KeyExists(key)), AND] + p.sql, p.params), PrintExpr(Last(Then(Fact(KeyExists(key)), t))))
  {
    var before := [Atom(KeyExists(key)), AND];
    FaithfulAround(before, p, PrintTerm(t), []);
    assert before + p.sql + [] == before + p.sql && before + PrintTerm(t) + [] == before + PrintTerm(t);
    PrintFact(KeyExists(key));
    assert PrintTerm(Then(Fact(KeyExists(key)), t)) == [Atom(KeyExists(key))] + [AND] + PrintTerm(t);
    assert [Atom(KeyExists(key))] + [AND] == before;
  }

  // ------------------------------------------------------------------ emptiness

  function EmptyConds(key: string): seq<Cond> {
    [KeyMissing(key), ValueIs(key, NullJson), ValueIs(key, BlankText), ValueIs(key, EmptyArray), ValueIs(key, EmptyObject)]
  }

  function EmptyTerms(key: string): seq<Term<Cond>> {
    seq(5, i requires 0 <= i < 5 => End(Fact(EmptyConds(key)[i])))
  }

  /** `_empty_predicate` */
  function EmptyPredicate(key: string): Predicate {
    Predicate([Atom(KeyMissing(key)), OR, Atom(ValueIs(key, NullJson)), OR, Atom(ValueIs(key, BlankText)), OR,
               Atom(ValueIs(key, EmptyArray)), OR, Atom(ValueIs(key, EmptyObject))], [])
  }

  function ConstantExprs(key: string): seq<Expr<Cond>> {
    seq(4, i requires 0 <= i < 4 => Last(End(Fact(EmptyConds(key)[i + 1]))))
  }

  function ConstantPredicates(key: string): seq<Predicate> {
    seq(4, i requires 0 <= i < 4 => Predicate([Atom(EmptyConds(key)[i + 1])], []))
  }

  /** `_not_empty_predicate` */
  function NotEmptyPredicate(key: string): Predicate {
    Predicate([Atom(KeyExists(key)), AND] + Join(Texts(Bracketed(ConstantPredicates(key), [IS_NOT_TRUE])), AND), [])
  }

  function EmptyExpr(key: string): Expr<Cond> { AnyOf(EmptyTerms(key)) }

  function NotEmptyExpr(key: string): Expr<Cond> {
    Last(Then(Fact(KeyExists(key)), AllOf(NotTrues(ConstantExprs(key)))))
  }

  lemma EmptyFaithful(key: string)
    ensures Faithful(EmptyPredicate(key), PrintExpr(EmptyExpr(key)))
  {
    hide PrintExpr, PrintTerm, Faithful;
    var parts := PrintTerms(EmptyTerms(key));
    forall i | 0 <= i < 5
      ensures parts[i] == [Atom(EmptyConds(key)[i])]
    {
      PrintFact(EmptyConds(key)[i]);
    }
    JoinAny(EmptyTerms(key));
    JoinFive(parts);
    assert EmptyPredicate(key).sql == parts[0] + [OR] + parts[1] + [OR] + parts[2] + [OR] + parts[3] + [OR] + parts[4];
    FaithfulConstant(EmptyPredicate(key).sql);
  }

  lemma ConstantsFaithful(key: string)
    ensures AllFaithful(ConstantPredicates(key), ConstantExprs(key)) && AllParams(ConstantPredicates(key)) == []
  {
    var ps, es := ConstantPredicates(key), ConstantExprs(key);
    forall i | 0 <= i < 4
      ensures Faithful(ps[i], PrintExpr(es[i]))
    {
      assert EmptyConds(key)[i + 1].ValueIs?;
      FaithfulConstant(ps[i].sql);
      PrintFact(ps[i].sql[0].a);
    }
    assert AllParams(ps[4..]) == [] && AllParams(ps[3..]) == [] && AllParams(ps[2..]) == [] && AllParams(ps[1..]) == [];
  }

  lemma NotEmptyFaithful(key: string)
    ensures Faithful(NotEmptyPredicate(key), PrintExpr(NotEmptyExpr(key)))
  {
    var ps, es := ConstantPredicates(key), ConstantExprs(key);
    ConstantsFaithful(key);
    NoneFaithful(ps, es);
    KeyFirst(key, Predicate(Join(Texts(Bracketed(ps, [IS_NOT_TRUE])), AND), []), AllOf(NotTrues(es)));
  }

  lemma JoinFive(ps: seq<SqlTokens>)
    requires |ps| == 5
    ensures Join(ps, OR) == ps[0] + [OR] + ps[1] + [OR] + ps[2] + [OR] + ps[3] + [OR] + ps[4]
  {
    assert ps[3..][1..] == ps[4..] && ps[2..][1..] == ps[3..] && ps[1..][1..] == ps[2..];
    assert Join(ps[4..], OR) == ps[4];
    assert Join(ps[3..], OR) == ps[3] + [OR] + ps[4];
    assert Join(ps[2..], OR) == ps[2] + [OR] + (ps[3] + [OR] + ps[4]);
    assert Join(ps[1..], OR) == ps[1] + [OR] + (ps[2] + [OR] + (ps[3] + [OR] + ps[4]));
  }

  // ------------------------------------------------------------------ filters and plans

  datatype Op =
    | Eq | Ne | In | NotIn | Contains | NotContains | StartWith | EndWith | Empty | NotEmpty
    | Range(cmp: Comparison)

  /** A filter value as the translator receives it: a scalar, a list, or for a range the
      number or timestamp `coerce_range_value` made of it. */
  datatype Operand = One(v: Scalar) | Many(vs: seq<Scalar>) | Bound(p: Param)

  datatype Filter = Filter(op: Op, key: string, value: Operand)

  /** `coerce_string_value`: a non-empty scalar text. */
  predicate IsText(v: Operand) { v.One? && v.v.SText? && v.v.s != "" }

  predicate Accepted(f: Filter) {
    f.key != "" &&
    match f.op
    case Empty | NotEmpty => true
    case Eq | Ne => f.value.One?
    case In | NotIn => f.value.Many? && f.value.vs != []
    case Contains | NotContains | StartWith | EndWith => IsText(f.value)
    case Range(_) => f.value.Bound?
  }

  function LikePredicate(key: string, pattern: string): Predicate {
    Predicate([Atom(TextLike(key, Open))], [Str(pattern)])
  }

  /** `GaussDBMetaFilterTranslator.translate` */
  function Translate(lower: Lower, f: Filter): Result<Predicate> {
    if !Accepted(f) then Unsupported
    else match f.op
      case Empty => Ok(EmptyPredicate(f.key))
      case NotEmpty => Ok(NotEmptyPredicate(f.key))
      case Eq => Ok(EqualPredicate(lower, f.key, f.value.v))
      case Ne => Ok(NegatedPredicate(f.key, EqualPredicate(lower, f.key, f.value.v)))
      case In => Ok(InPredicate(lower, f.key, f.value.vs))
      case NotIn => Ok(NotInPredicate(lower, f.key, f.value.vs))
      case Contains => Ok(ContainsPredicate(lower, f.key, f.value.v.s))
      case NotContains => Ok(NegatedPredicate(f.key, ContainsPredicate(lower, f.key, f.value.v.s)))
      case StartWith => Ok(LikePredicate(f.key, P.Escape(lower(f.value.v.s), '%', '_') + "%"))
      case EndWith => Ok(LikePredicate(f.key, "%" + P.Escape(lower(f.value.v.s), '%', '_')))
      case Range(cmp) => Ok(Predicate([Atom(Compare(f.key, cmp, Open))], [f.value.p]))
  }

  /** The condition a filter means. */
  function Meant(lower: Lower, f: Filter): Expr<Cond>
    requires Accepted(f)
  {
    match f.op
    case Empty => EmptyExpr(f.key)
    case NotEmpty => NotEmptyExpr(f.key)
    case Eq => EqualExpr(lower, f.key, f.value.v)
    case Ne => NegatedExpr(f.key, EqualExpr(lower, f.key, f.value.v))
    case In => InExpr(lower, f.key, f.value.vs)
    case NotIn => NotInExpr(lower, f.key, f.value.vs)
    case Contains => ContainsExpr(lower, f.key, f.value.v.s)
    case NotContains => NegatedExpr(f.key, ContainsExpr(lower, f.key, f.value.v.s))
    case StartWith => Last(End(Fact(TextLike(f.key, Filled(Str(P.Escape(lower(f.value.v.s), '%', '_') + "%"))))))
    case EndWith => Last(End(Fact(TextLike(f.key, Filled(Str("%" + P.Escape(lower(f.value.v.s), '%', '_')))))))
    case Range(cmp) => Last(End(Fact(Compare(f.key, cmp, Filled(f.value.p)))))
  }

  lemma SingleFaithful(c: Cond)
    requires HasHole(c) && c.hole.Filled?
    ensures Faithful(Predicate([Atom(Fill(c, Open))], [c.hole.p]), PrintExpr(Last(End(Fact(c)))))
  {
    PrintFact(c);
    OneParam([Atom(c)]);
    assert Erase([Atom(c)]) == [Atom(Fill(c, Open))];
  }

  lemma TranslateFaithful(lower: Lower, f: Filter)
    requires Accepted(f)
    ensures Faithful(Translate(lower, f).value, PrintExpr(Meant(lower, f)))
  {
    match f.op
    case Empty => EmptyFaithful(f.key);
    case NotEmpty => NotEmptyFaithful(f.key);
    case Eq => EqualFaithful(lower, f.key, f.value.v);
    case Ne =>
      EqualFaithful(lower, f.key, f.value.v);
      NegatedFaithful(f.key, EqualPredicate(lower, f.key, f.value.v), EqualExpr(lower, f.key, f.value.v));
    case In => MembershipFaithful(lower, f.key, f.value.vs);
    case NotIn => MembershipFaithful(lower, f.key, f.value.vs);
    case Contains => ContainsFaithful(lower, f.key, f.value.v.s);
    case NotContains =>
      ContainsFaithful(lower, f.key, f.value.v.s);
      NegatedFaithful(f.key, ContainsPredicate(lower, f.key, f.value.v.s), ContainsExpr(lower, f.key, f.value.v.s));
    case StartWith => SingleFaithful(TextLike(f.key, Filled(Str(P.Escape(lower(f.value.v.s), '%', '_') + "%"))));
    case EndWith => SingleFaithful(TextLike(f.key, Filled(Str("%" + P.Escape(lower(f.value.v.s), '%', '_')))));
    case Range(cmp) => SingleFaithful(Compare(f.key, cmp, Filled(f.value.p)));
  }

  function Predicates(lower: Lower, filters: seq<Filter>): seq<Predicate>
    requires forall f | f in filters :: Accepted(f)
  {
    seq(|filters|, i requires 0 <= i < |filters| => Translate(lower, filters[i]).value)
  }

  function Meanings(lower: Lower, filters: seq<Filter>): seq<Expr<Cond>>
    requires forall f | f in filters :: Accepted(f)
  {
    seq(|filters|, i requires 0 <= i < |filters| => Meant(lower, filters[i]))
  }

  /** `to_predicate`: each translated filter in brackets, joined; parameters collected in
      the same order. */
  method ToPredicate(translated: seq<Predicate>, conj: bool) returns (p: Predicate)
    ensures p == if translated == [] then Predicate([Atom(Always)], [])
                 else Predicate(Join(Texts(Bracketed(translated, [])), if conj then AND else OR), AllParams(translated))
  {
    if translated == [] {
      return Predicate([Atom(Always)], []);
    }
    var params: seq<Param> := [];
    for n := 0 to |translated|
      invariant params == AllParams(translated[..n])
    {
      assert translated[..n + 1] == translated[..n] + [translated[n]];
      AllParamsAppend(translated[..n], translated[n]);
      params := params + translated[n].params;
    }
    assert translated[..|translated|] == translated;
    p := Predicate(Join(Texts(Bracketed(translated, [])), if conj then AND else OR), params);
  }

  function PlanExpr(es: seq<Expr<Cond>>, conj: bool): Expr<Cond>
    requires es != []
  {
    if conj then Last(AllOf(Brackets(es))) else AnyOf(BracketTerms(es))
  }

  /** For every filter list and logic: binding the parameters to the placeholders from
      left to right uses all of both, and the bound text parses to the conjunction or
      disjunction of what the filters mean. */
  lemma PlanIsUnderstood(lower: Lower, filters: seq<Filter>, conj: bool)
    requires filters != [] && forall f | f in filters :: Accepted(f)
    ensures var ps := Predicates(lower, filters);
            Understood(Predicate(Join(Texts(Bracketed(ps, [])), if conj then AND else OR), AllParams(ps)))
            == Some(PlanExpr(Meanings(lower, filters), conj))
  {
    var ps, es := Predicates(lower, filters), Meanings(lower, filters);
    forall i | 0 <= i < |filters|
      ensures Faithful(ps[i], PrintExpr(es[i]))
    {
      TranslateFaithful(lower, filters[i]);
    }
    if conj {
      AllBracketsFaithful(ps, es);
      assert PrintExpr(Last(AllOf(Brackets(es)))) == PrintTerm(AllOf(Brackets(es)));
    } else {
      AnyFaithful(ps, es);
    }
    FaithfulIsUnderstood(Predicate(Join(Texts(Bracketed(ps, [])), if conj then AND else OR), AllParams(ps)), PlanExpr(es, conj));
  }

  // ------------------------------------------------------------------ meaning

  /** A JSON value of a document: one of the constants that count as empty, or other. */
  datatype Json = Hollow(c: Constant) | Full(id: int)

  /** The engine's own operators on JSON values. */
  datatype Engine = Engine(
    lower: Lower,
    text: Json -> Option<string>,              // #>>, NULL for JSON null
    element: (Json, string) -> bool,           // jsonb_exists
    covers: (Json, int) -> bool,               // @>
    compare: (Json, Comparison, Param) -> Truth)

  type Row = map<string, Json>

  /** Three-valued truth of an elementary condition; a missing key makes the value NULL
      and any test of it but the null test unknown. */
  function Value(e: Engine, row: Row, c: Cond): Truth {
    match c
    case Always => TRUE
    case KeyExists(k) => Truly(k in row)
    case KeyMissing(k) => Truly(k !in row)
    case ValueIs(k, x) => if k in row then Truly(row[k] == Hollow(x)) else UNKNOWN
    case TextEquals(k, h) =>
      if k in row && e.text(row[k]).Some? && h.Filled? then Truly(Str(e.lower(e.text(row[k]).value)) == h.p) else UNKNOWN
    case HasElement(k, h) => if k in row && h.Filled? && h.p.Str? then Truly(e.element(row[k], h.p.s)) else UNKNOWN
    case Covers(k, h) => if k in row && h.Filled? && h.p.Num? then Truly(e.covers(row[k], h.p.n)) else UNKNOWN
    case TextLike(k, h) =>
      if k in row && e.text(row[k]).Some? && h.Filled? && h.p.Str?
      then Truly(P.Match(P.Parse(h.p.s, '%', '_'), e.lower(e.text(row[k]).value))) else UNKNOWN
    case Compare(k, cmp, h) => if k in row && h.Filled? then e.compare(row[k], cmp, h.p) else UNKNOWN
  }

  function Meaning(e: Engine, row: Row, f: Filter): Truth
    requires Accepted(f)
  {
    EvalExpr(Meant(e.lower, f), c => Value(e, row, c))
  }

  /** A row is selected when the condition is TRUE, not when it is UNKNOWN. */
  predicate Selected(e: Engine, row: Row, f: Filter)
    requires Accepted(f)
  {
    Meaning(e, row, f).TRUE?
  }

  lemma EvalNegated(key: string, x: Expr<Cond>, v: Cond -> Truth)
    ensures EvalExpr(NegatedExpr(key, x), v) == And3(v(KeyExists(key)), Truly(!EvalExpr(x, v).TRUE?))
    ensures EvalFactor(NotTrue(x), v) == Truly(!EvalExpr(x, v).TRUE?)
    ensures EvalFactor(Bracket(x), v) == EvalTerm(End(Bracket(x)), v) == EvalExpr(x, v)
  {
    EvalFact(KeyExists(key), v);
    assert EvalPrimary(Paren(x), v) == EvalExpr(x, v);
    assert EvalFactor(NotTrue(x), v) == Truly(!EvalExpr(x, v).TRUE?);
    assert EvalFactor(Bracket(x), v) == EvalExpr(x, v);
    assert EvalTerm(End(NotTrue(x)), v) == EvalFactor(NotTrue(x), v);
  }

  /** On a row without the key, equality is never TRUE. */
  lemma EqualMissing(e: Engine, row: Row, key: string, v: Scalar)
    requires key !in row
    ensures !EvalExpr(EqualExpr(e.lower, key, v), c => Value(e, row, c)).TRUE?
  {
    var val := (c: Cond) => Value(e, row, c);
    match v
    case SNone => EvalFact(KeyExists(key), val); EvalFact(ValueIs(key, NullJson), val);
    case SText(s) =>
      EvalFact(ValueIs(key, BlankText), val);
      EvalFact(TextEquals(key, Filled(Str(e.lower(s)))), val);
      EvalFact(HasElement(key, Filled(Str(e.lower(s)))), val);
    case SNum(n) => EvalFact(Covers(key, Filled(Num(n))), val);
  }

  lemma MembershipEval(e: Engine, row: Row, key: string, vs: seq<Scalar>)
    requires vs != []
    ensures var val := (c: Cond) => Value(e, row, c);
            var any := exists i :: 0 <= i < |vs| && EvalExpr(EqualExpr(e.lower, key, vs[i]), val).TRUE?;
            && (EvalExpr(InExpr(e.lower, key, vs), val).TRUE? <==> any)
            && (EvalExpr(NotInExpr(e.lower, key, vs), val).TRUE? <==> key in row && !any)
  {
    var val := (c: Cond) => Value(e, row, c);
    var es := EqualExprs(e.lower, key, vs);
    AnyOfMeans(BracketTerms(es), val);
    AllOfMeans(NotTrues(es), val);
    forall i | 0 <= i < |vs|
      ensures EvalTerm(BracketTerms(es)[i], val) == EvalExpr(EqualExpr(e.lower, key, vs[i]), val)
      ensures EvalFactor(NotTrues(es)[i], val) == Truly(!EvalExpr(EqualExpr(e.lower, key, vs[i]), val).TRUE?)
    {
      EvalNegated(key, es[i], val);
    }
    EvalFact(KeyExists(key), val);
    assert EvalTerm(Then(Fact(KeyExists(key)), AllOf(NotTrues(es))), val)
        == And3(val(KeyExists(key)), EvalTerm(AllOf(NotTrues(es)), val));
  }

  predicate Opposite(a: Op, b: Op) {
    (a.Eq? && b.Ne?) || (a.In? && b.NotIn?) || (a.Contains? && b.NotContains?)
  }

  /** On a row that holds the key, exactly one of an operator and its negation selects
      it; on a row that does not, neither does. */
  lemma NegationPartitions(e: Engine, row: Row, key: string, a: Op, b: Op, value: Operand)
    requires Opposite(a, b) && Accepted(Filter(a, key, value))
    ensures key in row ==> (Selected(e, row, Filter(a, key, value)) <==> !Selected(e, row, Filter(b, key, value)))
    ensures key !in row ==> !Selected(e, row, Filter(a, key, value)) && !Selected(e, row, Filter(b, key, value))
  {
    var val := (c: Cond) => Value(e, row, c);
    match a
    case Eq =>
      EvalNegated(key, EqualExpr(e.lower, key, value.v), val);
      if key !in row { EqualMissing(e, row, key, value.v); }
    case In =>
      MembershipEval(e, row, key, value.vs);
      if key !in row {
        forall i | 0 <= i < |value.vs|
          ensures !EvalExpr(EqualExpr(e.lower, key, value.vs[i]), val).TRUE?
        {
          EqualMissing(e, row, key, value.vs[i]);
        }
      }
    case Contains =>
      EvalNegated(key, ContainsExpr(e.lower, key, value.v.s), val);
      EvalFact(HasElement(key, Filled(Str(e.lower(value.v.s)))), val);
      EvalFact(TextLike(key, Filled(Str("%" + P.Escape(e.lower(value.v.s), '%', '_') + "%"))), val);
  }

  lemma EmptyMeans(e: Engine, row: Row, key: string, value: Operand)
    requires key != ""
    ensures Selected(e, row, Filter(Empty, key, value)) <==> (key !in row || row[key].Hollow?)
  {
    var val := (c: Cond) => Value(e, row, c);
    var cs, ts := EmptyConds(key), EmptyTerms(key);
    AnyOfMeans(ts, val);
    forall i | 0 <= i < 5
      ensures EvalTerm(ts[i], val) == val(cs[i])
    {
      EvalFact(cs[i], val);
    }
    if key in row && row[key].Hollow? {
      var k := match row[key].c case NullJson => 1 case BlankText => 2 case EmptyArray => 3 case EmptyObject => 4;
      assert val(cs[k]).TRUE?;
    } else if key !in row {
      assert val(cs[0]).TRUE?;
    } else {
      assert forall i | 0 <= i < 5 :: !val(cs[i]).TRUE?;
    }
  }

  lemma NotEmptyMeans(e: Engine, row: Row, key: string, value: Operand)
    requires key != ""
    ensures Selected(e, row, Filter(NotEmpty, key, value)) <==> key in row && !row[key].Hollow?
  {
    var val := (c: Cond) => Value(e, row, c);
    var cs, es := EmptyConds(key), ConstantExprs(key);
    AllOfMeans(NotTrues(es), val);
    forall i | 0 <= i < 4
      ensures EvalFactor(NotTrues(es)[i], val) == Truly(!val(cs[i + 1]).TRUE?)
    {
      EvalNegated(key, es[i], val);
      EvalFact(cs[i + 1], val);
    }
    if key in row && row[key].Hollow? {
      var k := match row[key].c case NullJson => 0 case BlankText => 1 case EmptyArray => 2 case EmptyObject => 3;
      assert !EvalFactor(NotTrues(es)[k], val).TRUE?;
    }
    EvalFact(KeyExists(key), val);
    assert EvalExpr(NotEmptyExpr(key), val) == And3(val(KeyExists(key)), EvalTerm(AllOf(NotTrues(es)), val));
  }

  /** Exactly one of `empty` and `not empty` selects a row, whether it holds the key or
      not. */
  lemma EmptinessPartitions(e: Engine, row: Row, key: string, value: Operand)
    requires key != ""
    ensures Selected(e, row, Filter(NotEmpty, key, value)) <==> !Selected(e, row, Filter(Empty, key, value))
    ensures Selected(e, row, Filter(Empty, key, value)) <==> (key !in row || row[key].Hollow?)
  {
    EmptyMeans(e, row, key, value);
    NotEmptyMeans(e, row, key, value);
  }

  /** The lower-cased text of a key, if the row has one. */
  predicate HasText(e: Engine, row: Row, key: string) { key in row && e.text(row[key]).Some? }

  function LowText(e: Engine, row: Row, key: string): string
    requires HasText(e, row, key)
  {
    e.lower(e.text(row[key]).value)
  }

  /** The pattern operators are plain text tests on the lower-cased value, whatever
      metacharacters the filter text contains. */
  lemma TextOperatorsMean(e: Engine, row: Row, key: string, t: string)
    requires key != "" && t != ""
    ensures Selected(e, row, Filter(StartWith, key, One(SText(t)))) <==>
              HasText(e, row, key) && P.StartsWith(LowText(e, row, key), e.lower(t))
    ensures Selected(e, row, Filter(EndWith, key, One(SText(t)))) <==>
              HasText(e, row, key) && P.EndsWith(LowText(e, row, key), e.lower(t))
    ensures Selected(e, row, Filter(Contains, key, One(SText(t)))) <==>
              || (key in row && e.element(row[key], e.lower(t)))
              || (HasText(e, row, key) && P.Contains(LowText(e, row, key), e.lower(t)))
  {
    hide P.Match, P.Parse, P.StartsWith, P.EndsWith, P.Contains, P.Escape;
    var val := (c: Cond) => Value(e, row, c);
    var esc := P.Escape(e.lower(t), '%', '_');
    if HasText(e, row, key) {
      var s := LowText(e, row, key);
      P.PrefixPattern(e.lower(t), s, '%', '_');
      P.SuffixPattern(e.lower(t), s, '%', '_');
      P.InfixPattern(e.lower(t), s, '%', '_');
    }
    assert "%" == ['%'];
    EvalFact(TextLike(key, Filled(Str(esc + "%"))), val);
    EvalFact(TextLike(key, Filled(Str("%" + esc))), val);
    EvalFact(TextLike(key, Filled(Str("%" + esc + "%"))), val);
    EvalFact(HasElement(key, Filled(Str(e.lower(t)))), val);
  }

  /** What equality asks of a row, by the kind of value. */
  ghost predicate IsEqual(e: Engine, row: Row, key: string, v: Scalar) {
    key in row &&
    match v
    case SNone => row[key] == Hollow(NullJson)
    case SText(t) =>
      if t == "" then row[key] == Hollow(BlankText)
      else e.element(row[key], e.lower(t)) || (HasText(e, row, key) && LowText(e, row, key) == e.lower(t))
    case SNum(n) => e.covers(row[key], n)
  }

  lemma EqualEval(e: Engine, row: Row, key: string, v: Scalar)
    ensures EvalExpr(EqualExpr(e.lower, key, v), c => Value(e, row, c)).TRUE? <==> IsEqual(e, row, key, v)
  {
    var val := (c: Cond) => Value(e, row, c);
    match v
    case SNone =>
      EvalFact(KeyExists(key), val);
      EvalFact(ValueIs(key, NullJson), val);
    case SText(s) =>
      EvalFact(ValueIs(key, BlankText), val);
      EvalFact(TextEquals(key, Filled(Str(e.lower(s)))), val);
      EvalFact(HasElement(key, Filled(Str(e.lower(s)))), val);
    case SNum(n) => EvalFact(Covers(key, Filled(Num(n))), val);
  }

  /** `=` and `in` ask for the value, or one of the values; a range asks the engine. */
  lemma ValueOperatorsMean(e: Engine, row: Row, key: string, value: Operand)
    requires key != ""
    ensures value.One? ==> (Selected(e, row, Filter(Eq, key, value)) <==> IsEqual(e, row, key, value.v))
    ensures value.Many? && value.vs != [] ==>
              (Selected(e, row, Filter(In, key, value)) <==> exists v | v in value.vs :: IsEqual(e, row, key, v))
    ensures value.Bound? ==>
              forall cmp :: Selected(e, row, Filter(Range(cmp), key, value))
                            <==> key in row && e.compare(row[key], cmp, value.p).TRUE?
  {
    hide IsEqual;
    var val := (c: Cond) => Value(e, row, c);
    match value
    case One(v) => EqualEval(e, row, key, v);
    case Many(vs) =>
      if vs != [] {
        MembershipEval(e, row, key, vs);
        forall v ensures EvalExpr(EqualExpr(e.lower, key, v), val).TRUE? <==> IsEqual(e, row, key, v) {
          EqualEval(e, row, key, v);
        }
      }
    case Bound(p) =>
      forall cmp ensures Selected(e, row, Filter(Range(cmp), key, value)) <==> key in row && e.compare(row[key], cmp, p).TRUE? {
        EvalFact(Compare(key, cmp, Filled(p)), val);
      }
  }

  /** The whole predicate selects a row exactly when all filters do, or one does. */
  lemma PlanSelects(e: Engine, row: Row, filters: seq<Filter>, conj: bool)
    requires filters != [] && forall f | f in filters :: Accepted(f)
    ensures EvalExpr(PlanExpr(Meanings(e.lower, filters), conj), c => Value(e, row, c)).TRUE? <==>
              if conj then forall i | 0 <= i < |filters| :: Selected(e, row, filters[i])
              else exists i :: 0 <= i < |filters| && Selected(e, row, filters[i])
  {
    var val := (c: Cond) => Value(e, row, c);
    var es := Meanings(e.lower, filters);
    AllOfMeans(Brackets(es), val);
    AnyOfMeans(BracketTerms(es), val);
    forall i | 0 <= i < |filters|
      ensures EvalFactor(Brackets(es)[i], val) == EvalTerm(BracketTerms(es)[i], val) == Meaning(e, row, filters[i])
    {
      EvalNegated("", es[i], val);
    }
  }
}
