/** Search conditions as text: the tokens the filter translators join together, a parser
    with the usual precedence (a truth test binds tightest, then NOT, AND, OR: section
    8.12 of ISO/IEC 9075:1992), and three-valued evaluation. */
module SqlText {
  import opened Basics

  datatype Token<A> = Atom(a: A) | AND | OR | NOT | LPAREN | RPAREN | IS_NOT_TRUE

  type Text<A> = seq<Token<A>>

  // ------------------------------------------------------------------ syntax

  /** `term`, or `term OR expr` */
  datatype Expr<A> = Last(term: Term<A>) | More(term: Term<A>, rest: Expr<A>)

  /** `factor`, or `factor AND term` */
  datatype Term<A> = End(factor: Factor<A>) | Then(factor: Factor<A>, rest: Term<A>)

  datatype Factor<A> = Negated(f: Factor<A>) | Plain(t: Test<A>)

  datatype Test<A> = Is(p: Primary<A>) | IsNotTrue(p: Primary<A>)

  datatype Primary<A> = Leaf(a: A) | Paren(e: Expr<A>)

  function PrintExpr<A>(e: Expr<A>): Text<A> {
    match e
    case Last(t) => PrintTerm(t)
    case More(t, r) => PrintTerm(t) + [OR] + PrintExpr(r)
  }

  function PrintTerm<A>(t: Term<A>): Text<A> {
    match t
    case End(f) => PrintFactor(f)
    case Then(f, r) => PrintFactor(f) + [AND] + PrintTerm(r)
  }

  function PrintFactor<A>(f: Factor<A>): Text<A> {
    match f
    case Negated(g) => [NOT] + PrintFactor(g)
    case Plain(t) => PrintTest(t)
  }

  function PrintTest<A>(t: Test<A>): Text<A> {
    match t
    case Is(p) => PrintPrimary(p)
    case IsNotTrue(p) => PrintPrimary(p) + [IS_NOT_TRUE]
  }

  function PrintPrimary<A>(p: Primary<A>): Text<A> {
    match p
    case Leaf(a) => [Atom(a)]
    case Paren(e) => [LPAREN] + PrintExpr(e) + [RPAREN]
  }

  // ------------------------------------------------------------------ parsing

  /** What was read and what is left. */
  datatype Read<A, T> = Read(tree: T, left: Text<A>)

  predicate Begins<A(==)>(s: Text<A>, t: Token<A>) { s != [] && s[0] == t }

  function ReadExpr<A(==)>(s: Text<A>): (r: Option<Read<A, Expr<A>>>)
    ensures r.Some? ==> |r.value.left| < |s|
    decreases |s|, 4
  {
    match ReadTerm(s)
    case None => None
    case Some(Read(t, rest)) =>
      if !Begins(rest, OR) then Some(Read(Last(t), rest))
      else match ReadExpr(rest[1..])
        case None => None
        case Some(Read(e, left)) => Some(Read(More(t, e), left))
  }

  function ReadTerm<A(==)>(s: Text<A>): (r: Option<Read<A, Term<A>>>)
    ensures r.Some? ==> |r.value.left| < |s|
    decreases |s|, 3
  {
    match ReadFactor(s)
    case None => None
    case Some(Read(f, rest)) =>
      if !Begins(rest, AND) then Some(Read(End(f), rest))
      else match ReadTerm(rest[1..])
        case None => None
        case Some(Read(t, left)) => Some(Read(Then(f, t), left))
  }

  function ReadFactor<A(==)>(s: Text<A>): (r: Option<Read<A, Factor<A>>>)
    ensures r.Some? ==> |r.value.left| < |s|
    decreases |s|, 2
  {
    if Begins(s, NOT) then
      match ReadFactor(s[1..])
      case None => None
      case Some(Read(f, left)) => Some(Read(Negated(f), left))
    else
      match ReadTest(s)
      case None => None
      case Some(Read(t, left)) => Some(Read(Plain(t), left))
  }

  function ReadTest<A(==)>(s: Text<A>): (r: Option<Read<A, Test<A>>>)
    ensures r.Some? ==> |r.value.left| < |s|
    decreases |s|, 1
  {
    match ReadPrimary(s)
    case None => None
    case Some(Read(p, rest)) =>
      if Begins(rest, IS_NOT_TRUE) then Some(Read(IsNotTrue(p), rest[1..])) else Some(Read(Is(p), rest))
  }

  function ReadPrimary<A(==)>(s: Text<A>): (r: Option<Read<A, Primary<A>>>)
    ensures r.Some? ==> |r.value.left| < |s|
    decreases |s|, 0
  {
    if s == [] then None
    else if s[0].Atom? then Some(Read(Leaf(s[0].a), s[1..]))
    else if s[0].LPAREN? then
      match ReadExpr(s[1..])
      case None => None
      case Some(Read(e, rest)) => if Begins(rest, RPAREN) then Some(Read(Paren(e), rest[1..])) else None
    else None
  }

  /** The whole text is one condition. */
  function Parse<A(==)>(s: Text<A>): Option<Expr<A>> {
    match ReadExpr(s)
    case None => None
    case Some(Read(e, left)) => if left == [] then Some(e) else None
  }

  // ------------------------------------------------------------------ round trip

  lemma {:induction false} ReadPrintExpr<A>(e: Expr<A>, rest: Text<A>)
    requires !Begins(rest, OR) && !Begins(rest, AND) && !Begins(rest, IS_NOT_TRUE)
    ensures ReadExpr(PrintExpr(e) + rest) == Some(Read(e, rest))
    decreases e, 1
  {
    match e
    case Last(t) => ReadPrintTerm(t, rest);
    case More(t, r) =>
      var tail := PrintExpr(r) + rest;
      ReadPrintTerm(t, [OR] + tail);
      assert PrintExpr(e) + rest == PrintTerm(t) + ([OR] + tail);
      assert ([OR] + tail)[1..] == tail;
      ReadPrintExpr(r, rest);
  }

  lemma {:induction false} ReadPrintTerm<A>(t: Term<A>, rest: Text<A>)
    requires !Begins(rest, AND) && !Begins(rest, IS_NOT_TRUE)
    ensures ReadTerm(PrintTerm(t) + rest) == Some(Read(t, rest))
    decreases t, 1
  {
    match t
    case End(f) => ReadPrintFactor(f, rest);
    case Then(f, r) =>
      var tail := PrintTerm(r) + rest;
      ReadPrintFactor(f, [AND] + tail);
      assert PrintTerm(t) + rest == PrintFactor(f) + ([AND] + tail);
      assert ([AND] + tail)[1..] == tail;
      ReadPrintTerm(r, rest);
  }

  lemma {:induction false} ReadPrintFactor<A>(f: Factor<A>, rest: Text<A>)
    requires !Begins(rest, IS_NOT_TRUE)
    ensures ReadFactor(PrintFactor(f) + rest) == Some(Read(f, rest))
    decreases f, 1
  {
    match f
    case Negated(g) =>
      ReadPrintFactor(g, rest);
      assert (PrintFactor(f) + rest)[1..] == PrintFactor(g) + rest;
    case Plain(t) =>
      ReadPrintTest(t, rest);
      PrimaryStart(t.p);
      assert (PrintFactor(f) + rest)[0] == PrintPrimary(t.p)[0];
  }

  lemma PrimaryStart<A>(p: Primary<A>)
    ensures PrintPrimary(p) != [] && PrintPrimary(p)[0] != NOT
  {}

  lemma {:induction false} ReadPrintTest<A>(t: Test<A>, rest: Text<A>)
    requires !Begins(rest, IS_NOT_TRUE)
    ensures ReadTest(PrintTest(t) + rest) == Some(Read(t, rest))
    decreases t, 1
  {
    match t
    case Is(p) => ReadPrintPrimary(p, rest);
    case IsNotTrue(p) =>
      ReadPrintPrimary(p, [IS_NOT_TRUE] + rest);
      assert PrintTest(t) + rest == PrintPrimary(p) + ([IS_NOT_TRUE] + rest);
      assert ([IS_NOT_TRUE] + rest)[1..] == rest;
  }

  lemma {:induction false} ReadPrintPrimary<A>(p: Primary<A>, rest: Text<A>)
    ensures ReadPrimary(PrintPrimary(p) + rest) == Some(Read(p, rest))
    decreases p, 1
  {
    match p
    case Leaf(a) => assert ([Atom(a)] + rest)[1..] == rest;
    case Paren(e) =>
      var s := PrintPrimary(p) + rest;
      assert s[1..] == PrintExpr(e) + ([RPAREN] + rest);
      ReadPrintExpr(e, [RPAREN] + rest);
      assert ([RPAREN] + rest)[1..] == rest;
  }

  /** Every condition is read back as it was meant. */
  lemma ParsePrint<A>(e: Expr<A>)
    ensures Parse(PrintExpr(e)) == Some(e)
  {
    ReadPrintExpr(e, []);
    assert PrintExpr(e) + [] == PrintExpr(e);
  }

  // ------------------------------------------------------------------ meaning

  datatype Truth = TRUE | FALSE | UNKNOWN

  function Truly(b: bool): Truth { if b then TRUE else FALSE }

  function And3(a: Truth, b: Truth): Truth {
    if a.FALSE? || b.FALSE? then FALSE else if a.TRUE? && b.TRUE? then TRUE else UNKNOWN
  }

  function Or3(a: Truth, b: Truth): Truth {
    if a.TRUE? || b.TRUE? then TRUE else if a.FALSE? && b.FALSE? then FALSE else UNKNOWN
  }

  function Not3(a: Truth): Truth {
    match a
    case TRUE => FALSE
    case FALSE => TRUE
    case UNKNOWN => UNKNOWN
  }

  function EvalExpr<A>(e: Expr<A>, v: A -> Truth): Truth {
    match e
    case Last(t) => EvalTerm(t, v)
    case More(t, r) => Or3(EvalTerm(t, v), EvalExpr(r, v))
  }

  function EvalTerm<A>(t: Term<A>, v: A -> Truth): Truth {
    match t
    case End(f) => EvalFactor(f, v)
    case Then(f, r) => And3(EvalFactor(f, v), EvalTerm(r, v))
  }

  function EvalFactor<A>(f: Factor<A>, v: A -> Truth): Truth {
    match f
    case Negated(g) => Not3(EvalFactor(g, v))
    case Plain(Is(p)) => EvalPrimary(p, v)
    case Plain(IsNotTrue(p)) => Truly(!EvalPrimary(p, v).TRUE?)
  }

  function EvalPrimary<A>(p: Primary<A>, v: A -> Truth): Truth {
    match p
    case Leaf(a) => v(a)
    case Paren(e) => EvalExpr(e, v)
  }

  // ------------------------------------------------------------------ building text

  /** `joiner.join(parts)` */
  function Join<A>(parts: seq<Text<A>>, joiner: Token<A>): Text<A> {
    if parts == [] then []
    else if |parts| == 1 then parts[0]
    else parts[0] + [joiner] + Join(parts[1..], joiner)
  }

  function Parens<A>(s: Text<A>): Text<A> { [LPAREN] + s + [RPAREN] }

  /** A bracketed condition as a factor. */
  function Bracket<A>(e: Expr<A>): Factor<A> { Plain(Is(Paren(e))) }

  /** An elementary condition as a factor. */
  function Fact<A>(a: A): Factor<A> { Plain(Is(Leaf(a))) }

  lemma PrintFact<A>(a: A)
    ensures PrintFactor(Fact(a)) == [Atom(a)] && PrintFactor(Negated(Fact(a))) == [NOT, Atom(a)]
    ensures PrintTerm(End(Fact(a))) == [Atom(a)]
    ensures PrintExpr(Last(End(Fact(a)))) == [Atom(a)]
  {
    assert PrintPrimary(Leaf(a)) == [Atom(a)];
    assert PrintTest(Is(Leaf(a))) == [Atom(a)];
    assert PrintFactor(Fact(a)) == [Atom(a)];
    assert PrintTerm(End(Fact(a))) == [Atom(a)];
  }

  lemma PrintBracket<A>(e: Expr<A>)
    ensures PrintFactor(Bracket(e)) == Parens(PrintExpr(e))
    ensures PrintTerm(End(Bracket(e))) == Parens(PrintExpr(e))
  {
    assert PrintPrimary(Paren(e)) == Parens(PrintExpr(e));
    assert PrintTest(Is(Paren(e))) == Parens(PrintExpr(e));
    assert PrintFactor(Bracket(e)) == Parens(PrintExpr(e));
  }

  lemma EvalFact<A>(a: A, v: A -> Truth)
    ensures EvalFactor(Fact(a), v) == v(a) && EvalFactor(Negated(Fact(a)), v) == Not3(v(a))
    ensures EvalTerm(End(Fact(a)), v) == v(a) && EvalExpr(Last(End(Fact(a))), v) == v(a)
  {
    assert EvalPrimary(Leaf(a), v) == v(a);
    assert EvalFactor(Fact(a), v) == v(a);
    assert EvalTerm(End(Fact(a)), v) == v(a);
  }

  lemma EvalBracket<A>(e: Expr<A>, v: A -> Truth)
    ensures EvalFactor(Bracket(e), v) == EvalTerm(End(Bracket(e)), v) == EvalExpr(e, v)
  {
    assert EvalPrimary(Paren(e), v) == EvalExpr(e, v);
    assert EvalFactor(Bracket(e), v) == EvalExpr(e, v);
  }

  /** The condition that asks for all of `fs`, and the one that asks for one of them. */
  function AllOf<A>(fs: seq<Factor<A>>): Term<A>
    requires fs != []
  {
    if |fs| == 1 then End(fs[0]) else Then(fs[0], AllOf(fs[1..]))
  }

  function AnyOf<A>(ts: seq<Term<A>>): Expr<A>
    requires ts != []
  {
    if |ts| == 1 then Last(ts[0]) else More(ts[0], AnyOf(ts[1..]))
  }

  function PrintFactors<A>(fs: seq<Factor<A>>): seq<Text<A>> {
    seq(|fs|, i requires 0 <= i < |fs| => PrintFactor(fs[i]))
  }

  function PrintTerms<A>(ts: seq<Term<A>>): seq<Text<A>> {
    seq(|ts|, i requires 0 <= i < |ts| => PrintTerm(ts[i]))
  }

  lemma {:induction false} JoinAll<A>(fs: seq<Factor<A>>)
    requires fs != []
    ensures Join(PrintFactors(fs), AND) == PrintTerm(AllOf(fs))
    decreases |fs|
  {
    if |fs| > 1 {
      JoinAll(fs[1..]);
      assert PrintFactors(fs)[1..] == PrintFactors(fs[1..]);
    }
  }

  lemma {:induction false} JoinAny<A>(ts: seq<Term<A>>)
    requires ts != []
    ensures Join(PrintTerms(ts), OR) == PrintExpr(AnyOf(ts))
    decreases |ts|
  {
    if |ts| > 1 {
      JoinAny(ts[1..]);
      assert PrintTerms(ts)[1..] == PrintTerms(ts[1..]);
    }
  }

  lemma {:induction false} AllOfMeans<A>(fs: seq<Factor<A>>, v: A -> Truth)
    requires fs != []
    ensures EvalTerm(AllOf(fs), v).TRUE? <==> forall i | 0 <= i < |fs| :: EvalFactor(fs[i], v).TRUE?
    ensures EvalTerm(AllOf(fs), v).FALSE? <==> exists i :: 0 <= i < |fs| && EvalFactor(fs[i], v).FALSE?
    decreases |fs|
  {
    if |fs| > 1 {
      AllOfMeans(fs[1..], v);
      assert forall i | 0 <= i < |fs[1..]| :: fs[1..][i] == fs[i + 1];
      assert forall i | 1 <= i < |fs| :: fs[i] == fs[1..][i - 1];
    }
  }

  lemma {:induction false} AnyOfMeans<A>(ts: seq<Term<A>>, v: A -> Truth)
    requires ts != []
    ensures EvalExpr(AnyOf(ts), v).TRUE? <==> exists i :: 0 <= i < |ts| && EvalTerm(ts[i], v).TRUE?
    ensures EvalExpr(AnyOf(ts), v).FALSE? <==> forall i | 0 <= i < |ts| :: EvalTerm(ts[i], v).FALSE?
    decreases |ts|
  {
    if |ts| > 1 {
      AnyOfMeans(ts[1..], v);
      assert forall i | 0 <= i < |ts[1..]| :: ts[1..][i] == ts[i + 1];
      assert forall i | 1 <= i < |ts| :: ts[i] == ts[1..][i - 1];
    }
  }
}
