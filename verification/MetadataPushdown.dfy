/** Pushing metadata filters down to Elasticsearch against filtering in memory: on which
    documents both select the same, operator by operator, for filter lists, and along the
    routing of `filter_doc_ids_by_metadata` (common/metadata_es_filter.py,
    common/metadata_utils.py). */
module MetadataPushdown {
  import opened Basics
  import opened Patterns
  import opened MetadataMemory
  import opened MetadataEs

  // ------------------------------------------------------------------ negative operators

  lemma NegationIsComplement(py: Env, f: Filter, x: string)
    requires Sane(py) && InFragment(py, f) && IsNegative(f.op)
    ensures Bucket(py, f.op, x, f.value) <==> !Bucket(py, Positively(f.op), x, f.value)
  {}

  /** The values of a document agree among themselves about a filter. */
  ghost predicate Uniform(py: Env, d: Doc, f: Filter) {
    forall x, y | x in Values(d, f.key) && y in Values(d, f.key) ::
      Bucket(py, f.op, x, f.value) ==> Bucket(py, f.op, y, f.value)
  }

  /** For `≠`, `not in`, `not contains` and `not empty` the engine wants every value to
      match and memory wants one: the engine selects fewer documents, and the two agree
      on a document exactly when its values agree among themselves. */
  lemma NegativeOperators(py: Env, es: Engine, d: Doc, f: Filter)
    requires Sane(py) && InFragment(py, f) && IsNegative(f.op)
    ensures Translate(py, f).Ok?
    ensures var hit := Satisfied(py, es, d, Translate(py, f).value);
            && (hit <==> EveryValue(py, d, f))
            && (hit ==> SomeValue(py, d, f))
            && ((hit <==> SomeValue(py, d, f)) <==> Uniform(py, d, f))
  {
    ClauseMeans(py, es, d, f);
    forall x | x in Values(d, f.key)
      ensures Bucket(py, f.op, x, f.value) <==> !Bucket(py, Positively(f.op), x, f.value)
    {
      NegationIsComplement(py, f, x);
    }
    if Values(d, f.key) != [] { assert Values(d, f.key)[0] in Values(d, f.key); }
  }

  /** `is_pushdown_supported` */
  predicate PushdownSupported(filters: seq<Filter>) {
    forall f | f in filters :: !f.op.Ne? && !f.op.NotIn? && f.key != ""
  }

  const AsciiPy := Env(c => c, s => s, s => None, v => "", (c, a, b) => false)

  lemma AsciiSane()
    ensures Sane(AsciiPy)
  {
    forall s ensures Contains(s, AsciiPy.strip(s)) { assert s <= s[0..]; }
  }

  /** The source lets `not contains` through, taking it for safe on several values.  It is
      not: a document with the values "ab" and "c" is selected in memory, by its second
      value, and not by the engine. */
  lemma NotContainsDiverges(es: Engine)
    ensures var f := Filter(NotContain, "k", Text("a"));
            var d := Doc("1", "kb", map["k" := ["ab", "c"]]);
            && PushdownSupported([f]) && InFragment(AsciiPy, f)
            && SomeValue(AsciiPy, d, f) && !Satisfied(AsciiPy, es, d, Translate(AsciiPy, f).value)
  {
    hide Satisfied, Translate, Bucket, Sane;
    var f := Filter(NotContain, "k", Text("a"));
    var d := Doc("1", "kb", map["k" := ["ab", "c"]]);
    AsciiSane();
    NegativeOperators(AsciiPy, es, d, f);
    BucketsDiffer();
    var values := ["ab", "c"];
    assert Values(d, "k") == values;
    assert values[0] in values && values[1] in values;
  }

  lemma BucketsDiffer()
    ensures Bucket(AsciiPy, NotContain, "c", Text("a")) && !Bucket(AsciiPy, NotContain, "ab", Text("a"))
  {
    assert Lower(AsciiPy, "ab") == "ab" && Lower(AsciiPy, "c") == "c" && Lower(AsciiPy, "a") == "a";
    assert "a" <= "ab"[0..];
    forall k: nat | k <= |"c"| ensures !("a" <= "c"[k..]) {
      assert "a"[0] == 'a' && k == 0 ==> "c"[k..][0] == 'c';
    }
  }

  // ------------------------------------------------------------------ empty

  /** `empty` agrees on every document that has a value for the key, and on no other. */
  lemma EmptyAgreesIffPresent(py: Env, es: Engine, d: Doc, f: Filter)
    requires f.op.Empty? && f.key != ""
    ensures Translate(py, f).Ok?
    ensures (Satisfied(py, es, d, Translate(py, f).value) <==> SomeValue(py, d, f)) <==> Values(d, f.key) != []
  {
    hide Satisfied;
    var absent, blank := Bool([], [], [Exists(f.key)]), ExactTerm(f.key, "");
    assert Exists(f.key) in [Exists(f.key)] && absent in [absent, blank] && blank in [absent, blank];
    assert Holds(py, es, d, Exists(f.key)) <==> Values(d, f.key) != [];
    assert Holds(py, es, d, absent) <==> Values(d, f.key) == [];
    SatisfiedOne(py, es, d, f.key, Bool([], [absent, blank], []));
    assert SomeValue(py, d, f) <==> "" in Values(d, f.key);
  }

  // ------------------------------------------------------------------ a string given to `in`

  lemma ContainsPiece(s: string, k: nat, t: string)
    requires k <= |s| && Contains(s[k..], t)
    ensures Contains(s, t)
  {
    var j: nat :| j <= |s[k..]| && t <= s[k..][j..];
    assert s[k..][j..] == s[k + j..];
  }

  lemma ContainsTrans(a: string, b: string, c: string)
    requires Contains(a, b) && Contains(b, c)
    ensures Contains(a, c)
  {
    var i: nat :| i <= |a| && b <= a[i..];
    var j: nat :| j <= |b| && c <= b[j..];
    assert a[i..][j..] == a[i + j..] && c <= a[i + j..];
  }

  lemma LowerContains(py: Env, s: string, t: string)
    requires Contains(s, t)
    ensures Contains(Lower(py, s), Lower(py, t))
  {
    var k: nat :| k <= |s| && t <= s[k..];
    assert Lower(py, s)[k..] == Lower(py, s[k..]);
    assert Lower(py, t) <= Lower(py, s)[k..];
  }

  /** The first part of a split text is its beginning, and every part is a piece of it. */
  lemma {:induction false} SplitPieces(s: string, c: char)
    ensures Split(s, c)[0] <= s
    ensures forall i | 0 <= i < |Split(s, c)| :: Contains(s, Split(s, c)[i])
  {
    if s != "" {
      SplitPieces(s[1..], c);
      var rest := Split(s[1..], c);
      assert s == [s[0]] + s[1..];
      forall i | 0 <= i < |Split(s, c)| ensures Contains(s, Split(s, c)[i]) {
        if i == 0 {
          assert Split(s, c)[0] <= s[0..];
        } else {
          ContainsPiece(s, 1, rest[if s[0] == c then i - 1 else i]);
        }
      }
    } else {
      assert "" <= s[0..];
    }
  }

  /** The members are stripped parts, none of them empty. */
  lemma {:induction false} StrippedPieces(py: Env, parts: seq<string>, s: string)
    requires Sane(py) && forall i | 0 <= i < |parts| :: Contains(s, parts[i])
    ensures forall m | m in StripAll(py, parts) :: m != "" && Contains(s, m)
  {
    if parts != [] {
      StrippedPieces(py, parts[1..], s);
      ContainsTrans(s, parts[0], py.strip(parts[0]));
    }
  }

  /** A text the engine reads as a list of at least one member, all trimmed. */
  predicate IsTextList(py: Env, v: Operand) {
    v.Text? && Members(py, v) != [] && forall m | m in Members(py, v) :: py.strip(Lower(py, m)) == Lower(py, m)
  }

  /** Its members stand between commas: it is not the literal of a list. */
  predicate IsCommaList(py: Env, v: Operand) {
    IsTextList(py, v) && !(py.literal(v.text).Some? && py.literal(v.text).value.PyTexts?)
  }

  /** Some value is a piece of the text, in the reading of memory. */
  ghost predicate SomePiece(py: Env, d: Doc, f: Filter)
    requires f.value.Text?
  {
    exists x | x in Values(d, f.key) :: Contains(Lower(py, f.value.text), Lower(py, x))
  }

  /** Some value is a member, in the engine's reading. */
  ghost predicate SomeMember(py: Env, d: Doc, f: Filter) {
    exists x, m | x in Values(d, f.key) && m in Members(py, f.value) :: Lower(py, m) == Lower(py, x)
  }

  /** Each member of a comma list is a piece of the text, and none is empty. */
  lemma MembersArePieces(py: Env, v: Operand)
    requires Sane(py) && IsCommaList(py, v)
    ensures forall m | m in Members(py, v) :: m != "" && Contains(Lower(py, v.text), Lower(py, m))
  {
    SplitPieces(v.text, ',');
    StrippedPieces(py, Split(v.text, ','), v.text);
    forall m | m in Members(py, v) ensures Contains(Lower(py, v.text), Lower(py, m)) {
      LowerContains(py, v.text, m);
    }
  }

  lemma TextMembershipMeans(py: Env, es: Engine, d: Doc, f: Filter)
    requires Sane(py) && f.key != "" && f.op.In? && IsTextList(py, f.value)
    ensures Translate(py, f).Ok? && Translate(py, f).value.must != []
    ensures Satisfied(py, es, d, Translate(py, f).value) <==> SomeMember(py, d, f)
    ensures SomeValue(py, d, f) <==> SomePiece(py, d, f)
  {
    hide Holds, Satisfied, Sane, Lower, Contains;
    var ms := Members(py, f.value);
    MembershipMeans(py, es, d, f.key, ms);
    SatisfiedOne(py, es, d, f.key, Bool([], MemberTerms(py, f.key, ms), []));
  }

  /** A string given to `in` is a list of members to the engine and a text to search in
      memory: the two agree on a document exactly when some value is a piece of the text
      if and only if some value is a member.  For members between commas, what the engine
      selects memory selects too, and one half of that is enough. */
  lemma TextMembershipIff(py: Env, es: Engine, d: Doc, f: Filter)
    requires Sane(py) && f.key != "" && f.op.In? && IsTextList(py, f.value)
    ensures Translate(py, f).Ok?
    ensures var hit := Satisfied(py, es, d, Translate(py, f).value);
            && ((hit <==> SomeValue(py, d, f)) <==> (SomePiece(py, d, f) <==> SomeMember(py, d, f)))
            && (IsCommaList(py, f.value) ==>
                  && (hit ==> SomeValue(py, d, f))
                  && ((hit <==> SomeValue(py, d, f)) <==> (SomePiece(py, d, f) ==> SomeMember(py, d, f))))
  {
    hide Satisfied, Sane, Lower, Contains;
    TextMembershipMeans(py, es, d, f);
    if IsCommaList(py, f.value) && SomeMember(py, d, f) {
      MembersArePieces(py, f.value);
      var x, m :| x in Values(d, f.key) && m in Members(py, f.value) && Lower(py, m) == Lower(py, x);
      assert Contains(Lower(py, f.value.text), Lower(py, x));
    }
  }

  /** No comma list given to `in` is safe to push down: each has a document, the one with an
      empty value, that memory selects and the engine does not. */
  lemma TextMembershipNeverSafe(py: Env, es: Engine, f: Filter, id: DocId, kb: string)
    requires Sane(py) && f.key != "" && f.op.In? && IsCommaList(py, f.value)
    ensures var d := Doc(id, kb, map[f.key := [""]]);
            Translate(py, f).Ok? && SomeValue(py, d, f) && !Satisfied(py, es, d, Translate(py, f).value)
  {
    hide Satisfied, Sane;
    var d := Doc(id, kb, map[f.key := [""]]);
    TextMembershipMeans(py, es, d, f);
    MembersArePieces(py, f.value);
    assert Values(d, f.key) == [""] && "" in [""];
    assert Lower(py, "") == "" && "" <= Lower(py, f.value.text)[0..];
    assert forall m | m in Members(py, f.value) :: |Lower(py, m)| == |m| > 0;
  }

  lemma SplitNoComma()
    ensures Split("ab", ',') == ["ab"]
  {
    assert "ab"[1..] == "b" && "b"[1..] == "" && ['b'] + "" == "b" && ['a'] + "b" == "ab";
    assert Split("", ',') == [""];
    assert Split("b", ',') == ["b"] + [""][1..] == ["b"];
    assert Split("ab", ',') == ["ab"] + ["b"][1..] == ["ab"];
  }

  /** The text "ab" and the value "a": found in memory, no member to the engine. */
  lemma TextMembershipDiverges(es: Engine)
    ensures var f := Filter(In, "k", Text("ab"));
            var d := Doc("1", "kb", map["k" := ["a"]]);
            && PushdownSupported([f]) && IsCommaList(AsciiPy, f.value)
            && Translate(AsciiPy, f).Ok? && SomeValue(AsciiPy, d, f)
            && !Satisfied(AsciiPy, es, d, Translate(AsciiPy, f).value)
  {
    hide Satisfied, Translate, Sane, Split;
    var f := Filter(In, "k", Text("ab"));
    var d := Doc("1", "kb", map["k" := ["a"]]);
    AsciiSane();
    SplitNoComma();
    assert ["ab"][1..] == [];
    assert StripAll(AsciiPy, ["ab"]) == ["ab"];
    assert Members(AsciiPy, f.value) == ["ab"];
    assert Lower(AsciiPy, "ab") == "ab" && Lower(AsciiPy, "a") == "a";
    TextMembershipMeans(AsciiPy, es, d, f);
    assert Values(d, "k") == ["a"] && "a" in ["a"];
    assert "a" <= "ab"[0..];
    assert |"ab"| != |"a"|;
  }

  // ------------------------------------------------------------------ every operator

  /** The filters the statements about lists cover: the text fragment, a text list given to
      `in`, and a range with a text bound. */
  predicate Covered(py: Env, f: Filter) {
    || InFragment(py, f)
    || (f.key != "" && f.op.In? && IsTextList(py, f.value))
    || (f.key != "" && f.op.Range? && f.value.Text?)
  }

  /** Some value is in range for the engine, and for memory. */
  ghost predicate SomeWithin(py: Env, es: Engine, d: Doc, f: Filter)
    requires f.op.Range? && f.value.Text?
  {
    exists x | x in Values(d, f.key) :: es.range(x, f.op.cmp, RangeBound(py, f.value).value)
  }

  ghost predicate SomeInOrder(py: Env, d: Doc, f: Filter)
    requires f.op.Range? && f.value.Text?
  {
    exists x | x in Values(d, f.key) :: InOrder(py, f.op.cmp, x, f.value.text)
  }

  /** The condition under which both sides say the same of a document. */
  ghost predicate Alike(py: Env, es: Engine, d: Doc, f: Filter)
    requires Covered(py, f)
  {
    match f.op
    case Eq | Contain | StartWith | EndWith => true
    case In => f.value.Text? ==> (SomePiece(py, d, f) <==> SomeMember(py, d, f))
    case Ne | NotIn | NotContain | NotEmpty => Uniform(py, d, f)
    case Empty => Values(d, f.key) != []
    case Range(_) => SomeWithin(py, es, d, f) <==> SomeInOrder(py, d, f)
  }

  /** Filters whose engine side is never wider than memory: all but `empty`, the literal of
      a list given to `in`, and ranges the engine compares differently. */
  ghost predicate Narrow(py: Env, es: Engine, d: Doc, f: Filter)
    requires Covered(py, f)
  {
    && !f.op.Empty?
    && (f.op.In? && f.value.Text? ==> IsCommaList(py, f.value))
    && (f.op.Range? && SomeWithin(py, es, d, f) ==> SomeInOrder(py, d, f))
  }

  /** A range wants the key and a value in range; the first follows from the second. */
  lemma RangeMeans(py: Env, es: Engine, d: Doc, f: Filter)
    requires f.key != "" && f.op.Range? && f.value.Text?
    ensures Translate(py, f).Ok? && Translate(py, f).value.must != []
    ensures Satisfied(py, es, d, Translate(py, f).value) <==> SomeWithin(py, es, d, f)
    ensures SomeValue(py, d, f) <==> SomeInOrder(py, d, f)
    ensures var t := py.strip(f.value.text);
            RangeBound(py, f.value) ==
              Ok(if !IsDate(t) && py.literal(t).Some? && py.literal(t).value.PyOther? then py.literal(t).value else PyText(t))
  {
    var here, within := Exists(f.key), Within(f.key, f.op.cmp, RangeBound(py, f.value).value);
    assert Translate(py, f).value == Translated([here, within], []);
    assert here in [here, within] && within in [here, within];
    assert Holds(py, es, d, here) <==> Values(d, f.key) != [];
  }

  /** For every operator the engine and memory agree on a document exactly under that
      condition. */
  lemma AgreesIff(py: Env, es: Engine, d: Doc, f: Filter)
    requires Sane(py) && Covered(py, f)
    ensures Translate(py, f).Ok? && Translate(py, f).value.must != []
    ensures var hit := Satisfied(py, es, d, Translate(py, f).value);
            && ((hit <==> SomeValue(py, d, f)) <==> Alike(py, es, d, f))
            && (Narrow(py, es, d, f) ==> (hit ==> SomeValue(py, d, f)))
  {
    hide Satisfied, Sane, Bucket, Contains, Lower;
    if f.op.Range? {
      RangeMeans(py, es, d, f);
    } else if f.op.In? && f.value.Text? {
      TextMembershipMeans(py, es, d, f);
      TextMembershipIff(py, es, d, f);
    } else if f.op.Empty? {
      EmptyAgreesIffPresent(py, es, d, f);
    } else {
      ClauseMeans(py, es, d, f);
      if IsNegative(f.op) {
        NegativeOperators(py, es, d, f);
      } else {
        assert Filter(Positively(f.op), f.key, f.value) == f;
      }
    }
  }

  // ------------------------------------------------------------------ ranges of texts

  /** The engine compares indexed texts as Python compares texts. */
  ghost predicate Lexical(py: Env, es: Engine) {
    forall x, cmp, b :: es.range(x, cmp, b) <==> py.order(cmp, PyText(x), b)
  }

  /** A trimmed bound that is neither a date nor a literal. */
  predicate IsPlainBound(py: Env, t: string) { py.strip(t) == t && !IsDate(t) && py.literal(t).None? }

  /** Lower-casing does not change how a value compares with the bound. */
  ghost predicate CaseIgnored(py: Env, cmp: Comparison, x: string, t: string) {
    py.order(cmp, PyText(x), PyText(t)) <==> py.order(cmp, PyText(Lower(py, x)), PyText(Lower(py, t)))
  }

  /** Memory lower-cases both sides of a comparison of texts and the engine does not: a
      range filter means the same on all documents exactly when lower-casing never changes
      how a value compares with the bound. */
  lemma LexicalRangeIff(py: Env, es: Engine, f: Filter)
    requires Lexical(py, es) && f.key != "" && f.op.Range? && f.value.Text? && IsPlainBound(py, f.value.text)
    ensures Translate(py, f).Ok?
    ensures (forall d :: Satisfied(py, es, d, Translate(py, f).value) <==> SomeValue(py, d, f))
            <==> forall x :: CaseIgnored(py, f.op.cmp, x, f.value.text)
  {
    hide Satisfied, Translate, SomeValue;
    var t := f.value.text;
    forall d ensures Translate(py, f).Ok? && (Satisfied(py, es, d, Translate(py, f).value) <==> SomeWithin(py, es, d, f))
             ensures SomeValue(py, d, f) <==> SomeInOrder(py, d, f)
    {
      RangeMeans(py, es, d, f);
    }
    RangeMeans(py, es, Doc("", "", map[]), f);
    forall x ensures CaseIgnored(py, f.op.cmp, x, t)
                     <==> (es.range(x, f.op.cmp, RangeBound(py, f.value).value) <==> InOrder(py, f.op.cmp, x, t))
    {}
    if forall x :: CaseIgnored(py, f.op.cmp, x, t) {
      forall d ensures SomeWithin(py, es, d, f) <==> SomeInOrder(py, d, f) {
        forall x | x in Values(d, f.key)
          ensures es.range(x, f.op.cmp, RangeBound(py, f.value).value) <==> InOrder(py, f.op.cmp, x, t)
        {
          assert CaseIgnored(py, f.op.cmp, x, t);
        }
      }
    }
    if forall d :: Satisfied(py, es, d, Translate(py, f).value) <==> SomeValue(py, d, f) {
      forall x ensures CaseIgnored(py, f.op.cmp, x, t) {
        var d := Doc("", "", map[f.key := [x]]);
        assert Values(d, f.key) == [x] && x in [x];
        assert SomeWithin(py, es, d, f) <==> SomeInOrder(py, d, f);
      }
    }
  }

  function LowerAscii(c: char): char { if 'A' <= c <= 'Z' then (c - 'A') + 'a' else c }

  function TextOrder(cmp: Comparison, a: Python, b: Python): bool {
    a.PyText? && b.PyText? && TextsCompare(cmp, a.text, b.text)
  }

  const AsciiOrderPy := Env(c => LowerAscii(c), s => s, s => None, v => "", (c, a, b) => TextOrder(c, a, b))
  const AsciiOrderEs := Engine((x, n) => false, (x, c, b) => TextOrder(c, PyText(x), b))

  /** The source takes both comparisons for the same.  They are not: the value "B" is behind
      the bound "a" in memory and in front of it to the engine. */
  lemma LexicalRangeDiverges()
    ensures var f := Filter(Range(Gt), "k", Text("a"));
            var d := Doc("1", "kb", map["k" := ["B"]]);
            && Lexical(AsciiOrderPy, AsciiOrderEs) && IsPlainBound(AsciiOrderPy, "a") && PushdownSupported([f])
            && Translate(AsciiOrderPy, f).Ok? && SomeValue(AsciiOrderPy, d, f)
            && !Satisfied(AsciiOrderPy, AsciiOrderEs, d, Translate(AsciiOrderPy, f).value)
  {
    hide Satisfied, Translate, SomeValue;
    var f := Filter(Range(Gt), "k", Text("a"));
    var d := Doc("1", "kb", map["k" := ["B"]]);
    RangeMeans(AsciiOrderPy, AsciiOrderEs, d, f);
    assert Values(d, "k") == ["B"] && "B" in ["B"];
    assert Lower(AsciiOrderPy, "B") == "b" && Lower(AsciiOrderPy, "a") == "a";
    assert LessFrom("a", "b", 0) && !LessFrom("a", "B", 0);
    assert InOrder(AsciiOrderPy, Gt, "B", "a");
  }

  // ------------------------------------------------------------------ filter lists

  /** The inverted map of the documents in scope: bucket by bucket, the documents that
      hold the value. */
  ghost predicate Inverts(metas: Metas, docs: set<Doc>, kbs: seq<string>) {
    forall k, v, id {:trigger InBucket(metas, k, v, id)} ::
      InBucket(metas, k, v, id) <==> exists d | d in docs :: d.kb in kbs && d.id == id && v in Values(d, k)
  }

  ghost predicate UniqueIds(docs: set<Doc>) { forall d, e | d in docs && e in docs && d.id == e.id :: d == e }

  /** In memory, a document is selected when one of its values is in a matching bucket. */
  lemma SelectedMeans(py: Env, metas: Metas, docs: set<Doc>, kbs: seq<string>, f: Filter, d: Doc)
    requires Inverts(metas, docs, kbs) && UniqueIds(docs) && d in docs && d.kb in kbs
    ensures Selected(py, metas, f, d.id) <==> SomeValue(py, d, f)
  {
    if Selected(py, metas, f, d.id) {
      var v :| InBucket(metas, f.key, v, d.id) && Bucket(py, f.op, v, f.value);
      var e :| e in docs && e.kb in kbs && e.id == d.id && v in Values(e, f.key);
      assert e == d;
    }
    if SomeValue(py, d, f) {
      var v :| v in Values(d, f.key) && Bucket(py, f.op, v, f.value);
      assert InBucket(metas, f.key, v, d.id);
    }
  }

  lemma ListSelects(py: Env, metas: Metas, docs: set<Doc>, kbs: seq<string>, filters: seq<Filter>, conj: bool, d: Doc)
    requires Inverts(metas, docs, kbs) && UniqueIds(docs) && d in docs && d.kb in kbs && filters != []
    ensures SelectedAll(py, metas, filters, conj, d.id) <==>
              if conj then forall i | 0 <= i < |filters| :: SomeValue(py, d, filters[i])
              else exists i :: 0 <= i < |filters| && SomeValue(py, d, filters[i])
  {
    hide Inverts, UniqueIds, Selected, SomeValue;
    forall f ensures Selected(py, metas, f, d.id) <==> SomeValue(py, d, f) {
      SelectedMeans(py, metas, docs, kbs, f, d);
    }
    if conj {
      if forall i | 0 <= i < |filters| :: SomeValue(py, d, filters[i]) {
        forall f | f in filters ensures Selected(py, metas, f, d.id) {
          var i :| 0 <= i < |filters| && filters[i] == f;
        }
      }
    } else if SelectedAll(py, metas, filters, conj, d.id) {
      var f :| f in filters && Selected(py, metas, f, d.id);
      var i :| 0 <= i < |filters| && filters[i] == f;
      assert SomeValue(py, d, filters[i]);
    }
  }

  ghost predicate Setting(py: Env, metas: Metas, docs: set<Doc>, kbs: seq<string>) {
    Sane(py) && Inverts(metas, docs, kbs) && UniqueIds(docs)
  }

  /** The query in terms of the single filters. */
  lemma ListHits(py: Env, es: Engine, kbs: seq<string>, filters: seq<Filter>, ts: seq<Translated>, conj: bool, d: Doc)
    requires Sane(py) && d.kb in kbs && filters != [] && Translates(py, filters, ts)
    requires forall f | f in filters :: Covered(py, f)
    ensures Hit(py, es, d, ToQuery(ts, conj, kbs)) <==>
              if conj then forall i | 0 <= i < |filters| :: Satisfied(py, es, d, ts[i])
              else exists i :: 0 <= i < |filters| && Satisfied(py, es, d, ts[i])
  {
    hide Hit, Satisfied, ToQuery, Sane, Covered;
    forall i | 0 <= i < |ts| ensures ts[i].must != [] {
      assert filters[i] in filters;
      AgreesIff(py, es, d, filters[i]);
    }
    assert forall t | t in ts :: t.must != [];
    QueryMeans(py, es, d, ts, conj, kbs);
  }

  /** A list of filters of all kinds, under AND and under OR: if both sides agree on the
      document filter by filter, the query hits it exactly when `meta_filter` returns it. */
  lemma ListIsExact(py: Env, es: Engine, metas: Metas, docs: set<Doc>, kbs: seq<string>,
                    filters: seq<Filter>, ts: seq<Translated>, conj: bool, d: Doc)
    requires Setting(py, metas, docs, kbs) && d in docs && d.kb in kbs
    requires filters != [] && Translates(py, filters, ts)
    requires forall f | f in filters :: Covered(py, f) && Alike(py, es, d, f)
    ensures Hit(py, es, d, ToQuery(ts, conj, kbs)) <==> SelectedAll(py, metas, filters, conj, d.id)
  {
    hide Hit, Satisfied, SomeValue, ToQuery, SelectedAll, Covered, Alike, Sane, Inverts, UniqueIds;
    ListHits(py, es, kbs, filters, ts, conj, d);
    ListSelects(py, metas, docs, kbs, filters, conj, d);
    forall i | 0 <= i < |filters|
      ensures Satisfied(py, es, d, ts[i]) <==> SomeValue(py, d, filters[i])
    {
      assert filters[i] in filters;
      AgreesIff(py, es, d, filters[i]);
    }
  }

  /** A list that mixes these operators, under AND and under OR: what the query hits is
      among what `meta_filter` returns, whatever values the documents hold. */
  lemma ListIsIncluded(py: Env, es: Engine, metas: Metas, docs: set<Doc>, kbs: seq<string>,
                       filters: seq<Filter>, ts: seq<Translated>, conj: bool, d: Doc)
    requires Setting(py, metas, docs, kbs) && d in docs && d.kb in kbs
    requires filters != [] && Translates(py, filters, ts)
    requires forall f | f in filters :: Covered(py, f) && Narrow(py, es, d, f)
    ensures Hit(py, es, d, ToQuery(ts, conj, kbs)) ==> SelectedAll(py, metas, filters, conj, d.id)
  {
    hide Hit, Satisfied, SomeValue, ToQuery, SelectedAll, Covered, Alike, Sane, Inverts, UniqueIds;
    ListHits(py, es, kbs, filters, ts, conj, d);
    ListSelects(py, metas, docs, kbs, filters, conj, d);
    forall i | 0 <= i < |filters|
      ensures Satisfied(py, es, d, ts[i]) ==> SomeValue(py, d, filters[i])
    {
      assert filters[i] in filters;
      AgreesIff(py, es, d, filters[i]);
    }
  }

  /** A document with at most one value for a key has nothing to disagree about. */
  lemma SingleIsUniform(py: Env, d: Doc, f: Filter)
    requires |Values(d, f.key)| <= 1
    ensures Uniform(py, d, f)
  {
  }

  /** Lists that mix positive and negative operators of the text fragment: the query hits
      part of what `meta_filter` returns, and all of it among the documents that have at
      most one value for each key a negative operator asks about. */
  lemma MixedLists(py: Env, es: Engine, metas: Metas, docs: set<Doc>, kbs: seq<string>,
                   filters: seq<Filter>, ts: seq<Translated>, conj: bool, d: Doc)
    requires Setting(py, metas, docs, kbs) && d in docs && d.kb in kbs
    requires filters != [] && Translates(py, filters, ts)
    requires forall f | f in filters :: InFragment(py, f) && !f.op.Empty?
    ensures Hit(py, es, d, ToQuery(ts, conj, kbs)) ==> SelectedAll(py, metas, filters, conj, d.id)
    ensures (forall f | f in filters && IsNegative(f.op) :: |Values(d, f.key)| <= 1) ==>
              (Hit(py, es, d, ToQuery(ts, conj, kbs)) <==> SelectedAll(py, metas, filters, conj, d.id))
  {
    hide Hit, ToQuery, SelectedAll, Uniform;
    ListIsIncluded(py, es, metas, docs, kbs, filters, ts, conj, d);
    if forall f | f in filters && IsNegative(f.op) :: |Values(d, f.key)| <= 1 {
      forall f | f in filters ensures Alike(py, es, d, f) {
        if IsNegative(f.op) { SingleIsUniform(py, d, f); }
      }
      ListIsExact(py, es, metas, docs, kbs, filters, ts, conj, d);
    }
  }

  /** The main theorem of the push-down: for every non-empty list of `=`, `in` over a
      list, `contains`, `start with` and `end with` filters of the text fragment, under
      AND and under OR, for documents with any number of values, the rendered query
      selects exactly the documents in scope that `meta_filter` returns. */
  lemma PushdownIsExact(py: Env, es: Engine, metas: Metas, docs: set<Doc>, kbs: seq<string>,
                        filters: seq<Filter>, ts: seq<Translated>, conj: bool, d: Doc)
    requires Setting(py, metas, docs, kbs) && d in docs && d.kb in kbs
    requires filters != [] && (forall f | f in filters :: InFragment(py, f) && IsPositive(f.op))
    requires Translates(py, filters, ts)
    ensures Hit(py, es, d, ToQuery(ts, conj, kbs)) <==> SelectedAll(py, metas, filters, conj, d.id)
  {
    hide Hit, ToQuery, SelectedAll;
    ListIsExact(py, es, metas, docs, kbs, filters, ts, conj, d);
  }

  /** Documents out of scope are selected by neither side. */
  lemma OutOfScope(py: Env, es: Engine, metas: Metas, docs: set<Doc>, kbs: seq<string>,
                   filters: seq<Filter>, ts: seq<Translated>, conj: bool, d: Doc)
    requires Inverts(metas, docs, kbs) && UniqueIds(docs) && d in docs && d.kb !in kbs
    ensures !Hit(py, es, d, ToQuery(ts, conj, kbs)) && !SelectedAll(py, metas, filters, conj, d.id)
  {
    forall f
      ensures !Selected(py, metas, f, d.id)
    {
      forall v
        ensures !InBucket(metas, f.key, v, d.id)
      {}
    }
    if filters != [] { assert filters[0] in filters; }
  }

  /** An empty filter list would make the query match every document in scope, while
      `meta_filter` returns none: the routing must not push it down. */
  lemma EmptyListDiverges(py: Env, es: Engine, metas: Metas, kbs: seq<string>, conj: bool, d: Doc)
    requires d.kb in kbs
    ensures Hit(py, es, d, ToQuery([], conj, kbs)) && !SelectedAll(py, metas, [], conj, d.id)
  {}
}
