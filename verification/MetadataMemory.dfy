/** The in-memory metadata filter, the reference semantics of common/metadata_utils.py:
    `meta_filter` over the inverted map key -> value -> documents.  Python's `strip`,
    `ast.literal_eval`, `str`, its order on values and the per-character lower-casing are
    parameters shared with the search-engine side. */
module MetadataMemory {
  import opened Basics
  import opened Patterns

  datatype Op =
    | Eq | Ne | In | NotIn | Contain | NotContain | StartWith | EndWith | Empty | NotEmpty
    | Range(cmp: Comparison)

  /** A filter value: a string, a list of strings, or None. */
  datatype Operand = Text(text: string) | Texts(items: seq<string>) | Missing

  datatype Filter = Filter(op: Op, key: string, value: Operand)

  /** What `ast.literal_eval` may produce: a string, a list of strings, or a number. */
  datatype Python = PyText(text: string) | PyTexts(items: seq<string>) | PyOther(id: int)

  datatype Env = Env(
    lower: char -> char,
    strip: string -> string,
    literal: string -> Option<Python>,
    str: Operand -> string,
    order: (Comparison, Python, Python) -> bool)

  /** Lower-casing twice changes nothing more, and stripping yields a piece of the text. */
  ghost predicate Sane(py: Env) {
    && (forall c :: py.lower(py.lower(c)) == py.lower(c))
    && (forall s :: Contains(s, py.strip(s)))
  }

  function Lower(py: Env, s: string): string { seq(|s|, i requires 0 <= i < |s| => py.lower(s[i])) }

  lemma LowerTwice(py: Env, s: string)
    requires Sane(py)
    ensures Lower(py, Lower(py, s)) == Lower(py, s)
  {}

  /** `YYYY-MM-DD` */
  predicate IsDate(s: string) {
    |s| == 10 && s[4] == '-' && s[7] == '-'
    && forall i | 0 <= i < 10 && i != 4 && i != 7 :: IsDigit(s[i])
  }

  function LowerPython(py: Env, p: Python): Python {
    match p
    case PyText(s) => PyText(Lower(py, s))
    case _ => p
  }

  /** What is compared for a bucket value and a text operand: both sides as dates, both as
      literals, or both as lower-cased strings; `None` when the bucket is skipped. */
  function Sides(py: Env, input: string, text: string): Option<(Python, Python)> {
    var i, t := py.strip(input), py.strip(text);
    if IsDate(t) then (if IsDate(i) then Some((PyText(i), PyText(t))) else None)
    else if py.literal(input).Some? && py.literal(text).Some?
    then Some((LowerPython(py, py.literal(input).value), LowerPython(py, py.literal(text).value)))
    else Some((PyText(Lower(py, input)), PyText(Lower(py, text))))
  }

  function SameValue(py: Env, input: string, text: string): Option<bool> {
    match Sides(py, input, text)
    case None => None
    case Some((i, t)) => Some(i == t)
  }

  predicate InOrder(py: Env, cmp: Comparison, input: string, text: string) {
    match Sides(py, input, text)
    case None => false
    case Some((i, t)) => py.order(cmp, i, t)
  }

  function TextOf(py: Env, v: Operand): string { if v.Text? then v.text else py.str(v) }

  /** Whether the bucket `input` matches; a Python exception counts as no match. */
  predicate Bucket(py: Env, op: Op, input: string, v: Operand) {
    match op
    case Eq => v.Text? && SameValue(py, input, v.text) == Some(true)
    case Ne => !v.Text? || SameValue(py, input, v.text) == Some(false)
    case In =>
      match v {
        case Text(t) => Contains(Lower(py, t), Lower(py, input))
        case Texts(items) => exists m | m in items :: Lower(py, m) == Lower(py, input)
        case Missing => false
      }
    case NotIn =>
      match v {
        case Text(t) => !Contains(Lower(py, t), Lower(py, input))
        case Texts(items) => forall m | m in items :: Lower(py, m) != Lower(py, input)
        case Missing => false
      }
    case Contain => v.Text? && Contains(Lower(py, input), Lower(py, v.text))
    case NotContain => v.Text? && !Contains(Lower(py, input), Lower(py, v.text))
    case StartWith => StartsWith(Lower(py, Lower(py, input)), Lower(py, Lower(py, TextOf(py, v))))
    case EndWith => EndsWith(Lower(py, Lower(py, input)), Lower(py, Lower(py, TextOf(py, v))))
    case Empty => input == ""
    case NotEmpty => input != ""
    case Range(cmp) => v.Text? && InOrder(py, cmp, input, v.text)
  }

  /** How each operator and its negation stand to each other on a bucket: `in`, `contains` and
      `empty` have their complement wherever the operand can be searched at all; `≠` is the
      complement of `=`, but a value that is no date is skipped by both against a date.  An
      operand Python cannot compare or search a text with matches nothing, and differs. */
  lemma Negations(py: Env, input: string, v: Operand)
    ensures !v.Missing? ==> (Bucket(py, NotIn, input, v) <==> !Bucket(py, In, input, v))
    ensures v.Missing? ==> !Bucket(py, In, input, v) && !Bucket(py, NotIn, input, v)
    ensures !v.Text? ==> !Bucket(py, Eq, input, v) && Bucket(py, Ne, input, v)
    ensures !v.Text? ==> !Bucket(py, Contain, input, v) && !Bucket(py, NotContain, input, v)
    ensures !v.Text? ==> forall cmp :: !Bucket(py, Range(cmp), input, v)
    ensures v.Text? ==> (Bucket(py, NotContain, input, v) <==> !Bucket(py, Contain, input, v))
    ensures Bucket(py, NotEmpty, input, v) <==> !Bucket(py, Empty, input, v)
    ensures v.Text? ==>
              var skipped := IsDate(py.strip(v.text)) && !IsDate(py.strip(input));
              && (skipped ==> !Bucket(py, Eq, input, v) && !Bucket(py, Ne, input, v))
              && (!skipped ==> (Bucket(py, Ne, input, v) <==> !Bucket(py, Eq, input, v)))
  {
  }

  /** What equality in memory means for every text operand: two dates are compared as
      written, two literals as values, and everything else as lower-cased texts. */
  lemma EqualInMemory(py: Env, input: string, t: string)
    ensures Bucket(py, Eq, input, Text(t)) <==>
              if IsDate(py.strip(t)) then py.strip(input) == py.strip(t)
              else if py.literal(input).Some? && py.literal(t).Some?
              then LowerPython(py, py.literal(input).value) == LowerPython(py, py.literal(t).value)
              else Lower(py, input) == Lower(py, t)
  {
  }

  /** A range compares what equality compares: whenever the order holds of equal values, a
      bucket that is equal is in range. */
  lemma EqualIsInRange(py: Env, cmp: Comparison, input: string, t: string)
    requires forall p :: py.order(cmp, p, p)
    ensures Bucket(py, Eq, input, Text(t)) ==> Bucket(py, Range(cmp), input, Text(t))
  {
  }

  type DocId = string
  type Buckets = map<string, seq<DocId>>
  type Metas = map<string, Buckets>

  predicate InBucket(metas: Metas, key: string, value: string, id: DocId) {
    key in metas && value in metas[key] && id in metas[key][value]
  }

  /** Some bucket of the filter's key matches and holds the document. */
  ghost predicate Selected(py: Env, metas: Metas, f: Filter, id: DocId) {
    exists v :: InBucket(metas, f.key, v, id) && Bucket(py, f.op, v, f.value)
  }

  /** What a filter list selects. */
  ghost predicate SelectedAll(py: Env, metas: Metas, filters: seq<Filter>, conj: bool, id: DocId) {
    filters != [] &&
    if conj then forall f | f in filters :: Selected(py, metas, f, id)
    else exists f | f in filters :: Selected(py, metas, f, id)
  }

  /** `filter_out`: the loop over the buckets of one key. */
  method FilterOut(py: Env, buckets: Buckets, op: Op, value: Operand) returns (ids: seq<DocId>)
    ensures forall id :: id in ids <==> exists v :: v in buckets && id in buckets[v] && Bucket(py, op, v, value)
  {
    ids := [];
    var left := buckets.Keys;
    while left != {}
      invariant left <= buckets.Keys
      invariant forall id :: id in ids <==>
                  exists v :: v in buckets && v !in left && id in buckets[v] && Bucket(py, op, v, value)
      decreases |left|
    {
      var input :| input in left;
      ghost var before := ids;
      if Bucket(py, op, input, value) {
        ids := ids + buckets[input];
      }
      forall id
        ensures id in ids <==>
                  exists v :: v in buckets && v !in left - {input} && id in buckets[v] && Bucket(py, op, v, value)
      {
        if id in before {
          var v :| v in buckets && v !in left && id in buckets[v] && Bucket(py, op, v, value);
        } else if id in ids {
          assert id in buckets[input];
        }
      }
      left := left - {input};
    }
  }

  /** `meta_filter`: intersect or unite filter by filter, with the early return on an
      empty intersection. */
  method MetaFilter(py: Env, metas: Metas, filters: seq<Filter>, conj: bool) returns (ids: set<DocId>)
    ensures forall id :: id in ids <==> SelectedAll(py, metas, filters, conj, id)
  {
    var docIds: Option<set<DocId>> := None;
    var n := 0;
    while n < |filters|
      invariant 0 <= n <= |filters| && (docIds.None? <==> n == 0)
      invariant docIds.Some? ==> forall id :: id in docIds.value <==> SelectedAll(py, metas, filters[..n], conj, id)
    {
      var f := filters[n];
      var found: seq<DocId> := [];
      if f.key in metas {
        found := FilterOut(py, metas[f.key], f.op, f.value);
      }
      var set' := set id | id in found;
      forall id
        ensures id in set' <==> Selected(py, metas, f, id)
      {
        if id in found {
          var v :| v in metas[f.key] && id in metas[f.key][v] && Bucket(py, f.op, v, f.value);
          assert InBucket(metas, f.key, v, id);
        }
      }
      assert filters[..n + 1] == filters[..n] + [f];
      if docIds.None? {
        docIds := Some(set');
        assert forall id :: id in set' <==> SelectedAll(py, metas, filters[..n + 1], conj, id);
      } else if conj {
        docIds := Some(docIds.value * set');
        if docIds.value == {} {
          forall id
            ensures !SelectedAll(py, metas, filters, conj, id)
          {
            assert id !in docIds.value;
            assert forall g | g in filters[..n + 1] :: g in filters;
          }
          return {};
        }
      } else {
        docIds := Some(docIds.value + set');
        assert f in filters[..n + 1];
      }
      n := n + 1;
    }
    assert filters[..n] == filters;
    ids := if docIds.Some? then docIds.value else {};
  }
}
