/** Canonical keys for nested values that cannot be hashed (common/misc_utils.py). Sets and
    dictionaries list their members in some order; equality ignores that order. */
module CanonKeys {

  /** Values that are neither containers nor unhashable, up to equality: texts, and the
      rest by a number for each class of equal values. */
  datatype Atom = Text(text: string) | Other(number: int)

  datatype Value =
    | Leaf(atom: Atom)
    | List(items: seq<Value>)
    | Tuple(items: seq<Value>)
    | Set(frozen: bool, members: seq<Value>)
    | Dict(entries: seq<Entry>)

  datatype Entry = Entry(key: Value, value: Value)

  // ------------------------------------------------------------------ equality

  /** Python's `==`: lists and tuples item by item, sets when each holds the members of
      the other, frozen or not, dictionaries when they have the same pairs. */
  ghost predicate Equal(a: Value, b: Value)
    decreases a, 0
  {
    match a
    case Leaf(atom) => b == a
    case List(items) =>
      b.List? && |b.items| == |items| && forall i | 0 <= i < |items| :: Equal(items[i], b.items[i])
    case Tuple(items) =>
      b.Tuple? && |b.items| == |items| && forall i | 0 <= i < |items| :: Equal(items[i], b.items[i])
    case Set(_, members) =>
      && b.Set?
      && (forall i | 0 <= i < |members| :: InRight(members[i], b.members))
      && (forall j | 0 <= j < |b.members| :: InLeft(members, b.members[j]))
    case Dict(entries) =>
      && b.Dict?
      && (forall i | 0 <= i < |entries| :: PairInRight(entries[i], b.entries))
      && (forall j | 0 <= j < |b.entries| :: PairInLeft(entries, b.entries[j]))
  }

  ghost predicate InRight(x: Value, ys: seq<Value>)
    decreases x, 1
  {
    exists j | 0 <= j < |ys| :: Equal(x, ys[j])
  }

  ghost predicate InLeft(xs: seq<Value>, y: Value)
    decreases xs, 1
  {
    exists i | 0 <= i < |xs| :: Equal(xs[i], y)
  }

  ghost predicate PairInRight(x: Entry, ys: seq<Entry>)
    decreases x, 1
  {
    exists j | 0 <= j < |ys| :: EqualPair(x, ys[j])
  }

  ghost predicate PairInLeft(xs: seq<Entry>, y: Entry)
    decreases xs, 1
  {
    exists i | 0 <= i < |xs| :: EqualPair(xs[i], y)
  }

  ghost predicate EqualPair(x: Entry, y: Entry)
    decreases x, 0
  {
    Equal(x.key, y.key) && Equal(x.value, y.value)
  }

  predicate Hashable(v: Value) {
    match v
    case Leaf(_) => true
    case Tuple(items) => forall i | 0 <= i < |items| :: Hashable(items[i])
    case Set(frozen, _) => frozen
    case _ => false
  }

  /** Values Python can build: set members and dictionary keys are hashable. */
  predicate Buildable(v: Value) {
    match v
    case Leaf(_) => true
    case List(items) => forall i | 0 <= i < |items| :: Buildable(items[i])
    case Tuple(items) => forall i | 0 <= i < |items| :: Buildable(items[i])
    case Set(_, members) => forall i | 0 <= i < |members| :: Hashable(members[i]) && Buildable(members[i])
    case Dict(entries) => forall i | 0 <= i < |entries| ::
      Hashable(entries[i].key) && Buildable(entries[i].key) && Buildable(entries[i].value)
  }

  lemma {:induction false} EqualToItself(v: Value)
    ensures Equal(v, v)
  {
    match v
    case Leaf(_) =>
    case List(items) => forall i | 0 <= i < |items| ensures Equal(items[i], items[i]) { EqualToItself(items[i]); }
    case Tuple(items) => forall i | 0 <= i < |items| ensures Equal(items[i], items[i]) { EqualToItself(items[i]); }
    case Set(_, members) =>
      forall i | 0 <= i < |members| ensures InRight(members[i], members) && InLeft(members, members[i]) {
        EqualToItself(members[i]);
      }
    case Dict(entries) =>
      forall i | 0 <= i < |entries| ensures PairInRight(entries[i], entries) && PairInLeft(entries, entries[i]) {
        EqualToItself(entries[i].key);
        EqualToItself(entries[i].value);
        assert EqualPair(entries[i], entries[i]);
      }
  }

  lemma EqualPairToItself(e: Entry)
    ensures EqualPair(e, e)
  {
    EqualToItself(e.key);
    EqualToItself(e.value);
  }

  lemma {:induction false} EqualSymmetric(a: Value, b: Value)
    requires Equal(a, b)
    ensures Equal(b, a)
    decreases a, 2
  {
    match a
    case Leaf(_) =>
    case List(items) =>
      forall i | 0 <= i < |items| ensures Equal(b.items[i], items[i]) { EqualSymmetric(items[i], b.items[i]); }
    case Tuple(items) =>
      forall i | 0 <= i < |items| ensures Equal(b.items[i], items[i]) { EqualSymmetric(items[i], b.items[i]); }
    case Set(_, members) => SetsSymmetric(a, b);
    case Dict(entries) => DictsSymmetric(a, b);
  }

  lemma {:induction false} SetsSymmetric(a: Value, b: Value)
    requires a.Set? && b.Set? && Equal(a, b)
    ensures Equal(b, a)
    decreases a, 1
  {
    hide Equal, InRight, InLeft;
    SetsEqual(a, b);
    SetsEqual(b, a);
    forall j | 0 <= j < |b.members| ensures InRight(b.members[j], a.members) { LeftBecomesRight(a, b.members[j]); }
    forall i | 0 <= i < |a.members| ensures InLeft(b.members, a.members[i]) { RightBecomesLeft(a.members[i], b.members); }
  }

  lemma {:induction false} LeftBecomesRight(a: Value, y: Value)
    requires a.Set? && InLeft(a.members, y)
    ensures InRight(y, a.members)
    decreases a, 0
  {
    hide Equal;
    var i :| 0 <= i < |a.members| && Equal(a.members[i], y);
    EqualSymmetric(a.members[i], y);
  }

  lemma {:induction false} RightBecomesLeft(x: Value, ys: seq<Value>)
    requires InRight(x, ys)
    ensures InLeft(ys, x)
    decreases x, 3
  {
    hide Equal;
    var j :| 0 <= j < |ys| && Equal(x, ys[j]);
    EqualSymmetric(x, ys[j]);
  }

  lemma {:induction false} DictsSymmetric(a: Value, b: Value)
    requires a.Dict? && b.Dict? && Equal(a, b)
    ensures Equal(b, a)
    decreases a, 1
  {
    hide Equal, PairInRight, PairInLeft;
    DictsEqual(a, b);
    DictsEqual(b, a);
    forall j | 0 <= j < |b.entries| ensures PairInRight(b.entries[j], a.entries) { PairLeftBecomesRight(a, b.entries[j]); }
    forall i | 0 <= i < |a.entries| ensures PairInLeft(b.entries, a.entries[i]) {
      PairRightBecomesLeft(a.entries[i], b.entries);
    }
  }

  lemma {:induction false} PairSymmetric(x: Entry, y: Entry)
    requires EqualPair(x, y)
    ensures EqualPair(y, x)
    decreases x, 2
  {
    hide Equal;
    EqualSymmetric(x.key, y.key);
    EqualSymmetric(x.value, y.value);
  }

  lemma {:induction false} PairLeftBecomesRight(a: Value, y: Entry)
    requires a.Dict? && PairInLeft(a.entries, y)
    ensures PairInRight(y, a.entries)
    decreases a, 0
  {
    hide Equal, EqualPair;
    var i :| 0 <= i < |a.entries| && EqualPair(a.entries[i], y);
    PairSymmetric(a.entries[i], y);
  }

  lemma {:induction false} PairRightBecomesLeft(x: Entry, ys: seq<Entry>)
    requires PairInRight(x, ys)
    ensures PairInLeft(ys, x)
    decreases x, 3
  {
    hide Equal, EqualPair;
    var j :| 0 <= j < |ys| && EqualPair(x, ys[j]);
    PairSymmetric(x, ys[j]);
  }

  lemma {:induction false} EqualTransitive(a: Value, b: Value, c: Value)
    requires Equal(a, b) && Equal(b, c)
    ensures Equal(a, c)
    decreases a, 2
  {
    match a
    case Leaf(_) =>
    case List(items) =>
      forall i | 0 <= i < |items| ensures Equal(items[i], c.items[i]) { EqualTransitive(items[i], b.items[i], c.items[i]); }
    case Tuple(items) =>
      forall i | 0 <= i < |items| ensures Equal(items[i], c.items[i]) { EqualTransitive(items[i], b.items[i], c.items[i]); }
    case Set(_, members) => SetsTransitive(a, b, c);
    case Dict(entries) => DictsTransitive(a, b, c);
  }

  lemma {:induction false} SetsTransitive(a: Value, b: Value, c: Value)
    requires a.Set? && b.Set? && c.Set? && Equal(a, b) && Equal(b, c)
    ensures Equal(a, c)
    decreases a, 1
  {
    hide Equal, InRight, InLeft;
    SetsEqual(a, b);
    SetsEqual(b, c);
    SetsEqual(a, c);
    forall i | 0 <= i < |a.members| ensures InRight(a.members[i], c.members) {
      RightTransitive(a.members[i], b.members, c.members);
    }
    forall k | 0 <= k < |c.members| ensures InLeft(a.members, c.members[k]) {
      LeftTransitive(a, b.members, c.members[k]);
    }
  }

  lemma {:induction false} RightTransitive(x: Value, ys: seq<Value>, zs: seq<Value>)
    requires InRight(x, ys) && forall j | 0 <= j < |ys| :: InRight(ys[j], zs)
    ensures InRight(x, zs)
    decreases x, 3
  {
    hide Equal;
    var j :| 0 <= j < |ys| && Equal(x, ys[j]);
    assert InRight(ys[j], zs);
    var k :| 0 <= k < |zs| && Equal(ys[j], zs[k]);
    EqualTransitive(x, ys[j], zs[k]);
  }

  lemma {:induction false} LeftTransitive(a: Value, ys: seq<Value>, z: Value)
    requires a.Set? && InLeft(ys, z) && forall j | 0 <= j < |ys| :: InLeft(a.members, ys[j])
    ensures InLeft(a.members, z)
    decreases a, 0
  {
    hide Equal;
    var j :| 0 <= j < |ys| && Equal(ys[j], z);
    assert InLeft(a.members, ys[j]);
    var i :| 0 <= i < |a.members| && Equal(a.members[i], ys[j]);
    EqualTransitive(a.members[i], ys[j], z);
  }

  lemma {:induction false} DictsTransitive(a: Value, b: Value, c: Value)
    requires a.Dict? && b.Dict? && c.Dict? && Equal(a, b) && Equal(b, c)
    ensures Equal(a, c)
    decreases a, 1
  {
    hide Equal, PairInRight, PairInLeft;
    DictsEqual(a, b);
    DictsEqual(b, c);
    DictsEqual(a, c);
    forall i | 0 <= i < |a.entries| ensures PairInRight(a.entries[i], c.entries) {
      PairRightTransitive(a.entries[i], b.entries, c.entries);
    }
    forall k | 0 <= k < |c.entries| ensures PairInLeft(a.entries, c.entries[k]) {
      PairLeftTransitive(a, b.entries, c.entries[k]);
    }
  }

  lemma {:induction false} PairTransitive(x: Entry, y: Entry, z: Entry)
    requires EqualPair(x, y) && EqualPair(y, z)
    ensures EqualPair(x, z)
    decreases x, 2
  {
    hide Equal;
    EqualTransitive(x.key, y.key, z.key);
    EqualTransitive(x.value, y.value, z.value);
  }

  lemma {:induction false} PairRightTransitive(x: Entry, ys: seq<Entry>, zs: seq<Entry>)
    requires PairInRight(x, ys) && forall j | 0 <= j < |ys| :: PairInRight(ys[j], zs)
    ensures PairInRight(x, zs)
    decreases x, 3
  {
    hide Equal, EqualPair;
    var j :| 0 <= j < |ys| && EqualPair(x, ys[j]);
    assert PairInRight(ys[j], zs);
    var k :| 0 <= k < |zs| && EqualPair(ys[j], zs[k]);
    PairTransitive(x, ys[j], zs[k]);
  }

  lemma {:induction false} PairLeftTransitive(a: Value, ys: seq<Entry>, z: Entry)
    requires a.Dict? && PairInLeft(ys, z) && forall j | 0 <= j < |ys| :: PairInLeft(a.entries, ys[j])
    ensures PairInLeft(a.entries, z)
    decreases a, 0
  {
    hide Equal, EqualPair;
    var j :| 0 <= j < |ys| && EqualPair(ys[j], z);
    assert PairInLeft(a.entries, ys[j]);
    var i :| 0 <= i < |a.entries| && EqualPair(a.entries[i], ys[j]);
    PairTransitive(a.entries[i], ys[j], z);
  }

  // ------------------------------------------------------------------ the canonical form

  function Tagged(tag: string, body: Value): Value { Tuple([Leaf(Text(tag)), body]) }

  function Pair(key: Value, value: Value): Value { Tuple([key, value]) }

  /** Itself a value: a tag with a tuple or a frozen set. A dictionary keeps its keys. */
  function Canonicalize(v: Value): Value {
    match v
    case Leaf(_) => v
    case List(items) => Tagged("__list__", Tuple(seq(|items|, i requires 0 <= i < |items| => Canonicalize(items[i]))))
    case Tuple(items) => Tagged("__tuple__", Tuple(seq(|items|, i requires 0 <= i < |items| => Canonicalize(items[i]))))
    case Set(_, members) =>
      Tagged("__set__", Set(true, seq(|members|, i requires 0 <= i < |members| => Canonicalize(members[i]))))
    case Dict(entries) =>
      Tagged("__dict__", Set(true, seq(|entries|, i requires 0 <= i < |entries| =>
        Pair(entries[i].key, Canonicalize(entries[i].value)))))
  }

  lemma TaggedEqual(s: string, x: Value, t: string, y: Value)
    ensures Equal(Tagged(s, x), Tagged(t, y)) <==> s == t && Equal(x, y)
  {
    var a, b := Tagged(s, x).items, Tagged(t, y).items;
    assert a[0] == Leaf(Text(s)) && b[0] == Leaf(Text(t)) && a[1] == x && b[1] == y;
  }

  lemma PairEqual(k: Value, x: Value, l: Value, y: Value)
    ensures Equal(Pair(k, x), Pair(l, y)) <==> Equal(k, l) && Equal(x, y)
  {
    var a, b := Pair(k, x).items, Pair(l, y).items;
    assert a[0] == k && a[1] == x && b[0] == l && b[1] == y;
  }

  function Tag(v: Value): string
    requires !v.Leaf?
  {
    match v
    case List(_) => "__list__"
    case Tuple(_) => "__tuple__"
    case Set(_, _) => "__set__"
    case Dict(_) => "__dict__"
  }

  lemma TagsApart(a: Value, b: Value)
    requires !a.Leaf? && !b.Leaf? && Tag(a) == Tag(b)
    ensures (a.List? <==> b.List?) && (a.Tuple? <==> b.Tuple?) && (a.Set? <==> b.Set?) && (a.Dict? <==> b.Dict?)
  {
    assert |"__list__"| == 8 && |"__tuple__"| == 9 && |"__set__"| == 7 && |"__dict__"| == 8;
    assert "__list__"[2] == 'l' && "__dict__"[2] == 'd';
  }

  function Body(v: Value): Value
    requires !v.Leaf?
    ensures Canonicalize(v) == Tagged(Tag(v), Body(v))
  {
    Canonicalize(v).items[1]
  }

  lemma ItemsEqual(a: seq<Value>, b: seq<Value>, x: seq<Value>, y: seq<Value>)
    requires |x| == |a| && |y| == |b|
    requires forall i, j | 0 <= i < |a| && 0 <= j < |b| :: Equal(x[i], y[j]) <==> Equal(a[i], b[j])
    ensures Equal(Tuple(x), Tuple(y)) <==> Equal(List(a), List(b))
    ensures Equal(Tuple(x), Tuple(y)) <==> Equal(Tuple(a), Tuple(b))
  {
    if |a| == |b| {
      assert forall i | 0 <= i < |a| :: Equal(x[i], y[i]) <==> Equal(a[i], b[i]);
    }
  }

  lemma InRightAlike(v: Value, ws: seq<Value>, x: Value, ys: seq<Value>)
    requires |ys| == |ws| && forall j | 0 <= j < |ws| :: Equal(x, ys[j]) <==> Equal(v, ws[j])
    ensures InRight(x, ys) <==> InRight(v, ws)
  {
    hide Equal;
  }

  lemma InLeftAlike(vs: seq<Value>, w: Value, xs: seq<Value>, y: Value)
    requires |xs| == |vs| && forall i | 0 <= i < |vs| :: Equal(xs[i], y) <==> Equal(vs[i], w)
    ensures InLeft(xs, y) <==> InLeft(vs, w)
  {
    hide Equal;
  }

  lemma PairInRightAlike(v: Entry, ws: seq<Entry>, x: Value, ys: seq<Value>)
    requires |ys| == |ws| && forall j | 0 <= j < |ws| :: Equal(x, ys[j]) <==> EqualPair(v, ws[j])
    ensures InRight(x, ys) <==> PairInRight(v, ws)
  {
    hide Equal, EqualPair;
  }

  lemma PairInLeftAlike(vs: seq<Entry>, w: Entry, xs: seq<Value>, y: Value)
    requires |xs| == |vs| && forall i | 0 <= i < |vs| :: Equal(xs[i], y) <==> EqualPair(vs[i], w)
    ensures InLeft(xs, y) <==> PairInLeft(vs, w)
  {
    hide Equal, EqualPair;
  }

  lemma SetsEqual(a: Value, b: Value)
    requires a.Set? && b.Set?
    ensures Equal(a, b) <==>
            && (forall i | 0 <= i < |a.members| :: InRight(a.members[i], b.members))
            && (forall j | 0 <= j < |b.members| :: InLeft(a.members, b.members[j]))
  {
    hide InRight, InLeft;
  }

  lemma DictsEqual(a: Value, b: Value)
    requires a.Dict? && b.Dict?
    ensures Equal(a, b) <==>
            && (forall i | 0 <= i < |a.entries| :: PairInRight(a.entries[i], b.entries))
            && (forall j | 0 <= j < |b.entries| :: PairInLeft(a.entries, b.entries[j]))
  {
    hide PairInRight, PairInLeft;
  }

  lemma MembersEqual(a: Value, b: Value, x: seq<Value>, y: seq<Value>)
    requires a.Set? && b.Set? && |x| == |a.members| && |y| == |b.members|
    requires forall i, j | 0 <= i < |x| && 0 <= j < |y| :: Equal(x[i], y[j]) <==> Equal(a.members[i], b.members[j])
    ensures Equal(Set(true, x), Set(true, y)) <==> Equal(a, b)
  {
    hide Equal, InRight, InLeft;
    SetsEqual(a, b);
    SetsEqual(Set(true, x), Set(true, y));
    forall i | 0 <= i < |x| ensures InRight(x[i], y) <==> InRight(a.members[i], b.members) {
      InRightAlike(a.members[i], b.members, x[i], y);
    }
    forall j | 0 <= j < |y| ensures InLeft(x, y[j]) <==> InLeft(a.members, b.members[j]) {
      InLeftAlike(a.members, b.members[j], x, y[j]);
    }
  }

  lemma EntriesEqual(a: Value, b: Value, x: seq<Value>, y: seq<Value>)
    requires a.Dict? && b.Dict? && |x| == |a.entries| && |y| == |b.entries|
    requires forall i, j | 0 <= i < |x| && 0 <= j < |y| :: Equal(x[i], y[j]) <==> EqualPair(a.entries[i], b.entries[j])
    ensures Equal(Set(true, x), Set(true, y)) <==> Equal(a, b)
  {
    hide Equal, EqualPair, InRight, InLeft, PairInRight, PairInLeft;
    DictsEqual(a, b);
    SetsEqual(Set(true, x), Set(true, y));
    forall i | 0 <= i < |x| ensures InRight(x[i], y) <==> PairInRight(a.entries[i], b.entries) {
      PairInRightAlike(a.entries[i], b.entries, x[i], y);
    }
    forall j | 0 <= j < |y| ensures InLeft(x, y[j]) <==> PairInLeft(a.entries, b.entries[j]) {
      PairInLeftAlike(a.entries, b.entries[j], x, y[j]);
    }
  }

  /** Canonical forms are equal exactly when the values are. */
  lemma {:induction false} CanonicalFormsEqualIff(a: Value, b: Value)
    ensures Equal(Canonicalize(a), Canonicalize(b)) <==> Equal(a, b)
    decreases a
  {
    if !a.Leaf? && !b.Leaf? {
      TaggedEqual(Tag(a), Body(a), Tag(b), Body(b));
      if Tag(a) == Tag(b) {
        TagsApart(a, b);
        BodiesEqualIff(a, b);
      }
    }
  }

  lemma {:induction false} BodiesEqualIff(a: Value, b: Value)
    requires !a.Leaf? && !b.Leaf?
    requires (a.List? <==> b.List?) && (a.Tuple? <==> b.Tuple?) && (a.Set? <==> b.Set?) && (a.Dict? <==> b.Dict?)
    ensures Equal(Body(a), Body(b)) <==> Equal(a, b)
    decreases a, 0
  {
    match a
    case List(_) => SequencesEqualIff(a, b);
    case Tuple(_) => SequencesEqualIff(a, b);
    case Set(_, _) =>
      var x, y := Body(a).members, Body(b).members;
      forall i, j | 0 <= i < |x| && 0 <= j < |y|
        ensures Equal(x[i], y[j]) <==> Equal(a.members[i], b.members[j])
      {
        CanonicalFormsEqualIff(a.members[i], b.members[j]);
      }
      MembersEqual(a, b, x, y);
    case Dict(_) =>
      var x, y := Body(a).members, Body(b).members;
      forall i, j | 0 <= i < |x| && 0 <= j < |y|
        ensures Equal(x[i], y[j]) <==> EqualPair(a.entries[i], b.entries[j])
      {
        var e, f := a.entries[i], b.entries[j];
        PairEqual(e.key, Canonicalize(e.value), f.key, Canonicalize(f.value));
        CanonicalFormsEqualIff(e.value, f.value);
      }
      EntriesEqual(a, b, x, y);
  }

  lemma {:induction false} SequencesEqualIff(a: Value, b: Value)
    requires (a.List? && b.List?) || (a.Tuple? && b.Tuple?)
    ensures Equal(Body(a), Body(b)) <==> Equal(a, b)
    decreases a, -1
  {
    var x, y := Body(a).items, Body(b).items;
    forall i, j | 0 <= i < |x| && 0 <= j < |y| ensures Equal(x[i], y[j]) <==> Equal(a.items[i], b.items[j]) {
      CanonicalFormsEqualIff(a.items[i], b.items[j]);
    }
    ItemsEqual(a.items, b.items, x, y);
  }

  /** The canonical form of a value Python can build can itself be built and hashed. */
  lemma {:induction false} CanonicalFormHashable(v: Value)
    requires Buildable(v)
    ensures Buildable(Canonicalize(v)) && Hashable(Canonicalize(v))
  {
    match v
    case Leaf(_) =>
    case List(items) =>
      forall i | 0 <= i < |items| ensures Buildable(Canonicalize(items[i])) && Hashable(Canonicalize(items[i])) {
        CanonicalFormHashable(items[i]);
      }
      assert Hashable(Body(v)) && Buildable(Body(v));
    case Tuple(items) =>
      forall i | 0 <= i < |items| ensures Buildable(Canonicalize(items[i])) && Hashable(Canonicalize(items[i])) {
        CanonicalFormHashable(items[i]);
      }
      assert Hashable(Body(v)) && Buildable(Body(v));
    case Set(_, members) =>
      forall i | 0 <= i < |members| ensures Buildable(Canonicalize(members[i])) && Hashable(Canonicalize(members[i])) {
        CanonicalFormHashable(members[i]);
      }
      assert Hashable(Body(v)) && Buildable(Body(v));
    case Dict(entries) =>
      forall i | 0 <= i < |entries|
        ensures Buildable(Body(v).members[i]) && Hashable(Body(v).members[i])
      {
        CanonicalFormHashable(entries[i].value);
      }
      assert Hashable(Body(v)) && Buildable(Body(v));
  }

  /** The order in which a dictionary lists its pairs does not reach the canonical form. */
  lemma OrderIgnored(a: seq<Entry>, b: seq<Entry>)
    requires forall e :: e in a <==> e in b
    ensures Equal(Canonicalize(Dict(a)), Canonicalize(Dict(b)))
  {
    hide Equal, EqualPair;
    forall i | 0 <= i < |a| ensures PairInRight(a[i], b) {
      assert a[i] in b;
      var j :| 0 <= j < |b| && b[j] == a[i];
      EqualPairToItself(b[j]);
    }
    forall j | 0 <= j < |b| ensures PairInLeft(a, b[j]) {
      assert b[j] in a;
      var i :| 0 <= i < |a| && a[i] == b[j];
      EqualPairToItself(a[i]);
    }
    DictsEqual(Dict(a), Dict(b));
    CanonicalFormsEqualIff(Dict(a), Dict(b));
  }

  // ------------------------------------------------------------------ hashable_key

  /** A key: the value itself, or the wrapper `_CanonKey` around a canonical form. */
  datatype Key = Plain(value: Value) | Wrapped(form: Value)

  function HashableKey(v: Value): Key { if Hashable(v) then Plain(v) else Wrapped(Canonicalize(v)) }

  /** A wrapper is equal to wrappers only. */
  ghost predicate SameKey(k: Key, l: Key) {
    match (k, l)
    case (Plain(a), Plain(b)) => Equal(a, b)
    case (Wrapped(a), Wrapped(b)) => Equal(a, b)
    case _ => false
  }

  /** Keys are equal exactly when the values are and both or neither can be hashed. */
  lemma SameKeyIff(a: Value, b: Value)
    ensures SameKey(HashableKey(a), HashableKey(b)) <==> Equal(a, b) && (Hashable(a) <==> Hashable(b))
  {
    CanonicalFormsEqualIff(a, b);
  }

  /** Whether a set, or a list or dictionary, lies under tuples only. */
  predicate HoldsSet(v: Value) {
    v.Set? || (v.Tuple? && exists i | 0 <= i < |v.items| :: HoldsSet(v.items[i]))
  }

  predicate HoldsMutable(v: Value) {
    v.List? || v.Dict? || (v.Tuple? && exists i | 0 <= i < |v.items| :: HoldsMutable(v.items[i]))
  }

  lemma {:induction false} MutableIsUnhashable(v: Value)
    requires HoldsMutable(v)
    ensures !Hashable(v)
  {
    if v.Tuple? {
      var i :| 0 <= i < |v.items| && HoldsMutable(v.items[i]);
      MutableIsUnhashable(v.items[i]);
    }
  }

  lemma {:induction false} MutableKeptByEquality(a: Value, b: Value)
    requires Equal(a, b) && HoldsMutable(a)
    ensures HoldsMutable(b)
  {
    if a.Tuple? {
      var i :| 0 <= i < |a.items| && HoldsMutable(a.items[i]);
      MutableKeptByEquality(a.items[i], b.items[i]);
    }
  }

  /** Without sets, and without lists and dictionaries, there are only leaves and tuples. */
  lemma {:induction false} PlainKeptByEquality(a: Value, b: Value)
    requires Equal(a, b) && !HoldsMutable(a) && !HoldsSet(a)
    ensures Hashable(a) && Hashable(b)
  {
    if a.Tuple? {
      forall i | 0 <= i < |a.items| ensures Hashable(a.items[i]) && Hashable(b.items[i]) {
        PlainKeptByEquality(a.items[i], b.items[i]);
      }
    }
  }

  /** The same value with the sets under its tuples frozen, or not. */
  function Refreeze(v: Value, frozen: bool): Value {
    match v
    case Set(_, members) => Set(frozen, members)
    case Tuple(items) => Tuple(seq(|items|, i requires 0 <= i < |items| => Refreeze(items[i], frozen)))
    case _ => v
  }

  lemma {:induction false} RefreezeEqual(v: Value, frozen: bool)
    ensures Equal(v, Refreeze(v, frozen))
  {
    match v
    case Tuple(items) =>
      forall i | 0 <= i < |items| ensures Equal(items[i], Refreeze(items[i], frozen)) { RefreezeEqual(items[i], frozen); }
    case Set(_, members) => EqualToItself(v);
    case _ => EqualToItself(v);
  }

  lemma {:induction false} Thawed(v: Value)
    requires HoldsSet(v)
    ensures !Hashable(Refreeze(v, false))
  {
    if v.Tuple? {
      var i :| 0 <= i < |v.items| && HoldsSet(v.items[i]);
      Thawed(v.items[i]);
      assert Refreeze(v, false).items[i] == Refreeze(v.items[i], false);
    }
  }

  lemma {:induction false} Frozen(v: Value)
    requires !HoldsMutable(v)
    ensures Hashable(Refreeze(v, true))
  {
    if v.Tuple? {
      forall i | 0 <= i < |v.items| ensures Hashable(Refreeze(v.items[i], true)) { Frozen(v.items[i]); }
    }
  }

  lemma {:induction false} RefreezeBuildable(v: Value, frozen: bool)
    requires Buildable(v)
    ensures Buildable(Refreeze(v, frozen))
  {
    if v.Tuple? {
      forall i | 0 <= i < |v.items| ensures Buildable(Refreeze(v.items[i], frozen)) { RefreezeBuildable(v.items[i], frozen); }
    }
  }

  /** The key of a value is shared by the values equal to it, and by no other, exactly when
      no set lies under its tuples, unless a list or dictionary does too. */
  lemma KeyDecidesEqualityIff(a: Value)
    requires Buildable(a)
    ensures (forall b | Buildable(b) :: SameKey(HashableKey(a), HashableKey(b)) <==> Equal(a, b))
            <==> !HoldsSet(a) || HoldsMutable(a)
  {
    hide Buildable, Hashable, HoldsSet, HoldsMutable, SameKey, HashableKey, Equal;
    if !HoldsSet(a) || HoldsMutable(a) {
      forall b | Buildable(b) ensures SameKey(HashableKey(a), HashableKey(b)) <==> Equal(a, b) {
        SameKeyIff(a, b);
        if Equal(a, b) { SameHashability(a, b); }
      }
    } else {
      var b := Refreeze(a, !Hashable(a));
      RefreezeEqual(a, !Hashable(a));
      RefreezeBuildable(a, !Hashable(a));
      Thawed(a);
      Frozen(a);
      SameKeyIff(a, b);
      assert !(SameKey(HashableKey(a), HashableKey(b)) <==> Equal(a, b));
    }
  }

  lemma SameHashability(a: Value, b: Value)
    requires Equal(a, b) && (!HoldsSet(a) || HoldsMutable(a))
    ensures Hashable(a) <==> Hashable(b)
  {
    if HoldsMutable(a) {
      MutableKeptByEquality(a, b);
      MutableIsUnhashable(a);
      MutableIsUnhashable(b);
    } else {
      PlainKeptByEquality(a, b);
    }
  }

  // ------------------------------------------------------------------ values free of frozen sets

  predicate FreeOfFrozen(v: Value) {
    match v
    case Leaf(_) => true
    case List(items) => forall i | 0 <= i < |items| :: FreeOfFrozen(items[i])
    case Tuple(items) => forall i | 0 <= i < |items| :: FreeOfFrozen(items[i])
    case Set(frozen, members) => !frozen && forall i | 0 <= i < |members| :: FreeOfFrozen(members[i])
    case Dict(entries) => forall i | 0 <= i < |entries| :: FreeOfFrozen(entries[i].key) && FreeOfFrozen(entries[i].value)
  }

  lemma {:induction false} FrozenFreeHashability(a: Value, b: Value)
    requires Equal(a, b) && FreeOfFrozen(a) && FreeOfFrozen(b)
    ensures Hashable(a) <==> Hashable(b)
  {
    if a.Tuple? {
      forall i | 0 <= i < |a.items| ensures Hashable(a.items[i]) <==> Hashable(b.items[i]) {
        FrozenFreeHashability(a.items[i], b.items[i]);
      }
    }
  }

  /** On values free of frozen sets the keys are equal exactly when the values are. */
  lemma KeysDecideEquality(a: Value, b: Value)
    requires FreeOfFrozen(a) && FreeOfFrozen(b)
    ensures SameKey(HashableKey(a), HashableKey(b)) <==> Equal(a, b)
  {
    SameKeyIff(a, b);
    if Equal(a, b) { FrozenFreeHashability(a, b); }
  }

  /** A frozen set is equal to the set with its members and has another key. */
  lemma FrozenSetHasItsOwnKey(members: seq<Value>)
    ensures Equal(Set(true, members), Set(false, members))
    ensures !SameKey(HashableKey(Set(true, members)), HashableKey(Set(false, members)))
  {
    RefreezeEqual(Set(true, members), false);
    SameKeyIff(Set(true, members), Set(false, members));
  }
}
