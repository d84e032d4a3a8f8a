/** Variable references inside strings, `{{component@output}}`, and their renaming
    (agent/dsl_migration.py): the pattern, a left-to-right substitution, and what the
    renamed text refers to. */
module VariableRefs {
  import opened Basics

  // ------------------------------------------------------------------ the pattern

  /** The character classes of the pattern; they are disjoint, so matching never has to
      go back. */
  datatype Class = Opens | Spaces | IdChars | VarChars | Closes

  predicate IsAlnum(c: char) { 'A' <= c <= 'Z' || 'a' <= c <= 'z' || '0' <= c <= '9' }

  predicate InClass(k: Class, c: char) {
    match k
    case Opens => c == '{'
    case Spaces => IsSpace(c)
    case IdChars => IsAlnum(c) || c == ':' || c == '_' || c == '-'
    case VarChars => IsAlnum(c) || c == '_' || c == '.' || c == '-'
    case Closes => c == '}'
  }

  /** The end of the longest run of a class from `p` on. */
  function Span(k: Class, s: string, p: nat): (e: nat)
    requires p <= |s|
    ensures p <= e <= |s|
    decreases |s| - p
  {
    if p < |s| && InClass(k, s[p]) then Span(k, s, p + 1) else p
  }

  /** A run is in its class, and what follows it is not. */
  lemma {:induction false} SpanRun(k: Class, s: string, p: nat)
    requires p <= |s|
    ensures forall i | p <= i < Span(k, s, p) :: InClass(k, s[i])
    ensures Span(k, s, p) < |s| ==> !InClass(k, s[Span(k, s, p)])
    decreases |s| - p
  {
    if p < |s| && InClass(k, s[p]) { SpanRun(k, s, p + 1); }
  }

  /** Where the parts of a reference at the start of the text end: the opening, the
      component id, the `@output` part, the closing. */
  datatype Ref = Ref(open: nat, id: nat, output: nat, close: nat)

  /** `(\{+\s*)` */
  function OpenEnd(s: string): (open: nat)
    ensures open <= |s|
  {
    var braces := Span(Opens, s, 0);
    if braces == 0 then 0 else Span(Spaces, s, braces)
  }

  /** `(@[A-Za-z0-9_.-]+)(\s*\}+)` from `id` on. */
  function Tail(s: string, id: nat): Option<(nat, nat)>
    requires id <= |s|
  {
    if id == |s| || s[id] != '@' then None
    else
      var output := Span(VarChars, s, id + 1);
      var spaces := Span(Spaces, s, output);
      var close := Span(Closes, s, spaces);
      if output == id + 1 || close == spaces then None else Some((output, close))
  }

  function MatchHead(s: string): Option<Ref> {
    var open := OpenEnd(s);
    var id := Span(IdChars, s, open);
    if open == 0 || id == open then None
    else match Tail(s, id)
      case None => None
      case Some((output, close)) => Some(Ref(open, id, output, close))
  }

  function IdOf(s: string, r: Ref): string
    requires r.open <= r.id <= |s|
  {
    s[r.open..r.id]
  }

  lemma MatchBounds(s: string)
    ensures MatchHead(s).Some? ==>
              var r := MatchHead(s).value;
              0 < r.open < r.id < r.output < r.close <= |s| && s[0] == '{' && s[r.id] == '@'
              && IsId(IdOf(s, r))
  {
    SpanRun(Opens, s, 0);
    SpanRun(IdChars, s, OpenEnd(s));
  }

  /** The pattern `(\{+\s*)([A-Za-z0-9:_-]+)(@[A-Za-z0-9_.-]+)(\s*\}+)` fits at the start of
      the text, its parts ending at the given places. */
  ghost predicate Fits(s: string, braces: nat, open: nat, id: nat, output: nat, spaces: nat, close: nat) {
    && 0 < braces <= open < id && id + 1 < output <= spaces < close <= |s| && s[id] == '@'
    && (forall i | 0 <= i < braces :: s[i] == '{')
    && (forall i | braces <= i < open :: IsSpace(s[i]))
    && (forall i | open <= i < id :: IsAlnum(s[i]) || s[i] in ":_-")
    && (forall i | id < i < output :: IsAlnum(s[i]) || s[i] in "_.-")
    && (forall i | output <= i < spaces :: IsSpace(s[i]))
    && (forall i | spaces <= i < close :: s[i] == '}')
  }

  lemma {:induction false} SpanIs(k: Class, s: string, p: nat, e: nat)
    requires p <= e <= |s| && (forall i | p <= i < e :: InClass(k, s[i])) && (e == |s| || !InClass(k, s[e]))
    ensures Span(k, s, p) == e
    decreases e - p
  {
    if p < e { SpanIs(k, s, p + 1, e); }
  }

  lemma {:induction false} SpanReaches(k: Class, s: string, p: nat, e: nat)
    requires p <= e <= |s| && (forall i | p <= i < e :: InClass(k, s[i]))
    ensures Span(k, s, p) >= e
    decreases e - p
  {
    if p < e { SpanReaches(k, s, p + 1, e); }
  }

  /** Wherever the pattern fits, a reference is found with these parts, closing braces taken
      as far as they go. */
  lemma FitIsFound(s: string, braces: nat, open: nat, id: nat, output: nat, spaces: nat, close: nat)
    requires Fits(s, braces, open, id, output, spaces, close)
    ensures MatchHead(s).Some?
    ensures var r := MatchHead(s).value;
            r.open == open && r.id == id && r.output == output && close <= r.close <= |s|
            && (forall i | spaces <= i < r.close :: s[i] == '}') && (r.close == |s| || s[r.close] != '}')
  {
    hide Tail, OpenEnd, Span;
    OpenFits(s, braces, open, id, output, spaces, close);
    TailFits(s, braces, open, id, output, spaces, close);
  }

  lemma OpenFits(s: string, braces: nat, open: nat, id: nat, output: nat, spaces: nat, close: nat)
    requires Fits(s, braces, open, id, output, spaces, close)
    ensures OpenEnd(s) == open && Span(IdChars, s, open) == id
  {
    SpanIs(Opens, s, 0, braces);
    SpanIs(Spaces, s, braces, open);
    SpanIs(IdChars, s, open, id);
  }

  lemma TailFits(s: string, braces: nat, open: nat, id: nat, output: nat, spaces: nat, close: nat)
    requires Fits(s, braces, open, id, output, spaces, close)
    ensures Tail(s, id).Some? && Tail(s, id).value.0 == output
    ensures var end := Tail(s, id).value.1;
            close <= end <= |s| && (forall i | spaces <= i < end :: s[i] == '}') && (end == |s| || s[end] != '}')
  {
    SpanIs(VarChars, s, id + 1, output);
    SpanIs(Spaces, s, output, spaces);
    SpanReaches(Closes, s, spaces, close);
    SpanRun(Closes, s, spaces);
  }

  /** A reference that is found fits the pattern. */
  lemma FoundFits(s: string)
    requires MatchHead(s).Some?
    ensures var r := MatchHead(s).value;
            exists braces: nat, spaces: nat :: Fits(s, braces, r.open, r.id, r.output, spaces, r.close)
  {
    var r := MatchHead(s).value;
    var braces := Span(Opens, s, 0);
    SpanRun(Opens, s, 0);
    SpanRun(Spaces, s, braces);
    SpanRun(IdChars, s, r.open);
    SpanRun(VarChars, s, r.id + 1);
    SpanRun(Spaces, s, r.output);
    var spaces := Span(Spaces, s, r.output);
    SpanRun(Closes, s, spaces);
    assert Fits(s, braces, r.open, r.id, r.output, spaces, r.close);
  }

  /** A reference is found at the start of a text exactly when the pattern fits there. */
  lemma FoundIffFits(s: string)
    ensures MatchHead(s).Some? <==>
              exists braces: nat, open: nat, id: nat, output: nat, spaces: nat, close: nat ::
                Fits(s, braces, open, id, output, spaces, close)
  {
    hide MatchHead;
    if MatchHead(s).Some? { FoundFits(s); }
    if braces: nat, open: nat, id: nat, output: nat, spaces: nat, close: nat
      :| Fits(s, braces, open, id, output, spaces, close)
    {
      FitIsFound(s, braces, open, id, output, spaces, close);
    }
  }

  // ------------------------------------------------------------------ substitution

  type Renaming = map<string, string>

  function Lookup(m: Renaming, id: string): string { if id in m then m[id] else id }

  /** `VARIABLE_REF_PATTERN.sub`: rename the component of each reference, copy the rest. */
  function Sub(m: Renaming, s: string): string
    decreases |s|
  {
    if s == "" then ""
    else match MatchHead(s)
      case None => [s[0]] + Sub(m, s[1..])
      case Some(r) =>
        MatchBounds(s);
        s[..r.open] + Lookup(m, IdOf(s, r)) + s[r.id..r.close] + Sub(m, s[r.close..])
  }

  /** The component ids a text refers to, in order. */
  function Refs(s: string): seq<string>
    decreases |s|
  {
    if s == "" then []
    else match MatchHead(s)
      case None => Refs(s[1..])
      case Some(r) =>
        MatchBounds(s);
        [IdOf(s, r)] + Refs(s[r.close..])
  }

  ghost predicate Identity(m: Renaming) { forall id | id in m :: m[id] == id }

  /** Renaming by an identity map copies the text. */
  lemma {:induction false} SubIdentity(m: Renaming, s: string)
    requires Identity(m)
    ensures Sub(m, s) == s
    decreases |s|
  {
    if s != "" {
      match MatchHead(s)
      case None => SubIdentity(m, s[1..]);
      case Some(r) =>
        MatchBounds(s);
        SubIdentity(m, s[r.close..]);
        Rebuild(s, r.open, r.id, r.close);
    }
  }

  lemma Rebuild(s: string, a: nat, b: nat, c: nat)
    requires a <= b <= c <= |s|
    ensures s == s[..a] + s[a..b] + s[b..c] + s[c..]
  {
    assert s[..a] + s[a..b] == s[..b];
    assert s[..b] + s[b..c] == s[..c];
  }

  // ------------------------------------------------------------------ what the result refers to

  /** New ids are written in the characters of ids and are not empty. */
  ghost predicate KeepsIdShape(m: Renaming) {
    forall id | id in m && IsId(id) :: IsId(m[id])
  }

  predicate IsId(id: string) { id != "" && forall c | c in id :: InClass(IdChars, c) }

  lemma SubKeepsFirst(m: Renaming, s: string)
    requires s != ""
    ensures Sub(m, s) != "" && Sub(m, s)[0] == s[0]
  {
    MatchBounds(s);
  }

  /** A run ends where it ends in any text with the same beginning, as long as it ends
      before the texts part. */
  lemma {:induction false} SpanLocal(k: Class, x: string, a: string, b: string, p: nat)
    requires p <= |x|
    requires Span(k, x + a, p) < |x| || (Span(k, x + a, p) == |x| && (b == "" || !InClass(k, b[0])))
    ensures Span(k, x + b, p) == Span(k, x + a, p)
    decreases |x| - p
  {
    if p < |x| {
      assert (x + a)[p] == (x + b)[p] == x[p];
      if InClass(k, x[p]) { SpanLocal(k, x, a, b, p + 1); }
    }
  }

  lemma {:induction false} SpanStops(k: Class, x: string, a: string, p: nat)
    requires p <= |x| && a != "" && !InClass(k, a[0])
    ensures Span(k, x + a, p) <= |x|
    decreases |x| - p
  {
    if p < |x| {
      SpanStops(k, x, a, p + 1);
    } else {
      assert (x + a)[p] == a[0];
    }
  }

  /** No class but the first contains the opening brace. */
  lemma SpanUpToBrace(k: Class, x: string, a: string, b: string, p: nat)
    requires !k.Opens? && p <= |x| && a != "" && b != "" && a[0] == '{' == b[0]
    ensures Span(k, x + a, p) == Span(k, x + b, p) <= |x|
  {
    SpanStops(k, x, a, p);
    SpanLocal(k, x, a, b, p);
  }

  lemma OpenLocal(x: string, a: string, b: string, i: nat)
    requires a != "" && b != "" && a[0] == '{' == b[0] && i < |x| && x[i] != '{'
    ensures OpenEnd(x + a) == OpenEnd(x + b) <= |x|
  {
    var s := x + a;
    var braces := Span(Opens, s, 0);
    SpanRun(Opens, s, 0);
    assert s[i] == x[i];
    SpanLocal(Opens, x, a, b, 0);
    SpanUpToBrace(Spaces, x, a, b, braces);
  }

  lemma TailLocal(x: string, a: string, b: string, id: nat)
    requires a != "" && b != "" && a[0] == '{' == b[0] && id <= |x|
    ensures Tail(x + a, id) == Tail(x + b, id)
  {
    assert (x + a)[id] == (x + b)[id] == if id < |x| then x[id] else '{';
    if (x + a)[id] == '@' {
      SpanUpToBrace(VarChars, x, a, b, id + 1);
      var output := Span(VarChars, x + a, id + 1);
      SpanUpToBrace(Spaces, x, a, b, output);
      SpanUpToBrace(Closes, x, a, b, Span(Spaces, x + a, output));
    }
  }

  /** A reference that does not begin at the end of `x` is decided by `x` and the brace
      behind it: what follows the brace does not matter. */
  lemma MatchLocal(x: string, a: string, b: string, i: nat)
    requires a != "" && b != "" && a[0] == '{' == b[0] && i < |x| && x[i] != '{'
    ensures MatchHead(x + a) == MatchHead(x + b)
  {
    OpenLocal(x, a, b, i);
    var open := OpenEnd(x + a);
    SpanUpToBrace(IdChars, x, a, b, open);
    TailLocal(x, a, b, Span(IdChars, x + a, open));
  }

  // ------------------------------------------------------------------ taking references apart

  lemma {:induction false} SpanShift(k: Class, pre: string, s: string, p: nat)
    requires p <= |s|
    ensures Span(k, pre + s, |pre| + p) == |pre| + Span(k, s, p)
    decreases |s| - p
  {
    if p < |s| {
      assert (pre + s)[|pre| + p] == s[p];
      if InClass(k, s[p]) { SpanShift(k, pre, s, p + 1); }
    }
  }

  predicate Opening(o: string) { o != "" && OpenEnd(o) == |o| }

  predicate Closing(t: string) { Tail(t, 0).Some? && Tail(t, 0).value.1 == |t| }

  lemma OpeningFollowed(o: string, x: string)
    requires Opening(o) && x != "" && InClass(IdChars, x[0])
    ensures OpenEnd(o + x) == |o|
  {
    assert o + "" == o;
    SpanLocal(Opens, o, "", x, 0);
    SpanLocal(Spaces, o, "", x, Span(Opens, o, 0));
  }

  lemma OpeningOf(o: string, x: string)
    requires OpenEnd(o + x) == |o| > 0
    ensures Opening(o)
  {
    assert o + "" == o;
    SpanLocal(Opens, o, x, "", 0);
    SpanLocal(Spaces, o, x, "", Span(Opens, o, 0));
  }

  lemma ClosingFollowed(t: string, rest: string)
    requires Closing(t) && (rest == "" || rest[0] != '}')
    ensures Tail(t + rest, 0) == Tail(t, 0)
  {
    assert t + "" == t && (t + rest)[0] == t[0];
    var output := Span(VarChars, t, 1);
    SpanLocal(VarChars, t, "", rest, 1);
    SpanLocal(Spaces, t, "", rest, output);
    SpanLocal(Closes, t, "", rest, Span(Spaces, t, output));
  }

  lemma ClosingOf(t: string, rest: string)
    requires Tail(t + rest, 0).Some? && Tail(t + rest, 0).value.1 == |t|
    ensures Closing(t) && (rest == "" || rest[0] != '}') && Tail(t, 0) == Tail(t + rest, 0)
  {
    assert t + "" == t && (t + rest)[0] == t[0];
    var output := Span(VarChars, t + rest, 1);
    var spaces := Span(Spaces, t + rest, output);
    SpanLocal(VarChars, t, rest, "", 1);
    SpanLocal(Spaces, t, rest, "", output);
    SpanLocal(Closes, t, rest, "", spaces);
    SpanRun(Closes, t + rest, spaces);
    assert rest != "" ==> (t + rest)[|t|] == rest[0];
  }

  lemma TailShift(pre: string, s: string)
    ensures Tail(pre + s, |pre|).Some? <==> Tail(s, 0).Some?
    ensures Tail(s, 0).Some? ==> Tail(pre + s, |pre|).value == (|pre| + Tail(s, 0).value.0, |pre| + Tail(s, 0).value.1)
  {
    assert s != "" ==> (pre + s)[|pre|] == s[0];
    if s != "" && s[0] == '@' {
      SpanShift(VarChars, pre, s, 1);
      var output := Span(VarChars, s, 1);
      SpanShift(Spaces, pre, s, output);
      SpanShift(Closes, pre, s, Span(Spaces, s, output));
    }
  }

  lemma {:induction false} SpanId(id: string, y: string, p: nat)
    requires IsId(id) && p <= |id| && (y == "" || !InClass(IdChars, y[0]))
    ensures Span(IdChars, id + y, p) == |id|
    decreases |id| - p
  {
    if p < |id| {
      assert (id + y)[p] == id[p] && id[p] in id;
      SpanId(id, y, p + 1);
    }
  }

  /** Opening, id and closing put together are a reference. */
  lemma Compose(o: string, id: string, t: string, rest: string)
    requires Opening(o) && IsId(id) && Closing(t) && (rest == "" || rest[0] != '}')
    ensures var r := MatchHead(o + (id + (t + rest)));
            r.Some? && r.value.open == |o| && r.value.id == |o| + |id| && r.value.close == |o| + |id| + |t|
  {
    var y := t + rest;
    var s := o + (id + y);
    assert (id + y)[0] == id[0] && id[0] in id;
    OpeningFollowed(o, id + y);
    assert y[0] == t[0] == '@';
    SpanId(id, y, 0);
    SpanShift(IdChars, o, id + y, 0);
    ClosingFollowed(t, rest);
    assert s == (o + id) + y;
    TailShift(o + id, y);
  }

  /** And a reference at the start of a text comes apart that way. */
  lemma Decompose(s: string)
    requires MatchHead(s).Some?
    ensures var r := MatchHead(s).value;
            0 < r.open < r.id < r.close <= |s|
            && Opening(s[..r.open]) && IsId(s[r.open..r.id]) && Closing(s[r.id..r.close])
            && (r.close == |s| || s[r.close] != '}')
  {
    MatchBounds(s);
    var r := MatchHead(s).value;
    assert s == s[..r.open] + s[r.open..];
    OpeningOf(s[..r.open], s[r.open..]);
    var pre, y := s[..r.id], s[r.id..];
    assert s == pre + y;
    TailShift(pre, y);
    assert y == s[r.id..r.close] + s[r.close..];
    ClosingOf(s[r.id..r.close], s[r.close..]);
  }

  lemma OneMoreBrace(w: string)
    requires MatchHead(w).Some?
    ensures MatchHead("{" + w).Some?
  {
    hide MatchHead, Closing, IsId;
    Decompose(w);
    var r := MatchHead(w).value;
    var o, id, t, rest := w[..r.open], w[r.open..r.id], w[r.id..r.close], w[r.close..];
    SpanShift(Opens, "{", o, 0);
    SpanShift(Spaces, "{", o, Span(Opens, o, 0));
    assert Opening("{" + o);
    Compose("{" + o, id, t, rest);
    Rebuild(w, r.open, r.id, r.close);
    assert "{" + w == ("{" + o) + (id + (t + rest));
  }

  lemma {:induction false} MoreBraces(x: string, w: string)
    requires MatchHead(w).Some? && forall c | c in x :: c == '{'
    ensures MatchHead(x + w).Some?
  {
    hide MatchHead;
    if x == "" {
      assert x + w == w;
    } else {
      assert x[0] in x && forall c | c in x[1..] :: c in x;
      MoreBraces(x[1..], w);
      OneMoreBrace(x[1..] + w);
      assert x + w == "{" + (x[1..] + w);
    }
  }

  lemma SubEmpty(m: Renaming)
    ensures Sub(m, "") == ""
  {
  }

  lemma SubNone(m: Renaming, s: string)
    requires s != "" && MatchHead(s).None?
    ensures Sub(m, s) == [s[0]] + Sub(m, s[1..])
  {
    hide MatchHead;
  }

  lemma SubSome(m: Renaming, s: string)
    requires MatchHead(s).Some?
    ensures var r := MatchHead(s).value;
            r.open <= r.id <= r.close <= |s| &&
            Sub(m, s) == s[..r.open] + (Lookup(m, IdOf(s, r)) + (s[r.id..r.close] + Sub(m, s[r.close..])))
  {
    hide MatchHead, Opening, Closing, IsId;
    Decompose(s);
    var r := MatchHead(s).value;
    Regroup(s[..r.open], Lookup(m, IdOf(s, r)), s[r.id..r.close], Sub(m, s[r.close..]));
  }

  lemma Regroup(a: string, b: string, c: string, d: string)
    ensures a + b + c + d == a + (b + (c + d))
  {
  }

  lemma NoBraceNoMatch(s: string)
    requires s != "" && s[0] != '{'
    ensures MatchHead(s).None?
  {}

  /** Text before the first reference is copied. */
  lemma {:induction false} FirstReference(m: Renaming, t: string) returns (u: string, w: string)
    ensures t == u + w && Sub(m, t) == u + Sub(m, w)
    ensures w == "" || MatchHead(w).Some?
    decreases |t|
  {
    hide MatchHead;
    hide Sub;
    if t == "" || MatchHead(t).Some? {
      u, w := "", t;
      assert t == "" + t && Sub(m, t) == "" + Sub(m, t);
    } else {
      var v;
      v, w := FirstReference(m, t[1..]);
      SubNone(m, t);
      u := [t[0]] + v;
      assert t == [t[0]] + t[1..];
      assert [t[0]] + (v + w) == u + w && [t[0]] + (v + Sub(m, w)) == u + Sub(m, w);
    }
  }

  /** Renaming creates no reference where there was none. */
  lemma NoNewReference(m: Renaming, s: string)
    requires s != "" && MatchHead(s).None?
    ensures MatchHead([s[0]] + Sub(m, s[1..])).None?
  {
    hide MatchHead, Sub, IsId;
    var c := s[0];
    assert s == [c] + s[1..];
    if c != '{' {
      NoBraceNoMatch([c] + Sub(m, s[1..]));
    } else {
      var u, w := FirstReference(m, s[1..]);
      var x := [c] + u;
      assert s == x + w && [c] + Sub(m, s[1..]) == x + Sub(m, w);
      if w == "" {
        SubEmpty(m);
        assert x + Sub(m, w) == s;
      } else {
        MatchBounds(w);
        SubKeepsFirst(m, w);
        if forall d | d in x :: d == '{' {
          MoreBraces(x, w);
        } else {
          var i :| 0 <= i < |x| && x[i] != '{';
          MatchLocal(x, w, Sub(m, w), i);
        }
      }
    }
  }

  function RenamedAll(m: Renaming, ids: seq<string>): seq<string> {
    seq(|ids|, i requires 0 <= i < |ids| => Lookup(m, ids[i]))
  }

  /** The references of a renamed text are the renamed references of the text: none is
      lost, none appears, and each names the renamed component. */
  lemma {:induction false} RefsRenamed(m: Renaming, s: string)
    requires KeepsIdShape(m)
    ensures Refs(Sub(m, s)) == RenamedAll(m, Refs(s))
    decreases |s|
  {
    hide MatchHead;
    if s != "" {
      match MatchHead(s)
      case None =>
        RefsRenamed(m, s[1..]);
        NoNewReference(m, s);
        assert ([s[0]] + Sub(m, s[1..]))[1..] == Sub(m, s[1..]);
      case Some(r) =>
        Decompose(s);
        RefsRenamed(m, s[r.close..]);
        RenamedReference(m, s);
    }
  }

  lemma RefsSome(s: string)
    requires MatchHead(s).Some?
    ensures var r := MatchHead(s).value;
            r.open <= r.id <= r.close <= |s| && Refs(s) == [IdOf(s, r)] + Refs(s[r.close..])
  {
    hide MatchHead, Opening, Closing, IsId;
    Decompose(s);
  }

  /** The references of a text that begins with an opening, an id and a closing. */
  lemma RefsComposed(o: string, id: string, t: string, rest: string)
    requires Opening(o) && IsId(id) && Closing(t) && (rest == "" || rest[0] != '}')
    ensures Refs(o + (id + (t + rest))) == [id] + Refs(rest)
  {
    hide MatchHead, Refs, Opening, Closing, IsId;
    Compose(o, id, t, rest);
    var out := o + (id + (t + rest));
    RefsSome(out);
    assert out[|o|..|o| + |id|] == id;
    assert out[|o| + |id| + |t|..] == rest;
  }

  /** What follows a closing in the renamed text does not prolong it. */
  lemma RestKeepsClear(m: Renaming, rest: string)
    requires rest == "" || rest[0] != '}'
    ensures Sub(m, rest) == "" || Sub(m, rest)[0] != '}'
  {
    if rest != "" { SubKeepsFirst(m, rest); }
  }

  lemma RenamedReference(m: Renaming, s: string)
    requires KeepsIdShape(m) && MatchHead(s).Some?
    ensures var r := MatchHead(s).value;
            r.open <= r.id <= r.close <= |s| &&
            Refs(Sub(m, s)) == [Lookup(m, IdOf(s, r))] + Refs(Sub(m, s[r.close..]))
  {
    hide MatchHead, Sub, Refs, Opening, Closing, IsId;
    Decompose(s);
    SubSome(m, s);
    var r := MatchHead(s).value;
    var id := Lookup(m, s[r.open..r.id]);
    assert IsId(id);
    RestKeepsClear(m, s[r.close..]);
    RefsComposed(s[..r.open], id, s[r.id..r.close], Sub(m, s[r.close..]));
  }
}
