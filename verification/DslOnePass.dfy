/** Edge ids once more (agent/dsl_migration.py): for component ids that do not run into each
    other, the chained replaces are one pass over the text, whatever the text, and an edge id
    follows its components exactly when renamed ids occur in it nowhere else. */
module DslOnePass {
  import opened Basics
  import opened VariableRefs
  import opened JsonRewrite
  import opened DslMigration
  import opened DslEdges

  /** One text could begin with both. */
  predicate Compatible(a: string, b: string) { a <= b || b <= a }

  predicate IsPrefix(p: string) { IsLegacyPrefix(p) || p == "TokenChunker:" || p == "TitleChunker:" || p == "DocGenerator:" }

  /** Behind its first character the id neither holds a legacy or new prefix nor ends in the
      beginning of one. */
  ghost predicate Plain(id: string) {
    forall k, p | 0 < k < |id| && IsPrefix(p) :: !Compatible(p, id[k..])
  }

  ghost predicate AllPlain(ids: seq<string>) { forall id | id in ids && Legacy(id) :: Plain(id) }

  /** A renamed id stands at the beginning of the text. */
  ghost predicate Occurs(ids: seq<string>, s: string) { exists id | id in ids && Legacy(id) :: id <= s }

  ghost function PrefixOfText(s: string): (p: string)
    requires Legacy(s)
    ensures IsLegacyPrefix(p) && p <= s && 0 < |p| <= |s|
  {
    var p :| IsLegacyPrefix(p) && p <= s;
    PrefixIsNotEmpty(p);
    p
  }

  lemma OccursIsLegacy(ids: seq<string>, s: string)
    requires Occurs(ids, s)
    ensures Legacy(s)
  {
    var id :| id in ids && Legacy(id) && id <= s;
    OccurrenceIsLegacy(id, s);
  }

  /** One pass from left to right: where a renamed id stands, its prefix is exchanged. */
  ghost function OnePass(ids: seq<string>, s: string): string
    decreases |s|
  {
    if s == "" then ""
    else if Occurs(ids, s) then
      OccursIsLegacy(ids, s);
      var p := PrefixOfText(s);
      NewPrefix(p) + OnePass(ids, s[|p|..])
    else [s[0]] + OnePass(ids, s[1..])
  }

  lemma PassNone(ids: seq<string>, s: string)
    requires s != "" && !Occurs(ids, s)
    ensures OnePass(ids, s) == [s[0]] + OnePass(ids, s[1..])
  {
    hide Occurs;
  }

  lemma PassSome(ids: seq<string>, s: string, p: string)
    requires Occurs(ids, s) && IsLegacyPrefix(p) && p <= s
    ensures OnePass(ids, s) == NewPrefix(p) + OnePass(ids, s[|p|..])
  {
    hide Occurs, IsLegacyPrefix, NewPrefix;
    OccursIsLegacy(ids, s);
    PrefixIsNotEmpty(p);
    OnePrefix(p, PrefixOfText(s), s);
  }

  /** A stretch in which no renamed id begins is copied. */
  lemma {:induction false} PassSkips(ids: seq<string>, u: string, s: string)
    requires forall k | 0 <= k < |u| :: !Occurs(ids, u[k..] + s)
    ensures OnePass(ids, u + s) == u + OnePass(ids, s)
  {
    hide OnePass, Occurs;
    if u == "" {
      assert u + s == s;
    } else {
      assert u[0..] == u && (u + s)[1..] == u[1..] + s && (u + s)[0] == u[0];
      forall k | 0 <= k < |u[1..]| ensures !Occurs(ids, u[1..][k..] + s) { assert u[1..][k..] == u[k + 1..]; }
      PassNone(ids, u + s);
      PassSkips(ids, u[1..], s);
      assert [u[0]] + (u[1..] + OnePass(ids, s)) == u + OnePass(ids, s);
    }
  }

  // ------------------------------------------------------------------ plain ids

  lemma CompatibleHeads(p: string, u: string, s: string)
    requires p <= u + s
    ensures Compatible(p, u)
  {
    if |p| <= |u| { assert p == (u + s)[..|p|] == u[..|p|]; } else { assert u == p[..|u|]; }
  }

  /** Behind the first character of a plain id no renamed id begins, whatever follows. */
  lemma NoneInside(id: string, s: string, ids: seq<string>, k: nat)
    requires Plain(id) && 0 < k < |id|
    ensures !Occurs(ids, id[k..] + s)
  {
    hide Occurs;
    forall p | IsLegacyPrefix(p) ensures !(p <= id[k..] + s) {
      assert IsPrefix(p) && !Compatible(p, id[k..]);
      if p <= id[k..] + s { CompatibleHeads(p, id[k..], s); }
    }
    if Occurs(ids, id[k..] + s) { OccursIsLegacy(ids, id[k..] + s); }
  }

  lemma NoneBehindPrefix(id: string, j: nat, s: string, ids: seq<string>)
    requires Plain(id) && 0 < j <= |id|
    ensures OnePass(ids, id[j..] + s) == id[j..] + OnePass(ids, s)
  {
    hide OnePass, Plain, Occurs;
    var u := id[j..];
    forall k | 0 <= k < |u| ensures !Occurs(ids, u[k..] + s) {
      assert u[k..] == id[j + k..];
      NoneInside(id, s, ids, j + k);
    }
    PassSkips(ids, u, s);
  }

  lemma NoneInNew(p: string, s: string, ids: seq<string>)
    requires IsLegacyPrefix(p)
    ensures OnePass(ids, NewPrefix(p) + s) == NewPrefix(p) + OnePass(ids, s)
  {
    hide OnePass, NewPrefix, IsLegacyPrefix, Legacy;
    var n := NewPrefix(p);
    forall k | 0 <= k < |n| ensures !Occurs(ids, n[k..] + s) {
      NotInside(p, s, k);
      assert (n + s)[k..] == n[k..] + s;
      if Occurs(ids, n[k..] + s) { OccursIsLegacy(ids, n[k..] + s); }
    }
    PassSkips(ids, n, s);
  }

  // ------------------------------------------------------------------ one replace

  /** Replacing leaves a plain id at the beginning of a text alone. */
  lemma PlainIsCopied(y: string, x: string, s: string, j: nat)
    requires Plain(y) && Legacy(x) && x != "" && 0 < j <= |y|
    ensures Replace(y[j..] + s, x, RenameId(x)) == y[j..] + Replace(s, x, RenameId(x))
  {
    hide Replace, Plain, RenameId, Legacy;
    var u := y[j..];
    forall k | 0 <= k < |u| ensures !(x <= u[k..] + s) {
      assert u[k..] == y[j + k..];
      NoneInside(y, s, [x], j + k);
      assert x <= u[k..] + s ==> x in [x] && Occurs([x], u[k..] + s);
    }
    ReplaceSkips(u, s, x, RenameId(x));
  }

  lemma PlainStartIsCopied(y: string, x: string, s: string)
    requires Plain(y) && Legacy(x) && x != "" && y != "" && !(x <= y + s)
    ensures Replace(y + s, x, RenameId(x)) == y + Replace(s, x, RenameId(x))
  {
    hide Plain, RenameId, Legacy, Replace;
    assert (y + s)[1..] == y[1..] + s && (y + s)[0] == y[0];
    ReplaceMisses(y + s, x, RenameId(x));
    PlainIsCopied(y, x, s, 1);
    assert [y[0]] + (y[1..] + Replace(s, x, RenameId(x))) == y + Replace(s, x, RenameId(x));
  }

  /** Up to the first occurrence of the replaced id the text is kept; there a new prefix
      begins. */
  lemma {:induction false} FirstExchange(s: string, x: string) returns (j: nat, p: string, z: string)
    requires Legacy(x) && x != ""
    ensures j <= |s| && IsLegacyPrefix(p)
    ensures Replace(s, x, RenameId(x)) == if j == |s| then s else s[..j] + (NewPrefix(p) + z)
    ensures j == 0 ==> s == "" || x <= s
  {
    hide RenameId, NewPrefix, Replace, IsLegacyPrefix, Legacy;
    p := PrefixOfText(x);
    if s == "" {
      EmptyIsKept(x, RenameId(x));
      j, z := 0, "";
    } else if x <= s {
      RenamedPrefix(p, x);
      ReplaceAtStart(s, x, RenameId(x));
      var more := Replace(s[|x|..], x, RenameId(x));
      j, z := 0, x[|p|..] + more;
      assert (NewPrefix(p) + x[|p|..]) + more == NewPrefix(p) + (x[|p|..] + more);
      assert s[..0] + (NewPrefix(p) + z) == NewPrefix(p) + z;
    } else {
      var i;
      i, p, z := FirstExchange(s[1..], x);
      j := i + 1;
      ReplaceMisses(s, x, RenameId(x));
      assert s == [s[0]] + s[1..] && s[..j] == [s[0]] + s[1..][..i];
      assert [s[0]] + (s[1..][..i] + (NewPrefix(p) + z)) == s[..j] + (NewPrefix(p) + z);
    }
  }

  /** No plain id comes to stand at the beginning of a text by a replace behind it. */
  lemma NothingAppears(s: string, x: string, y: string)
    requires Legacy(x) && x != "" && Plain(y) && y != "" && !(x <= s) && s != ""
    requires y <= Replace(s, x, RenameId(x))
    ensures y <= s
  {
    hide Replace, RenameId, NewPrefix, Legacy, Plain;
    var j, p, z := FirstExchange(s, x);
    var r := Replace(s, x, RenameId(x));
    if j < |s| {
      if j < |y| {
        assert y[j..] <= r[j..] && r[j..] == NewPrefix(p) + z;
        NotPlainAt(y, j, p, z);
      } else {
        assert y == r[..|y|] == s[..|y|];
      }
    }
  }

  lemma NotPlainAt(y: string, j: nat, p: string, z: string)
    requires Plain(y) && 0 < j < |y| && IsLegacyPrefix(p)
    ensures !(y[j..] <= NewPrefix(p) + z)
  {
    var n := NewPrefix(p);
    assert IsPrefix(n);
    if y[j..] <= n + z { CompatibleHeads(y[j..], n, z); }
  }

  /** One replace and a pass for the other ids are a pass for all. */
  lemma {:induction false} ReplaceThenPass(x: string, ids: seq<string>, s: string)
    requires Legacy(x) && Plain(x) && AllPlain(ids)
    ensures OnePass(ids, Replace(s, x, RenameId(x))) == OnePass([x] + ids, s)
    decreases |s|
  {
    hide Replace, OnePass, RenameId, NewPrefix, Legacy, Plain, IsLegacyPrefix;
    LegacyIsNotEmpty(x);
    if s == "" {
      EmptyIsKept(x, RenameId(x));
      PassEmpty(ids);
      PassEmpty([x] + ids);
    } else if x <= s {
      ReplacedHere(x, ids, s);
    } else if Occurs([x] + ids, s) {
      OtherHere(x, ids, s);
    } else {
      PassNone([x] + ids, s);
      NothingHere(x, ids, s);
      ReplaceThenPass(x, ids, s[1..]);
    }
  }

  lemma PassEmpty(ids: seq<string>)
    ensures OnePass(ids, "") == ""
  {
  }

  lemma ReplacedHere(x: string, ids: seq<string>, s: string)
    requires Legacy(x) && Plain(x) && AllPlain(ids) && x != "" && x <= s
    ensures OnePass(ids, Replace(s, x, RenameId(x))) == OnePass([x] + ids, s)
    decreases |s|, 0
  {
    hide Replace, OnePass, RenameId, NewPrefix, Legacy, Plain, IsLegacyPrefix, AllPlain;
    var p := PrefixOfText(x);
    RenamedPrefix(p, x);
    var n, tail, rest, all := NewPrefix(p), x[|p|..], s[|x|..], [x] + ids;
    ReplaceAtStart(s, x, RenameId(x));
    var r := Replace(rest, x, RenameId(x));
    assert RenameId(x) + r == n + (tail + r);
    NoneInNew(p, tail + r, ids);
    NoneBehindPrefix(x, |p|, r, ids);
    ReplaceThenPass(x, ids, rest);
    assert x in all && Occurs(all, s);
    PrefixOf(p, x, s);
    PassSome(all, s, p);
    assert s == x + rest && s[|p|..] == tail + rest;
    NoneBehindPrefix(x, |p|, rest, all);
  }

  /** Another id stands at the beginning. */
  lemma OtherHere(x: string, ids: seq<string>, s: string)
    requires Legacy(x) && Plain(x) && AllPlain(ids) && x != "" && !(x <= s) && Occurs([x] + ids, s)
    ensures OnePass(ids, Replace(s, x, RenameId(x))) == OnePass([x] + ids, s)
    decreases |s|, 0
  {
    hide Replace, OnePass, RenameId, NewPrefix, Legacy, Plain, IsLegacyPrefix;
    var all := [x] + ids;
    var y :| y in all && Legacy(y) && y <= s;
    assert y in ids;
    LegacyIsNotEmpty(y);
    var p, rest := PrefixOfText(y), s[|y|..];
    var r := Replace(rest, x, RenameId(x));
    assert s == y + rest;
    PlainStartIsCopied(y, x, rest);
    var tail := y[|p|..];
    assert y == p + tail;
    assert Occurs(ids, y + r);
    PrefixOf(p, y, y + r);
    PassSome(ids, y + r, p);
    assert (y + r)[|p|..] == tail + r;
    PrefixOf(p, y, s);
    PassSome(all, s, p);
    assert s[|p|..] == tail + rest;
    PlainIsCopied(y, x, rest, |p|);
    ReplaceThenPass(x, ids, tail + rest);
  }

  lemma NothingHere(x: string, ids: seq<string>, s: string)
    requires Legacy(x) && AllPlain(ids) && x != "" && s != "" && !Occurs([x] + ids, s) && !(x <= s)
    ensures OnePass(ids, Replace(s, x, RenameId(x))) == [s[0]] + OnePass(ids, Replace(s[1..], x, RenameId(x)))
  {
    hide OnePass, RenameId, Legacy, Plain;
    var r, rest := Replace(s, x, RenameId(x)), Replace(s[1..], x, RenameId(x));
    assert r == [s[0]] + rest;
    assert forall y | y in ids && Legacy(y) :: y in [x] + ids && !(y <= s);
    if Occurs(ids, r) {
      var y :| y in ids && Legacy(y) && y <= r;
      LegacyIsNotEmpty(y);
      NothingAppears(s, x, y);
    }
    PassNone(ids, r);
    assert r[1..] == rest;
  }

  // ------------------------------------------------------------------ the chain

  lemma {:induction false} PassNothing(s: string)
    ensures OnePass([], s) == s
  {
    if s != "" { PassNothing(s[1..]); }
  }

  /** An id that is not renamed has no part in the pass. */
  lemma {:induction false} PassWithout(x: string, ids: seq<string>, s: string)
    requires !Legacy(x)
    ensures OnePass([x] + ids, s) == OnePass(ids, s)
    decreases |s|
  {
    hide OnePass, Legacy, IsLegacyPrefix;
    var all := [x] + ids;
    assert Occurs(all, s) <==> Occurs(ids, s) by { SameOccurrences(x, ids, s); }
    if s == "" {
      PassEmpty(ids);
      PassEmpty(all);
    } else if Occurs(ids, s) {
      OccursIsLegacy(ids, s);
      var p := PrefixOfText(s);
      PassSome(ids, s, p);
      PassSome(all, s, p);
      PassWithout(x, ids, s[|p|..]);
    } else {
      PassNone(ids, s);
      PassNone(all, s);
      PassWithout(x, ids, s[1..]);
    }
  }

  lemma SameOccurrences(x: string, ids: seq<string>, s: string)
    requires !Legacy(x)
    ensures Occurs([x] + ids, s) <==> Occurs(ids, s)
  {
    hide Legacy;
    assert forall id :: id in [x] + ids <==> id == x || id in ids;
  }

  /** For ids that do not run into each other the chained replaces are one pass, for every
      text and in every order. */
  lemma {:induction false} ChainIsOnePass(m: Renaming, ids: seq<string>, text: string)
    requires AllPlain(ids) && forall id | id in ids :: Lookup(m, id) == RenameId(id)
    ensures ReplaceAll(m, ids, text) == OnePass(ids, text)
    decreases |ids|
  {
    hide OnePass, Replace, RenameId, Legacy, Plain;
    if ids == [] {
      PassNothing(text);
    } else {
      var x, rest := ids[0], ids[1..];
      assert ids == [x] + rest && x in ids;
      assert forall id | id in rest :: id in ids;
      LegacyIff(x);
      ChainIsOnePass(m, rest, Replace(text, x, RenameId(x)));
      if Legacy(x) {
        ReplaceThenPass(x, rest, text);
      } else {
        ReplaceSame(text, x);
        PassWithout(x, rest, text);
      }
    }
  }

  // ------------------------------------------------------------------ when an edge id follows

  /** Renamed ids begin nowhere in the text but at its own ids that are renamed. */
  ghost predicate OnlyThere(ids: seq<string>, ps: seq<Piece>) {
    ps != [] ==>
      var id, after := ps[0].id, Spell(ps[1..], All(|ps| - 1, false));
      && (forall k | 0 <= k < |ps[0].gap| :: !Occurs(ids, ps[0].gap[k..] + (id + after)))
      && (forall k | 0 <= k < |id| :: k > 0 || !Legacy(id) ==> !Occurs(ids, id[k..] + after))
      && OnlyThere(ids, ps[1..])
  }

  /** A pass that keeps the beginning of a text exchanged nothing there. */
  lemma {:induction false} KeptIsClear(ids: seq<string>, u: string, s: string, t: string)
    requires OnePass(ids, u + s) == u + t
    ensures forall k | 0 <= k < |u| :: !Occurs(ids, u[k..] + s)
    ensures OnePass(ids, s) == t
  {
    hide OnePass, Occurs, NewPrefix, IsLegacyPrefix;
    if u == "" {
      assert u + s == s && u + t == t;
    } else {
      assert u[0..] == u && (u + s)[0] == u[0] && (u + s)[1..] == u[1..] + s;
      if Occurs(ids, u + s) { ExchangeShows(ids, u + s); }
      PassNone(ids, u + s);
      assert OnePass(ids, u[1..] + s) == (u + t)[1..] == u[1..] + t;
      KeptIsClear(ids, u[1..], s, t);
      forall k | 0 <= k < |u| ensures !Occurs(ids, u[k..] + s) {
        if k > 0 { assert u[k..] == u[1..][k - 1..]; }
      }
    }
  }

  lemma ExchangeShows(ids: seq<string>, s: string)
    requires Occurs(ids, s)
    ensures s != "" && OnePass(ids, s) != "" && OnePass(ids, s)[0] != s[0]
  {
    hide OnePass, Occurs;
    OccursIsLegacy(ids, s);
    var p := PrefixOfText(s);
    PassSome(ids, s, p);
    assert "Splitter:"[0] == 'S' && "HierarchicalMerger:"[0] == 'H' && "PDFGenerator:"[0] == 'P';
    assert "TokenChunker:"[0] == 'T' && "TitleChunker:"[0] == 'T' && "DocGenerator:"[0] == 'D';
    assert s[0] == p[0];
  }

  /** One id of the text: it is renamed and what follows is passed on, exactly when no
      renamed id begins inside it. */
  lemma IdPasses(ids: seq<string>, id: string, s: string, t: string)
    requires Legacy(id) ==> id in ids
    ensures OnePass(ids, id + s) == RenameId(id) + t
            <==> (forall k | 0 <= k < |id| :: k > 0 || !Legacy(id) ==> !Occurs(ids, id[k..] + s)) && OnePass(ids, s) == t
  {
    hide OnePass, Occurs, RenameId, NewPrefix, IsLegacyPrefix;
    LegacyIff(id);
    if Legacy(id) {
      var p := PrefixOfText(id);
      RenamedPrefix(p, id);
      var n, tail := NewPrefix(p), id[|p|..];
      assert Occurs(ids, id + s) by { StandsThere(ids, id, s); }
      PrefixOf(p, id, id + s);
      PassSome(ids, id + s, p);
      assert (id + s)[|p|..] == tail + s && (n + tail) + t == n + (tail + t);
      assert OnePass(ids, id + s) == RenameId(id) + t <==> OnePass(ids, tail + s) == tail + t by {
        SameTail(n, OnePass(ids, tail + s), tail + t);
      }
      TailPasses(ids, id, p, s, t);
    } else {
      if OnePass(ids, id + s) == id + t { KeptIsClear(ids, id, s, t); }
      if forall k | 0 <= k < |id| :: !Occurs(ids, id[k..] + s) { PassSkips(ids, id, s); }
      assert OnePass(ids, s) == t ==> id + OnePass(ids, s) == id + t;
    }
  }

  lemma SameTail(n: string, a: string, b: string)
    ensures n + a == n + b <==> a == b
  {
    assert (n + a)[|n|..] == a && (n + b)[|n|..] == b;
  }

  lemma StandsThere(ids: seq<string>, id: string, s: string)
    requires Legacy(id) && id in ids
    ensures Occurs(ids, id + s)
  {
    hide Legacy;
    assert id <= id + s;
  }

  lemma TailPasses(ids: seq<string>, id: string, p: string, s: string, t: string)
    requires IsLegacyPrefix(p) && p <= id && Legacy(id)
    ensures OnePass(ids, id[|p|..] + s) == id[|p|..] + t
            <==> (forall k | 0 < k < |id| :: !Occurs(ids, id[k..] + s)) && OnePass(ids, s) == t
  {
    hide OnePass, Occurs, IsLegacyPrefix, Legacy;
    var tail := id[|p|..];
    PrefixIsNotEmpty(p);
    forall k | 0 < k < |p| ensures !Occurs(ids, id[k..] + s) {
      NotInsideOld(p, tail + s, k);
      assert (p + (tail + s))[k..] == id[k..] + s;
      if Occurs(ids, id[k..] + s) { OccursIsLegacy(ids, id[k..] + s); }
    }
    if OnePass(ids, tail + s) == tail + t {
      KeptIsClear(ids, tail, s, t);
      forall k | 0 < k < |id| ensures !Occurs(ids, id[k..] + s) {
        if k >= |p| { assert id[k..] == tail[k - |p|..]; }
      }
    }
    if forall k | 0 < k < |id| :: !Occurs(ids, id[k..] + s) {
      forall k | 0 <= k < |tail| ensures !Occurs(ids, tail[k..] + s) { assert tail[k..] == id[|p| + k..]; }
      PassSkips(ids, tail, s);
    }
  }

  /** A pass renames exactly the ids of the text, exactly when renamed ids begin nowhere
      else in it. */
  lemma {:induction false} PassFollowsIff(ids: seq<string>, ps: seq<Piece>)
    requires forall i | 0 <= i < |ps| :: Legacy(ps[i].id) ==> ps[i].id in ids
    ensures OnePass(ids, Spell(ps, All(|ps|, false))) == Spell(ps, All(|ps|, true)) <==> OnlyThere(ids, ps)
    decreases |ps|
  {
    hide OnePass, Occurs, RenameId, Legacy;
    if ps == [] {
      PassEmpty(ids);
    } else {
      var gap, id, none, all := ps[0].gap, ps[0].id, All(|ps|, false), All(|ps|, true);
      assert none[1..] == All(|ps| - 1, false) && all[1..] == All(|ps| - 1, true);
      var s, t := Spell(ps[1..], none[1..]), Spell(ps[1..], all[1..]);
      assert forall i | 0 <= i < |ps| - 1 :: ps[1..][i] == ps[i + 1];
      PassFollowsIff(ids, ps[1..]);
      IdPasses(ids, id, s, t);
      if OnePass(ids, gap + (id + s)) == gap + (RenameId(id) + t) {
        KeptIsClear(ids, gap, id + s, RenameId(id) + t);
      }
      if forall k | 0 <= k < |gap| :: !Occurs(ids, gap[k..] + (id + s)) {
        PassSkips(ids, gap, id + s);
        SameTail(gap, OnePass(ids, id + s), RenameId(id) + t);
      }
    }
  }

  /** For components whose ids do not run into each other, an edge id that spells some of
      them follows them exactly when renamed ids begin nowhere else in it. */
  lemma EdgeIdFollowsIff(components: Fields, order: seq<string>, ps: seq<Piece>)
    requires IsOrder(order, components) && AllPlain(order)
    requires forall i | 0 <= i < |ps| :: ps[i].id in components || RenameId(ps[i].id) == ps[i].id
    ensures ReplaceAll(IdMap(components), LongestFirst(order), Spell(ps, All(|ps|, false))) == Spell(ps, All(|ps|, true))
            <==> OnlyThere(LongestFirst(order), ps)
  {
    hide RenameId, Legacy, Spell, Replace, OnlyThere, OnePass, Plain;
    var ids := LongestFirst(order);
    LongestFirstSorts(order);
    forall id ensures id in ids <==> id in components {
      assert id in ids <==> id in multiset(ids);
      assert id in order <==> id in multiset(order);
    }
    ChainIsOnePass(IdMap(components), ids, Spell(ps, All(|ps|, false)));
    forall i | 0 <= i < |ps| ensures Legacy(ps[i].id) ==> ps[i].id in ids { LegacyIff(ps[i].id); }
    PassFollowsIff(ids, ps);
  }
}
