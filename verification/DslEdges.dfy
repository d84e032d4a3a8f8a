/** What the chained replaces of the migration do to the text of an edge id
    (agent/dsl_migration.py): when every component id spelled in it follows its
    component, and an example where one does not. */
module DslEdges {
  import opened Basics
  import opened VariableRefs
  import opened JsonRewrite
  import opened DslMigration

  // ------------------------------------------------------------------ legacy prefixes

  predicate IsLegacyPrefix(p: string) { p == "Splitter:" || p == "HierarchicalMerger:" || p == "PDFGenerator:" }

  /** Whether a text begins like an id that is renamed. */
  ghost predicate Legacy(s: string) { exists p | IsLegacyPrefix(p) :: p <= s }

  function NewPrefix(p: string): string {
    if p == "Splitter:" then "TokenChunker:" else if p == "HierarchicalMerger:" then "TitleChunker:" else "DocGenerator:"
  }

  /** A renamed id is its legacy prefix exchanged. */
  lemma RenamedPrefix(p: string, id: string)
    requires IsLegacyPrefix(p) && p <= id
    ensures RenameId(id) == NewPrefix(p) + id[|p|..] && RenameId(id) != id
  {
    assert "Splitter:"[0] == 'S' && "HierarchicalMerger:"[0] == 'H' && "PDFGenerator:"[0] == 'P';
    assert "TokenChunker:"[0] == 'T' && "TitleChunker:"[0] == 'T' && "DocGenerator:"[0] == 'D';
    assert p[0] == id[0];
  }

  lemma LegacyIff(id: string)
    ensures Legacy(id) <==> RenameId(id) != id
  {
    if p :| IsLegacyPrefix(p) && p <= id { RenamedPrefix(p, id); }
    if RenameId(id) != id {
      var p := if "Splitter:" <= id then "Splitter:" else if "HierarchicalMerger:" <= id then "HierarchicalMerger:" else "PDFGenerator:";
      assert IsLegacyPrefix(p) && p <= id;
    }
  }

  /** Only one legacy prefix fits. */
  lemma OnePrefix(p: string, q: string, s: string)
    requires IsLegacyPrefix(p) && IsLegacyPrefix(q) && p <= s && q <= s
    ensures p == q
  {
    assert "Splitter:"[0] == 'S' && "HierarchicalMerger:"[0] == 'H' && "PDFGenerator:"[0] == 'P';
    assert p[0] == s[0] == q[0];
  }

  /** A legacy prefix holds none of the first letters of a new one behind its own first
      letter, but for the D of PDF. */
  lemma PrefixLetters(p: string, i: nat)
    requires IsLegacyPrefix(p) && 0 < i < |p|
    ensures p[i] != 'T' && (p[i] == 'D' ==> i + 1 < |p| && p[i + 1] == 'F')
  {
    if p == "Splitter:" {
      assert p[i] in "plitter:";
    } else if p == "HierarchicalMerger:" {
      assert p[i] in "ierarchicalMerger:";
    } else {
      assert i != 1 ==> p[i] in "FGenerator:";
    }
  }

  /** So no legacy prefix that begins in front of a new prefix reaches into it. */
  lemma NotAcross(p: string, q: string, w: string, z: string)
    requires IsLegacyPrefix(p) && IsLegacyPrefix(q) && w != "" && p <= w + (NewPrefix(q) + z)
    ensures |p| <= |w|
  {
    var n := NewPrefix(q);
    assert n[0] == 'T' || (n[0] == 'D' && n[1] == 'o');
    var s := w + (n + z);
    assert s[|w|] == n[0] && s[|w| + 1] == n[1];
    assert |p| > |w| ==> p[|w|] == s[|w|];
    assert |p| > |w| + 1 ==> p[|w| + 1] == s[|w| + 1];
    if |p| > |w| { PrefixLetters(p, |w|); }
  }

  /** And none begins inside one. */
  lemma NotInside(q: string, z: string, k: nat)
    requires IsLegacyPrefix(q) && k < |NewPrefix(q)|
    ensures !Legacy((NewPrefix(q) + z)[k..])
  {
    var n := NewPrefix(q);
    var s := (n + z)[k..];
    assert s[0] == n[k];
    assert n[k] != 'S' && n[k] != 'H' && n[k] != 'P' by {
      if q == "Splitter:" { assert n[k] in "TokenChunker:"; }
      else if q == "HierarchicalMerger:" { assert n[k] in "TitleChunker:"; }
      else { assert n[k] in "DocGenerator:"; }
    }
    assert "Splitter:"[0] == 'S' && "HierarchicalMerger:"[0] == 'H' && "PDFGenerator:"[0] == 'P';
  }

  // ------------------------------------------------------------------ spelling

  /** A stretch of other text and a component id behind it; the id of the last piece may be
      empty. */
  datatype Piece = Piece(gap: string, id: string)

  /** The text, with the ids that are done renamed. */
  function Spell(ps: seq<Piece>, done: seq<bool>): string
    requires |ps| == |done|
  {
    if ps == [] then ""
    else ps[0].gap + ((if done[0] then RenameId(ps[0].id) else ps[0].id) + Spell(ps[1..], done[1..]))
  }

  function All(n: nat, b: bool): seq<bool> { seq(n, _ => b) }

  /** Legacy prefixes begin nowhere but at the beginning of the ids that are renamed. */
  ghost predicate Tidy(ps: seq<Piece>) {
    ps != [] ==>
      var id, after := ps[0].id, Spell(ps[1..], All(|ps| - 1, false));
      && (forall k | 0 <= k < |ps[0].gap| :: !Legacy(ps[0].gap[k..] + (id + after)))
      && (forall k | 0 <= k < |id| :: k > 0 || !Legacy(id) ==> !Legacy(id[k..] + after))
      && Tidy(ps[1..])
  }

  /** No id that is renamed begins with an id of the text and the gap behind it and goes on:
      none can be taken for reaching into the next id. */
  ghost predicate Apart(ids: seq<string>, ps: seq<Piece>) {
    |ps| > 1 ==>
      && (forall old_ | old_ in ids && Legacy(old_) :: ps[0].id + ps[1].gap <= old_ ==> old_ == ps[0].id + ps[1].gap)
      && Apart(ids, ps[1..])
  }

  lemma SpellFirst(ps: seq<Piece>, done: seq<bool>, u: string)
    requires |ps| == |done| && ps != []
    ensures var gap, id, after := ps[0].gap, ps[0].id, Spell(ps[1..], done[1..]);
            && Spell(ps, done) == gap + ((if done[0] then RenameId(id) else id) + after)
            && (!done[0] || RenameId(id) == id ==> u + Spell(ps, done) == (u + gap + id) + after)
  {
    hide RenameId;
    var gap, id, after := ps[0].gap, ps[0].id, Spell(ps[1..], done[1..]);
    assert u + (gap + (id + after)) == (u + gap + id) + after;
  }

  /** A legacy prefix that fits in front of a renamed id fits without the renaming. */
  lemma FitsBefore(p: string, w: string, id: string, after: string, other: string)
    requires IsLegacyPrefix(p) && w != "" && RenameId(id) != id && p <= w + (RenameId(id) + after)
    ensures p <= w + other
  {
    hide RenameId, NewPrefix, IsLegacyPrefix;
    LegacyIff(id);
    var q :| IsLegacyPrefix(q) && q <= id;
    RenamedPrefix(q, id);
    var z := id[|q|..] + after;
    assert RenameId(id) + after == NewPrefix(q) + z;
    NotAcross(p, q, w, z);
    assert p <= w;
  }

  /** What is done to later ids makes no legacy prefix appear in front of them. */
  lemma {:induction false} StaysClear(p: string, u: string, ps: seq<Piece>, done: seq<bool>)
    requires IsLegacyPrefix(p) && u != "" && |ps| == |done| && p <= u + Spell(ps, done)
    ensures p <= u + Spell(ps, All(|ps|, false))
    decreases |ps|
  {
    hide Spell, RenameId, IsLegacyPrefix;
    if ps == [] {
      assert done == All(0, false);
    } else {
      var gap, id := ps[0].gap, ps[0].id;
      var none := All(|ps|, false);
      assert none[1..] == All(|ps| - 1, false);
      SpellFirst(ps, none, u);
      SpellFirst(ps, done, u);
      if done[0] && RenameId(id) != id {
        var after, other := Spell(ps[1..], done[1..]), id + Spell(ps[1..], none[1..]);
        assert u + Spell(ps, done) == (u + gap) + (RenameId(id) + after);
        FitsBefore(p, u + gap, id, after, other);
        assert u + Spell(ps, none) == (u + gap) + other;
      } else {
        StaysClear(p, u + gap + id, ps[1..], done[1..]);
      }
    }
  }

  lemma ClearStays(u: string, ps: seq<Piece>, done: seq<bool>)
    requires u != "" && |ps| == |done| && !Legacy(u + Spell(ps, All(|ps|, false)))
    ensures !Legacy(u + Spell(ps, done))
  {
    if p :| IsLegacyPrefix(p) && p <= u + Spell(ps, done) { StaysClear(p, u, ps, done); }
  }

  // ------------------------------------------------------------------ one replace

  lemma ReplaceMisses(s: string, old_: string, new_: string)
    requires old_ != "" && s != "" && !(old_ <= s)
    ensures Replace(s, old_, new_) == [s[0]] + Replace(s[1..], old_, new_)
  {
  }

  /** A stretch in which no occurrence begins is copied. */
  lemma {:induction false} ReplaceSkips(u: string, s: string, old_: string, new_: string)
    requires old_ != "" && forall k | 0 <= k < |u| :: !(old_ <= u[k..] + s)
    ensures Replace(u + s, old_, new_) == u + Replace(s, old_, new_)
  {
    hide Replace;
    if u == "" {
      assert u + s == s;
    } else {
      assert u[0..] == u && (u + s)[1..] == u[1..] + s;
      ReplaceMisses(u + s, old_, new_);
      forall k | 0 <= k < |u[1..]| ensures !(old_ <= u[1..][k..] + s) { assert u[1..][k..] == u[k + 1..]; }
      ReplaceSkips(u[1..], s, old_, new_);
      assert [u[0]] + (u[1..] + Replace(s, old_, new_)) == u + Replace(s, old_, new_);
    }
  }

  lemma PrefixOf(p: string, x: string, s: string)
    requires p <= x && x <= s
    ensures p <= s
  {
  }

  /** An occurrence of a renamed id begins with a legacy prefix. */
  lemma OccurrenceIsLegacy(old_: string, s: string)
    requires Legacy(old_) && old_ <= s
    ensures Legacy(s) && old_ != ""
  {
    var p :| IsLegacyPrefix(p) && p <= old_;
    PrefixOf(p, old_, s);
  }

  /** Where an id that is renamed occurs at another one, both have the same prefix, and the
      exchange of the one is the exchange of the other. */
  lemma SharedPrefix(id: string, old_: string, s: string) returns (q: string)
    requires Legacy(id) && Legacy(old_) && old_ <= id + s
    ensures IsLegacyPrefix(q) && q <= id && q <= old_
    ensures RenameId(id) == NewPrefix(q) + id[|q|..] && RenameId(old_) == NewPrefix(q) + old_[|q|..]
  {
    q :| IsLegacyPrefix(q) && q <= id;
    var p :| IsLegacyPrefix(p) && p <= old_;
    PrefixOf(p, old_, id + s);
    OnePrefix(p, q, id + s);
    RenamedPrefix(q, id);
    RenamedPrefix(q, old_);
  }

  lemma ReplaceAtStart(s: string, old_: string, new_: string)
    requires old_ != "" && old_ <= s
    ensures Replace(s, old_, new_) == new_ + Replace(s[|old_|..], old_, new_)
  {
  }

  /** An occurrence that ends inside the id. */
  lemma MatchedWithin(id: string, s: string, old_: string)
    requires Legacy(id) && Legacy(old_) && old_ != "" && old_ <= id
    requires forall k | 0 < k < |id| :: !(old_ <= id[k..] + s)
    ensures Replace(id + s, old_, RenameId(old_)) == RenameId(id) + Replace(s, old_, RenameId(old_))
  {
    hide RenameId, NewPrefix, Legacy, IsLegacyPrefix, Replace;
    assert old_ <= id + s;
    var q := SharedPrefix(id, old_, s);
    var u, new_ := id[|old_|..], RenameId(old_);
    assert old_ <= id + s && (id + s)[|old_|..] == u + s;
    ReplaceAtStart(id + s, old_, new_);
    forall k | 0 <= k < |u| ensures !(old_ <= u[k..] + s) { assert u[k..] == id[|old_| + k..]; }
    ReplaceSkips(u, s, old_, new_);
    assert old_[|q|..] + u == id[|q|..];
    assert new_ + u == NewPrefix(q) + (old_[|q|..] + u);
    var tail := Replace(s, old_, new_);
    assert new_ + (u + tail) == (new_ + u) + tail;
  }

  /** What is left of a gap is copied like the gap. */
  lemma SkipPart(gap: string, rest: string, old_: string, new_: string, j: nat)
    requires old_ != "" && j <= |gap| && forall k | 0 <= k < |gap| :: !(old_ <= gap[k..] + rest)
    ensures gap[..j] + Replace(gap[j..] + rest, old_, new_) == Replace(gap + rest, old_, new_)
  {
    hide Replace;
    forall k | 0 <= k < |gap[j..]| ensures !(old_ <= gap[j..][k..] + rest) { assert gap[j..][k..] == gap[j + k..]; }
    ReplaceSkips(gap[j..], rest, old_, new_);
    ReplaceSkips(gap, rest, old_, new_);
    var tail := Replace(rest, old_, new_);
    assert gap[..j] + (gap[j..] + tail) == gap + tail;
  }

  /** An occurrence that goes on into the gap behind the id. */
  lemma MatchedBeyond(id: string, gap: string, rest: string, old_: string)
    requires Legacy(id) && Legacy(old_) && |id| < |old_| <= |id| + |gap| && old_ <= id + (gap + rest)
    requires forall k | 0 <= k < |gap| :: !(old_ <= gap[k..] + rest)
    ensures Replace(id + (gap + rest), old_, RenameId(old_))
            == RenameId(id) + Replace(gap + rest, old_, RenameId(old_))
  {
    hide RenameId, NewPrefix, Legacy, IsLegacyPrefix, Replace;
    var s, j, new_ := id + (gap + rest), |old_| - |id|, RenameId(old_);
    assert s[..|old_|] == id + gap[..j] && s[|old_|..] == gap[j..] + rest;
    assert old_ == id + gap[..j];
    RenamedBeyond(id, gap[..j]);
    ReplaceAtStart(s, old_, new_);
    SkipPart(gap, rest, old_, new_, j);
    var left := Replace(gap[j..] + rest, old_, new_);
    assert (RenameId(id) + gap[..j]) + left == RenameId(id) + (gap[..j] + left);
  }

  lemma RenamedBeyond(id: string, more: string)
    requires Legacy(id)
    ensures RenameId(id + more) == RenameId(id) + more
  {
    hide RenameId, NewPrefix, IsLegacyPrefix;
    var q :| IsLegacyPrefix(q) && q <= id;
    RenamedPrefix(q, id);
    RenamedPrefix(q, id + more);
    assert (id + more)[|q|..] == id[|q|..] + more;
  }

  /** Which ids of the text one replace takes: those where the replaced id occurs. */
  function Taken(ps: seq<Piece>, done: seq<bool>, old_: string): seq<bool>
    requires |ps| == |done|
  {
    if ps == [] then []
    else [done[0] || old_ <= ps[0].id + Spell(ps[1..], done[1..])] + Taken(ps[1..], done[1..], old_)
  }

  lemma {:induction false} TakenMeans(ps: seq<Piece>, done: seq<bool>, old_: string)
    requires |ps| == |done|
    ensures |Taken(ps, done, old_)| == |ps|
    ensures forall i | 0 <= i < |ps| :: done[i] || ps[i].id == old_ ==> Taken(ps, done, old_)[i]
    decreases |ps|
  {
    if ps != [] {
      TakenMeans(ps[1..], done[1..], old_);
      forall i | 0 <= i < |ps| && (done[i] || ps[i].id == old_) ensures Taken(ps, done, old_)[i] {
        if i > 0 { assert ps[1..][i - 1] == ps[i] && done[1..][i - 1] == done[i]; }
      }
    }
  }

  /** The text behind the gap of the first piece. */
  function BehindGap(ps: seq<Piece>, done: seq<bool>): string
    requires |ps| == |done| && ps != []
  {
    (if done[0] then RenameId(ps[0].id) else ps[0].id) + Spell(ps[1..], done[1..])
  }

  /** No id that is renamed occurs in a gap, whatever has been done. */
  lemma GapIsClear(ps: seq<Piece>, done: seq<bool>, old_: string, k: nat)
    requires |ps| == |done| && ps != [] && Tidy(ps) && Legacy(old_) && k < |ps[0].gap|
    ensures !(old_ <= ps[0].gap[k..] + BehindGap(ps, done))
  {
    hide Legacy, RenameId;
    var u, qs, none := ps[0].gap[k..], [Piece("", ps[0].id)] + ps[1..], All(|ps|, false);
    assert qs[1..] == ps[1..] && none[1..] == All(|ps| - 1, false);
    assert Spell(qs, none) == ps[0].id + Spell(ps[1..], none[1..]);
    assert Spell(qs, done) == BehindGap(ps, done);
    ClearStays(u, qs, done);
    if old_ <= u + BehindGap(ps, done) { OccurrenceIsLegacy(old_, u + BehindGap(ps, done)); }
  }

  ghost predicate IdIsTidy(id: string, ps: seq<Piece>) {
    forall k | 0 <= k < |id| :: k > 0 || !Legacy(id) ==> !Legacy(id[k..] + Spell(ps, All(|ps|, false)))
  }

  /** Nor in an id, but at the beginning of one that is renamed. */
  lemma IdIsClear(id: string, ps: seq<Piece>, done: seq<bool>, old_: string, k: nat)
    requires |ps| == |done| && IdIsTidy(id, ps) && Legacy(old_) && k < |id| && (k > 0 || !Legacy(id))
    ensures !(old_ <= id[k..] + Spell(ps, done))
  {
    hide Legacy, Spell;
    ClearStays(id[k..], ps, done);
    if old_ <= id[k..] + Spell(ps, done) { OccurrenceIsLegacy(old_, id[k..] + Spell(ps, done)); }
  }

  /** Nor in an id that has been renamed. */
  lemma RenamedIsClear(id: string, ps: seq<Piece>, done: seq<bool>, old_: string, k: nat)
    requires |ps| == |done| && IdIsTidy(id, ps) && Legacy(old_) && Legacy(id) && k < |RenameId(id)|
    ensures !(old_ <= RenameId(id)[k..] + Spell(ps, done))
  {
    hide RenameId, NewPrefix, Spell, IdIsTidy, IsLegacyPrefix;
    var q :| IsLegacyPrefix(q) && q <= id;
    RenamedIsClearAt(q, id, ps, done, old_, k);
  }

  lemma RenamedIsClearAt(q: string, id: string, ps: seq<Piece>, done: seq<bool>, old_: string, k: nat)
    requires |ps| == |done| && IdIsTidy(id, ps) && Legacy(old_) && k < |RenameId(id)| && IsLegacyPrefix(q) && q <= id
    ensures !(old_ <= RenameId(id)[k..] + Spell(ps, done))
  {
    hide RenameId, NewPrefix, Spell, IdIsTidy, IsLegacyPrefix, Legacy;
    RenamedPrefix(q, id);
    PrefixIsNotEmpty(q);
    var n, z, after := NewPrefix(q), id[|q|..], Spell(ps, done);
    if k < |n| {
      NotInside(q, z + after, k);
      var s := RenameId(id)[k..] + after;
      assert (n + (z + after))[k..] == s;
      if old_ <= s { OccurrenceIsLegacy(old_, s); }
    } else {
      var j := |q| + (k - |n|);
      assert RenameId(id)[k..] == id[j..];
      IdIsClear(id, ps, done, old_, j);
    }
  }

  lemma PrefixIsNotEmpty(q: string)
    requires IsLegacyPrefix(q)
    ensures q != ""
  {
  }

  /** An id that is renamed already, or never, is copied. */
  lemma DoneIsCopied(id: string, ps: seq<Piece>, done: seq<bool>, old_: string, new_: string)
    requires Legacy(old_) && old_ != "" && |ps| == |done| && IdIsTidy(id, ps)
    ensures Replace(RenameId(id) + Spell(ps, done), old_, new_) == RenameId(id) + Replace(Spell(ps, done), old_, new_)
  {
    hide Legacy, RenameId, Replace, Spell, IdIsTidy;
    var shown := RenameId(id);
    LegacyIff(id);
    forall k | 0 <= k < |shown| ensures !(old_ <= shown[k..] + Spell(ps, done)) {
      if Legacy(id) { RenamedIsClear(id, ps, done, old_, k); } else { IdIsClear(id, ps, done, old_, k); }
    }
    ReplaceSkips(shown, Spell(ps, done), old_, new_);
  }

  lemma GapIsCopied(ps: seq<Piece>, done: seq<bool>, old_: string, new_: string)
    requires |ps| == |done| && ps != [] && Tidy(ps) && Legacy(old_) && old_ != ""
    ensures Replace(Spell(ps, done), old_, new_) == ps[0].gap + Replace(BehindGap(ps, done), old_, new_)
  {
    hide Legacy, RenameId, Replace, Tidy;
    forall k | 0 <= k < |ps[0].gap| ensures !(old_ <= ps[0].gap[k..] + BehindGap(ps, done)) {
      GapIsClear(ps, done, old_, k);
    }
    ReplaceSkips(ps[0].gap, BehindGap(ps, done), old_, new_);
  }

  /** An id where the replaced one does not occur is copied. */
  lemma IdIsLeft(id: string, ps: seq<Piece>, done: seq<bool>, old_: string, new_: string)
    requires |ps| == |done| && IdIsTidy(id, ps) && Legacy(old_) && old_ != ""
    requires id == "" || !(old_ <= id + Spell(ps, done))
    ensures Replace(id + Spell(ps, done), old_, new_) == id + Replace(Spell(ps, done), old_, new_)
  {
    hide Legacy, Spell, Replace, IdIsTidy;
    forall k | 0 <= k < |id| ensures !(old_ <= id[k..] + Spell(ps, done)) {
      if k > 0 { IdIsClear(id, ps, done, old_, k); } else { assert id[0..] == id; }
    }
    ReplaceSkips(id, Spell(ps, done), old_, new_);
  }

  lemma TakenIsLegacy(id: string, ps: seq<Piece>, done: seq<bool>, old_: string)
    requires |ps| == |done| && IdIsTidy(id, ps) && Legacy(old_) && id != "" && old_ <= id + Spell(ps, done)
    ensures Legacy(id)
  {
    hide Legacy, Spell, IdIsTidy;
    assert id[0..] == id;
    if !Legacy(id) { IdIsClear(id, ps, done, old_, 0); }
  }

  lemma TakenWithin(id: string, ps: seq<Piece>, done: seq<bool>, old_: string)
    requires |ps| == |done| && IdIsTidy(id, ps) && Legacy(old_) && old_ != "" && Legacy(id)
    requires |old_| <= |id| && old_ <= id + Spell(ps, done)
    ensures Replace(id + Spell(ps, done), old_, RenameId(old_))
            == RenameId(id) + Replace(Spell(ps, done), old_, RenameId(old_))
  {
    hide Legacy, Replace, Spell, IdIsTidy, RenameId;
    var s := Spell(ps, done);
    assert old_ == (id + s)[..|old_|] == id[..|old_|];
    forall k | 0 < k < |id| ensures !(old_ <= id[k..] + s) { IdIsClear(id, ps, done, old_, k); }
    MatchedWithin(id, s, old_);
  }

  lemma SpellSplits(ps: seq<Piece>, done: seq<bool>)
    requires |ps| == |done|
    ensures Spell(ps, done) == if ps == [] then "" else ps[0].gap + BehindGap(ps, done)
  {
    hide RenameId;
  }

  lemma TakenBeyond(id: string, ps: seq<Piece>, done: seq<bool>, old_: string)
    requires |ps| == |done| && Tidy(ps) && Legacy(old_) && Legacy(id)
    requires |id| < |old_| && old_ <= id + Spell(ps, done)
    requires ps != [] && id + ps[0].gap <= old_ ==> old_ == id + ps[0].gap
    ensures Replace(id + Spell(ps, done), old_, RenameId(old_))
            == RenameId(id) + Replace(Spell(ps, done), old_, RenameId(old_))
  {
    hide Legacy, Replace, Spell, Tidy, RenameId, BehindGap;
    SpellSplits(ps, done);
    assert ps != [];
    var gap, rest := ps[0].gap, BehindGap(ps, done);
    assert (id + (gap + rest))[..|id| + |gap|] == id + gap;
    assert |old_| > |id| + |gap| ==> id + gap <= old_;
    forall k | 0 <= k < |gap| ensures !(old_ <= gap[k..] + rest) { GapIsClear(ps, done, old_, k); }
    MatchedBeyond(id, gap, rest, old_);
  }

  /** An id where the replaced one occurs is renamed, wherever the occurrence ends. */
  lemma IdIsTaken(id: string, ps: seq<Piece>, done: seq<bool>, old_: string)
    requires |ps| == |done| && IdIsTidy(id, ps) && Tidy(ps) && Legacy(old_) && id != "" && old_ <= id + Spell(ps, done)
    requires ps != [] && id + ps[0].gap <= old_ ==> old_ == id + ps[0].gap
    ensures Replace(id + Spell(ps, done), old_, RenameId(old_))
            == RenameId(id) + Replace(Spell(ps, done), old_, RenameId(old_))
  {
    hide Legacy, Replace, IdIsTidy, Tidy, RenameId, Spell;
    TakenIsLegacy(id, ps, done, old_);
    LegacyIsNotEmpty(old_);
    if |old_| <= |id| { TakenWithin(id, ps, done, old_); } else { TakenBeyond(id, ps, done, old_); }
  }

  /** One replace renames the ids it takes and changes nothing else. */
  lemma {:induction false} ReplaceTakes(ps: seq<Piece>, done: seq<bool>, ids: seq<string>, old_: string)
    requires |ps| == |done| && Tidy(ps) && Apart(ids, ps) && old_ in ids && Legacy(old_) && old_ != ""
    ensures |Taken(ps, done, old_)| == |ps|
    ensures Replace(Spell(ps, done), old_, RenameId(old_)) == Spell(ps, Taken(ps, done, old_))
    decreases |ps|
  {
    hide Legacy, RenameId, Replace;
    TakenMeans(ps, done, old_);
    if ps == [] {
      NothingToReplace(old_);
    } else {
      var id, rest, new_ := ps[0].id, ps[1..], RenameId(old_);
      var after := Spell(rest, done[1..]);
      ReplaceTakes(rest, done[1..], ids, old_);
      GapIsCopied(ps, done, old_, new_);
      EmptyStays();
      assert IdIsTidy(id, rest);
      if done[0] {
        DoneIsCopied(id, rest, done[1..], old_, new_);
      } else if id != "" && old_ <= id + after {
        IdIsTaken(id, rest, done[1..], old_);
      } else {
        IdIsLeft(id, rest, done[1..], old_, new_);
      }
      assert Taken(ps, done, old_)[1..] == Taken(rest, done[1..], old_);
    }
  }

  lemma NothingToReplace(old_: string)
    requires old_ != ""
    ensures Replace("", old_, RenameId(old_)) == ""
  {
  }

  lemma EmptyStays()
    ensures RenameId("") == ""
  {
  }

  // ------------------------------------------------------------------ the chain

  lemma {:induction false} SpellAlike(ps: seq<Piece>, done: seq<bool>)
    requires |ps| == |done| && forall i | 0 <= i < |ps| :: done[i] || RenameId(ps[i].id) == ps[i].id
    ensures Spell(ps, done) == Spell(ps, All(|ps|, true))
    decreases |ps|
  {
    hide RenameId;
    if ps != [] {
      forall i | 0 <= i < |ps| - 1 ensures done[1..][i] || RenameId(ps[1..][i].id) == ps[1..][i].id {
        assert ps[1..][i] == ps[i + 1] && done[1..][i] == done[i + 1];
      }
      SpellAlike(ps[1..], done[1..]);
      assert All(|ps|, true)[1..] == All(|ps| - 1, true);
    }
  }

  lemma {:induction false} ApartShrinks(ids: seq<string>, ps: seq<Piece>)
    requires ids != [] && Apart(ids, ps)
    ensures Apart(ids[1..], ps)
    decreases |ps|
  {
    hide Legacy;
    if |ps| > 1 { ApartShrinks(ids, ps[1..]); }
  }

  /** The whole chain renames every id of the text that is among the replaced ones. */
  lemma {:induction false} ChainRenames(m: Renaming, ids: seq<string>, ps: seq<Piece>, done: seq<bool>)
    requires |ps| == |done| && Tidy(ps) && Apart(ids, ps)
    requires forall id | id in ids :: Lookup(m, id) == RenameId(id)
    requires forall i | 0 <= i < |ps| :: done[i] || RenameId(ps[i].id) == ps[i].id || ps[i].id in ids
    ensures ReplaceAll(m, ids, Spell(ps, done)) == Spell(ps, All(|ps|, true))
    decreases |ids|
  {
    hide Legacy, RenameId, Replace, Tidy, Apart, Spell;
    if ids == [] {
      SpellAlike(ps, done);
    } else {
      var old_ := ids[0];
      ApartShrinks(ids, ps);
      LegacyIff(old_);
      if RenameId(old_) == old_ {
        ReplaceSame(Spell(ps, done), old_);
        ChainRenames(m, ids[1..], ps, done);
      } else {
        LegacyIsNotEmpty(old_);
        ReplaceTakes(ps, done, ids, old_);
        TakenMeans(ps, done, old_);
        ChainRenames(m, ids[1..], ps, Taken(ps, done, old_));
      }
    }
  }

  lemma LegacyIsNotEmpty(id: string)
    requires Legacy(id)
    ensures id != ""
  {
  }

  /** When the text of an edge id spells component ids with other text between them, legacy
      prefixes begin nowhere else in it, and no renamed id can be taken for reaching from
      one id of the text into the next, then every id in it is renamed like its component
      and the other text is kept.  In such a text the order of the replacements does not
      matter. */
  lemma AnyOrderFollows(components: Fields, ids: seq<string>, ps: seq<Piece>)
    requires forall id :: id in ids <==> id in components
    requires Tidy(ps) && Apart(ids, ps)
    requires forall i | 0 <= i < |ps| :: ps[i].id in components || RenameId(ps[i].id) == ps[i].id
    ensures ReplaceAll(IdMap(components), ids, Spell(ps, All(|ps|, false))) == Spell(ps, All(|ps|, true))
  {
    hide RenameId, Legacy, Tidy, Apart, Spell, Replace;
    ChainRenames(IdMap(components), ids, ps, All(|ps|, false));
  }

  /** In particular with the longest id first, as the migration does. */
  lemma EdgeIdFollows(components: Fields, order: seq<string>, ps: seq<Piece>)
    requires IsOrder(order, components)
    requires Tidy(ps) && Apart(LongestFirst(order), ps)
    requires forall i | 0 <= i < |ps| :: ps[i].id in components || RenameId(ps[i].id) == ps[i].id
    ensures ReplaceAll(IdMap(components), LongestFirst(order), Spell(ps, All(|ps|, false)))
            == Spell(ps, All(|ps|, true))
  {
    hide RenameId, Legacy, Tidy, Apart, Spell, Replace;
    var ids := LongestFirst(order);
    LongestFirstSorts(order);
    forall id ensures id in ids <==> id in components {
      assert id in ids <==> id in multiset(ids);
      assert id in order <==> id in multiset(order);
    }
    AnyOrderFollows(components, ids, ps);
  }

  /** The same of an edge of the drawn graph. */
  lemma DrawnEdgeFollows(components: Fields, order: seq<string>, ps: seq<Piece>, edge: Json)
    requires IsOrder(order, components)
    requires Tidy(ps) && Apart(LongestFirst(order), ps)
    requires forall i | 0 <= i < |ps| :: ps[i].id in components || RenameId(ps[i].id) == ps[i].id
    requires edge.Obj? && Get(edge.fields, "id") == Str(Spell(ps, All(|ps|, false)))
    ensures var after := NewEdge(IdMap(components), LongestFirst(order), edge);
            after.Obj? && Get(after.fields, "id") == Str(Spell(ps, All(|ps|, true)))
  {
    hide RenameId, Legacy, Tidy, Apart, Spell, ReplaceAll, LongestFirst;
    EdgeIdFollows(components, order, ps);
    var m := IdMap(components);
    var first := MapText(edge.fields, "source", LookupIn(m));
    var second := MapText(first, "target", LookupIn(m));
    assert Get(first, "id") == Get(edge.fields, "id") && Get(second, "id") == Get(first, "id");
  }

  // ------------------------------------------------------------------ where it does not

  /** Behind a new prefix, an id that is renamed is replaced. */
  lemma InnerIsReplaced(q: string, inner: string)
    requires IsLegacyPrefix(q) && Legacy(inner)
    ensures Replace(NewPrefix(q) + inner, inner, RenameId(inner)) == NewPrefix(q) + RenameId(inner)
  {
    hide Replace, RenameId, NewPrefix, Legacy, IsLegacyPrefix;
    var n := NewPrefix(q);
    LegacyIsNotEmpty(inner);
    forall k | 0 <= k < |n| ensures !(inner <= n[k..] + inner) {
      NotInside(q, inner, k);
      assert (n + inner)[k..] == n[k..] + inner;
      if inner <= n[k..] + inner { OccurrenceIsLegacy(inner, n[k..] + inner); }
    }
    ReplaceSkips(n, inner, inner, RenameId(inner));
    WholeIsReplaced(inner);
  }

  lemma WholeIsReplaced(id: string)
    requires id != ""
    ensures Replace(id, id, RenameId(id)) == RenameId(id)
  {
    hide RenameId;
    assert id[|id|..] == "";
    NothingToReplace(id);
  }

  lemma LongerFirstOfTwo(short: string, long: string)
    requires |short| < |long|
    ensures LongestFirst([short, long]) == [long, short]
  {
    var none: seq<string> := [];
    assert [short, long][1..] == [long] && [long][1..] == none;
    assert LongestFirst(none) == none && LongestFirst([long]) == [long];
    assert InsertByLength(short, none) == [short];
  }

  /** An id inside another one: a component `HierarchicalMerger:Splitter:x` becomes
      `TitleChunker:Splitter:x`, but an edge id that spells it has the inner id exchanged
      too if that is a component of its own.  This holds for every legacy id inside
      another one. */
  lemma NestedIdIsOverwritten(q: string, inner: string, m: Renaming)
    requires IsLegacyPrefix(q) && Legacy(inner)
    requires Lookup(m, inner) == RenameId(inner) && Lookup(m, q + inner) == RenameId(q + inner)
    ensures var outer := q + inner;
            && RenameId(outer) == NewPrefix(q) + inner
            && ReplaceAll(m, LongestFirst([inner, outer]), outer) == NewPrefix(q) + RenameId(inner)
            && RenameId(inner) != inner
  {
    hide Replace, RenameId, NewPrefix, Legacy, IsLegacyPrefix, LongestFirst;
    var outer, none := q + inner, [];
    PrefixIsNotEmpty(q);
    RenamedPrefix(q, outer);
    assert outer[|q|..] == inner;
    LegacyIff(inner);
    LongerFirstOfTwo(inner, outer);
    WholeIsReplaced(outer);
    InnerIsReplaced(q, inner);
    assert [outer, inner][1..] == [inner] && [inner][1..] == none;
    assert ReplaceAll(m, none, NewPrefix(q) + RenameId(inner)) == NewPrefix(q) + RenameId(inner);
    assert ReplaceAll(m, [inner], NewPrefix(q) + inner) == NewPrefix(q) + RenameId(inner);
  }

  /** No legacy prefix begins inside a legacy prefix. */
  lemma NotInsideOld(q: string, z: string, k: nat)
    requires IsLegacyPrefix(q) && 0 < k < |q|
    ensures !Legacy((q + z)[k..])
  {
    var s := (q + z)[k..];
    assert s[0] == q[k];
    assert q[k] != 'S' && q[k] != 'H' && q[k] != 'P' by {
      if q == "Splitter:" { assert q[k] in "plitter:"; }
      else if q == "HierarchicalMerger:" { assert q[k] in "ierarchicalMerger:"; }
      else { assert q[k] in "DFGenerator:"; }
    }
    assert "Splitter:"[0] == 'S' && "HierarchicalMerger:"[0] == 'H' && "PDFGenerator:"[0] == 'P';
  }

  lemma InnerIsReplacedFirst(q: string, inner: string)
    requires IsLegacyPrefix(q) && Legacy(inner) && !(q <= inner)
    ensures Replace(q + inner, inner, RenameId(inner)) == q + RenameId(inner)
  {
    hide Replace, RenameId, IsLegacyPrefix;
    LegacyIsNotEmpty(inner);
    var outer := q + inner;
    forall k | 0 <= k < |q| ensures !(inner <= q[k..] + inner) {
      assert outer[k..] == q[k..] + inner;
      if k > 0 {
        NotInsideOld(q, inner, k);
        if inner <= outer[k..] { OccurrenceIsLegacy(inner, outer[k..]); }
      } else if inner <= outer {
        var p :| IsLegacyPrefix(p) && p <= inner;
        PrefixOf(p, inner, outer);
        OnePrefix(p, q, outer);
      }
    }
    ReplaceSkips(q, inner, inner, RenameId(inner));
    WholeIsReplaced(inner);
  }

  /** A renamed id begins with another letter and is at most four characters longer. */
  lemma RenamedLooksNew(id: string)
    requires Legacy(id)
    ensures id != "" && RenameId(id) != "" && id[0] != RenameId(id)[0] && |RenameId(id)| <= |id| + 4
  {
    var p :| IsLegacyPrefix(p) && p <= id;
    RenamedPrefix(p, id);
    assert "Splitter:"[0] == 'S' && "HierarchicalMerger:"[0] == 'H' && "PDFGenerator:"[0] == 'P';
    assert "TokenChunker:"[0] == 'T' && "TitleChunker:"[0] == 'T' && "DocGenerator:"[0] == 'D';
    assert id[0] == p[0];
  }

  lemma PrefixLength(q: string)
    requires IsLegacyPrefix(q)
    ensures |q| > 4
  {
  }

  lemma OuterIsGone(q: string, inner: string, new_: string)
    requires IsLegacyPrefix(q) && Legacy(inner)
    ensures Replace(q + RenameId(inner), q + inner, new_) == q + RenameId(inner)
  {
    hide Replace, RenameId, IsLegacyPrefix, Legacy;
    var outer, u := q + inner, q + RenameId(inner);
    RenamedLooksNew(inner);
    PrefixLength(q);
    assert Legacy(outer) by { PrefixMakesLegacy(q, inner); }
    forall k | 0 <= k < |u| ensures !(outer <= u[k..] + "") {
      assert u[k..] + "" == u[k..];
      if k == 0 {
        assert outer[|q|] == inner[0] && u[|q|] == RenameId(inner)[0] && u[0..] == u;
      } else if k < |q| {
        NotInsideOld(q, RenameId(inner), k);
        if outer <= u[k..] { OccurrenceIsLegacy(outer, u[k..]); }
      }
    }
    ReplaceSkips(u, "", outer, new_);
    assert u + "" == u;
    EmptyIsKept(outer, new_);
    assert u + Replace("", outer, new_) == u;
  }

  lemma PrefixMakesLegacy(q: string, z: string)
    requires IsLegacyPrefix(q)
    ensures Legacy(q + z)
  {
    assert q <= q + z;
  }

  lemma EmptyIsKept(old_: string, new_: string)
    requires old_ != ""
    ensures Replace("", old_, new_) == ""
  {
  }

  /** For nested ids the order does matter: with the shorter id first, the outer one is no
      longer found and keeps its legacy prefix. */
  lemma ShorterFirstLosesOuter(q: string, inner: string, m: Renaming)
    requires IsLegacyPrefix(q) && Legacy(inner) && !(q <= inner)
    requires Lookup(m, inner) == RenameId(inner)
    ensures ReplaceAll(m, [inner, q + inner], q + inner) == q + RenameId(inner)
    ensures q + RenameId(inner) != NewPrefix(q) + RenameId(inner)
  {
    hide Replace, RenameId, Legacy;
    var outer, none := q + inner, [];
    InnerIsReplacedFirst(q, inner);
    OuterIsGone(q, inner, Lookup(m, outer));
    assert [inner, outer][1..] == [outer] && [outer][1..] == none;
    assert ReplaceAll(m, none, q + RenameId(inner)) == q + RenameId(inner);
    assert ReplaceAll(m, [outer], q + RenameId(inner)) == q + RenameId(inner);
    var old_, new_ := q + RenameId(inner), NewPrefix(q) + RenameId(inner);
    assert "Splitter:"[0] == 'S' && "HierarchicalMerger:"[0] == 'H' && "PDFGenerator:"[0] == 'P';
    assert "TokenChunker:"[0] == 'T' && "TitleChunker:"[0] == 'T' && "DocGenerator:"[0] == 'D';
    assert old_[0] != new_[0];
  }
}
