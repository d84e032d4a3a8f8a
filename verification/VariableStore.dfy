/** The dotted-path variable store of the agent canvas (agent/canvas.py).  Dict objects
    live in a heap and are changed in place, so two paths may lead to one dict; every
    other value is a leaf, and what a further key reads out of a leaf is a parameter. */
module VariableStore {

  datatype Value = Leaf(id: int) | Dict(ref: nat)

  const NONE := Leaf(0)

  type Peek = (int, string) -> int

  /** The dict objects; references from `next` on are free. */
  datatype Heap = Heap(dicts: map<nat, map<string, Value>>, next: nat)

  /** Nothing in use points beyond the dicts that exist. */
  predicate Closed(h: Heap) {
    && (forall r | r in h.dicts :: r < h.next)
    && (forall r, k | r in h.dicts && k in h.dicts[r] && h.dicts[r][k].Dict? :: h.dicts[r][k].ref in h.dicts)
  }

  datatype Slot = Slot(ref: nat, key: string)

  function Get(h: Heap, s: Slot): Value {
    if s.ref in h.dicts && s.key in h.dicts[s.ref] then h.dicts[s.ref][s.key] else NONE
  }

  function Child(h: Heap, peek: Peek, v: Value, key: string): Value {
    match v
    case Leaf(l) => if v == NONE then NONE else Leaf(peek(l, key))
    case Dict(r) => Get(h, Slot(r, key))
  }

  /** `get_variable_param_value` */
  function Read(h: Heap, peek: Peek, v: Value, keys: seq<string>): Value
    decreases |keys|
  {
    if keys == [] then v else Read(h, peek, Child(h, peek, v, keys[0]), keys[1..])
  }

  function Assign(h: Heap, s: Slot, v: Value): Heap
    requires s.ref in h.dicts
  {
    h.(dicts := h.dicts[s.ref := h.dicts[s.ref][s.key := v]])
  }

  /** A new empty dict in the slot. */
  function Grow(h: Heap, s: Slot): (h': Heap)
    requires Closed(h) && s.ref in h.dicts
    ensures Closed(h') && h'.next == h.next + 1 && h.next in h'.dicts && Get(h', s) == Dict(h.next)
    ensures forall t: Slot | t != s :: Get(h', t) == Get(h, t)
    ensures forall r | r in h.dicts :: r in h'.dicts
  {
    Assign(h, s, Dict(h.next)).(dicts := Assign(h, s, Dict(h.next)).dicts[h.next := map[]], next := h.next + 1)
  }

  /** `set_variable_param_value` on the dict `r`: walk down, replacing what is not a dict
      by a new one, and store the value under the last key. */
  function Write(h: Heap, r: nat, keys: seq<string>, v: Value): (h': Heap)
    requires Closed(h) && r in h.dicts && keys != []
    decreases |keys|
  {
    var s := Slot(r, keys[0]);
    if |keys| == 1 then Assign(h, s, v)
    else if Get(h, s).Dict? then Write(h, Get(h, s).ref, keys[1..], v)
    else Write(Grow(h, s), h.next, keys[1..], v)
  }

  /** The slot that receives the value. */
  function LastSlot(h: Heap, r: nat, keys: seq<string>): Slot
    requires Closed(h) && r in h.dicts && keys != []
    decreases |keys|
  {
    var s := Slot(r, keys[0]);
    if |keys| == 1 then s
    else if Get(h, s).Dict? then LastSlot(h, Get(h, s).ref, keys[1..])
    else LastSlot(Grow(h, s), h.next, keys[1..])
  }

  /** The slots followed on the way to it. */
  function WaySlots(h: Heap, r: nat, keys: seq<string>): seq<Slot>
    requires Closed(h) && r in h.dicts && keys != []
    decreases |keys|
  {
    var s := Slot(r, keys[0]);
    if |keys| == 1 then []
    else if Get(h, s).Dict? then [s] + WaySlots(h, Get(h, s).ref, keys[1..])
    else [s] + WaySlots(Grow(h, s), h.next, keys[1..])
  }

  /** Setting never disturbs a slot that holds a dict, except the one it stores into. */
  lemma {:induction false} WriteKeepsDicts(h: Heap, r: nat, keys: seq<string>, v: Value, t: Slot)
    requires Closed(h) && r in h.dicts && keys != []
    requires Get(h, t).Dict? && t != LastSlot(h, r, keys)
    ensures Get(Write(h, r, keys, v), t) == Get(h, t)
    decreases |keys|
  {
    var s := Slot(r, keys[0]);
    if |keys| > 1 {
      if Get(h, s).Dict? {
        WriteKeepsDicts(h, Get(h, s).ref, keys[1..], v, t);
      } else {
        WriteKeepsDicts(Grow(h, s), h.next, keys[1..], v, t);
      }
    }
  }

  /** If the last slot was not also on the way, reading the path back gives the value. */
  lemma {:induction false} ReadBack(h: Heap, peek: Peek, r: nat, keys: seq<string>, v: Value)
    requires Closed(h) && r in h.dicts && keys != []
    requires LastSlot(h, r, keys) !in WaySlots(h, r, keys)
    ensures Read(Write(h, r, keys, v), peek, Dict(r), keys) == v
    decreases |keys|
  {
    var s := Slot(r, keys[0]);
    var w := Write(h, r, keys, v);
    if |keys| == 1 {
      assert Get(w, s) == v && keys[1..] == [];
    } else if Get(h, s).Dict? {
      ReadBack(h, peek, Get(h, s).ref, keys[1..], v);
      WriteKeepsDicts(h, Get(h, s).ref, keys[1..], v, s);
    } else {
      ReadBack(Grow(h, s), peek, h.next, keys[1..], v);
      WriteKeepsDicts(Grow(h, s), h.next, keys[1..], v, s);
    }
  }

  lemma {:induction false} LastHoldsValue(h: Heap, r: nat, keys: seq<string>, v: Value)
    requires Closed(h) && r in h.dicts && keys != []
    ensures Get(Write(h, r, keys, v), LastSlot(h, r, keys)) == v
    decreases |keys|
  {
    var s := Slot(r, keys[0]);
    if |keys| > 1 {
      if Get(h, s).Dict? { LastHoldsValue(h, Get(h, s).ref, keys[1..], v); }
      else { LastHoldsValue(Grow(h, s), h.next, keys[1..], v); }
    }
  }

  /** The keys left when the walk first passes the slot it will store into; none if it
      gets there only at its end. */
  function KeysBehind(h: Heap, r: nat, keys: seq<string>): seq<string>
    requires Closed(h) && r in h.dicts && keys != []
    decreases |keys|
  {
    var s := Slot(r, keys[0]);
    if LastSlot(h, r, keys) == s then keys[1..]
    else if Get(h, s).Dict? then KeysBehind(h, Get(h, s).ref, keys[1..])
    else KeysBehind(Grow(h, s), h.next, keys[1..])
  }

  lemma {:induction false} BehindIff(h: Heap, r: nat, keys: seq<string>)
    requires Closed(h) && r in h.dicts && keys != []
    ensures KeysBehind(h, r, keys) == [] <==> LastSlot(h, r, keys) !in WaySlots(h, r, keys)
    decreases |keys|
  {
    var s := Slot(r, keys[0]);
    if |keys| > 1 {
      if Get(h, s).Dict? { BehindIff(h, Get(h, s).ref, keys[1..]); }
      else { BehindIff(Grow(h, s), h.next, keys[1..]); }
    }
  }

  /** Whatever is stored and however the dicts are shared: reading the path back reads the
      keys behind the slot out of the value. */
  lemma {:induction false} ReadAfterWrite(h: Heap, peek: Peek, r: nat, keys: seq<string>, v: Value)
    requires Closed(h) && r in h.dicts && keys != []
    ensures Read(Write(h, r, keys, v), peek, Dict(r), keys)
            == Read(Write(h, r, keys, v), peek, v, KeysBehind(h, r, keys))
    decreases |keys|
  {
    var s := Slot(r, keys[0]);
    if LastSlot(h, r, keys) == s {
      LastHoldsValue(h, r, keys, v);
    } else if Get(h, s).Dict? {
      WriteKeepsDicts(h, Get(h, s).ref, keys[1..], v, s);
      ReadAfterWrite(h, peek, Get(h, s).ref, keys[1..], v);
    } else {
      WriteKeepsDicts(Grow(h, s), h.next, keys[1..], v, s);
      ReadAfterWrite(Grow(h, s), peek, h.next, keys[1..], v);
    }
  }

  /** A value is read back just after it was set exactly when the walk does not store into
      a slot it has passed through, that is, when the dicts on the path form no cycle
      through that slot, or the value leads back to itself along the keys behind it; for
      a leaf this can be read off before the call. */
  lemma ReadBackIff(h: Heap, peek: Peek, r: nat, keys: seq<string>, v: Value)
    requires Closed(h) && r in h.dicts && keys != []
    ensures var w := Write(h, r, keys, v);
            && (Read(w, peek, Dict(r), keys) == v
                <==> LastSlot(h, r, keys) !in WaySlots(h, r, keys) || Read(w, peek, v, KeysBehind(h, r, keys)) == v)
            && (v.Leaf? ==> Read(w, peek, v, KeysBehind(h, r, keys)) == Read(h, peek, v, KeysBehind(h, r, keys)))
  {
    ReadAfterWrite(h, peek, r, keys, v);
    BehindIff(h, r, keys);
    if v.Leaf? { LeafRead(h, Write(h, r, keys, v), peek, v, KeysBehind(h, r, keys)); }
  }

  /** A dict that holds itself under "a": setting "a.a" stores into the slot the walk came
      through, and the value is not read back. */
  lemma CyclicDictLosesValue(peek: Peek)
    requires peek(1, "a") == 0
    ensures var h := Heap(map[0 := map["a" := Dict(0)]], 1);
            && Closed(h)
            && Read(Write(h, 0, ["a", "a"], Leaf(1)), peek, Dict(0), ["a", "a"]) == NONE
  {
    var h, keys := Heap(map[0 := map["a" := Dict(0)]], 1), ["a", "a"];
    assert keys[1..] == ["a"] && keys[1..][1..] == [];
    assert Get(h, Slot(0, "a")) == Dict(0);
    var w := Write(h, 0, keys, Leaf(1));
    assert w == Assign(h, Slot(0, "a"), Leaf(1));
    assert Get(w, Slot(0, "a")) == Leaf(1);
    assert Read(w, peek, Leaf(1), ["a"]) == Read(w, peek, NONE, []);
  }

  /** What further keys read out of a leaf, one after the other; nothing out of nothing. */
  function PeekAll(peek: Peek, n: int, keys: seq<string>): int
    decreases |keys|
  {
    if keys == [] then n else PeekAll(peek, if n == 0 then 0 else peek(n, keys[0]), keys[1..])
  }

  /** Reading goes through dicts by their keys and out of a leaf by what it holds. */
  lemma {:induction false} ReadMeans(h: Heap, peek: Peek, v: Value, key: string, keys: seq<string>)
    ensures v.Leaf? ==> Read(h, peek, v, keys) == Leaf(PeekAll(peek, v.id, keys))
    ensures v.Dict? && v.ref in h.dicts && key in h.dicts[v.ref] ==>
              Read(h, peek, v, [key] + keys) == Read(h, peek, h.dicts[v.ref][key], keys)
    ensures v.Dict? && !(v.ref in h.dicts && key in h.dicts[v.ref]) ==> Read(h, peek, v, [key] + keys) == NONE
    decreases |keys|
  {
    assert ([key] + keys)[1..] == keys && ([key] + keys)[0] == key;
    NoneReads(h, peek, keys);
    if keys != [] && v.Leaf? { ReadMeans(h, peek, Child(h, peek, v, keys[0]), key, keys[1..]); }
  }

  lemma {:induction false} NoneReads(h: Heap, peek: Peek, keys: seq<string>)
    ensures Read(h, peek, NONE, keys) == NONE
    decreases |keys|
  {
    if keys != [] { NoneReads(h, peek, keys[1..]); }
  }

  // ------------------------------------------------------------------ tree-shaped values

  /** Each dict is held by at most one slot, and none holds the root. */
  ghost predicate Tree(h: Heap, root: nat) {
    && Closed(h) && root in h.dicts
    && (forall s: Slot :: Get(h, s) != Dict(root))
    && (forall s: Slot, t: Slot | Get(h, s).Dict? && Get(h, s) == Get(h, t) :: s == t)
  }

  /** The dict at a path that leads through dicts only. */
  function NodeAt(h: Heap, r: nat, path: seq<string>): Value
    decreases |path|
  {
    if path == [] then Dict(r)
    else
      var up := NodeAt(h, r, path[..|path| - 1]);
      if up.Dict? then Get(h, Slot(up.ref, path[|path| - 1])) else NONE
  }

  /** In a tree a dict is reached by one path only. */
  lemma {:induction false} OnePath(h: Heap, root: nat, p: seq<string>, q: seq<string>)
    requires Tree(h, root)
    requires NodeAt(h, root, p).Dict? && NodeAt(h, root, p) == NodeAt(h, root, q)
    ensures p == q
    decreases |p|
  {
    if p != [] && q != [] {
      var p', q' := p[..|p| - 1], q[..|q| - 1];
      var s := Slot(NodeAt(h, root, p').ref, p[|p| - 1]);
      var t := Slot(NodeAt(h, root, q').ref, q[|q| - 1]);
      assert s == t;
      OnePath(h, root, p', q');
      assert p == p' + [s.key] && q == q' + [t.key];
    } else {
      RootUnreached(h, root, p);
      RootUnreached(h, root, q);
    }
  }

  lemma RootUnreached(h: Heap, root: nat, p: seq<string>)
    requires Tree(h, root)
    ensures p != [] ==> NodeAt(h, root, p) != Dict(root)
  {}

  lemma {:induction false} NodeAtFront(h: Heap, r: nat, path: seq<string>)
    requires path != [] && Get(h, Slot(r, path[0])).Dict?
    ensures NodeAt(h, r, path) == NodeAt(h, Get(h, Slot(r, path[0])).ref, path[1..])
    decreases |path|
  {
    var up := path[..|path| - 1];
    if |path| > 1 {
      NodeAtFront(h, r, up);
      assert up[1..] == path[1..][..|path[1..]| - 1];
    } else {
      assert up == [] && path[1..] == [];
    }
  }

  /** Where setting changes an old slot: on the path, at its end or where no dict was. */
  ghost predicate OnWay(h: Heap, r: nat, keys: seq<string>, t: Slot) {
    exists i: nat :: i < |keys| && AtStep(h, r, keys, t, i)
  }

  predicate AtStep(h: Heap, r: nat, keys: seq<string>, t: Slot, i: nat)
    requires i < |keys|
  {
    NodeAt(h, r, keys[..i]) == Dict(t.ref) && t.key == keys[i] && (i == |keys| - 1 || !Get(h, t).Dict?)
  }

  /** From a fresh dict on, setting only touches fresh dicts. */
  lemma {:induction false} WriteFresh(h: Heap, r: nat, keys: seq<string>, v: Value, t: Slot)
    requires Closed(h) && r in h.dicts && keys != [] && r + 1 == h.next && h.dicts[r] == map[]
    requires t.ref < r
    ensures Get(Write(h, r, keys, v), t) == Get(h, t)
    decreases |keys|
  {
    if |keys| > 1 {
      var s := Slot(r, keys[0]);
      WriteFresh(Grow(h, s), h.next, keys[1..], v, t);
    }
  }

  lemma {:induction false} WriteChangesOnWay(h: Heap, r: nat, keys: seq<string>, v: Value, t: Slot)
    requires Closed(h) && r in h.dicts && keys != [] && t.ref in h.dicts
    ensures Get(Write(h, r, keys, v), t) == Get(h, t) || OnWay(h, r, keys, t)
    decreases |keys|
  {
    var s := Slot(r, keys[0]);
    if |keys| == 1 || !Get(h, s).Dict? {
      if |keys| > 1 { WriteFresh(Grow(h, s), h.next, keys[1..], v, t); }
      assert keys[..0] == [];
      assert t == s ==> AtStep(h, r, keys, t, 0);
    } else {
      var c := Get(h, s).ref;
      WriteChangesOnWay(h, c, keys[1..], v, t);
      if OnWay(h, c, keys[1..], t) {
        var i: nat :| i < |keys[1..]| && AtStep(h, c, keys[1..], t, i);
        assert keys[..i + 1][1..] == keys[1..][..i];
        NodeAtFront(h, r, keys[..i + 1]);
        assert AtStep(h, r, keys, t, i + 1);
      }
    }
  }

  /** The heaps agree on every slot that reading `keys` from the root passes. */
  lemma {:induction false} SameRead(h: Heap, h': Heap, peek: Peek, root: nat, keys: seq<string>, i: nat)
    requires i <= |keys|
    requires forall j: nat | i <= j < |keys| && NodeAt(h, root, keys[..j]).Dict? ::
               Get(h', Slot(NodeAt(h, root, keys[..j]).ref, keys[j])) == Get(h, Slot(NodeAt(h, root, keys[..j]).ref, keys[j]))
    requires NodeAt(h, root, keys[..i]).Dict?
    ensures Read(h', peek, NodeAt(h, root, keys[..i]), keys[i..]) == Read(h, peek, NodeAt(h, root, keys[..i]), keys[i..])
    decreases |keys| - i
  {
    if i < |keys| {
      var v := NodeAt(h, root, keys[..i]);
      var c := Get(h, Slot(v.ref, keys[i]));
      assert keys[..i + 1][..i] == keys[..i] && keys[i..][1..] == keys[i + 1..];
      assert Get(h', Slot(v.ref, keys[i])) == c && NodeAt(h, root, keys[..i + 1]) == c;
      if c.Dict? {
        SameRead(h, h', peek, root, keys, i + 1);
      } else {
        LeafRead(h, h', peek, c, keys[i + 1..]);
      }
    }
  }

  lemma {:induction false} LeafRead(h: Heap, h': Heap, peek: Peek, v: Value, keys: seq<string>)
    requires v.Leaf?
    ensures Read(h', peek, v, keys) == Read(h, peek, v, keys)
    decreases |keys|
  {
    if keys != [] { LeafRead(h, h', peek, Child(h, peek, v, keys[0]), keys[1..]); }
  }

  /** A slot on a diverging path is never where setting changes something. */
  lemma DivergesFromWay(h: Heap, root: nat, keys: seq<string>, other: seq<string>, m: nat, j: nat, i: nat)
    requires Tree(h, root) && m < |keys| && m < |other| && j < |other| && i < |keys|
    requires other[..m] == keys[..m] && other[m] != keys[m] && NodeAt(h, root, keys[..m]).Dict?
    requires NodeAt(h, root, other[..j]).Dict?
    ensures !AtStep(h, root, keys, Slot(NodeAt(h, root, other[..j]).ref, other[j]), i)
  {
    if j < m {
      NodePrefix(h, root, keys[..m], j + 1);
      assert keys[..m][..j + 1] == keys[..j + 1] && keys[..j + 1][..j] == keys[..j];
      assert other[..j] == other[..m][..j] == keys[..m][..j] == keys[..j] && other[j] == other[..m][j] == keys[j];
    }
    assert j > m && i > m ==> other[..j][m] != keys[..i][m];
    if NodeAt(h, root, keys[..i]) == NodeAt(h, root, other[..j]) {
      OnePath(h, root, other[..j], keys[..i]);
    }
  }

  /** On a tree-shaped value, a path that leaves the set path at a node that was already
      a dict reads as before. */
  lemma OtherPathsKeepTheirValue(h: Heap, peek: Peek, root: nat, keys: seq<string>, v: Value, other: seq<string>, m: nat)
    requires Tree(h, root) && m < |keys| && m < |other|
    requires other[..m] == keys[..m] && other[m] != keys[m] && NodeAt(h, root, keys[..m]).Dict?
    ensures Read(Write(h, root, keys, v), peek, Dict(root), other) == Read(h, peek, Dict(root), other)
  {
    var h' := Write(h, root, keys, v);
    forall j: nat | j < |other| && NodeAt(h, root, other[..j]).Dict?
      ensures var t := Slot(NodeAt(h, root, other[..j]).ref, other[j]); Get(h', t) == Get(h, t)
    {
      var t := Slot(NodeAt(h, root, other[..j]).ref, other[j]);
      NodeExists(h, root, other[..j]);
      WriteChangesOnWay(h, root, keys, v, t);
      forall i: nat | i < |keys|
        ensures !AtStep(h, root, keys, t, i)
      {
        DivergesFromWay(h, root, keys, other, m, j, i);
      }
    }
    assert other[..0] == [] && other[0..] == other;
    SameRead(h, h', peek, root, other, 0);
  }

  lemma {:induction false} NodeExists(h: Heap, r: nat, path: seq<string>)
    requires Closed(h) && r in h.dicts && NodeAt(h, r, path).Dict?
    ensures NodeAt(h, r, path).ref in h.dicts
    decreases |path|
  {
    if path != [] { NodeExists(h, r, path[..|path| - 1]); }
  }

  lemma {:induction false} NodePrefix(h: Heap, r: nat, path: seq<string>, j: nat)
    requires j <= |path| && NodeAt(h, r, path).Dict?
    ensures NodeAt(h, r, path[..j]).Dict?
    decreases |path|
  {
    if j < |path| {
      NodePrefix(h, r, path[..|path| - 1], j);
      assert path[..|path| - 1][..j] == path[..j];
    } else {
      assert path[..j] == path;
    }
  }

  lemma {:induction false} FreshWay(h: Heap, r: nat, keys: seq<string>)
    requires Closed(h) && r in h.dicts && keys != [] && r + 1 == h.next && h.dicts[r] == map[]
    ensures r <= LastSlot(h, r, keys).ref
    ensures forall s | s in WaySlots(h, r, keys) :: s.ref < LastSlot(h, r, keys).ref
    decreases |keys|
  {
    if |keys| > 1 { FreshWay(Grow(h, Slot(r, keys[0])), h.next, keys[1..]); }
  }

  predicate OnOldWay(h: Heap, r: nat, keys: seq<string>, s: Slot, i: nat)
    requires i < |keys|
  {
    i + 1 < |keys| && NodeAt(h, r, keys[..i]) == Dict(s.ref)
  }

  /** Either the whole way existed before, or the value goes into a newer dict than
      every dict on the way. */
  ghost predicate OldWay(h: Heap, r: nat, keys: seq<string>)
    requires Closed(h) && r in h.dicts && keys != []
  {
    && NodeAt(h, r, keys[..|keys| - 1]) == Dict(LastSlot(h, r, keys).ref)
    && forall s | s in WaySlots(h, r, keys) :: exists i: nat :: i < |keys| && OnOldWay(h, r, keys, s, i)
  }

  lemma {:induction false} OldOrNew(h: Heap, r: nat, keys: seq<string>)
    requires Closed(h) && r in h.dicts && keys != []
    ensures OldWay(h, r, keys)
            || (LastSlot(h, r, keys).ref >= h.next && forall s | s in WaySlots(h, r, keys) :: s.ref < LastSlot(h, r, keys).ref)
    decreases |keys|
  {
    var f := Slot(r, keys[0]);
    if |keys| == 1 {
      assert keys[..0] == [];
    } else if !Get(h, f).Dict? {
      FreshWay(Grow(h, f), h.next, keys[1..]);
    } else {
      var c := Get(h, f).ref;
      OldOrNew(h, c, keys[1..]);
      if OldWay(h, c, keys[1..]) { OldWayFront(h, r, keys); }
    }
  }

  lemma OldWayFront(h: Heap, r: nat, keys: seq<string>)
    requires Closed(h) && r in h.dicts && |keys| > 1 && Get(h, Slot(r, keys[0])).Dict?
    requires OldWay(h, Get(h, Slot(r, keys[0])).ref, keys[1..])
    ensures OldWay(h, r, keys)
  {
    var f := Slot(r, keys[0]);
    var c := Get(h, f).ref;
    NodeAtFront(h, r, keys[..|keys| - 1]);
    assert keys[..|keys| - 1][1..] == keys[1..][..|keys[1..]| - 1];
    forall s | s in WaySlots(h, r, keys)
      ensures exists i: nat :: i < |keys| && OnOldWay(h, r, keys, s, i)
    {
      if s == f {
        assert keys[..0] == [];
        assert OnOldWay(h, r, keys, s, 0);
      } else {
        assert s in WaySlots(h, c, keys[1..]);
        var i: nat :| i < |keys[1..]| && OnOldWay(h, c, keys[1..], s, i);
        assert keys[..i + 1][1..] == keys[1..][..i];
        NodeAtFront(h, r, keys[..i + 1]);
        assert OnOldWay(h, r, keys, s, i + 1);
      }
    }
  }

  /** On a tree-shaped value, reading a path just after setting it returns the value
      set, whatever was replaced on the way. */
  lemma TreeReadsBack(h: Heap, peek: Peek, root: nat, keys: seq<string>, v: Value)
    requires Tree(h, root) && keys != []
    ensures Read(Write(h, root, keys, v), peek, Dict(root), keys) == v
  {
    OldOrNew(h, root, keys);
    var last := LastSlot(h, root, keys);
    if OldWay(h, root, keys) {
      forall s | s in WaySlots(h, root, keys)
        ensures s != last
      {
        var i: nat :| i < |keys| && OnOldWay(h, root, keys, s, i);
        assert |keys[..i]| < |keys[..|keys| - 1]|;
        if NodeAt(h, root, keys[..i]) == NodeAt(h, root, keys[..|keys| - 1]) {
          OnePath(h, root, keys[..i], keys[..|keys| - 1]);
        }
      }
    }
    ReadBack(h, peek, root, keys, v);
  }

  // ------------------------------------------------------------------ the loop

  /** The object that owns the dicts; `SetParam` is the loop of the source. */
  class Store {
    var heap: Heap

    /** No keys stand for the empty path, which yields the value and writes nothing. */
    method SetParam(root: nat, keys: seq<string>, v: Value) returns (r: Value)
      requires Closed(heap) && root in heap.dicts
      modifies this
      ensures r == if keys == [] then v else Dict(root)
      ensures heap == if keys == [] then old(heap) else Write(old(heap), root, keys, v)
    {
      if keys == [] { return v; }
      var cur, k := root, 0;
      while k < |keys| - 1
        invariant 0 <= k < |keys| && Closed(heap) && cur in heap.dicts
        invariant Write(heap, cur, keys[k..], v) == Write(old(heap), root, keys, v)
      {
        var s := Slot(cur, keys[k]);
        assert keys[k..][1..] == keys[k + 1..];
        if !Get(heap, s).Dict? {
          heap := Grow(heap, s);
        }
        cur := Get(heap, s).ref;
        k := k + 1;
      }
      heap := Assign(heap, Slot(cur, keys[k]), v);
      r := Dict(root);
    }

    method GetParam(peek: Peek, v: Value, keys: seq<string>) returns (r: Value)
      ensures r == Read(heap, peek, v, keys)
    {
      r := v;
      var k := 0;
      while k < |keys|
        invariant 0 <= k <= |keys|
        invariant Read(heap, peek, r, keys[k..]) == Read(heap, peek, v, keys)
      {
        assert keys[k..][1..] == keys[k + 1..];
        r := Child(heap, peek, r, keys[k]);
        k := k + 1;
      }
    }
  }
}
