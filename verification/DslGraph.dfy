/** What the migration does to the component graph of a DSL: which component an id names
    before and after, when components are lost and when the graph keeps its shape. */
module DslGraph {
  import opened Basics
  import opened VariableRefs
  import opened JsonRewrite
  import opened DslMigration

  // ------------------------------------------------------------------ one id, rewritten twice

  /** Ids inside a component are rewritten with its values and then looked up once more. */
  function After(m: Renaming, id: string): string { Lookup(m, RewriteText(m, id)) }

  function AfterValue(m: Renaming, v: Json): Json { if v.Str? then Str(After(m, v.text)) else v }

  lemma TwiceIsOnce(components: Fields, id: string)
    requires id in components
    ensures After(IdMap(components), id) == RenameId(id)
  {
    RenameIdTwice(id);
  }

  /** An id that names no component stays as it is. */
  lemma DanglingStays(components: Fields, id: string)
    requires IsId(id) && id !in components
    ensures After(IdMap(components), id) == id
  {
    NoReferenceInId(IdMap(components), id);
  }

  lemma {:induction false} NoReferenceInId(m: Renaming, id: string)
    requires forall c | c in id :: InClass(IdChars, c)
    ensures Sub(m, id) == id
  {
    if id != "" {
      assert id[0] in id;
      NoBraceNoMatch(id);
      SubNone(m, id);
      NoReferenceInId(m, id[1..]);
    }
  }

  // ------------------------------------------------------------------ the ids of one component

  function List(component: Json, key: string): seq<Json> {
    if component.Obj? && Get(component.fields, key).Arr? then component.fields[key].items else []
  }

  predicate IsLink(key: string) { key == "downstream" || key == "upstream" }

  lemma FieldsFollow(m: Renaming, fields: Fields, key: string)
    requires IsLink(key) && RenameFields(m, fields).Some?
    ensures var after := RenameFields(m, fields).value;
            if Get(fields, key).Arr?
            then AllHashable(fields[key].items) && Get(after, key) == Arr(MapIds(m, fields[key].items))
            else Get(after, key) == Get(fields, key)
  {
    var named := RenameComponentName(fields).value;
    assert Get(named, "downstream") == Get(fields, "downstream") && Get(named, "upstream") == Get(fields, "upstream");
    var down := MapList(m, named, "downstream").value;
    assert Get(down, "upstream") == Get(fields, "upstream");
    var up := MapList(m, down, "upstream").value;
    assert Get(up, "downstream") == Get(down, "downstream");
  }

  /** The links of a migrated component are its links, each following its component. */
  lemma LinksFollow(m: Renaming, component: Json, key: string)
    requires IsLink(key) && NewComponent(m, component).Some?
    ensures var before, after := List(component, key), List(NewComponent(m, component).value, key);
            |after| == |before| && forall i | 0 <= i < |before| :: after[i] == AfterValue(m, before[i])
  {
    if component.Obj? {
      var rewritten := Rewrite(m, component).fields;
      FieldsFollow(m, rewritten, key);
      assert Get(rewritten, key) == if key in component.fields then Rewrite(m, component.fields[key]) else Null;
      if Get(component.fields, key).Arr? {
        var before := component.fields[key].items;
        assert rewritten[key] == Rewrite(m, component.fields[key]);
        var between := rewritten[key].items;
        forall i | 0 <= i < |before| ensures MapId(m, between[i]) == AfterValue(m, before[i]) {
          assert between[i] == Rewrite(m, before[i]);
          assert Hashable(between[i]);
        }
      }
    }
  }

  lemma ParentFollows(m: Renaming, component: Json)
    requires component.Obj? && NewComponent(m, component).Some?
    requires Get(component.fields, "parent_id").Str?
    ensures NewComponent(m, component).value.Obj?
    ensures Get(NewComponent(m, component).value.fields, "parent_id") == AfterValue(m, component.fields["parent_id"])
  {
    var fields := Rewrite(m, component).fields;
    assert fields["parent_id"] == Rewrite(m, component.fields["parent_id"]);
    var named := RenameComponentName(fields).value;
    var down := MapList(m, named, "downstream").value;
    var up := MapList(m, down, "upstream").value;
    assert Get(named, "parent_id") == Get(fields, "parent_id");
    assert Get(down, "parent_id") == Get(fields, "parent_id");
    assert Get(up, "parent_id") == Get(fields, "parent_id");
  }

  // ------------------------------------------------------------------ all components

  /** Under each new id stands the last component that got it. */
  lemma {:induction false} LastWins(m: Renaming, components: Fields, order: seq<string>, key: string)
      returns (i: nat)
    requires forall id | id in order :: id in components && id in m
    requires NewComponents(m, components, order).Some?
    ensures var after := NewComponents(m, components, order).value;
            if i < |order|
            then && m[order[i]] == key && (forall j | i < j < |order| :: m[order[j]] != key)
                 && key in after && Some(after[key]) == NewComponent(m, components[order[i]])
            else key !in after && (forall j | 0 <= j < |order| :: m[order[j]] != key)
  {
    hide NewComponent;
    if order == [] {
      i := 0;
    } else {
      var last := |order| - 1;
      if m[order[last]] == key {
        i := last;
      } else {
        i := LastWins(m, components, order[..last], key);
        if i == last { i := |order|; }
        assert forall j | 0 <= j < last :: order[..last][j] == order[j];
        if i > last { i := |order|; }
      }
    }
  }

  /** A new id that is already in use. */
  ghost predicate Taken(components: Fields) {
    exists id | id in components :: RenameId(id) != id && RenameId(id) in components
  }

  /** Ids collide exactly when a new id is already in use. */
  lemma CollisionIffTaken(components: Fields)
    ensures (forall a, b | a in components && b in components && RenameId(a) == RenameId(b) :: a == b)
            <==> !Taken(components)
  {
    if Taken(components) {
      var id :| id in components && RenameId(id) != id && RenameId(id) in components;
      RenameIdTwice(id);
    } else {
      forall a, b | a in components && b in components && RenameId(a) == RenameId(b) ensures a == b {
        if RenameId(a) != a && RenameId(b) != b { RenamedApart(a, b); }
      }
    }
  }

  ghost predicate Distinct(ids: seq<string>) { forall i, j | 0 <= i < j < |ids| :: ids[i] != ids[j] }

  ghost predicate Apart(m: Renaming, ids: seq<string>)
    requires forall id | id in ids :: id in m
  {
    forall i, j | 0 <= i < j < |ids| :: m[ids[i]] != m[ids[j]]
  }

  lemma NoComponents(m: Renaming, components: Fields)
    ensures NewComponents(m, components, []) == Some(map[])
  {
  }

  lemma OneMoreKey(m: Renaming, components: Fields, order: seq<string>)
    requires forall id | id in order :: id in components && id in m
    requires order != [] && NewComponents(m, components, order).Some?
    ensures var last := |order| - 1;
            var before := NewComponents(m, components, order[..last]);
            before.Some? && NewComponents(m, components, order).value.Keys == before.value.Keys + {m[order[last]]}
  {
    hide NewComponent;
  }

  lemma {:induction false} CountAfter(m: Renaming, components: Fields, order: seq<string>)
    requires forall id | id in order :: id in components && id in m
    requires NewComponents(m, components, order).Some?
    ensures |NewComponents(m, components, order).value| <= |order|
    ensures |NewComponents(m, components, order).value| == |order| <==> Apart(m, order)
  {
    hide NewComponent, NewComponents;
    if order == [] {
      NoComponents(m, components);
    } else {
      var last := |order| - 1;
      var before, key := order[..last], m[order[last]];
      OneMoreKey(m, components, order);
      CountAfter(m, components, before);
      var was := NewComponents(m, components, before).value;
      var now := NewComponents(m, components, order).value;
      assert now.Keys == if key in was.Keys then was.Keys else was.Keys + {key};
      assert |now| == |now.Keys| && |was| == |was.Keys|;
      var i := LastWins(m, components, before, key);
      if i < last {
        assert m[order[i]] == m[order[last]];
      } else if Apart(m, before) {
        forall a, b | 0 <= a < b < |order| ensures m[order[a]] != m[order[b]] {
          assert order[a] == before[a];
          if b < last { assert order[b] == before[b]; }
        }
      } else {
        assert forall a | 0 <= a < last :: before[a] == order[a];
      }
    }
  }

  lemma {:induction false} CountBefore(components: Fields, order: seq<string>, keys: set<string>)
    requires Distinct(order) && forall id :: id in order <==> id in keys
    ensures |keys| == |order|
  {
    if order == [] {
      assert keys == {};
    } else {
      var last := |order| - 1;
      var id := order[last];
      forall other ensures other in order[..last] <==> other in keys - {id} {
        if other in order && other != id { assert other in order[..last]; }
      }
      CountBefore(components, order[..last], keys - {id});
    }
  }

  lemma MigratedComponents(dsl: Json, order: seq<string>)
    requires HasComponents(dsl) && IsOrder(order, Components(dsl)) && Migrate(dsl, order).Some?
    ensures HasComponents(Migrate(dsl, order).value)
    ensures NewComponents(IdMap(Components(dsl)), Components(dsl), order) == Some(Components(Migrate(dsl, order).value))
  {
    var m := IdMap(Components(dsl));
    var held := dsl.fields["components" := Obj(NewComponents(m, Components(dsl), order).value)];
    var routed := MapList(m, held, "path").value;
    assert Get(routed, "components") == held["components"];
  }

  /** No component is lost exactly when no new id is already in use. */
  lemma NoComponentLostIff(dsl: Json, order: seq<string>)
    requires HasComponents(dsl) && IsOrder(order, Components(dsl)) && Migrate(dsl, order).Some?
    ensures HasComponents(Migrate(dsl, order).value)
    ensures |Components(Migrate(dsl, order).value)| == |Components(dsl)| <==> !Taken(Components(dsl))
  {
    MigratedComponents(dsl, order);
    var components := Components(dsl);
    var m := IdMap(components);
    CountAfter(m, components, order);
    CountBefore(components, order, components.Keys);
    CollisionIffTaken(components);
    if Taken(components) {
      var a, b :| a in components && b in components && RenameId(a) == RenameId(b) && a != b;
      var i :| 0 <= i < |order| && order[i] == a;
      var j :| 0 <= j < |order| && order[j] == b;
      assert m[order[i]] == m[order[j]];
    }
  }

  // ------------------------------------------------------------------ the shape of the graph

  /** Whether a component's list names another one. */
  ghost predicate Names(components: Fields, from: string, key: string, target: string) {
    from in components && exists i | 0 <= i < |List(components[from], key)| :: List(components[from], key)[i] == Str(target)
  }

  /** A list entry that named nothing and comes to name a component. */
  ghost predicate Captures(components: Fields, from: string, key: string, target: string)
    requires from in components
  {
    exists i | 0 <= i < |List(components[from], key)| ::
      var v := List(components[from], key)[i];
      v.Str? && v.text !in components && After(IdMap(components), v.text) == RenameId(target)
  }

  /** When no new id is in use, the component under a new id is the migrated one. */
  lemma ComponentUnder(components: Fields, order: seq<string>, id: string)
    requires IsOrder(order, components) && !Taken(components) && id in components
    requires NewComponents(IdMap(components), components, order).Some?
    ensures var after := NewComponents(IdMap(components), components, order).value;
            RenameId(id) in after && Some(after[RenameId(id)]) == NewComponent(IdMap(components), components[id])
  {
    hide NewComponent;
    var m := IdMap(components);
    var i := LastWins(m, components, order, RenameId(id));
    var k :| 0 <= k < |order| && order[k] == id;
    assert m[order[k]] == RenameId(id);
    CollisionIffTaken(components);
  }

  /** After the migration a component names another one exactly when it did before, or
      when one of its entries is captured. */
  lemma NamesAfter(dsl: Json, order: seq<string>, from: string, key: string, target: string)
    requires HasComponents(dsl) && IsOrder(order, Components(dsl)) && Migrate(dsl, order).Some?
    requires IsLink(key) && !Taken(Components(dsl)) && from in Components(dsl) && target in Components(dsl)
    ensures HasComponents(Migrate(dsl, order).value)
    ensures Names(Components(Migrate(dsl, order).value), RenameId(from), key, RenameId(target))
            <==> Names(Components(dsl), from, key, target) || Captures(Components(dsl), from, key, target)
  {
    hide NewComponent;
    hide Migrate;
    var components := Components(dsl);
    var m := IdMap(components);
    MigratedComponents(dsl, order);
    var result := Components(Migrate(dsl, order).value);
    ComponentUnder(components, order, from);
    LinksFollow(m, components[from], key);
    var before, after := List(components[from], key), List(result[RenameId(from)], key);
    CollisionIffTaken(components);
    if Names(components, from, key, target) {
      var i :| 0 <= i < |before| && before[i] == Str(target);
      TwiceIsOnce(components, target);
      assert after[i] == Str(RenameId(target));
    }
    if Captures(components, from, key, target) {
      var i :| 0 <= i < |before| && before[i].Str? && before[i].text !in components
               && After(m, before[i].text) == RenameId(target);
      assert after[i] == Str(RenameId(target));
    }
    if Names(result, RenameId(from), key, RenameId(target)) {
      var i :| 0 <= i < |after| && after[i] == Str(RenameId(target));
      assert after[i] == AfterValue(m, before[i]);
      if before[i].text in components { TwiceIsOnce(components, before[i].text); }
    }
  }

  /** Both graphs have the same shape. */
  ghost predicate SameShape(before: Fields, after: Fields, key: string) {
    forall a, b | a in before && b in before :: Names(before, a, key, b) <==> Names(after, RenameId(a), key, RenameId(b))
  }

  /** When no new id is in use, the migrated graph is isomorphic to the original exactly
      when no entry is captured that adds a link. */
  lemma IsomorphicIff(dsl: Json, order: seq<string>, key: string)
    requires HasComponents(dsl) && IsOrder(order, Components(dsl)) && Migrate(dsl, order).Some?
    requires IsLink(key) && !Taken(Components(dsl))
    ensures HasComponents(Migrate(dsl, order).value)
    ensures SameShape(Components(dsl), Components(Migrate(dsl, order).value), key)
            <==> forall a, b | a in Components(dsl) && b in Components(dsl) && Captures(Components(dsl), a, key, b) ::
                   Names(Components(dsl), a, key, b)
  {
    hide Migrate;
    hide Names, Captures;
    MigratedComponents(dsl, order);
    forall a, b | a in Components(dsl) && b in Components(dsl)
      ensures Names(Components(Migrate(dsl, order).value), RenameId(a), key, RenameId(b))
              <==> Names(Components(dsl), a, key, b) || Captures(Components(dsl), a, key, b)
    {
      NamesAfter(dsl, order, a, key, b);
    }
  }

  /** One component, `Splitter:a`, whose list holds an id that names nothing. */
  function DanglingLink(): Json {
    Obj(map["components" := Obj(map["Splitter:a" := Obj(map["downstream" := Arr([Str("TokenChunker:a")])])])])
  }

  lemma DanglingLinkMigrates()
    ensures HasComponents(DanglingLink()) && IsOrder(["Splitter:a"], Components(DanglingLink()))
    ensures !Taken(Components(DanglingLink())) && Migrate(DanglingLink(), ["Splitter:a"]).Some?
  {
    hide NewComponent;
    var components, order := Components(DanglingLink()), ["Splitter:a"];
    var m := IdMap(components);
    OneComponent(m, components["Splitter:a"], "TokenChunker:a");
    assert NewComponents(m, components, []) == Some(map[]);
    assert order[..|order| - 1] == [];
    assert NewComponents(m, components, order).Some?;
    assert RenameId("Splitter:a")[0] == 'T' && "Splitter:a"[0] == 'S';
  }

  /** An id that names nothing but spells the new id of a component comes to name it: the
      migrated component names itself and the original did not. */
  lemma CaptureExample()
    ensures HasComponents(DanglingLink()) && Migrate(DanglingLink(), ["Splitter:a"]).Some?
    ensures HasComponents(Migrate(DanglingLink(), ["Splitter:a"]).value)
    ensures !SameShape(Components(DanglingLink()), Components(Migrate(DanglingLink(), ["Splitter:a"]).value), "downstream")
  {
    hide Migrate, DanglingLink, Names, Captures, SameShape;
    DanglingLinkMigrates();
    DanglingLinkCaptured();
    IsomorphicIff(DanglingLink(), ["Splitter:a"], "downstream");
  }

  lemma DanglingLinkCaptured()
    ensures var components := Components(DanglingLink());
            && "Splitter:a" in components && Captures(components, "Splitter:a", "downstream", "Splitter:a")
            && !Names(components, "Splitter:a", "downstream", "Splitter:a")
  {
    hide Sub;
    var components, old_, new_ := Components(DanglingLink()), "Splitter:a", "TokenChunker:a";
    var m := IdMap(components);
    assert old_[0] == 'S' && new_[0] == 'T';
    assert RenameId(old_) == new_;
    assert forall x | x in new_ :: InClass(IdChars, x);
    NoReferenceInId(m, new_);
    assert After(m, new_) == new_;
    var links := List(components[old_], "downstream");
    assert links == [Str(new_)];
    assert links[0].text == new_;
  }

  lemma OneComponent(m: Renaming, c: Json, id: string)
    requires c == Obj(map["downstream" := Arr([Str(id)])])
    ensures NewComponent(m, c).Some?
  {
    var fields := Rewrite(m, c).fields;
    assert fields["downstream"] == Rewrite(m, c.fields["downstream"]);
    var items := fields["downstream"].items;
    assert |items| == 1 && items[0] == Rewrite(m, Str(id));
    assert AllHashable(items);
  }

  // ------------------------------------------------------------------ path, drawing and texts

  /** An id that names a component follows it; anything else is kept. */
  ghost predicate Follows(components: Fields, before: Json, after: Json) {
    if before.Str? && before.text in components then after == Str(RenameId(before.text)) else after == before
  }

  ghost predicate AllFollow(components: Fields, before: seq<Json>, after: seq<Json>) {
    |after| == |before| && forall i | 0 <= i < |before| :: Follows(components, before[i], after[i])
  }

  function Drawn(dsl: Json, key: string): seq<Json> {
    if dsl.Obj? && Get(dsl.fields, "graph").Obj? then List(dsl.fields["graph"], key) else []
  }

  /** The ids that draw a node or an edge follow their components. */
  ghost predicate Redrawn(components: Fields, before: Json, after: Json, one: string, two: string) {
    before.Obj? ==>
      && after.Obj?
      && Follows(components, Get(before.fields, one), Get(after.fields, one))
      && Follows(components, Get(before.fields, two), Get(after.fields, two))
  }

  lemma NodeFollows(components: Fields, node: Json)
    ensures Redrawn(components, node, NewNode(IdMap(components), node), "id", "parentId")
  {
    if node.Obj? {
      var m := IdMap(components);
      var first := MapText(node.fields, "id", LookupIn(m));
      var second := MapText(first, "parentId", LookupIn(m));
      var typed := MapText(second, "type", RenameType);
      assert Get(typed, "id") == Get(first, "id") && Get(first, "parentId") == Get(node.fields, "parentId");
      assert Get(typed, "parentId") == Get(second, "parentId");
    }
  }

  lemma EdgeFollows(components: Fields, ids: seq<string>, edge: Json)
    ensures Redrawn(components, edge, NewEdge(IdMap(components), ids, edge), "source", "target")
  {
    if edge.Obj? {
      var m := IdMap(components);
      var first := MapText(edge.fields, "source", LookupIn(m));
      var second := MapText(first, "target", LookupIn(m));
      assert Get(second, "source") == Get(first, "source") && Get(first, "target") == Get(edge.fields, "target");
    }
  }

  /** Every id in the path and every id that draws a node or an edge names, after the
      migration, the component it named before. */
  lemma DrawingFollows(dsl: Json, order: seq<string>)
    requires HasComponents(dsl) && IsOrder(order, Components(dsl)) && Migrate(dsl, order).Some?
    ensures var after := Migrate(dsl, order).value;
            && AllFollow(Components(dsl), List(dsl, "path"), List(after, "path"))
            && |Drawn(after, "nodes")| == |Drawn(dsl, "nodes")| && |Drawn(after, "edges")| == |Drawn(dsl, "edges")|
            && (forall i | 0 <= i < |Drawn(dsl, "nodes")| ::
                  Redrawn(Components(dsl), Drawn(dsl, "nodes")[i], Drawn(after, "nodes")[i], "id", "parentId"))
            && (forall i | 0 <= i < |Drawn(dsl, "edges")| ::
                  Redrawn(Components(dsl), Drawn(dsl, "edges")[i], Drawn(after, "edges")[i], "source", "target"))
  {
    hide Redrawn, NewNode, NewEdge;
    var after, m, ids := Migrate(dsl, order).value, IdMap(Components(dsl)), LongestFirst(order);
    MigratedFields(dsl, order);
    if Get(dsl.fields, "graph").Obj? {
      var graph := dsl.fields["graph"].fields;
      var drawn := NewGraph(m, ids, graph);
      assert after.fields["graph"] == Obj(drawn);
      assert Get(graph, "nodes").Arr? ==> drawn["nodes"] == Arr(NewNodes(m, graph["nodes"].items));
      assert Get(graph, "edges").Arr? ==> drawn["edges"] == Arr(NewEdges(m, ids, graph["edges"].items));
      assert Drawn(after, "nodes") == NewNodes(m, Drawn(dsl, "nodes"));
      assert Drawn(after, "edges") == NewEdges(m, ids, Drawn(dsl, "edges"));
    }
    forall i | 0 <= i < |Drawn(dsl, "nodes")|
      ensures Redrawn(Components(dsl), Drawn(dsl, "nodes")[i], Drawn(after, "nodes")[i], "id", "parentId")
    {
      NodeFollows(Components(dsl), Drawn(dsl, "nodes")[i]);
    }
    forall i | 0 <= i < |Drawn(dsl, "edges")|
      ensures Redrawn(Components(dsl), Drawn(dsl, "edges")[i], Drawn(after, "edges")[i], "source", "target")
    {
      EdgeFollows(Components(dsl), ids, Drawn(dsl, "edges")[i]);
    }
  }

  lemma MigratedFields(dsl: Json, order: seq<string>)
    requires HasComponents(dsl) && IsOrder(order, Components(dsl)) && Migrate(dsl, order).Some?
    ensures var after := Migrate(dsl, order).value;
            && after.Obj?
            && AllFollow(Components(dsl), List(dsl, "path"), List(after, "path"))
            && Get(after.fields, "graph")
               == (if Get(dsl.fields, "graph").Obj?
                   then Obj(NewGraph(IdMap(Components(dsl)), LongestFirst(order), dsl.fields["graph"].fields))
                   else Get(dsl.fields, "graph"))
  {
    var m := IdMap(Components(dsl));
    var held := dsl.fields["components" := Obj(NewComponents(m, Components(dsl), order).value)];
    assert Get(held, "path") == Get(dsl.fields, "path") && Get(held, "graph") == Get(dsl.fields, "graph");
    var routed := MapList(m, held, "path").value;
    assert Get(routed, "graph") == Get(held, "graph");
    var redrawn := RedrawGraph(m, LongestFirst(order), routed);
    assert Get(redrawn, "path") == Get(routed, "path");
    var after := RewriteTalk(m, redrawn);
    assert Get(after, "path") == Get(redrawn, "path") && Get(after, "graph") == Get(redrawn, "graph");
  }

  /** A text that is no component id refers, after the migration, to the components it
      referred to before, in the same order, under their new ids. */
  lemma ReferencesFollow(components: Fields, text: string)
    requires text !in components
    ensures Refs(RewriteText(IdMap(components), text)) == RenamedAll(IdMap(components), Refs(text))
  {
    RenameKeepsIdShape(components);
    RefsRenamed(IdMap(components), text);
  }
}
