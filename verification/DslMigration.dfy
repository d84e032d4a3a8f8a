/** The migration of legacy chunker component names and ids in a canvas DSL
    (agent/dsl_migration.py, `normalize_chunker_dsl`). A JSON object is a map, so the one
    place where the order of its keys is seen, the components, takes the order as an
    argument. `None` is the error the dictionary lookups raise on a list or an object. */
module DslMigration {
  import opened Basics
  import opened VariableRefs
  import opened JsonRewrite

  type Fields = map<string, Json>

  // ------------------------------------------------------------------ names and ids

  const ComponentRenames: seq<(string, string)> :=
    [("Splitter", "TokenChunker"), ("HierarchicalMerger", "TitleChunker"), ("PDFGenerator", "DocGenerator")]

  function RenameName(name: string): string {
    if name == "Splitter" then "TokenChunker"
    else if name == "HierarchicalMerger" then "TitleChunker"
    else if name == "PDFGenerator" then "DocGenerator"
    else name
  }

  function RenameType(nodeType: string): string {
    if nodeType == "splitterNode" then "chunkerNode" else nodeType
  }

  function RenameId(id: string): string {
    if "Splitter:" <= id then "TokenChunker:" + id[|"Splitter:"|..]
    else if "HierarchicalMerger:" <= id then "TitleChunker:" + id[|"HierarchicalMerger:"|..]
    else if "PDFGenerator:" <= id then "DocGenerator:" + id[|"PDFGenerator:"|..]
    else id
  }

  function IdMap(components: Fields): Renaming { map id | id in components :: RenameId(id) }

  // ------------------------------------------------------------------ components

  /** Lists and objects cannot be looked up. */
  predicate Hashable(v: Json) { !v.Arr? && !v.Obj? }

  predicate AllHashable(items: seq<Json>) { forall i | 0 <= i < |items| :: Hashable(items[i]) }

  function MapId(m: Renaming, v: Json): Json { if v.Str? then Str(Lookup(m, v.text)) else v }

  function MapIds(m: Renaming, items: seq<Json>): seq<Json> {
    seq(|items|, i requires 0 <= i < |items| => MapId(m, items[i]))
  }

  function Get(fields: Fields, key: string): Json { if key in fields then fields[key] else Null }

  /** Look the ids of a list field up; a field that is no list is left alone. */
  function MapList(m: Renaming, fields: Fields, key: string): Option<Fields> {
    if !Get(fields, key).Arr? then Some(fields)
    else if !AllHashable(fields[key].items) then None
    else Some(fields[key := Arr(MapIds(m, fields[key].items))])
  }

  /** Change a text field; a field that is no text is left alone. */
  function MapText(fields: Fields, key: string, change: string -> string): Fields {
    if Get(fields, key).Str? then fields[key := Str(change(fields[key].text))] else fields
  }

  function LookupIn(m: Renaming): string -> string { (id: string) => Lookup(m, id) }

  function RenameComponentName(fields: Fields): Option<Fields> {
    if !Get(fields, "obj").Obj? then Some(fields)
    else
      var obj := fields["obj"].fields;
      var name := Get(obj, "component_name");
      if !Hashable(name) then None
      else Some(fields["obj" := Obj(obj["component_name" := if name.Str? then Str(RenameName(name.text)) else name])])
  }

  function RenameFields(m: Renaming, fields: Fields): Option<Fields> {
    match RenameComponentName(fields) case None => None case Some(named) =>
    match MapList(m, named, "downstream") case None => None case Some(down) =>
    match MapList(m, down, "upstream") case None => None case Some(up) =>
    Some(MapText(up, "parent_id", LookupIn(m)))
  }

  function NewComponent(m: Renaming, component: Json): Option<Json> {
    var rewritten := Rewrite(m, component);
    if !rewritten.Obj? then Some(rewritten)
    else match RenameFields(m, rewritten.fields)
      case None => None
      case Some(fields) => Some(Obj(fields))
  }

  /** The components in order; of two that get the same id the later one stays. */
  function NewComponents(m: Renaming, components: Fields, order: seq<string>): Option<Fields>
    requires forall id | id in order :: id in components && id in m
  {
    if order == [] then Some(map[])
    else
      var id := order[|order| - 1];
      match NewComponents(m, components, order[..|order| - 1])
      case None => None
      case Some(before) =>
        match NewComponent(m, components[id])
        case None => None
        case Some(component) => Some(before[m[id] := component])
  }

  // ------------------------------------------------------------------ the drawn graph

  function NewData(m: Renaming, data: Fields): Fields {
    var labelled := MapText(data, "label", RenameName);
    var named := MapText(labelled, "name", RenameName);
    if "form" in named then named["form" := Rewrite(m, named["form"])] else named
  }

  function NewNode(m: Renaming, node: Json): Json {
    if !node.Obj? then node
    else
      var ids := MapText(MapText(node.fields, "id", LookupIn(m)), "parentId", LookupIn(m));
      var typed := MapText(ids, "type", RenameType);
      if Get(typed, "data").Obj? then Obj(typed["data" := Obj(NewData(m, typed["data"].fields))]) else Obj(typed)
  }

  /** `str.replace`: every occurrence, left to right; an empty `old` stands before every
      character and at the end. */
  function Replace(s: string, old_: string, new_: string): string
    decreases |s|
  {
    if old_ == "" then (if s == "" then new_ else new_ + [s[0]] + Replace(s[1..], old_, new_))
    else if s == "" then ""
    else if old_ <= s then new_ + Replace(s[|old_|..], old_, new_)
    else [s[0]] + Replace(s[1..], old_, new_)
  }

  /** The ids, longest first, in the given order among equals. */
  function LongestFirst(order: seq<string>): seq<string> {
    if order == [] then [] else InsertByLength(order[0], LongestFirst(order[1..]))
  }

  function InsertByLength(id: string, sorted: seq<string>): seq<string> {
    if sorted == [] || |sorted[0]| <= |id| then [id] + sorted
    else [sorted[0]] + InsertByLength(id, sorted[1..])
  }

  ghost predicate LongerFirst(ids: seq<string>) { forall i, j | 0 <= i < j < |ids| :: |ids[j]| <= |ids[i]| }

  lemma {:induction false} InsertedInPlace(id: string, sorted: seq<string>)
    requires LongerFirst(sorted)
    ensures LongerFirst(InsertByLength(id, sorted)) && multiset(InsertByLength(id, sorted)) == multiset(sorted) + multiset{id}
  {
    if sorted != [] && |sorted[0]| > |id| {
      InsertedInPlace(id, sorted[1..]);
      var rest := InsertByLength(id, sorted[1..]);
      assert sorted == [sorted[0]] + sorted[1..];
      forall i | 0 <= i < |rest| ensures |rest[i]| <= |sorted[0]| {
        assert rest[i] in multiset(rest);
        assert rest[i] == id || rest[i] in sorted[1..];
      }
    }
  }

  /** The replacements are the ids of all components, and a longer id comes before a
      shorter one. */
  lemma {:induction false} LongestFirstSorts(order: seq<string>)
    ensures LongerFirst(LongestFirst(order)) && multiset(LongestFirst(order)) == multiset(order)
  {
    if order != [] {
      LongestFirstSorts(order[1..]);
      InsertedInPlace(order[0], LongestFirst(order[1..]));
      assert order == [order[0]] + order[1..];
    }
  }

  function ReplaceAll(m: Renaming, ids: seq<string>, text: string): string {
    if ids == [] then text else ReplaceAll(m, ids[1..], Replace(text, ids[0], Lookup(m, ids[0])))
  }

  function NewEdge(m: Renaming, ids: seq<string>, edge: Json): Json {
    if !edge.Obj? then edge
    else
      var ends := MapText(MapText(edge.fields, "source", LookupIn(m)), "target", LookupIn(m));
      Obj(MapText(ends, "id", (text: string) => ReplaceAll(m, ids, text)))
  }

  function NewNodes(m: Renaming, nodes: seq<Json>): seq<Json> {
    seq(|nodes|, i requires 0 <= i < |nodes| => NewNode(m, nodes[i]))
  }

  function NewEdges(m: Renaming, ids: seq<string>, edges: seq<Json>): seq<Json> {
    seq(|edges|, i requires 0 <= i < |edges| => NewEdge(m, ids, edges[i]))
  }

  function NewGraph(m: Renaming, ids: seq<string>, graph: Fields): Fields {
    var drawn := if Get(graph, "nodes").Arr? then graph["nodes" := Arr(NewNodes(m, graph["nodes"].items))] else graph;
    if Get(drawn, "edges").Arr? then drawn["edges" := Arr(NewEdges(m, ids, drawn["edges"].items))] else drawn
  }

  // ------------------------------------------------------------------ the whole migration

  predicate HasComponents(dsl: Json) { dsl.Obj? && Get(dsl.fields, "components").Obj? }

  function Components(dsl: Json): Fields
    requires HasComponents(dsl)
  {
    dsl.fields["components"].fields
  }

  ghost predicate IsOrder(order: seq<string>, components: Fields) {
    && (forall id :: id in order <==> id in components)
    && (forall i, j | 0 <= i < j < |order| :: order[i] != order[j])
  }

  function RewriteField(m: Renaming, fields: Fields, key: string): Fields {
    if key in fields then fields[key := Rewrite(m, fields[key])] else fields
  }

  function RewriteTalk(m: Renaming, fields: Fields): Fields {
    RewriteField(m, RewriteField(m, RewriteField(m, fields, "history"), "messages"), "reference")
  }

  function RedrawGraph(m: Renaming, ids: seq<string>, fields: Fields): Fields {
    if Get(fields, "graph").Obj? then fields["graph" := Obj(NewGraph(m, ids, fields["graph"].fields))] else fields
  }

  function MigrateFields(fields: Fields, components: Fields, order: seq<string>): Option<Fields>
    requires forall id | id in order :: id in components
  {
    var m := IdMap(components);
    match NewComponents(m, components, order) case None => None case Some(renamed) =>
    match MapList(m, fields["components" := Obj(renamed)], "path") case None => None case Some(routed) =>
    Some(RewriteTalk(m, RedrawGraph(m, LongestFirst(order), routed)))
  }

  function Migrate(dsl: Json, order: seq<string>): Option<Json>
    requires HasComponents(dsl) ==> forall id | id in order :: id in Components(dsl)
  {
    if !HasComponents(dsl) then Some(dsl)
    else match MigrateFields(dsl.fields, Components(dsl), order)
      case None => None
      case Some(fields) => Some(Obj(fields))
  }

  // ------------------------------------------------------------------ the renaming of ids

  lemma RenameIdTwice(id: string)
    ensures RenameId(RenameId(id)) == RenameId(id)
  {
    assert "TokenChunker:"[0] == 'T' && "TitleChunker:"[0] == 'T' && "DocGenerator:"[0] == 'D';
    assert "Splitter:"[0] == 'S' && "HierarchicalMerger:"[0] == 'H' && "PDFGenerator:"[0] == 'P';
    assert RenameId(id) != id ==> RenameId(id)[0] == 'T' || RenameId(id)[0] == 'D';
  }

  lemma RenameNameTwice(name: string)
    ensures RenameName(RenameName(name)) == RenameName(name)
  {
    assert "TokenChunker"[0] == 'T' && "TitleChunker"[0] == 'T' && "DocGenerator"[0] == 'D';
    assert "Splitter"[0] == 'S' && "HierarchicalMerger"[0] == 'H' && "PDFGenerator"[0] == 'P';
  }

  /** Renamed ids that differ stay different. */
  lemma RenamedApart(a: string, b: string)
    requires RenameId(a) != a && RenameId(b) != b && RenameId(a) == RenameId(b)
    ensures a == b
  {
    var old1, old2, old3 := "Splitter:", "HierarchicalMerger:", "PDFGenerator:";
    var new1, new2, new3 := "TokenChunker:", "TitleChunker:", "DocGenerator:";
    assert new1[0] == 'T' && new2[0] == 'T' && new3[0] == 'D' && new1[1] == 'o' && new2[1] == 'i';
    var c := RenameId(a);
    if c[0] == 'D' {
      assert c[|new3|..] == a[|old3|..] && c[|new3|..] == b[|old3|..];
      assert a == old3 + a[|old3|..] && b == old3 + b[|old3|..];
    } else if c[1] == 'i' {
      assert c[|new2|..] == a[|old2|..] && c[|new2|..] == b[|old2|..];
      assert a == old2 + a[|old2|..] && b == old2 + b[|old2|..];
    } else {
      assert c[|new1|..] == a[|old1|..] && c[|new1|..] == b[|old1|..];
      assert a == old1 + a[|old1|..] && b == old1 + b[|old1|..];
    }
  }

  /** New ids are written in the characters of ids. */
  lemma RenameKeepsIdShape(components: Fields)
    ensures KeepsIdShape(IdMap(components))
  {
    var m := IdMap(components);
    forall id | id in m && IsId(id) ensures IsId(m[id]) {
      var new1, new2, new3 := "TokenChunker:", "TitleChunker:", "DocGenerator:";
      assert forall c | c in new1 :: InClass(IdChars, c);
      assert forall c | c in new2 :: InClass(IdChars, c);
      assert forall c | c in new3 :: InClass(IdChars, c);
    }
  }

  // ------------------------------------------------------------------ already migrated

  ghost predicate CurrentFields(fields: Fields) {
    && (Get(fields, "obj").Obj? ==>
          var obj := fields["obj"].fields;
          && "component_name" in obj && Hashable(obj["component_name"])
          && (obj["component_name"].Str? ==> RenameName(obj["component_name"].text) == obj["component_name"].text))
    && (Get(fields, "downstream").Arr? ==> AllHashable(fields["downstream"].items))
    && (Get(fields, "upstream").Arr? ==> AllHashable(fields["upstream"].items))
  }

  ghost predicate CurrentText(fields: Fields, key: string, change: string -> string) {
    Get(fields, key).Str? ==> change(fields[key].text) == fields[key].text
  }

  ghost predicate CurrentNode(node: Json) {
    node.Obj? ==>
      && CurrentText(node.fields, "type", RenameType)
      && (Get(node.fields, "data").Obj? ==>
            && CurrentText(node.fields["data"].fields, "label", RenameName)
            && CurrentText(node.fields["data"].fields, "name", RenameName))
  }

  ghost predicate CurrentComponents(components: Fields) {
    forall id | id in components ::
      RenameId(id) == id && (components[id].Obj? ==> CurrentFields(components[id].fields))
  }

  ghost predicate CurrentGraph(graph: Fields) {
    Get(graph, "nodes").Arr? ==> forall i | 0 <= i < |graph["nodes"].items| :: CurrentNode(graph["nodes"].items[i])
  }

  /** A DSL in the current schema: no legacy id, operator name or node type, every
      operator has a name, and the id lists hold no lists or objects. */
  ghost predicate Current(dsl: Json) {
    HasComponents(dsl) ==>
      && CurrentComponents(Components(dsl))
      && (Get(dsl.fields, "path").Arr? ==> AllHashable(dsl.fields["path"].items))
      && (Get(dsl.fields, "graph").Obj? ==> CurrentGraph(dsl.fields["graph"].fields))
  }

  // ---- a current DSL is left alone

  lemma MapListFixed(m: Renaming, fields: Fields, key: string)
    requires Identity(m) && (Get(fields, key).Arr? ==> AllHashable(fields[key].items))
    ensures MapList(m, fields, key) == Some(fields)
  {
    if Get(fields, key).Arr? {
      assert MapIds(m, fields[key].items) == fields[key].items;
      assert fields[key := fields[key]] == fields;
    }
  }

  lemma MapTextFixed(fields: Fields, key: string, change: string -> string)
    requires CurrentText(fields, key, change)
    ensures MapText(fields, key, change) == fields
  {
    if Get(fields, key).Str? { assert fields[key := fields[key]] == fields; }
  }

  lemma ComponentFixed(m: Renaming, component: Json)
    requires Identity(m) && (component.Obj? ==> CurrentFields(component.fields))
    ensures NewComponent(m, component) == Some(component)
  {
    RewriteIdentity(m, component);
    if component.Obj? {
      var fields := component.fields;
      if Get(fields, "obj").Obj? {
        var obj := fields["obj"].fields;
        assert obj["component_name" := obj["component_name"]] == obj;
        assert fields["obj" := fields["obj"]] == fields;
      }
      assert RenameComponentName(fields) == Some(fields);
      MapListFixed(m, fields, "downstream");
      MapListFixed(m, fields, "upstream");
      MapTextFixed(fields, "parent_id", LookupIn(m));
    }
  }

  lemma {:induction false} ComponentsFixed(m: Renaming, components: Fields, order: seq<string>)
    requires Identity(m) && CurrentComponents(components)
    requires forall id | id in order :: id in components && id in m
    ensures NewComponents(m, components, order) == Some(Only(components, order))
  {
    hide NewComponent;
    hide CurrentFields;
    if order != [] {
      var before, id := order[..|order| - 1], order[|order| - 1];
      assert order == before + [id];
      ComponentsFixed(m, components, before);
      ComponentFixed(m, components[id]);
      OnlyOneMore(components, before, id);
      assert m[id] == id;
    }
  }

  ghost function Only(components: Fields, ids: seq<string>): Fields {
    map id | id in components && id in ids :: components[id]
  }

  lemma OnlyOneMore(components: Fields, ids: seq<string>, id: string)
    requires id in components
    ensures Only(components, ids + [id]) == Only(components, ids)[id := components[id]]
  {
  }

  lemma {:induction false} ReplaceSame(s: string, old_: string)
    ensures Replace(s, old_, old_) == s
    decreases |s|
  {
    if s != "" {
      ReplaceSame(s[1..], old_);
      if old_ != "" && old_ <= s { ReplaceSame(s[|old_|..], old_); }
    }
  }

  lemma {:induction false} ReplaceAllFixed(m: Renaming, ids: seq<string>, text: string)
    requires Identity(m)
    ensures ReplaceAll(m, ids, text) == text
  {
    if ids != [] {
      ReplaceSame(text, ids[0]);
      ReplaceAllFixed(m, ids[1..], text);
    }
  }

  lemma NodeFixed(m: Renaming, node: Json)
    requires Identity(m) && CurrentNode(node)
    ensures NewNode(m, node) == node
  {
    if node.Obj? {
      var fields := node.fields;
      MapTextFixed(fields, "id", LookupIn(m));
      MapTextFixed(fields, "parentId", LookupIn(m));
      MapTextFixed(fields, "type", RenameType);
      if Get(fields, "data").Obj? {
        var data := fields["data"].fields;
        MapTextFixed(data, "label", RenameName);
        MapTextFixed(data, "name", RenameName);
        if "form" in data {
          RewriteIdentity(m, data["form"]);
          assert data["form" := data["form"]] == data;
        }
        assert NewData(m, data) == data;
        assert fields["data" := fields["data"]] == fields;
      }
    }
  }

  lemma EdgeFixed(m: Renaming, ids: seq<string>, edge: Json)
    requires Identity(m)
    ensures NewEdge(m, ids, edge) == edge
  {
    if edge.Obj? {
      var fields := edge.fields;
      MapTextFixed(fields, "source", LookupIn(m));
      MapTextFixed(fields, "target", LookupIn(m));
      if Get(fields, "id").Str? { ReplaceAllFixed(m, ids, fields["id"].text); }
      MapTextFixed(fields, "id", (text: string) => ReplaceAll(m, ids, text));
    }
  }

  lemma GraphFixed(m: Renaming, ids: seq<string>, graph: Fields)
    requires Identity(m) && CurrentGraph(graph)
    ensures NewGraph(m, ids, graph) == graph
  {
    if Get(graph, "nodes").Arr? {
      var nodes := graph["nodes"].items;
      forall i | 0 <= i < |nodes| ensures NewNode(m, nodes[i]) == nodes[i] { NodeFixed(m, nodes[i]); }
      assert NewNodes(m, nodes) == nodes;
      assert graph["nodes" := graph["nodes"]] == graph;
    }
    if Get(graph, "edges").Arr? {
      var edges := graph["edges"].items;
      forall i | 0 <= i < |edges| ensures NewEdge(m, ids, edges[i]) == edges[i] { EdgeFixed(m, ids, edges[i]); }
      assert NewEdges(m, ids, edges) == edges;
      assert graph["edges" := graph["edges"]] == graph;
    }
  }

  lemma FieldFixed(m: Renaming, fields: Fields, key: string)
    requires Identity(m)
    ensures RewriteField(m, fields, key) == fields
  {
    if key in fields {
      RewriteIdentity(m, fields[key]);
      assert fields[key := fields[key]] == fields;
    }
  }

  lemma CurrentIsFixed(dsl: Json, order: seq<string>)
    requires HasComponents(dsl) ==> IsOrder(order, Components(dsl))
    requires Current(dsl)
    ensures Migrate(dsl, order) == Some(dsl)
  {
    hide NewComponents, NewGraph, CurrentGraph, RewriteField, LongestFirst;
    if HasComponents(dsl) {
      var fields, components := dsl.fields, Components(dsl);
      var m := IdMap(components);
      ComponentsFixed(m, components, order);
      assert Only(components, order) == components;
      assert fields["components" := fields["components"]] == fields;
      MapListFixed(m, fields, "path");
      if Get(fields, "graph").Obj? {
        GraphFixed(m, LongestFirst(order), fields["graph"].fields);
        assert fields["graph" := fields["graph"]] == fields;
      }
      FieldFixed(m, fields, "history");
      FieldFixed(m, fields, "messages");
      FieldFixed(m, fields, "reference");
    }
  }

  // ---- a migrated DSL is current

  lemma MapListCurrent(m: Renaming, fields: Fields, key: string)
    requires MapList(m, fields, key).Some?
    ensures var out := MapList(m, fields, key).value;
            && (Get(out, key).Arr? ==> AllHashable(out[key].items))
            && (forall other | other != key :: Get(out, other) == Get(fields, other))
  {
  }

  lemma FieldsCurrent(m: Renaming, fields: Fields)
    requires RenameFields(m, fields).Some?
    ensures CurrentFields(RenameFields(m, fields).value)
  {
    var named := RenameComponentName(fields).value;
    if Get(fields, "obj").Obj? {
      var name := Get(fields["obj"].fields, "component_name");
      if name.Str? { RenameNameTwice(name.text); }
    }
    MapListCurrent(m, named, "downstream");
    var down := MapList(m, named, "downstream").value;
    MapListCurrent(m, down, "upstream");
  }

  lemma ComponentCurrent(m: Renaming, component: Json)
    requires NewComponent(m, component).Some? && NewComponent(m, component).value.Obj?
    ensures CurrentFields(NewComponent(m, component).value.fields)
  {
    FieldsCurrent(m, Rewrite(m, component).fields);
  }

  lemma {:induction false} ComponentsCurrent(m: Renaming, components: Fields, order: seq<string>)
    requires forall id | id in order :: id in components && id in m && m[id] == RenameId(id)
    requires NewComponents(m, components, order).Some?
    ensures CurrentComponents(NewComponents(m, components, order).value)
  {
    if order != [] {
      var before, id := order[..|order| - 1], order[|order| - 1];
      assert order == before + [id];
      ComponentsCurrent(m, components, before);
      RenameIdTwice(id);
      if NewComponent(m, components[id]).value.Obj? { ComponentCurrent(m, components[id]); }
    }
  }

  lemma NodeCurrent(m: Renaming, node: Json)
    ensures CurrentNode(NewNode(m, node))
  {
    if node.Obj? {
      var ids := MapText(MapText(node.fields, "id", LookupIn(m)), "parentId", LookupIn(m));
      var typed := MapText(ids, "type", RenameType);
      if Get(typed, "data").Obj? {
        var data := typed["data"].fields;
        if Get(data, "label").Str? { RenameNameTwice(data["label"].text); }
        if Get(data, "name").Str? { RenameNameTwice(data["name"].text); }
      }
    }
  }

  lemma MigrateFieldsCurrent(fields: Fields, components: Fields, order: seq<string>)
    requires forall id | id in order :: id in components
    requires MigrateFields(fields, components, order).Some?
    ensures Current(Obj(MigrateFields(fields, components, order).value))
  {
    hide NewComponents, NewNode, NewEdge, CurrentNode, CurrentComponents, LongestFirst, Rewrite;
    var m := IdMap(components);
    ComponentsCurrent(m, components, order);
    var held := fields["components" := Obj(NewComponents(m, components, order).value)];
    MapListCurrent(m, held, "path");
    var routed := MapList(m, held, "path").value;
    if Get(routed, "graph").Obj? {
      var graph := routed["graph"].fields;
      if Get(graph, "nodes").Arr? {
        var nodes := graph["nodes"].items;
        forall i | 0 <= i < |nodes| ensures CurrentNode(NewNode(m, nodes[i])) { NodeCurrent(m, nodes[i]); }
      }
      assert CurrentGraph(NewGraph(m, LongestFirst(order), graph));
    }
  }

  /** Migrating again, in any order, changes nothing. */
  lemma MigrateIsIdempotent(dsl: Json, order: seq<string>, again: seq<string>)
    requires HasComponents(dsl) ==> IsOrder(order, Components(dsl))
    requires Migrate(dsl, order).Some?
    requires var once := Migrate(dsl, order).value; HasComponents(once) ==> IsOrder(again, Components(once))
    ensures Migrate(Migrate(dsl, order).value, again) == Migrate(dsl, order)
  {
    if HasComponents(dsl) { MigrateFieldsCurrent(dsl.fields, Components(dsl), order); }
    CurrentIsFixed(Migrate(dsl, order).value, again);
  }

  /** The migration leaves exactly the DSLs in the current schema alone. */
  lemma UnchangedIffCurrent(dsl: Json, order: seq<string>)
    requires HasComponents(dsl) ==> IsOrder(order, Components(dsl))
    ensures Migrate(dsl, order) == Some(dsl) <==> Current(dsl)
  {
    if Current(dsl) {
      CurrentIsFixed(dsl, order);
    } else if Migrate(dsl, order) == Some(dsl) {
      MigrateFieldsCurrent(dsl.fields, Components(dsl), order);
    }
  }
}
