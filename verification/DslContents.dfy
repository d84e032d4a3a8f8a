/** What the migration does to names, node types, forms and conversation texts, and that it
    leaves everything else alone (agent/dsl_migration.py). */
module DslContents {
  import opened Basics
  import opened VariableRefs
  import opened JsonRewrite
  import opened DslMigration
  import DslGraph

  // ------------------------------------------------------------------ names and ids

  /** Every row of the table renames the operator and the ids made from its name alike. */
  lemma NamesFitIds(k: nat, x: string)
    requires k < |ComponentRenames|
    ensures var (old_, new_) := ComponentRenames[k];
            RenameName(old_) == new_ && RenameId(old_ + ":" + x) == new_ + ":" + x
  {
    var (old_, new_) := ComponentRenames[k];
    var prefix, id := old_ + ":", old_ + ":" + x;
    assert "Splitter" + ":" == "Splitter:" && "TokenChunker" + ":" == "TokenChunker:";
    assert "HierarchicalMerger" + ":" == "HierarchicalMerger:" && "TitleChunker" + ":" == "TitleChunker:";
    assert "PDFGenerator" + ":" == "PDFGenerator:" && "DocGenerator" + ":" == "DocGenerator:";
    assert "Splitter:"[0] == 'S' && "HierarchicalMerger:"[0] == 'H' && "PDFGenerator:"[0] == 'P';
    assert "Splitter"[0] == 'S' && "HierarchicalMerger"[0] == 'H' && "PDFGenerator"[0] == 'P';
    assert prefix <= id && id[0] == prefix[0] && id[|prefix|..] == x;
  }

  /** A name outside the table is kept, and so is an id that begins with none of its names. */
  lemma OthersAreKept(name: string, id: string)
    ensures (forall k | 0 <= k < |ComponentRenames| :: name != ComponentRenames[k].0) ==> RenameName(name) == name
    ensures (forall k | 0 <= k < |ComponentRenames| :: !(ComponentRenames[k].0 + ":" <= id)) ==> RenameId(id) == id
  {
    assert ComponentRenames[0].0 == "Splitter" && ComponentRenames[0].0 + ":" == "Splitter:";
    assert ComponentRenames[1].0 == "HierarchicalMerger" && ComponentRenames[1].0 + ":" == "HierarchicalMerger:";
    assert ComponentRenames[2].0 == "PDFGenerator" && ComponentRenames[2].0 + ":" == "PDFGenerator:";
  }

  // ------------------------------------------------------------------ one component

  predicate IsStructural(key: string) { key == "obj" || key == "downstream" || key == "upstream" || key == "parent_id" }

  /** The name an operator has after its values have been rewritten. */
  function NewName(m: Renaming, name: Json): Json {
    if name.Str? then Str(RenameName(RewriteText(m, name.text))) else Rewrite(m, name)
  }

  lemma FieldsKept(m: Renaming, fields: Fields)
    requires RenameFields(m, fields).Some?
    ensures var after := RenameFields(m, fields).value;
            && after.Keys == fields.Keys
            && (forall k | k in fields && !IsStructural(k) :: after[k] == fields[k])
            && (Get(fields, "obj").Obj? ==>
                  after["obj"] == Obj(fields["obj"].fields["component_name" :=
                                       var name := Get(fields["obj"].fields, "component_name");
                                       if name.Str? then Str(RenameName(name.text)) else name]))
            && (!Get(fields, "obj").Obj? && "obj" in fields ==> after["obj"] == fields["obj"])
  {
    var named := RenameComponentName(fields).value;
    var down := MapList(m, named, "downstream").value;
    var up := MapList(m, down, "upstream").value;
    assert Get(up, "obj") == Get(down, "obj") == Get(named, "obj");
  }

  /** What becomes of a component: its operator gets the name of the table, the operator's
      other settings and all other values of the component have their references renamed, no
      key is lost, and only a missing operator name is added. */
  lemma ComponentMeans(m: Renaming, component: Json)
    requires component.Obj? && NewComponent(m, component).Some?
    ensures NewComponent(m, component).value.Obj?
    ensures var before, after := component.fields, NewComponent(m, component).value.fields;
            && after.Keys == before.Keys
            && (forall k | k in before && !IsStructural(k) :: after[k] == Rewrite(m, before[k]))
            && (Get(before, "obj").Obj? ==>
                  var obj := before["obj"].fields;
                  && after["obj"].Obj? && after["obj"].fields.Keys == obj.Keys + {"component_name"}
                  && (forall k | k in obj && k != "component_name" :: after["obj"].fields[k] == Rewrite(m, obj[k]))
                  && after["obj"].fields["component_name"] == NewName(m, Get(obj, "component_name")))
  {
    hide RenameFields, RenameName, RewriteText, Rewrite;
    RewrittenObject(m, component);
    var rewritten := Rewrite(m, component).fields;
    FieldsKept(m, rewritten);
    if Get(component.fields, "obj").Obj? {
      var obj := component.fields["obj"];
      RewrittenObject(m, obj);
      RewrittenName(m, Get(obj.fields, "component_name"));
      assert rewritten["obj"] == Rewrite(m, obj);
    }
  }

  lemma RewrittenObject(m: Renaming, v: Json)
    requires v.Obj?
    ensures Rewrite(m, v).Obj? && Rewrite(m, v).fields.Keys == v.fields.Keys
    ensures forall k | k in v.fields :: Rewrite(m, v).fields[k] == Rewrite(m, v.fields[k])
  {
  }

  lemma RewrittenName(m: Renaming, name: Json)
    ensures Rewrite(m, Null) == Null
    ensures Rewrite(m, name).Str? <==> name.Str?
    ensures name.Str? ==> Rewrite(m, name) == Str(RewriteText(m, name.text))
  {
  }

  /** A component whose id is made from its legacy operator name gets an operator name and an
      id that fit each other again. */
  lemma NameFitsId(components: Fields, k: nat, x: string)
    requires k < |ComponentRenames|
    requires var id := ComponentRenames[k].0 + ":" + x;
             && id in components && components[id].Obj? && Get(components[id].fields, "obj").Obj?
             && Get(components[id].fields["obj"].fields, "component_name") == Str(ComponentRenames[k].0)
             && NewComponent(IdMap(components), components[id]).Some?
    requires ComponentRenames[k].0 !in components
    ensures var (old_, new_) := ComponentRenames[k];
            var id := old_ + ":" + x;
            var after := NewComponent(IdMap(components), components[id]).value;
            && RenameId(id) == new_ + ":" + x
            && after.Obj? && Get(after.fields, "obj").Obj?
            && Get(after.fields["obj"].fields, "component_name") == Str(new_)
  {
    hide NewComponent, RenameName, RenameId;
    var (old_, new_) := ComponentRenames[k];
    var m := IdMap(components);
    NamesFitIds(k, x);
    ComponentMeans(m, components[old_ + ":" + x]);
    LegacyNameHasNoReference(k);
    DslGraph.NoReferenceInId(m, old_);
  }

  lemma LegacyNameHasNoReference(k: nat)
    requires k < |ComponentRenames|
    ensures forall c | c in ComponentRenames[k].0 :: InClass(IdChars, c)
  {
    assert forall c | c in "Splitter" :: InClass(IdChars, c);
    assert forall c | c in "HierarchicalMerger" :: InClass(IdChars, c);
    assert forall c | c in "PDFGenerator" :: InClass(IdChars, c);
  }

  /** A component cannot be migrated exactly when its operator name, or an entry of one of
      its two lists, is itself a list or an object. */
  lemma ComponentFailsIff(m: Renaming, component: Json)
    ensures NewComponent(m, component).None? <==>
              component.Obj? &&
              var fields := component.fields;
              || (Get(fields, "obj").Obj? && !Hashable(Get(fields["obj"].fields, "component_name")))
              || !AllHashable(DslGraph.List(component, "downstream"))
              || !AllHashable(DslGraph.List(component, "upstream"))
  {
    if component.Obj? {
      hide RenameName, RewriteText;
      RewrittenObject(m, component);
      var fields, rewritten := component.fields, Rewrite(m, component).fields;
      if Get(fields, "obj").Obj? { RewrittenObject(m, fields["obj"]); }
      RewrittenList(m, component, "downstream");
      RewrittenList(m, component, "upstream");
      FailsIffFields(m, rewritten);
    }
  }

  lemma RewrittenList(m: Renaming, component: Json, key: string)
    requires component.Obj?
    ensures AllHashable(DslGraph.List(Rewrite(m, component), key)) <==> AllHashable(DslGraph.List(component, key))
  {
    RewrittenObject(m, component);
    var fields, rewritten := component.fields, Rewrite(m, component).fields;
    if key in fields {
      RewrittenItems(m, fields[key]);
      assert rewritten[key] == Rewrite(m, fields[key]);
    }
  }

  /** Rewriting keeps lists lists, and what can be looked up stays so. */
  lemma RewrittenItems(m: Renaming, v: Json)
    ensures Rewrite(m, v).Arr? <==> v.Arr?
    ensures v.Arr? ==> (AllHashable(Rewrite(m, v).items) <==> AllHashable(v.items))
  {
    if v.Arr? {
      var after := Rewrite(m, v).items;
      forall i | 0 <= i < |v.items| ensures Hashable(after[i]) <==> Hashable(v.items[i]) {
        assert after[i] == Rewrite(m, v.items[i]);
      }
    }
  }

  lemma FailsIffFields(m: Renaming, fields: Fields)
    ensures RenameFields(m, fields).None? <==>
              || (Get(fields, "obj").Obj? && !Hashable(Get(fields["obj"].fields, "component_name")))
              || !AllHashable(DslGraph.List(Obj(fields), "downstream"))
              || !AllHashable(DslGraph.List(Obj(fields), "upstream"))
  {
    hide RenameName;
    if RenameComponentName(fields).Some? {
      var named := RenameComponentName(fields).value;
      assert Get(named, "downstream") == Get(fields, "downstream") && Get(named, "upstream") == Get(fields, "upstream");
      if MapList(m, named, "downstream").Some? {
        assert Get(MapList(m, named, "downstream").value, "upstream") == Get(fields, "upstream");
      }
    }
  }

  // ------------------------------------------------------------------ nodes and edges

  lemma DataMeans(m: Renaming, data: Fields)
    ensures var after := NewData(m, data);
            && after.Keys == data.Keys
            && (forall k | k in data && k != "label" && k != "name" && k != "form" :: after[k] == data[k])
            && (forall k | k in data && (k == "label" || k == "name") ::
                  after[k] == if data[k].Str? then Str(RenameName(data[k].text)) else data[k])
            && ("form" in data ==> after["form"] == Rewrite(m, data["form"]))
  {
    hide RenameName, Rewrite;
    var labelled := MapText(data, "label", RenameName);
    var named := MapText(labelled, "name", RenameName);
    assert Get(named, "form") == Get(data, "form") && Get(labelled, "name") == Get(data, "name");
    assert Get(named, "label") == Get(labelled, "label");
  }

  /** What becomes of a drawn node: the splitter's type gives way to the chunker's, label and
      name to those of the table, the form has its references renamed, and nothing else but
      the two ids is touched. */
  lemma NodeMeans(m: Renaming, node: Fields)
    ensures NewNode(m, Obj(node)).Obj?
    ensures var after := NewNode(m, Obj(node)).fields;
            && after.Keys == node.Keys
            && (forall k | k in node && k != "id" && k != "parentId" && k != "type" && k != "data" :: after[k] == node[k])
            && ("type" in node ==>
                  after["type"] == if node["type"] == Str("splitterNode") then Str("chunkerNode") else node["type"])
            && ("data" in node ==>
                  after["data"] == if node["data"].Obj? then Obj(NewData(m, node["data"].fields)) else node["data"])
  {
    hide NewData;
    var first := MapText(node, "id", LookupIn(m));
    var second := MapText(first, "parentId", LookupIn(m));
    var typed := MapText(second, "type", RenameType);
    assert Get(second, "type") == Get(first, "type") == Get(node, "type");
    assert Get(typed, "data") == Get(second, "data") == Get(first, "data") == Get(node, "data");
  }

  /** Of a drawn edge only its two ends and its id are touched. */
  lemma EdgeMeans(m: Renaming, ids: seq<string>, edge: Fields)
    ensures NewEdge(m, ids, Obj(edge)).Obj?
    ensures var after := NewEdge(m, ids, Obj(edge)).fields;
            && after.Keys == edge.Keys
            && (forall k | k in edge && k != "id" && k != "source" && k != "target" :: after[k] == edge[k])
  {
    hide ReplaceAll;
  }

  // ------------------------------------------------------------------ the whole DSL

  predicate IsTalk(key: string) { key == "history" || key == "messages" || key == "reference" }

  predicate IsMigrated(key: string) { key == "components" || key == "path" || key == "graph" || IsTalk(key) }

  lemma TalkMeans(m: Renaming, fields: Fields)
    ensures var after := RewriteTalk(m, fields);
            && after.Keys == fields.Keys
            && (forall k | k in fields && !IsTalk(k) :: after[k] == fields[k])
            && (forall k | k in fields && IsTalk(k) :: after[k] == Rewrite(m, fields[k]))
  {
    hide Rewrite;
    var first := RewriteField(m, fields, "history");
    var second := RewriteField(m, first, "messages");
    assert Get(second, "reference") == Get(first, "reference") == Get(fields, "reference");
    assert Get(first, "messages") == Get(fields, "messages");
    assert "history" != "messages" && "messages" != "reference" && "history" != "reference";
  }

  /** Of the whole DSL: the conversation texts have their references renamed, and every field
      the migration does not name, no key being lost, stays as it was. */
  lemma DslMeans(dsl: Json, order: seq<string>)
    requires HasComponents(dsl) && IsOrder(order, Components(dsl)) && Migrate(dsl, order).Some?
    ensures var after := Migrate(dsl, order).value;
            && after.Obj? && after.fields.Keys == dsl.fields.Keys
            && (forall k | k in dsl.fields && IsTalk(k) :: after.fields[k] == Rewrite(IdMap(Components(dsl)), dsl.fields[k]))
            && (forall k | k in dsl.fields && !IsMigrated(k) :: after.fields[k] == dsl.fields[k])
  {
    hide NewComponents, NewGraph, Rewrite, RewriteTalk, LongestFirst;
    var m := IdMap(Components(dsl));
    var held := dsl.fields["components" := Obj(NewComponents(m, Components(dsl), order).value)];
    var routed := MapList(m, held, "path").value;
    var redrawn := RedrawGraph(m, LongestFirst(order), routed);
    TalkMeans(m, redrawn);
    assert redrawn.Keys == dsl.fields.Keys;
    forall k | k in dsl.fields && (IsTalk(k) || !IsMigrated(k)) ensures redrawn[k] == dsl.fields[k] {
      assert k != "components" && k != "path" && k != "graph" by { TalkIsApart(k); }
    }
  }

  lemma {:induction false} ComponentsFailIff(m: Renaming, components: Fields, order: seq<string>)
    requires forall id | id in order :: id in components && id in m
    ensures NewComponents(m, components, order).None? <==> exists id | id in order :: NewComponent(m, components[id]).None?
    decreases |order|
  {
    hide NewComponent;
    if order != [] {
      var last := |order| - 1;
      ComponentsFailIff(m, components, order[..last]);
      assert order == order[..last] + [order[last]];
    }
  }

  /** The migration fails exactly when a component cannot be migrated or the path holds a
      list or an object. */
  lemma MigrateFailsIff(dsl: Json, order: seq<string>)
    requires HasComponents(dsl) && IsOrder(order, Components(dsl))
    ensures Migrate(dsl, order).None? <==>
              || (exists id | id in Components(dsl) :: NewComponent(IdMap(Components(dsl)), Components(dsl)[id]).None?)
              || !AllHashable(DslGraph.List(dsl, "path"))
  {
    hide NewComponent, NewComponents, NewGraph, RewriteTalk, LongestFirst;
    var m := IdMap(Components(dsl));
    ComponentsFailIff(m, Components(dsl), order);
    if NewComponents(m, Components(dsl), order).Some? {
      var held := dsl.fields["components" := Obj(NewComponents(m, Components(dsl), order).value)];
      assert Get(held, "path") == Get(dsl.fields, "path");
    }
  }

  lemma TalkIsApart(key: string)
    ensures IsTalk(key) ==> key != "components" && key != "path" && key != "graph"
  {
    assert |"history"| == 7 && |"messages"| == 8 && |"reference"| == 9;
  }
}
