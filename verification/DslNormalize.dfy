/** The loops of `normalize_chunker_dsl` (agent/dsl_migration.py): filling the id map,
    rebuilding the components, editing nodes and edges one by one. The source works on a
    deep copy, so the edits touch no value the caller holds. */
module DslNormalize {
  import opened Basics
  import opened VariableRefs
  import opened JsonRewrite
  import opened DslMigration

  /** The rename table in order, up to the first prefix that fits. */
  method NewId(id: string) returns (r: string)
    ensures r == RenameId(id)
  {
    r := id;
    for i := 0 to |ComponentRenames|
      invariant r == id
      invariant forall k | 0 <= k < i :: !(ComponentRenames[k].0 + ":" <= id)
    {
      var prefix := ComponentRenames[i].0 + ":";
      if prefix <= id {
        TableIsRename(i, id);
        return ComponentRenames[i].1 + ":" + id[|prefix|..];
      }
    }
    TableMisses(id);
  }

  lemma TableIsRename(i: nat, id: string)
    requires i < |ComponentRenames| && ComponentRenames[i].0 + ":" <= id
    ensures ComponentRenames[i].1 + ":" + id[|ComponentRenames[i].0 + ":"|..] == RenameId(id)
  {
    var prefix := ComponentRenames[i].0 + ":";
    assert "Splitter" + ":" == "Splitter:" && "TokenChunker" + ":" == "TokenChunker:";
    assert "HierarchicalMerger" + ":" == "HierarchicalMerger:" && "TitleChunker" + ":" == "TitleChunker:";
    assert "PDFGenerator" + ":" == "PDFGenerator:" && "DocGenerator" + ":" == "DocGenerator:";
    assert "Splitter:"[0] == 'S' && "HierarchicalMerger:"[0] == 'H' && "PDFGenerator:"[0] == 'P';
    assert id[0] == prefix[0];
  }

  lemma TableMisses(id: string)
    requires forall k | 0 <= k < |ComponentRenames| :: !(ComponentRenames[k].0 + ":" <= id)
    ensures RenameId(id) == id
  {
    assert "Splitter:" == ComponentRenames[0].0 + ":";
    assert "HierarchicalMerger:" == ComponentRenames[1].0 + ":";
    assert "PDFGenerator:" == ComponentRenames[2].0 + ":";
  }

  method FillIdMap(components: Fields, order: seq<string>) returns (m: Renaming)
    requires IsOrder(order, components)
    ensures m == IdMap(components)
  {
    m := map[];
    for i := 0 to |order|
      invariant forall id :: id in m <==> id in order[..i]
      invariant forall id | id in m :: m[id] == RenameId(id)
    {
      var id := NewId(order[i]);
      m := m[order[i] := id];
      assert order[..i + 1] == order[..i] + [order[i]];
    }
    assert order[..|order|] == order;
  }

  method RebuildComponents(m: Renaming, components: Fields, order: seq<string>) returns (r: Option<Fields>)
    requires forall id | id in order :: id in components && id in m
    ensures r == NewComponents(m, components, order)
  {
    var out: Fields := map[];
    for i := 0 to |order|
      invariant NewComponents(m, components, order[..i]) == Some(out)
    {
      assert order[..i + 1][..i] == order[..i];
      var component := NewComponent(m, components[order[i]]);
      if component.None? {
        FailureStays(m, components, order, i + 1);
        return None;
      }
      out := out[m[order[i]] := component.value];
    }
    assert order[..|order|] == order;
    r := Some(out);
  }

  /** One component that cannot be migrated fails the whole migration. */
  lemma {:induction false} FailureStays(m: Renaming, components: Fields, order: seq<string>, i: nat)
    requires forall id | id in order :: id in components && id in m
    requires i <= |order| && NewComponents(m, components, order[..i]).None?
    ensures NewComponents(m, components, order).None?
    decreases |order|
  {
    if i == |order| {
      assert order[..i] == order;
    } else {
      assert order[..|order| - 1][..i] == order[..i];
      FailureStays(m, components, order[..|order| - 1], i);
    }
  }

  method EditNodes(m: Renaming, nodes: seq<Json>) returns (r: seq<Json>)
    ensures r == NewNodes(m, nodes)
  {
    r := nodes;
    for i := 0 to |nodes|
      invariant |r| == |nodes|
      invariant forall k | 0 <= k < |nodes| :: r[k] == if k < i then NewNode(m, nodes[k]) else nodes[k]
    {
      r := r[i := NewNode(m, r[i])];
    }
  }

  method EditEdges(m: Renaming, ids: seq<string>, edges: seq<Json>) returns (r: seq<Json>)
    ensures r == NewEdges(m, ids, edges)
  {
    r := edges;
    for i := 0 to |edges|
      invariant |r| == |edges|
      invariant forall k | 0 <= k < |edges| :: r[k] == if k < i then NewEdge(m, ids, edges[k]) else edges[k]
    {
      if edges[i].Obj? {
        var fields := MapText(MapText(edges[i].fields, "source", LookupIn(m)), "target", LookupIn(m));
        if Get(fields, "id").Str? {
          var text := ReplaceIds(m, ids, fields["id"].text);
          fields := fields["id" := Str(text)];
        }
        r := r[i := Obj(fields)];
      }
    }
  }

  /** Replace the ids one after the other. */
  method ReplaceIds(m: Renaming, ids: seq<string>, text: string) returns (r: string)
    ensures r == ReplaceAll(m, ids, text)
  {
    r := text;
    for i := 0 to |ids|
      invariant ReplaceAll(m, ids[i..], r) == ReplaceAll(m, ids, text)
    {
      assert ids[i..][1..] == ids[i + 1..];
      r := Replace(r, ids[i], Lookup(m, ids[i]));
    }
    assert ids[|ids|..] == [];
  }

  method NormalizeChunkerDsl(dsl: Json, order: seq<string>) returns (r: Option<Json>)
    requires HasComponents(dsl) ==> IsOrder(order, Components(dsl))
    ensures r == Migrate(dsl, order)
  {
    hide NewComponents, NewNodes, NewEdges, RewriteTalk, IdMap, LongestFirst;
    if !HasComponents(dsl) { return Some(dsl); }
    var components := Components(dsl);
    var m := FillIdMap(components, order);
    assert forall id | id in order :: id in m by { InIdMap(components); }
    var renamed := RebuildComponents(m, components, order);
    if renamed.None? { return None; }
    var normalized := dsl.fields["components" := Obj(renamed.value)];
    var routed := MapList(m, normalized, "path");
    if routed.None? { return None; }
    normalized := routed.value;
    if Get(normalized, "graph").Obj? {
      var graph := normalized["graph"].fields;
      if Get(graph, "nodes").Arr? {
        var nodes := EditNodes(m, graph["nodes"].items);
        graph := graph["nodes" := Arr(nodes)];
      }
      if Get(graph, "edges").Arr? {
        var edges := EditEdges(m, LongestFirst(order), graph["edges"].items);
        graph := graph["edges" := Arr(edges)];
      }
      normalized := normalized["graph" := Obj(graph)];
    }
    r := Some(Obj(RewriteTalk(m, normalized)));
  }

  lemma InIdMap(components: Fields)
    ensures forall id :: id in IdMap(components) <==> id in components
  {
  }
}
