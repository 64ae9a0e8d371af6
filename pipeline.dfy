/** How the two halves meet: the node file written by mappings.py is the
    diagram file read by diagram_generator.py. These lemmas follow one
    resource block from `create_diagram_nodes` through `write_diagram_yaml`
    to the node pass of `generate`. */
module Pipeline {

  import opened Wrappers
  import opened Models
  import opened Strings
  import opened YamlDoc
  import opened Mappings
  import opened DiagramGenerator

  /** A resource block as the parser produces it: its identifier starts
      with its kind and a `.` (the parser writes `<kind>.<name>`; only that
      prefix matters here), and its kind has no `.`. */
  predicate WellFormedBlock(r: ResourceBlock) {
    && '.' !in r.kind
    && |r.kind| < |r.identifier|
    && r.identifier[..|r.kind|] == r.kind
    && r.identifier[|r.kind|] == '.'
  }

  /** The kind the diagram reader recovers from a written identifier is the
      resource's own kind. */
  lemma {:induction false} KindRecovered(r: ResourceBlock)
    requires WellFormedBlock(r)
    ensures KindOf(r.identifier) == r.kind
  {
    var s := r.identifier;
    assert s[|r.kind|] == '.';
    assert forall j :: 0 <= j < |r.kind| ==> s[j] == r.kind[j];
    IndexOfAt(s, '.', |r.kind|);
    assert s[..|r.kind|] == r.kind;
  }

  /** What the generator does with the mapping written for a resource: it
      draws and registers the node under the resource's node id, captioned
      with its label, when the kind resolves to an icon; it skips it when the
      kind does not; and a kind that is neither in the icon table nor holds
      an `_` raises IndexError. */
  lemma ResourceEntryOutcome(r: ResourceBlock)
    requires WellFormedBlock(r)
    ensures !InTable(r.kind) && '_' !in r.kind ==>
              CreateNodeOutcome(NodeDict(NodeFor(r))) == Raised(IndexError(r.kind), None)
    ensures InTable(r.kind) || '_' in r.kind ==>
              CreateNodeOutcome(NodeDict(NodeFor(r))) ==
                match NodeClass(r.kind)
                case None => NotCreated
                case Some(icon) => Created(Str(NodeId(r.identifier)), DiagramNode(icon, Str(GetResourceLabel(r.kind, r.name))))
  {
    WrittenResourceFields(r);
  }

  /** What the generator reads back from a resource's written mapping. */
  lemma WrittenResourceFields(r: ResourceBlock)
    requires WellFormedBlock(r)
    ensures var d := NodeDict(NodeFor(r));
            && Lookup(d, "identifier") == Some(Str(r.identifier))
            && Truthy(Lookup(d, "identifier"))
            && Lookup(d, "label") == Some(Str(GetResourceLabel(r.kind, r.name)))
            && Lookup(d, "id") == Some(Str(NodeId(r.identifier)))
    ensures KindOf(r.identifier) == r.kind
  {
    KindRecovered(r);
    assert r.identifier[|r.kind|] == '.';
  }

  /** Neither root is drawn: the generator skips entries with a null
      identifier. */
  lemma RootEntriesSkipped()
    ensures CreateNodeOutcome(NodeDict(RootNodes[0])) == NotCreated
    ensures CreateNodeOutcome(NodeDict(RootNodes[1])) == NotCreated
  {
  }

  /** The file written for a list of nodes loads back as the same mappings,
      with no edges. */
  lemma WrittenDiagramLoads(nodes: seq<Node>, content: Document)
    requires content.Keys == {"nodes"}
    requires |content["nodes"]| == |nodes|
    requires forall i :: 0 <= i < |nodes| ==> content["nodes"][i] == NodeDict(nodes[i])
    ensures LoadDiagram(Some(content)).Success?
    ensures LoadDiagram(Some(content)).value == (content["nodes"], [])
  {
    assert "nodes" in content;
  }

  /** The mappings written for `create_diagram_nodes`' output: two roots
      with a null identifier, then one mapping per resource. */
  predicate WrittenFor(resources: seq<ResourceBlock>, entries: seq<Dict>) {
    && |entries| == 2 + |resources|
    && Lookup(entries[0], "identifier") == Some(Null)
    && Lookup(entries[1], "identifier") == Some(Null)
    && forall i :: 0 <= i < |resources| ==> entries[i + 2] == NodeDict(NodeFor(resources[i]))
  }

  /** The file `write_diagram_yaml` wrote for the nodes `create_diagram_nodes`
      returned holds those mappings. */
  lemma WrittenFileHoldsEntries(resources: seq<ResourceBlock>, nodes: seq<Node>, content: Document)
    requires |nodes| == 2 + |resources| && nodes[..2] == RootNodes
    requires forall i :: 0 <= i < |resources| ==> nodes[i + 2] == NodeFor(resources[i])
    requires content.Keys == {"nodes"} && |content["nodes"]| == |nodes|
    requires forall i :: 0 <= i < |nodes| ==> content["nodes"][i] == NodeDict(nodes[i])
    ensures WrittenFor(resources, content["nodes"])
  {
    assert nodes[0] == RootNodes[0] && nodes[1] == RootNodes[1];
    forall i | 0 <= i < |resources| ensures content["nodes"][i + 2] == NodeDict(NodeFor(resources[i])) {
      assert content["nodes"][i + 2] == NodeDict(nodes[i + 2]);
    }
  }

  /** A resource's entry of such a file never raises, and registers under `k`
      exactly when the resource's kind has an icon and `k` is its node id. */
  lemma WrittenResourceEntry(resources: seq<ResourceBlock>, entries: seq<Dict>, j: nat, k: Scalar)
    requires forall r :: r in resources ==> WellFormedBlock(r) && (InTable(r.kind) || '_' in r.kind)
    requires WrittenFor(resources, entries)
    requires 2 <= j < |entries|
    ensures !CreateNodeOutcome(entries[j]).Raised?
    ensures Registers(entries[j], k) <==> NodeClass(resources[j - 2].kind).Some? && k == Str(NodeId(resources[j - 2].identifier))
  {
    var r := resources[j - 2];
    assert r in resources;
    assert entries[j] == NodeDict(NodeFor(r));
    ResolvedEntry(r);
  }

  lemma ResolvedEntry(r: ResourceBlock)
    requires WellFormedBlock(r) && (InTable(r.kind) || '_' in r.kind)
    ensures !CreateNodeOutcome(NodeDict(NodeFor(r))).Raised?
    ensures CreateNodeOutcome(NodeDict(NodeFor(r))).Created? <==> NodeClass(r.kind).Some?
    ensures CreateNodeOutcome(NodeDict(NodeFor(r))).Created? ==> CreateNodeOutcome(NodeDict(NodeFor(r))).id == Str(NodeId(r.identifier))
  {
    ResourceEntryOutcome(r);
  }

  /** Every entry of such a file is one that does not raise. */
  lemma {:induction false} WrittenEntriesDoNotRaise(resources: seq<ResourceBlock>, entries: seq<Dict>)
    requires forall r :: r in resources ==> WellFormedBlock(r) && (InTable(r.kind) || '_' in r.kind)
    requires WrittenFor(resources, entries)
    ensures RegisterAll(EmptyCanvas(), entries, 0).error.None?
  {
    forall j | 0 <= j < |entries| ensures !CreateNodeOutcome(entries[j]).Raised? {
      if j < 2 {
        NoIdentifierNoNode(entries[j]);
      } else {
        WrittenResourceEntry(resources, entries, j, Null);
      }
    }
    RegisterAllFails(EmptyCanvas(), entries, 0);
  }

  /** Some entry of such a file registers under `k` exactly when some
      resource with an icon has `k` as its node id. */
  lemma WrittenEntriesRegister(resources: seq<ResourceBlock>, entries: seq<Dict>, k: Scalar)
    requires forall r :: r in resources ==> WellFormedBlock(r) && (InTable(r.kind) || '_' in r.kind)
    requires WrittenFor(resources, entries)
    ensures (exists j :: 0 <= j < |entries| && Registers(entries[j], k)) <==>
            (exists i :: 0 <= i < |resources| && HasIconAndId(resources[i], k))
  {
    forall j | 0 <= j < |entries|
      ensures Registers(entries[j], k) <==> 2 <= j && HasIconAndId(resources[j - 2], k)
    {
      if j < 2 {
        NoIdentifierNoNode(entries[j]);
      } else {
        WrittenResourceEntry(resources, entries, j, k);
      }
    }
    ShiftedWitness(resources, entries, k);
  }

  /** Entries past the two roots stand for the resources, in order. */
  lemma ShiftedWitness(resources: seq<ResourceBlock>, entries: seq<Dict>, k: Scalar)
    requires |entries| == |resources| + 2
    requires forall j :: 0 <= j < |entries| ==> (Registers(entries[j], k) <==> 2 <= j && HasIconAndId(resources[j - 2], k))
    ensures (exists j :: 0 <= j < |entries| && Registers(entries[j], k)) <==>
            (exists i :: 0 <= i < |resources| && HasIconAndId(resources[i], k))
  {
    if i :| 0 <= i < |resources| && HasIconAndId(resources[i], k) {
      assert Registers(entries[i + 2], k);
    }
  }

  /** The resource's kind has an icon and `k` is its node id. */
  predicate HasIconAndId(r: ResourceBlock, k: Scalar) {
    (InTable(r.kind) || '_' in r.kind) && NodeClass(r.kind).Some? && k == Str(NodeId(r.identifier))
  }

  /** End to end: for resources whose kinds all resolve (in the icon table or
      holding an `_`), generating from the file `write_diagram_yaml` wrote for
      the nodes of `create_diagram_nodes` raises nothing, and registers
      exactly the node ids of the resources whose kind has an icon. */
  lemma {:induction false} GeneratedDiagramRegisters(resources: seq<ResourceBlock>, entries: seq<Dict>, k: Scalar)
    requires forall r :: r in resources ==> WellFormedBlock(r) && (InTable(r.kind) || '_' in r.kind)
    requires WrittenFor(resources, entries)
    ensures GenerateRun(EmptyCanvas(), entries, []).error.None?
    ensures k in GenerateRun(EmptyCanvas(), entries, []).canvas.nodes <==>
              exists i :: 0 <= i < |resources| && HasIconAndId(resources[i], k)
  {
    WrittenEntriesDoNotRaise(resources, entries);
    RegisteredIds(EmptyCanvas(), entries, 0, k);
    WrittenEntriesRegister(resources, entries, k);
  }
}
