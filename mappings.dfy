/** From resource blocks to diagram nodes (mappings.py): the fixed parent and
    label tables, the two root nodes, one node per resource, and the node
    mappings handed to the YAML writer. */
module Mappings {

  import opened Wrappers
  import opened Models
  import opened Strings
  import opened YamlDoc

  // ---------------------------------------------------------------------
  // Parent containers
  // ---------------------------------------------------------------------

  /** The table of `get_resource_parent`. A value of None is an explicit
      "no parent" entry, which `dict.get` cannot tell from a missing key. */
  const ParentMappings: map<string, Option<string>> := map[
    "aws_vpc" := Some("region"),
    "aws_subnet" := Some("vpc"),
    "aws_lb" := Some("vpc"),
    "aws_ecs_service" := Some("private-subnet"),
    "aws_ecs_cluster" := Some("private-subnet"),
    "aws_cloudfront_distribution" := None,
    "aws_waf_web_acl" := None,
    "aws_wafregional_web_acl" := Some("region")
  ]

  /** The kinds that are placed inside a container. */
  const ContainedKinds: set<string> :=
    {"aws_vpc", "aws_subnet", "aws_lb", "aws_ecs_service", "aws_ecs_cluster", "aws_wafregional_web_acl"}

  /** The parent container of a resource kind: a pure table lookup, None for
      every kind the table does not place. */
  function GetResourceParent(kind: string): (parent: Option<string>)
    ensures parent.Some? <==> kind in ContainedKinds
    ensures parent.Some? ==> parent.value in {"region", "vpc", "private-subnet"}
  {
    if kind in ParentMappings then ParentMappings[kind] else None
  }

  lemma ParentExamples()
    ensures GetResourceParent("aws_vpc") == Some("region")
    ensures GetResourceParent("aws_subnet") == Some("vpc")
    ensures GetResourceParent("aws_cloudfront_distribution") == None
    ensures GetResourceParent("aws_waf_web_acl") == None
    ensures GetResourceParent("aws_s3_bucket") == None
  {
  }

  // ---------------------------------------------------------------------
  // Labels
  // ---------------------------------------------------------------------

  /** The display names of `get_resource_label`. */
  const TypeLabels: map<string, string> := map[
    "aws_vpc" := "VPC",
    "aws_subnet" := "Subnet",
    "aws_lb" := "Load Balancer",
    "aws_ecs_service" := "ECS Service",
    "aws_ecs_cluster" := "ECS Cluster",
    "aws_cloudfront_distribution" := "CloudFront",
    "aws_waf_web_acl" := "WAF",
    "aws_wafregional_web_acl" := "Regional WAF"
  ]

  /** The display name of a kind missing from the table: every `aws_` removed,
      every `_` turned into a space, then `str.title`. */
  function FallbackLabel(kind: string): (display: string)
    ensures '_' !in display
    ensures |display| <= |kind|
  {
    var spaced := ReplaceChar(RemoveAll(kind, "aws_"), '_', ' ');
    ReplaceCharRemovesAll(RemoveAll(kind, "aws_"), '_', ' ');
    TitleKeepsUncased(spaced, '_');
    Title(spaced)
  }

  function BaseLabel(kind: string): (base: string)
    ensures kind !in TypeLabels ==> '_' !in base && |base| <= |kind|
  {
    if kind in TypeLabels then TypeLabels[kind] else FallbackLabel(kind)
  }

  /** `"<base label>: <name>"`: the base label, a colon and a space, then the
      resource's name, which can always be read back off the end. */
  function GetResourceLabel(kind: string, name: string): (text: string)
    ensures |text| == |BaseLabel(kind)| + 2 + |name|
    ensures text[..|BaseLabel(kind)|] == BaseLabel(kind)
    ensures text[|BaseLabel(kind)|..|BaseLabel(kind)| + 2] == ": "
    ensures text[|text| - |name|..] == name
  {
    BaseLabel(kind) + ": " + name
  }

  /** For one kind, different names give different labels. */
  lemma LabelDeterminesName(kind: string, name1: string, name2: string)
    ensures GetResourceLabel(kind, name1) == GetResourceLabel(kind, name2) <==> name1 == name2
  {
    var l1, l2 := GetResourceLabel(kind, name1), GetResourceLabel(kind, name2);
    if l1 == l2 {
      assert name1 == l1[|l1| - |name1|..] == l2[|l2| - |name2|..] == name2;
    }
  }

  /** A kind in the table uses its display name, whatever the fallback
      would have produced. */
  lemma TableLabel(kind: string, name: string)
    requires kind in TypeLabels
    ensures GetResourceLabel(kind, name) == TypeLabels[kind] + ": " + name
  {
  }

  lemma LabelExamples()
    ensures GetResourceLabel("aws_vpc", "main") == "VPC: main"
    ensures GetResourceLabel("aws_subnet", "private") == "Subnet: private"
  {
    TableLabel("aws_vpc", "main");
    TableLabel("aws_subnet", "private");
  }

  /** The fallback on a kind with a digit: `"s3 bucket".title()` is
      `"S3 Bucket"`. */
  lemma FallbackLabelExample(kind: string)
    requires kind == "aws_s3_bucket"
    ensures FallbackLabel(kind) == "S3 Bucket"
  {
    RemovedExample(kind);
    var removed := RemoveAll(kind, "aws_");
    SpacedExample(removed);
    TitleExample(ReplaceChar(removed, '_', ' '));
  }

  lemma RemovedExample(kind: string)
    requires kind == "aws_s3_bucket"
    ensures RemoveAll(kind, "aws_") == "s3_bucket"
  {
    var rest := "s3_bucket";
    assert kind == "aws_" + rest;
    RemoveAllLeading("aws_", rest);
    NoOccurrenceWithoutFirstChar(rest, "aws_");
    RemoveAllWithoutOccurrence(rest, "aws_");
  }

  lemma SpacedExample(s: string)
    requires s == "s3_bucket"
    ensures ReplaceChar(s, '_', ' ') == "s3 bucket"
  {
  }

  lemma TitleExample(s: string)
    requires s == "s3 bucket"
    ensures Title(s) == "S3 Bucket"
  {
    var t := Title(s);
    assert t[0] == 'S' && t[1] == '3' && t[2] == ' ' && t[3] == 'B';
    assert t[4] == 'u' && t[5] == 'c' && t[6] == 'k' && t[7] == 'e' && t[8] == 't';
  }

  // ---------------------------------------------------------------------
  // Nodes
  // ---------------------------------------------------------------------

  /** The two synthetic containers every diagram starts with. */
  const RootNodes: seq<Node> := [
    Node("aws-cloud", "AWS Cloud"),
    Node("region", "AWS Region", Some("aws-cloud"))
  ]

  /** A node id: the identifier with every `.` turned into `-`. */
  function NodeId(identifier: string): (id: string)
    ensures |id| == |identifier|
    ensures '.' !in id
  {
    ReplaceCharRemovesAll(identifier, '.', '-');
    ReplaceChar(identifier, '.', '-')
  }

  /** The node `create_diagram_nodes` makes for one resource. */
  function NodeFor(r: ResourceBlock): (n: Node)
    ensures '.' !in n.id && |n.id| == |r.identifier|
    ensures n.parent.Some? <==> r.kind in ContainedKinds
    ensures EndsWith(n.caption, r.name)
    ensures n.identifier == Some(r.identifier)
  {
    Node(NodeId(r.identifier), GetResourceLabel(r.kind, r.name), GetResourceParent(r.kind), Some(r.identifier))
  }

  /** The two roots, then one node per resource, in input order. */
  method CreateDiagramNodes(resources: seq<ResourceBlock>) returns (nodes: seq<Node>)
    ensures |nodes| == 2 + |resources|
    ensures nodes[..2] == RootNodes
    ensures nodes[0].id == "aws-cloud" && nodes[0].parent == None
    ensures nodes[1].id == "region" && nodes[1].parent == Some("aws-cloud")
    ensures forall i :: 0 <= i < |resources| ==> nodes[i + 2] == NodeFor(resources[i])
  {
    nodes := RootNodes;
    for i := 0 to |resources|
      invariant |nodes| == 2 + i
      invariant nodes[0] == RootNodes[0] && nodes[1] == RootNodes[1]
      invariant forall j :: 0 <= j < i ==> nodes[j + 2] == NodeFor(resources[j])
    {
      var resource := resources[i];
      var nodeId := NodeId(resource.identifier);
      var parent := GetResourceParent(resource.kind);
      var caption := GetResourceLabel(resource.kind, resource.name);
      var identifier := resource.identifier;
      var node := Node(nodeId, caption, parent, Some(identifier));
      NodesGrow(resources, nodes, i, node);
      nodes := nodes + [node];
    }
    RootsLead(nodes);
  }

  /** Appending the node of resource `i` keeps the roots in front and the
      node of each earlier resource in place. */
  lemma NodesGrow(resources: seq<ResourceBlock>, nodes: seq<Node>, i: nat, node: Node)
    requires i < |resources| && |nodes| == 2 + i && node == NodeFor(resources[i])
    requires nodes[0] == RootNodes[0] && nodes[1] == RootNodes[1]
    requires forall j :: 0 <= j < i ==> nodes[j + 2] == NodeFor(resources[j])
    ensures var grown := nodes + [node];
            && grown[0] == RootNodes[0] && grown[1] == RootNodes[1]
            && forall j :: 0 <= j < i + 1 ==> grown[j + 2] == NodeFor(resources[j])
  {
  }

  /** A list whose first two nodes are the roots starts with the roots. */
  lemma RootsLead(nodes: seq<Node>)
    requires |nodes| >= 2 && nodes[0] == RootNodes[0] && nodes[1] == RootNodes[1]
    ensures nodes[..2] == RootNodes
    ensures nodes[0].id == "aws-cloud" && nodes[0].parent == None
    ensures nodes[1].id == "region" && nodes[1].parent == Some("aws-cloud")
  {
  }

  /** The node id depends on the identifier alone: renaming a resource
      changes its label, never its id. */
  lemma NodeIdIgnoresName(r: ResourceBlock, name: string)
    ensures NodeFor(r.(name := name)).id == NodeFor(r).id
    ensures NodeFor(r.(name := name)).identifier == NodeFor(r).identifier == Some(r.identifier)
    ensures NodeFor(r.(name := name)).caption == NodeFor(r).caption <==> name == r.name
  {
    LabelDeterminesName(r.kind, name, r.name);
  }

  /** Ids do not collide for identifiers of the form `<kind>.<name>` where the
      kind holds neither `-` nor `.` and the name holds no `.`. */
  lemma {:induction false} NodeIdInjective(kind1: string, name1: string, kind2: string, name2: string)
    requires '-' !in kind1 && '.' !in kind1 && '.' !in name1
    requires '-' !in kind2 && '.' !in kind2 && '.' !in name2
    requires NodeId(kind1 + "." + name1) == NodeId(kind2 + "." + name2)
    ensures kind1 == kind2 && name1 == name2
  {
    NodeIdOfWellFormed(kind1, name1);
    NodeIdOfWellFormed(kind2, name2);
    var id := NodeId(kind1 + "." + name1);
    DashSplitsId(kind1, name1);
    DashSplitsId(kind2, name2);
  }

  lemma NodeIdOfWellFormed(kind: string, name: string)
    requires '.' !in kind && '.' !in name
    ensures NodeId(kind + "." + name) == kind + "-" + name
  {
    var s := kind + "." + name;
    var id := NodeId(s);
    forall i | 0 <= i < |s| ensures id[i] == (kind + "-" + name)[i] {
      if i < |kind| { assert s[i] == kind[i]; }
      else if i > |kind| { assert s[i] == name[i - |kind| - 1]; }
    }
  }

  /** In `kind + "-" + name` with a dash-free kind, the first dash ends the kind. */
  lemma DashSplitsId(kind: string, name: string)
    requires '-' !in kind
    ensures IndexOf(kind + "-" + name, '-') == |kind|
    ensures (kind + "-" + name)[..|kind|] == kind
    ensures (kind + "-" + name)[|kind| + 1..] == name
  {
    var s := kind + "-" + name;
    forall j | 0 <= j < |kind| ensures s[j] != '-' {
      assert s[j] == kind[j];
    }
    IndexOfAt(s, '-', |kind|);
  }

  /** Without those conditions the map from identifiers to ids is not one to
      one. */
  lemma NodeIdCollision()
    ensures NodeId("a.b-c") == NodeId("a-b.c") == "a-b-c"
  {
  }

  // ---------------------------------------------------------------------
  // The node mappings written to YAML
  // ---------------------------------------------------------------------

  function ToScalar(o: Option<string>): Scalar {
    if o.Some? then Str(o.value) else Null
  }

  /** Python truthiness of `node.parent`: set and not the empty string. */
  predicate HasParent(n: Node) {
    n.parent.Some? && n.parent.value != ""
  }

  /** `if node.parent:` is the same test of truthiness the reader applies to
      a loaded value: an unset parent is written as `null` and an empty one
      as `""`, and both are falsy. */
  lemma ParentTruthiness(n: Node)
    ensures HasParent(n) <==> Truthy(Some(ToScalar(n.parent)))
  {
  }

  /** Of the two roots, only the region has a parent to write. */
  lemma RootParents()
    ensures !HasParent(RootNodes[0]) && HasParent(RootNodes[1])
  {
  }

  /** The mapping written for one node: `id`, `identifier` and `label` always,
      in that order, then `parent` exactly when the parent is truthy. */
  function NodeDict(n: Node): (d: Dict)
    ensures Keys(d) == ["id", "identifier", "label"] + (if HasParent(n) then ["parent"] else [])
    ensures Lookup(d, "id") == Some(Str(n.id))
    ensures Lookup(d, "identifier") == Some(ToScalar(n.identifier))
    ensures Lookup(d, "label") == Some(Str(n.caption))
    ensures Lookup(d, "parent") == if HasParent(n) then Some(Str(n.parent.value)) else None
  {
    [("id", Str(n.id)), ("identifier", ToScalar(n.identifier)), ("label", Str(n.caption))]
      + (if HasParent(n) then [("parent", Str(n.parent.value))] else [])
  }

  /** A written node mapping repeats no key, so reading it back agrees with
      the dict `write_diagram_yaml` built. */
  lemma NodeDictKeysDistinct(n: Node)
    ensures DistinctKeys(NodeDict(n))
  {
    var d := NodeDict(n);
    forall i, j | 0 <= i < j < |d|
      ensures d[i].0 != d[j].0
    {
      assert Keys(d)[i] == d[i].0 && Keys(d)[j] == d[j].0;
    }
  }

  /** The document `write_diagram_yaml` dumps: a single `nodes` key holding one
      mapping per node, in node order. Writing it to the file is left out. */
  method WriteDiagramYaml(nodes: seq<Node>) returns (content: Document)
    ensures content.Keys == {"nodes"}
    ensures |content["nodes"]| == |nodes|
    ensures forall i :: 0 <= i < |nodes| ==> content["nodes"][i] == NodeDict(nodes[i])
  {
    var nodeDicts: seq<Dict> := [];
    for i := 0 to |nodes|
      invariant |nodeDicts| == i
      invariant forall j :: 0 <= j < i ==> nodeDicts[j] == NodeDict(nodes[j])
    {
      var node := nodes[i];
      var nodeDict: Dict := [("id", Str(node.id)), ("identifier", ToScalar(node.identifier)), ("label", Str(node.caption))];
      if node.parent.Some? && node.parent.value != "" {
        nodeDict := nodeDict + [("parent", Str(node.parent.value))];
      }
      nodeDicts := nodeDicts + [nodeDict];
    }
    content := map["nodes" := nodeDicts];
  }

  /** The two roots as written: the top container has no `parent` key and a
      null identifier; the region names the top container as its parent. */
  lemma RootDicts()
    ensures NodeDict(RootNodes[0]) == [("id", Str("aws-cloud")), ("identifier", Null), ("label", Str("AWS Cloud"))]
    ensures Lookup(NodeDict(RootNodes[1]), "parent") == Some(Str("aws-cloud"))
  {
  }
}
