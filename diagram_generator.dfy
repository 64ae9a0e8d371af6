/** From a loaded diagram file to icons and connectors (diagram_generator.py).
    The `diagrams` rendering library is replaced by icon tags: creating a
    node records a `DiagramNode`, and `source >> target` records a
    `Connector`. */
module DiagramGenerator {

  import opened Wrappers
  import opened Models
  import opened Strings
  import opened YamlDoc

  // ---------------------------------------------------------------------
  // Icon classes and their lookup
  // ---------------------------------------------------------------------

  /** The icon classes the table refers to. */
  datatype Icon = VPC | PublicSubnet | InternetGateway | RouteTable | Nacl | IAMRole | ECS

  /** `RESOURCE_TO_NODE`, in declaration order (a Python dict keeps it). */
  const ResourceToNode: seq<(string, Icon)> := [
    ("aws_vpc", VPC),
    ("aws_subnet", PublicSubnet),
    ("aws_internet_gateway", InternetGateway),
    ("aws_route_table", RouteTable),
    ("aws_security_group", Nacl),
    ("aws_iam_role", IAMRole),
    ("aws_ecs_cluster", ECS),
    ("aws_ecs_service", ECS),
    ("aws_ecs_task_definition", ECS)
  ]

  /** `kind in RESOURCE_TO_NODE`. */
  predicate InTable(kind: string) {
    exists i :: 0 <= i < |ResourceToNode| && ResourceToNode[i].0 == kind
  }

  /** `kind in RESOURCE_TO_NODE` holds exactly when the direct lookup finds
      an entry. */
  lemma InTableDirect(kind: string)
    ensures InTable(kind) <==> Direct(ResourceToNode, kind).Some?
  {
    if InTable(kind) {
      var i :| 0 <= i < |ResourceToNode| && ResourceToNode[i].0 == kind;
      assert ResourceToNode[i].0 == kind;
    }
    if Direct(ResourceToNode, kind).Some? {
      var i :| 0 <= i < |ResourceToNode| && ResourceToNode[i] == (kind, Direct(ResourceToNode, kind).value);
      assert ResourceToNode[i].0 == kind;
    }
  }

  /** The icon stored under `kind`, found by its first (and, in a dict,
      only) entry. */
  function Direct(table: seq<(string, Icon)>, kind: string): (r: Option<Icon>)
    ensures r.None? <==> forall i :: 0 <= i < |table| ==> table[i].0 != kind
    ensures r.Some? ==> exists i :: 0 <= i < |table| && table[i] == (kind, r.value)
  {
    if table == [] then None
    else if table[0].0 == kind then Some(table[0].1)
    else Direct(table[1..], kind)
  }

  /** The position of the first entry at or after `k` whose key ends with
      `base`, or `|table|` when no key does. */
  function FirstEndingFrom(table: seq<(string, Icon)>, base: string, k: nat): (i: nat)
    requires k <= |table|
    ensures k <= i <= |table|
    ensures forall j :: k <= j < i ==> !EndsWith(table[j].0, base)
    ensures i < |table| ==> EndsWith(table[i].0, base)
    decreases |table| - k
  {
    if k == |table| || EndsWith(table[k].0, base) then k else FirstEndingFrom(table, base, k + 1)
  }

  /** The icon of the first entry, in table order, whose key ends with `base`;
      None when no key does. */
  function FirstEndingWith(table: seq<(string, Icon)>, base: string): (r: Option<Icon>)
    ensures r.None? <==> forall i :: 0 <= i < |table| ==> !EndsWith(table[i].0, base)
    ensures r.Some? ==> exists i :: 0 <= i < |table| && EndsWith(table[i].0, base) && table[i].1 == r.value
                                  && forall j :: 0 <= j < i ==> !EndsWith(table[j].0, base)
  {
    var i := FirstEndingFrom(table, base, 0);
    if i < |table| then Some(table[i].1) else None
  }

  /** The entry at `i` is the first match when its key ends with `base` and
      no earlier key does. */
  lemma FirstEndingAt(table: seq<(string, Icon)>, base: string, i: nat)
    requires i < |table| && EndsWith(table[i].0, base)
    requires forall j :: 0 <= j < i ==> !EndsWith(table[j].0, base)
    ensures FirstEndingWith(table, base) == Some(table[i].1)
  {
    assert FirstEndingFrom(table, base, 0) == i;
  }

  /** `resource_type.split("_")[1]`: the second `_`-separated segment. */
  function BaseType(kind: string): (base: string)
    requires '_' in kind
    ensures '_' !in base
  {
    SplitPartsLackSeparator(kind, '_');
    Split(kind, '_')[1]
  }

  /** What `get_node_class` returns. A kind outside the table with no `_`
      makes `split("_")[1]` raise IndexError, hence the precondition. */
  function NodeClass(kind: string): (r: Option<Icon>)
    requires InTable(kind) || '_' in kind
    ensures InTable(kind) ==> r.Some?
  {
    var direct := Direct(ResourceToNode, kind);
    if direct.Some? then direct else FirstEndingWith(ResourceToNode, BaseType(kind))
  }

  /** The direct lookup, then the first table key ending with the base type. */
  method GetNodeClass(kind: string) returns (r: Option<Icon>)
    requires InTable(kind) || '_' in kind
    ensures r == NodeClass(kind)
  {
    r := Direct(ResourceToNode, kind);
    if r.Some? {
      return;
    }
    var baseType := Split(kind, '_')[1];
    var i := 0;
    while i < |ResourceToNode|
      invariant 0 <= i <= |ResourceToNode|
      invariant forall j :: 0 <= j < i ==> !EndsWith(ResourceToNode[j].0, baseType)
    {
      if EndsWith(ResourceToNode[i].0, baseType) {
        FirstEndingAt(ResourceToNode, baseType, i);
        return Some(ResourceToNode[i].1);
      }
      i := i + 1;
    }
    return None;
  }

  /** The keys of the table are distinct, as those of a dict are. */
  lemma TableKeysDistinct()
    ensures forall i, j :: 0 <= i < j < |ResourceToNode| ==> ResourceToNode[i].0 != ResourceToNode[j].0
  {
    forall i, j | 0 <= i < j < |ResourceToNode| ensures ResourceToNode[i].0 != ResourceToNode[j].0 {
      var a, b := ResourceToNode[i].0, ResourceToNode[j].0;
      assert |a| != |b| || a[4] != b[4] || a[8] != b[8];
    }
  }

  /** The direct lookup of a key no earlier entry has finds that key's entry. */
  lemma {:induction false} DirectFindsEntry(table: seq<(string, Icon)>, i: nat)
    requires i < |table|
    requires forall j :: 0 <= j < i ==> table[j].0 != table[i].0
    ensures Direct(table, table[i].0) == Some(table[i].1)
    decreases i
  {
    if i > 0 {
      assert table[i] == table[1..][i - 1];
      DirectFindsEntry(table[1..], i - 1);
    }
  }

  /** A table kind gets its own entry; the suffix search is never consulted. */
  lemma DirectEntryWins(i: nat)
    requires i < |ResourceToNode|
    ensures NodeClass(ResourceToNode[i].0) == Some(ResourceToNode[i].1)
  {
    TableKeysDistinct();
    DirectFindsEntry(ResourceToNode, i);
  }

  /** A kind outside the table gets the icon of the first key, in table order,
      that ends with its base type, and None when no key does. */
  lemma FallbackIsFirstSuffixMatch(kind: string)
    requires !InTable(kind) && '_' in kind
    ensures NodeClass(kind).None? <==> forall i :: 0 <= i < |ResourceToNode| ==> !EndsWith(ResourceToNode[i].0, BaseType(kind))
    ensures NodeClass(kind).Some? ==>
              exists i :: 0 <= i < |ResourceToNode| && EndsWith(ResourceToNode[i].0, BaseType(kind))
                          && ResourceToNode[i].1 == NodeClass(kind).value
                          && forall j :: 0 <= j < i ==> !EndsWith(ResourceToNode[j].0, BaseType(kind))
  {
  }

  lemma UnknownKindHasNoIcon(kind: string)
    requires kind == "aws_unknown_resource"
    ensures NodeClass(kind) == None
  {
    SplitUnknown(kind);
    NotInTableUnknown(kind);
    NoKeyEndsWithUnknown();
  }

  lemma NoKeyEndsWithUnknown()
    ensures forall i :: 0 <= i < |ResourceToNode| ==> !EndsWith(ResourceToNode[i].0, "unknown")
  {
    forall i | 0 <= i < |ResourceToNode| ensures !EndsWith(ResourceToNode[i].0, "unknown") {
      var key := ResourceToNode[i].0;
      assert key[|key| - 2] != 'w';
    }
  }

  lemma NotInTableUnknown(kind: string)
    requires kind == "aws_unknown_resource"
    ensures !InTable(kind)
  {
    forall i | 0 <= i < |ResourceToNode| ensures ResourceToNode[i].0 != kind {
      var key := ResourceToNode[i].0;
      assert key[|key| - 1] != kind[|kind| - 1] || |key| != |kind|;
    }
  }

  lemma SplitUnknown(kind: string)
    requires kind == "aws_unknown_resource"
    ensures '_' in kind && BaseType(kind) == "unknown"
  {
    UnknownChars(kind);
    SecondSegment(kind, '_', 3, 11);
  }

  lemma UnknownChars(kind: string)
    requires kind == "aws_unknown_resource"
    ensures 11 < |kind| && kind[3] == '_' && kind[11] == '_'
    ensures forall k :: 0 <= k < 11 && k != 3 ==> kind[k] != '_'
    ensures kind[4..11] == "unknown"
  {
  }

  /** A kind whose second segment is empty (`"aws_"`) matches every key, so it
      gets the first entry's icon. */
  lemma EmptyBaseTypeMatchesFirstKey(kind: string)
    requires kind == "aws_"
    ensures NodeClass(kind) == Some(VPC)
  {
    assert kind[3] == '_';
    IndexOfAt(kind, '_', 3);
    assert kind[4..] == "";
    assert BaseType(kind) == "";
    assert EndsWith("aws_vpc", "");
  }

  // ---------------------------------------------------------------------
  // Loading the diagram file
  // ---------------------------------------------------------------------

  /** `ValueError("Empty diagram file")`. */
  datatype LoadError = EmptyDiagramFile

  /** `_load_diagram` after `yaml.safe_load`: an empty file (None) or an empty
      mapping is an error; a missing `nodes` or `edges` key reads as an empty
      list. */
  function LoadDiagram(data: Option<Document>): (r: Result<(seq<Dict>, seq<Dict>), LoadError>)
    ensures r.Failure? <==> data == None || data.value == map[]
    ensures r.Success? ==> r.value.0 == (if "nodes" in data.value then data.value["nodes"] else [])
    ensures r.Success? ==> r.value.1 == (if "edges" in data.value then data.value["edges"] else [])
  {
    if data.None? || data.value == map[] then Failure(EmptyDiagramFile)
    else
      var doc := data.value;
      Success((if "nodes" in doc then doc["nodes"] else [], if "edges" in doc then doc["edges"] else []))
  }

  // ---------------------------------------------------------------------
  // What one node entry does
  // ---------------------------------------------------------------------

  /** The exceptions `generate` can raise on a malformed document. */
  datatype GenerateError = KeyError(key: string) | IndexError(kind: string)

  /** A node created by `node_class(node_data["label"])`. */
  datatype DiagramNode = DiagramNode(icon: Icon, caption: Scalar)

  /** A connector drawn by `source_node >> target_node`. */
  datatype Connector = Connector(from: DiagramNode, to: DiagramNode)

  /** The effect of `_create_node` on one entry: nothing; an exception,
      possibly after the node was already drawn (`orphan`); or a node drawn
      and registered under `id`. */
  datatype Creation =
    | NotCreated
    | Raised(error: GenerateError, orphan: Option<DiagramNode>)
    | Created(id: Scalar, node: DiagramNode)

  /** `identifier.split(".")[0]`: the dot-free text that starts the
      identifier. */
  function KindOf(identifier: string): (kind: string)
    ensures |kind| <= |identifier| && kind == identifier[..|kind|]
    ensures '.' !in kind
    ensures |kind| == |identifier| || identifier[|kind|] == '.'
  {
    SplitPartsLackSeparator(identifier, '.');
    Split(identifier, '.')[0]
  }

  /** The kind is the whole text before the first `.`. */
  lemma KindUpToFirstDot(identifier: string, i: nat)
    requires i < |identifier| && identifier[i] == '.' && '.' !in identifier[..i]
    ensures KindOf(identifier) == identifier[..i]
  {
  }

  /** `"aws_vpc.main".split(".")[0]` is `aws_vpc`. */
  lemma KindOfExample()
    ensures KindOf("aws_vpc.main") == "aws_vpc"
  {
    var id := "aws_vpc.main";
    assert id[..7] == "aws_vpc";
    KindUpToFirstDot(id, 7);
  }

  /** `_create_node` on one entry. Only a truthy identifier can lead to a
      node or an exception; a node left drawn but unregistered is always due
      to a missing `id`; a registered node carries the entry's `id` and
      `label`. */
  function CreateNodeOutcome(entry: Dict): (c: Creation)
    ensures !c.NotCreated? ==> Truthy(Lookup(entry, "identifier"))
    ensures c.Raised? ==> c.error.IndexError? || c.error == KeyError("label") || c.error == KeyError("id")
    ensures c.Raised? && c.orphan.Some? ==> c.error == KeyError("id")
    ensures c.Created? ==> Lookup(entry, "id") == Some(c.id) && Lookup(entry, "label") == Some(c.node.caption)
  {
    var identifier := Lookup(entry, "identifier");
    if !Truthy(identifier) then NotCreated
    else
      var kind := KindOf(identifier.value.text);
      if !(InTable(kind) || '_' in kind) then Raised(IndexError(kind), None)
      else match NodeClass(kind)
        case None => NotCreated
        case Some(icon) =>
          var caption := Lookup(entry, "label");
          if caption.None? then Raised(KeyError("label"), None)
          else
            var node := DiagramNode(icon, caption.value);
            var id := Lookup(entry, "id");
            if id.None? then Raised(KeyError("id"), Some(node)) else Created(id.value, node)
  }

  /** An entry with a missing, null or empty identifier draws and registers
      nothing. */
  lemma NoIdentifierNoNode(entry: Dict)
    requires !Truthy(Lookup(entry, "identifier"))
    ensures CreateNodeOutcome(entry) == NotCreated
  {
  }

  /** An entry is registered exactly when its identifier is a non-empty string
      whose kind resolves to an icon and it has `label` and `id` keys; it is
      registered under its `id` with an icon for the text before the first
      `.`. */
  lemma RegistrationCondition(entry: Dict)
    ensures CreateNodeOutcome(entry).Created? <==>
              var ident := Lookup(entry, "identifier");
              && Truthy(ident)
              && (InTable(KindOf(ident.value.text)) || '_' in KindOf(ident.value.text))
              && NodeClass(KindOf(ident.value.text)).Some?
              && Lookup(entry, "label").Some? && Lookup(entry, "id").Some?
    ensures CreateNodeOutcome(entry).Created? ==>
              && CreateNodeOutcome(entry).id == Lookup(entry, "id").value
              && CreateNodeOutcome(entry).node.caption == Lookup(entry, "label").value
              && Some(CreateNodeOutcome(entry).node.icon) == NodeClass(KindOf(Lookup(entry, "identifier").value.text))
  {
  }

  // ---------------------------------------------------------------------
  // The two passes of `generate`
  // ---------------------------------------------------------------------

  /** Everything `generate` changes: the registration map (`self.nodes`) and
      what the rendering library receives (nodes, connectors, warnings). */
  datatype Canvas = Canvas(
    nodes: map<Scalar, DiagramNode>,
    created: seq<DiagramNode>,
    connectors: seq<Connector>,
    warnings: seq<(Scalar, Scalar)>)

  /** A pass ends with the state reached and the exception raised, if any. */
  datatype Run = Run(canvas: Canvas, error: Option<GenerateError>)

  function ApplyCreation(cv: Canvas, c: Creation): Canvas {
    match c
    case NotCreated => cv
    case Raised(_, orphan) => if orphan.Some? then cv.(created := cv.created + [orphan.value]) else cv
    case Created(id, node) => cv.(nodes := cv.nodes[id := node], created := cv.created + [node])
  }

  /** The first pass: `_create_node` on each entry from `from` on, in order,
      stopping at the first exception. Connectors and warnings are
      untouched. */
  function RegisterAll(cv: Canvas, entries: seq<Dict>, from: nat): (run: Run)
    requires from <= |entries|
    ensures run.canvas.connectors == cv.connectors && run.canvas.warnings == cv.warnings
    ensures cv.nodes.Keys <= run.canvas.nodes.Keys
    decreases |entries| - from
  {
    if from == |entries| then Run(cv, None)
    else
      var c := CreateNodeOutcome(entries[from]);
      if c.Raised? then Run(ApplyCreation(cv, c), Some(c.error))
      else RegisterAll(ApplyCreation(cv, c), entries, from + 1)
  }

  /** What one edge entry does, given the registration map. */
  datatype EdgeFate = Drawn(connector: Connector) | Warned(source: Scalar, target: Scalar) | EdgeRaised(error: GenerateError)

  /** Edge `entry` is drawn as connector `c`: it has both ids, both are
      registered, and `c` joins their nodes. */
  predicate DrawnFrom(nodes: map<Scalar, DiagramNode>, entry: Dict, c: Connector) {
    var source := Lookup(entry, "source");
    var target := Lookup(entry, "target");
    && source.Some? && target.Some?
    && source.value in nodes && target.value in nodes
    && c == Connector(nodes[source.value], nodes[target.value])
  }

  /** Edge `entry` is reported as warning `w`: it has both ids, one of them
      is not registered, and `w` names both. */
  predicate WarnedFrom(nodes: map<Scalar, DiagramNode>, entry: Dict, w: (Scalar, Scalar)) {
    var source := Lookup(entry, "source");
    var target := Lookup(entry, "target");
    && source.Some? && target.Some?
    && !(source.value in nodes && target.value in nodes)
    && w == (source.value, target.value)
  }

  /** What one edge entry does: KeyError exactly when an id is missing, a
      connector when both ids are registered, a warning otherwise. */
  function EdgeOutcome(nodes: map<Scalar, DiagramNode>, entry: Dict): (f: EdgeFate)
    ensures f.EdgeRaised? <==> Lookup(entry, "source").None? || Lookup(entry, "target").None?
    ensures f.Drawn? ==> DrawnFrom(nodes, entry, f.connector)
    ensures f.Warned? ==> WarnedFrom(nodes, entry, (f.source, f.target))
  {
    var source := Lookup(entry, "source");
    if source.None? then EdgeRaised(KeyError("source"))
    else
      var target := Lookup(entry, "target");
      if target.None? then EdgeRaised(KeyError("target"))
      else if source.value in nodes && target.value in nodes then
        Drawn(Connector(nodes[source.value], nodes[target.value]))
      else Warned(source.value, target.value)
  }

  /** The second pass: one connector or one warning per edge from `from` on,
      in order, stopping at the first exception. The registration map and
      the drawn nodes are untouched. */
  function DrawAll(cv: Canvas, entries: seq<Dict>, from: nat): (run: Run)
    requires from <= |entries|
    ensures run.canvas.nodes == cv.nodes && run.canvas.created == cv.created
    decreases |entries| - from
  {
    if from == |entries| then Run(cv, None)
    else
      match EdgeOutcome(cv.nodes, entries[from])
      case EdgeRaised(e) => Run(cv, Some(e))
      case Drawn(k) => DrawAll(cv.(connectors := cv.connectors + [k]), entries, from + 1)
      case Warned(s, t) => DrawAll(cv.(warnings := cv.warnings + [(s, t)]), entries, from + 1)
  }

  /** All nodes first, then all edges against the final registration map. */
  function GenerateRun(cv: Canvas, yamlNodes: seq<Dict>, yamlEdges: seq<Dict>): (run: Run)
    ensures run.canvas.nodes == RegisterAll(cv, yamlNodes, 0).canvas.nodes
    ensures run.canvas.created == RegisterAll(cv, yamlNodes, 0).canvas.created
  {
    var first := RegisterAll(cv, yamlNodes, 0);
    if first.error.Some? then first else DrawAll(first.canvas, yamlEdges, 0)
  }

  /** An exception in the node pass ends `generate` there: no edge is looked
      at, and the result is what the node pass left. */
  lemma NodeErrorSkipsEdges(cv: Canvas, yamlNodes: seq<Dict>, yamlEdges: seq<Dict>)
    requires RegisterAll(cv, yamlNodes, 0).error.Some?
    ensures GenerateRun(cv, yamlNodes, yamlEdges) == RegisterAll(cv, yamlNodes, 0)
    ensures GenerateRun(cv, yamlNodes, yamlEdges).canvas.connectors == cv.connectors
  {
  }

  /** Entry `entry` registers a node under `k`. */
  predicate Registers(entry: Dict, k: Scalar) {
    CreateNodeOutcome(entry).Created? && CreateNodeOutcome(entry).id == k
  }

  /** The node pass raises exactly when some entry raises. */
  lemma {:induction false} RegisterAllFails(cv: Canvas, entries: seq<Dict>, from: nat)
    requires from <= |entries|
    ensures RegisterAll(cv, entries, from).error.Some? <==>
              exists i :: from <= i < |entries| && CreateNodeOutcome(entries[i]).Raised?
    decreases |entries| - from
  {
    if from < |entries| {
      var c := CreateNodeOutcome(entries[from]);
      if !c.Raised? {
        RegisterAllFails(ApplyCreation(cv, c), entries, from + 1);
        if i :| from <= i < |entries| && CreateNodeOutcome(entries[i]).Raised? {
          assert i != from;
        }
      }
    }
  }

  /** After a node pass without exception, an id is registered exactly when
      it was before or some entry registers under it. */
  lemma {:induction false} RegisteredIds(cv: Canvas, entries: seq<Dict>, from: nat, k: Scalar)
    requires from <= |entries| && RegisterAll(cv, entries, from).error.None?
    ensures k in RegisterAll(cv, entries, from).canvas.nodes <==>
              k in cv.nodes || exists i :: from <= i < |entries| && Registers(entries[i], k)
    decreases |entries| - from
  {
    if from < |entries| {
      var c := CreateNodeOutcome(entries[from]);
      RegisterStep(cv, entries[from], k);
      RegisteredIds(ApplyCreation(cv, c), entries, from + 1, k);
      if Registers(entries[from], k) {
        assert from <= from < |entries| && Registers(entries[from], k);
      }
      if i :| from + 1 <= i < |entries| && Registers(entries[i], k) {
        assert from <= i < |entries| && Registers(entries[i], k);
      }
    }
  }

  /** One entry that does not raise adds at most the id it registers. */
  lemma RegisterStep(cv: Canvas, entry: Dict, k: Scalar)
    requires !CreateNodeOutcome(entry).Raised?
    ensures k in ApplyCreation(cv, CreateNodeOutcome(entry)).nodes <==> k in cv.nodes || Registers(entry, k)
  {
  }

  /** The nodes one `_create_node` call hands to the rendering library:
      its node when it registers one, the node drawn before a missing `id`
      stopped it, or nothing. */
  function DrawnBy(c: Creation): (drawn: seq<DiagramNode>)
    ensures |drawn| <= 1
    ensures c.NotCreated? ==> drawn == []
  {
    match c
    case NotCreated => []
    case Raised(_, orphan) => if orphan.Some? then [orphan.value] else []
    case Created(_, node) => [node]
  }

  /** What the node pass hands to the rendering library, in order: what each
      entry draws, up to and including the first entry that raises. */
  function NodesDrawn(entries: seq<Dict>, from: nat): (drawn: seq<DiagramNode>)
    requires from <= |entries|
    ensures |drawn| <= |entries| - from
    decreases |entries| - from
  {
    if from == |entries| then []
    else
      var c := CreateNodeOutcome(entries[from]);
      if c.Raised? then DrawnBy(c) else DrawnBy(c) + NodesDrawn(entries, from + 1)
  }

  /** The node pass appends exactly `NodesDrawn` to what was drawn before. */
  lemma {:induction false} NodePassDraws(cv: Canvas, entries: seq<Dict>, from: nat)
    requires from <= |entries|
    ensures RegisterAll(cv, entries, from).canvas.created == cv.created + NodesDrawn(entries, from)
    decreases |entries| - from
  {
    if from == |entries| {
      assert cv.created + [] == cv.created;
    } else {
      var c := CreateNodeOutcome(entries[from]);
      CreationDraws(cv, c);
      if !c.Raised? {
        NodePassDraws(ApplyCreation(cv, c), entries, from + 1);
        Regrouped(cv.created, DrawnBy(c), NodesDrawn(entries, from + 1));
      }
    }
  }

  /** One `_create_node` call touches only the registration map and the
      drawn nodes: it stores its node under its id when it registers one,
      and otherwise leaves the map as it was. */
  lemma CreationEffect(cv: Canvas, c: Creation)
    ensures ApplyCreation(cv, c).connectors == cv.connectors
    ensures ApplyCreation(cv, c).warnings == cv.warnings
    ensures c.Created? ==> ApplyCreation(cv, c).nodes == cv.nodes[c.id := c.node]
    ensures !c.Created? ==> ApplyCreation(cv, c).nodes == cv.nodes
  {
  }

  lemma CreationDraws(cv: Canvas, c: Creation)
    ensures ApplyCreation(cv, c).created == cv.created + DrawnBy(c)
  {
  }

  lemma Regrouped(a: seq<DiagramNode>, b: seq<DiagramNode>, c: seq<DiagramNode>)
    ensures a + b + c == a + (b + c)
  {
  }

  /** Registration overwrites: the node kept under an id is the one of the
      last entry registering under it. */
  lemma {:induction false} LastRegistrationWins(cv: Canvas, entries: seq<Dict>, from: nat, i: nat)
    requires from <= i < |entries| && RegisterAll(cv, entries, from).error.None?
    requires CreateNodeOutcome(entries[i]).Created?
    requires forall j :: i < j < |entries| ==> !Registers(entries[j], CreateNodeOutcome(entries[i]).id)
    ensures CreateNodeOutcome(entries[i]).id in RegisterAll(cv, entries, from).canvas.nodes
    ensures RegisterAll(cv, entries, from).canvas.nodes[CreateNodeOutcome(entries[i]).id] == CreateNodeOutcome(entries[i]).node
    decreases i - from
  {
    var c := CreateNodeOutcome(entries[from]);
    if i == from {
      KeptWhenNotRegisteredAgain(ApplyCreation(cv, c), entries, from + 1, c.id);
    } else {
      LastRegistrationWins(ApplyCreation(cv, c), entries, from + 1, i);
    }
  }

  /** An id no entry registers under keeps the node it had. */
  lemma {:induction false} KeptWhenNotRegisteredAgain(cv: Canvas, entries: seq<Dict>, from: nat, k: Scalar)
    requires from <= |entries| && RegisterAll(cv, entries, from).error.None?
    requires k in cv.nodes
    requires forall j :: from <= j < |entries| ==> !Registers(entries[j], k)
    ensures k in RegisterAll(cv, entries, from).canvas.nodes
    ensures RegisterAll(cv, entries, from).canvas.nodes[k] == cv.nodes[k]
    decreases |entries| - from
  {
    if from < |entries| {
      assert !Registers(entries[from], k);
      KeptWhenNotRegisteredAgain(ApplyCreation(cv, CreateNodeOutcome(entries[from])), entries, from + 1, k);
    }
  }

  /** The edge pass raises exactly when some edge lacks `source` or
      `target`. */
  lemma {:induction false} DrawAllFails(cv: Canvas, entries: seq<Dict>, from: nat)
    requires from <= |entries|
    ensures DrawAll(cv, entries, from).error.Some? <==>
              exists i :: from <= i < |entries| && (Lookup(entries[i], "source").None? || Lookup(entries[i], "target").None?)
    decreases |entries| - from
  {
    if from < |entries| {
      match EdgeOutcome(cv.nodes, entries[from])
      case EdgeRaised(e) =>
        assert Lookup(entries[from], "source").None? || Lookup(entries[from], "target").None?;
      case Drawn(k) =>
        DrawAllFails(cv.(connectors := cv.connectors + [k]), entries, from + 1);
        if i :| from <= i < |entries| && (Lookup(entries[i], "source").None? || Lookup(entries[i], "target").None?) {
          assert i != from;
        }
      case Warned(s, t) =>
        DrawAllFails(cv.(warnings := cv.warnings + [(s, t)]), entries, from + 1);
        if i :| from <= i < |entries| && (Lookup(entries[i], "source").None? || Lookup(entries[i], "target").None?) {
          assert i != from;
        }
    }
  }

  /** After an edge pass without exception there is one connector or one
      warning per edge, after the earlier ones. */
  lemma {:induction false} OneTracePerEdge(cv: Canvas, entries: seq<Dict>, from: nat)
    requires from <= |entries| && DrawAll(cv, entries, from).error.None?
    ensures var out := DrawAll(cv, entries, from).canvas;
            && |out.connectors| + |out.warnings| == |cv.connectors| + |cv.warnings| + |entries| - from
            && cv.connectors <= out.connectors && cv.warnings <= out.warnings
    decreases |entries| - from
  {
    if from < |entries| {
      match EdgeOutcome(cv.nodes, entries[from])
      case Drawn(k) => OneTracePerEdge(cv.(connectors := cv.connectors + [k]), entries, from + 1);
      case Warned(s, t) => OneTracePerEdge(cv.(warnings := cv.warnings + [(s, t)]), entries, from + 1);
    }
  }

  /** After an edge pass without exception, edge `i` was drawn as a connector
      between the two registered nodes when both its ids are registered, and
      reported as a warning naming both ids otherwise. */
  lemma {:induction false} EdgeTrace(cv: Canvas, entries: seq<Dict>, from: nat, i: nat)
    requires from <= i < |entries| && DrawAll(cv, entries, from).error.None?
    ensures Lookup(entries[i], "source").Some? && Lookup(entries[i], "target").Some?
    ensures var s := Lookup(entries[i], "source").value;
            var t := Lookup(entries[i], "target").value;
            if s in cv.nodes && t in cv.nodes
            then Connector(cv.nodes[s], cv.nodes[t]) in DrawAll(cv, entries, from).canvas.connectors
            else (s, t) in DrawAll(cv, entries, from).canvas.warnings
    decreases i - from
  {
    match EdgeOutcome(cv.nodes, entries[from])
    case Drawn(k) =>
      var next := cv.(connectors := cv.connectors + [k]);
      if i == from {
        OneTracePerEdge(next, entries, from + 1);
        assert k in next.connectors;
      } else {
        EdgeTrace(next, entries, from + 1, i);
      }
    case Warned(s, t) =>
      var next := cv.(warnings := cv.warnings + [(s, t)]);
      if i == from {
        OneTracePerEdge(next, entries, from + 1);
        assert (s, t) in next.warnings;
      } else {
        EdgeTrace(next, entries, from + 1, i);
      }
  }

  /** Every connector after an edge pass was either there before or drawn
      for some edge entry of the pass whose two ids are registered. */
  lemma {:induction false} ConnectorsSound(cv: Canvas, entries: seq<Dict>, from: nat, c: Connector)
    requires from <= |entries| && c in DrawAll(cv, entries, from).canvas.connectors
    ensures c in cv.connectors || exists i :: from <= i < |entries| && DrawnFrom(cv.nodes, entries[i], c)
    decreases |entries| - from
  {
    if from < |entries| {
      match EdgeOutcome(cv.nodes, entries[from])
      case EdgeRaised(_) =>
      case Drawn(k) =>
        var next := cv.(connectors := cv.connectors + [k]);
        ConnectorsSound(next, entries, from + 1, c);
        if c in next.connectors {
          if c !in cv.connectors {
            assert c == k;
            assert DrawnFrom(cv.nodes, entries[from], c);
          }
        } else {
          var i :| from + 1 <= i < |entries| && DrawnFrom(next.nodes, entries[i], c);
          assert DrawnFrom(cv.nodes, entries[i], c);
        }
      case Warned(s, t) =>
        ConnectorsSound(cv.(warnings := cv.warnings + [(s, t)]), entries, from + 1, c);
    }
  }

  /** Every warning after an edge pass was either there before or reported
      for some edge entry of the pass with an unregistered id. */
  lemma {:induction false} WarningsSound(cv: Canvas, entries: seq<Dict>, from: nat, w: (Scalar, Scalar))
    requires from <= |entries| && w in DrawAll(cv, entries, from).canvas.warnings
    ensures w in cv.warnings || exists i :: from <= i < |entries| && WarnedFrom(cv.nodes, entries[i], w)
    decreases |entries| - from
  {
    if from < |entries| {
      match EdgeOutcome(cv.nodes, entries[from])
      case EdgeRaised(_) =>
      case Drawn(k) =>
        WarningsSound(cv.(connectors := cv.connectors + [k]), entries, from + 1, w);
      case Warned(s, t) =>
        var next := cv.(warnings := cv.warnings + [(s, t)]);
        WarningsSound(next, entries, from + 1, w);
        if w in next.warnings {
          if w !in cv.warnings {
            assert w == (s, t);
            assert WarnedFrom(cv.nodes, entries[from], w);
          }
        } else {
          var i :| from + 1 <= i < |entries| && WarnedFrom(next.nodes, entries[i], w);
          assert WarnedFrom(cv.nodes, entries[i], w);
        }
    }
  }

  /** All nodes come before any edge: when `generate` raises nothing, edge `i`
      is checked against the registration map left by the whole node pass;
      it is drawn when both its ids are registered there and reported
      otherwise, and no connector or warning appears except for such an
      edge. */
  lemma EdgesSeeEveryNode(cv: Canvas, yamlNodes: seq<Dict>, yamlEdges: seq<Dict>, i: nat)
    requires GenerateRun(cv, yamlNodes, yamlEdges).error.None?
    requires i < |yamlEdges|
    ensures GenerateRun(cv, yamlNodes, yamlEdges).canvas.nodes == RegisterAll(cv, yamlNodes, 0).canvas.nodes
    ensures Lookup(yamlEdges[i], "source").Some? && Lookup(yamlEdges[i], "target").Some?
    ensures var registered := RegisterAll(cv, yamlNodes, 0).canvas.nodes;
            var out := GenerateRun(cv, yamlNodes, yamlEdges).canvas;
            var s := Lookup(yamlEdges[i], "source").value;
            var t := Lookup(yamlEdges[i], "target").value;
            if s in registered && t in registered
            then Connector(registered[s], registered[t]) in out.connectors
            else (s, t) in out.warnings
    ensures var registered := RegisterAll(cv, yamlNodes, 0).canvas.nodes;
            forall c :: c in GenerateRun(cv, yamlNodes, yamlEdges).canvas.connectors ==>
              c in cv.connectors || exists j :: 0 <= j < |yamlEdges| && DrawnFrom(registered, yamlEdges[j], c)
    ensures var registered := RegisterAll(cv, yamlNodes, 0).canvas.nodes;
            forall w :: w in GenerateRun(cv, yamlNodes, yamlEdges).canvas.warnings ==>
              w in cv.warnings || exists j :: 0 <= j < |yamlEdges| && WarnedFrom(registered, yamlEdges[j], w)
  {
    var first := RegisterAll(cv, yamlNodes, 0);
    assert first.error.None?;
    EdgeTrace(first.canvas, yamlEdges, 0, i);
    forall c | c in DrawAll(first.canvas, yamlEdges, 0).canvas.connectors
      ensures c in cv.connectors || exists j :: 0 <= j < |yamlEdges| && DrawnFrom(first.canvas.nodes, yamlEdges[j], c)
    {
      ConnectorsSound(first.canvas, yamlEdges, 0, c);
    }
    forall w | w in DrawAll(first.canvas, yamlEdges, 0).canvas.warnings
      ensures w in cv.warnings || exists j :: 0 <= j < |yamlEdges| && WarnedFrom(first.canvas.nodes, yamlEdges[j], w)
    {
      WarningsSound(first.canvas, yamlEdges, 0, w);
    }
  }

  // ---------------------------------------------------------------------
  // The generator object
  // ---------------------------------------------------------------------

  class DiagramGenerator {
    var nodes: map<Scalar, DiagramNode>
    /** Declared by the source and never filled. */
    var edges: seq<Edge>
    var yamlNodes: seq<Dict>
    var yamlEdges: seq<Dict>
    /** What the rendering library has received. */
    var created: seq<DiagramNode>
    var connectors: seq<Connector>
    var warnings: seq<(Scalar, Scalar)>

    function State(): Canvas
      reads this
    {
      Canvas(nodes, created, connectors, warnings)
    }

    /** The object `__init__` leaves behind once the file has loaded. */
    constructor (yamlNodes: seq<Dict>, yamlEdges: seq<Dict>)
      ensures nodes == map[] && edges == []
      ensures this.yamlNodes == yamlNodes && this.yamlEdges == yamlEdges
      ensures created == [] && connectors == [] && warnings == []
    {
      nodes := map[];
      edges := [];
      this.yamlNodes := yamlNodes;
      this.yamlEdges := yamlEdges;
      created := [];
      connectors := [];
      warnings := [];
    }

    /** `_create_node`: returns the node it registered, or the exception. */
    method CreateNode(nodeData: Dict) returns (node: Option<DiagramNode>, error: Option<GenerateError>)
      modifies this`nodes, this`created
      ensures State() == ApplyCreation(old(State()), CreateNodeOutcome(nodeData))
      ensures node == (if CreateNodeOutcome(nodeData).Created? then Some(CreateNodeOutcome(nodeData).node) else None)
      ensures error == (if CreateNodeOutcome(nodeData).Raised? then Some(CreateNodeOutcome(nodeData).error) else None)
    {
      var identifier := Lookup(nodeData, "identifier");
      if !Truthy(identifier) {
        return None, None;
      }
      var resourceType := Split(identifier.value.text, '.')[0];
      if !(InTable(resourceType) || '_' in resourceType) {
        return None, Some(IndexError(resourceType));
      }
      var nodeClass := GetNodeClass(resourceType);
      if nodeClass.None? {
        return None, None;
      }
      var caption := Lookup(nodeData, "label");
      if caption.None? {
        return None, Some(KeyError("label"));
      }
      var n := DiagramNode(nodeClass.value, caption.value);
      created := created + [n];
      var id := Lookup(nodeData, "id");
      if id.None? {
        return None, Some(KeyError("id"));
      }
      nodes := nodes[id.value := n];
      return Some(n), None;
    }

    /** `generate`: the node pass, then the edge pass. */
    method Generate() returns (error: Option<GenerateError>)
      modifies this`nodes, this`created, this`connectors, this`warnings
      ensures Run(State(), error) == GenerateRun(old(State()), yamlNodes, yamlEdges)
    {
      var i := 0;
      while i < |yamlNodes|
        invariant 0 <= i <= |yamlNodes|
        invariant RegisterAll(State(), yamlNodes, i) == RegisterAll(old(State()), yamlNodes, 0)
      {
        var _, err := CreateNode(yamlNodes[i]);
        if err.Some? {
          return err;
        }
        i := i + 1;
      }
      ghost var afterNodes := State();
      var j := 0;
      while j < |yamlEdges|
        invariant 0 <= j <= |yamlEdges|
        invariant nodes == afterNodes.nodes
        invariant DrawAll(State(), yamlEdges, j) == DrawAll(afterNodes, yamlEdges, 0)
      {
        var edgeData := yamlEdges[j];
        var source := Lookup(edgeData, "source");
        if source.None? {
          return Some(KeyError("source"));
        }
        var target := Lookup(edgeData, "target");
        if target.None? {
          return Some(KeyError("target"));
        }
        if source.value in nodes && target.value in nodes {
          assert EdgeOutcome(nodes, edgeData) == Drawn(Connector(nodes[source.value], nodes[target.value]));
          connectors := connectors + [Connector(nodes[source.value], nodes[target.value])];
        } else {
          assert EdgeOutcome(nodes, edgeData) == Warned(source.value, target.value);
          warnings := warnings + [(source.value, target.value)];
        }
        j := j + 1;
      }
      return None;
    }
  }

  /** `DiagramGenerator(diagram_file)`: the loaded lists, or the ValueError
      raised for an empty file. */
  method NewDiagramGenerator(data: Option<Document>) returns (r: Result<DiagramGenerator, LoadError>)
    ensures r.Failure? <==> LoadDiagram(data).Failure?
    ensures r.Failure? ==> r.error == LoadDiagram(data).error
    ensures r.Success? ==> fresh(r.value) && r.value.nodes == map[] && r.value.edges == []
    ensures r.Success? ==> r.value.created == [] && r.value.connectors == [] && r.value.warnings == []
    ensures r.Success? ==> (r.value.yamlNodes, r.value.yamlEdges) == LoadDiagram(data).value
  {
    var loaded := LoadDiagram(data);
    if loaded.Failure? {
      return Failure(loaded.error);
    }
    var g := new DiagramGenerator(loaded.value.0, loaded.value.1);
    return Success(g);
  }

  /** The state of a fresh generator. */
  function EmptyCanvas(): Canvas {
    Canvas(map[], [], [], [])
  }

  /** What `generate_diagram` can raise: the loader's ValueError or an
      exception of `generate`. */
  datatype DiagramError = LoadFailed(loadError: LoadError) | GenerateFailed(generateError: GenerateError)

  /** `generate_diagram`: load the file, then run both passes on a fresh
      generator; the result is what was drawn, or the exception raised. */
  method GenerateDiagram(data: Option<Document>) returns (r: Result<Canvas, DiagramError>)
    ensures LoadDiagram(data).Failure? ==> r == Failure(LoadFailed(EmptyDiagramFile))
    ensures LoadDiagram(data).Success? ==>
              var run := GenerateRun(EmptyCanvas(), LoadDiagram(data).value.0, LoadDiagram(data).value.1);
              r == if run.error.Some? then Failure(GenerateFailed(run.error.value)) else Success(run.canvas)
  {
    var created := NewDiagramGenerator(data);
    if created.Failure? {
      return Failure(LoadFailed(created.error));
    }
    var generator := created.value;
    var error := generator.Generate();
    if error.Some? {
      return Failure(GenerateFailed(error.value));
    }
    return Success(generator.State());
  }
}
