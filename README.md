# aws-diagrams, modelled in Dafny

aws-diagrams turns Terraform resource blocks into an AWS architecture
diagram. This project models the deterministic layer of that pipeline and
proves properties of it:

- **mappings.py** (`Mappings`). This part covers:
  - the parent-container and display-label tables;
  - the label fallback (remove every `aws_`, turn `_` into a space, then `str.title`);
  - `create_diagram_nodes`, which emits two root nodes and then one node per resource, with id = identifier with `.` turned into `-`;
  - the node mappings that `write_diagram_yaml` dumps.
- **diagram_generator.py** (`DiagramGenerator`). This part covers:
  - the ordered `RESOURCE_TO_NODE` table;
  - `get_node_class`: direct lookup, then the first key ending with the kind's second `_` segment;
  - loading the diagram document;
  - the `DiagramGenerator` object, whose node pass fills a registration map and whose edge pass draws an edge only when both of its ids are registered;
  - `generate_diagram`.
- **tf_scanner.py** (`TfScanner`). This part covers:
  - `Path.suffix`;
  - the two `can_handle` suffix tests and `process`;
  - `FileScanner.scan_directory` over a given walk. The first accepting handler wins, each file gives at most one result, and results come in walk order.
- **models.py** (`Models`): the `Edge`, `ResourceBlock`, `Node` and `FileInfo` records.

Supporting modules:

- `Strings` models the Python `str` operations the core relies on: single-character `replace`, `replace(pat, "")`, `split`, `rfind`, `endswith` and `title`. It also defines `Join`, which the core does not call, only to state that `split` loses nothing (`Strings.JoinSplit`).
- `YamlDoc` models the values that cross the YAML file: ordered mappings of null-or-string scalars, and a document of named lists.
- `Path.suffix` follows Python up to 3.13, where a name ending with a dot (`main.`) has no suffix; Python 3.14 gives it the suffix `.`. Neither version accepts such a name as `.tf` or `.tfvars`.
- `Pipeline` follows a resource block from `create_diagram_nodes` through `write_diagram_yaml` into the node pass of `generate`.

Python exceptions are error outcomes, not preconditions:

- `ValueError` for an empty file is `LoadError`.
- A `KeyError` on `label`, `id`, `source` or `target`, and the `IndexError` of `split("_")[1]` inside `_create_node`, are `GenerateError`. They stop `generate` and keep what was already done.
- The one precondition is on `get_node_class` itself. A kind that is neither in the table nor contains `_` makes it raise IndexError.

Node ids are not injective in general: `a.b-c` and `a-b.c` both become
`a-b-c` (`Mappings.NodeIdCollision`). They are injective for identifiers of the form
`<kind>.<name>` with no `-` or `.` in the kind and no `.` in the name
(`Mappings.NodeIdInjective`). The code makes no promise either way.

## Model

| member | source | states |
|---|---|---|
| Models.EdgeLabelDefaultsToNone | models.py:7-10 | an edge built without a label has label None, which differs from an empty label |
| Models.NodeOptionalFieldsDefaultToNone | models.py:22-26 | a node built from id and label alone has parent None and identifier None |
| Models.NodeEqualityIsFieldwise | models.py:21-26 | two nodes are equal exactly when id, label, parent and identifier all are |
| Models.ResourceBlockEqualityIsFieldwise | models.py:13-18 | two resource blocks are equal exactly when type, name, content and identifier all are |
| Strings.ReplaceChar | mappings.py:55 | `s.replace(a, b)` for characters keeps the length and changes exactly the positions holding `a` to `b` |
| Strings.ReplaceCharRemovesAll | mappings.py:42 | after replacing `a` by a different character no `a` is left |
| Strings.RemoveAll | mappings.py:42 | `s.replace(pat, "")` never lengthens the text |
| Strings.RemoveAllWithoutOccurrence | mappings.py:42 | a text without an occurrence of the pattern is left unchanged |
| Strings.NoOccurrenceWithoutFirstChar | mappings.py:42 | a text lacking the pattern's first character has no occurrence of it |
| Strings.RemoveAllLeading | mappings.py:42 | a leading occurrence is dropped and the scan resumes right after it |
| Strings.IndexOf | diagram_generator.py:73 | the index of the first `c`: no `c` before it, `s[i] == c` when found, `|s|` exactly when `c` is absent |
| Strings.IndexOfAt | diagram_generator.py:73 | a `c` at `k` with none before it is the first one |
| Strings.Split | diagram_generator.py:73 | `split(c)` yields at least one segment, the first is the text before the first `c`, and there is one segment exactly when `c` is absent |
| Strings.SplitPartsLackSeparator | diagram_generator.py:73 | no segment of `split(c)` holds `c` |
| Strings.SplitAt | diagram_generator.py:73 | splitting at the first `c` gives the text before it, then the segments of the text after it |
| Strings.SecondSegment | diagram_generator.py:42 | with the first two separators at `i` and `j`, `split(c)[1]` is the text between them |
| Strings.JoinSplit | diagram_generator.py:42 | joining the segments of `split(c)` with `c` gives back the text |
| Strings.EndsWith | diagram_generator.py:44 | `s.endswith(t)`: the last `|t|` characters of `s` are `t` |
| Strings.EndsWithChars | diagram_generator.py:44 | `s.endswith(t)` holds exactly when `t` is no longer than `s` and matches its last characters one by one; every text ends with the empty text |
| Strings.RFind | tf_scanner.py:30 | `rfind(c)` is -1 exactly when `c` is absent, and otherwise the index of a `c` with none after it |
| Strings.Title | mappings.py:42 | `str.title` keeps the text's length; what it writes at each position is stated by `Strings.TitleFrom` and the lemmas below |
| Strings.TitleFrom | mappings.py:42 | the `str.title` scan keeps the length and writes at each position what the per-character rule says |
| Strings.TitleKeepsCasedness | mappings.py:42 | title-casing keeps which positions hold letters |
| Strings.TitleIdempotent | mappings.py:42 | title-casing twice equals title-casing once |
| Strings.TitleKeepsUncased | mappings.py:42 | a character that is not a letter occurs in the title-cased text exactly when it occurs in the original |
| YamlDoc.Keys | mappings.py:73-79 | the keys of a mapping, in insertion order |
| YamlDoc.Lookup | diagram_generator.py:70 | `d.get(key)`: present exactly when `key` is one of the keys, and then a stored pair |
| YamlDoc.LookupDistinct | diagram_generator.py:70 | in a mapping without repeated keys, as every Python dict is, looking up a key finds the one value stored under it |
| YamlDoc.Truthy | diagram_generator.py:70 | `if not node_data.get("identifier")`: a value is truthy when present, not null and not empty |
| YamlDoc.FalsyValues | diagram_generator.py:70 | the falsy results of `get` are exactly a missing key, null and the empty string |
| Mappings.GetResourceParent | mappings.py:17-28 | a kind gets a parent exactly when the table places it, and that parent is `region`, `vpc` or `private-subnet`; every other kind, including the two explicit None entries, gets None |
| Mappings.ParentExamples | mappings.py:19-25 | `aws_vpc` lies in `region` and `aws_subnet` in `vpc`; `aws_cloudfront_distribution`, `aws_waf_web_acl` and a kind outside the table get None |
| Mappings.FallbackLabel | mappings.py:42 | the fallback display name holds no `_` and is no longer than the kind |
| Mappings.BaseLabel | mappings.py:42 | the base label of a kind outside the label table is its fallback display name: no `_`, no longer than the kind |
| Mappings.GetResourceLabel | mappings.py:31-43 | the label is the base label, then `": "`, then the resource name |
| Mappings.LabelDeterminesName | mappings.py:43 | for one kind, two labels are equal exactly when the names are |
| Mappings.TableLabel | mappings.py:32-42 | a kind in the label table uses its table entry, never the fallback |
| Mappings.LabelExamples | mappings.py:33-34 | `aws_vpc`/`main` gives `VPC: main`, `aws_subnet`/`private` gives `Subnet: private` |
| Mappings.FallbackLabelExample | mappings.py:42 | `aws_s3_bucket` falls back to `S3 Bucket` (a digit does not start a word) |
| Mappings.NodeId | mappings.py:55 | the node id has the identifier's length and no `.` |
| Mappings.NodeFor | mappings.py:55-65 | a resource's node has a dot-free id as long as its identifier, a parent exactly when the parent table places its kind, a label ending with its name, and its identifier |
| Mappings.CreateDiagramNodes | mappings.py:46-67 | the output has `2 + |resources|` nodes: `aws-cloud` with no parent, `region` inside `aws-cloud`, then the node of resource `i` at index `i + 2` |
| Mappings.NodeIdIgnoresName | mappings.py:55-64 | changing a resource's name changes neither its node id nor its identifier field, and changes its label exactly when the name differs |
| Mappings.NodeIdInjective | mappings.py:55 | distinct well-formed identifiers give distinct node ids |
| Mappings.NodeIdOfWellFormed | mappings.py:55 | the node id of `<kind>.<name>` is `<kind>-<name>` |
| Mappings.DashSplitsId | mappings.py:55 | in `<kind>-<name>` with no `-` in the kind, the first `-` separates kind and name |
| Mappings.NodeIdCollision | mappings.py:55 | `a.b-c` and `a-b.c` get the same node id |
| Mappings.HasParent | mappings.py:78 | `if node.parent:`: the parent is set and not empty |
| Mappings.ParentTruthiness | mappings.py:78 | the writer's parent test is the truthiness the reader applies to the written value, `null` and `""` being falsy |
| Mappings.RootParents | mappings.py:48-51 | of the two roots, only the region has a parent to write |
| Mappings.NodeDict | mappings.py:73-79 | a node's mapping has keys `id`, `identifier`, `label`, in that order, then `parent` exactly when the parent is non-empty, each holding the node's value |
| Mappings.NodeDictKeysDistinct | mappings.py:73-79 | a written node mapping repeats no key |
| Mappings.WriteDiagramYaml | mappings.py:70-82 | the document has the single key `nodes`, holding one mapping per node in node order |
| Mappings.RootDicts | mappings.py:48-51 | the top root is written without `parent` and with a null identifier; the region names `aws-cloud` as its parent |
| DiagramGenerator.InTable | diagram_generator.py:38 | `resource_type in RESOURCE_TO_NODE`: some table key equals the kind |
| DiagramGenerator.InTableDirect | diagram_generator.py:38-39 | a kind is in the table exactly when the direct lookup finds an entry for it |
| DiagramGenerator.Direct | diagram_generator.py:38-39 | the direct lookup finds nothing exactly when no key equals the kind, and otherwise a stored entry |
| DiagramGenerator.FirstEndingWith | diagram_generator.py:43-46 | the fallback finds nothing exactly when no key ends with the base type, and otherwise the first such key's icon |
| DiagramGenerator.FirstEndingAt | diagram_generator.py:43-46 | a key ending with the base type with no such key before it is the one the fallback picks |
| DiagramGenerator.BaseType | diagram_generator.py:42 | `kind.split("_")[1]` holds no `_` |
| DiagramGenerator.NodeClass | diagram_generator.py:35-46 | every kind in the table gets an icon |
| DiagramGenerator.GetNodeClass | diagram_generator.py:35-46 | the search loop returns the direct entry, else the first suffix match, else None |
| DiagramGenerator.DirectEntryWins | diagram_generator.py:38-39 | every table kind gets its own entry, before any fallback |
| DiagramGenerator.FallbackIsFirstSuffixMatch | diagram_generator.py:42-46 | outside the table, the icon is that of the first key in declaration order ending with the second `_` segment, and None when there is none |
| DiagramGenerator.UnknownKindHasNoIcon | diagram_generator.py:42-46 | `aws_unknown_resource` gets None |
| DiagramGenerator.EmptyBaseTypeMatchesFirstKey | diagram_generator.py:42-45 | `aws_` has an empty second segment, which every key ends with, so it gets the first entry, VPC |
| DiagramGenerator.LoadDiagram | diagram_generator.py:57-66 | an empty file or empty document fails with ValueError; otherwise `nodes` and `edges` default to empty lists |
| DiagramGenerator.KindOf | diagram_generator.py:73 | the kind read off an identifier is its dot-free beginning, ending at the first `.` or at the end of the identifier |
| DiagramGenerator.KindUpToFirstDot | diagram_generator.py:73 | with the first `.` at index `i`, the kind is the text before it |
| DiagramGenerator.KindOfExample | diagram_generator.py:73 | `aws_vpc.main` has kind `aws_vpc` |
| DiagramGenerator.CreateNodeOutcome | diagram_generator.py:68-82 | only an entry with a truthy identifier draws a node or raises; it raises only IndexError, KeyError `label` or KeyError `id`; a node drawn but not registered comes only with KeyError `id`; a registered node carries the entry's `id` and `label` |
| DiagramGenerator.NoIdentifierNoNode | diagram_generator.py:70-71 | an entry with a missing, null or empty identifier creates and registers nothing |
| DiagramGenerator.RegistrationCondition | diagram_generator.py:68-82 | an entry registers exactly when its identifier is non-empty, its kind resolves to an icon and it has `label` and `id`; it registers under its `id`, captioned with its `label` |
| DiagramGenerator.RegisterAll | diagram_generator.py:93-94 | the node pass draws no connectors or warnings and never unregisters an id |
| DiagramGenerator.DrawAll | diagram_generator.py:97-104 | the edge pass leaves the registration map and the drawn nodes alone |
| DiagramGenerator.EdgeOutcome | diagram_generator.py:97-104 | one edge raises KeyError exactly when `source` or `target` is missing; it becomes a connector between the registered nodes when both ids are registered, and a warning naming both ids otherwise |
| DiagramGenerator.GenerateRun | diagram_generator.py:84-104 | the edge pass leaves the registration map and the drawn nodes as the node pass left them |
| DiagramGenerator.NodeErrorSkipsEdges | diagram_generator.py:92-97 | an exception in the node pass ends `generate` before any edge is looked at |
| DiagramGenerator.ApplyCreation | diagram_generator.py:76-79 | the effect of one `_create_node` call on the registration map and the drawn nodes |
| DiagramGenerator.CreationEffect | diagram_generator.py:76-79 | one call stores its node under its `id` when it registers one, leaves the map alone otherwise, and never draws a connector or warning |
| DiagramGenerator.CreationDraws | diagram_generator.py:76-78 | one call adds to the drawn nodes exactly what `DrawnBy` says: the node it created, if any |
| DiagramGenerator.NodesDrawn | diagram_generator.py:76-79 | one pass over `n` entries draws at most `n` nodes |
| DiagramGenerator.NodePassDraws | diagram_generator.py:76-79 | the node pass hands the library, in order, the node of each registering entry and, when an entry raises, the node it drew before a missing `id`, and nothing else |
| DiagramGenerator.RegisterAllFails | diagram_generator.py:73-79 | the node pass from entry `from` on raises exactly when some entry at or after `from` raises |
| DiagramGenerator.RegisteredIds | diagram_generator.py:76-80 | after the node pass, an id is registered exactly when it was before or some entry registers under it |
| DiagramGenerator.RegisterStep | diagram_generator.py:76-80 | an entry that does not raise adds to the registered ids at most the id it registers under |
| DiagramGenerator.LastRegistrationWins | diagram_generator.py:79 | the node kept under an id is that of the last entry registering under it |
| DiagramGenerator.KeptWhenNotRegisteredAgain | diagram_generator.py:79 | an id no later entry registers under keeps its node |
| DiagramGenerator.DrawAllFails | diagram_generator.py:98-99 | the edge pass from edge `from` on raises exactly when some edge at or after `from` lacks `source` or `target` |
| DiagramGenerator.OneTracePerEdge | diagram_generator.py:97-104 | each edge adds exactly one connector or one warning, after the earlier ones |
| DiagramGenerator.EdgeTrace | diagram_generator.py:98-104 | an edge whose ids are both registered becomes a connector between their nodes; any other edge becomes a warning naming both ids |
| DiagramGenerator.ConnectorsSound | diagram_generator.py:101-102 | every connector after the edge pass was there before or was drawn for an edge whose two ids are registered, between their nodes |
| DiagramGenerator.WarningsSound | diagram_generator.py:103-104 | every warning after the edge pass was there before or was reported for an edge with an unregistered id, naming both its ids |
| DiagramGenerator.EdgesSeeEveryNode | diagram_generator.py:92-104 | every edge is checked against the registration map left by the whole node pass: it becomes a connector when both ids are registered there and a warning otherwise, and every connector and warning of the run comes from such an edge |
| DiagramGenerator.DiagramGenerator.constructor | diagram_generator.py:50-55 | a new generator has no registered nodes, no edges and the loaded lists |
| DiagramGenerator.DiagramGenerator.CreateNode | diagram_generator.py:68-82 | one entry's effect on the registration map and the drawn nodes, with the node returned or the exception raised |
| DiagramGenerator.DiagramGenerator.Generate | diagram_generator.py:84-104 | the two loops reach the state and exception of all nodes first, then all edges, each pass stopping at its first exception |
| DiagramGenerator.NewDiagramGenerator | diagram_generator.py:50-66 | construction fails exactly when loading does, and otherwise yields an empty generator holding the loaded lists |
| DiagramGenerator.GenerateDiagram | diagram_generator.py:107-110 | load, then generate on a fresh generator; the result is what was drawn or the exception raised |
| Pipeline.KindRecovered | diagram_generator.py:73 | the kind read back from a written identifier `<kind>.<name>` is the resource's kind |
| Pipeline.ResourceEntryOutcome | diagram_generator.py:68-82 | a resource's written mapping registers under its node id with its label when its kind has an icon, is skipped when it has none, and raises IndexError when its kind is neither in the table nor contains `_` |
| Pipeline.RootEntriesSkipped | diagram_generator.py:70-71 | neither root node is drawn, since their identifiers are null |
| Pipeline.WrittenDiagramLoads | diagram_generator.py:62-66 | the document written for a node list loads back as those mappings, with no edges |
| Pipeline.WrittenFileHoldsEntries | mappings.py:70-82 | the file written for `create_diagram_nodes`' output holds both roots and then one mapping per resource |
| Pipeline.WrittenEntriesRegister | diagram_generator.py:76-80 | some written entry registers under an id exactly when some resource with an icon has that node id |
| Pipeline.GeneratedDiagramRegisters | diagram_generator.py:93-94 | when every kind resolves, the node pass over the written file raises nothing and registers exactly the node ids of the resources whose kind has an icon |
| TfScanner.Suffix | tf_scanner.py:30 | a suffix is empty, or a dot and at least one further character with no other dot, ending a longer name |
| TfScanner.SuffixOfName | tf_scanner.py:30 | `<stem>.<ext>` with a non-empty stem and a dot-free, non-empty extension has suffix `.<ext>` |
| TfScanner.DotlessNameHasNoSuffix | tf_scanner.py:30 | a name without a dot has no suffix |
| TfScanner.EdgeDotIsNoSuffix | tf_scanner.py:30 | a name whose only dot leads it, or that ends with a dot, has no suffix |
| TfScanner.Process | tf_scanner.py:32-38 | a processed file records its own path and the size and time `stat` reports |
| TfScanner.CanHandle | tf_scanner.py:29-43 | each handler compares the whole suffix with its extension |
| TfScanner.HandledName | tf_scanner.py:29-43 | a name a handler accepts ends with `.tf` or `.tfvars` after a non-empty stem |
| TfScanner.HandlersDisjoint | tf_scanner.py:29-43 | no path is accepted by both handlers |
| TfScanner.HandlerExamples | tests/test_tf_scanner.py:19-48 | `main.tf` and `vars.tfvars` are accepted by their handlers; `readme.md` is not a Terraform file |
| TfScanner.FirstAccepting | tf_scanner.py:64-67 | no handler is chosen exactly when none accepts; otherwise the chosen one accepts and none before it does |
| TfScanner.FirstAcceptingIs | tf_scanner.py:64-67 | an accepting handler with no accepting handler before it is the one chosen |
| TfScanner.Contribution | tf_scanner.py:64-67 | one file gives one record, with its own path, exactly when some handler accepts it, and none otherwise |
| TfScanner.Scan | tf_scanner.py:58-69 | a scan yields at most one result per file |
| TfScanner.Accepted | tf_scanner.py:59-69 | a path is listed exactly when it is in the walk and the handler search picks a handler for it |
| TfScanner.FileScanner.constructor | tf_scanner.py:55-56 | the scanner keeps the given handlers |
| TfScanner.FileScanner.ScanDirectory | tf_scanner.py:58-69 | the nested loop with `break` computes the scan of the walk |
| TfScanner.ScanAppend | tf_scanner.py:61-67 | scanning two stretches of the walk gives their results one after the other, so results keep walk order |
| TfScanner.ScanRecordsAcceptedFiles | tf_scanner.py:58-69 | the results are, in order, one record per accepted file, with that file's path and `stat` values |
| TfScanner.DefaultHandlersAccept | tf_scanner.py:87-90 | with the handlers of `main`, a file is accepted exactly when its suffix is `.tf` or `.tfvars`, by the matching handler |
| TfScanner.SingleTerraformFile | tests/test_tf_scanner.py:50-60 | a walk holding only `main.tf` scans to one record with that path |

## Left out

- YAML reading and writing are not modelled: `yaml.safe_load`, `yaml.safe_dump` and the file open/close. `write_diagram_yaml` returns the document it would dump, and the generator takes the loaded document (None for an empty file) instead of a path. `DiagramGenerator.diagram_file` is therefore not modelled.
- Documents that are not a mapping of lists of mappings are not modelled. What Python does with them:
  - A falsy top-level value (`[]`, `0`, `false`, `''`) raises ValueError at `not data` (diagram_generator.py:62-63), as an empty file does. A truthy one that is not a mapping makes `data.get` raise AttributeError (:65).
  - A null or numeric `nodes` or `edges` raises TypeError at its loop (:93, :97). A string or mapping is iterated instead, and an empty one raises nothing.
  - For `nodes`, each character or key of a non-empty string or mapping, and any list entry that is not a mapping, reaches `_create_node`, where `node_data.get` raises AttributeError (:70).
  - For `edges`, each such character, key or entry reaches the loop body, where `edge_data["source"]` raises TypeError (:98).
- Scalars other than null and strings (numbers, booleans, nested values) are not modelled.
  - A numeric or boolean `id`, `source` or `target` is a valid dict key and raises nothing (diagram_generator.py:79, 98-99). But `1`, `1.0` and `true` are one key in Python and overwrite one another, while the string `"1"` is a different key. The model has no such values and states nothing about these collisions.
  - A list or mapping `id`, `source` or `target` is unhashable and raises TypeError at :79 or :98-99.
  - A truthy `identifier` that is not a string makes `.split` raise AttributeError (:73). A falsy one (`0`, `false`, an empty list or mapping) is skipped at :70-71, like null.
- Repeated keys in one YAML mapping are not modelled: PyYAML keeps the last value and `YamlDoc.Lookup` the first. They agree on mappings with `YamlDoc.DistinctKeys`, which every mapping `write_diagram_yaml` produces has (`Mappings.NodeDictKeysDistinct`).
- The `diagrams` library is replaced by tags:
  - the `Diagram` context (title, file name, direction) is not modelled;
  - a node class instance is a `DiagramNode` (icon, caption);
  - `source >> target` appends a `Connector`;
  - the warning `print` appends the two ids to a list.
  - Node objects are assumed truthy, as library classes are.
- The filesystem and the CLI are inputs or left out:
  - `os.walk` is a given sequence of `(root, name)` paths in visit order;
  - `stat()` is a given function;
  - `main` (argparse, the `is_dir` check, the exit codes and the report it prints) is not modelled. Its handler list is `TfScanner.DefaultHandlers`.
- `FileHandler` is an abstract base class in Python. The model closes it to the two subclasses the source defines.
- `can_be_parent` (mappings.py:9-14) is not modelled, because nothing uses it.
- `ResourceBlock.content` and `FileInfo.modified_time` are carried but never computed with. The float is a `real`.
- Strings.Title: models `str.title` only for ASCII letters. Other characters count as uncased and are left unchanged, so Unicode case mapping is not captured.
- Strings.RemoveAll: states only that removal never lengthens the text. Its exact content is captured by its definition and its lemmas, not by its contract.
- Functions that the repository's tests import but no source file defines are not part of this model: the block extractor, the reference extractor, the edge builder and an edge-taking `write_diagram_yaml`.
