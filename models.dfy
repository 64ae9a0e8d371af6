/** Record types shared by the Terraform-to-diagram pipeline (models.py).
    Python's `@dataclass` equality is field-by-field, which is exactly the
    structural equality Dafny gives every datatype. */
module Models {

  import opened Wrappers

  /** A directed reference between two resources. The Python field `label`
      is called `caption` here (`label` is a Dafny keyword); it defaults to None. */
  datatype Edge = Edge(source: string, target: string, caption: Option<string> := None)

  /** One `resource "<kind>" "<name>" { ... }` block: the Python field `type`
      is called `kind` here, since `type` is a Dafny keyword. */
  datatype ResourceBlock = ResourceBlock(kind: string, name: string, content: string, identifier: string)

  /** A diagram node; `caption` is the Python field `label`. `parent` and
      `identifier` default to None. */
  datatype Node = Node(id: string, caption: string, parent: Option<string> := None, identifier: Option<string> := None)

  /** Stands for Python's `float`; the model never computes with it. */
  type Timestamp = real

  /** File metadata with its text, as declared in models.py. */
  datatype FileInfo = FileInfo(path: string, size: int, modifiedTime: Timestamp, content: string)

  /** Omitting the label of an Edge gives None. */
  lemma EdgeLabelDefaultsToNone(source: string, target: string)
    ensures Edge(source, target).caption == None
    ensures Edge(source, target) != Edge(source, target, Some(""))
  {
  }

  /** Omitting parent and identifier of a Node gives None for both. */
  lemma NodeOptionalFieldsDefaultToNone(id: string, caption: string)
    ensures Node(id, caption).parent == None && Node(id, caption).identifier == None
    ensures Node(id, caption) == Node(id, caption, None, None)
  {
  }

  /** Dataclass equality: two nodes are equal exactly when every field is. */
  lemma NodeEqualityIsFieldwise(a: Node, b: Node)
    ensures a == b <==> a.id == b.id && a.caption == b.caption && a.parent == b.parent && a.identifier == b.identifier
  {
  }

  /** Dataclass equality for resource blocks is field-by-field too. */
  lemma ResourceBlockEqualityIsFieldwise(a: ResourceBlock, b: ResourceBlock)
    ensures a == b <==> a.kind == b.kind && a.name == b.name && a.content == b.content && a.identifier == b.identifier
  {
  }
}
