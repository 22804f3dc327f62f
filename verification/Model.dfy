/** The records of a mirror and their primary keys. */
module Model {
  import opened Basics
  import opened Json

  /** Primary key of every mirrored record. */
  datatype Id =
    | NodeId(id: string)
    | ComponentId(id: string)
    | ComponentSetId(id: string)
    | StyleId(id: string)
    | VariableId(id: string)
    | CollectionId(id: string)
    | MetaId
    | ProxyCacheId(key: string)
    | MirrorConfigId
    | ImageBlobId(key: string)

  datatype Bounds = Bounds(x: real, y: real, width: real, height: real)

  datatype NodeRec = NodeRec(
    id: string,
    parentId: Option<string>,
    childIndex: nat,
    pageId: string,
    nodeType: string,
    name: string,
    visible: bool,
    text: Option<string>,
    componentId: Option<string>,
    componentProperties: seq<(string, Value)>,
    propertyDefinitions: Option<Value>,
    styleRefs: seq<(string, string)>,
    boundVariables: seq<(string, string)>,
    absBounds: Option<Bounds>,
    raw: Value)

  datatype ComponentRec = ComponentRec(
    nodeId: string, key: string, name: string, description: string,
    componentSetId: Option<string>, remote: bool)

  datatype ComponentSetRec = ComponentSetRec(
    nodeId: string, key: string, name: string, description: string, remote: bool)

  datatype StyleRec = StyleRec(
    styleId: string, key: string, name: string, styleType: string, description: string, remote: bool)

  datatype VariableRec = VariableRec(
    id: string, name: string, resolvedType: string, collectionId: string,
    valuesByMode: seq<(string, Value)>, description: string, scopes: seq<string>)

  datatype CollectionRec = CollectionRec(
    id: string, name: string, modes: seq<(string, string)>, defaultModeId: string)

  datatype FileMeta = FileMeta(
    name: string, version: string, lastModified: string, syncedAt: nat)

  /** One cached upstream response; `args` and `content` are canonical JSON. */
  datatype ProxyCacheRec = ProxyCacheRec(
    keyHash: string, tool: string, args: Value, fileVersion: string, content: Value)

  type Byte = b: int | 0 <= b < 256

  datatype Kind = Render | Fill

  datatype ImageBlobRec = ImageBlobRec(
    keyHash: string, kind: Kind, subject: string, format: string, scaleMilli: nat,
    fileVersion: string, bytes: seq<Byte>)

  datatype Rec =
    | Node(node: NodeRec)
    | Component(component: ComponentRec)
    | ComponentSet(componentSet: ComponentSetRec)
    | Style(style: StyleRec)
    | Variable(variable: VariableRec)
    | Collection(collection: CollectionRec)
    | Meta(meta: FileMeta)
    | ProxyCache(proxy: ProxyCacheRec)
    | MirrorConfig(geometry: bool)
    | ImageBlob(blob: ImageBlobRec)

  /** A record is only ever stored under a key of its own kind, and a node, which its table keys by
      the record's own id, under that id. */
  predicate Matches(id: Id, rec: Rec) {
    match id
    case NodeId(n) => rec.Node? && rec.node.id == n
    case ComponentId(_) => rec.Component?
    case ComponentSetId(_) => rec.ComponentSet?
    case StyleId(_) => rec.Style?
    case VariableId(_) => rec.Variable?
    case CollectionId(_) => rec.Collection?
    case MetaId => rec.Meta?
    case ProxyCacheId(_) => rec.ProxyCache?
    case MirrorConfigId => rec.MirrorConfig?
    case ImageBlobId(_) => rec.ImageBlob?
  }

  datatype Entry = Entry(id: Id, rec: Rec)

  /** What a store holds: at most one record under each key, each of its key's kind. */
  type Rows = map<Id, Rec>

  ghost predicate WellKeyed(rows: Rows) {
    forall id <- rows :: Matches(id, rows[id])
  }

  /** What a sweep may remove of the nodes, components, component sets and styles. */
  predicate Sweepable(id: Id) {
    id.NodeId? || id.ComponentId? || id.ComponentSetId? || id.StyleId?
  }

  predicate VariableKind(id: Id) {
    id.VariableId? || id.CollectionId?
  }
}
