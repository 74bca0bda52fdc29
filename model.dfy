/** The blueprint graph data model: values and their types, pins, nodes with
    their fixed pin templates, variables, links, and the graph object whose
    `add_*` operations hand out node and pin ids from two monotonic counters. */
module Model {
  import opened Util

  /** Rust's `i32`. */
  type i32 = x: int | -0x8000_0000 <= x < 0x8000_0000

  datatype GraphKind = Event | Construction | Function | Graph

  datatype GraphDef = GraphDef(name: string, kind: GraphKind)

  datatype PinDirection = Input | Output

  datatype DataType = Exec | Bool | I32 | F32 | String | Unit

  /** `f32` payloads are kept as reals; nothing here computes with them. */
  datatype Value = Bool(b: bool) | I32(i: i32) | F32(f: real) | String(s: string) | Unit

  datatype BuiltinNodeKind =
    | BeginPlay | Tick | ConstructionScript | Print | RhaiScript | Branch
    | GetVariable | SetVariable | SelfActor | GetActorTransform | SetActorTransform
    | SpawnActor | GetActorByName | GetActorName

  datatype Pin = Pin(id: nat, name: string, direction: PinDirection, dataType: DataType)

  datatype Node = Node(
    id: nat,
    kind: BuiltinNodeKind,
    graph: string,
    position: (real, real),
    pins: seq<Pin>,
    properties: map<string, Value>)

  datatype VariableDef = VariableDef(name: string, dataType: DataType, defaultValue: Option<Value>)

  datatype Link = Link(from: nat, to: nat)

  /** The type tag of a value: total, and never `Exec`. */
  function DataTypeOf(v: Value): (t: DataType)
    ensures t != DataType.Exec
    ensures v.Bool? <==> t == DataType.Bool
    ensures v.I32? <==> t == DataType.I32
    ensures v.F32? <==> t == DataType.F32
    ensures v.String? <==> t == DataType.String
    ensures v.Unit? <==> t == DataType.Unit
  {
    match v
    case Bool(_) => DataType.Bool
    case I32(_) => DataType.I32
    case F32(_) => DataType.F32
    case String(_) => DataType.String
    case Unit => DataType.Unit
  }

  const DefaultNodeGraph: string := "EventGraph"

  const DefaultRhaiCode: string := "// Rhai snippet examples\n//\n// 1) Log\n// print(\"Hello from Rhai\");\n//\n// 2) Use variables\n// set_var(\"message\", \"Hello\");\n// print(get_var(\"message\"));\n//\n// 3) Read delta time during Tick\n// print(\"dt = \" + dt().to_string());\n"

  function DefaultGraphs(): seq<GraphDef>
  {
    [GraphDef("EventGraph", Event), GraphDef("ConstructionScript", Construction)]
  }

  /** The fixed pin template of each node kind (ids are placeholders until `add_node`). */
  function DefaultPins(kind: BuiltinNodeKind): seq<Pin>
  {
    match kind
    case BeginPlay | ConstructionScript =>
      [Pin(0, "then", Output, DataType.Exec)]
    case Tick =>
      [Pin(0, "then", Output, DataType.Exec), Pin(1, "dt", Output, DataType.F32)]
    case Print =>
      [Pin(0, "exec", Input, DataType.Exec), Pin(1, "then", Output, DataType.Exec),
       Pin(2, "text", Input, DataType.String)]
    case RhaiScript =>
      [Pin(0, "exec", Input, DataType.Exec), Pin(1, "then", Output, DataType.Exec),
       Pin(2, "code", Input, DataType.String)]
    case Branch =>
      [Pin(0, "exec", Input, DataType.Exec), Pin(1, "condition", Input, DataType.Bool),
       Pin(2, "true", Output, DataType.Exec), Pin(3, "false", Output, DataType.Exec)]
    case GetVariable =>
      [Pin(0, "value", Output, DataType.String)]
    case SetVariable =>
      [Pin(0, "exec", Input, DataType.Exec), Pin(1, "then", Output, DataType.Exec),
       Pin(2, "value", Input, DataType.String)]
    case SelfActor =>
      [Pin(0, "self", Output, DataType.String)]
    case GetActorTransform =>
      [Pin(0, "exec", Input, DataType.Exec), Pin(1, "then", Output, DataType.Exec),
       Pin(2, "actor", Input, DataType.String), Pin(3, "position", Output, DataType.String)]
    case SetActorTransform =>
      [Pin(0, "exec", Input, DataType.Exec), Pin(1, "then", Output, DataType.Exec),
       Pin(2, "actor", Input, DataType.String), Pin(3, "position", Input, DataType.String)]
    case SpawnActor =>
      [Pin(0, "exec", Input, DataType.Exec), Pin(1, "then", Output, DataType.Exec),
       Pin(2, "class", Input, DataType.String), Pin(3, "actor", Output, DataType.String)]
    case GetActorByName =>
      [Pin(1, "exec", Input, DataType.Exec), Pin(2, "then", Output, DataType.Exec),
       Pin(3, "name", Input, DataType.String), Pin(4, "actor", Output, DataType.String)]
    case GetActorName =>
      [Pin(0, "actor", Input, DataType.String), Pin(1, "name", Output, DataType.String)]
  }

  /** A fresh node of `kind`: id 0, in the event graph, at the origin, with the kind's template
      pins; only a Rhai script node starts with a property, its `"code"` snippet. */
  function NewNode(kind: BuiltinNodeKind): (n: Node)
    ensures n.id == 0 && n.kind == kind && n.graph == "EventGraph" && n.position == (0.0, 0.0)
    ensures n.pins == DefaultPins(kind)
    ensures kind == RhaiScript ==> n.properties == map["code" := Value.String(DefaultRhaiCode)]
    ensures kind != RhaiScript ==> n.properties == map[]
  {
    var node := Node(0, kind, DefaultNodeGraph, (0.0, 0.0), DefaultPins(kind), map[]);
    if kind == RhaiScript then
      node.(properties := node.properties["code" := Value.String(DefaultRhaiCode)])
    else
      node
  }

  /** The id of the first pin called `name`, if any. */
  function PinNamedIn(pins: seq<Pin>, name: string): (r: Option<nat>)
    ensures r.None? <==> forall i :: 0 <= i < |pins| ==> pins[i].name != name
    ensures r.Some? ==> exists i :: 0 <= i < |pins| && pins[i].name == name && pins[i].id == r.value
                                    && forall j :: 0 <= j < i ==> pins[j].name != name
  {
    if |pins| == 0 then None
    else if pins[0].name == name then Some(pins[0].id)
    else
      var r := PinNamedIn(pins[1..], name);
      assert forall j :: 0 <= j < |pins| - 1 ==> pins[1..][j] == pins[j + 1];
      r
  }

  function PinNamed(n: Node, name: string): (r: Option<nat>)
    ensures r.None? <==> forall i :: 0 <= i < |n.pins| ==> n.pins[i].name != name
    ensures r.Some? ==> exists i :: 0 <= i < |n.pins| && n.pins[i].name == name && n.pins[i].id == r.value
                                    && forall j :: 0 <= j < i ==> n.pins[j].name != name
  {
    PinNamedIn(n.pins, name)
  }

  /** Storing `v` under `key` replaces that one property and leaves the rest of the node alone. */
  function SetProperty(n: Node, key: string, v: Value): (r: Node)
    ensures r.properties.Keys == n.properties.Keys + {key}
    ensures r.properties[key] == v
    ensures forall k :: k in n.properties && k != key ==> r.properties[k] == n.properties[k]
    ensures r == n.(properties := r.properties)
  {
    n.(properties := n.properties[key := v])
  }

  function SetPropertyString(n: Node, key: string, s: string): (r: Node)
  {
    SetProperty(n, key, Value.String(s))
  }

  function SetPropertyBool(n: Node, key: string, b: bool): (r: Node)
  {
    SetProperty(n, key, Value.Bool(b))
  }

  function SetPropertyI32(n: Node, key: string, i: i32): (r: Node)
  {
    SetProperty(n, key, Value.I32(i))
  }

  function SetPropertyF32(n: Node, key: string, f: real): (r: Node)
  {
    SetProperty(n, key, Value.F32(f))
  }

  predicate HasPin(n: Node, id: nat)
  {
    exists i :: 0 <= i < |n.pins| && n.pins[i].id == id
  }

  /** The first pin of a sequence that carries `id`. */
  function PinWithId(pins: seq<Pin>, id: nat): (r: Option<Pin>)
    ensures r.None? <==> forall i :: 0 <= i < |pins| ==> pins[i].id != id
    ensures r.Some? ==> exists i :: 0 <= i < |pins| && pins[i] == r.value && r.value.id == id
                                    && forall j :: 0 <= j < i ==> pins[j].id != id
  {
    if |pins| == 0 then None
    else if pins[0].id == id then Some(pins[0])
    else
      var r := PinWithId(pins[1..], id);
      assert forall j :: 0 <= j < |pins| - 1 ==> pins[1..][j] == pins[j + 1];
      r
  }

  function OwnersOf(nodes: map<nat, Node>, id: nat): set<nat>
  {
    set k | k in nodes && HasPin(nodes[k], id)
  }

  /** The lowest node id whose pins contain `id` (a `BTreeMap` is scanned in ascending key order). */
  function PinOwner(nodes: map<nat, Node>, id: nat): (r: Option<nat>)
    ensures r.Some? ==> r.value in nodes && HasPin(nodes[r.value], id)
  {
    var owners := OwnersOf(nodes, id);
    if owners == {} then None else Some(SetMin(owners))
  }

  /** The owner is missing exactly when no node has the pin, and it is the lowest node that has it. */
  lemma PinOwnerLowest(nodes: map<nat, Node>, id: nat)
    ensures PinOwner(nodes, id).None? <==> forall k :: k in nodes ==> !HasPin(nodes[k], id)
    ensures PinOwner(nodes, id).Some? ==> forall k :: k in nodes && HasPin(nodes[k], id) ==> PinOwner(nodes, id).value <= k
  {
    assert forall k :: k in nodes && HasPin(nodes[k], id) ==> k in OwnersOf(nodes, id);
  }

  /** The first pin with `id` in ascending node order: the first matching pin of the owner. */
  function PinOf(nodes: map<nat, Node>, id: nat): (r: Option<Pin>)
    ensures r.None? <==> PinOwner(nodes, id).None?
    ensures r.Some? ==> r.value.id == id
  {
    match PinOwner(nodes, id)
    case None => None
    case Some(k) => PinWithId(nodes[k].pins, id)
  }

  /** The pin found is a pin of its owner, the first of the owner's pins that carries `id`. */
  lemma PinOfInOwner(nodes: map<nat, Node>, id: nat)
    requires PinOf(nodes, id).Some?
    ensures exists i :: 0 <= i < |nodes[PinOwner(nodes, id).value].pins|
                        && nodes[PinOwner(nodes, id).value].pins[i] == PinOf(nodes, id).value
                        && forall j :: 0 <= j < i ==> nodes[PinOwner(nodes, id).value].pins[j].id != id
  {
  }

  /** No two pins anywhere in the graph share an id. */
  ghost predicate UniquePinIds(nodes: map<nat, Node>)
  {
    forall k1, k2, i, j ::
      (k1 in nodes && k2 in nodes && 0 <= i < |nodes[k1].pins| && 0 <= j < |nodes[k2].pins|
       && nodes[k1].pins[i].id == nodes[k2].pins[j].id) ==> k1 == k2 && i == j
  }

  /** What `add_node` keeps true of a graph built through it: each node is stored under its own
      id, below the node counter, every pin id is below the pin counter and no two pins share one. */
  ghost predicate WellNumbered(nodes: map<nat, Node>, nextNodeId: nat, nextPinId: nat)
  {
    && (forall k :: k in nodes ==> nodes[k].id == k && k < nextNodeId)
    && (forall k, i :: k in nodes && 0 <= i < |nodes[k].pins| ==> nodes[k].pins[i].id < nextPinId)
    && UniquePinIds(nodes)
  }

  /** The pins of a node renumbered from `base` in order, all else kept. */
  function Renumbered(pins: seq<Pin>, base: nat): (r: seq<Pin>)
    ensures |r| == |pins|
    ensures forall i :: 0 <= i < |r| ==> r[i] == pins[i].(id := base + i)
  {
    seq(|pins|, i requires 0 <= i < |pins| => pins[i].(id := base + i))
  }

  /** Adding a renumbered node under a fresh key keeps a well-numbered graph well numbered. */
  lemma AddNodeKeepsNumbering(nodes: map<nat, Node>, nextNodeId: nat, nextPinId: nat, node: Node)
    requires WellNumbered(nodes, nextNodeId, nextPinId)
    ensures nextNodeId !in nodes
    ensures WellNumbered(nodes[nextNodeId := node.(id := nextNodeId, pins := Renumbered(node.pins, nextPinId))],
                         nextNodeId + 1, nextPinId + |node.pins|)
  {
    var added := node.(id := nextNodeId, pins := Renumbered(node.pins, nextPinId));
    var nodes' := nodes[nextNodeId := added];
    assert forall k :: k in nodes ==> nodes'[k] == nodes[k];
    assert forall i :: 0 <= i < |added.pins| ==> added.pins[i].id == nextPinId + i;
  }

  /** Whether some graph definition is called `name`. */
  predicate HasGraphNamed(graphs: seq<GraphDef>, name: string)
  {
    exists i :: 0 <= i < |graphs| && graphs[i].name == name
  }

  /** The graph list after `ensure_builtin_graphs`. */
  function WithBuiltinGraphs(graphs: seq<GraphDef>): seq<GraphDef>
  {
    graphs
    + (if HasGraphNamed(graphs, "EventGraph") then [] else [GraphDef("EventGraph", Event)])
    + (if HasGraphNamed(graphs, "ConstructionScript") then [] else [GraphDef("ConstructionScript", Construction)])
  }

  /** Afterwards both built-in graphs are present, and the old list is an untouched prefix. */
  lemma BuiltinGraphsPresent(graphs: seq<GraphDef>)
    ensures HasGraphNamed(WithBuiltinGraphs(graphs), "EventGraph")
    ensures HasGraphNamed(WithBuiltinGraphs(graphs), "ConstructionScript")
    ensures WithBuiltinGraphs(graphs)[..|graphs|] == graphs
    ensures |WithBuiltinGraphs(graphs)| <= |graphs| + 2
  {
    var r := WithBuiltinGraphs(graphs);
    assert forall i :: 0 <= i < |graphs| ==> r[i] == graphs[i];
    if !HasGraphNamed(graphs, "EventGraph") {
      assert r[|graphs|].name == "EventGraph";
    }
    if !HasGraphNamed(graphs, "ConstructionScript") {
      assert r[|r| - 1].name == "ConstructionScript";
    }
  }

  /** Running `ensure_builtin_graphs` twice is the same as once. */
  lemma BuiltinGraphsIdempotent(graphs: seq<GraphDef>)
    ensures WithBuiltinGraphs(WithBuiltinGraphs(graphs)) == WithBuiltinGraphs(graphs)
  {
    BuiltinGraphsPresent(graphs);
  }

  /** The graph list after `add_graph(name, kind)`. */
  function WithGraph(graphs: seq<GraphDef>, name: string, kind: GraphKind): seq<GraphDef>
  {
    if HasGraphNamed(graphs, name) then graphs else graphs + [GraphDef(name, kind)]
  }

  /** `add_graph` appends exactly one definition when the name is new and is a no-op otherwise;
      afterwards the name is present. */
  lemma WithGraphAppendsOnce(graphs: seq<GraphDef>, name: string, kind: GraphKind)
    ensures HasGraphNamed(graphs, name) ==> WithGraph(graphs, name, kind) == graphs
    ensures !HasGraphNamed(graphs, name) ==> WithGraph(graphs, name, kind) == graphs + [GraphDef(name, kind)]
    ensures HasGraphNamed(WithGraph(graphs, name, kind), name)
  {
    if !HasGraphNamed(graphs, name) {
      assert WithGraph(graphs, name, kind)[|graphs|].name == name;
    }
  }

  /** A read-only snapshot of a blueprint graph, which the compiler consumes. */
  datatype GraphData = GraphData(
    graphs: seq<GraphDef>,
    nodes: map<nat, Node>,
    links: seq<Link>,
    variables: seq<VariableDef>)

  /** A blueprint: its graph definitions, nodes by id, links, variables and two id counters. */
  class BlueprintGraph {
    var id: string
    var graphs: seq<GraphDef>
    var nodes: map<nat, Node>
    var links: seq<Link>
    var variables: seq<VariableDef>
    var nextNodeId: nat
    var nextPinId: nat

    function Data(): GraphData
      reads this
    {
      GraphData(graphs, nodes, links, variables)
    }

    ghost predicate Valid()
      reads this
    {
      WellNumbered(nodes, nextNodeId, nextPinId)
    }

    constructor(id: string)
      ensures this.id == id && graphs == DefaultGraphs() && nodes == map[] && links == [] && variables == []
      ensures nextNodeId == 1 && nextPinId == 1
      ensures Valid()
    {
      this.id := id;
      graphs := DefaultGraphs();
      nodes := map[];
      links := [];
      variables := [];
      nextNodeId := 1;
      nextPinId := 1;
    }

    /** Appends whichever of the two built-in graph definitions is missing. */
    method EnsureBuiltinGraphs()
      modifies this
      ensures graphs == WithBuiltinGraphs(old(graphs))
      ensures id == old(id) && nodes == old(nodes) && links == old(links) && variables == old(variables)
      ensures nextNodeId == old(nextNodeId) && nextPinId == old(nextPinId)
    {
      var hasEvent := false;
      var hasConstruction := false;
      var i := 0;
      while i < |graphs|
        invariant 0 <= i <= |graphs|
        invariant hasEvent <==> HasGraphNamed(graphs[..i], "EventGraph")
        invariant hasConstruction <==> HasGraphNamed(graphs[..i], "ConstructionScript")
      {
        assert forall j :: 0 <= j < i ==> graphs[..i + 1][j] == graphs[..i][j];
        hasEvent := hasEvent || graphs[i].name == "EventGraph";
        hasConstruction := hasConstruction || graphs[i].name == "ConstructionScript";
        i := i + 1;
      }
      assert graphs[..i] == graphs;
      if !hasEvent {
        graphs := graphs + [GraphDef("EventGraph", Event)];
      }
      if !hasConstruction {
        graphs := graphs + [GraphDef("ConstructionScript", Construction)];
      }
    }

    method AddGraph(name: string, kind: GraphKind)
      modifies this
      ensures graphs == WithGraph(old(graphs), name, kind)
      ensures id == old(id) && nodes == old(nodes) && links == old(links) && variables == old(variables)
      ensures nextNodeId == old(nextNodeId) && nextPinId == old(nextPinId)
    {
      if HasGraphNamed(graphs, name) {
        return;
      }
      graphs := graphs + [GraphDef(name, kind)];
    }

    /** Stores `node` under the next node id, renumbering its pins from the pin counter. */
    method AddNode(node: Node) returns (nodeId: nat)
      modifies this
      ensures nodeId == old(nextNodeId) && nextNodeId == old(nextNodeId) + 1
      ensures nextPinId == old(nextPinId) + |node.pins|
      ensures nodes == old(nodes)[nodeId := node.(id := nodeId, pins := Renumbered(node.pins, old(nextPinId)))]
      ensures id == old(id) && graphs == old(graphs) && links == old(links) && variables == old(variables)
      ensures old(Valid()) ==> Valid()
    {
      ghost var oldNodes, oldPin := nodes, nextPinId;
      if old(Valid()) {
        AddNodeKeepsNumbering(oldNodes, nextNodeId, oldPin, node);
      }
      nodeId := nextNodeId;
      nextNodeId := nextNodeId + 1;
      var pins := node.pins;
      var i := 0;
      while i < |pins|
        invariant 0 <= i <= |pins| == |node.pins|
        invariant nextPinId == oldPin + i
        invariant nodeId == old(nextNodeId) && nextNodeId == nodeId + 1 && nodes == old(nodes)
        invariant id == old(id) && graphs == old(graphs) && links == old(links) && variables == old(variables)
        invariant forall j :: 0 <= j < i ==> pins[j] == node.pins[j].(id := oldPin + j)
        invariant forall j :: i <= j < |pins| ==> pins[j] == node.pins[j]
      {
        pins := pins[i := pins[i].(id := nextPinId)];
        nextPinId := nextPinId + 1;
        i := i + 1;
      }
      assert pins == Renumbered(node.pins, oldPin);
      nodes := nodes[nodeId := node.(id := nodeId, pins := pins)];
    }

    method AddLink(link: Link)
      modifies this
      ensures links == old(links) + [link]
      ensures id == old(id) && graphs == old(graphs) && nodes == old(nodes) && variables == old(variables)
      ensures nextNodeId == old(nextNodeId) && nextPinId == old(nextPinId)
    {
      links := links + [link];
    }
  }
}
