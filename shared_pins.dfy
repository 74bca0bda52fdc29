/** Two nodes that carry the same pin id. Validation attributes a pin id to
    the lowest node that has it, the interpreter to the lowest node whose
    compiled pin table has it; for a shared id these differ from what the
    link means at run time. The graph below passes every check, yet its run
    from BeginPlay hands control from the second Print node back to itself
    forever. The corrected compile also rejects shared pin ids, and every
    graph it accepts runs to an end. */
module SharedPins {
  import opened Util
  import opened Model
  import opened Errors
  import opened Compile
  import opened Digraph
  import opened Interpret
  import opened ExecSafety

  const Origin: (real, real) := (0.0, 0.0)

  /** Print node 1: exec input 10, then output 11. */
  const First := Node(1, BuiltinNodeKind.Print, "EventGraph", Origin,
    [Pin(10, "exec", Input, DataType.Exec), Pin(11, "then", Output, DataType.Exec)], map[])

  /** Print node 2: exec input 20, and a then output that reuses pin id 11. */
  const Second := Node(2, BuiltinNodeKind.Print, "EventGraph", Origin,
    [Pin(20, "exec", Input, DataType.Exec), Pin(11, "then", Output, DataType.Exec)], map[])

  /** BeginPlay node 3: then output 30. */
  const Start := Node(3, BeginPlay, "EventGraph", Origin, [Pin(30, "then", Output, DataType.Exec)], map[])

  /** BeginPlay feeds node 1, and pin 11 feeds node 2. */
  const Shared := GraphData(DefaultGraphs(), map[1 := First, 2 := Second, 3 := Start],
    [Link(30, 10), Link(11, 20)], [])

  lemma SharedNodes()
    ensures Shared.nodes.Keys == {1, 2, 3}
    ensures Shared.nodes[1] == First && Shared.nodes[2] == Second && Shared.nodes[3] == Start
  {
  }

  lemma OnlyOwner(id: nat, k: nat, i: nat)
    requires k in Shared.nodes && i < |Shared.nodes[k].pins| && Shared.nodes[k].pins[i].id == id
    requires forall k' :: k' in Shared.nodes && k' != k ==> !HasPin(Shared.nodes[k'], id)
    ensures PinOwner(Shared.nodes, id) == Some(k)
  {
    assert HasPin(Shared.nodes[k], id);
    assert OwnersOf(Shared.nodes, id) == {k};
  }

  lemma LowestOwner(id: nat)
    requires HasPin(First, id)
    ensures PinOwner(Shared.nodes, id) == Some(1)
  {
    SharedNodes();
    assert 1 in OwnersOf(Shared.nodes, id);
  }

  lemma Owner10()
    ensures PinOwner(Shared.nodes, 10) == Some(1) && PinOf(Shared.nodes, 10) == Some(First.pins[0])
  {
    SharedNodes();
    assert First.pins[0].id == 10;
    LowestOwner(10);
    assert PinWithId(First.pins, 10) == Some(First.pins[0]);
  }

  lemma Owner11()
    ensures PinOwner(Shared.nodes, 11) == Some(1) && PinOf(Shared.nodes, 11) == Some(First.pins[1])
  {
    SharedNodes();
    assert First.pins[0].id == 10 && First.pins[1].id == 11;
    LowestOwner(11);
    assert PinWithId(First.pins, 11) == Some(First.pins[1]);
  }

  lemma Owner20()
    ensures PinOwner(Shared.nodes, 20) == Some(2) && PinOf(Shared.nodes, 20) == Some(Second.pins[0])
  {
    SharedNodes();
    assert Second.pins[0].id == 20 && Second.pins[1].id == 11;
    OnlyOwner(20, 2, 0);
    assert PinWithId(Second.pins, 20) == Some(Second.pins[0]);
  }

  lemma Owner30()
    ensures PinOwner(Shared.nodes, 30) == Some(3) && PinOf(Shared.nodes, 30) == Some(Start.pins[0])
  {
    SharedNodes();
    assert |Start.pins| == 1 && Start.pins[0].id == 30;
    OnlyOwner(30, 3, 0);
    assert PinWithId(Start.pins, 30) == Some(Start.pins[0]);
  }

  /** The pins of the graph and the node validation attributes each to. */
  lemma SharedOwners()
    ensures PinOwner(Shared.nodes, 10) == Some(1) && PinOf(Shared.nodes, 10) == Some(First.pins[0])
    ensures PinOwner(Shared.nodes, 11) == Some(1) && PinOf(Shared.nodes, 11) == Some(First.pins[1])
    ensures PinOwner(Shared.nodes, 20) == Some(2) && PinOf(Shared.nodes, 20) == Some(Second.pins[0])
    ensures PinOwner(Shared.nodes, 30) == Some(3) && PinOf(Shared.nodes, 30) == Some(Start.pins[0])
  {
    Owner10();
    Owner11();
    Owner20();
    Owner30();
  }

  lemma SharedStartLinkPasses()
    ensures LinkError(Shared, Link(30, 10)).None?
  {
    Owner30();
    Owner10();
  }

  lemma SharedSharedLinkPasses()
    ensures LinkError(Shared, Link(11, 20)).None?
  {
    Owner11();
    Owner20();
  }

  lemma SharedLinksPass()
    ensures FirstLinkError(Shared, Shared.links).None?
  {
    SharedStartLinkPasses();
    SharedSharedLinkPasses();
    FirstLinkErrorFirst(Shared, Shared.links);
  }

  lemma SharedInCounts()
    ensures InCount(Shared.links, 10) == 1 && InCount(Shared.links, 20) == 1
  {
    var l1 := [Link(30, 10)];
    assert Shared.links[..1] == l1 && l1[..0] == [];
    assert InCount(l1, 10) == 1 && InCount(l1, 20) == 0;
  }

  lemma SharedTargetsKnown()
    ensures FirstUnknownTo(Shared, Shared.links).None?
  {
    Owner10();
    Owner20();
  }

  lemma SharedFanInPasses()
    ensures FanInError(Shared).None?
  {
    SharedTargetsKnown();
    SharedInCounts();
    forall p | p in ToPins(Shared.links) ensures InCount(Shared.links, p) == 1 {
      var i :| 0 <= i < |Shared.links| && Shared.links[i].to == p;
    }
    assert OverfedExecPins(Shared) == {};
  }

  /** Link 30 -> 10 adds the edge 3 -> 1. */
  lemma SharedFirstEdge()
    ensures AdjacencyStep(Shared, map[], Link(30, 10)) == Ok(map[3 := [1]])
  {
    Owner30();
    Owner10();
    var none: seq<nat> := [];
    assert none + [1] == [1];
  }

  /** Link 11 -> 20 adds the edge 1 -> 2. */
  lemma SharedSecondEdge()
    ensures AdjacencyStep(Shared, map[3 := [1]], Link(11, 20)) == Ok(map[3 := [1], 1 := [2]])
  {
    Owner11();
    Owner20();
    var none: seq<nat> := [];
    assert none + [2] == [2];
  }

  /** The exec adjacency validation builds: 3 -> 1 (link 30 -> 10) and 1 -> 2 (link 11 -> 20). */
  lemma SharedAdjacency()
    ensures AdjacencyOf(Shared, Shared.links) == Ok(map[3 := [1], 1 := [2]])
  {
    var l1 := [Link(30, 10)];
    assert Shared.links[..1] == l1 && l1[..0] == [];
    SharedFirstEdge();
    assert AdjacencyOf(Shared, l1) == Ok(map[3 := [1]]);
    SharedSecondEdge();
  }

  lemma SharedAcyclic()
    ensures CycleError(Shared, map[3 := [1], 1 := [2]]).None?
  {
    var adj: Adjacency := map[3 := [1], 1 := [2]];
    var G := AdjGraph(adj);
    var rank := map[2 := 0, 1 := 1, 3 := 2];
    assert forall a :: a in G <==> a == 1 || a == 3;
    assert forall b :: b in G[3] ==> b == 1;
    assert forall b :: b in G[1] ==> b == 2;
    assert Ranked(G, rank);
    forall r | r in Shared.nodes.Keys ensures !ReachesCycle(G, r) {
      SharedNodes();
      RankedNoCycle(G, rank, r);
    }
    assert CycleNodes(Shared, adj) == {};
  }

  lemma SharedCyclePasses()
    ensures ExecCycleError(Shared).None?
  {
    SharedAdjacency();
    SharedAcyclic();
  }

  lemma SharedVariableNodesPass()
    ensures UnknownVariableError(Shared).None?
  {
    SharedNodes();
  }

  /** The graph passes every check of validation. */
  lemma SharedValidates()
    ensures Validation(Shared).None?
  {
    SharedLinksPass();
    SharedFanInPasses();
    SharedVariableNodesPass();
    SharedCyclePasses();
  }

  /** Both links leave an exec pin. */
  lemma SharedFlags()
    ensures ExecFlags(Shared, Shared.links) == [true, true]
  {
    Owner30();
    Owner11();
  }

  /** Both links leave an exec pin, so both become exec edges. */
  lemma SharedExecEdges()
    ensures EdgeMaps(Shared.links, ExecFlags(Shared, Shared.links)).0 == map[30 := 10, 11 := 20]
  {
    SharedFlags();
    var l1 := [Link(30, 10)];
    assert Shared.links[..1] == l1 && l1[..0] == [] && [true, true][..1] == [true] && [true][..0] == [];
    assert EdgeMaps(l1, [true]).0 == map[30 := 10];
  }

  /** The pin tables of the three compiled nodes: node 2 keeps its then output as pin 11. */
  ghost predicate SharedTables(nodes: map<nat, CompiledNode>)
  {
    && nodes.Keys == {1, 2, 3}
    && nodes[1].kind == BuiltinNodeKind.Print && nodes[2].kind == BuiltinNodeKind.Print && nodes[3].kind == BeginPlay
    && nodes[1].pins == map["exec" := CompiledPin(10, Input, DataType.Exec), "then" := CompiledPin(11, Output, DataType.Exec)]
    && nodes[2].pins == map["exec" := CompiledPin(20, Input, DataType.Exec), "then" := CompiledPin(11, Output, DataType.Exec)]
    && nodes[3].pins == map["then" := CompiledPin(30, Output, DataType.Exec)]
  }

  lemma SharedPinTables()
    ensures SharedTables(LowerNodes(Shared))
  {
    SharedNodes();
    assert First.pins[..1] == [First.pins[0]] && [First.pins[0]][..0] == [];
    assert Second.pins[..1] == [Second.pins[0]] && [Second.pins[0]][..0] == [];
    assert Start.pins[..0] == [];
  }

  /** The interpreter attributes pin 10 to node 1 and pin 20 to node 2. */
  lemma SharedRuntimeOwners(c: CompiledGraph)
    requires SharedTables(c.nodes)
    ensures OwnerOf(c, 10) == Some(1) && OwnerOf(c, 20) == Some(2)
  {
    var p1 := c.nodes[1].pins;
    assert p1["exec"].id == 10 && c.nodes[2].pins["exec"].id == 20;
    assert TableHolds(c.nodes[1], 10) && TableHolds(c.nodes[2], 20);
    assert forall name :: name in p1 ==> p1[name].id != 20;
    assert !TableHolds(c.nodes[1], 20);
  }

  /** The compiled graph: BeginPlay node 3 is the entry, both links are exec edges, and the pin
      tables are those above. */
  lemma SharedCompiled() returns (c: CompiledGraph)
    ensures CompileSpec(Shared) == Ok(c)
    ensures c.beginPlayEntry == Some(3)
    ensures SharedTables(c.nodes) && c.execEdges == map[30 := 10, 11 := 20]
  {
    SharedValidates();
    ValidatedCompiles(Shared);
    c := CompileSpec(Shared).value;
    CompiledParts(Shared, c);
    SharedExecEdges();
    SharedPinTables();
    SharedEntry();
  }

  lemma SharedEntry()
    ensures FindEntry(Shared, BeginPlay) == Some(3)
  {
    SharedNodes();
    assert Shared.nodes[3].kind == BeginPlay;
    assert Shared.nodes[1].kind != BeginPlay && Shared.nodes[2].kind != BeginPlay;
  }

  /** The hand-overs of the run: BeginPlay (node 3) leads to node 1, node 1 to node 2, and
      node 2, whose then output is pin 11 and so follows link 11 -> 20, to node 2 again. */
  lemma SharedHandOvers(c: CompiledGraph)
    requires SharedTables(c.nodes) && c.execEdges == map[30 := 10, 11 := 20]
    ensures NextExec(c, 3, "then") == Some(10) && OwnerOf(c, 10) == Some(1)
    ensures NextExec(c, 1, "then") == Some(20) && OwnerOf(c, 20) == Some(2)
    ensures NextExec(c, 2, "then") == Some(20)
  {
    SharedRuntimeOwners(c);
  }

  /** Node 2 hands control to itself, whatever the script engine and the variables. */
  lemma SharedSelfStep(c: CompiledGraph)
    requires SharedTables(c.nodes) && c.execEdges == map[30 := 10, 11 := 20]
    ensures forall engine: ScriptEngine, store :: Step(c, engine, store, 2, c.nodes[2]).next == Some(20)
    ensures Edge(StepGraph(c), 2, 2)
  {
    SharedHandOvers(c);
    assert StepEdge(c, 2, 2);
  }

  /** As written: the compiler accepts the graph, yet node 2 hands control to itself, so the
      interpreter's loop, once it reaches node 2, never ends. */
  lemma SharedPinIdLoops() returns (c: CompiledGraph)
    ensures CompileSpec(Shared) == Ok(c)
    ensures Edge(StepGraph(c), 2, 2)
    ensures forall engine: ScriptEngine, store :: Step(c, engine, store, 2, c.nodes[2]).next == Some(20)
    ensures !Terminating(c)
  {
    c := SharedCompiled();
    SharedSelfStep(c);
    SelfLoopCyclic(StepGraph(c), 2);
  }

  /** Why a compile was refused: a validation error, or two pins that share an id. */
  datatype Refusal = Invalid(error: CompileError) | SharedPinId

  /** Compile with the missing check: pin ids must be unique graph-wide before the rest runs. */
  ghost function CheckedCompile(g: GraphData): Result<CompiledGraph, Refusal>
  {
    if !UniquePinIds(g.nodes) then Err(SharedPinId)
    else
      match CompileSpec(g)
      case Err(e) => Err(Invalid(e))
      case Ok(c) => Ok(c)
  }

  /** Corrected: every graph the checked compile accepts runs to an end on the interpreter, and
      the checked compile refuses the graph above. */
  lemma CheckedCompileTerminates(g: GraphData)
    ensures CheckedCompile(g).Ok? ==> Terminating(CheckedCompile(g).value)
    ensures CheckedCompile(Shared) == Err(SharedPinId)
  {
    if CheckedCompile(g).Ok? {
      CompiledRunsTerminate(g, CheckedCompile(g).value);
    }
    assert Shared.nodes[1].pins[1].id == Shared.nodes[2].pins[1].id;
  }

  /** On graphs without shared pin ids the checked compile is the compile as written; graphs built
      through `add_node` never share one. */
  lemma CheckedCompileAgrees(g: GraphData, nextNodeId: nat, nextPinId: nat)
    ensures UniquePinIds(g.nodes) ==> (CheckedCompile(g).Ok? <==> CompileSpec(g).Ok?)
    ensures UniquePinIds(g.nodes) && CompileSpec(g).Ok? ==> CheckedCompile(g).value == CompileSpec(g).value
    ensures WellNumbered(g.nodes, nextNodeId, nextPinId) ==> CheckedCompile(g).Ok? == CompileSpec(g).Ok?
  {
  }
}
