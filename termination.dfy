/** Why the interpreter's runs end: for a graph whose pin ids are unique, every
    hand-over the interpreter can make between compiled nodes is an edge of the
    exec adjacency that the compiler's cycle check proved acyclic. Without unique
    ids the two disagree about who owns a pin, and a graph can pass validation
    and still hand control from a node back to itself. */
module ExecSafety {
  import opened Util
  import opened Model
  import opened Errors
  import opened Compile
  import opened Digraph
  import opened Interpret

  /** With unique pin ids, a pin of a node's compiled pin table is owned by that node. */
  lemma TableEntryOwned(g: GraphData, k: nat, name: string)
    requires UniquePinIds(g.nodes) && k in g.nodes && name in LowerNodes(g)[k].pins
    ensures PinOwner(g.nodes, LowerNodes(g)[k].pins[name].id) == Some(k)
  {
    var node := g.nodes[k];
    PinTableEntries(g.variables, node, node.pins, name);
    var i :| 0 <= i < |node.pins| && node.pins[i].name == name
             && PinTable(g.variables, node, node.pins)[name] == CompiledPinOf(g.variables, node, node.pins[i])
             && forall j :: i < j < |node.pins| ==> node.pins[j].name != name;
    UniquePinLookup(g.nodes, k, i);
  }

  /** What a successful compile consists of. */
  lemma CompiledParts(g: GraphData, c: CompiledGraph)
    requires CompileSpec(g) == Ok(c)
    ensures Validation(g).None?
    ensures AdjacencyOf(g, g.links).Ok?
    ensures c.nodes == LowerNodes(g) && c.beginPlayEntry == FindEntry(g, BeginPlay)
    ensures c.execEdges == EdgeMaps(g.links, ExecFlags(g, g.links)).0
    ensures CycleError(g, AdjacencyOf(g, g.links).value).None?
  {
    assert Validation(g).None?;
    ValidationPassesCycleCheck(g);
    FirstLinkErrorFirst(g, g.links);
    forall i | 0 <= i < |g.links| ensures PinOf(g.nodes, g.links[i].from).Some? && PinOf(g.nodes, g.links[i].to).Some? {
      assert LinkError(g, g.links[i]).None?;
    }
    LowerLinksOk(g, g.links);
  }

  /** Passing validation includes building the adjacency and passing the cycle check on it. */
  lemma ValidationPassesCycleCheck(g: GraphData)
    requires Validation(g).None?
    ensures AdjacencyOf(g, g.links).Ok? && CycleError(g, AdjacencyOf(g, g.links).value).None?
  {
    ValidatedLinksResolve(g);
    assert ExecCycleError(g).None?;
  }

  /** Each hand-over of the interpreter runs along an exec link, from the node that owns its from
      pin to the node that owns its to pin, so it is an edge of the compiler's adjacency. */
  lemma StepIsAdjacency(g: GraphData, c: CompiledGraph, adj: Adjacency, a: nat, b: nat)
    requires UniquePinIds(g.nodes) && AdjacencyOf(g, g.links) == Ok(adj)
    requires c.nodes == LowerNodes(g) && c.execEdges == EdgeMaps(g.links, ExecFlags(g, g.links)).0
    requires Edge(StepGraph(c), a, b)
    ensures Edge(AdjGraph(adj), a, b)
  {
    var flags := ExecFlags(g, g.links);
    assert StepEdge(c, a, b);
    var name :| NextExec(c, a, name).Some? && OwnerOf(c, NextExec(c, a, name).value) == Some(b);
    var o := c.nodes[a].pins[name].id;
    var t := c.execEdges[o];
    TableEntryOwned(g, a, name);
    EdgeMapsExecValue(g.links, flags, o);
    var j :| 0 <= j < |g.links| && flags[j] && g.links[j].from == o && g.links[j].to == t;
    AdjacencyLinkEdge(g, g.links, adj, j);
    var name' :| name' in c.nodes[b].pins && c.nodes[b].pins[name'].id == t;
    TableEntryOwned(g, b, name');
    var x :| 0 <= x < |adj[a]| && adj[a][x] == b;
    assert b in AdjGraph(adj)[a];
  }

  /** Every graph that compiles and whose pin ids are unique yields a compiled graph on which each
      run of the interpreter ends, entering each node at most once. */
  lemma CompiledRunsTerminate(g: GraphData, c: CompiledGraph)
    requires CompileSpec(g) == Ok(c) && UniquePinIds(g.nodes)
    ensures Terminating(c)
  {
    CompiledParts(g, c);
    var adj := AdjacencyOf(g, g.links).value;
    AdjacencyWithin(g, g.links, adj);
    CycleCheckExact(g, adj);
    forall a, b | Edge(StepGraph(c), a, b) ensures Edge(AdjGraph(adj), a, b) {
      StepIsAdjacency(g, c, adj, a, b);
    }
    AcyclicSub(StepGraph(c), AdjGraph(adj));
  }
}
