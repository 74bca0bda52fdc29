/** The compiler: an ordered, short-circuiting validation of a blueprint graph,
    followed by lowering into a `CompiledGraph` (variable defaults, per-node pin
    tables, exec edges keyed by output pin, data edges keyed by input pin and
    the three entry slots). Each validation step and each lowering loop is a
    method proved equal to a specification function; what `validate` and
    `compile` promise is stated as lemmas about those functions. */
module Compile {
  import opened Util
  import opened Model
  import opened Errors
  import opened Digraph

  datatype CompiledPin = CompiledPin(id: nat, direction: PinDirection, dataType: DataType)

  datatype CompiledNode = CompiledNode(
    kind: BuiltinNodeKind,
    properties: map<string, Value>,
    pins: map<string, CompiledPin>)

  datatype CompiledGraph = CompiledGraph(
    beginPlayEntry: Option<nat>,
    constructionEntry: Option<nat>,
    tickEntry: Option<nat>,
    variables: map<string, Value>,
    nodes: map<nat, CompiledNode>,
    execEdges: map<nat, nat>,
    dataEdges: map<nat, nat>)

  /** The pin-table entry called `name`, if any. */
  function NodePin(n: CompiledNode, name: string): (r: Option<CompiledPin>)
    ensures r.Some? <==> name in n.pins
    ensures r.Some? ==> r.value == n.pins[name]
  {
    if name in n.pins then Some(n.pins[name]) else None
  }

  // ---------------------------------------------------------------------
  // Effective pin types

  /** The first variable declared with `name`. */
  function FindVariable(vars: seq<VariableDef>, name: string): (r: Option<VariableDef>)
    ensures r.None? <==> forall i :: 0 <= i < |vars| ==> vars[i].name != name
    ensures r.Some? ==> exists i :: 0 <= i < |vars| && vars[i] == r.value && r.value.name == name
                                    && forall j :: 0 <= j < i ==> vars[j].name != name
  {
    if |vars| == 0 then None
    else if vars[0].name == name then Some(vars[0])
    else
      var r := FindVariable(vars[1..], name);
      assert forall j :: 0 <= j < |vars| - 1 ==> vars[1..][j] == vars[j + 1];
      r
  }

  /** The node's `"name"` property, when it is a string. */
  function NameProperty(props: map<string, Value>): (r: Option<string>)
    ensures r.Some? <==> "name" in props && props["name"].String?
    ensures r.Some? ==> props["name"] == Value.String(r.value)
  {
    if "name" in props && props["name"].String? then Some(props["name"].s) else None
  }

  predicate IsVariableNode(kind: BuiltinNodeKind)
  {
    kind == GetVariable || kind == SetVariable
  }

  /** The type of the variable a variable node names, if it names a declared one. */
  function NamedVariableType(vars: seq<VariableDef>, node: Node): Option<DataType>
  {
    match NameProperty(node.properties)
    case None => None
    case Some(name) =>
      match FindVariable(vars, name)
      case None => None
      case Some(v) => Some(v.dataType)
  }

  /** The type a pin really carries: the `"value"` pin of a Get/SetVariable node takes the type of
      the variable it names when that variable is declared; every other pin keeps its template type. */
  function EffectiveType(vars: seq<VariableDef>, node: Node, pin: Pin): (t: DataType)
    ensures !(IsVariableNode(node.kind) && pin.name == "value") ==> t == pin.dataType
    ensures IsVariableNode(node.kind) && pin.name == "value" && NamedVariableType(vars, node).Some?
            ==> t == NamedVariableType(vars, node).value
    ensures NamedVariableType(vars, node).None? ==> t == pin.dataType
  {
    if IsVariableNode(node.kind) && pin.name == "value" then
      match NamedVariableType(vars, node)
      case Some(t) => t
      case None => pin.dataType
    else
      pin.dataType
  }

  /** The effective type of the pin with `id`, looked up through its lowest-id owner. */
  function ActualPinType(g: GraphData, id: nat): (r: Option<DataType>)
    ensures r.None? <==> PinOf(g.nodes, id).None?
    ensures r.Some? ==> r.value == EffectiveType(g.variables, g.nodes[PinOwner(g.nodes, id).value], PinOf(g.nodes, id).value)
  {
    match PinOf(g.nodes, id)
    case None => None
    case Some(pin) =>
      match PinOwner(g.nodes, id)
      case None => None
      case Some(k) => Some(EffectiveType(g.variables, g.nodes[k], pin))
  }

  function TypeOr(t: Option<DataType>, fallback: DataType): DataType
  {
    match t
    case Some(x) => x
    case None => fallback
  }

  // ---------------------------------------------------------------------
  // Validation, step 1: variable names

  ghost predicate UniqueNames(vars: seq<VariableDef>)
  {
    forall i, j :: 0 <= i < j < |vars| ==> vars[i].name != vars[j].name
  }

  /** Scans the variables with a growing set of seen names; false at the first repeat. */
  method CheckUniqueVariables(vars: seq<VariableDef>) returns (unique: bool)
    ensures unique <==> UniqueNames(vars)
  {
    var seen: set<string> := {};
    for i := 0 to |vars|
      invariant seen == set j | 0 <= j < i :: vars[j].name
      invariant forall a, b :: 0 <= a < b < i ==> vars[a].name != vars[b].name
    {
      if vars[i].name in seen {
        ghost var j :| 0 <= j < i && vars[j].name == vars[i].name;
        return false;
      }
      seen := seen + {vars[i].name};
    }
    return true;
  }

  // ---------------------------------------------------------------------
  // Validation, step 2: each link in list order

  /** The per-link checks in `validate`'s order: unknown from pin, unknown to pin, cross-graph link,
      direction, effective type. */
  function LinkError(g: GraphData, l: Link): Option<CompileError>
  {
    match PinOf(g.nodes, l.from)
    case None => Some(WithPin(New(UnknownPin), l.from))
    case Some(fromPin) =>
      match PinOf(g.nodes, l.to)
      case None => Some(WithPin(New(UnknownPin), l.to))
      case Some(toPin) =>
        var fromNode := PinOwner(g.nodes, l.from).value;
        var toNode := PinOwner(g.nodes, l.to).value;
        if g.nodes[fromNode].graph != g.nodes[toNode].graph then
          Some(WithPin(WithPin(WithNode(WithNode(New(CrossGraphLink), fromNode), toNode), l.from), l.to))
        else if fromPin.direction != Output || toPin.direction != Input then
          Some(WithPin(WithPin(New(DirectionMismatch), l.from), l.to))
        else if TypeOr(ActualPinType(g, l.from), fromPin.dataType) != TypeOr(ActualPinType(g, l.to), toPin.dataType) then
          Some(WithPin(WithPin(New(TypeMismatch), l.from), l.to))
        else
          None
  }

  /** The first present entry of a sequence of per-item results. */
  function FirstSome<T>(rs: seq<Option<T>>): (r: Option<T>)
    ensures r.None? <==> forall i :: 0 <= i < |rs| ==> rs[i].None?
    ensures r.Some? ==> exists i :: 0 <= i < |rs| && rs[i] == r && forall j :: 0 <= j < i ==> rs[j].None?
  {
    if |rs| == 0 then None
    else if rs[0].Some? then rs[0]
    else
      var r := FirstSome(rs[1..]);
      assert forall j :: 0 <= j < |rs| - 1 ==> rs[1..][j] == rs[j + 1];
      r
  }

  /** The first present entry is the one at the first index holding one. */
  lemma {:induction false} FirstSomeAt<T>(rs: seq<Option<T>>, i: nat)
    requires i < |rs| && rs[i].Some? && forall j :: 0 <= j < i ==> rs[j].None?
    ensures FirstSome(rs) == rs[i]
    decreases i
  {
    if i > 0 {
      assert rs[0].None?;
      assert forall j :: 0 <= j < i - 1 ==> rs[1..][j] == rs[j + 1];
      FirstSomeAt(rs[1..], i - 1);
    }
  }

  /** A prefix with no present entry stays so when the next entry is absent too. */
  lemma FirstSomeExtend<T>(rs: seq<Option<T>>, i: nat)
    requires i < |rs| && FirstSome(rs[..i]).None? && rs[i].None?
    ensures FirstSome(rs[..i + 1]).None?
  {
    assert forall j :: 0 <= j < i ==> rs[..i + 1][j] == rs[..i][j];
  }

  /** After a prefix with no present entry, a present next entry is the first one. */
  lemma FirstSomeStops<T>(rs: seq<Option<T>>, i: nat)
    requires i < |rs| && FirstSome(rs[..i]).None? && rs[i].Some?
    ensures FirstSome(rs) == rs[i]
  {
    assert forall j :: 0 <= j < i ==> rs[j] == rs[..i][j];
    FirstSomeAt(rs, i);
  }

  function LinkErrors(g: GraphData, links: seq<Link>): (rs: seq<Option<CompileError>>)
    ensures |rs| == |links|
  {
    seq(|links|, i requires 0 <= i < |links| => LinkError(g, links[i]))
  }

  /** The error of the first failing link: not the first rule over the whole graph. */
  function FirstLinkError(g: GraphData, links: seq<Link>): Option<CompileError>
  {
    FirstSome(LinkErrors(g, links))
  }

  /** No link fails exactly when there is no first error; otherwise the error is that of a failing
      link all of whose predecessors pass. */
  lemma FirstLinkErrorFirst(g: GraphData, links: seq<Link>)
    ensures FirstLinkError(g, links).None? <==> forall i :: 0 <= i < |links| ==> LinkError(g, links[i]).None?
    ensures FirstLinkError(g, links).Some? ==>
              exists i :: 0 <= i < |links| && LinkError(g, links[i]) == FirstLinkError(g, links)
                          && forall j :: 0 <= j < i ==> LinkError(g, links[j]).None?
  {
    var rs := LinkErrors(g, links);
    assert forall i :: 0 <= i < |links| ==> rs[i] == LinkError(g, links[i]);
  }

  /** The checks of one link, in `validate`'s order. */
  method CheckLink(g: GraphData, l: Link) returns (r: Option<CompileError>)
    ensures r == LinkError(g, l)
  {
    var fromPin := PinOf(g.nodes, l.from);
    if fromPin.None? {
      return Some(WithPin(New(UnknownPin), l.from));
    }
    var toPin := PinOf(g.nodes, l.to);
    if toPin.None? {
      return Some(WithPin(New(UnknownPin), l.to));
    }
    var fromOwner, toOwner := PinOwner(g.nodes, l.from), PinOwner(g.nodes, l.to);
    if fromOwner.Some? && toOwner.Some? {
      var fromGraph := if fromOwner.value in g.nodes then g.nodes[fromOwner.value].graph else "EventGraph";
      var toGraph := if toOwner.value in g.nodes then g.nodes[toOwner.value].graph else "EventGraph";
      if fromGraph != toGraph {
        return Some(WithPin(WithPin(WithNode(WithNode(New(CrossGraphLink), fromOwner.value), toOwner.value), l.from), l.to));
      }
    }
    if fromPin.value.direction != Output || toPin.value.direction != Input {
      return Some(WithPin(WithPin(New(DirectionMismatch), l.from), l.to));
    }
    var fromType := TypeOr(ActualPinType(g, l.from), fromPin.value.dataType);
    var toType := TypeOr(ActualPinType(g, l.to), toPin.value.dataType);
    if fromType != toType {
      return Some(WithPin(WithPin(New(TypeMismatch), l.from), l.to));
    }
    return None;
  }

  /** Checks the links in list order and stops at the first failing one. */
  method CheckLinks(g: GraphData) returns (r: Option<CompileError>)
    ensures r == FirstSome(LinkErrors(g, g.links))
  {
    ghost var errs := LinkErrors(g, g.links);
    for i := 0 to |g.links|
      invariant forall j :: 0 <= j < i ==> errs[j].None?
    {
      r := CheckLink(g, g.links[i]);
      assert r == errs[i];
      if r.Some? {
        FirstSomeAt(errs, i);
        return;
      }
    }
    return None;
  }

  // ---------------------------------------------------------------------
  // Validation, step 3: exec fan-in

  /** Whether the pin with `id` exists and its template type is `Exec`. */
  predicate IsExecPin(g: GraphData, id: nat)
  {
    PinOf(g.nodes, id).Some? && PinOf(g.nodes, id).value.dataType == DataType.Exec
  }

  /** How many of the links end at `p`. */
  function InCount(links: seq<Link>, p: nat): nat
  {
    if |links| == 0 then 0
    else InCount(links[..|links| - 1], p) + (if links[|links| - 1].to == p then 1 else 0)
  }

  function ToPins(links: seq<Link>): set<nat>
  {
    set i | 0 <= i < |links| :: links[i].to
  }

  /** Per link, its to pin when that pin does not exist. */
  function UnknownTargets(g: GraphData, links: seq<Link>): (rs: seq<Option<nat>>)
    ensures |rs| == |links|
    ensures forall i :: 0 <= i < |links| ==> rs[i] == (if PinOf(g.nodes, links[i].to).None? then Some(links[i].to) else None)
  {
    seq(|links|, i requires 0 <= i < |links| => if PinOf(g.nodes, links[i].to).None? then Some(links[i].to) else None)
  }

  /** The first link (in list order) whose to pin does not exist. */
  function FirstUnknownTo(g: GraphData, links: seq<Link>): (r: Option<nat>)
    ensures r.None? <==> forall i :: 0 <= i < |links| ==> PinOf(g.nodes, links[i].to).Some?
    ensures r.Some? ==> exists i :: 0 <= i < |links| && links[i].to == r.value && PinOf(g.nodes, r.value).None?
                                    && forall j :: 0 <= j < i ==> PinOf(g.nodes, links[j].to).Some?
  {
    var rs := UnknownTargets(g, links);
    assert forall i :: 0 <= i < |links| ==> (rs[i].None? <==> PinOf(g.nodes, links[i].to).Some?);
    FirstSome(rs)
  }

  /** The to pins of the links that are exec pins. */
  function ExecTargets(g: GraphData): set<nat>
  {
    set p | p in ToPins(g.links) && IsExecPin(g, p)
  }

  lemma ExecTargetAt(g: GraphData, i: nat)
    requires i < |g.links|
    ensures g.links[i].to in ExecTargets(g) <==> IsExecPin(g, g.links[i].to)
  {
    assert g.links[i].to in ToPins(g.links);
  }

  /** The exec inputs that receive two or more links. */
  function OverfedExecPins(g: GraphData): set<nat>
  {
    set p | p in ExecTargets(g) && InCount(g.links, p) > 1
  }

  function OrZero(o: Option<nat>): nat
  {
    match o
    case Some(k) => k
    case None => 0
  }

  /** Step 3: an unknown to pin (re-checked in list order), else the smallest over-fed exec input,
      reported with the pin and its owner (node 0 when it has none). */
  function FanInError(g: GraphData): Option<CompileError>
  {
    match FirstUnknownTo(g, g.links)
    case Some(p) => Some(WithPin(New(UnknownPin), p))
    case None =>
      var over := OverfedExecPins(g);
      if over == {} then None
      else
        var p := SetMin(over);
        Some(WithNode(WithPin(New(MultipleExecInputs), p), OrZero(PinOwner(g.nodes, p))))
  }

  lemma {:induction false} InCountPositive(links: seq<Link>, p: nat)
    requires InCount(links, p) > 0
    ensures p in ToPins(links)
    decreases |links|
  {
    var n := |links| - 1;
    if InCount(links[..n], p) > 0 {
      InCountPositive(links[..n], p);
      var i :| 0 <= i < n && links[..n][i].to == p;
      assert links[i].to == p;
    } else {
      assert links[n].to == p;
    }
  }

  lemma {:induction false} InCountZero(links: seq<Link>, p: nat)
    requires forall j :: 0 <= j < |links| ==> links[j].to != p
    ensures InCount(links, p) == 0
    decreases |links|
  {
    if |links| > 0 {
      var n := |links| - 1;
      assert forall j :: 0 <= j < n ==> links[..n][j] == links[j];
      InCountZero(links[..n], p);
    }
  }

  /** Extending the counted prefix by one link adds one to the count of its to pin only. */
  lemma InCountStep(links: seq<Link>, i: nat)
    requires i < |links|
    ensures forall p :: InCount(links[..i + 1], p) == InCount(links[..i], p) + (if links[i].to == p then 1 else 0)
  {
    assert links[..i + 1][..i] == links[..i];
  }

  /** The keys counted more than once. */
  function CountedTwice(counts: map<nat, nat>): set<nat>
  {
    set p | p in counts && counts[p] > 1
  }

  /** The exec pins counted more than once are exactly the over-fed exec inputs. */
  lemma OverfedFromCounts(g: GraphData, counts: map<nat, nat>)
    requires CountsUpTo(g.links, ExecTargets(g), counts, |g.links|)
    ensures CountedTwice(counts) == OverfedExecPins(g)
  {
    assert g.links[..|g.links|] == g.links;
    forall p | p in OverfedExecPins(g) ensures p in counts {
      var j :| 0 <= j < |g.links| && g.links[j].to == p;
    }
  }

  /** `counts` holds, for every exec pin that the first `i` links end at, how many of them do. */
  ghost predicate CountsUpTo(links: seq<Link>, exec: set<nat>, counts: map<nat, nat>, i: nat)
    requires i <= |links|
  {
    && (forall p :: p in counts ==> p in exec && counts[p] == InCount(links[..i], p))
    && (forall j :: 0 <= j < i && links[j].to in exec ==> links[j].to in counts)
  }

  /** Counting link `i` into `counts`: one more for its to pin when that is an exec pin. */
  lemma TallyStep(links: seq<Link>, exec: set<nat>, counts: map<nat, nat>, i: nat, isExec: bool, counts': map<nat, nat>)
    requires i < |links| && CountsUpTo(links, exec, counts, i)
    requires isExec <==> links[i].to in exec
    requires var to := links[i].to;
             counts' == if isExec then counts[to := (if to in counts then counts[to] else 0) + 1] else counts
    ensures CountsUpTo(links, exec, counts', i + 1)
  {
    var to := links[i].to;
    InCountStep(links, i);
    if to in exec && to !in counts {
      assert forall j :: 0 <= j < i ==> links[..i][j].to != to;
      InCountZero(links[..i], to);
    }
  }

  /** Counts link `i` into `counts`, or fails with its to pin when that pin does not exist. */
  method TallyLink(g: GraphData, counts: map<nat, nat>, i: nat) returns (r: Result<map<nat, nat>, nat>)
    requires i < |g.links| && CountsUpTo(g.links, ExecTargets(g), counts, i)
    ensures r.Err? ==> UnknownTargets(g, g.links)[i] == Some(r.error)
    ensures r.Ok? ==> UnknownTargets(g, g.links)[i].None? && CountsUpTo(g.links, ExecTargets(g), r.value, i + 1)
  {
    var to := g.links[i].to;
    var toPin := PinOf(g.nodes, to);
    if toPin.None? {
      return Err(to);
    }
    var isExec := toPin.value.dataType == DataType.Exec;
    var counts' := if isExec then counts[to := (if to in counts then counts[to] else 0) + 1] else counts;
    ExecTargetAt(g, i);
    TallyStep(g.links, ExecTargets(g), counts, i, isExec, counts');
    return Ok(counts');
  }

  /** Counts input links per exec pin in a map; fails with the first unknown to pin. */
  method CountExecInputs(g: GraphData) returns (r: Result<map<nat, nat>, nat>)
    ensures r.Err? ==> FirstSome(UnknownTargets(g, g.links)) == Some(r.error)
    ensures r.Ok? ==> FirstSome(UnknownTargets(g, g.links)).None?
    ensures r.Ok? ==> CountsUpTo(g.links, ExecTargets(g), r.value, |g.links|)
  {
    var counts: map<nat, nat> := map[];
    ghost var unknown := UnknownTargets(g, g.links);
    ghost var exec := ExecTargets(g);
    for i := 0 to |g.links|
      invariant FirstSome(unknown[..i]).None?
      invariant CountsUpTo(g.links, exec, counts, i)
    {
      var step := TallyLink(g, counts, i);
      if step.Err? {
        FirstSomeStops(unknown, i);
        return Err(step.error);
      }
      FirstSomeExtend(unknown, i);
      counts := step.value;
    }
    assert unknown[..|g.links|] == unknown;
    return Ok(counts);
  }

  /** Reports an unknown to pin, else the smallest exec input counted twice. */
  method CheckExecFanIn(g: GraphData) returns (r: Option<CompileError>)
    ensures r == FanInError(g)
  {
    var counted := CountExecInputs(g);
    if counted.Err? {
      return Some(WithPin(New(UnknownPin), counted.error));
    }
    var counts := counted.value;
    OverfedFromCounts(g, counts);
    var over := CountedTwice(counts);
    assert over == OverfedExecPins(g);
    if over == {} {
      return None;
    }
    var p := SetMin(over);
    var owner := PinOwner(g.nodes, p);
    var k := if owner.Some? then owner.value else 0;
    assert k == OrZero(PinOwner(g.nodes, p));
    assert p == SetMin(OverfedExecPins(g));
    return Some(WithNode(WithPin(New(MultipleExecInputs), p), k));
  }

  /** Two links into the same exec input are rejected, while any number of links into a data input
      are not counted at all. */
  lemma FanInCountsOnlyExec(g: GraphData, p: nat)
    ensures !IsExecPin(g, p) ==> p !in OverfedExecPins(g)
    ensures IsExecPin(g, p) && InCount(g.links, p) >= 2 ==> p in OverfedExecPins(g)
  {
    if InCount(g.links, p) >= 2 {
      InCountPositive(g.links, p);
    }
  }

  // ---------------------------------------------------------------------
  // Validation, step 4: variable nodes name declared variables

  predicate HasVariableNamed(vars: seq<VariableDef>, name: string)
  {
    exists i :: 0 <= i < |vars| && vars[i].name == name
  }

  /** A Get/SetVariable node whose `"name"` is missing, not a string, or undeclared. */
  predicate BadVariableNode(g: GraphData, k: nat)
    requires k in g.nodes
  {
    IsVariableNode(g.nodes[k].kind)
    && (NameProperty(g.nodes[k].properties).None?
        || !HasVariableNamed(g.variables, NameProperty(g.nodes[k].properties).value))
  }

  function BadVariableNodes(g: GraphData): set<nat>
  {
    set k | k in g.nodes && BadVariableNode(g, k)
  }

  /** Step 4: the smallest offending variable node. */
  function UnknownVariableError(g: GraphData): (r: Option<CompileError>)
    ensures r.None? <==> forall k :: k in g.nodes ==> !BadVariableNode(g, k)
    ensures r.Some? ==> exists k :: k in g.nodes && BadVariableNode(g, k) && r == Some(WithNode(New(UnknownVariable), k))
                                    && forall k' :: k' in g.nodes && k' < k ==> !BadVariableNode(g, k')
  {
    var bad := BadVariableNodes(g);
    assert forall k :: k in g.nodes && BadVariableNode(g, k) ==> k in bad;
    if bad == {} then None else Some(WithNode(New(UnknownVariable), SetMin(bad)))
  }

  /** Visits the nodes in ascending id order and stops at the first offending one. */
  method CheckVariableNodes(g: GraphData) returns (r: Option<CompileError>)
    ensures r == UnknownVariableError(g)
  {
    var rest := g.nodes.Keys;
    ghost var lo: nat := 0;
    while rest != {}
      invariant rest <= g.nodes.Keys
      invariant forall k :: k in g.nodes && k !in rest ==> !BadVariableNode(g, k)
      invariant forall k :: k in g.nodes && k !in rest ==> k < lo
      invariant forall j :: j in rest ==> lo <= j
      decreases |rest|
    {
      var k := SetMin(rest);
      var node := g.nodes[k];
      if IsVariableNode(node.kind) {
        var name := NameProperty(node.properties);
        if name.None? || !HasVariableNamed(g.variables, name.value) {
          assert forall j :: j in BadVariableNodes(g) ==> j in rest;
          return Some(WithNode(New(UnknownVariable), k));
        }
      }
      lo := k + 1;
      rest := rest - {k};
    }
    return None;
  }

  // ---------------------------------------------------------------------
  // Validation, step 5: exec cycles

  /** Node-level exec adjacency, successors in link order. */
  type Adjacency = map<nat, seq<nat>>

  /** One link's contribution to the adjacency: only links whose from pin is `Exec` add an edge
      from the from pin's owner to the to pin's owner. */
  function AdjacencyStep(g: GraphData, adj: Adjacency, l: Link): Result<Adjacency, CompileError>
  {
    match PinOf(g.nodes, l.from)
    case None => Err(WithPin(New(UnknownPin), l.from))
    case Some(fromPin) =>
      if fromPin.dataType != DataType.Exec then Ok(adj)
      else
        match PinOwner(g.nodes, l.from)
        case None => Err(WithPin(New(BrokenExecLink), l.from))
        case Some(a) =>
          match PinOwner(g.nodes, l.to)
          case None => Err(WithPin(New(BrokenExecLink), l.to))
          case Some(b) => Ok(adj[a := (if a in adj then adj[a] else []) + [b]])
  }

  /** The adjacency built from a prefix of the links, or the first error met. */
  function AdjacencyOf(g: GraphData, links: seq<Link>): Result<Adjacency, CompileError>
  {
    if |links| == 0 then Ok(map[])
    else
      match AdjacencyOf(g, links[..|links| - 1])
      case Err(e) => Err(e)
      case Ok(adj) => AdjacencyStep(g, adj, links[|links| - 1])
  }

  /** The adjacency as a graph of successor sets. */
  ghost function AdjGraph(adj: Adjacency): Graph
  {
    map a | a in adj :: (set i | 0 <= i < |adj[a]| :: adj[a][i])
  }

  /** Every node mentioned by the adjacency. */
  ghost function AdjNodes(adj: Adjacency): set<nat>
  {
    adj.Keys + (set a, b | a in adj && b in adj[a] :: b)
  }

  /** The roots that lead into a cycle of `G`. */
  ghost function CycleRoots(roots: set<nat>, G: Graph): set<nat>
  {
    set k | k in roots && ReachesCycle(G, k)
  }

  /** The nodes of the graph that lead into an exec cycle. */
  ghost function CycleNodes(g: GraphData, adj: Adjacency): set<nat>
  {
    CycleRoots(g.nodes.Keys, AdjGraph(adj))
  }

  /** `ExecCycle`, tagged with the smallest node that leads into a cycle: the first root, in
      ascending id order, from which the depth-first search meets one. */
  ghost function CycleError(g: GraphData, adj: Adjacency): Option<CompileError>
  {
    var bad := CycleNodes(g, adj);
    if bad == {} then None else Some(WithNode(New(ExecCycle), SetMin(bad)))
  }

  /** Step 5: adjacency construction errors, else the cycle check. */
  ghost function ExecCycleError(g: GraphData): Option<CompileError>
  {
    match AdjacencyOf(g, g.links)
    case Err(e) => Some(e)
    case Ok(adj) => CycleError(g, adj)
  }

  /** One iteration of the adjacency loop: the link's edge, or the error it raises. */
  method AddAdjacencyEdge(g: GraphData, adj: Adjacency, l: Link) returns (r: Result<Adjacency, CompileError>)
    ensures r == AdjacencyStep(g, adj, l)
  {
    var fromPin := PinOf(g.nodes, l.from);
    if fromPin.None? {
      return Err(WithPin(New(UnknownPin), l.from));
    }
    if fromPin.value.dataType != DataType.Exec {
      return Ok(adj);
    }
    // The from pin exists, so it has an owner: the `BrokenExecLink` error of `detect_exec_cycles` for it cannot arise.
    var fromNode := PinOwner(g.nodes, l.from);
    if fromNode.None? {
      assert false;
    }
    var toNode := PinOwner(g.nodes, l.to);
    if toNode.None? {
      return Err(WithPin(New(BrokenExecLink), l.to));
    }
    var a := fromNode.value;
    return Ok(adj[a := (if a in adj then adj[a] else []) + [toNode.value]]);
  }

  method BuildAdjacency(g: GraphData) returns (r: Result<Adjacency, CompileError>)
    ensures r == AdjacencyOf(g, g.links)
  {
    var adj: Adjacency := map[];
    for i := 0 to |g.links|
      invariant AdjacencyOf(g, g.links[..i]) == Ok(adj)
    {
      AdjacencyOfNext(g, g.links, i, adj);
      var step := AddAdjacencyEdge(g, adj, g.links[i]);
      if step.Err? {
        AdjacencyErrorSticks(g, g.links, i + 1);
        return step;
      }
      adj := step.value;
    }
    assert g.links[..|g.links|] == g.links;
    return Ok(adj);
  }

  /** Extending a prefix that built `adj` by one link is one adjacency step. */
  lemma AdjacencyOfNext(g: GraphData, links: seq<Link>, i: nat, adj: Adjacency)
    requires i < |links| && AdjacencyOf(g, links[..i]) == Ok(adj)
    ensures AdjacencyOf(g, links[..i + 1]) == AdjacencyStep(g, adj, links[i])
  {
    assert links[..i + 1][..i] == links[..i];
  }

  /** Once a prefix of the links fails, every longer prefix fails the same way. */
  lemma {:induction false} AdjacencyErrorSticks(g: GraphData, links: seq<Link>, k: nat)
    requires k <= |links| && AdjacencyOf(g, links[..k]).Err?
    ensures AdjacencyOf(g, links) == AdjacencyOf(g, links[..k])
    decreases |links| - k
  {
    if k < |links| {
      assert links[..k + 1][..k] == links[..k];
      AdjacencyErrorSticks(g, links, k + 1);
    } else {
      assert links[..k] == links;
    }
  }

  /** Every node the adjacency mentions is a node of the graph. */
  ghost predicate WithinNodes(adj: Adjacency, nodes: map<nat, Node>)
  {
    forall a :: a in adj ==> a in nodes && forall i :: 0 <= i < |adj[a]| ==> adj[a][i] in nodes
  }

  lemma AdjacencyStepWithin(g: GraphData, prev: Adjacency, l: Link, adj: Adjacency)
    requires WithinNodes(prev, g.nodes) && AdjacencyStep(g, prev, l) == Ok(adj)
    ensures WithinNodes(adj, g.nodes)
  {
  }

  /** The adjacency built from valid links mentions only nodes of the graph. */
  lemma {:induction false} AdjacencyWithin(g: GraphData, links: seq<Link>, adj: Adjacency)
    requires AdjacencyOf(g, links) == Ok(adj)
    ensures WithinNodes(adj, g.nodes)
    decreases |links|
  {
    if |links| > 0 {
      var n := |links| - 1;
      var prev :| AdjacencyOf(g, links[..n]) == Ok(prev);
      AdjacencyWithin(g, links[..n], prev);
      AdjacencyStepWithin(g, prev, links[n], adj);
    }
  }

  /** A later link never removes a successor recorded earlier. */
  lemma AdjacencyStepKeeps(g: GraphData, prev: Adjacency, l: Link, adj: Adjacency, a: nat, b: nat)
    requires AdjacencyStep(g, prev, l) == Ok(adj) && a in prev && b in prev[a]
    ensures a in adj && b in adj[a]
  {
  }

  /** An exec link adds its to pin's owner as a successor of its from pin's owner. */
  lemma AdjacencyStepAdds(g: GraphData, prev: Adjacency, l: Link, adj: Adjacency)
    requires AdjacencyStep(g, prev, l) == Ok(adj) && IsExecPin(g, l.from)
    ensures PinOwner(g.nodes, l.from).Some? && PinOwner(g.nodes, l.to).Some?
    ensures PinOwner(g.nodes, l.from).value in adj
    ensures PinOwner(g.nodes, l.to).value in adj[PinOwner(g.nodes, l.from).value]
  {
  }

  /** Every exec link is recorded as an edge from the from pin's owner to the to pin's owner. */
  lemma {:induction false} AdjacencyLinkEdge(g: GraphData, links: seq<Link>, adj: Adjacency, i: nat)
    requires AdjacencyOf(g, links) == Ok(adj)
    requires i < |links| && IsExecPin(g, links[i].from)
    ensures PinOwner(g.nodes, links[i].from).Some? && PinOwner(g.nodes, links[i].to).Some?
    ensures PinOwner(g.nodes, links[i].from).value in adj
    ensures PinOwner(g.nodes, links[i].to).value in adj[PinOwner(g.nodes, links[i].from).value]
    decreases |links|
  {
    var n := |links| - 1;
    var prev :| AdjacencyOf(g, links[..n]) == Ok(prev);
    if i < n {
      assert links[..n][i] == links[i];
      AdjacencyLinkEdge(g, links[..n], prev, i);
      AdjacencyStepKeeps(g, prev, links[n], adj, PinOwner(g.nodes, links[i].from).value, PinOwner(g.nodes, links[i].to).value);
    } else {
      AdjacencyStepAdds(g, prev, links[n], adj);
    }
  }

  /** `g` has exactly the edges listed by the adjacency. */
  ghost predicate Represents(adj: Adjacency, g: Graph)
  {
    && (forall a, i :: a in adj && 0 <= i < |adj[a]| ==> Edge(g, a, adj[a][i]))
    && (forall a, b :: Edge(g, a, b) ==> a in adj && b in adj[a])
  }

  /** Every successor listed by the adjacency lies in `u`. */
  ghost predicate Covers(adj: Adjacency, u: set<nat>)
  {
    forall a, i :: a in adj && 0 <= i < |adj[a]| ==> adj[a][i] in u
  }

  lemma AdjGraphRepresents(adj: Adjacency)
    ensures Represents(adj, AdjGraph(adj))
    ensures Covers(adj, AdjNodes(adj))
  {
    forall a, i | a in adj && 0 <= i < |adj[a]| ensures adj[a][i] in AdjNodes(adj) {
      assert adj[a][i] in adj[a];
    }
  }

  /** Descending into an unvisited node shrinks the set of nodes still unvisited. */
  lemma DescentSmaller(u: set<nat>, node: nat, next: nat, visited: set<nat>, visited': set<nat>)
    requires node in u && next in u && node !in visited && visited + {node} <= visited' && next !in visited'
    ensures |u - visited'| < |u - visited|
  {
    assert node in u - visited && node !in u - visited';
    assert u - visited' < u - visited;
    StrictSubsetSmaller(u - visited', u - visited);
  }

  /** `dfs_cycle`'s depth-first search; `visited` and `stack` are threaded through as values.
      Ghost state: `g` is the adjacency as a graph, `u` a finite set holding every node it
      mentions, `path` the stack in visiting order, and `rank` numbers the finished nodes in
      finishing order, which certifies that no finished node leads into a cycle. */
  method DfsCycle(node: nat, adj: Adjacency, visited: set<nat>, stack: set<nat>,
                  ghost g: Graph, ghost u: set<nat>, ghost path: seq<nat>, ghost rank: map<nat, nat>)
    returns (found: bool, visited': set<nat>, stack': set<nat>, ghost rank': map<nat, nat>)
    requires Represents(adj, g) && Covers(adj, u) && node in u
    requires node !in visited && stack <= visited
    requires forall x :: x in stack <==> x in path
    requires IsWalk(g, path + [node])
    requires (forall x :: x in rank <==> x in visited && x !in stack) && Ranked(g, rank)
    requires forall x :: x in rank ==> rank[x] < |rank|
    ensures visited + {node} <= visited'
    ensures found ==> ReachesCycle(g, (path + [node])[0])
    ensures !found ==> stack' == stack && node in rank'
    ensures !found ==> (forall x :: x in rank' <==> x in visited' && x !in stack') && Ranked(g, rank')
    ensures !found ==> forall x :: x in rank' ==> rank'[x] < |rank'|
    decreases |u - visited|
  {
    ghost var here := path + [node];
    found := false;
    visited' := visited + {node};
    stack' := stack + {node};
    rank' := rank;
    var neighbors := if node in adj then adj[node] else [];
    var i := 0;
    ghost var done: set<nat> := {};
    while i < |neighbors|
      invariant 0 <= i <= |neighbors|
      invariant done <= visited' && done !! stack'
      invariant visited + {node} <= visited'
      invariant stack' == stack + {node}
      invariant (forall x :: x in rank' <==> x in visited' && x !in stack') && Ranked(g, rank')
      invariant forall x :: x in rank' ==> rank'[x] < |rank'|
      invariant forall j :: 0 <= j < i ==> neighbors[j] in done
    {
      var next := neighbors[i];
      assert Edge(g, node, next) && next in u;
      ghost var done' := done + {next};
      assert forall j :: 0 <= j < i + 1 ==> neighbors[j] in done';
      if next !in visited' {
        DescentSmaller(u, node, next, visited, visited');
        WalkExtend(g, here, next);
        var f;
        f, visited', stack', rank' := DfsCycle(next, adj, visited', stack', g, u, here, rank');
        if f {
          return true, visited', stack', rank';
        }
      }
      if next in stack' {
        assert next in here;
        BackEdgeCycle(g, here, next);
        return true, visited', stack', rank';
      }
      assert next in visited' && next !in stack';
      done := done';
      i := i + 1;
    }
    stack' := stack' - {node};
    rank' := RankFinished(g, rank', node);
  }

  /** Runs the search from every root not yet visited, in ascending id order, and returns the
      first root from which it meets a cycle. */
  method SearchRoots(roots: set<nat>, adj: Adjacency, ghost G: Graph, ghost u: set<nat>) returns (r: Option<nat>)
    requires Represents(adj, G) && Covers(adj, u) && roots <= u
    ensures r.None? ==> CycleRoots(roots, G) == {}
    ensures r.Some? ==> CycleRoots(roots, G) != {} && r.value == SetMin(CycleRoots(roots, G))
  {
    var visited: set<nat> := {};
    var stack: set<nat> := {};
    ghost var rank: map<nat, nat> := map[];
    var rest := roots;
    ghost var lo: nat := 0;
    while rest != {}
      invariant rest <= roots
      invariant stack == {}
      invariant (forall x :: x in rank <==> x in visited) && Ranked(G, rank)
      invariant forall x :: x in rank ==> rank[x] < |rank|
      invariant forall k :: k in roots && k !in rest ==> k in visited
      invariant forall k :: k in roots && k !in rest ==> k < lo
      invariant forall j :: j in rest ==> lo <= j
      decreases |rest|
    {
      var k := SetMin(rest);
      ghost var rank0 := rank;
      var rest' := rest - {k};
      ghost var lo' := k + 1;
      SetMinRemoved(rest, k);
      assert forall k0 :: k0 in roots && k0 !in rest' ==> k0 < lo';
      if k !in visited {
        assert IsWalk(G, [] + [k]);
        var found;
        found, visited, stack, rank := DfsCycle(k, adj, visited, stack, G, u, [], rank);
        if found {
          assert ([] + [k])[0] == k;
          assert k in CycleRoots(roots, G);
          forall k' | k' in CycleRoots(roots, G) ensures k <= k' {
            if k' !in rest {
              RankedNoCycle(G, rank0, k');
            }
          }
          return Some(k);
        }
      }
      lo := lo';
      rest := rest';
    }
    forall k | k in roots ensures !ReachesCycle(G, k) {
      RankedNoCycle(G, rank, k);
    }
    assert CycleRoots(roots, G) == {};
    return None;
  }

  method DetectCycles(g: GraphData, adj: Adjacency) returns (r: Option<CompileError>)
    ensures r == CycleError(g, adj)
  {
    AdjGraphRepresents(adj);
    var root := SearchRoots(g.nodes.Keys, adj, AdjGraph(adj), AdjNodes(adj) + g.nodes.Keys);
    if root.None? {
      return None;
    }
    return Some(WithNode(New(ExecCycle), root.value));
  }

  method DetectExecCycles(g: GraphData) returns (r: Option<CompileError>)
    ensures r == ExecCycleError(g)
  {
    var adj := BuildAdjacency(g);
    if adj.Err? {
      return Some(adj.error);
    }
    r := DetectCycles(g, adj.value);
  }

  /** The whole validation, checks in `validate`'s order, first failure wins. */
  ghost function Validation(g: GraphData): Option<CompileError>
  {
    if !UniqueNames(g.variables) then Some(New(DuplicateVariable))
    else if FirstLinkError(g, g.links).Some? then FirstLinkError(g, g.links)
    else if FanInError(g).Some? then FanInError(g)
    else if UnknownVariableError(g).Some? then UnknownVariableError(g)
    else ExecCycleError(g)
  }

  method Validate(g: GraphData) returns (r: Option<CompileError>)
    ensures r == Validation(g)
  {
    var unique := CheckUniqueVariables(g.variables);
    if !unique {
      return Some(New(DuplicateVariable));
    }
    r := CheckLinks(g);
    if r.Some? {
      return;
    }
    r := CheckExecFanIn(g);
    if r.Some? {
      return;
    }
    r := CheckVariableNodes(g);
    if r.Some? {
      return;
    }
    r := DetectExecCycles(g);
  }

  /** Once every link passes its checks the later re-checks of pin existence never fire, and the
      adjacency's nodes are nodes of the graph. */
  lemma ValidatedLinksResolve(g: GraphData)
    requires FirstLinkError(g, g.links).None?
    ensures FirstUnknownTo(g, g.links).None?
    ensures AdjacencyOf(g, g.links).Ok?
  {
    FirstLinkErrorFirst(g, g.links);
    forall i | 0 <= i < |g.links| ensures PinOf(g.nodes, g.links[i].to).Some? {
      assert LinkError(g, g.links[i]).None?;
    }
    AdjacencyResolves(g, g.links);
  }

  lemma AdjacencyResolves(g: GraphData, links: seq<Link>)
    requires forall i :: 0 <= i < |links| ==> PinOf(g.nodes, links[i].from).Some? && PinOf(g.nodes, links[i].to).Some?
    ensures AdjacencyOf(g, links).Ok?
  {
    AdjacencyPrefixResolves(g, links, |links|);
    assert links[..|links|] == links;
  }

  /** Every prefix of links with known pins builds an adjacency. */
  lemma {:induction false} AdjacencyPrefixResolves(g: GraphData, links: seq<Link>, k: nat)
    requires k <= |links|
    requires forall i :: 0 <= i < |links| ==> PinOf(g.nodes, links[i].from).Some? && PinOf(g.nodes, links[i].to).Some?
    ensures AdjacencyOf(g, links[..k]).Ok?
    decreases k
  {
    if k > 0 {
      AdjacencyPrefixResolves(g, links, k - 1);
      var prev := AdjacencyOf(g, links[..k - 1]).value;
      AdjacencyOfNext(g, links, k - 1, prev);
      AdjacencyStepOk(g, prev, links[k - 1]);
    }
  }

  lemma AdjacencyStepOk(g: GraphData, adj: Adjacency, l: Link)
    requires PinOf(g.nodes, l.from).Some? && PinOf(g.nodes, l.to).Some?
    ensures AdjacencyStep(g, adj, l).Ok?
  {
  }

  /** An acyclic exec adjacency passes the cycle check, and passing it means that no walk from a
      graph node repeats a node. */
  lemma CycleCheckExact(g: GraphData, adj: Adjacency)
    requires forall a :: a in adj ==> a in g.nodes
    ensures CycleError(g, adj).None? <==> Acyclic(AdjGraph(adj))
  {
    if CycleError(g, adj).None? {
      forall r | r in g.nodes.Keys ensures !ReachesCycle(AdjGraph(adj), r) {
        assert r !in CycleNodes(g, adj);
      }
      AcyclicWhenNoRootCycles(AdjGraph(adj), g.nodes.Keys);
    }
  }

  /** A self-loop, or any cycle reachable from a graph node, is rejected with `ExecCycle`. */
  lemma CycleRejected(g: GraphData, adj: Adjacency, k: nat)
    requires k in g.nodes && ReachesCycle(AdjGraph(adj), k)
    ensures CycleError(g, adj).Some? && CycleError(g, adj).value.kind == ExecCycle
    ensures CycleError(g, adj).value.node.Some? && CycleError(g, adj).value.node.value <= k
  {
    assert k in CycleNodes(g, adj);
  }

  // ---------------------------------------------------------------------
  // Lowering

  /** The value a variable of type `t` starts with when it has no default. */
  function ZeroValue(t: DataType): (v: Value)
    ensures t != DataType.Exec ==> DataTypeOf(v) == t
    ensures t == DataType.Exec ==> v == Value.Unit
  {
    match t
    case Bool => Value.Bool(false)
    case I32 => Value.I32(0)
    case F32 => Value.F32(0.0)
    case String => Value.String("")
    case Exec => Value.Unit
    case Unit => Value.Unit
  }

  function InitialValue(v: VariableDef): Value
  {
    match v.defaultValue
    case Some(x) => x
    case None => ZeroValue(v.dataType)
  }

  /** The variable store a compiled graph starts with; a later declaration of a name replaces an
      earlier one. */
  function LoweredVariables(vars: seq<VariableDef>): (m: map<string, Value>)
    ensures m.Keys == set i | 0 <= i < |vars| :: vars[i].name
  {
    if |vars| == 0 then map[]
    else
      var prev := vars[..|vars| - 1];
      var m := LoweredVariables(prev)[vars[|vars| - 1].name := InitialValue(vars[|vars| - 1])];
      assert forall i :: 0 <= i < |vars| - 1 ==> prev[i] == vars[i];
      m
  }

  /** Each name maps to the initial value of its last declaration: its default, else the zero value. */
  lemma {:induction false} LoweredVariablesLastWins(vars: seq<VariableDef>, i: nat)
    requires i < |vars| && forall j :: i < j < |vars| ==> vars[j].name != vars[i].name
    ensures LoweredVariables(vars)[vars[i].name] == InitialValue(vars[i])
    decreases |vars|
  {
    var n := |vars| - 1;
    if i < n {
      var prev := vars[..n];
      assert prev[i] == vars[i];
      assert forall j :: i < j < n ==> prev[j] == vars[j];
      LoweredVariablesLastWins(prev, i);
    }
  }

  function CompiledPinOf(vars: seq<VariableDef>, node: Node, pin: Pin): CompiledPin
  {
    CompiledPin(pin.id, pin.direction, EffectiveType(vars, node, pin))
  }

  /** A node's pin table by name, built from a prefix of its pins; a later pin with the same name
      replaces an earlier one. */
  function PinTable(vars: seq<VariableDef>, node: Node, pins: seq<Pin>): (t: map<string, CompiledPin>)
    ensures t.Keys == set i | 0 <= i < |pins| :: pins[i].name
  {
    if |pins| == 0 then map[]
    else
      var prev := pins[..|pins| - 1];
      var t := PinTable(vars, node, prev)[pins[|pins| - 1].name := CompiledPinOf(vars, node, pins[|pins| - 1])];
      assert forall i :: 0 <= i < |pins| - 1 ==> prev[i] == pins[i];
      t
  }

  /** Every entry of a pin table comes from a pin of that name, with the pin's id and direction and
      its effective type; the last pin of each name is the one kept. */
  lemma {:induction false} PinTableEntries(vars: seq<VariableDef>, node: Node, pins: seq<Pin>, name: string)
    requires name in PinTable(vars, node, pins)
    ensures exists i :: 0 <= i < |pins| && pins[i].name == name
                        && PinTable(vars, node, pins)[name] == CompiledPinOf(vars, node, pins[i])
                        && forall j :: i < j < |pins| ==> pins[j].name != name
    decreases |pins|
  {
    var n := |pins| - 1;
    var prev := pins[..n];
    var t := PinTable(vars, node, pins);
    assert t == PinTable(vars, node, prev)[pins[n].name := CompiledPinOf(vars, node, pins[n])];
    if pins[n].name != name {
      PinTableEntries(vars, node, prev, name);
      var i :| 0 <= i < |prev| && prev[i].name == name && PinTable(vars, node, prev)[name] == CompiledPinOf(vars, node, prev[i])
               && forall j :: i < j < |prev| ==> prev[j].name != name;
      assert pins[i] == prev[i];
      assert forall j :: i < j < n ==> pins[j] == prev[j];
      assert 0 <= i < |pins| && pins[i].name == name && t[name] == CompiledPinOf(vars, node, pins[i])
             && forall j :: i < j < |pins| ==> pins[j].name != name;
    } else {
      assert 0 <= n < |pins| && pins[n].name == name && t[name] == CompiledPinOf(vars, node, pins[n]);
    }
  }

  function LowerNode(vars: seq<VariableDef>, node: Node): CompiledNode
  {
    CompiledNode(node.kind, node.properties, PinTable(vars, node, node.pins))
  }

  function LowerNodes(g: GraphData): map<nat, CompiledNode>
  {
    map k | k in g.nodes :: LowerNode(g.variables, g.nodes[k])
  }

  /** With unique pin ids, looking up a pin's id finds that very pin, in its own node. */
  lemma UniquePinLookup(nodes: map<nat, Node>, k: nat, i: nat)
    requires UniquePinIds(nodes) && k in nodes && i < |nodes[k].pins|
    ensures PinOwner(nodes, nodes[k].pins[i].id) == Some(k)
    ensures PinOf(nodes, nodes[k].pins[i].id) == Some(nodes[k].pins[i])
  {
    var id := nodes[k].pins[i].id;
    assert HasPin(nodes[k], id);
    PinOwnerLowest(nodes, id);
    var owner := PinOwner(nodes, id).value;
    var i0 :| 0 <= i0 < |nodes[owner].pins| && nodes[owner].pins[i0].id == id;
    assert owner == k;
    PinOfInOwner(nodes, id);
  }

  /** The lowered pin table types each pin exactly as validation does, when pin ids are unique. */
  lemma LoweredPinTypesAgree(g: GraphData, k: nat, name: string)
    requires UniquePinIds(g.nodes) && k in g.nodes && name in LowerNodes(g)[k].pins
    ensures PinOf(g.nodes, LowerNodes(g)[k].pins[name].id).Some?
    ensures ActualPinType(g, LowerNodes(g)[k].pins[name].id) == Some(LowerNodes(g)[k].pins[name].dataType)
  {
    var node := g.nodes[k];
    PinTableEntries(g.variables, node, node.pins, name);
    var i :| 0 <= i < |node.pins| && node.pins[i].name == name
             && PinTable(g.variables, node, node.pins)[name] == CompiledPinOf(g.variables, node, node.pins[i])
             && forall j :: i < j < |node.pins| ==> node.pins[j].name != name;
    assert LowerNodes(g)[k].pins[name] == CompiledPinOf(g.variables, node, node.pins[i]);
    UniquePinLookup(g.nodes, k, i);
  }

  /** One link's contribution to the edge maps; the pin-existence re-check stays. */
  function LowerLinkStep(g: GraphData, edges: (map<nat, nat>, map<nat, nat>), l: Link)
    : Result<(map<nat, nat>, map<nat, nat>), CompileError>
  {
    match PinOf(g.nodes, l.from)
    case None => Err(WithPin(New(UnknownPin), l.from))
    case Some(fromPin) =>
      if PinOf(g.nodes, l.to).None? then Err(WithPin(New(UnknownPin), l.to))
      else if fromPin.dataType == DataType.Exec then Ok((edges.0[l.from := l.to], edges.1))
      else Ok((edges.0, edges.1[l.to := l.from]))
  }

  /** Exec edges keyed by from pin and data edges keyed by to pin, from a prefix of the links. */
  function LowerLinks(g: GraphData, links: seq<Link>): Result<(map<nat, nat>, map<nat, nat>), CompileError>
  {
    if |links| == 0 then Ok((map[], map[]))
    else
      match LowerLinks(g, links[..|links| - 1])
      case Err(e) => Err(e)
      case Ok(edges) => LowerLinkStep(g, edges, links[|links| - 1])
  }

  /** Extending a prefix that lowered to `edges` by one link is one lowering step. */
  lemma LowerLinksNext(g: GraphData, links: seq<Link>, i: nat, edges: (map<nat, nat>, map<nat, nat>))
    requires i < |links| && LowerLinks(g, links[..i]) == Ok(edges)
    ensures LowerLinks(g, links[..i + 1]) == LowerLinkStep(g, edges, links[i])
  {
    assert links[..i + 1][..i] == links[..i];
  }

  /** Per link, whether its from pin is an `Exec` pin: what sorts it into the exec or the data edges. */
  function ExecFlags(g: GraphData, links: seq<Link>): (flags: seq<bool>)
    ensures |flags| == |links|
    ensures forall i :: 0 <= i < |links| ==> flags[i] == IsExecPin(g, links[i].from)
  {
    seq(|links|, i requires 0 <= i < |links| => IsExecPin(g, links[i].from))
  }

  /** The edge maps of a prefix of sorted links: an exec link sets `exec[from] = to`, any other
      sets `data[to] = from`, a later insert replacing an earlier one. */
  function EdgeMaps(links: seq<Link>, flags: seq<bool>): (map<nat, nat>, map<nat, nat>)
    requires |flags| == |links|
  {
    if |links| == 0 then (map[], map[])
    else
      var n := |links| - 1;
      var edges := EdgeMaps(links[..n], flags[..n]);
      if flags[n] then (edges.0[links[n].from := links[n].to], edges.1)
      else (edges.0, edges.1[links[n].to := links[n].from])
  }

  /** With every pin known, lowering the links never fails and yields their edge maps. */
  lemma {:induction false} LowerLinksOk(g: GraphData, links: seq<Link>)
    requires forall i :: 0 <= i < |links| ==> PinOf(g.nodes, links[i].from).Some? && PinOf(g.nodes, links[i].to).Some?
    ensures LowerLinks(g, links) == Ok(EdgeMaps(links, ExecFlags(g, links)))
    decreases |links|
  {
    if |links| > 0 {
      var n := |links| - 1;
      var prev := links[..n];
      assert forall i :: 0 <= i < n ==> prev[i] == links[i];
      LowerLinksOk(g, prev);
      var flags := ExecFlags(g, links);
      assert flags[..n] == ExecFlags(g, prev);
      var edges := EdgeMaps(prev, flags[..n]);
      assert LowerLinks(g, links) == LowerLinkStep(g, edges, links[n]);
      LowerLinkStepOk(g, edges, links[n]);
    }
  }

  lemma LowerLinkStepOk(g: GraphData, edges: (map<nat, nat>, map<nat, nat>), l: Link)
    requires PinOf(g.nodes, l.from).Some? && PinOf(g.nodes, l.to).Some?
    ensures IsExecPin(g, l.from) ==> LowerLinkStep(g, edges, l) == Ok((edges.0[l.from := l.to], edges.1))
    ensures !IsExecPin(g, l.from) ==> LowerLinkStep(g, edges, l) == Ok((edges.0, edges.1[l.to := l.from]))
  {
  }

  /** The exec edges are keyed by exactly the from pins of the exec links. */
  lemma {:induction false} EdgeMapsExecKeys(links: seq<Link>, flags: seq<bool>, p: nat)
    requires |flags| == |links|
    ensures p in EdgeMaps(links, flags).0 <==> exists i :: 0 <= i < |links| && flags[i] && links[i].from == p
    decreases |links|
  {
    if |links| > 0 {
      var n := |links| - 1;
      EdgeMapsExecKeys(links[..n], flags[..n], p);
      if p in EdgeMaps(links[..n], flags[..n]).0 {
        var i :| 0 <= i < n && flags[..n][i] && links[..n][i].from == p;
        assert flags[i] && links[i].from == p;
      }
      if exists i :: 0 <= i < |links| && flags[i] && links[i].from == p {
        var i :| 0 <= i < |links| && flags[i] && links[i].from == p;
        if i < n {
          assert flags[..n][i] && links[..n][i].from == p;
        }
      }
    }
  }

  /** Every exec edge is the from and to pin of some exec link. */
  lemma {:induction false} EdgeMapsExecValue(links: seq<Link>, flags: seq<bool>, p: nat)
    requires |flags| == |links| && p in EdgeMaps(links, flags).0
    ensures exists i :: 0 <= i < |links| && flags[i] && links[i].from == p && links[i].to == EdgeMaps(links, flags).0[p]
    decreases |links|
  {
    var n := |links| - 1;
    var prev := EdgeMaps(links[..n], flags[..n]);
    if flags[n] && links[n].from == p {
      assert links[n].to == EdgeMaps(links, flags).0[p];
    } else {
      assert p in prev.0 && EdgeMaps(links, flags).0[p] == prev.0[p];
      EdgeMapsExecValue(links[..n], flags[..n], p);
      var i :| 0 <= i < n && flags[..n][i] && links[..n][i].from == p && links[..n][i].to == prev.0[p];
      assert flags[i] && links[i] == links[..n][i];
    }
  }

  /** The data edges are keyed by exactly the to pins of the other links. */
  lemma {:induction false} EdgeMapsDataKeys(links: seq<Link>, flags: seq<bool>, p: nat)
    requires |flags| == |links|
    ensures p in EdgeMaps(links, flags).1 <==> exists i :: 0 <= i < |links| && !flags[i] && links[i].to == p
    decreases |links|
  {
    if |links| > 0 {
      var n := |links| - 1;
      EdgeMapsDataKeys(links[..n], flags[..n], p);
      if p in EdgeMaps(links[..n], flags[..n]).1 {
        var i :| 0 <= i < n && !flags[..n][i] && links[..n][i].to == p;
        assert !flags[i] && links[i].to == p;
      }
      if exists i :: 0 <= i < |links| && !flags[i] && links[i].to == p {
        var i :| 0 <= i < |links| && !flags[i] && links[i].to == p;
        if i < n {
          assert !flags[..n][i] && links[..n][i].to == p;
        }
      }
    }
  }

  /** For each from pin the last exec link out of it decides its exec edge. */
  lemma {:induction false} EdgeMapsExecLastWins(links: seq<Link>, flags: seq<bool>, i: nat)
    requires |flags| == |links| && i < |links| && flags[i]
    requires forall j :: i < j < |links| && flags[j] ==> links[j].from != links[i].from
    ensures links[i].from in EdgeMaps(links, flags).0 && EdgeMaps(links, flags).0[links[i].from] == links[i].to
    decreases |links|
  {
    var n := |links| - 1;
    if i < n {
      assert links[..n][i] == links[i] && flags[..n][i] == flags[i];
      assert forall j :: i < j < n ==> links[..n][j] == links[j] && flags[..n][j] == flags[j];
      EdgeMapsExecLastWins(links[..n], flags[..n], i);
    }
  }

  /** For each to pin the last data link into it decides its data edge. */
  lemma {:induction false} EdgeMapsDataLastWins(links: seq<Link>, flags: seq<bool>, i: nat)
    requires |flags| == |links| && i < |links| && !flags[i]
    requires forall j :: i < j < |links| && !flags[j] ==> links[j].to != links[i].to
    ensures links[i].to in EdgeMaps(links, flags).1 && EdgeMaps(links, flags).1[links[i].to] == links[i].from
    decreases |links|
  {
    var n := |links| - 1;
    if i < n {
      assert links[..n][i] == links[i] && flags[..n][i] == flags[i];
      assert forall j :: i < j < n ==> links[..n][j] == links[j] && flags[..n][j] == flags[j];
      EdgeMapsDataLastWins(links[..n], flags[..n], i);
    }
  }

  /** The smallest node of `kind`. */
  function FindEntry(g: GraphData, kind: BuiltinNodeKind): (r: Option<nat>)
    ensures r.None? <==> forall k :: k in g.nodes ==> g.nodes[k].kind != kind
    ensures r.Some? ==> r.value in g.nodes && g.nodes[r.value].kind == kind
                        && forall k :: k in g.nodes && g.nodes[k].kind == kind ==> r.value <= k
  {
    var ks := set k | k in g.nodes && g.nodes[k].kind == kind;
    assert forall k :: k in g.nodes && g.nodes[k].kind == kind ==> k in ks;
    if ks == {} then None else Some(SetMin(ks))
  }

  ghost function CompileSpec(g: GraphData): Result<CompiledGraph, CompileError>
  {
    match Validation(g)
    case Some(e) => Err(e)
    case None =>
      match LowerLinks(g, g.links)
      case Err(e) => Err(e)
      case Ok(edges) =>
        Ok(CompiledGraph(
          FindEntry(g, BeginPlay), FindEntry(g, ConstructionScript), FindEntry(g, Tick),
          LoweredVariables(g.variables), LowerNodes(g), edges.0, edges.1))
  }

  /** The kinds of error one link's checks can report. */
  lemma LinkErrorKinds(g: GraphData, l: Link)
    ensures LinkError(g, l).Some? ==> LinkError(g, l).value.kind in {UnknownPin, CrossGraphLink, DirectionMismatch, TypeMismatch}
  {
  }

  /** Building the adjacency fails only on an unknown from pin or an exec pin without an owner. */
  lemma {:induction false} AdjacencyErrorKinds(g: GraphData, links: seq<Link>)
    ensures AdjacencyOf(g, links).Err? ==> AdjacencyOf(g, links).error.kind in {UnknownPin, BrokenExecLink}
    decreases |links|
  {
    if |links| > 0 {
      AdjacencyErrorKinds(g, links[..|links| - 1]);
    }
  }

  lemma FirstLinkErrorKinds(g: GraphData, links: seq<Link>)
    ensures FirstLinkError(g, links).Some? ==> FirstLinkError(g, links).value.kind in {UnknownPin, CrossGraphLink, DirectionMismatch, TypeMismatch}
  {
    FirstLinkErrorFirst(g, links);
    if FirstLinkError(g, links).Some? {
      var i :| 0 <= i < |links| && LinkError(g, links[i]) == FirstLinkError(g, links);
      LinkErrorKinds(g, links[i]);
    }
  }

  lemma FanInErrorKinds(g: GraphData)
    ensures FanInError(g).Some? ==> FanInError(g).value.kind in {UnknownPin, MultipleExecInputs}
  {
  }

  lemma ExecCycleErrorKinds(g: GraphData)
    ensures ExecCycleError(g).Some? ==> ExecCycleError(g).value.kind in {UnknownPin, BrokenExecLink, ExecCycle}
  {
    AdjacencyErrorKinds(g, g.links);
  }

  /** The kinds of error validation reports; `MissingEntry` is never among them. */
  lemma ValidationKinds(g: GraphData)
    ensures Validation(g).Some? ==>
              Validation(g).value.kind in {DuplicateVariable, UnknownPin, CrossGraphLink, DirectionMismatch, TypeMismatch,
                                           MultipleExecInputs, UnknownVariable, BrokenExecLink, ExecCycle}
  {
    FirstLinkErrorKinds(g, g.links);
    FanInErrorKinds(g);
    ExecCycleErrorKinds(g);
  }

  /** A graph that passes validation always lowers, whatever entry nodes it has, and no
      `MissingEntry` error is ever raised. */
  lemma ValidatedCompiles(g: GraphData)
    ensures Validation(g).None? ==> CompileSpec(g).Ok?
    ensures CompileSpec(g).Err? ==> !CompileSpec(g).error.kind.MissingEntry?
  {
    if Validation(g).None? {
      FirstLinkErrorFirst(g, g.links);
      forall i | 0 <= i < |g.links| ensures PinOf(g.nodes, g.links[i].from).Some? && PinOf(g.nodes, g.links[i].to).Some? {
        assert LinkError(g, g.links[i]).None?;
      }
      LowerLinksOk(g, g.links);
    } else {
      ValidationKinds(g);
    }
  }

  /** Fills the variable store in declaration order. */
  method LowerVariablesInOrder(vars: seq<VariableDef>) returns (variables: map<string, Value>)
    ensures variables == LoweredVariables(vars)
  {
    variables := map[];
    for i := 0 to |vars|
      invariant variables == LoweredVariables(vars[..i])
    {
      assert vars[..i + 1][..i] == vars[..i];
      var v := vars[i];
      var value := if v.defaultValue.Some? then v.defaultValue.value else ZeroValue(v.dataType);
      variables := variables[v.name := value];
    }
    assert vars[..|vars|] == vars;
  }

  /** Builds one node's pin table in pin order. */
  method LowerNodeInOrder(vars: seq<VariableDef>, node: Node) returns (c: CompiledNode)
    ensures c == LowerNode(vars, node)
  {
    var pins: map<string, CompiledPin> := map[];
    for j := 0 to |node.pins|
      invariant pins == PinTable(vars, node, node.pins[..j])
    {
      assert node.pins[..j + 1][..j] == node.pins[..j];
      var pin := node.pins[j];
      pins := pins[pin.name := CompiledPin(pin.id, pin.direction, EffectiveType(vars, node, pin))];
    }
    assert node.pins[..|node.pins|] == node.pins;
    c := CompiledNode(node.kind, node.properties, pins);
  }

  /** Lowers the nodes in ascending id order. */
  method LowerNodesInOrder(g: GraphData) returns (nodes: map<nat, CompiledNode>)
    ensures nodes == LowerNodes(g)
  {
    nodes := map[];
    var rest := g.nodes.Keys;
    while rest != {}
      invariant rest <= g.nodes.Keys
      invariant forall k :: k in nodes <==> k in g.nodes && k !in rest
      invariant forall k :: k in nodes ==> nodes[k] == LowerNode(g.variables, g.nodes[k])
      decreases |rest|
    {
      var k := SetMin(rest);
      var c := LowerNodeInOrder(g.variables, g.nodes[k]);
      nodes := nodes[k := c];
      rest := rest - {k};
    }
    assert nodes.Keys == LowerNodes(g).Keys;
  }

  /** Re-checks that both pins of a link exist, then files it as an exec or a data edge. */
  method LowerLink(g: GraphData, edges: (map<nat, nat>, map<nat, nat>), l: Link)
    returns (r: Result<(map<nat, nat>, map<nat, nat>), CompileError>)
    ensures r == LowerLinkStep(g, edges, l)
  {
    var fromPin := PinOf(g.nodes, l.from);
    if fromPin.None? {
      return Err(WithPin(New(UnknownPin), l.from));
    }
    var toPin := PinOf(g.nodes, l.to);
    if toPin.None? {
      return Err(WithPin(New(UnknownPin), l.to));
    }
    if fromPin.value.dataType == DataType.Exec {
      return Ok((edges.0[l.from := l.to], edges.1));
    }
    return Ok((edges.0, edges.1[l.to := l.from]));
  }

  /** Sorts the links into exec and data edges in list order, stopping at the first whose pins
      do not both exist. */
  method LowerLinksInOrder(g: GraphData) returns (r: Result<(map<nat, nat>, map<nat, nat>), CompileError>)
    ensures r == LowerLinks(g, g.links)
  {
    var edges: (map<nat, nat>, map<nat, nat>) := (map[], map[]);
    for i := 0 to |g.links|
      invariant LowerLinks(g, g.links[..i]) == Ok(edges)
    {
      LowerLinksNext(g, g.links, i, edges);
      var step := LowerLink(g, edges, g.links[i]);
      if step.Err? {
        LowerErrorSticks(g, g.links, i + 1);
        return step;
      }
      edges := step.value;
    }
    assert g.links[..|g.links|] == g.links;
    return Ok(edges);
  }

  /** Validates, then lowers variables, nodes and links; the entries are the smallest nodes of
      each entry kind, absent when there is none. */
  method Compile(g: GraphData) returns (r: Result<CompiledGraph, CompileError>)
    ensures r == CompileSpec(g)
  {
    var err := Validate(g);
    if err.Some? {
      return Err(err.value);
    }
    var variables := LowerVariablesInOrder(g.variables);
    var nodes := LowerNodesInOrder(g);
    var edges := LowerLinksInOrder(g);
    if edges.Err? {
      return Err(edges.error);
    }
    return Ok(CompiledGraph(
      FindEntry(g, BeginPlay), FindEntry(g, ConstructionScript), FindEntry(g, Tick),
      variables, nodes, edges.value.0, edges.value.1));
  }

  lemma {:induction false} LowerErrorSticks(g: GraphData, links: seq<Link>, k: nat)
    requires k <= |links| && LowerLinks(g, links[..k]).Err?
    ensures LowerLinks(g, links) == LowerLinks(g, links[..k])
    decreases |links| - k
  {
    if k < |links| {
      assert links[..k + 1][..k] == links[..k];
      LowerErrorSticks(g, links, k + 1);
    } else {
      assert links[..k] == links;
    }
  }
}
