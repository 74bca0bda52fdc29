/** The interpreter: it walks a compiled graph from an entry node's exec
    output, entering one node after another, and lets each node's runtime
    handler print, update the variable store, run a script and pick the next
    exec input pin. Lookups on the compiled graph and the store are functions;
    one handler step and a whole run are specification functions that the
    state-changing methods of `Interpreter` are proved to follow. */
module Interpret {
  import opened Util
  import opened Model
  import opened Compile
  import opened Digraph
  import opened Runtime

  datatype ExecutionEvent = EnterNode(node: nat) | Print(text: string)

  datatype InterpreterOutput = InterpreterOutput(events: seq<ExecutionEvent>, variables: map<string, Value>)

  /** The output of a run that never started: no events and an empty variable snapshot. */
  const NoOutput := InterpreterOutput([], map[])

  /** What the embedded script engine reports for one snippet run against the store: the texts
      the snippet printed, the store as the snippet left it, and its error, if it failed. */
  datatype ScriptRun = ScriptRun(printed: seq<string>, variables: map<string, Value>, error: Option<string>)

  /** The script engine, a foreign component: a snippet and the store in, a `ScriptRun` out. */
  type ScriptEngine = (string, map<string, Value>) -> ScriptRun

  // ---------------------------------------------------------------------
  // Lookups on the compiled graph

  /** Some entry of the node's pin table carries pin id `p`. */
  predicate TableHolds(n: CompiledNode, p: nat)
  {
    exists name :: name in n.pins && n.pins[name].id == p
  }

  /** The node, smallest id first, whose pin table carries pin id `p`. */
  function OwnerOf(c: CompiledGraph, p: nat): (r: Option<nat>)
    ensures r.None? <==> forall k :: k in c.nodes ==> !TableHolds(c.nodes[k], p)
    ensures r.Some? ==> r.value in c.nodes && TableHolds(c.nodes[r.value], p)
    ensures r.Some? ==> forall k :: k in c.nodes && TableHolds(c.nodes[k], p) ==> r.value <= k
  {
    var owners := set k | k in c.nodes && TableHolds(c.nodes[k], p);
    assert forall k :: k in c.nodes && TableHolds(c.nodes[k], p) ==> k in owners;
    if owners == {} then None else Some(SetMin(owners))
  }

  /** The exec input pin that the exec output `name` of node `nodeId` leads to, if that output
      exists, is an `Exec` pin and is linked. */
  function NextExec(c: CompiledGraph, nodeId: nat, name: string): (r: Option<nat>)
    ensures r.Some? <==> nodeId in c.nodes && name in c.nodes[nodeId].pins
                         && c.nodes[nodeId].pins[name].dataType == DataType.Exec
                         && c.nodes[nodeId].pins[name].id in c.execEdges
    ensures r.Some? ==> r.value == c.execEdges[c.nodes[nodeId].pins[name].id]
  {
    if nodeId !in c.nodes then None
    else
      match NodePin(c.nodes[nodeId], name)
      case None => None
      case Some(pin) =>
        if pin.dataType != DataType.Exec then None
        else if pin.id in c.execEdges then Some(c.execEdges[pin.id])
        else None
  }

  /** The compiled type of the pin `name` of node `nodeId`. */
  function InputPinType(c: CompiledGraph, nodeId: nat, name: string): (r: Option<DataType>)
    ensures r.Some? <==> nodeId in c.nodes && name in c.nodes[nodeId].pins
    ensures r.Some? ==> r.value == c.nodes[nodeId].pins[name].dataType
  {
    if nodeId !in c.nodes then None
    else
      match NodePin(c.nodes[nodeId], name)
      case None => None
      case Some(pin) => Some(pin.dataType)
  }

  /** The value flowing into input `name` of node `nodeId`: the data edge into that pin must come
      from a `GetVariable` node whose `"name"` property names a variable of the store, and the
      variable's value must have the input pin's compiled type. */
  function ReadValueInput(c: CompiledGraph, store: map<string, Value>, nodeId: nat, name: string): (r: Option<Value>)
    ensures r.Some? ==> nodeId in c.nodes && name in c.nodes[nodeId].pins
                        && DataTypeOf(r.value) == c.nodes[nodeId].pins[name].dataType
    ensures r.Some? ==> exists v :: v in store && store[v] == r.value
    ensures r.Some? <==>
      && nodeId in c.nodes && name in c.nodes[nodeId].pins
      && var pin := c.nodes[nodeId].pins[name];
      && pin.id in c.dataEdges
      && var src := OwnerOf(c, c.dataEdges[pin.id]);
      && src.Some? && c.nodes[src.value].kind == GetVariable
      && var v := NameProperty(c.nodes[src.value].properties);
      && v.Some? && v.value in store && DataTypeOf(store[v.value]) == pin.dataType
    ensures r.Some? ==>
      var src := OwnerOf(c, c.dataEdges[c.nodes[nodeId].pins[name].id]).value;
      r.value == store[NameProperty(c.nodes[src].properties).value]
  {
    if nodeId !in c.nodes then None
    else
      match NodePin(c.nodes[nodeId], name)
      case None => None
      case Some(pin) =>
        if pin.id !in c.dataEdges then None
        else
          match OwnerOf(c, c.dataEdges[pin.id])
          case None => None
          case Some(src) =>
            if c.nodes[src].kind != GetVariable then None
            else
              match NameProperty(c.nodes[src].properties)
              case None => None
              case Some(v) =>
                if v !in store then None
                else if DataTypeOf(store[v]) != pin.dataType then None
                else Some(store[v])
  }

  function ReadStringInput(c: CompiledGraph, store: map<string, Value>, nodeId: nat, name: string): (r: Option<string>)
    ensures r.Some? <==> ReadValueInput(c, store, nodeId, name).Some? && ReadValueInput(c, store, nodeId, name).value.String?
    ensures r.Some? ==> ReadValueInput(c, store, nodeId, name).value == Value.String(r.value)
  {
    match ReadValueInput(c, store, nodeId, name)
    case Some(String(s)) => Some(s)
    case _ => None
  }

  function ReadBoolInput(c: CompiledGraph, store: map<string, Value>, nodeId: nat, name: string): (r: Option<bool>)
    ensures r.Some? <==> ReadValueInput(c, store, nodeId, name).Some? && ReadValueInput(c, store, nodeId, name).value.Bool?
    ensures r.Some? ==> ReadValueInput(c, store, nodeId, name).value == Value.Bool(r.value)
  {
    match ReadValueInput(c, store, nodeId, name)
    case Some(Bool(b)) => Some(b)
    case _ => None
  }

  /** A node's property `key` when it holds a string. */
  function StringProperty(props: map<string, Value>, key: string): (r: Option<string>)
    ensures r.Some? <==> key in props && props[key].String?
    ensures r.Some? ==> props[key] == Value.String(r.value)
  {
    if key in props && props[key].String? then Some(props[key].s) else None
  }

  function OrElse<T>(a: Option<T>, b: Option<T>): (r: Option<T>)
    ensures a.Some? ==> r == a
    ensures a.None? ==> r == b
  {
    if a.Some? then a else b
  }

  function Unwrap<T>(a: Option<T>, fallback: T): (r: T)
    ensures a.Some? ==> r == a.value
    ensures a.None? ==> r == fallback
  {
    if a.Some? then a.value else fallback
  }

  // ---------------------------------------------------------------------
  // One handler step

  /** What executing one node does: the events it adds after its `EnterNode`, the store it leaves
      and the exec input pin to follow next. */
  datatype StepResult = StepResult(emitted: seq<ExecutionEvent>, store: map<string, Value>, next: Option<nat>)

  /** The text a Print node prints: its linked string input, else its string property `"text"`,
      else the empty string. */
  function PrintText(c: CompiledGraph, store: map<string, Value>, nodeId: nat, node: CompiledNode): string
  {
    Unwrap(OrElse(ReadStringInput(c, store, nodeId, "text"), StringProperty(node.properties, "text")), "")
  }

  /** The condition of a Branch node: its linked bool input, else its bool property
      `"condition"`, else false. */
  function BranchCondition(c: CompiledGraph, store: map<string, Value>, nodeId: nat, node: CompiledNode): bool
  {
    var prop := if "condition" in node.properties && node.properties["condition"].Bool?
                then Some(node.properties["condition"].b) else None;
    Unwrap(OrElse(ReadBoolInput(c, store, nodeId, "condition"), prop), false)
  }

  /** The variable a SetVariable node writes: its string property `"name"`, else `"var"`. */
  function TargetName(node: CompiledNode): string
  {
    Unwrap(StringProperty(node.properties, "name"), "var")
  }

  /** The value a SetVariable node stores: its linked input; else its `"value"` property when that
      has the `"value"` pin's compiled type (`Unit` when the pin is missing); else `Unit`. */
  function AssignedValue(c: CompiledGraph, store: map<string, Value>, nodeId: nat, node: CompiledNode): Value
  {
    var expected := TypeOr(InputPinType(c, nodeId, "value"), DataType.Unit);
    var prop := if "value" in node.properties && DataTypeOf(node.properties["value"]) == expected
                then Some(node.properties["value"]) else None;
    Unwrap(OrElse(ReadValueInput(c, store, nodeId, "value"), prop), Value.Unit)
  }

  /** The snippet a RhaiScript node runs: its linked string input, else its string property
      `"code"`, else the empty snippet. */
  function ScriptCode(c: CompiledGraph, store: map<string, Value>, nodeId: nat, node: CompiledNode): string
  {
    Unwrap(OrElse(ReadStringInput(c, store, nodeId, "code"), StringProperty(node.properties, "code")), "")
  }

  function Prints(texts: seq<string>): (events: seq<ExecutionEvent>)
    ensures |events| == |texts|
    ensures forall i :: 0 <= i < |texts| ==> events[i] == ExecutionEvent.Print(texts[i])
  {
    seq(|texts|, i requires 0 <= i < |texts| => ExecutionEvent.Print(texts[i]))
  }

  /** A script run's events: what the snippet printed, then the engine's error as a print. */
  function ScriptEvents(run: ScriptRun): seq<ExecutionEvent>
  {
    Prints(run.printed) + (if run.error.Some? then [ExecutionEvent.Print("[Rhai error] " + run.error.value)] else [])
  }

  /** One step of the handler that `RuntimeFor` picks for the node's kind. */
  function Step(c: CompiledGraph, engine: ScriptEngine, store: map<string, Value>, nodeId: nat, node: CompiledNode): StepResult
  {
    match RuntimeFor(node.kind)
    case PrintHandler =>
      StepResult([ExecutionEvent.Print(PrintText(c, store, nodeId, node))], store, NextExec(c, nodeId, "then"))
    case BranchHandler =>
      StepResult([], store, NextExec(c, nodeId, if BranchCondition(c, store, nodeId, node) then "true" else "false"))
    case SetVariableHandler =>
      StepResult([], store[TargetName(node) := AssignedValue(c, store, nodeId, node)], NextExec(c, nodeId, "then"))
    case RhaiScriptHandler =>
      var run := engine(ScriptCode(c, store, nodeId, node), store);
      StepResult(ScriptEvents(run), run.variables, NextExec(c, nodeId, "then"))
    case Passthrough =>
      StepResult([], store, NextExec(c, nodeId, "then"))
  }

  /** Every handler continues along one of the node's own exec outputs, emits only prints, and
      only SetVariable and RhaiScript nodes touch the store: SetVariable writes one variable, with
      a value of the `"value"` pin's compiled type or `Unit`. */
  lemma StepEffects(c: CompiledGraph, engine: ScriptEngine, store: map<string, Value>, nodeId: nat, node: CompiledNode)
    ensures var s := Step(c, engine, store, nodeId, node);
      && (s.next.None? || exists name :: name in {"then", "true", "false"} && s.next == NextExec(c, nodeId, name))
      && (forall i :: 0 <= i < |s.emitted| ==> s.emitted[i].Print?)
      && (node.kind !in {SetVariable, RhaiScript} ==> s.store == store)
      && (node.kind == SetVariable ==>
            && s.store == store[TargetName(node) := AssignedValue(c, store, nodeId, node)]
            && var v := AssignedValue(c, store, nodeId, node);
               v == Value.Unit || DataTypeOf(v) == TypeOr(InputPinType(c, nodeId, "value"), DataType.Unit))
      && (node.kind == BuiltinNodeKind.Print ==> |s.emitted| == 1)
  {
    var s := Step(c, engine, store, nodeId, node);
    if s.next.Some? {
      match RuntimeFor(node.kind)
      case BranchHandler =>
        var name := if BranchCondition(c, store, nodeId, node) then "true" else "false";
        assert name in {"then", "true", "false"};
      case _ =>
        assert "then" in {"then", "true", "false"};
    }
  }

  /** A Branch node continues on `"true"` exactly when its condition holds. */
  lemma BranchFollowsCondition(c: CompiledGraph, engine: ScriptEngine, store: map<string, Value>, nodeId: nat, node: CompiledNode)
    requires node.kind == Branch
    ensures BranchCondition(c, store, nodeId, node) ==> Step(c, engine, store, nodeId, node).next == NextExec(c, nodeId, "true")
    ensures !BranchCondition(c, store, nodeId, node) ==> Step(c, engine, store, nodeId, node).next == NextExec(c, nodeId, "false")
  {
  }

  /** The Print text's sources in order: the linked string input wins, then a string `"text"`
      literal; a literal of any other type is ignored and the text is empty. */
  lemma PrintTextOrder(c: CompiledGraph, store: map<string, Value>, nodeId: nat, node: CompiledNode)
    ensures var linked := ReadStringInput(c, store, nodeId, "text");
      && (linked.Some? ==> PrintText(c, store, nodeId, node) == linked.value)
      && (linked.None? && "text" in node.properties && node.properties["text"].String? ==>
            PrintText(c, store, nodeId, node) == node.properties["text"].s)
      && (linked.None? && ("text" !in node.properties || !node.properties["text"].String?) ==>
            PrintText(c, store, nodeId, node) == "")
  {
  }

  /** The Branch condition's sources in order: the linked bool input, then a bool `"condition"`
      literal; anything else counts as false. */
  lemma BranchConditionOrder(c: CompiledGraph, store: map<string, Value>, nodeId: nat, node: CompiledNode)
    ensures var linked := ReadBoolInput(c, store, nodeId, "condition");
      && (linked.Some? ==> BranchCondition(c, store, nodeId, node) == linked.value)
      && (linked.None? && "condition" in node.properties && node.properties["condition"].Bool? ==>
            BranchCondition(c, store, nodeId, node) == node.properties["condition"].b)
      && (linked.None? && ("condition" !in node.properties || !node.properties["condition"].Bool?) ==>
            !BranchCondition(c, store, nodeId, node))
  {
  }

  /** A SetVariable node writes the variable its string `"name"` names, else `"var"`; the value is
      the linked input, else the `"value"` literal when its type is the pin's compiled type (or
      `Unit` without a pin), else `Unit`. */
  lemma SetVariableOrder(c: CompiledGraph, store: map<string, Value>, nodeId: nat, node: CompiledNode)
    ensures "name" in node.properties && node.properties["name"].String? ==> TargetName(node) == node.properties["name"].s
    ensures !("name" in node.properties && node.properties["name"].String?) ==> TargetName(node) == "var"
    ensures var linked := ReadValueInput(c, store, nodeId, "value");
            var expected := if nodeId in c.nodes && "value" in c.nodes[nodeId].pins
                            then c.nodes[nodeId].pins["value"].dataType else DataType.Unit;
      && (linked.Some? ==> AssignedValue(c, store, nodeId, node) == linked.value)
      && (linked.None? && "value" in node.properties && DataTypeOf(node.properties["value"]) == expected ==>
            AssignedValue(c, store, nodeId, node) == node.properties["value"])
      && (linked.None? && !("value" in node.properties && DataTypeOf(node.properties["value"]) == expected) ==>
            AssignedValue(c, store, nodeId, node) == Value.Unit)
  {
  }

  /** The pass-through handler only follows `"then"`: it reads no input and no property. */
  lemma PassthroughIgnoresNode(c: CompiledGraph, engine: ScriptEngine, store: map<string, Value>, nodeId: nat,
                               node: CompiledNode, props: map<string, Value>)
    requires RuntimeFor(node.kind) == Passthrough
    ensures Step(c, engine, store, nodeId, node) == StepResult([], store, NextExec(c, nodeId, "then"))
    ensures Step(c, engine, store, nodeId, node) == Step(c, engine, store, nodeId, node.(properties := props))
  {
  }

  /** GetVariable, Self and GetActorName templates have no `"then"` pin, so a compiled node of one
      of these kinds that keeps its template ends the chain, and does nothing else. */
  lemma TemplateWithoutThenEnds(g: GraphData, c: CompiledGraph, engine: ScriptEngine, store: map<string, Value>, k: nat)
    requires c.nodes == LowerNodes(g) && k in g.nodes
    requires g.nodes[k].kind in {GetVariable, SelfActor, GetActorName}
    requires g.nodes[k].pins == DefaultPins(g.nodes[k].kind)
    ensures Step(c, engine, store, k, c.nodes[k]) == StepResult([], store, None)
  {
    var pins := g.nodes[k].pins;
    assert forall i :: 0 <= i < |pins| ==> pins[i].name != "then";
    assert "then" !in c.nodes[k].pins;
  }

  // ---------------------------------------------------------------------
  // A whole run

  /** Node `a` can hand control to node `b`: one of `a`'s exec outputs leads to an exec input
      that the interpreter attributes to `b`. */
  ghost predicate StepEdge(c: CompiledGraph, a: nat, b: nat)
  {
    exists name :: NextExec(c, a, name).Some? && OwnerOf(c, NextExec(c, a, name).value) == Some(b)
  }

  /** The graph of all possible hand-overs between compiled nodes. */
  ghost function StepGraph(c: CompiledGraph): Graph
  {
    map a | a in c.nodes :: (set b | b in c.nodes && StepEdge(c, a, b))
  }

  /** The interpreter's runs end: no chain of hand-overs revisits a node. */
  ghost predicate Terminating(c: CompiledGraph)
  {
    Acyclic(StepGraph(c))
  }

  /** How far a run that is about to follow `next` can still go. */
  ghost function Remaining(c: CompiledGraph, next: Option<nat>): nat
  {
    if next.None? then 0
    else
      match OwnerOf(c, next.value)
      case None => 0
      case Some(m) => |Reach(StepGraph(c), m)| + 1
  }

  /** The pin a handler continues with leads, if anywhere, to a successor in the step graph. */
  lemma StepAdvances(c: CompiledGraph, engine: ScriptEngine, store: map<string, Value>, m: nat)
    requires m in c.nodes
    ensures var s := Step(c, engine, store, m, c.nodes[m]);
      s.next.Some? && OwnerOf(c, s.next.value).Some? ==> Edge(StepGraph(c), m, OwnerOf(c, s.next.value).value)
  {
    var s := Step(c, engine, store, m, c.nodes[m]);
    StepEffects(c, engine, store, m, c.nodes[m]);
    if s.next.Some? && OwnerOf(c, s.next.value).Some? {
      var b := OwnerOf(c, s.next.value).value;
      var name :| name in {"then", "true", "false"} && s.next == NextExec(c, m, name);
      assert StepEdge(c, m, b);
      assert b in StepGraph(c)[m];
    }
  }

  /** Following an acyclic step graph, each step strictly lowers what remains of the run. */
  lemma StepShrinks(c: CompiledGraph, engine: ScriptEngine, store: map<string, Value>, m: nat, next: Option<nat>)
    requires Terminating(c) && next.Some? && OwnerOf(c, next.value) == Some(m)
    ensures Remaining(c, Step(c, engine, store, m, c.nodes[m]).next) < Remaining(c, next)
  {
    var s := Step(c, engine, store, m, c.nodes[m]);
    StepAdvances(c, engine, store, m);
    if s.next.Some? && OwnerOf(c, s.next.value).Some? {
      ReachShrinks(StepGraph(c), m, OwnerOf(c, s.next.value).value);
    }
  }

  /** The events and the final store of a run that is about to follow exec input pin `next`. */
  ghost function Chain(c: CompiledGraph, engine: ScriptEngine, store: map<string, Value>, next: Option<nat>)
    : (seq<ExecutionEvent>, map<string, Value>)
    requires Terminating(c)
    decreases Remaining(c, next)
  {
    if next.None? then ([], store)
    else
      match OwnerOf(c, next.value)
      case None => ([], store)
      case Some(m) =>
        var s := Step(c, engine, store, m, c.nodes[m]);
        StepShrinks(c, engine, store, m, next);
        var rest := Chain(c, engine, s.store, s.next);
        ([EnterNode(m)] + s.emitted + rest.0, rest.1)
  }

  /** The output of a run from exec output `pinName` of `start`, and the store it leaves. A
      missing start node, a missing pin or a non-`Exec` pin ends the run before it begins, with
      an empty output and the store untouched. */
  ghost function RunFrom(c: CompiledGraph, engine: ScriptEngine, store: map<string, Value>, start: nat, pinName: string)
    : (InterpreterOutput, map<string, Value>)
    requires Terminating(c)
  {
    if start !in c.nodes || pinName !in c.nodes[start].pins
       || c.nodes[start].pins[pinName].dataType != DataType.Exec then (NoOutput, store)
    else
      var id := c.nodes[start].pins[pinName].id;
      var r := Chain(c, engine, store, if id in c.execEdges then Some(c.execEdges[id]) else None);
      (InterpreterOutput(r.0, r.1), r.1)
  }

  /** A run that cannot start reports an empty variable map, not the store; a run that starts
      reports exactly the store it leaves behind. */
  lemma RunFromSnapshot(c: CompiledGraph, engine: ScriptEngine, store: map<string, Value>, start: nat, pinName: string)
    requires Terminating(c)
    ensures var r := RunFrom(c, engine, store, start, pinName);
      && (start !in c.nodes || pinName !in c.nodes[start].pins
            || c.nodes[start].pins[pinName].dataType != DataType.Exec ==>
          r.0.events == [] && r.0.variables == map[] && r.1 == store)
      && (start in c.nodes && pinName in c.nodes[start].pins && c.nodes[start].pins[pinName].dataType == DataType.Exec ==>
          r.0.variables == r.1 && r.0.events == Chain(c, engine, store, NextExec(c, start, pinName)).0)
  {
  }

  /** The nodes a run entered, in order. */
  function Entered(events: seq<ExecutionEvent>): (w: seq<nat>)
    ensures |w| <= |events|
  {
    if |events| == 0 then []
    else (if events[0].EnterNode? then [events[0].node] else []) + Entered(events[1..])
  }

  lemma {:induction false} EnteredAppend(a: seq<ExecutionEvent>, b: seq<ExecutionEvent>)
    ensures Entered(a + b) == Entered(a) + Entered(b)
    decreases |a|
  {
    if |a| > 0 {
      assert (a + b)[0] == a[0] && (a + b)[1..] == a[1..] + b;
      EnteredAppend(a[1..], b);
    } else {
      assert a + b == b;
    }
  }

  lemma {:induction false} EnteredPrints(events: seq<ExecutionEvent>)
    requires forall i :: 0 <= i < |events| ==> events[i].Print?
    ensures Entered(events) == []
    decreases |events|
  {
    if |events| > 0 {
      EnteredPrints(events[1..]);
    }
  }

  /** A run that enters `m` enters it first, then whatever the rest of the run enters: the
      handler's own events are prints only. */
  lemma ChainEnters(c: CompiledGraph, engine: ScriptEngine, store: map<string, Value>, next: Option<nat>, m: nat)
    requires Terminating(c) && next.Some? && OwnerOf(c, next.value) == Some(m)
    ensures var s := Step(c, engine, store, m, c.nodes[m]);
      Entered(Chain(c, engine, store, next).0) == [m] + Entered(Chain(c, engine, s.store, s.next).0)
  {
    var s := Step(c, engine, store, m, c.nodes[m]);
    StepShrinks(c, engine, store, m, next);
    var rest := Chain(c, engine, s.store, s.next);
    assert Chain(c, engine, store, next).0 == [EnterNode(m)] + s.emitted + rest.0;
    StepEffects(c, engine, store, m, c.nodes[m]);
    EnteredPrints(s.emitted);
    EnteredAppend([EnterNode(m)] + s.emitted, rest.0);
    EnteredAppend([EnterNode(m)], s.emitted);
    assert Entered([EnterNode(m)]) == [m] by {
      assert [EnterNode(m)][1..] == [];
    }
  }

  /** The nodes a run enters form a walk of the step graph that starts at the owner of the first
      exec input pin. */
  lemma {:induction false} ChainWalks(c: CompiledGraph, engine: ScriptEngine, store: map<string, Value>, next: Option<nat>)
    requires Terminating(c)
    ensures var w := Entered(Chain(c, engine, store, next).0);
      w == [] || (IsWalk(StepGraph(c), w) && next.Some? && OwnerOf(c, next.value) == Some(w[0]))
    decreases Remaining(c, next)
  {
    if next.Some? && OwnerOf(c, next.value).Some? {
      var m := OwnerOf(c, next.value).value;
      var s := Step(c, engine, store, m, c.nodes[m]);
      StepShrinks(c, engine, store, m, next);
      ChainWalks(c, engine, s.store, s.next);
      ChainEnters(c, engine, store, next, m);
      var w := Entered(Chain(c, engine, s.store, s.next).0);
      if w == [] {
        assert IsWalk(StepGraph(c), [m]);
      } else {
        StepAdvances(c, engine, store, m);
        WalkPrepend(StepGraph(c), m, w);
      }
    }
  }

  /** A run enters each compiled node at most once, so it enters at most as many nodes as the
      graph has. */
  lemma RunVisitsOnce(c: CompiledGraph, engine: ScriptEngine, store: map<string, Value>, next: Option<nat>)
    requires Terminating(c)
    ensures Distinct(Entered(Chain(c, engine, store, next).0))
    ensures |Entered(Chain(c, engine, store, next).0)| <= |c.nodes|
  {
    var w := Entered(Chain(c, engine, store, next).0);
    ChainWalks(c, engine, store, next);
    if w != [] {
      forall i | 0 <= i < |w| ensures w[i] in c.nodes.Keys {
        if i > 0 {
          assert Edge(StepGraph(c), w[i - 1], w[i]);
        }
      }
      AcyclicWalkBound(StepGraph(c), w, c.nodes.Keys);
    }
  }

  lemma ConcatAssoc<T>(a: seq<T>, b: seq<T>, c: seq<T>, d: seq<T>)
    ensures a + (b + c + d) == a + b + c + d
  {
  }

  // ---------------------------------------------------------------------
  // The interpreter object

  class Interpreter {
    const compiled: CompiledGraph
    /** The script engine every RhaiScript node runs its snippet on. */
    const engine: ScriptEngine
    /** The live variable store, seeded with the compiled defaults. */
    var variables: map<string, Value>

    constructor(compiled: CompiledGraph, engine: ScriptEngine)
      ensures this.compiled == compiled && this.engine == engine
      ensures variables == compiled.variables
    {
      this.compiled := compiled;
      this.engine := engine;
      variables := compiled.variables;
    }

    method SetVariable(name: string, value: Value)
      modifies this
      ensures variables == old(variables)[name := value]
    {
      variables := variables[name := value];
    }

    /** Runs a snippet on the engine: the store becomes the engine's, and what the snippet
        printed is appended to `events`; the engine's error, if any, is returned. */
    method ExecuteScript(code: string, events: seq<ExecutionEvent>) returns (events': seq<ExecutionEvent>, error: Option<string>)
      modifies this
      ensures var run := engine(code, old(variables));
        variables == run.variables && events' == events + Prints(run.printed) && error == run.error
    {
      var run := engine(code, variables);
      variables := run.variables;
      events' := events + Prints(run.printed);
      error := run.error;
    }

    method ExecutePrint(nodeId: nat, node: CompiledNode, events: seq<ExecutionEvent>) returns (events': seq<ExecutionEvent>, next: Option<nat>)
      ensures events' == events + [ExecutionEvent.Print(PrintText(compiled, variables, nodeId, node))]
      ensures next == NextExec(compiled, nodeId, "then")
    {
      var text := Unwrap(OrElse(ReadStringInput(compiled, variables, nodeId, "text"), StringProperty(node.properties, "text")), "");
      events' := events + [ExecutionEvent.Print(text)];
      next := NextExec(compiled, nodeId, "then");
    }

    method ExecuteBranch(nodeId: nat, node: CompiledNode) returns (next: Option<nat>)
      ensures next == NextExec(compiled, nodeId, if BranchCondition(compiled, variables, nodeId, node) then "true" else "false")
    {
      var condition := BranchCondition(compiled, variables, nodeId, node);
      if condition {
        next := NextExec(compiled, nodeId, "true");
      } else {
        next := NextExec(compiled, nodeId, "false");
      }
    }

    method ExecuteSetVariable(nodeId: nat, node: CompiledNode) returns (next: Option<nat>)
      modifies this
      ensures variables == old(variables)[TargetName(node) := AssignedValue(compiled, old(variables), nodeId, node)]
      ensures next == NextExec(compiled, nodeId, "then")
    {
      var name := Unwrap(StringProperty(node.properties, "name"), "var");
      var value := AssignedValue(compiled, variables, nodeId, node);
      SetVariable(name, value);
      next := NextExec(compiled, nodeId, "then");
    }

    method ExecuteRhaiScript(nodeId: nat, node: CompiledNode, events: seq<ExecutionEvent>) returns (events': seq<ExecutionEvent>, next: Option<nat>)
      modifies this
      ensures var run := engine(ScriptCode(compiled, old(variables), nodeId, node), old(variables));
        variables == run.variables && events' == events + ScriptEvents(run)
      ensures next == NextExec(compiled, nodeId, "then")
    {
      var code := ScriptCode(compiled, variables, nodeId, node);
      var error;
      events', error := ExecuteScript(code, events);
      if error.Some? {
        events' := events' + [ExecutionEvent.Print("[Rhai error] " + error.value)];
      }
      next := NextExec(compiled, nodeId, "then");
    }

    /** Dispatches to the node kind's handler. */
    method Execute(nodeId: nat, node: CompiledNode, events: seq<ExecutionEvent>) returns (events': seq<ExecutionEvent>, next: Option<nat>)
      modifies this
      ensures var s := Step(compiled, engine, old(variables), nodeId, node);
        events' == events + s.emitted && variables == s.store && next == s.next
    {
      match RuntimeFor(node.kind)
      case PrintHandler =>
        events', next := ExecutePrint(nodeId, node, events);
      case BranchHandler =>
        events' := events;
        next := ExecuteBranch(nodeId, node);
      case SetVariableHandler =>
        events' := events;
        next := ExecuteSetVariable(nodeId, node);
      case RhaiScriptHandler =>
        events', next := ExecuteRhaiScript(nodeId, node, events);
      case Passthrough =>
        events' := events;
        next := NextExec(compiled, nodeId, "then");
    }

    /** Runs from exec output `pinName` of `startNode`, entering node after node until no exec
        input pin is left to follow or it has no owner; the output snapshots the final store. */
    method RunFromExecOut(startNode: nat, pinName: string) returns (out: InterpreterOutput)
      requires Terminating(compiled)
      modifies this
      ensures (out, variables) == RunFrom(compiled, engine, old(variables), startNode, pinName)
    {
      out := NoOutput;
      if startNode !in compiled.nodes {
        return;
      }
      var pin := NodePin(compiled.nodes[startNode], pinName);
      if pin.None? || pin.value.dataType != DataType.Exec {
        return;
      }
      var next := if pin.value.id in compiled.execEdges then Some(compiled.execEdges[pin.value.id]) else None;
      ghost var total := Chain(compiled, engine, variables, next);
      assert RunFrom(compiled, engine, variables, startNode, pinName) == (InterpreterOutput(total.0, total.1), total.1);
      var events: seq<ExecutionEvent> := [];
      while next.Some?
        invariant total.0 == events + Chain(compiled, engine, variables, next).0
        invariant total.1 == Chain(compiled, engine, variables, next).1
        decreases Remaining(compiled, next)
      {
        var owner := OwnerOf(compiled, next.value);
        if owner.None? {
          assert Chain(compiled, engine, variables, next) == ([], variables);
          break;
        }
        var nodeId := owner.value;
        ghost var before := events;
        events := events + [EnterNode(nodeId)];
        // The owner is a key of the node table, so `run_from_exec_out`'s `compiled.nodes.get` of it cannot fail.
        var node := compiled.nodes[nodeId];
        StepShrinks(compiled, engine, variables, nodeId, next);
        ghost var s := Step(compiled, engine, variables, nodeId, node);
        ghost var rest := Chain(compiled, engine, s.store, s.next);
        assert Chain(compiled, engine, variables, next) == ([EnterNode(nodeId)] + s.emitted + rest.0, rest.1);
        events, next := Execute(nodeId, node, events);
        assert events == before + [EnterNode(nodeId)] + s.emitted && variables == s.store && next == s.next;
        ConcatAssoc(before, [EnterNode(nodeId)], s.emitted, rest.0);
      }
      assert Chain(compiled, engine, variables, next) == ([], variables);
      assert events + [] == events;
      assert total == (events, variables);
      out := InterpreterOutput(events, variables);
    }

    method RunEntry(entry: Option<nat>) returns (out: InterpreterOutput)
      requires Terminating(compiled)
      modifies this
      ensures entry.None? ==> out == NoOutput && variables == old(variables)
      ensures entry.Some? ==> (out, variables) == RunFrom(compiled, engine, old(variables), entry.value, "then")
    {
      if entry.None? {
        return NoOutput;
      }
      out := RunFromExecOut(entry.value, "then");
    }

    method RunBeginPlay() returns (out: InterpreterOutput)
      requires Terminating(compiled)
      modifies this
      ensures compiled.beginPlayEntry.None? ==> out == NoOutput && variables == old(variables)
      ensures compiled.beginPlayEntry.Some? ==>
        (out, variables) == RunFrom(compiled, engine, old(variables), compiled.beginPlayEntry.value, "then")
    {
      out := RunEntry(compiled.beginPlayEntry);
    }

    method RunConstructionScript() returns (out: InterpreterOutput)
      requires Terminating(compiled)
      modifies this
      ensures compiled.constructionEntry.None? ==> out == NoOutput && variables == old(variables)
      ensures compiled.constructionEntry.Some? ==>
        (out, variables) == RunFrom(compiled, engine, old(variables), compiled.constructionEntry.value, "then")
    {
      out := RunEntry(compiled.constructionEntry);
    }

    /** One frame: with a Tick entry, stores the frame time as `"__dt"` and runs from the Tick
        node; without one, does nothing. */
    method Tick(dt: real) returns (out: InterpreterOutput)
      requires Terminating(compiled)
      modifies this
      ensures compiled.tickEntry.None? ==> out == NoOutput && variables == old(variables)
      ensures compiled.tickEntry.Some? ==>
        (out, variables) == RunFrom(compiled, engine, old(variables)["__dt" := Value.F32(dt)], compiled.tickEntry.value, "then")
    {
      if compiled.tickEntry.None? {
        return NoOutput;
      }
      variables := variables["__dt" := Value.F32(dt)];
      out := RunFromExecOut(compiled.tickEntry.value, "then");
    }
  }
}
