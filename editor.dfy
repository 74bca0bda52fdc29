/** The graph-editing logic of the blueprint editor: the pin-type rule it shares
    with the compiler, how a dragged connection is oriented and applied, fresh
    names for variables, graphs and functions, and how renaming or retyping a
    variable reaches the nodes that use it. */
module Editor {
  import opened Util
  import opened Model
  import opened Compile

  // ---------------------------------------------------------------------
  // Pin types

  /** The editor's own copy of the pin-type rule: the `"value"` pin of a Get/SetVariable node takes
      the type of the first declared variable its String `"name"` property names, otherwise (and for
      every other pin) the template type. */
  function EditorPinType(g: GraphData, id: nat): (r: Option<DataType>)
  {
    match PinOf(g.nodes, id)
    case None => None
    case Some(pin) =>
      match PinOwner(g.nodes, id)
      case None => None
      case Some(k) =>
        var node := g.nodes[k];
        if (node.kind == GetVariable || node.kind == SetVariable) && pin.name == "value" then
          if "name" in node.properties && node.properties["name"].String? then
            match FindVariable(g.variables, node.properties["name"].s)
            case Some(v) => Some(v.dataType)
            case None => Some(pin.dataType)
          else Some(pin.dataType)
        else Some(pin.dataType)
  }

  /** The editor and the compiler agree on the type of every pin. */
  lemma EditorAgreesWithCompiler(g: GraphData, id: nat)
    ensures EditorPinType(g, id) == ActualPinType(g, id)
  {
  }

  /** The type a connection end is checked by: the pin's type, falling back on its template type. */
  function EndType(g: GraphData, id: nat, pin: Pin): DataType
  {
    TypeOr(EditorPinType(g, id), pin.dataType)
  }

  // ---------------------------------------------------------------------
  // Orienting a connection

  /** Whether a link from output `f` to input `t` may be drawn in partition `expected`: two distinct
      existing pins of nodes of that partition, an output and an input, of equal types. */
  ghost predicate Connectable(g: GraphData, f: nat, t: nat, expected: string)
  {
    && f != t
    && PinOf(g.nodes, f).Some? && PinOf(g.nodes, t).Some?
    && g.nodes[PinOwner(g.nodes, f).value].graph == expected
    && g.nodes[PinOwner(g.nodes, t).value].graph == expected
    && PinOf(g.nodes, f).value.direction == Output
    && PinOf(g.nodes, t).value.direction == Input
    && ActualPinType(g, f) == ActualPinType(g, t)
  }

  /** The (output, input) pair that the pins `a` and `b` make, in whichever order they were given. */
  function ResolveConnection(g: GraphData, a: nat, b: nat, expected: string): (r: Option<(nat, nat)>)
  {
    if a == b then None
    else
      match PinOf(g.nodes, a)
      case None => None
      case Some(pa) =>
        match PinOf(g.nodes, b)
        case None => None
        case Some(pb) =>
          match PinOwner(g.nodes, a)
          case None => None
          case Some(oa) =>
            match PinOwner(g.nodes, b)
            case None => None
            case Some(ob) =>
              if g.nodes[oa].graph != expected || g.nodes[ob].graph != expected then None
              else if pa.direction == Output && pb.direction == Input then
                if EndType(g, a, pa) != EndType(g, b, pb) then None else Some((a, b))
              else if pa.direction == Input && pb.direction == Output then
                if EndType(g, b, pb) != EndType(g, a, pa) then None else Some((b, a))
              else None
  }

  /** A connection resolves to `(a, b)` exactly when `a` may feed `b`, to `(b, a)` exactly when `b`
      may feed `a`, and to nothing otherwise; the order the pins were picked in does not matter. */
  lemma ResolveConnectionOriented(g: GraphData, a: nat, b: nat, expected: string)
    ensures ResolveConnection(g, a, b, expected) == Some((a, b)) <==> Connectable(g, a, b, expected)
    ensures ResolveConnection(g, a, b, expected) == Some((b, a)) <==> Connectable(g, b, a, expected)
    ensures ResolveConnection(g, a, b, expected).None?
            <==> !Connectable(g, a, b, expected) && !Connectable(g, b, a, expected)
    ensures ResolveConnection(g, a, b, expected) == ResolveConnection(g, b, a, expected)
  {
    EditorAgreesWithCompiler(g, a);
    EditorAgreesWithCompiler(g, b);
  }

  // ---------------------------------------------------------------------
  // Applying a connection

  /** Whether a link survives the clean-up before `from -> to` is added: no link may end at `to`
      and, for an exec connection, none may leave `from`. */
  predicate KeepLink(l: Link, from: nat, to: nat, exec: bool)
  {
    l.to != to && (!exec || l.from != from)
  }

  /** `retain`: the links that survive, in their order. */
  function Retain(links: seq<Link>, from: nat, to: nat, exec: bool): (r: seq<Link>)
    ensures forall l :: l in r <==> l in links && KeepLink(l, from, to, exec)
    decreases |links|
  {
    if |links| == 0 then []
    else
      var init := links[..|links| - 1];
      var last := links[|links| - 1];
      assert links == init + [last];
      Retain(init, from, to, exec) + (if KeepLink(last, from, to, exec) then [last] else [])
  }

  /** Retaining distributes over concatenation, so the surviving links keep their relative order. */
  lemma {:induction false} RetainConcat(a: seq<Link>, b: seq<Link>, from: nat, to: nat, exec: bool)
    ensures Retain(a + b, from, to, exec) == Retain(a, from, to, exec) + Retain(b, from, to, exec)
    decreases |b|
  {
    if |b| > 0 {
      var b' := b[..|b| - 1];
      assert (a + b)[..|a + b| - 1] == a + b';
      assert (a + b)[|a + b| - 1] == b[|b| - 1];
      RetainConcat(a, b', from, to, exec);
    } else {
      assert a + b == a;
    }
  }

  /** The links after `apply_connection(from, to)`: unchanged unless `from` is an output and `to`
      an input of equal types; otherwise the clashing links are dropped and the new one appended
      unless it is already there. */
  function ConnectedLinks(g: GraphData, from: nat, to: nat): seq<Link>
  {
    match PinOf(g.nodes, from)
    case None => g.links
    case Some(fromPin) =>
      match PinOf(g.nodes, to)
      case None => g.links
      case Some(toPin) =>
        var t := EndType(g, from, fromPin);
        if fromPin.direction != Output || toPin.direction != Input || t != EndType(g, to, toPin) then g.links
        else
          var kept := Retain(g.links, from, to, t == DataType.Exec);
          if Link(from, to) in kept then kept else kept + [Link(from, to)]
  }

  /** A refused connection leaves the links as they were; an accepted one appends `from -> to` after
      the surviving links, so it is the only link into `to` and, for exec, the only one out of `from`. */
  lemma ConnectedLinksShape(g: GraphData, from: nat, to: nat)
    ensures !(PinOf(g.nodes, from).Some? && PinOf(g.nodes, to).Some?
              && PinOf(g.nodes, from).value.direction == Output && PinOf(g.nodes, to).value.direction == Input
              && ActualPinType(g, from) == ActualPinType(g, to))
            ==> ConnectedLinks(g, from, to) == g.links
    ensures PinOf(g.nodes, from).Some? && PinOf(g.nodes, to).Some?
            && PinOf(g.nodes, from).value.direction == Output && PinOf(g.nodes, to).value.direction == Input
            && ActualPinType(g, from) == ActualPinType(g, to)
            ==> var exec := ActualPinType(g, from) == Some(DataType.Exec);
                var r := ConnectedLinks(g, from, to);
                && r == Retain(g.links, from, to, exec) + [Link(from, to)]
                && (forall l :: l in r && l.to == to ==> l == Link(from, to))
                && (exec ==> forall l :: l in r && l.from == from ==> l == Link(from, to))
  {
    EditorAgreesWithCompiler(g, from);
    EditorAgreesWithCompiler(g, to);
  }

  // ---------------------------------------------------------------------
  // Fresh names

  /** The `k`-th name tried: the base itself, then the base followed by 1, 2, ... */
  function Candidate(base: string, k: nat): (s: string)
    ensures |s| >= |base| && s[..|base|] == base
  {
    if k == 0 then base else base + NatToString(k)
  }

  lemma CandidatesDistinct(base: string, i: nat, j: nat)
    requires i != j
    ensures Candidate(base, i) != Candidate(base, j)
  {
    if i != 0 && j != 0 && Candidate(base, i) == Candidate(base, j) {
      assert Candidate(base, i)[|base|..] == NatToString(i);
      assert Candidate(base, j)[|base|..] == NatToString(j);
      NatToStringInjective(i, j);
    }
  }

  /** `n` distinct candidates that are all taken fit in the taken set. */
  lemma TakenCandidatesBound(taken: set<string>, base: string, n: nat)
    requires forall k :: 0 <= k < n ==> Candidate(base, k) in taken
    ensures n <= |taken|
  {
    var w := seq(n, k requires 0 <= k < n => Candidate(base, k));
    forall a, b | 0 <= a < b < |w| ensures w[a] != w[b] {
      CandidatesDistinct(base, a, b);
    }
    DistinctSeqBound(w, taken);
  }

  /** The first candidate that is not taken. */
  method UniqueName(taken: set<string>, base: string) returns (name: string)
    ensures name !in taken
    ensures exists k: nat :: name == Candidate(base, k) && forall j :: 0 <= j < k ==> Candidate(base, j) in taken
  {
    name := base;
    var i := 1;
    while name in taken
      invariant 1 <= i && name == Candidate(base, i - 1)
      invariant forall j :: 0 <= j < i - 1 ==> Candidate(base, j) in taken
      invariant i - 1 <= |taken|
      decreases |taken| - (i - 1)
    {
      TakenCandidatesBound(taken, base, i);
      name := base + NatToString(i);
      i := i + 1;
    }
  }

  function VariableNames(vars: seq<VariableDef>): set<string>
  {
    set i | 0 <= i < |vars| :: vars[i].name
  }

  function GraphNames(graphs: seq<GraphDef>): set<string>
  {
    set i | 0 <= i < |graphs| :: graphs[i].name
  }

  /** A fresh name keeps variable names unique. */
  lemma FreshNameKeepsUnique(vars: seq<VariableDef>, v: VariableDef)
    requires UniqueNames(vars) && v.name !in VariableNames(vars)
    ensures UniqueNames(vars + [v])
  {
    var vs := vars + [v];
    forall i, j | 0 <= i < j < |vs| ensures vs[i].name != vs[j].name {
      if j == |vars| {
        assert vs[i].name in VariableNames(vars);
      }
    }
  }

  // ---------------------------------------------------------------------
  // Variable types on nodes

  /** Each variable name with the type of its last declaration (a map collected from the list). */
  function VariableTypes(vars: seq<VariableDef>): (m: map<string, DataType>)
    ensures forall name :: name in m <==> name in VariableNames(vars)
    decreases |vars|
  {
    if |vars| == 0 then map[]
    else
      var init := vars[..|vars| - 1];
      var last := vars[|vars| - 1];
      assert forall i :: 0 <= i < |init| ==> init[i] == vars[i];
      assert VariableNames(vars) == VariableNames(init) + {last.name};
      VariableTypes(init)[last.name := last.dataType]
  }

  /** With unique names the last declaration is the first, so the map agrees with the compiler's
      lookup. */
  lemma {:induction false} VariableTypesFind(vars: seq<VariableDef>, name: string)
    requires UniqueNames(vars)
    ensures name in VariableTypes(vars) <==> FindVariable(vars, name).Some?
    ensures name in VariableTypes(vars) ==> VariableTypes(vars)[name] == FindVariable(vars, name).value.dataType
    decreases |vars|
  {
    if |vars| > 0 {
      var init := vars[..|vars| - 1];
      var last := vars[|vars| - 1];
      assert UniqueNames(init) by {
        assert forall i :: 0 <= i < |init| ==> init[i] == vars[i];
      }
      VariableTypesFind(init, name);
      FindVariablePrefix(vars, name);
    }
  }

  /** Looking a name up in a list finds it in all but the last entry when it is there, else in the
      last entry. */
  lemma {:induction false} FindVariablePrefix(vars: seq<VariableDef>, name: string)
    requires |vars| > 0
    ensures var init := vars[..|vars| - 1];
      FindVariable(vars, name) == if FindVariable(init, name).Some? then FindVariable(init, name)
                                  else if vars[|vars| - 1].name == name then Some(vars[|vars| - 1]) else None
    decreases |vars|
  {
    var init := vars[..|vars| - 1];
    if |vars| > 1 && vars[0].name != name {
      assert init[0] == vars[0] && init[1..] == vars[1..][..|vars| - 2];
      FindVariablePrefix(vars[1..], name);
    } else if |vars| > 1 {
      assert init[0] == vars[0];
    }
  }

  /** The index of the first pin called `name`. */
  function FirstPinNamed(pins: seq<Pin>, name: string): (r: Option<nat>)
    ensures r.None? <==> forall i :: 0 <= i < |pins| ==> pins[i].name != name
    ensures r.Some? ==> r.value < |pins| && pins[r.value].name == name
                        && forall j :: 0 <= j < r.value ==> pins[j].name != name
    decreases |pins|
  {
    if |pins| == 0 then None
    else if pins[0].name == name then Some(0)
    else
      match FirstPinNamed(pins[1..], name)
      case None => None
      case Some(i) => Some(i + 1)
  }

  /** `set_pin_data_type_by_name`: the first pin called `name`, if any, gets type `t`. */
  function SetPinDataTypeByName(node: Node, name: string, t: DataType): (r: Node)
    ensures r.id == node.id && r.kind == node.kind && r.graph == node.graph
    ensures r.position == node.position && r.properties == node.properties
    ensures |r.pins| == |node.pins|
    ensures forall i :: 0 <= i < |r.pins| ==>
      r.pins[i] == if FirstPinNamed(node.pins, name) == Some(i) then node.pins[i].(dataType := t) else node.pins[i]
  {
    match FirstPinNamed(node.pins, name)
    case None => node
    case Some(i) => node.(pins := node.pins[i := node.pins[i].(dataType := t)])
  }

  /** A Get/SetVariable node whose String `"name"` is a declared variable gets that variable's type
      on its `"value"` pin; every other node is left alone. */
  function SyncedNode(types: map<string, DataType>, node: Node): Node
  {
    if IsVariableNode(node.kind) && NameProperty(node.properties).Some? && NameProperty(node.properties).value in types
    then SetPinDataTypeByName(node, "value", types[NameProperty(node.properties).value])
    else node
  }

  /** After synchronisation, the template type of a variable node's `"value"` pin is its effective
      type, and it is the type of the variable the node names. */
  lemma SyncedTemplateIsEffective(vars: seq<VariableDef>, node: Node)
    requires UniqueNames(vars) && IsVariableNode(node.kind) && NamedVariableType(vars, node).Some?
    requires FirstPinNamed(node.pins, "value").Some?
    ensures var n := SyncedNode(VariableTypes(vars), node);
      var i := FirstPinNamed(node.pins, "value").value;
      && n.pins[i].dataType == NamedVariableType(vars, node).value
      && EffectiveType(vars, n, n.pins[i]) == n.pins[i].dataType
  {
    var name := NameProperty(node.properties).value;
    VariableTypesFind(vars, name);
  }

  // ---------------------------------------------------------------------
  // Renaming and retyping a variable

  /** A Get/SetVariable node whose `"name"` is the String `oldName` now names `newName`. */
  function RenamedNode(node: Node, oldName: string, newName: string): (r: Node)
    ensures r.id == node.id && r.kind == node.kind && r.graph == node.graph && r.pins == node.pins
    ensures r.position == node.position
  {
    if IsVariableNode(node.kind) && "name" in node.properties && node.properties["name"] == Value.String(oldName)
    then node.(properties := node.properties["name" := Value.String(newName)])
    else node
  }

  /** Renaming touches exactly the variable nodes that named the old name, and only their `"name"`. */
  lemma RenameTouchesOnlyUsers(node: Node, oldName: string, newName: string)
    ensures var r := RenamedNode(node, oldName, newName);
      && (IsVariableNode(node.kind) && NameProperty(node.properties) == Some(oldName)
          ==> NameProperty(r.properties) == Some(newName)
              && forall k :: k != "name" ==> (k in r.properties <==> k in node.properties)
                                             && (k in node.properties ==> r.properties[k] == node.properties[k]))
      && (!(IsVariableNode(node.kind) && NameProperty(node.properties) == Some(oldName)) ==> r == node)
  {
  }

  /** Renaming variable `i` to a fresh name keeps every variable node that did not already name the
      fresh name bound to the variable it was bound to. */
  lemma RenameKeepsBinding(vars: seq<VariableDef>, i: nat, newName: string, node: Node)
    requires UniqueNames(vars) && i < |vars| && newName !in VariableNames(vars)
    requires IsVariableNode(node.kind) && NameProperty(node.properties) != Some(newName)
    ensures NamedVariableType(vars[i := vars[i].(name := newName)], RenamedNode(node, vars[i].name, newName))
            == NamedVariableType(vars, node)
  {
    var vars' := vars[i := vars[i].(name := newName)];
    var r := RenamedNode(node, vars[i].name, newName);
    match NameProperty(node.properties)
    case None =>
    case Some(x) =>
      if x == vars[i].name {
        assert FindVariable(vars, x).Some?;
        FindVariableAt(vars, i);
        FindVariableAt(vars', i);
      } else {
        FindVariableRenamed(vars, i, newName, x);
      }
  }

  /** With unique names, looking up the name of entry `i` finds entry `i`. */
  lemma FindVariableAt(vars: seq<VariableDef>, i: nat)
    requires UniqueNames(vars) && i < |vars|
    ensures FindVariable(vars, vars[i].name) == Some(vars[i])
  {
    var r := FindVariable(vars, vars[i].name);
    assert r.Some?;
    var j :| 0 <= j < |vars| && vars[j] == r.value && r.value.name == vars[i].name;
  }

  /** Renaming entry `i` to a fresh name does not change the lookup of any other name. */
  lemma FindVariableRenamed(vars: seq<VariableDef>, i: nat, newName: string, x: string)
    requires UniqueNames(vars) && i < |vars| && newName !in VariableNames(vars) && x != vars[i].name && x != newName
    ensures FindVariable(vars[i := vars[i].(name := newName)], x) == FindVariable(vars, x)
  {
    var vars' := vars[i := vars[i].(name := newName)];
    var r := FindVariable(vars, x);
    var r' := FindVariable(vars', x);
    if r.Some? {
      var j :| 0 <= j < |vars| && vars[j] == r.value && r.value.name == x && forall k :: 0 <= k < j ==> vars[k].name != x;
      assert vars'[j] == vars[j];
      assert r'.Some?;
    }
    if r'.Some? {
      var j :| 0 <= j < |vars'| && vars'[j] == r'.value && r'.value.name == x;
      assert vars[j] == vars'[j];
    }
    if r.Some? && r'.Some? {
      FindVariableAtName(vars, x);
      FindVariableAtName(vars', x);
    }
  }

  /** With unique names, a found variable is the one entry carrying that name. */
  lemma FindVariableAtName(vars: seq<VariableDef>, x: string)
    requires UniqueNames(vars) && FindVariable(vars, x).Some?
    ensures forall j :: 0 <= j < |vars| && vars[j].name == x ==> FindVariable(vars, x) == Some(vars[j])
  {
  }

  /** The type a selection of the type drop-down stands for. */
  function SelectedType(selection: nat): (t: DataType)
    ensures t in {DataType.Bool, DataType.I32, DataType.F32, DataType.String}
  {
    if selection == 0 then DataType.Bool
    else if selection == 1 then DataType.I32
    else if selection == 2 then DataType.F32
    else DataType.String
  }

  /** The default a retyped variable is reset to has the new type. */
  lemma RetypedDefaultFits(selection: nat)
    ensures DataTypeOf(ZeroValue(SelectedType(selection))) == SelectedType(selection)
  {
  }

  // ---------------------------------------------------------------------
  // Read-only views

  /** The nodes shown in the tab of partition `name`. */
  function VisibleNodesByGraphName(g: GraphData, name: string): (r: set<nat>)
    ensures forall k :: k in r <==> k in g.nodes && g.nodes[k].graph == name
  {
    set k | k in g.nodes && g.nodes[k].graph == name
  }

  /** Each node shows in exactly one tab: that of its own partition. */
  lemma TabsPartitionNodes(g: GraphData, a: string, b: string)
    ensures a != b ==> VisibleNodesByGraphName(g, a) * VisibleNodesByGraphName(g, b) == {}
    ensures forall k :: k in g.nodes ==> k in VisibleNodesByGraphName(g, g.nodes[k].graph)
  {
  }

  function DataTypeLabel(t: DataType): (s: string)
    ensures |s| > 0
  {
    match t
    case Bool => "Bool"
    case I32 => "Int"
    case F32 => "Float"
    case String => "String"
    case Exec => "Exec"
    case Unit => "Unit"
  }

  /** Distinct types get distinct labels. */
  lemma DataTypeLabelInjective(s: DataType, t: DataType)
    ensures DataTypeLabel(s) == DataTypeLabel(t) ==> s == t
  {
  }

  // ---------------------------------------------------------------------
  // The editor's graph operations

  class BlueprintEditor {
    const graph: BlueprintGraph

    constructor(graph: BlueprintGraph)
      ensures this.graph == graph
    {
      this.graph := graph;
    }

    /** Drops the links that clash with `from -> to` and appends it, if the pins fit. */
    method ApplyConnection(from: nat, to: nat)
      modifies graph
      ensures graph.links == ConnectedLinks(old(graph.Data()), from, to)
      ensures graph.id == old(graph.id) && graph.graphs == old(graph.graphs) && graph.nodes == old(graph.nodes)
      ensures graph.variables == old(graph.variables)
      ensures graph.nextNodeId == old(graph.nextNodeId) && graph.nextPinId == old(graph.nextPinId)
    {
      var g := graph.Data();
      var fromPin := PinOf(g.nodes, from);
      var toPin := PinOf(g.nodes, to);
      if fromPin.None? || toPin.None? {
        return;
      }
      var t := EndType(g, from, fromPin.value);
      if fromPin.value.direction != Output || toPin.value.direction != Input || t != EndType(g, to, toPin.value) {
        return;
      }
      var exec := t == DataType.Exec;
      var links := graph.links;
      var kept: seq<Link> := [];
      var i := 0;
      while i < |links|
        invariant 0 <= i <= |links|
        invariant kept == Retain(links[..i], from, to, exec)
      {
        assert links[..i + 1][..i] == links[..i];
        if KeepLink(links[i], from, to, exec) {
          kept := kept + [links[i]];
        }
        i := i + 1;
      }
      assert links[..i] == links;
      if Link(from, to) !in kept {
        kept := kept + [Link(from, to)];
      }
      graph.links := kept;
    }

    /** Appends a String variable, default `""`, under the first free name of `NewVar`, `NewVar1`, ... */
    method CreateVariable() returns (name: string)
      modifies graph
      ensures name !in VariableNames(old(graph.variables))
      ensures exists k: nat :: name == Candidate("NewVar", k)
                          && forall j :: 0 <= j < k ==> Candidate("NewVar", j) in VariableNames(old(graph.variables))
      ensures graph.variables == old(graph.variables) + [VariableDef(name, DataType.String, Some(Value.String("")))]
      ensures UniqueNames(old(graph.variables)) ==> UniqueNames(graph.variables)
      ensures graph.id == old(graph.id) && graph.graphs == old(graph.graphs) && graph.nodes == old(graph.nodes)
      ensures graph.links == old(graph.links)
      ensures graph.nextNodeId == old(graph.nextNodeId) && graph.nextPinId == old(graph.nextPinId)
    {
      name := UniqueName(VariableNames(graph.variables), "NewVar");
      var v := VariableDef(name, DataType.String, Some(Value.String("")));
      if UniqueNames(graph.variables) {
        FreshNameKeepsUnique(graph.variables, v);
      }
      graph.variables := graph.variables + [v];
    }

    /** Adds a graph definition of `kind` under the first free name built from `base`: `NewGraph`
        for a graph, `NewFunction` for a function. */
    method NewGraphNamed(base: string, kind: GraphKind) returns (name: string)
      modifies graph
      ensures name !in GraphNames(old(graph.graphs))
      ensures exists k: nat :: name == Candidate(base, k)
                          && forall j :: 0 <= j < k ==> Candidate(base, j) in GraphNames(old(graph.graphs))
      ensures graph.graphs == old(graph.graphs) + [GraphDef(name, kind)]
      ensures graph.id == old(graph.id) && graph.nodes == old(graph.nodes) && graph.links == old(graph.links)
      ensures graph.variables == old(graph.variables)
      ensures graph.nextNodeId == old(graph.nextNodeId) && graph.nextPinId == old(graph.nextPinId)
    {
      name := UniqueName(GraphNames(graph.graphs), base);
      assert !HasGraphNamed(graph.graphs, name) by {
        forall i | 0 <= i < |graph.graphs| ensures graph.graphs[i].name != name {
          assert graph.graphs[i].name in GraphNames(graph.graphs);
        }
      }
      graph.AddGraph(name, kind);
    }

    method NewGraph() returns (name: string)
      modifies graph
      ensures graph.graphs == old(graph.graphs) + [GraphDef(name, GraphKind.Graph)]
      ensures name !in GraphNames(old(graph.graphs))
      ensures exists k: nat :: name == Candidate("NewGraph", k)
                          && forall j :: 0 <= j < k ==> Candidate("NewGraph", j) in GraphNames(old(graph.graphs))
      ensures graph.id == old(graph.id) && graph.nodes == old(graph.nodes) && graph.links == old(graph.links)
      ensures graph.variables == old(graph.variables)
      ensures graph.nextNodeId == old(graph.nextNodeId) && graph.nextPinId == old(graph.nextPinId)
    {
      name := NewGraphNamed("NewGraph", GraphKind.Graph);
    }

    method NewFunction() returns (name: string)
      modifies graph
      ensures graph.graphs == old(graph.graphs) + [GraphDef(name, GraphKind.Function)]
      ensures name !in GraphNames(old(graph.graphs))
      ensures exists k: nat :: name == Candidate("NewFunction", k)
                          && forall j :: 0 <= j < k ==> Candidate("NewFunction", j) in GraphNames(old(graph.graphs))
      ensures graph.id == old(graph.id) && graph.nodes == old(graph.nodes) && graph.links == old(graph.links)
      ensures graph.variables == old(graph.variables)
      ensures graph.nextNodeId == old(graph.nextNodeId) && graph.nextPinId == old(graph.nextPinId)
    {
      name := NewGraphNamed("NewFunction", GraphKind.Function);
    }

    /** Gives each variable node that names a declared variable that variable's type on its
        `"value"` pin. */
    method SyncVariableNodePinTypes()
      modifies graph
      ensures graph.nodes == map k | k in old(graph.nodes) :: SyncedNode(VariableTypes(old(graph.variables)), old(graph.nodes)[k])
      ensures graph.id == old(graph.id) && graph.graphs == old(graph.graphs) && graph.links == old(graph.links)
      ensures graph.variables == old(graph.variables)
      ensures graph.nextNodeId == old(graph.nextNodeId) && graph.nextPinId == old(graph.nextPinId)
    {
      var types := VariableTypes(graph.variables);
      var nodes := graph.nodes;
      var todo := nodes.Keys;
      while todo != {}
        invariant todo <= nodes.Keys && nodes.Keys == old(graph.nodes).Keys
        invariant forall k :: k in nodes ==> nodes[k] == if k in todo then old(graph.nodes)[k] else SyncedNode(types, old(graph.nodes)[k])
        decreases |todo|
      {
        var k :| k in todo;
        nodes := nodes[k := SyncedNode(types, nodes[k])];
        todo := todo - {k};
      }
      graph.nodes := nodes;
    }

    /** Renames variable `index` to `text` and every node that named it; an index past the end
        changes nothing. */
    method RenameVariable(index: nat, text: string)
      modifies graph
      ensures index >= |old(graph.variables)| ==> graph.variables == old(graph.variables) && graph.nodes == old(graph.nodes)
      ensures index < |old(graph.variables)| ==>
        var oldName := old(graph.variables)[index].name;
        && graph.variables == old(graph.variables)[index := old(graph.variables)[index].(name := text)]
        && graph.nodes == map k | k in old(graph.nodes) :: RenamedNode(old(graph.nodes)[k], oldName, text)
      ensures graph.id == old(graph.id) && graph.graphs == old(graph.graphs) && graph.links == old(graph.links)
      ensures graph.nextNodeId == old(graph.nextNodeId) && graph.nextPinId == old(graph.nextPinId)
    {
      if index >= |graph.variables| {
        return;
      }
      var oldName := graph.variables[index].name;
      graph.variables := graph.variables[index := graph.variables[index].(name := text)];
      var nodes := graph.nodes;
      var todo := nodes.Keys;
      while todo != {}
        invariant todo <= nodes.Keys && nodes.Keys == old(graph.nodes).Keys
        invariant forall k :: k in nodes ==> nodes[k] == if k in todo then old(graph.nodes)[k] else RenamedNode(old(graph.nodes)[k], oldName, text)
        decreases |todo|
      {
        var k :| k in todo;
        nodes := nodes[k := RenamedNode(nodes[k], oldName, text)];
        todo := todo - {k};
      }
      graph.nodes := nodes;
    }

    /** Gives variable `index` the type of drop-down entry `selection`, resets its default to that
        type's zero and re-synchronises the variable nodes; an index past the end changes nothing. */
    method RetypeVariable(index: nat, selection: nat)
      modifies graph
      ensures index >= |old(graph.variables)| ==> graph.variables == old(graph.variables) && graph.nodes == old(graph.nodes)
      ensures index < |old(graph.variables)| ==>
        var t := SelectedType(selection);
        && graph.variables == old(graph.variables)[index := old(graph.variables)[index].(dataType := t, defaultValue := Some(ZeroValue(t)))]
        && graph.nodes == map k | k in old(graph.nodes) :: SyncedNode(VariableTypes(graph.variables), old(graph.nodes)[k])
      ensures graph.id == old(graph.id) && graph.graphs == old(graph.graphs) && graph.links == old(graph.links)
      ensures graph.nextNodeId == old(graph.nextNodeId) && graph.nextPinId == old(graph.nextPinId)
    {
      if index >= |graph.variables| {
        return;
      }
      var t := SelectedType(selection);
      graph.variables := graph.variables[index := graph.variables[index].(dataType := t, defaultValue := Some(ZeroValue(t)))];
      SyncVariableNodePinTypes();
    }
  }
}
