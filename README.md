# Fyrox visual scripting, modelled in Dafny

The model covers the blueprint pipeline of the Fyrox visual-programming crates. A blueprint graph goes from data to compilation to interpretation:

- **Graph data** (`Model`). Nodes are keyed by id. Each node has pins from a fixed per-kind template. The graph also holds links, variables and graph definitions. `add_node` hands out node and pin ids from two counters.
- **Errors** (`Errors`). An error has a kind, plus an optional node tag and an optional pin tag.
- **Compiler** (`Compile`). Validation runs an ordered chain of short-circuiting checks:
  - duplicate variable names;
  - per-link checks: unknown pin, cross-graph link, direction, effective type;
  - exec fan-in;
  - unknown variables;
  - a depth-first search for exec cycles.

  Lowering then builds a `CompiledGraph`: the variable store, per-node pin tables, exec edges keyed by output pin, data edges keyed by input pin, and three entry slots.
- **Runtime dispatch** (`Runtime`). Print, Branch, SetVariable and RhaiScript have their own handlers. Every other kind only follows `"then"`.
- **Interpreter** (`Interpret`). An `Interpreter` owns a variable store. It walks exec chains from an entry node and logs `EnterNode` and `Print` events. Data inputs are pulled from `GetVariable` sources.
- **Termination** (`ExecSafety`). This joins compiler and interpreter. Suppose a graph compiles and no two pins in it share an id. Then every interpreter hand-over is an edge of the exec adjacency that the cycle check proved acyclic. So every run ends, and it enters each node at most once.
- **Shared pin ids** (`SharedPins`). Without unique ids the theorem above fails. That module exhibits a graph that compiles but whose run never ends, and proves a corrected compile (see Findings).
- **Secondary parts:**
  - node-definition helpers and the registry (`NodeDefs`);
  - the graph-editing logic of the blueprint editor (`Editor`);
  - the bounded on-screen log (`ScreenLog`);
  - the executor's choice of working directory (`Executor`).
- **Shared theory** (`Util`, `Digraph`). Options, results, the least element of a finite set (the first key a `BTreeMap` iteration meets), decimal rendering, and walks and acyclicity of finite directed graphs.

How the Rust code's forms are carried over:

- **Code that changes state** is written as methods with `modifies` clauses: `BlueprintGraph`, `Interpreter`, `BlueprintEditor` and `ScreenLogPlugin`. Each method is proved equal to a specification function of the old state. The Rust loops are `while` loops with invariants; this covers validation, counting, the DFS, lowering, link retention, name generation, TTL expiry and argument scanning.
- **Pure code** is written as functions.
- **The Rhai script engine** is foreign code. It is a function parameter of the interpreter: it takes a snippet and the store, and returns the printed texts, the new store and an optional error.
- **Path parenthood in the executor** (`Path::parent`) is a library call. It is a function parameter too.

## Model

| member | source | states |
|---|---|---|
| Model.DataTypeOf | fyrox-visual-scripting/src/model.rs:73-81 | total; never `Exec`; each value variant has its own type tag, both ways |
| Model.DefaultPins | fyrox-visual-scripting/src/model.rs:181-430 | the fixed pin template of each builtin node kind; specified through `NewNode`, whose contract says a fresh node carries exactly this template |
| Model.NewNode | fyrox-visual-scripting/src/model.rs:123-141 | id 0, graph "EventGraph", origin position, the kind's template pins; properties empty except a RhaiScript node's single `"code"` string |
| Model.PinNamed | fyrox-visual-scripting/src/model.rs:143-145 | None exactly when no pin has the name; otherwise the id of a pin with that name |
| Model.PinNamedIn | fyrox-visual-scripting/src/model.rs:143-145 | the same search over a pin list: None iff no pin is so named, otherwise a pin of that name carries the id |
| Model.SetProperty | fyrox-visual-scripting/src/model.rs:147-161 | `set_property_*` writes exactly its own key; every other property and every other node field is unchanged |
| Model.SetPropertyString | fyrox-visual-scripting/src/model.rs:147-149 | `SetProperty` with a `String` value; specified by `SetProperty`'s contract (the key now maps to that value, every other property unchanged) |
| Model.SetPropertyBool | fyrox-visual-scripting/src/model.rs:151-153 | `SetProperty` with a `Bool` value; specified by `SetProperty`'s contract |
| Model.SetPropertyI32 | fyrox-visual-scripting/src/model.rs:155-157 | `SetProperty` with an `I32` value; specified by `SetProperty`'s contract |
| Model.SetPropertyF32 | fyrox-visual-scripting/src/model.rs:159-161 | `SetProperty` with an `F32` value; specified by `SetProperty`'s contract |
| Model.PinOwner | fyrox-visual-scripting/src/model.rs:518-522 | a returned owner is a node of the graph that has the pin |
| Model.PinOwnerLowest | fyrox-visual-scripting/src/model.rs:518-522 | None iff no node has the pin; otherwise the owner is the lowest node id that has it |
| Model.PinWithId | fyrox-visual-scripting/src/model.rs:524-529 | the first pin of a list with the id: None iff none has it |
| Model.PinOf | fyrox-visual-scripting/src/model.rs:524-529 | `pin` is None exactly when no node has the pin, and the pin found carries the id |
| Model.PinOfInOwner | fyrox-visual-scripting/src/model.rs:524-529 | the pin found is the first pin with that id of the lowest-id owner (flat-map search in ascending node order) |
| Model.Renumbered | fyrox-visual-scripting/src/model.rs:504-508 | pin i gets id base+i, every other field kept |
| Model.AddNodeKeepsNumbering | fyrox-visual-scripting/src/model.rs:499-512 | adding a renumbered node under the node counter keeps every node under its own id below the counter, every pin id below the pin counter, and pin ids unique graph-wide |
| Model.WithBuiltinGraphs | fyrox-visual-scripting/src/model.rs:471-490 | the graph list after `ensure_builtin_graphs`; specified by `BuiltinGraphsPresent`, `BuiltinGraphsIdempotent` and `BlueprintGraph.EnsureBuiltinGraphs` |
| Model.BuiltinGraphsPresent | fyrox-visual-scripting/src/model.rs:471-490 | afterwards "EventGraph" and "ConstructionScript" are both present, the old list is an untouched prefix, and at most two entries are added |
| Model.BuiltinGraphsIdempotent | fyrox-visual-scripting/src/model.rs:471-490 | ensuring the built-in graphs twice equals doing it once |
| Model.WithGraph | fyrox-visual-scripting/src/model.rs:492-497 | the graph list after `add_graph`; specified by `WithGraphAppendsOnce` and `BlueprintGraph.AddGraph` |
| Model.WithGraphAppendsOnce | fyrox-visual-scripting/src/model.rs:492-497 | a no-op when the name exists; otherwise exactly one definition appended; afterwards the name is present |
| Model.BlueprintGraph.constructor | fyrox-visual-scripting/src/model.rs:459-469 | the two default graphs, no nodes, links or variables, both counters 1 |
| Model.BlueprintGraph.EnsureBuiltinGraphs | fyrox-visual-scripting/src/model.rs:471-490 | the flag loop leaves `graphs == WithBuiltinGraphs(old graphs)` and changes nothing else |
| Model.BlueprintGraph.AddGraph | fyrox-visual-scripting/src/model.rs:492-497 | `graphs == WithGraph(old graphs, name, kind)`, nothing else changes |
| Model.BlueprintGraph.AddNode | fyrox-visual-scripting/src/model.rs:499-512 | returns the old node counter and bumps it by one; the node is stored under that id with its pins numbered from the old pin counter in order; the pin counter rises by the pin count; a well-numbered graph stays well numbered |
| Model.BlueprintGraph.AddLink | fyrox-visual-scripting/src/model.rs:514-516 | the link is appended, nothing else changes |
| Errors.New | fyrox-visual-scripting/src/error.rs:46-52 | a fresh error has no node and no pin |
| Errors.WithNode | fyrox-visual-scripting/src/error.rs:54-57 | sets the node and keeps kind and pin |
| Errors.WithPin | fyrox-visual-scripting/src/error.rs:59-62 | sets the pin and keeps kind and node |
| Errors.TagsOverwrite | fyrox-visual-scripting/src/error.rs:54-62 | a second tag of the same kind replaces the first; node and pin tags commute |
| Errors.CrossGraphReportsToSide | fyrox-visual-scripting/src/compile.rs:191-197 | the cross-graph error reports the to-side node and the to pin |
| Errors.MismatchReportsToPin | fyrox-visual-scripting/src/compile.rs:200-214 | direction and type mismatches report the to pin and no node |
| Compile.NodePin | fyrox-visual-scripting/src/compile.rs:29-33 | `CompiledNode::pin` is Some exactly for a table entry, and returns that entry |
| Compile.FindVariable | fyrox-visual-scripting/src/compile.rs:65-69 | None iff no variable has the name; otherwise the first declaration with it |
| Compile.NameProperty | fyrox-visual-scripting/src/compile.rs:62-71 | Some exactly when `"name"` holds a string, and returns that string |
| Compile.EffectiveType | fyrox-visual-scripting/src/compile.rs:58-78 | the `"value"` pin of a Get/SetVariable node takes the named variable's type when declared; every other pin, and an unresolved one, keeps its template type |
| Compile.ActualPinType | fyrox-visual-scripting/src/compile.rs:129-155 | None iff the pin does not exist; otherwise the effective type of the pin in its lowest-id owner |
| Compile.CheckUniqueVariables | fyrox-visual-scripting/src/compile.rs:159-166 | the seen-set loop reports true iff no two variables share a name |
| Compile.FirstSome | fyrox-visual-scripting/src/compile.rs:171-215 | the first present per-item result: None iff all are absent, otherwise the entry at the first index holding one |
| Compile.FirstSomeAt | fyrox-visual-scripting/src/compile.rs:171-215 | the first index holding an error decides the result |
| Compile.LinkError | fyrox-visual-scripting/src/compile.rs:172-214 | the error (if any) one link raises; specified by `CheckLink`, `FirstLinkErrorFirst` and `LinkErrorKinds` |
| Compile.FirstLinkErrorFirst | fyrox-visual-scripting/src/compile.rs:171-215 | no link error iff every link passes; otherwise the error is that of the first failing link in list order |
| Compile.CheckLink | fyrox-visual-scripting/src/compile.rs:172-214 | one link's checks equal `LinkError`: unknown from, unknown to, cross-graph, direction, type, in that order |
| Compile.CheckLinks | fyrox-visual-scripting/src/compile.rs:171-215 | the link loop stops at the first failing link, in list order |
| Compile.LinkErrorKinds | fyrox-visual-scripting/src/compile.rs:172-214 | a link check fails only with UnknownPin, CrossGraphLink, DirectionMismatch or TypeMismatch |
| Compile.FirstLinkErrorKinds | fyrox-visual-scripting/src/compile.rs:171-215 | the same for the whole link loop |
| Compile.UnknownTargets | fyrox-visual-scripting/src/compile.rs:219-222 | per link, its to pin exactly when that pin does not exist |
| Compile.FirstUnknownTo | fyrox-visual-scripting/src/compile.rs:219-222 | None iff every to pin exists; otherwise the to pin of the first link whose to pin is missing |
| Compile.ExecTargetAt | fyrox-visual-scripting/src/compile.rs:223-225 | a link's to pin is counted iff it is an exec pin |
| Compile.InCount | fyrox-visual-scripting/src/compile.rs:219-226 | the number of exec links entering a pin; specified by `InCountPositive`, `InCountZero` and `InCountStep` |
| Compile.InCountPositive | fyrox-visual-scripting/src/compile.rs:219-226 | a pin counted at least once is the to pin of some link |
| Compile.InCountZero | fyrox-visual-scripting/src/compile.rs:219-226 | a pin no link ends at has count zero |
| Compile.InCountStep | fyrox-visual-scripting/src/compile.rs:219-226 | counting one more link adds one to its to pin's count and nothing elsewhere |
| Compile.FanInError | fyrox-visual-scripting/src/compile.rs:217-235 | the first exec input with more than one incoming link; specified by `CheckExecFanIn`, `FanInErrorKinds` and `FanInCountsOnlyExec` |
| Compile.OverfedFromCounts | fyrox-visual-scripting/src/compile.rs:218-230 | the keys counted more than once are exactly the exec inputs with two or more links |
| Compile.TallyStep | fyrox-visual-scripting/src/compile.rs:223-225 | the `entry().or_insert(0) += 1` step extends the count invariant by one link |
| Compile.TallyLink | fyrox-visual-scripting/src/compile.rs:219-226 | counts one link, or fails with its to pin when that pin is missing |
| Compile.CountExecInputs | fyrox-visual-scripting/src/compile.rs:218-226 | the counting loop fails with the first missing to pin, otherwise returns a count of the links into every exec pin |
| Compile.CheckExecFanIn | fyrox-visual-scripting/src/compile.rs:217-235 | an unknown to pin, else MultipleExecInputs with the smallest over-fed exec pin and its owner |
| Compile.FanInCountsOnlyExec | fyrox-visual-scripting/src/compile.rs:217-235 | two links into an exec input are rejected; any number into a data input are not |
| Compile.FanInErrorKinds | fyrox-visual-scripting/src/compile.rs:217-235 | this step fails only with UnknownPin or MultipleExecInputs |
| Compile.UnknownVariableError | fyrox-visual-scripting/src/compile.rs:240-260 | None iff no Get/SetVariable node has a missing, non-string or undeclared `"name"`; otherwise UnknownVariable tagged with the smallest such node |
| Compile.CheckVariableNodes | fyrox-visual-scripting/src/compile.rs:240-260 | the ascending node loop equals that specification |
| Compile.AdjacencyOf | fyrox-visual-scripting/src/compile.rs:270-286 | the exec adjacency built from the links; specified by `BuildAdjacency`, `AdjacencyErrorSticks`, `AdjacencyResolves`, `AdjacencyErrorKinds` and `AdjacencyLinkEdge` |
| Compile.AddAdjacencyEdge | fyrox-visual-scripting/src/compile.rs:273-285 | one iteration: unknown from pin, a non-exec link skipped, an unknown to pin, or the owner-to-owner edge appended; equals `AdjacencyStep` |
| Compile.BuildAdjacency | fyrox-visual-scripting/src/compile.rs:270-286 | the link loop equals the adjacency fold: exec links only, owner to owner, in link order |
| Compile.AdjacencyErrorSticks | fyrox-visual-scripting/src/compile.rs:272-286 | once a prefix of the links fails, the whole fold fails the same way |
| Compile.AdjacencyStepWithin | fyrox-visual-scripting/src/compile.rs:279-285 | one link's edge joins nodes of the graph |
| Compile.AdjacencyWithin | fyrox-visual-scripting/src/compile.rs:270-286 | the adjacency mentions only nodes of the graph |
| Compile.AdjacencyStepKeeps | fyrox-visual-scripting/src/compile.rs:285 | a later link never removes a successor |
| Compile.AdjacencyStepAdds | fyrox-visual-scripting/src/compile.rs:279-285 | an exec link adds its to pin's owner as a successor of its from pin's owner |
| Compile.AdjacencyLinkEdge | fyrox-visual-scripting/src/compile.rs:270-286 | every exec link is an adjacency edge between the lowest owners of its pins |
| Compile.AdjacencyErrorKinds | fyrox-visual-scripting/src/compile.rs:272-286 | the adjacency fails only with UnknownPin or BrokenExecLink |
| Compile.AdjGraphRepresents | fyrox-visual-scripting/src/compile.rs:270 | the successor-set graph has exactly the adjacency's edges |
| Compile.CycleError | fyrox-visual-scripting/src/compile.rs:288-299 | the cycle error of the exec adjacency; specified by `DetectCycles`, `CycleCheckExact` and `CycleRejected` |
| Compile.DescentSmaller | fyrox-visual-scripting/src/compile.rs:313 | descending into an unvisited node shrinks the unvisited set; the recursion's measure |
| Compile.DfsCycle | fyrox-visual-scripting/src/compile.rs:302-324 | the recursive search marks the node visited; true means a cycle is reachable from the search root; false means the stack is restored and the finished nodes are ranked, so they lead to no cycle |
| Compile.SearchRoots | fyrox-visual-scripting/src/compile.rs:291-297 | None iff no root leads into a cycle; otherwise the smallest root that does |
| Compile.DetectCycles | fyrox-visual-scripting/src/compile.rs:288-299 | the search over all nodes equals `CycleError`: ExecCycle tagged with the smallest node leading into a cycle |
| Compile.DetectExecCycles | fyrox-visual-scripting/src/compile.rs:268-300 | adjacency errors first, then the cycle search |
| Compile.CycleCheckExact | fyrox-visual-scripting/src/compile.rs:268-324 | the cycle check passes iff the exec adjacency is acyclic |
| Compile.CycleRejected | fyrox-visual-scripting/src/compile.rs:291-297 | a self-loop or any cycle reachable from node k fails with ExecCycle tagged with a node id no larger than k |
| Compile.ExecCycleErrorKinds | fyrox-visual-scripting/src/compile.rs:268-300 | this step fails only with UnknownPin, BrokenExecLink or ExecCycle |
| Compile.Validation | fyrox-visual-scripting/src/compile.rs:157-266 | the first error of the validation passes, in their order; specified by `Validate`, `ValidationKinds` and `ValidatedCompiles` |
| Compile.Validate | fyrox-visual-scripting/src/compile.rs:157-266 | the five steps in `validate`'s order, the first failure returned |
| Compile.ValidationKinds | fyrox-visual-scripting/src/compile.rs:157-266 | validation never reports MissingEntry |
| Compile.ValidatedLinksResolve | fyrox-visual-scripting/src/compile.rs:219-222 | once every link passes, the later re-checks of pin existence never fire and the adjacency builds |
| Compile.AdjacencyResolves | fyrox-visual-scripting/src/compile.rs:272-286 | with every pin known the adjacency never fails |
| Compile.AdjacencyStepOk | fyrox-visual-scripting/src/compile.rs:273-284 | one link with known pins adds its edge without error |
| Compile.ZeroValue | fyrox-visual-scripting/src/compile.rs:43-49 | the zero value has the requested type, and Unit for Exec |
| Compile.LoweredVariables | fyrox-visual-scripting/src/compile.rs:38-51 | the store's keys are exactly the declared names |
| Compile.InitialValue | fyrox-visual-scripting/src/compile.rs:43-49 | a variable's initial runtime value; specified by `LoweredVariablesLastWins` |
| Compile.LoweredVariablesLastWins | fyrox-visual-scripting/src/compile.rs:38-51 | each name maps to its last declaration's default, else its type's zero value |
| Compile.LowerVariablesInOrder | fyrox-visual-scripting/src/compile.rs:38-51 | the insertion loop builds exactly that store |
| Compile.PinTable | fyrox-visual-scripting/src/compile.rs:55-80 | the table's keys are exactly the pin names |
| Compile.PinTableEntries | fyrox-visual-scripting/src/compile.rs:55-80 | each entry is the last pin of that name, with its id, its direction and its effective type |
| Compile.LowerNode | fyrox-visual-scripting/src/compile.rs:55-88 | one node lowered to its compiled form; specified by `LowerNodeInOrder`, `PinTable` and `PinTableEntries` |
| Compile.LowerNodes | fyrox-visual-scripting/src/compile.rs:53-89 | all nodes lowered in order; specified by `LowerNodesInOrder`, `LoweredPinTypesAgree` and `ExecSafety.TableEntryOwned` |
| Compile.LowerNodeInOrder | fyrox-visual-scripting/src/compile.rs:55-88 | the pin loop builds exactly the node's table, with kind and properties copied |
| Compile.LowerNodesInOrder | fyrox-visual-scripting/src/compile.rs:53-89 | the node loop lowers every node under its own id |
| Compile.UniquePinLookup | fyrox-visual-scripting/src/model.rs:518-529 | with unique pin ids, looking up a pin's id finds that very pin in its own node |
| Compile.LoweredPinTypesAgree | fyrox-visual-scripting/src/compile.rs:58-79 | with unique pin ids, the lowered table types each pin as validation's `get_actual_pin_type` does |
| Compile.ExecFlags | fyrox-visual-scripting/src/compile.rs:102 | a link counts as exec exactly when its from pin's template type is Exec |
| Compile.LowerLink | fyrox-visual-scripting/src/compile.rs:94-107 | re-checks both pins, then files the link as an exec or a data edge |
| Compile.LowerLinkStepOk | fyrox-visual-scripting/src/compile.rs:102-107 | an exec link sets `exec_edges[from] = to`; any other sets `data_edges[to] = from` |
| Compile.LowerLinks | fyrox-visual-scripting/src/compile.rs:91-108 | the links lowered in order, stopping at the first unresolvable one; specified by `LowerLinksInOrder`, `LowerLinksOk` and `LowerErrorSticks` |
| Compile.LowerLinksInOrder | fyrox-visual-scripting/src/compile.rs:91-108 | the link loop equals the edge-map fold |
| Compile.LowerLinksOk | fyrox-visual-scripting/src/compile.rs:91-108 | with every pin known, lowering yields exactly the edge maps of the classified links |
| Compile.LowerErrorSticks | fyrox-visual-scripting/src/compile.rs:94-100 | once lowering fails on a prefix, it fails the same way on the whole list |
| Compile.EdgeMaps | fyrox-visual-scripting/src/compile.rs:102-107 | the exec and data edge maps of the lowered links; specified by `EdgeMapsExecKeys`, `EdgeMapsExecValue`, `EdgeMapsDataKeys`, `EdgeMapsExecLastWins` and `EdgeMapsDataLastWins` |
| Compile.EdgeMapsExecKeys | fyrox-visual-scripting/src/compile.rs:102-103 | exec edges are keyed by exactly the from pins of exec links |
| Compile.EdgeMapsExecValue | fyrox-visual-scripting/src/compile.rs:102-103 | every exec edge is the from and to pin of some exec link |
| Compile.EdgeMapsDataKeys | fyrox-visual-scripting/src/compile.rs:104-106 | data edges are keyed by exactly the to pins of the other links |
| Compile.EdgeMapsExecLastWins | fyrox-visual-scripting/src/compile.rs:102-103 | the last exec link out of a pin decides its edge |
| Compile.EdgeMapsDataLastWins | fyrox-visual-scripting/src/compile.rs:104-106 | the last data link into a pin decides its edge |
| Compile.FindEntry | fyrox-visual-scripting/src/compile.rs:121-126 | None iff no node has the kind; otherwise the smallest node id of that kind |
| Compile.ValidatedCompiles | fyrox-visual-scripting/src/compile.rs:35-119 | a graph that passes validation always lowers, whatever entry nodes it has; no MissingEntry is raised |
| Compile.CompileSpec | fyrox-visual-scripting/src/compile.rs:35-119 | the result of `compile`; specified by `Compile`, `ValidatedCompiles`, `ExecSafety.CompiledParts` and `ExecSafety.CompiledRunsTerminate` |
| Compile.Compile | fyrox-visual-scripting/src/compile.rs:35-119 | validate, then lower variables, nodes, links and the three entries; equals `CompileSpec` |
| Runtime.RuntimeFor | fyrox-visual-scripting/src/runtime/mod.rs:38-57 | Print, Branch, SetVariable and RhaiScript each map to their own handler, both ways |
| Runtime.PassthroughKinds | fyrox-visual-scripting/src/runtime/mod.rs:46-55 | the other ten kinds map to the pass-through handler, and no two kinds share a dedicated handler |
| Interpret.OwnerOf | fyrox-visual-scripting/src/interpret.rs:208-219 | None iff no compiled pin table has the id; otherwise the lowest node id whose table has it |
| Interpret.NextExec | fyrox-visual-scripting/src/interpret.rs:221-232 | Some exactly when the node exists, has the pin, the pin is Exec and has an exec edge; then that edge's target |
| Interpret.InputPinType | fyrox-visual-scripting/src/interpret.rs:202-206 | Some exactly when node and pin exist; then the pin's compiled type |
| Interpret.ReadValueInput | fyrox-visual-scripting/src/interpret.rs:248-276 | a value is read exactly when the pin exists, is fed by a data link from a `GetVariable` node whose `name` property names a stored variable, and that variable's value has the pin's compiled type; the value read is that variable's value |
| Interpret.ReadStringInput | fyrox-visual-scripting/src/interpret.rs:234-239 | Some exactly when the value read is a string, and returns it |
| Interpret.ReadBoolInput | fyrox-visual-scripting/src/interpret.rs:241-246 | Some exactly when the value read is a bool, and returns it |
| Interpret.StringProperty | fyrox-visual-scripting/src/runtime/print.rs:22-25 | Some exactly when the property holds a string |
| Interpret.Prints | fyrox-visual-scripting/src/interpret.rs:128-196 | one Print event per printed text, in order |
| Interpret.PrintText | fyrox-visual-scripting/src/runtime/print.rs:18-27 | the text a print node emits; specified by `PrintTextOrder` and `Interpreter.ExecutePrint` |
| Interpret.PrintTextOrder | fyrox-visual-scripting/src/runtime/print.rs:18-27 | the linked string input wins, then a string `"text"` literal; otherwise, a non-string literal included, the text is "" |
| Interpret.BranchCondition | fyrox-visual-scripting/src/runtime/branch.rs:18-26 | the condition a branch node reads; specified by `BranchConditionOrder` and `BranchFollowsCondition` |
| Interpret.BranchConditionOrder | fyrox-visual-scripting/src/runtime/branch.rs:18-26 | the linked bool input wins, then a bool `"condition"` literal; otherwise false |
| Interpret.BranchFollowsCondition | fyrox-visual-scripting/src/runtime/branch.rs:28-32 | a true condition continues via `"true"`, a false one via `"false"` |
| Interpret.TargetName | fyrox-visual-scripting/src/runtime/set_variable.rs:18-25 | the variable a set-variable node writes; specified by `SetVariableOrder`, `StepEffects` and `Interpreter.ExecuteSetVariable` |
| Interpret.AssignedValue | fyrox-visual-scripting/src/runtime/set_variable.rs:27-43 | the value a set-variable node writes; specified by `SetVariableOrder`, `StepEffects` and `Interpreter.ExecuteSetVariable` |
| Interpret.SetVariableOrder | fyrox-visual-scripting/src/runtime/set_variable.rs:18-43 | the key is the string `"name"` else "var"; the value is the linked input, else a `"value"` literal of the compiled pin type (Unit without the pin), else Unit |
| Interpret.ScriptCode | fyrox-visual-scripting/src/runtime/rhai_script.rs:11-36 | the script a Rhai node hands to the scripting engine; specified by `Interpreter.ExecuteRhaiScript` |
| Interpret.Step | fyrox-visual-scripting/src/runtime/mod.rs:38-57 | the effect of one node's runtime; specified by `StepEffects`, `PassthroughIgnoresNode`, `StepAdvances` and `Interpreter.Execute` |
| Interpret.StepEffects | fyrox-visual-scripting/src/runtime/mod.rs:21-29 | every handler continues along one of the node's own exec outputs and emits only prints; only SetVariable and RhaiScript touch the store; SetVariable writes exactly one key; Print adds exactly one event |
| Interpret.PassthroughIgnoresNode | fyrox-visual-scripting/src/runtime/passthrough.rs:11-20 | exactly `next_exec(node, "then")`, no events, no store change, independent of the node's properties |
| Interpret.TemplateWithoutThenEnds | fyrox-visual-scripting/src/runtime/passthrough.rs:19 | GetVariable, Self and GetActorName nodes with their template pins have no `"then"` and end the chain |
| Interpret.StepGraph | fyrox-visual-scripting/src/interpret.rs:109-122 | one iteration of the `run_from_exec_out` loop; specified by `StepAdvances`, `ChainWalks` and `ExecSafety.StepIsAdjacency` |
| Interpret.StepAdvances | fyrox-visual-scripting/src/interpret.rs:110-122 | the pin a handler returns leads, if anywhere, to a successor in the step graph |
| Interpret.StepShrinks | fyrox-visual-scripting/src/interpret.rs:110-122 | on an acyclic step graph every iteration lowers what remains of the run |
| Interpret.Chain | fyrox-visual-scripting/src/interpret.rs:109-122 | the nodes the `run_from_exec_out` loop visits; specified by `RunFromSnapshot`, `ChainEnters`, `ChainWalks` and `RunVisitsOnce` |
| Interpret.RunFrom | fyrox-visual-scripting/src/interpret.rs:96-126 | the state after `run_from_exec_out`; specified by `RunFromSnapshot` and `Interpreter.RunFromExecOut` |
| Interpret.RunFromSnapshot | fyrox-visual-scripting/src/interpret.rs:96-125 | a run that cannot start returns no events and an empty variable map; a run that starts returns the chain's events and exactly the store it leaves |
| Interpret.Entered | fyrox-visual-scripting/src/interpret.rs:115 | the entered nodes are at most the events |
| Interpret.EnteredAppend | fyrox-visual-scripting/src/interpret.rs:115 | the nodes entered by two event lists joined are those of each, joined |
| Interpret.EnteredPrints | fyrox-visual-scripting/src/runtime/print.rs:29 | handler events enter no node |
| Interpret.ChainEnters | fyrox-visual-scripting/src/interpret.rs:111-121 | `EnterNode(n)` is logged before the handler's events and before the rest of the chain |
| Interpret.ChainWalks | fyrox-visual-scripting/src/interpret.rs:110-122 | the nodes a run enters form a walk of the step graph from the owner of the first exec input |
| Interpret.RunVisitsOnce | fyrox-visual-scripting/src/interpret.rs:110-122 | on an acyclic step graph a run enters each node at most once, so at most the number of nodes |
| Interpret.Interpreter.constructor | fyrox-visual-scripting/src/interpret.rs:61-66 | the store is seeded with the compiled variables |
| Interpret.Interpreter.SetVariable | fyrox-visual-scripting/src/interpret.rs:198-200 | writes that one key |
| Interpret.Interpreter.ExecuteScript | fyrox-visual-scripting/src/interpret.rs:128-196 | the engine's store replaces the store; its printed texts are appended; its error is returned |
| Interpret.Interpreter.ExecutePrint | fyrox-visual-scripting/src/runtime/print.rs:11-31 | appends exactly one Print of the chosen text, continues via `"then"`, store unchanged |
| Interpret.Interpreter.ExecuteBranch | fyrox-visual-scripting/src/runtime/branch.rs:11-33 | continues via `"true"` or `"false"` by the condition; no event, store unchanged |
| Interpret.Interpreter.ExecuteSetVariable | fyrox-visual-scripting/src/runtime/set_variable.rs:11-47 | writes the chosen value under the chosen key and nothing else; continues via `"then"` |
| Interpret.Interpreter.ExecuteRhaiScript | fyrox-visual-scripting/src/runtime/rhai_script.rs:11-36 | runs the chosen snippet; prints, then "[Rhai error] …" on failure; continues via `"then"` |
| Interpret.Interpreter.Execute | fyrox-visual-scripting/src/runtime/mod.rs:38-57 | dispatches by kind; equals one `Step` |
| Interpret.Interpreter.RunFromExecOut | fyrox-visual-scripting/src/interpret.rs:96-125 | the while loop over exec input pins returns exactly `RunFrom`: the chain's events and the final store as snapshot |
| Interpret.Interpreter.RunEntry | fyrox-visual-scripting/src/interpret.rs:88-94 | no entry: empty output, store unchanged; else a run from its `"then"` |
| Interpret.Interpreter.RunBeginPlay | fyrox-visual-scripting/src/interpret.rs:68-70 | runs from the BeginPlay entry, or returns empty output |
| Interpret.Interpreter.RunConstructionScript | fyrox-visual-scripting/src/interpret.rs:72-74 | runs from the construction entry, or returns empty output |
| Interpret.Interpreter.Tick | fyrox-visual-scripting/src/interpret.rs:76-86 | with a Tick entry stores `"__dt" = F32(dt)` and runs from it; without one changes nothing |
| ExecSafety.TableEntryOwned | fyrox-visual-scripting/src/interpret.rs:208-219 | with unique pin ids, a node's compiled pin is owned by that node |
| ExecSafety.CompiledParts | fyrox-visual-scripting/src/compile.rs:35-119 | a successful compile passed validation and the cycle check; its nodes, entry and exec edges are the lowered ones |
| ExecSafety.ValidationPassesCycleCheck | fyrox-visual-scripting/src/compile.rs:262-263 | passing validation includes building the adjacency and passing the cycle check |
| ExecSafety.StepIsAdjacency | fyrox-visual-scripting/src/interpret.rs:110-122 | with unique pin ids every interpreter hand-over is an edge of the compiler's exec adjacency |
| ExecSafety.CompiledRunsTerminate | fyrox-visual-scripting/src/interpret.rs:110-122 | every compiled graph with unique pin ids has an acyclic step graph, so each run ends |
| SharedPins.SharedOwners | fyrox-visual-scripting/src/model.rs:518-529 | validation attributes the shared pin 11 to node 1 |
| SharedPins.SharedLinksPass | fyrox-visual-scripting/src/compile.rs:171-215 | both links pass the per-link checks |
| SharedPins.SharedFanInPasses | fyrox-visual-scripting/src/compile.rs:217-235 | no exec input is over-fed |
| SharedPins.SharedAdjacency | fyrox-visual-scripting/src/compile.rs:270-286 | validation's adjacency is 3→1, 1→2 |
| SharedPins.SharedAcyclic | fyrox-visual-scripting/src/compile.rs:288-299 | that adjacency passes the cycle check |
| SharedPins.SharedCyclePasses | fyrox-visual-scripting/src/compile.rs:263 | the exec-cycle step of validation passes |
| SharedPins.SharedVariableNodesPass | fyrox-visual-scripting/src/compile.rs:240-260 | the variable-node step passes (the graph has no variable nodes) |
| SharedPins.SharedValidates | fyrox-visual-scripting/src/compile.rs:157-266 | the graph passes validation |
| SharedPins.SharedCompiled | fyrox-visual-scripting/src/compile.rs:35-119 | it compiles with BeginPlay node 3 as entry and exec edges 30→10, 11→20 |
| SharedPins.SharedExecEdges | fyrox-visual-scripting/src/compile.rs:91-108 | lowering files the exec edges 30→10 and 11→20 |
| SharedPins.SharedEntry | fyrox-visual-scripting/src/compile.rs:121-126 | the BeginPlay entry is node 3 |
| SharedPins.SharedRuntimeOwners | fyrox-visual-scripting/src/interpret.rs:208-219 | the interpreter attributes pin 10 to node 1 and pin 20 to node 2 |
| SharedPins.SharedHandOvers | fyrox-visual-scripting/src/interpret.rs:208-232 | node 3 hands over to node 1, node 1 to node 2, and node 2's `then` leads to pin 20 again |
| SharedPins.SharedSelfStep | fyrox-visual-scripting/src/interpret.rs:110-122 | node 2's `"then"` (pin 11) leads back to its own exec input 20, for every engine and store |
| SharedPins.SharedPinIdLoops | fyrox-visual-scripting/src/interpret.rs:110-122 | as written, a compiled graph whose step graph has the self-loop 2→2, so it is not terminating |
| SharedPins.CheckedCompile | fyrox-visual-scripting/src/compile.rs:157-266 | validation followed by compilation; specified by `CheckedCompileTerminates` and `CheckedCompileAgrees` |
| SharedPins.CheckedCompileTerminates | fyrox-visual-scripting/src/compile.rs:157-266 | corrected: every graph the checked compile accepts terminates, and the shared-id graph is refused |
| SharedPins.CheckedCompileAgrees | fyrox-visual-scripting/src/model.rs:499-512 | on graphs with unique pin ids, such as those built by `add_node`, the checked compile is the compile as written |
| NodeDefs.InputDef | fyrox-visual-scripting/src/nodes/base.rs:17-23 | direction Input, name and type as given |
| NodeDefs.OutputDef | fyrox-visual-scripting/src/nodes/base.rs:25-31 | direction Output, name and type as given |
| NodeDefs.ExecIn | fyrox-visual-scripting/src/nodes/base.rs:33-35 | an Exec input |
| NodeDefs.ExecOut | fyrox-visual-scripting/src/nodes/base.rs:37-39 | an Exec output |
| NodeDefs.ToPin | fyrox-visual-scripting/src/nodes/base.rs:42-49 | copies name, direction and type and uses the given id |
| NodeDefs.NewProperty | fyrox-visual-scripting/src/nodes/base.rs:63-71 | the type is the default's `data_type()` (never Exec), not inline-editable |
| NodeDefs.Inline | fyrox-visual-scripting/src/nodes/base.rs:73-76 | sets only `inline_editable` |
| NodeDefs.Definition | fyrox-visual-scripting/src/nodes/base.rs:92-140 | the trait defaults: empty description, no properties, neither entry nor pure, both built-in graphs allowed, no inline key |
| NodeDefs.CreatePins | fyrox-visual-scripting/src/nodes/base.rs:120-126 | ids 0..n-1 in declaration order, every other field kept |
| NodeDefs.CreatedPinsRenumber | fyrox-visual-scripting/src/model.rs:504-508 | once a graph renumbers the created pins, the placeholder ids play no part |
| NodeDefs.PropertyMap | fyrox-visual-scripting/src/nodes/base.rs:129-134 | the keys are exactly the property names |
| NodeDefs.CreateProperties | fyrox-visual-scripting/src/nodes/base.rs:129-134 | the same for a definition's properties |
| NodeDefs.LastPropertyWins | fyrox-visual-scripting/src/nodes/base.rs:129-134 | a later duplicate name overrides an earlier one |
| NodeDefs.KindName | fyrox-visual-scripting/src/nodes/mod.rs:45-67 | each kind's registry name is registered |
| NodeDefs.GetNodeDefinition | fyrox-visual-scripting/src/nodes/mod.rs:70-74 | None iff no definition has the name; otherwise the position of one that has it |
| NodeDefs.RegistryCoversKinds | fyrox-visual-scripting/src/nodes/mod.rs:45-67 | fourteen definitions, one per kind in the listed order, under distinct names |
| NodeDefs.LookupFindsKind | fyrox-visual-scripting/src/nodes/mod.rs:70-74 | looking up a kind's name finds that kind's definition |
| NodeDefs.CategoryDisplayName | fyrox-visual-scripting/src/nodes/mod.rs:91-101 | every category has a non-empty name |
| NodeDefs.HeaderColor | fyrox-visual-scripting/src/nodes/mod.rs:104-114 | grey exactly for Flow Control and Custom |
| NodeDefs.PinColorForType | fyrox-visual-scripting/src/nodes/mod.rs:118-127 | white exactly for Exec; grey exactly for Exec and Unit |
| NodeDefs.PaletteDistinct | fyrox-visual-scripting/src/nodes/mod.rs:91-127 | names, header colours and pin colours are injective; the String header shares the String pin colour |
| Editor.EditorPinType | editor/src/plugins/blueprint/mod.rs:1450-1477 | the editor's effective pin type; specified by `EditorAgreesWithCompiler` |
| Editor.EditorAgreesWithCompiler | editor/src/plugins/blueprint/mod.rs:1450-1477 | the editor's pin-type rule equals the compiler's `get_actual_pin_type` on every graph and pin |
| Editor.ResolveConnection | editor/src/plugins/blueprint/mod.rs:1479-1520 | the oriented link a drag between two pins makes, if any; specified by `ResolveConnectionOriented` |
| Editor.ResolveConnectionOriented | editor/src/plugins/blueprint/mod.rs:1479-1520 | returns (a, b) iff a→b is connectable, (b, a) iff b→a is, None iff neither: same pin, missing pin, wrong graph, same direction or different types; symmetric in a and b |
| Editor.Retain | editor/src/plugins/blueprint/mod.rs:1539-1545 | keeps exactly the links that neither end at `to` nor, for Exec, start at `from` |
| Editor.RetainConcat | editor/src/plugins/blueprint/mod.rs:1539-1545 | retention distributes over concatenation, so relative order is kept |
| Editor.ConnectedLinks | editor/src/plugins/blueprint/mod.rs:1522-1548 | the link list after a connection; specified by `ConnectedLinksShape` and `BlueprintEditor.ApplyConnection` |
| Editor.ConnectedLinksShape | editor/src/plugins/blueprint/mod.rs:1522-1548 | unchanged unless Output→Input of equal types; otherwise the kept links in order, then the new link, which is the only link into `to` and, for Exec, the only link out of `from` |
| Editor.Candidate | editor/src/plugins/blueprint/mod.rs:2483-2496 | every candidate starts with the base name |
| Editor.CandidatesDistinct | editor/src/plugins/blueprint/mod.rs:2483-2496 | distinct counters give distinct candidates |
| Editor.TakenCandidatesBound | editor/src/plugins/blueprint/mod.rs:2483-2496 | no more candidates can be taken than there are names, so the search ends |
| Editor.UniqueName | editor/src/plugins/blueprint/mod.rs:2483-2496 | the counter loop returns the first free candidate in "base", "base1", "base2", … |
| Editor.FreshNameKeepsUnique | editor/src/plugins/blueprint/mod.rs:2483-2496 | appending a variable with a fresh name keeps names unique |
| Editor.BlueprintEditor.CreateVariable | editor/src/plugins/blueprint/mod.rs:2483-2496 | appends a String variable with default "" under the first free "NewVar…" name; unique names stay unique |
| Editor.BlueprintEditor.NewGraphNamed | editor/src/plugins/blueprint/mod.rs:2918-2946 | appends one graph definition under the first free candidate name |
| Editor.BlueprintEditor.NewGraph | editor/src/plugins/blueprint/mod.rs:2918-2927 | the first free "NewGraph…" name, of kind Graph |
| Editor.BlueprintEditor.NewFunction | editor/src/plugins/blueprint/mod.rs:2937-2946 | the first free "NewFunction…" name, of kind Function |
| Editor.BlueprintEditor.ApplyConnection | editor/src/plugins/blueprint/mod.rs:1522-1548 | the retain-then-push loop leaves exactly `ConnectedLinks` of the old graph; nothing else changes |
| Editor.VariableTypes | editor/src/plugins/blueprint/mod.rs:2555-2562 | the map's keys are the declared names |
| Editor.VariableTypesFind | editor/src/plugins/blueprint/mod.rs:2555-2562 | with unique names the sync map agrees with the compiler's first-match lookup |
| Editor.FindVariablePrefix | fyrox-visual-scripting/src/compile.rs:65-69 | a declaration added at the end never changes a lookup that already succeeds; it answers only a name not declared before |
| Editor.FirstPinNamed | editor/src/plugins/blueprint/mod.rs:3595-3599 | the first pin with the name, or None iff none has it |
| Editor.SetPinDataTypeByName | editor/src/plugins/blueprint/mod.rs:3595-3599 | only the first pin of that name is retyped; everything else is unchanged |
| Editor.SyncedNode | editor/src/plugins/blueprint/mod.rs:2555-2577 | one variable node with its value pin retyped; specified by `SyncedTemplateIsEffective` and `BlueprintEditor.SyncVariableNodePinTypes` |
| Editor.SyncedTemplateIsEffective | editor/src/plugins/blueprint/mod.rs:2555-2577 | after the sync the `"value"` pin's template type is the variable's type, and equals the compiler's effective type |
| Editor.BlueprintEditor.SyncVariableNodePinTypes | editor/src/plugins/blueprint/mod.rs:2555-2577 | every node is replaced by its synced form; nothing else changes |
| Editor.RenamedNode | editor/src/plugins/blueprint/mod.rs:3119-3130 | id, kind, graph, pins and position kept |
| Editor.RenameTouchesOnlyUsers | editor/src/plugins/blueprint/mod.rs:3113-3131 | exactly the Get/SetVariable nodes naming the old name get the new one; their other properties and all other nodes are unchanged |
| Editor.RenameKeepsBinding | editor/src/plugins/blueprint/mod.rs:3113-3131 | with a fresh new name every variable node still resolves to the same variable type |
| Editor.FindVariableAt | fyrox-visual-scripting/src/compile.rs:65-69 | with unique names looking up a declared name finds that declaration |
| Editor.FindVariableRenamed | editor/src/plugins/blueprint/mod.rs:3113-3118 | renaming one variable leaves every other name's lookup unchanged |
| Editor.FindVariableAtName | fyrox-visual-scripting/src/compile.rs:65-69 | with unique names the lookup finds the declaration of that name |
| Editor.BlueprintEditor.RenameVariable | editor/src/plugins/blueprint/mod.rs:3113-3131 | an out-of-range index does nothing; otherwise the variable is renamed and exactly the user nodes are rewritten |
| Editor.SelectedType | editor/src/plugins/blueprint/mod.rs:3149-3154 | selection 0, 1, 2 and any other give Bool, I32, F32, String |
| Editor.RetypedDefaultFits | editor/src/plugins/blueprint/mod.rs:3149-3160 | the reset default has the new type |
| Editor.BlueprintEditor.RetypeVariable | editor/src/plugins/blueprint/mod.rs:3142-3162 | an out-of-range index does nothing; otherwise type and zero default are set and the variable nodes are re-synced |
| Editor.VisibleNodesByGraphName | editor/src/plugins/blueprint/mod.rs:1576-1582 | exactly the nodes whose graph has that name |
| Editor.TabsPartitionNodes | editor/src/plugins/blueprint/mod.rs:1576-1582 | different tabs show disjoint nodes, and every node is shown in its own graph's tab |
| Editor.DataTypeLabel | editor/src/plugins/blueprint/mod.rs:3601-3610 | every label is non-empty |
| Editor.DataTypeLabelInjective | editor/src/plugins/blueprint/mod.rs:3601-3610 | distinct types get distinct labels |
| ScreenLog.LastN | fyrox-blueprint/src/screen_log.rs:40-42 | the last min(n, length) entries, a suffix |
| ScreenLog.ScreenLogPlugin.constructor | fyrox-blueprint/src/screen_log.rs:35-43 | the queue starts empty |
| ScreenLog.ScreenLogPlugin.Push | fyrox-blueprint/src/screen_log.rs:38-43 | appends `(text, 2.0)` and pops the front while over six lines: the last six entries |
| ScreenLog.PushBounded | fyrox-blueprint/src/screen_log.rs:36-43 | at most six lines, the new one last; nothing dropped below six, exactly the oldest dropped at six |
| ScreenLog.Elapsed | fyrox-blueprint/src/screen_log.rs:100-102 | every TTL lowered by dt, texts and order kept |
| ScreenLog.DropExpired | fyrox-blueprint/src/screen_log.rs:103-105 | a suffix whose front, if any, is live; everything dropped had expired |
| ScreenLog.LiveFrontKeepsAll | fyrox-blueprint/src/screen_log.rs:103-105 | a live front line keeps every line, expired lines behind it included |
| ScreenLog.ScreenLogPlugin.Update | fyrox-blueprint/src/screen_log.rs:99-106 | the decrement loop and the pop loop leave exactly `DropExpired(Elapsed(lines, dt))` |
| ScreenLog.FirstNewline | fyrox-blueprint/src/screen_log.rs:72-77 | None iff no newline; otherwise the first one |
| ScreenLog.FirstNewlineAt | fyrox-blueprint/src/screen_log.rs:72-77 | after a newline-free text the first newline is the separator |
| ScreenLog.Split | fyrox-blueprint/src/screen_log.rs:72-77 | cutting at newlines gives at least one piece |
| ScreenLog.Join | fyrox-blueprint/src/screen_log.rs:72-77 | the lines joined by newlines; specified by `SplitJoin` |
| ScreenLog.ScreenLogPlugin.Render | fyrox-blueprint/src/screen_log.rs:67-80 | the overlay text, `Join` of the live lines' texts; specified by `SplitJoin` |
| ScreenLog.SplitJoin | fyrox-blueprint/src/screen_log.rs:72-77 | splitting the rendered text gives back the queued texts in order, when none holds a newline |
| ScreenLog.Texts | fyrox-blueprint/src/screen_log.rs:73-75 | the queued texts in queue order |
| Executor.ProjectRoot | executor/src/main.rs:26-32 | a prefix of the path with no "/data/" starting inside it; either the whole path or followed by "/data/" |
| Executor.DataRootOf | executor/src/main.rs:26-32 | for `<root>/data/<rest>` the candidate is `<root>` |
| Executor.SceneDirectory | executor/src/main.rs:26-38 | unless the parent was used, the directory is a non-empty prefix of the scene path |
| Executor.DataSceneUsesRoot | executor/src/main.rs:26-35 | a scene under a non-empty `<root>/data/` makes `<root>` the working directory |
| Executor.ParentOnlyForEmptyRoot | executor/src/main.rs:32-38 | the parent is used only when the candidate is empty, that is for "" and for paths that start with "/data/" |
| Executor.ChosenDirectory | executor/src/main.rs:20-41 | no flag, no change |
| Executor.SetWorkingDirectoryFromOverrideSceneArg | executor/src/main.rs:16-44 | the argument loop returns exactly `ChosenDirectory` |
| Executor.FirstFlagDecides | executor/src/main.rs:20-41 | the first `--override-scene` followed by a path decides, whatever comes after |
| Executor.TrailingFlagIgnored | executor/src/main.rs:22-23 | a trailing flag changes nothing |
| Executor.NoSlashNoData | executor/src/main.rs:29 | a path without '/' has no "/data/" |
| Executor.PlainScenePathKept | executor/src/main.rs:26-38 | as written, a path without "/data/" is chosen as the directory itself |
| Executor.SceneFileChosenAsDirectory | executor/src/main.rs:26-38 | as written, "scene.rgs" is chosen as the directory, whatever its parent is |
| Executor.IntendedSceneDirectory | executor/src/main.rs:26-38 | the directory the scene argument evidently should select; specified by `IntendedSceneDirectoryChoice` and `IntendedDataSceneUsesRoot` |
| Executor.IntendedSceneDirectoryChoice | executor/src/main.rs:26-38 | corrected: a path without "/data/" gives its parent; on paths with "/data/" it agrees with the code as written |
| Executor.IntendedDataSceneUsesRoot | executor/src/main.rs:26-35 | corrected: a scene under `<root>/data/` still gives `<root>` |

## Left out

- Rhai embedding (`execute_rhai`, `value_to_dynamic`, `dynamic_to_value`). The engine is a function parameter returning the printed texts, the new store and an optional error. Its internals and the `Arc<Mutex>` bridges are not modelled.
- Serde/JSON (de)serialisation, the `#[serde(default)]` fallbacks and `fyrox-blueprint/src/resource.rs`. These are library code and file I/O.
- `fyrox-blueprint/src/lib.rs` and all editor UI: widgets, message routing, camera maths, prefab I/O and resource requests. These are engine glue.
- The per-kind `NodeDefinition` files. They are constant tables, and nothing in compile or interpret reads them. Only the registry's kind names are modelled.
- `f32`. Values, positions, `dt` and TTLs are `real`. No IEEE rounding is modelled.
- `Model.BlueprintGraph.AddNode`: `next_node_id` and `next_pin_id` are unbounded, so the `u32` overflow of the counters is not modelled.
- `Interpret.Interpreter.RunFromExecOut`, `Interpret.Interpreter.RunEntry`, `Interpret.Interpreter.RunBeginPlay`, `Interpret.Interpreter.RunConstructionScript`, `Interpret.Interpreter.Tick`: each requires `Terminating(compiled)`, which `run_from_exec_out` does not check. Without it the loop need not end (see Findings). `ExecSafety.CompiledRunsTerminate` discharges it for every compiled graph with unique pin ids.
- `Interpret.Interpreter.RunFromExecOut`: `run_from_exec_out`'s `compiled.nodes.get(node_id)` after `pin_owner` cannot fail, because the owner is a key of that map. That break is not modelled.
- `out.events` is an in-out buffer in the Rust handlers. In the model, handlers take the events and return them extended.
- The `BrokenExecLink` errors of `detect_exec_cycles` can only be reached after an unknown-pin error, which validation reports earlier. They are modelled but never reported.
- `Editor.BlueprintEditor.SyncVariableNodePinTypes`: the sync builds a name-to-type map in which a later duplicate wins, while the compiler's lookup takes the first match. The two agree under unique names, which validation enforces (`Editor.VariableTypesFind`).
- Executor: the model returns the directory it would pass to `set_current_dir`. Whether that call succeeds, `std::env::args` itself and `Path::parent` are not modelled; the last is a function parameter.
- Link::exec, GraphKind's default and the `default_*` serde helpers are trivial constructors and are not modelled.

## Findings

| source | as written | input that shows it | evidently intended | confidence | as-written member | corrected member |
|---|---|---|---|---|---|---|
| fyrox-visual-scripting/src/compile.rs:268-324 | Validation attributes a pin id to the lowest node that has it (`pin_owner`). The interpreter follows the actual node's compiled pin table. With a pin id shared by two nodes, the cycle check walks a different graph from the one the interpreter runs. | Node 1 Print has pins exec=10, then=11. Node 2 Print has pins exec=20, then=11. Node 3 BeginPlay has then=30. Links are 30→10 and 11→20. Validation sees 3→1→2 and accepts. At run time node 2's `then` (pin 11) leads to 20, node 2's own input, so `run_begin_play` loops forever. | Reject graphs whose pin ids are not unique, for example deserialised ones, so that every accepted graph's runs end. | not executed | SharedPins.SharedPinIdLoops | SharedPins.CheckedCompileTerminates |
| executor/src/main.rs:26-38 | `split("/data/").next()` returns the whole path when it has no "/data/", so the candidate root is the scene file path itself. The parent-directory fallback is then reached only for "" and for paths starting with "/data/". | `--override-scene scene.rgs` asks to switch into `scene.rgs`, and the parent is never consulted. | Use the project root only when the path goes through `<project>/data/`; otherwise use the scene's parent directory. | not executed | Executor.SceneFileChosenAsDirectory | Executor.IntendedSceneDirectoryChoice |
