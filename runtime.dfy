/** The dispatch table from node kinds to runtime handlers: four kinds have a
    handler of their own, every other kind only follows its `"then"` output. */
module Runtime {
  import opened Model

  /** The five runtime behaviours a compiled node can have. */
  datatype Handler = PrintHandler | BranchHandler | SetVariableHandler | RhaiScriptHandler | Passthrough

  function RuntimeFor(kind: BuiltinNodeKind): (h: Handler)
    ensures h == PrintHandler <==> kind == Print
    ensures h == BranchHandler <==> kind == Branch
    ensures h == SetVariableHandler <==> kind == SetVariable
    ensures h == RhaiScriptHandler <==> kind == RhaiScript
  {
    match kind
    case Print => PrintHandler
    case Branch => BranchHandler
    case SetVariable => SetVariableHandler
    case RhaiScript => RhaiScriptHandler
    case BeginPlay | Tick | ConstructionScript | GetVariable | SelfActor
      | GetActorTransform | SetActorTransform | SpawnActor | GetActorByName | GetActorName => Passthrough
  }

  /** Entry nodes, pure nodes and the actor nodes all share the pass-through handler; no kind
      shares a dedicated handler with another kind. */
  lemma PassthroughKinds(kind: BuiltinNodeKind)
    ensures RuntimeFor(kind) == Passthrough <==> kind !in {Print, Branch, SetVariable, RhaiScript}
    ensures forall k :: RuntimeFor(k) == RuntimeFor(kind) && RuntimeFor(kind) != Passthrough ==> k == kind
  {
  }
}
