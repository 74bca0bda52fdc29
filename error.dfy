/** Compile errors: a validation failure kind, optionally tagged with the node
    and the pin it concerns. The tagging operations take the error by value
    and return an updated copy, so a later tag of the same kind replaces an
    earlier one. */
module Errors {
  import opened Util

  datatype ValidationError =
    | UnknownPin
    | DirectionMismatch
    | TypeMismatch
    | MultipleExecInputs
    | MissingEntry(entry: string)
    | ExecCycle
    | BrokenExecLink
    | CrossGraphLink
    | DuplicateVariable
    | UnknownVariable

  datatype CompileError = CompileError(kind: ValidationError, node: Option<nat>, pin: Option<nat>)

  /** A fresh error of `kind` carries neither a node nor a pin. */
  function New(kind: ValidationError): (e: CompileError)
    ensures e.kind == kind && e.node.None? && e.pin.None?
  {
    CompileError(kind, None, None)
  }

  /** Tags the error with `node`; the kind and the pin are kept. */
  function WithNode(e: CompileError, node: nat): (r: CompileError)
    ensures r.kind == e.kind && r.pin == e.pin
    ensures r.node == Some(node)
  {
    e.(node := Some(node))
  }

  /** Tags the error with `pin`; the kind and the node are kept. */
  function WithPin(e: CompileError, pin: nat): (r: CompileError)
    ensures r.kind == e.kind && r.node == e.node
    ensures r.pin == Some(pin)
  {
    e.(pin := Some(pin))
  }

  /** Tagging twice keeps only the second tag, and the two kinds of tag commute. */
  lemma TagsOverwrite(e: CompileError, a: nat, b: nat)
    ensures WithNode(WithNode(e, a), b) == WithNode(e, b)
    ensures WithPin(WithPin(e, a), b) == WithPin(e, b)
    ensures WithPin(WithNode(e, a), b) == WithNode(WithPin(e, b), a)
  {
  }

  /** The cross-graph report tags both nodes and both pins; only the to-side survives. */
  lemma CrossGraphReportsToSide(fromNode: nat, toNode: nat, from: nat, to: nat)
    ensures WithPin(WithPin(WithNode(WithNode(New(CrossGraphLink), fromNode), toNode), from), to)
            == CompileError(CrossGraphLink, Some(toNode), Some(to))
  {
  }

  /** Direction and type mismatches tag both pins and no node; the to pin is what is reported. */
  lemma MismatchReportsToPin(kind: ValidationError, from: nat, to: nat)
    ensures WithPin(WithPin(New(kind), from), to) == CompileError(kind, None, Some(to))
  {
  }
}
