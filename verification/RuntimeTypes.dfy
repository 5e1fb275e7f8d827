/** Values exchanged between nodes, policies and the executor. */
module RuntimeTypes {
  import opened Budget
  import opened Contracts
  import opened Digraph
  import opened GraphValidation

  /** A node's payload: opaque JSON text, or the marker produced instead of running a write in shadow mode. */
  datatype Payload = Json(text: string) | ShadowMarker(wouldHaveRun: NodeId, effect: SideEffect)

  datatype NodeOutput = NodeOutput(data: Payload, tokens: U64, costUsd: real, durationMs: U64, model: Option<string>)

  datatype PolicyViolation = PolicyViolation(ruleId: string, message: string)

  datatype PolicyDecision =
    | Allow
    | AllowWithWarnings(warnings: seq<PolicyViolation>)
    | RequireApproval(gates: seq<PolicyViolation>)
    | Deny(violations: seq<PolicyViolation>)

  datatype RuntimeError =
    | StepTimeout(stepId: string, timeoutMs: U64)
    | BudgetExceeded(budget: BudgetError)
    | PolicyDenied(violations: seq<PolicyViolation>)
    | InvalidGraph(graph: GraphValidationError)
    | StorageFailure(text: string)
    | CompensationFailed(stepId: string, reason: string)
    | NodeFailure(text: string)
    | Revoked(did: string, reason: string)

  type Outputs = map<NodeId, NodeOutput>
}
