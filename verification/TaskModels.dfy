/** The status sets of the task database. */
module TaskModels {

  const TERMINAL_REPO_STATUSES: set<string> := {"COMPLETED", "FAILED", "CANCELLED", "POISONED", "BUDGET_EXCEEDED"}

  const TERMINAL_CLASS_STATUSES: set<string> :=
    {"PASS", "FAIL", "MUTATION_FAIL", "BUDGET_EXCEEDED", "PROVIDER_ERROR", "PROVIDER_RATE_LIMITED", "PUSH_FAILED",
     "UNSAFE_DIFF", "LLM_STALLED", "CANCELLED"}

  const ORDINARY_REQUEUE: set<string> := {"CREATED", "PENDING", "QUEUED", "RUNNING", "STOPPED"}

  const NON_FAILURE: set<string> := {"PASS", "CREATED", "PENDING", "QUEUED", "RUNNING", "STOPPED", "GENERATED"}

  /** The statuses the task model knows for a class. */
  const CLASS_STATUSES: set<string> := TERMINAL_CLASS_STATUSES + ORDINARY_REQUEUE + {"GENERATED"}
}
