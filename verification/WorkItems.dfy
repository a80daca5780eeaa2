/** Work-item states and their manual transitions (internal/domain/models.go). */
module WorkItems {

  datatype WorkItemState =
    | Captured | Triaged | Planned | Running | Blocked | AwaitingApproval
    | Done | Failed | Canceled

  predicate Terminal(s: WorkItemState) {
    s.Done? || s.Failed? || s.Canceled?
  }

  predicate CanTransition(from: WorkItemState, to: WorkItemState) {
    from == to || !Terminal(from)
  }
}
