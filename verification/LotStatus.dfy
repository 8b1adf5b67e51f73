/** The statuses of a lot (`db/models.py`) and the ones a run may store
    (`agents/graph.py`). */
module LotStatus {
  datatype Status =
    | Draft | Planned | Sourcing | RfqSent | ResponsesCollected | Negotiating
    | Verified | ReportReady | Approved | Rejected | Escalated | Failed

  /** The range of `_STATUS_MAP`. */
  predicate Pipeline(s: Status) {
    s in {Planned, Sourcing, RfqSent, ResponsesCollected, Negotiating, Verified, ReportReady, Escalated}
  }

  predicate Decided(s: Status) { s == Approved || s == Rejected }

  /** The order in which a run passes through its statuses. */
  function Rank(s: Status): nat {
    match s
    case Draft => 0
    case Planned => 1
    case Sourcing => 2
    case RfqSent => 3
    case ResponsesCollected => 4
    case Negotiating => 5
    case Verified => 6
    case ReportReady => 7
    case _ => 8
  }
}
