/** Request states, and the table of moves between them. */
module States {
  import opened Prelude

  datatype RequestState =
    | Received | Extracted | NeedsInfo | ClarificationSent | Validated
    | RateSelected | PendingApproval | QuotationSent | NoEligibleRate
    | Accepted | Declined | ClosedNoRates | MakerRejected | Failed | ManualReview | Resolved

  const TERMINAL: set<RequestState> :=
    {Accepted, Declined, ClosedNoRates, MakerRejected, Failed, ManualReview, Resolved}

  function Transitions(s: RequestState): set<RequestState> {
    match s
    case Received => {Extracted, Failed, ManualReview}
    case Extracted => {Validated, NeedsInfo, Failed, ManualReview}
    case NeedsInfo => {ClarificationSent}
    case ClarificationSent => {Extracted, ManualReview}
    case Validated => {RateSelected, NoEligibleRate, Failed, NeedsInfo, ManualReview}
    case RateSelected => {PendingApproval}
    case PendingApproval => {QuotationSent, MakerRejected}
    case QuotationSent => {RequestState.Accepted, Declined, ManualReview}
    case NoEligibleRate => {ClosedNoRates}
    case ManualReview => {Resolved}
    case _ => {}
  }

  predicate CanTransition(from: RequestState, to: RequestState) {
    to in Transitions(from)
  }

  /** The states in which `handle` reads a client's message. */
  predicate AcceptsClientReply(s: RequestState) {
    s.Extracted? || CanTransition(s, Extracted)
  }

  /** `to` follows `from` along at most `steps` edges of the table. */
  ghost predicate Path(from: RequestState, to: RequestState, steps: nat)
    decreases steps
  {
    from == to || (steps > 0 && exists mid :: CanTransition(from, mid) && Path(mid, to, steps - 1))
  }

  /** The table read backwards: what may come before a state. */
  function Predecessors(t: RequestState): set<RequestState> {
    match t
    case Extracted => {Received, ClarificationSent}
    case NeedsInfo => {Extracted, Validated}
    case ClarificationSent => {NeedsInfo}
    case Validated => {Extracted}
    case RateSelected => {Validated}
    case NoEligibleRate => {Validated}
    case PendingApproval => {RateSelected}
    case QuotationSent => {PendingApproval}
    case MakerRejected => {PendingApproval}
    case Accepted => {QuotationSent}
    case Declined => {QuotationSent}
    case ClosedNoRates => {NoEligibleRate}
    case Failed => {Received, Extracted, Validated}
    case ManualReview => {Received, Extracted, ClarificationSent, Validated, QuotationSent}
    case Resolved => {ManualReview}
    case Received => {}
  }

  lemma TheTableReadBackwards(s: RequestState, t: RequestState)
    ensures CanTransition(s, t) <==> s in Predecessors(t)
  {
  }

  /** What the table says about ends and about the draft gate: the terminal states have no way out,
      except that a person may settle a manual review; a held draft has one way out; and a client's
      message is welcome in exactly three states. */
  lemma ReadingTheTable(s: RequestState, t: RequestState)
    ensures s in TERMINAL && CanTransition(s, t) ==> s == ManualReview && t == Resolved
    ensures CanTransition(NeedsInfo, t) <==> t == ClarificationSent
    ensures AcceptsClientReply(s) <==> s == Received || s == Extracted || s == ClarificationSent
  {
  }
}
