/** The clarification workflow as functions of its state: what one operation does to the stored
    requests, the round counters, the held drafts and the mail that has left. The model's answer,
    whether a send is delivered and the clock readings are inputs. */
module Workflow {
  import opened Prelude
  import opened Shipment
  import opened Validation
  import opened Clarification
  import opened States
  import Calendar

  type Id = string

  datatype RawEmail = RawEmail(messageId: string, fromAddress: string, inReplyTo: Option<string>,
      references: seq<string>)

  datatype QuotationRequest = QuotationRequest(
    state: RequestState,
    record: Fields,
    clientAddress: string,
    failureNoticeAt: Option<int>,
    followupAt: Option<int>,
    askedAbout: seq<FieldName>)

  /** A held message, with its recipient and the message it answers. */
  datatype Draft = Draft(message: Message, toAddress: string, inReplyTo: string)

  datatype Mail =
    | Clarification(requestId: Id, toAddress: string, inReplyTo: string, message: Message)
    | Reminder(requestId: Id, toAddress: string, inReplyTo: string)
    | FailureNotice(requestId: Id, toAddress: string, inReplyTo: string)

  datatype Desk = Desk(
    requests: map<Id, QuotationRequest>,
    rounds: map<Id, nat>,
    pending: map<Id, Draft>,
    outbox: seq<Mail>)

  /** A new process: whatever the store holds, and nothing of its own yet. */
  function NewDesk(requests: map<Id, QuotationRequest>): Desk {
    Desk(requests, map[], map[], [])
  }

  /** A clock reading: an instant in microseconds, and the calendar day it falls on. */
  datatype Instant = Instant(at: int, today: Calendar.Day)

  /** The readings of one turn that matter, in the order they are taken. */
  datatype TurnClock = TurnClock(resolve: Instant, judge: Instant, validate: Instant)

  /** Thirty minutes. */
  const FOLLOWUP_WINDOW: int := 30 * 60 * 1_000_000

  datatype ModelReply = Understood(x: Extraction) | Unreachable(permanent: bool) | ContractBroken

  datatype SendReply = Delivered | Refused(permanent: bool)

  datatype Trouble =
    | IllegalTransition(from: RequestState, to: RequestState)
    | NoDraftHeld
    | UnknownRequest
    | ExtractionUnavailable(permanent: bool)
    | OutboundUnavailable(permanent: bool)
    | SendFailed(permanent: bool)

  datatype TurnOutcome = TurnOutcome(
    state: RequestState,
    record: Fields,
    merge: MergeResult,
    issues: seq<Issue>,
    analysis: Analysis,
    clarification: Option<Message>,
    roundNumber: nat,
    isNonEnquiry: bool,
    replyNotAccepted: bool)

  datatype Approved = Approved(approver: string, at: int)

  function RoundsOf(rounds: map<Id, nat>, id: Id): nat {
    if id in rounds then rounds[id] else 0
  }

  function Lookup(requests: map<Id, QuotationRequest>, id: Id): Option<QuotationRequest> {
    if id in requests then Some(requests[id]) else None
  }

  /** `_advance`: staying put is always allowed, anything else needs an edge. */
  function Advance(current: RequestState, target: RequestState): Result<RequestState, Trouble> {
    if current == target then Returned(current)
    else if CanTransition(current, target) then Returned(target)
    else Raised(IllegalTransition(current, target))
  }

  // ----- what an operation can do to the state ------------------------------

  /** `save_request`. */
  function Save(d: Desk, id: Id, q: QuotationRequest): Desk {
    d.(requests := d.requests[id := q])
  }

  /** The sink accepted a mail. */
  function Post(d: Desk, m: Mail): Desk {
    d.(outbox := d.outbox + [m])
  }

  /** A draft is held for a person, and it costs a round. */
  function Hold(d: Desk, id: Id, draft: Draft): Desk {
    d.(pending := d.pending[id := draft], rounds := d.rounds[id := RoundsOf(d.rounds, id) + 1])
  }

  /** The held draft is spent. */
  function Release(d: Desk, id: Id): Desk {
    d.(pending := d.pending - {id})
  }

  // ----- one client message -------------------------------------------------

  /** An outcome that only reports on `record`; the flags say why nothing came of the message. */
  ghost function Report(roundNumber: nat, state: RequestState, record: Fields, x: Extraction,
                        today: Calendar.Day, nonEnquiry: bool, notAccepted: bool): TurnOutcome
  {
    var merge := Merge(record, ToExtractedFields(x));
    var issues := Validate(record, Some(today));
    TurnOutcome(state, record, merge, issues, Identify(issues, x, merge.conflicts), None, roundNumber, nonEnquiry,
        notAccepted)
  }

  /** A request left waiting after a reply that answered nothing. */
  ghost function Waiting(roundNumber: nat, merge: MergeResult, x: Extraction, today: Calendar.Day): TurnOutcome {
    var issues := Validate(merge.record, Some(today));
    TurnOutcome(ClarificationSent, merge.record, merge, issues, Identify(issues, x, merge.conflicts), None, roundNumber,
        false, false)
  }

  ghost function ExtractionFailed(d: Desk, id: Id, email: RawEmail, state: RequestState, record: Fields,
                                  existing: Option<QuotationRequest>, send: SendReply, clock: TurnClock)
    : (Desk, Result<TurnOutcome, Trouble>)
  {
    var noticeAt := if existing.Some? then existing.value.failureNoticeAt else None;
    if noticeAt.None? && send.Refused? then (d, Raised(OutboundUnavailable(send.permanent)))
    else
      var posted := if noticeAt.None? then Post(d, FailureNotice(id, email.fromAddress, email.messageId)) else d;
      var at := if noticeAt.None? then Some(clock.judge.at) else noticeAt;
      var s := Unread(posted, id, email, state, record, at, clock);
      (s.0, Returned(s.1))
  }

  /** To a person, where the table has that move. */
  function Escalated(state: RequestState): RequestState {
    if state != ManualReview && CanTransition(state, ManualReview) then ManualReview else state
  }

  /** The hand-over of a message nobody could read, with the client told at `noticeAt`. */
  ghost function Unread(
    d: Desk, id: Id, email: RawEmail, state: RequestState, record: Fields, noticeAt: Option<int>, clock: TurnClock)
    : (Desk, TurnOutcome)
  {
    var next := Escalated(state);
    (Save(d, id, QuotationRequest(next, record, email.fromAddress, noticeAt, None, [])),
     Report(RoundsOf(d.rounds, id), next, record, map[], clock.validate.today, false, false))
  }

  ghost function SendFollowup(d: Desk, id: Id, email: RawEmail, merge: MergeResult, x: Extraction,
                              send: SendReply, clock: TurnClock)
    : (Desk, Result<TurnOutcome, Trouble>)
  {
    if send.Refused? then (d, Raised(OutboundUnavailable(send.permanent)))
    else
      var saved := QuotationRequest(ClarificationSent, merge.record, email.fromAddress, None, Some(clock.judge.at), []);
      (Save(Post(d, Reminder(id, email.fromAddress, email.messageId)), id, saved),
       Returned(Waiting(RoundsOf(d.rounds, id), merge, x, clock.validate.today)))
  }

  /** Required fields still missing that this reply addressed in a way nobody could use. The
      shipment date does not count: a vague date can be asked for again. */
  predicate Unusable(x: Extraction, f: FieldName) {
    f != ShipDate && StatusOf(x, f).Ambiguous?
  }

  predicate AnyUnusable(missing: seq<FieldName>, x: Extraction) {
    exists f :: f in missing && Unusable(x, f)
  }

  /** The reply states nothing at all, and something required is still missing. */
  predicate NonAnswer(missing: seq<FieldName>, merge: MergeResult, x: Extraction) {
    && missing != [] && merge.changed == []
    && !AnyStated(x) && !AnyInvalid(x) && !StatusOf(x, ShipDate).Ambiguous?
  }

  /** The record without the fields a conflict question leaves open. */
  function Cleared(record: Fields, us: seq<UnresolvedField>): (r: Fields)
    ensures forall f :: f in r <==> f in record && !(exists u :: u in us && u.field == f && u.reason.AskConflict?)
    ensures forall f :: f in r ==> r[f] == record[f]
  {
    map f | f in record && !(exists u :: u in us && u.field == f && u.reason.AskConflict?) :: record[f]
  }

  /** Where a merged and judged message leaves the request, and whether a question is drafted. */
  ghost function Verdict(state: RequestState, futile: bool, overBudget: bool, analysis: Analysis)
    : Result<RequestState, Trouble>
  {
    if futile then Advance(state, ManualReview)
    else
      match Advance(state, Extracted)
      case Raised(t) => Raised(t)
      case Returned(s) =>
        if analysis.IsStuck() then Advance(s, ManualReview)
        else if overBudget && analysis.NeedsClarification() then Advance(s, ManualReview)
        else if !analysis.NeedsClarification() then Advance(s, Validated)
        else Advance(s, NeedsInfo)
  }

  predicate Drafts(futile: bool, overBudget: bool, analysis: Analysis) {
    !futile && analysis.NeedsClarification() && !overBudget
  }

  /** What is stored and reported once the verdict is known. */
  ghost function Settled(d: Desk, id: Id, email: RawEmail, merge: MergeResult, issues: seq<Issue>, analysis: Analysis,
                         next: RequestState, drafts: bool): (Desk, TurnOutcome)
    requires drafts ==> analysis.NeedsClarification()
  {
    if drafts then
      var message := Composed(analysis.unresolved).value;
      var saved := QuotationRequest(next, Cleared(merge.record, message.unresolved), email.fromAddress, None, None, []);
      (Save(Hold(d, id, Draft(message, email.fromAddress, email.messageId)), id, saved),
       TurnOutcome(next, merge.record, merge, issues, analysis, Some(message), RoundsOf(d.rounds, id) + 1, false,
           false))
    else
      var saved := QuotationRequest(next, merge.record, email.fromAddress, None, None, []);
      (Save(d, id, saved),
       TurnOutcome(next, merge.record, merge, issues, analysis, None, RoundsOf(d.rounds, id), false, false))
  }

  /** Judge the merged record, decide, and store: the deterministic tail of a turn. */
  ghost function Settle(d: Desk, id: Id, email: RawEmail, x: Extraction, merge: MergeResult, state: RequestState,
                        futile: bool, overBudget: bool, clock: TurnClock)
    : (Desk, Result<TurnOutcome, Trouble>)
  {
    var issues := Validate(merge.record, Some(clock.validate.today));
    var analysis := Identify(issues, x, merge.conflicts);
    match Verdict(state, futile, overBudget, analysis)
    case Raised(t) => (d, Raised(t))
    case Returned(next) =>
      var s := Settled(d, id, email, merge, issues, analysis, next, Drafts(futile, overBudget, analysis));
      (s.0, Returned(s.1))
  }

  /** A reply that answered nothing: one reminder, then a hand-over once its window has lapsed, and in
      between nothing at all. */
  ghost function AnswersNothing(
    d: Desk, id: Id, email: RawEmail, x: Extraction, merge: MergeResult, state: RequestState,
    existing: Option<QuotationRequest>, overBudget: bool, send: SendReply, clock: TurnClock)
    : (Desk, Result<TurnOutcome, Trouble>)
  {
    var since := if existing.Some? then existing.value.followupAt else None;
    if since.None? then SendFollowup(d, id, email, merge, x, send, clock)
    else if clock.judge.at - since.value >= FOLLOWUP_WINDOW then
      Settle(d, id, email, x, merge, state, true, overBudget, clock)
    else (d, Returned(Waiting(RoundsOf(d.rounds, id), merge, x, clock.validate.today)))
  }

  /** A merged message with what is still missing: a non-answer, or one to be judged. */
  ghost function Judged(
    d: Desk, id: Id, email: RawEmail, x: Extraction, merge: MergeResult, missing: seq<FieldName>, state: RequestState,
    existing: Option<QuotationRequest>, overBudget: bool, send: SendReply, clock: TurnClock)
    : (Desk, Result<TurnOutcome, Trouble>)
  {
    var unusable := state.ClarificationSent? && AnyUnusable(missing, x);
    if state.ClarificationSent? && !unusable && NonAnswer(missing, merge, x) then
      AnswersNothing(d, id, email, x, merge, state, existing, overBudget, send, clock)
    else Settle(d, id, email, x, merge, state, unusable, overBudget, clock)
  }

  /** A message merged into the record, and what is then missing. */
  ghost function Merged(d: Desk, id: Id, email: RawEmail, x: Extraction, state: RequestState, record: Fields,
                        existing: Option<QuotationRequest>, overBudget: bool, send: SendReply, clock: TurnClock)
    : (Desk, Result<TurnOutcome, Trouble>)
  {
    var merge := Merge(record, ToExtractedFields(x));
    var missing := MissingOf(Validate(merge.record, Some(clock.judge.today)));
    Judged(d, id, email, x, merge, missing, state, existing, overBudget, send, clock)
  }

  /** A message the model understood, with its ship date already resolved. */
  ghost function Turn(d: Desk, id: Id, email: RawEmail, x: Extraction, state: RequestState, record: Fields,
                      existing: Option<QuotationRequest>, overBudget: bool, send: SendReply, clock: TurnClock)
    : (Desk, Result<TurnOutcome, Trouble>)
  {
    if existing.None? && !AnyStated(x) && !AnyInvalid(x) then
      (d, Returned(Report(RoundsOf(d.rounds, id), Received, record, x, clock.validate.today, true, false)))
    else Merged(d, id, email, x, state, record, existing, overBudget, send, clock)
  }

  /** `handle`. */
  ghost function Handle(
    d: Desk, maxRounds: int, id: Id, email: RawEmail, model: ModelReply, send: SendReply, clock: TurnClock)
    : (Desk, Result<TurnOutcome, Trouble>)
  {
    var existing := Lookup(d.requests, id);
    var record := if existing.Some? then existing.value.record else map[];
    var state := if existing.Some? then existing.value.state else Received;
    var overBudget := state.ClarificationSent? && RoundsOf(d.rounds, id) >= maxRounds;
    if existing.Some? && !AcceptsClientReply(state) then
      if state.NeedsInfo? && !CanTransition(state, Extracted) then (d, Raised(IllegalTransition(state, Extracted)))
      else (d, Returned(Report(RoundsOf(d.rounds, id), state, record, map[], clock.validate.today, false, true)))
    else
      match model
      case Unreachable(permanent) => (d, Raised(ExtractionUnavailable(permanent)))
      case ContractBroken => ExtractionFailed(d, id, email, state, record, existing, send, clock)
      case Understood(raw) =>
        Turn(d, id, email, ResolveShipDate(raw, clock.resolve.today), state, record, existing, overBudget, send, clock)
  }

  // ----- questions found after validation -----------------------------------

  /** The record without every field that is asked about. */
  function Reopened(record: Fields, us: seq<UnresolvedField>): (r: Fields)
    ensures forall f :: f in r <==> f in record && !(exists u :: u in us && u.field == f)
    ensures forall f :: f in r ==> r[f] == record[f]
  {
    map f | f in record && !(exists u :: u in us && u.field == f) :: record[f]
  }

  /** Both post-validation requests: a held draft is returned as it is; with nothing to ask there is no
      draft; a spent budget hands over; otherwise the fields are reopened and one draft is held. */
  ghost function AskAgain(
    d: Desk, maxRounds: int, id: Id, us: seq<UnresolvedField>, toAddress: string, inReplyTo: string)
    : (Desk, Result<Option<Message>, Trouble>)
  {
    if id in d.pending then (d, Returned(Some(d.pending[id].message)))
    else if us == [] then (d, Returned(None))
    else if id !in d.requests then (d, Raised(UnknownRequest))
    else
      var stored := d.requests[id];
      var rounds := RoundsOf(d.rounds, id);
      if rounds >= maxRounds then
        match Advance(stored.state, ManualReview)
        case Raised(t) => (d, Raised(t))
        case Returned(s) => (Save(d, id, stored.(state := s)), Returned(None))
      else
        match Advance(stored.state, NeedsInfo)
        case Raised(t) => (d, Raised(t))
        case Returned(s) =>
          var message := Composed(us).value;
          (Save(Hold(d, id, Draft(message, toAddress, inReplyTo)), id,
                stored.(state := s, record := Reopened(stored.record, us))),
           Returned(Some(message)))
  }

  /** Places the rate search could not resolve, as things to ask. */
  function PlaceQuestions(places: seq<FieldName>): (us: seq<UnresolvedField>)
    ensures |us| == |places|
    ensures forall i :: 0 <= i < |us| ==> us[i] == UnresolvedField(places[i], AskAmbiguous, None)
  {
    seq(|places|, i requires 0 <= i < |places| => UnresolvedField(places[i], AskAmbiguous, None))
  }

  const DATE_QUESTION: seq<UnresolvedField> := [UnresolvedField(ShipDate, AskInvalid, None)]

  // ----- approval and the sweep ---------------------------------------------

  function AskedFields(us: seq<UnresolvedField>): (fs: seq<FieldName>)
    ensures |fs| == |us| && forall i :: 0 <= i < |us| ==> fs[i] == us[i].field
  {
    seq(|us|, i requires 0 <= i < |us| => us[i].field)
  }

  /** `approve_clarification`: the draft is spent only once the send has been accepted. */
  ghost function Approve(d: Desk, id: Id, approver: string, send: SendReply, at: int): (Desk, Result<Approved, Trouble>)
  {
    if id !in d.pending then (d, Raised(NoDraftHeld))
    else if id !in d.requests then (d, Raised(UnknownRequest))
    else if send.Refused? then (d, Raised(SendFailed(send.permanent)))
    else
      var held, stored := d.pending[id], d.requests[id];
      var sent := Release(Post(d, Clarification(id, held.toAddress, held.inReplyTo, held.message)), id);
      match Advance(stored.state, ClarificationSent)
      case Raised(t) => (sent, Raised(t))
      case Returned(s) =>
        var asked := AskedFields(held.message.unresolved);
        (Save(sent, id, stored.(state := s, askedAbout := asked)), Returned(Approved(approver, at)))
  }

  /** A waiting request that was reminded too long ago. */
  predicate Lapsed(q: QuotationRequest, now: int) {
    q.state.ClarificationSent? && q.followupAt.Some? && now - q.followupAt.value >= FOLLOWUP_WINDOW
  }

  function LapsedIds(requests: map<Id, QuotationRequest>, now: int): set<Id> {
    set id | id in requests && Lapsed(requests[id], now)
  }

  /** What the sweep makes of one request; the move to a person is an edge of the table. */
  function Swept(q: QuotationRequest, now: int): (r: Result<QuotationRequest, Trouble>)
    ensures r == Returned(if Lapsed(q, now) then q.(state := ManualReview) else q)
  {
    if !Lapsed(q, now) then Returned(q)
    else
      match Advance(q.state, ManualReview)
      case Raised(t) => Raised(t)
      case Returned(s) => Returned(q.(state := s))
  }

  /** `sweep_followup_deadlines`. */
  ghost function Sweep(d: Desk, now: int): Desk {
    d.(requests := map id | id in d.requests :: Swept(d.requests[id], now).value)
  }

  // ----- runs ---------------------------------------------------------------

  datatype Event =
    | Inbound(id: Id, email: RawEmail, model: ModelReply, send: SendReply, clock: TurnClock)
    | Approval(id: Id, approver: string, send: SendReply, at: int)
    | AskPlaces(id: Id, places: seq<FieldName>, toAddress: string, inReplyTo: string)
    | AskShipDate(id: Id, toAddress: string, inReplyTo: string)
    | Deadline(now: int)
    | Downstream(id: Id, target: RequestState)

  /** States the rest of the system moves a request into: the rate search, the quotation gate, the
      client's decision, and a person settling a manual review. */
  const DOWNSTREAM: set<RequestState> :=
    {RateSelected, PendingApproval, QuotationSent, NoEligibleRate, RequestState.Accepted, Declined, ClosedNoRates,
     MakerRejected, Failed, ManualReview, Resolved}

  ghost function Step(d: Desk, maxRounds: int, e: Event): Desk {
    match e
    case Inbound(id, email, model, send, clock) => Handle(d, maxRounds, id, email, model, send, clock).0
    case Approval(id, approver, send, at) => Approve(d, id, approver, send, at).0
    case AskPlaces(id, places, to, ref) => AskAgain(d, maxRounds, id, PlaceQuestions(places), to, ref).0
    case AskShipDate(id, to, ref) => AskAgain(d, maxRounds, id, DATE_QUESTION, to, ref).0
    case Deadline(now) => Sweep(d, now)
    case Downstream(id, target) =>
      if id in d.requests && target in DOWNSTREAM && CanTransition(d.requests[id].state, target)
      then Save(d, id, d.requests[id].(state := target)) else d
  }

  /** Any interleaving of the operations by one workflow instance, from the requests it finds in its store. */
  ghost function Run(start: map<Id, QuotationRequest>, maxRounds: int, events: seq<Event>): Desk {
    if events == [] then NewDesk(start)
    else Step(Run(start, maxRounds, events[..|events| - 1]), maxRounds, events[|events| - 1])
  }
}
