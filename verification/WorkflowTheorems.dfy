/** What every operation of the clarification workflow keeps, and what holds of every run. */
module WorkflowTheorems {
  import opened Prelude
  import opened Shipment
  import opened Validation
  import opened Clarification
  import opened States
  import opened Workflow
  import Calendar

  // ----- one request's share of the state -----------------------------------

  datatype Kind = ClarificationMail | ReminderMail | NoticeMail

  function KindOf(m: Mail): Kind {
    match m
    case Clarification(_, _, _, _) => ClarificationMail
    case Reminder(_, _, _) => ReminderMail
    case FailureNotice(_, _, _) => NoticeMail
  }

  /** How many mails of one kind a request has been sent. */
  ghost function Sent(outbox: seq<Mail>, id: Id, k: Kind): nat {
    if outbox == [] then 0
    else
      var m := outbox[|outbox| - 1];
      Sent(outbox[..|outbox| - 1], id, k) + if m.requestId == id && KindOf(m) == k then 1 else 0
  }

  /** The fields of the last clarification a request was sent. */
  ghost function LastAsked(outbox: seq<Mail>, id: Id): seq<FieldName> {
    if outbox == [] then []
    else
      var m := outbox[|outbox| - 1];
      if m.requestId == id && m.Clarification? then AskedFields(m.message.unresolved)
      else LastAsked(outbox[..|outbox| - 1], id)
  }

  lemma OneMoreMail(outbox: seq<Mail>, m: Mail, id: Id, k: Kind)
    ensures Sent(outbox + [m], id, k) == Sent(outbox, id, k) + if m.requestId == id && KindOf(m) == k then 1 else 0
    ensures LastAsked(outbox + [m], id)
            == if m.requestId == id && m.Clarification? then AskedFields(m.message.unresolved)
                else LastAsked(outbox, id)
  {
    assert (outbox + [m])[..|outbox|] == outbox;
  }

  datatype View = View(
    request: Option<QuotationRequest>, rounds: nat, draft: Option<Draft>,
    clarifications: nat, reminders: nat, notices: nat, lastAsked: seq<FieldName>)

  ghost function ViewOf(d: Desk, id: Id): View {
    View(Lookup(d.requests, id), RoundsOf(d.rounds, id), if id in d.pending then Some(d.pending[id]) else None,
         Sent(d.outbox, id, ClarificationMail), Sent(d.outbox, id, ReminderMail), Sent(d.outbox, id, NoticeMail),
         LastAsked(d.outbox, id))
  }

  /** Only `id`'s share of the state differs. */
  ghost predicate OnlyTouches(d: Desk, d': Desk, id: Id) {
    forall other: Id :: other != id ==> ViewOf(d', other) == ViewOf(d, other)
  }

  /** What each effect does to the request it names; it does nothing to any other. */
  lemma EffectOfSave(d: Desk, id: Id, q: QuotationRequest)
    ensures ViewOf(Save(d, id, q), id) == ViewOf(d, id).(request := Some(q))
    ensures OnlyTouches(d, Save(d, id, q), id)
  {
  }

  lemma EffectOfHold(d: Desk, id: Id, draft: Draft)
    ensures ViewOf(Hold(d, id, draft), id) == ViewOf(d, id).(draft := Some(draft), rounds := ViewOf(d, id).rounds + 1)
    ensures OnlyTouches(d, Hold(d, id, draft), id)
  {
  }

  lemma EffectOfRelease(d: Desk, id: Id)
    ensures ViewOf(Release(d, id), id) == ViewOf(d, id).(draft := None)
    ensures OnlyTouches(d, Release(d, id), id)
  {
  }

  function Posted(v: View, m: Mail): View {
    match m
    case Clarification(_, _, _, message) =>
      v.(clarifications := v.clarifications + 1, lastAsked := AskedFields(message.unresolved))
    case Reminder(_, _, _) => v.(reminders := v.reminders + 1)
    case FailureNotice(_, _, _) => v.(notices := v.notices + 1)
  }

  lemma EffectOfPost(d: Desk, m: Mail)
    ensures ViewOf(Post(d, m), m.requestId) == Posted(ViewOf(d, m.requestId), m)
    ensures OnlyTouches(d, Post(d, m), m.requestId)
  {
    forall id: Id, k: Kind
      ensures Sent(Post(d, m).outbox, id, k)
              == Sent(d.outbox, id, k) + if m.requestId == id && KindOf(m) == k then 1 else 0
      ensures LastAsked(Post(d, m).outbox, id)
              == if m.requestId == id && m.Clarification? then AskedFields(m.message.unresolved)
                  else LastAsked(d.outbox, id)
    {
      OneMoreMail(d.outbox, m, id, k);
    }
  }

  // ----- the invariant ------------------------------------------------------

  /** The budget that is really enforced: a first message is always answered with one question. */
  function Budget(maxRounds: int): nat {
    if maxRounds < 1 then 1 else maxRounds
  }

  predicate HandedOver(s: RequestState) {
    s.ManualReview? || s.Resolved?
  }

  /** States a request can only reach through VALIDATED, other than a hand-over. */
  predicate PastValidation(s: RequestState) {
    s in {Validated, RateSelected, PendingApproval, QuotationSent, NoEligibleRate, RequestState.Accepted, Declined,
          ClosedNoRates, MakerRejected, Failed}
  }

  /** Text is never blank and numbers are positive. */
  ghost predicate Tidy(r: Fields) {
    forall f :: f in r ==>
      && (r[f].Text? ==> exists c :: c in r[f].text && !IsSpace(c))
      && (r[f].Number? ==> r[f].number > 0.0)
      && (r[f].Count? ==> r[f].count > 0)
  }

  /** What is true of a stored request, whichever process stored it. */
  ghost predicate Sane(q: QuotationRequest) {
    && !q.state.Received? && !q.state.Extracted?
    && (q.failureNoticeAt.Some? ==> HandedOver(q.state))
    && (q.followupAt.Some? ==> (q.state.ClarificationSent? && q.askedAbout == []) || HandedOver(q.state))
    && Tidy(q.record)
    && (PastValidation(q.state) ==> Validate(q.record, None) == [])
  }

  ghost predicate SaneStore(requests: map<Id, QuotationRequest>) {
    forall id :: id in requests ==> Sane(requests[id])
  }

  /** A sane request, and a draft only for one at NEEDS_INFO. */
  ghost predicate Fit(v: View) {
    match v.request
    case None => v.draft.None?
    case Some(q) => Sane(q) && (v.draft.Some? ==> q.state.NeedsInfo?)
  }

  ghost predicate AllFit(d: Desk) {
    forall id: Id :: Fit(ViewOf(d, id))
  }

  predicate Unreminded(q: QuotationRequest) {
    q.state.ClarificationSent? && q.followupAt.None?
  }

  /** A question asked before this process started can still be reminded of once. */
  function Credit(start: Option<QuotationRequest>): nat {
    if start.Some? && Unreminded(start.value) then 1 else 0
  }

  /** What one process has spent on a request it found as `start`. */
  ghost predicate Counted(v: View, maxRounds: int, start: Option<QuotationRequest>) {
    match v.request
    case None => v.rounds == 0 && v.clarifications == 0 && v.reminders == 0 && v.notices == 0 && start.None?
    case Some(q) =>
      && v.rounds == v.clarifications + (if v.draft.Some? then 1 else 0)
      && v.rounds <= Budget(maxRounds)
      && v.reminders + (if Unreminded(q) then 1 else 0) <= v.clarifications + Credit(start)
      && v.notices <= (if q.failureNoticeAt.Some? then 1 else 0)
  }

  /** The fields last asked about: by this process, or as the store had them. */
  ghost function Asked(v: View, start: Option<QuotationRequest>): seq<FieldName> {
    if v.clarifications == 0 && start.Some? then start.value.askedAbout else v.lastAsked
  }

  /** A waiting request shows the model what was last asked, and one at NEEDS_INFO without a draft was found so. */
  ghost predicate Remembered(v: View, start: Option<QuotationRequest>) {
    v.request.Some? ==>
      && (Unreminded(v.request.value) ==> v.request.value.askedAbout == Asked(v, start))
      && (v.request.value.state.NeedsInfo? && v.draft.None? ==> start.Some? && start.value.state.NeedsInfo?)
  }

  ghost predicate Ok(v: View, maxRounds: int, start: Option<QuotationRequest>) {
    Fit(v) && Counted(v, maxRounds, start) && Remembered(v, start)
  }

  ghost predicate AllOk(d: Desk, maxRounds: int, start: map<Id, QuotationRequest>) {
    forall id: Id :: Ok(ViewOf(d, id), maxRounds, Lookup(start, id))
  }

  // ----- records stay tidy --------------------------------------------------

  lemma IncomingIsTidy(x: Extraction)
    ensures Tidy(Normalize(ToExtractedFields(x)))
  {
    var stated := ToExtractedFields(x);
    var r := Normalize(stated);
    forall f | f in r
      ensures r[f].Text? ==> exists c :: c in r[f].text && !IsSpace(c)
      ensures (r[f].Number? ==> r[f].number > 0.0) && (r[f].Count? ==> r[f].count > 0)
    {
      assert Fits(f, stated[f]);
      if stated[f].Text? {
        CleanIsNeverBlank(stated[f].text);
      }
      if StatusOf(x, f).Stated? {
        assert f in x && Possible(f, x[f].value);
      }
    }
  }

  lemma MergeStaysTidy(existing: Fields, x: Extraction)
    requires Tidy(existing)
    ensures Tidy(Merge(existing, ToExtractedFields(x)).record)
  {
    IncomingIsTidy(x);
    MergeNeverReplaces(existing, ToExtractedFields(x));
  }

  /** In a tidy record, a field is missing only by being absent, and only the shipment date can be
      out of range. */
  lemma GapsOfATidyRecord(r: Fields, f: FieldName, today: Option<Calendar.Day>)
    requires Tidy(r)
    ensures BlankText(r, f) <==> f !in r
    ensures OutOfRange(r, f, today) ==> f == ShipDate
  {
  }

  // ----- each operation keeps the invariant ---------------------------------

  /** No step of a turn is refused by the table, and these are the ends it can come to. */
  lemma VerdictIsNeverRefused(state: RequestState, futile: bool, overBudget: bool, analysis: Analysis)
    requires state == Received || state == ClarificationSent
    ensures var v := Verdict(state, futile, overBudget, analysis);
            && v.Returned?
            && (v.value == NeedsInfo <==> Drafts(futile, overBudget, analysis))
            && (v.value == Validated <==> !futile && !analysis.IsStuck() && !analysis.NeedsClarification())
            && (v.value == ManualReview <==> v.value != NeedsInfo && v.value != Validated)
            && Path(state, v.value, 2)
  {
    assert CanTransition(state, Extracted) && CanTransition(state, ManualReview);
    assert CanTransition(Extracted, Validated) && CanTransition(Extracted, NeedsInfo)
           && CanTransition(Extracted, ManualReview);
    var v := Verdict(state, futile, overBudget, analysis);
    assert Path(v.value, v.value, 0);
    assert Path(v.value, v.value, 1);
    assert futile || Path(Extracted, v.value, 1);
  }

  /** A turn has nothing open exactly when the merge contradicted nothing and the merged record
      passes every rule on the day it is validated; it then passes the others for good. */
  lemma ATurnWithNothingOpen(record: Fields, x: Extraction, today: Calendar.Day)
    ensures var merge := Merge(record, ToExtractedFields(x));
            var analysis := Identify(Validate(merge.record, Some(today)), x, merge.conflicts);
            && (!analysis.NeedsClarification() && !analysis.IsStuck()
                <==> merge.conflicts == [] && Validate(merge.record, Some(today)) == [])
            && (Validate(merge.record, Some(today)) == [] ==> Validate(merge.record, None) == [])
  {
    var merge := Merge(record, ToExtractedFields(x));
    var issues := Validate(merge.record, Some(today));
    EveryFindingBlocks(merge.record, Some(today));
    if !Identify(issues, x, merge.conflicts).NeedsClarification() && !Identify(issues, x, merge.conflicts).IsStuck() {
      NothingOpenMeansValid(issues, x, merge.conflicts);
    }
    if issues == [] {
      ValidOnADayIsValidWithoutOne(merge.record, today);
    }
  }

  lemma EveryFindingBlocks(r: Fields, today: Option<Calendar.Day>)
    ensures forall i :: i in Validate(r, today) ==> Blocking(i)
  {
    forall i | i in Validate(r, today) ensures Blocking(i) {
      FindingsAreTheGaps(r, today, i.field);
      assert Finds(r, today, i.field, i.severity);
    }
  }

  // ----- one step, one effect -----------------------------------------------

  /** Everything an operation on one request can do to the state. */
  datatype Effect =
    | Unchanged
    | Stored(saved: QuotationRequest)
    | Mailed(saved: QuotationRequest, mail: Mail)
    | Held(saved: QuotationRequest, draft: Draft)
    | Released(saved: QuotationRequest, mail: Mail)

  function Apply(d: Desk, id: Id, eff: Effect): Desk {
    match eff
    case Unchanged => d
    case Stored(saved) => Save(d, id, saved)
    case Mailed(saved, mail) => Save(Post(d, mail), id, saved)
    case Held(saved, draft) => Save(Hold(d, id, draft), id, saved)
    case Released(saved, mail) => Save(Release(Post(d, mail), id), id, saved)
  }

  ghost function ApplyToView(v: View, eff: Effect): View {
    match eff
    case Unchanged => v
    case Stored(saved) => v.(request := Some(saved))
    case Mailed(saved, mail) => Posted(v, mail).(request := Some(saved))
    case Held(saved, draft) => v.(request := Some(saved), draft := Some(draft), rounds := v.rounds + 1)
    case Released(saved, mail) => Posted(v, mail).(request := Some(saved), draft := None)
  }

  lemma EffectOnViews(d: Desk, id: Id, eff: Effect)
    requires eff.Mailed? || eff.Released? ==> eff.mail.requestId == id
    ensures ViewOf(Apply(d, id, eff), id) == ApplyToView(ViewOf(d, id), eff)
    ensures OnlyTouches(d, Apply(d, id, eff), id)
  {
    match eff
    case Unchanged =>
    case Stored(saved) => EffectOfSave(d, id, saved);
    case Mailed(saved, mail) =>
      EffectOfPost(d, mail);
      EffectOfSave(Post(d, mail), id, saved);
    case Held(saved, draft) =>
      EffectOfHold(d, id, draft);
      EffectOfSave(Hold(d, id, draft), id, saved);
    case Released(saved, mail) =>
      EffectOfPost(d, mail);
      EffectOfRelease(Post(d, mail), id);
      EffectOfSave(Release(Post(d, mail), id), id, saved);
  }

  function StateOf(q: Option<QuotationRequest>): RequestState {
    if q.Some? then q.value.state else Received
  }

  function RecordOf(q: Option<QuotationRequest>): Fields {
    if q.Some? then q.value.record else map[]
  }

  /** What the message states once its ship date is resolved, merged into the record. */
  ghost function MergeBy(q: Option<QuotationRequest>, x: Extraction, clock: TurnClock): MergeResult {
    Merge(RecordOf(q), ToExtractedFields(ResolveShipDate(x, clock.resolve.today)))
  }

  ghost function AnalysisBy(q: Option<QuotationRequest>, x: Extraction, clock: TurnClock): Analysis {
    var merge := MergeBy(q, x, clock);
    Identify(Validate(merge.record, Some(clock.validate.today)), ResolveShipDate(x, clock.resolve.today),
        merge.conflicts)
  }

  /** A message that could not be read: one notice, and a hand-over. */
  ghost predicate NoticeMay(q: Option<QuotationRequest>, e: Event, eff: Effect)
    requires e.Inbound?
  {
    && e.model.ContractBroken? && eff.Mailed?
    && eff.mail == FailureNotice(e.id, e.email.fromAddress, e.email.messageId)
    && eff.saved == QuotationRequest(ManualReview, RecordOf(q), e.email.fromAddress, Some(e.clock.judge.at), None, [])
  }

  /** A reply that answered nothing: one reminder. */
  ghost predicate ReminderMay(q: Option<QuotationRequest>, e: Event, eff: Effect)
    requires e.Inbound?
  {
    && e.model.Understood? && q.Some? && q.value.followupAt.None? && eff.Mailed?
    && eff.mail == Reminder(e.id, e.email.fromAddress, e.email.messageId)
    && eff.saved == QuotationRequest(ClarificationSent, MergeBy(q, e.model.x, e.clock).record, e.email.fromAddress,
                                     None, Some(e.clock.judge.at), [])
  }

  /** A message that was merged and judged: VALIDATED, handed over, or a question drafted. */
  ghost predicate VerdictMay(q: Option<QuotationRequest>, rounds: nat, maxRounds: int, e: Event, eff: Effect)
    requires e.Inbound?
  {
    e.model.Understood? &&
    var merge := MergeBy(q, e.model.x, e.clock);
    match eff
    case Stored(saved) =>
      && saved == QuotationRequest(saved.state, merge.record, e.email.fromAddress, None, None, [])
      && (saved.state == ManualReview ||
          (saved.state == Validated && merge.conflicts == []
              && Validate(saved.record, Some(e.clock.validate.today)) == []))
    case Held(saved, draft) =>
      var asked := AnalysisBy(q, e.model.x, e.clock).unresolved;
      && asked != []
      && draft == Draft(Composed(asked).value, e.email.fromAddress, e.email.messageId)
      && saved == QuotationRequest(NeedsInfo, Cleared(merge.record, asked), e.email.fromAddress, None, None, [])
      && (q.Some? ==> rounds < maxRounds)
    case _ => false
  }

  /** The effects a client's message can have. Only a request that is new or waiting for an answer can
      be affected at all. */
  ghost predicate MessageMay(q: Option<QuotationRequest>, rounds: nat, maxRounds: int, e: Event, eff: Effect)
    requires e.Inbound?
  {
    eff.Unchanged? ||
    ((q.None? || q.value.state == ClarificationSent) &&
     (NoticeMay(q, e, eff) || ReminderMay(q, e, eff) || VerdictMay(q, rounds, maxRounds, e, eff)))
  }

  /** The effects of every other operation on one request. */
  ghost predicate May(v: View, maxRounds: int, e: Event, eff: Effect) {
    match e
    case Inbound(_, _, _, _, _) => MessageMay(v.request, v.rounds, maxRounds, e, eff)
    case Approval(id, _, send, _) =>
      eff.Unchanged? ||
      (&& StateOf(v.request) == NeedsInfo && v.draft.Some? && send.Delivered? && v.request.Some?
       && var held := v.draft.value;
          var asked := AskedFields(held.message.unresolved);
          eff == Released(v.request.value.(state := ClarificationSent, askedAbout := asked),
                          Clarification(id, held.toAddress, held.inReplyTo, held.message)))
    case AskPlaces(_, places, to, ref) => QuestionMay(v, maxRounds, PlaceQuestions(places), to, ref, eff)
    case AskShipDate(_, to, ref) => QuestionMay(v, maxRounds, DATE_QUESTION, to, ref, eff)
    case Deadline(_) => false
    case Downstream(_, target) =>
      eff.Unchanged? ||
      (&& v.request.Some? && target in DOWNSTREAM && CanTransition(StateOf(v.request), target)
       && eff == Stored(v.request.value.(state := target)))
  }

  ghost predicate QuestionMay(v: View, maxRounds: int, us: seq<UnresolvedField>, to: string, ref: string, eff: Effect) {
    eff.Unchanged? ||
    (v.request.Some? && us != [] && v.draft.None? &&
      match eff
      case Stored(saved) =>
        v.rounds >= maxRounds && (StateOf(v.request) == ManualReview || CanTransition(StateOf(v.request), ManualReview))
        && saved == v.request.value.(state := ManualReview)
      case Held(saved, draft) =>
        v.rounds < maxRounds && (StateOf(v.request) == Validated || StateOf(v.request) == NeedsInfo)
        && draft == Draft(Composed(us).value, to, ref)
        && saved == v.request.value.(state := NeedsInfo, record := Reopened(RecordOf(v.request), us))
      case _ => false)
  }

  /** A message that was understood by a request ready to take it. */
  lemma EffectOfTurn(
    d: Desk, maxRounds: int, e: Event, q: Option<QuotationRequest>, x: Extraction, merge: MergeResult, overBudget: bool)
      returns (eff: Effect)
    requires e.Inbound? && e.model.Understood? && q == Lookup(d.requests, e.id)
            && (q.Some? ==> q.value.state == ClarificationSent)
    requires x == ResolveShipDate(e.model.x, e.clock.resolve.today) && merge == MergeBy(q, e.model.x, e.clock)
    requires overBudget <==> q.Some? && RoundsOf(d.rounds, e.id) >= maxRounds
    ensures var s := Turn(d, e.id, e.email, x, StateOf(q), RecordOf(q), q, overBudget, e.send, e.clock);
            && s.0 == Apply(d, e.id, eff)
            && (s.1.Raised? ==> eff.Unchanged? && s.1.error.OutboundUnavailable?)
            && (s.1.Returned? && s.1.value.state == Validated <==> eff.Stored? && eff.saved.state == Validated)
    ensures eff.Unchanged? || ReminderMay(q, e, eff) || VerdictMay(q, RoundsOf(d.rounds, e.id), maxRounds, e, eff)
    ensures eff.Stored? && eff.saved.state == Validated <==>
              merge.conflicts == [] && Validate(merge.record, Some(e.clock.validate.today)) == []
  {
    if q.None? && !AnyStated(x) && !AnyInvalid(x) {
      AValidRecordWasStated(RecordOf(q), x, e.clock.validate.today);
      eff := Unchanged;
    } else {
      ValidMeansNothingMissing(merge.record, e.clock);
      eff := EffectOfJudging(d, maxRounds, e, q, x, merge, MissingOf(Validate(merge.record, Some(e.clock.judge.today))),
          overBudget);
    }
  }

  /** The same once the message is known to be an enquiry or a reply, and what is missing is known. */
  lemma EffectOfJudging(
    d: Desk, maxRounds: int, e: Event, q: Option<QuotationRequest>, x: Extraction, merge: MergeResult,
    missing: seq<FieldName>, overBudget: bool) returns (eff: Effect)
    requires e.Inbound? && e.model.Understood? && q == Lookup(d.requests, e.id)
            && (q.Some? ==> q.value.state == ClarificationSent)
    requires x == ResolveShipDate(e.model.x, e.clock.resolve.today) && merge == MergeBy(q, e.model.x, e.clock)
    requires overBudget <==> q.Some? && RoundsOf(d.rounds, e.id) >= maxRounds
    requires missing != [] ==> Validate(merge.record, Some(e.clock.validate.today)) != []
    ensures var s := Judged(d, e.id, e.email, x, merge, missing, StateOf(q), q, overBudget, e.send, e.clock);
            && s.0 == Apply(d, e.id, eff)
            && (s.1.Raised? ==> eff.Unchanged? && s.1.error.OutboundUnavailable?)
            && (s.1.Returned? && s.1.value.state == Validated <==> eff.Stored? && eff.saved.state == Validated)
    ensures eff.Unchanged? || ReminderMay(q, e, eff) || VerdictMay(q, RoundsOf(d.rounds, e.id), maxRounds, e, eff)
    ensures eff.Stored? && eff.saved.state == Validated <==>
              merge.conflicts == [] && Validate(merge.record, Some(e.clock.validate.today)) == []
  {
    var unusable := q.Some? && AnyUnusable(missing, x);
    var s := Judged(d, e.id, e.email, x, merge, missing, StateOf(q), q, overBudget, e.send, e.clock);
    if q.Some? && !unusable && NonAnswer(missing, merge, x) {
      assert s == AnswersNothing(d, e.id, e.email, x, merge, ClarificationSent, q, overBudget, e.send, e.clock);
      eff := EffectOfNonAnswer(d, maxRounds, e, q, x, merge, overBudget);
    } else {
      assert s == Settle(d, e.id, e.email, x, merge, StateOf(q), unusable, overBudget, e.clock);
      eff := EffectOfSettle(d, maxRounds, e, q, x, merge, unusable, overBudget);
    }
  }

  /** A reply that answered nothing, to a record that is not yet valid: reminded of once, left alone while the
      window is open, and handed over after it. */
  lemma EffectOfNonAnswer(
    d: Desk, maxRounds: int, e: Event, q: Option<QuotationRequest>, x: Extraction, merge: MergeResult, overBudget: bool)
    returns (eff: Effect)
    requires e.Inbound? && e.model.Understood? && q == Lookup(d.requests, e.id) && q.Some?
            && q.value.state == ClarificationSent
    requires x == ResolveShipDate(e.model.x, e.clock.resolve.today) && merge == MergeBy(q, e.model.x, e.clock)
    requires overBudget <==> RoundsOf(d.rounds, e.id) >= maxRounds
    requires Validate(merge.record, Some(e.clock.validate.today)) != []
    ensures var s := AnswersNothing(d, e.id, e.email, x, merge, ClarificationSent, q, overBudget, e.send, e.clock);
            && s.0 == Apply(d, e.id, eff)
            && (s.1.Raised? ==> eff.Unchanged? && s.1.error.OutboundUnavailable?)
            && (s.1.Returned? ==> s.1.value.state != Validated)
    ensures eff.Unchanged? || ReminderMay(q, e, eff) || VerdictMay(q, RoundsOf(d.rounds, e.id), maxRounds, e, eff)
    ensures var since := q.value.followupAt;
            && (since.None? ==> if e.send.Delivered? then ReminderMay(q, e, eff) else eff.Unchanged?)
            && (since.Some? ==> if e.clock.judge.at - since.value < FOLLOWUP_WINDOW then eff.Unchanged?
                                else eff.Stored? && eff.saved.state == ManualReview)
  {
    var since := q.value.followupAt;
    if since.Some? && e.clock.judge.at - since.value >= FOLLOWUP_WINDOW {
      eff := EffectOfSettle(d, maxRounds, e, q, x, merge, true, overBudget);
    } else if since.None? && e.send.Delivered? {
      eff := Mailed(QuotationRequest(ClarificationSent, merge.record, e.email.fromAddress, None, Some(e.clock.judge.at),
          []),
                    Reminder(e.id, e.email.fromAddress, e.email.messageId));
    } else {
      eff := Unchanged;
    }
  }

  /** A merged message: judged, decided and stored. */
  lemma EffectOfSettle(
    d: Desk, maxRounds: int, e: Event, q: Option<QuotationRequest>, x: Extraction, merge: MergeResult, futile: bool,
    overBudget: bool) returns (eff: Effect)
    requires e.Inbound? && e.model.Understood? && (q.Some? ==> q.value.state == ClarificationSent)
    requires x == ResolveShipDate(e.model.x, e.clock.resolve.today) && merge == MergeBy(q, e.model.x, e.clock)
    requires overBudget <==> q.Some? && RoundsOf(d.rounds, e.id) >= maxRounds
    requires futile ==> Validate(merge.record, Some(e.clock.validate.today)) != []
    ensures var s := Settle(d, e.id, e.email, x, merge, StateOf(q), futile, overBudget, e.clock);
            && s.0 == Apply(d, e.id, eff) && s.1.Returned?
            && (eff.Stored? || eff.Held?) && s.1.value.state == eff.saved.state
            && (futile ==> eff.Stored? && eff.saved.state == ManualReview)
    ensures VerdictMay(q, RoundsOf(d.rounds, e.id), maxRounds, e, eff)
    ensures eff.Stored? && eff.saved.state == Validated <==>
              merge.conflicts == [] && Validate(merge.record, Some(e.clock.validate.today)) == []
  {
    var analysis := Identify(Validate(merge.record, Some(e.clock.validate.today)), x, merge.conflicts);
    VerdictIsNeverRefused(StateOf(q), futile, overBudget, analysis);
    ATurnWithNothingOpen(RecordOf(q), x, e.clock.validate.today);
    var next := Verdict(StateOf(q), futile, overBudget, analysis).value;
    if Drafts(futile, overBudget, analysis) {
      var message := Composed(analysis.unresolved).value;
      eff := Held(QuotationRequest(next, Cleared(merge.record, message.unresolved), e.email.fromAddress, None, None,
          []),
                  Draft(message, e.email.fromAddress, e.email.messageId));
    } else {
      eff := Stored(QuotationRequest(next, merge.record, e.email.fromAddress, None, None, []));
    }
  }

  /** A record valid on one day lacks nothing on any. */
  lemma ValidMeansNothingMissing(r: Fields, clock: TurnClock)
    ensures Validate(r, Some(clock.validate.today)) == [] ==> MissingOf(Validate(r, Some(clock.judge.today))) == []
  {
    MissingFieldsAreTheLacks(r, Some(clock.judge.today));
    ValidMeansNoGaps(r, Some(clock.validate.today));
    if Validate(r, Some(clock.validate.today)) == [] {
      NoMembers(MissingOf(Validate(r, Some(clock.judge.today))));
    }
  }

  /** A valid record cannot come out of a first message that states nothing. */
  lemma AValidRecordWasStated(record: Fields, x: Extraction, today: Calendar.Day)
    ensures record == map[] && Validate(Merge(record, ToExtractedFields(x)).record, Some(today)) == [] ==> AnyStated(x)
  {
    var merged := Merge(record, ToExtractedFields(x)).record;
    if record == map[] && Validate(merged, Some(today)) == [] {
      AValidRecordHasADate(merged, today);
      AFirstDateWasStated(x);
    }
  }

  lemma AValidRecordHasADate(r: Fields, today: Calendar.Day)
    requires Validate(r, Some(today)) == []
    ensures ShipDate in r
  {
    ValidMeansNoGaps(r, Some(today));
    assert !Lacks(r, ShipDate);
  }

  lemma AFirstDateWasStated(x: Extraction)
    requires ShipDate in Merge(map[], ToExtractedFields(x)).record
    ensures AnyStated(x)
  {
    assert ShipDate in ToExtractedFields(x);
    assert ShipDate in x && x[ShipDate].Stated?;
  }

  /** A client message, for any request that is stored sane. */
  lemma EffectOfMessage(d: Desk, maxRounds: int, e: Event) returns (eff: Effect)
    requires e.Inbound? && (e.id in d.requests ==> Sane(d.requests[e.id]))
    ensures var s := Handle(d, maxRounds, e.id, e.email, e.model, e.send, e.clock);
            && s.0 == Apply(d, e.id, eff)
            && (s.1.Raised? ==> eff.Unchanged?)
            && (s.1.Raised? && s.1.error.IllegalTransition?
               <==> e.id in d.requests && d.requests[e.id].state == NeedsInfo)
            && (e.model.Understood? && (e.id in d.requests ==> d.requests[e.id].state == ClarificationSent) ==>
                  (s.1.Returned? && s.1.value.state == Validated <==> eff.Stored? && eff.saved.state == Validated))
    ensures MessageMay(Lookup(d.requests, e.id), RoundsOf(d.rounds, e.id), maxRounds, e, eff)
    ensures e.model.Understood? && (e.id in d.requests ==> d.requests[e.id].state == ClarificationSent) ==>
              var merge := MergeBy(Lookup(d.requests, e.id), e.model.x, e.clock);
              (eff.Stored? && eff.saved.state == Validated <==>
                merge.conflicts == [] && Validate(merge.record, Some(e.clock.validate.today)) == [])
  {
    var q := Lookup(d.requests, e.id);
    ReadingTheTable(StateOf(q), Extracted);
    if q.Some? && q.value.state != ClarificationSent {
      eff := Unchanged;
    } else if e.model.Understood? {
      var overBudget := q.Some? && RoundsOf(d.rounds, e.id) >= maxRounds;
      eff := EffectOfTurn(d, maxRounds, e, q, ResolveShipDate(e.model.x, e.clock.resolve.today),
          MergeBy(q, e.model.x, e.clock), overBudget);
    } else if e.model.ContractBroken? {
      eff := EffectOfUnread(d, e, q);
    } else {
      eff := Unchanged;
    }
  }

  /** A message that could not be read, for a request ready to take one. */
  lemma EffectOfUnread(d: Desk, e: Event, q: Option<QuotationRequest>) returns (eff: Effect)
    requires e.Inbound? && e.model.ContractBroken? && q == Lookup(d.requests, e.id)
    requires q.Some? ==> q.value.state == ClarificationSent && q.value.failureNoticeAt.None?
    ensures var s := ExtractionFailed(d, e.id, e.email, StateOf(q), RecordOf(q), q, e.send, e.clock);
            && s.0 == Apply(d, e.id, eff) && (s.1.Raised? ==> eff.Unchanged? && s.1.error.OutboundUnavailable?)
    ensures if e.send.Delivered? then NoticeMay(q, e, eff) else eff.Unchanged?
  {
    assert CanTransition(Received, ManualReview) && CanTransition(ClarificationSent, ManualReview);
    if e.send.Delivered? {
      eff := Mailed(QuotationRequest(ManualReview, RecordOf(q), e.email.fromAddress, Some(e.clock.judge.at), None, []),
                    FailureNotice(e.id, e.email.fromAddress, e.email.messageId));
    } else {
      eff := Unchanged;
    }
  }

  lemma EffectOfApproval(d: Desk, maxRounds: int, e: Event) returns (eff: Effect)
    requires e.Approval? && Fit(ViewOf(d, e.id))
    ensures Step(d, maxRounds, e) == Apply(d, e.id, eff) && May(ViewOf(d, e.id), maxRounds, e, eff)
    ensures var r := Approve(d, e.id, e.approver, e.send, e.at).1;
            && (r.Raised? ==> eff.Unchanged? && (r.error == NoDraftHeld || r.error.SendFailed?))
            && (r.Raised? && r.error == NoDraftHeld <==> e.id !in d.pending)
            && (r.Returned? ==> eff.Released? && r.value == Approved(e.approver, e.at))
  {
    if e.id in d.pending && e.send.Delivered? {
      var held, stored := d.pending[e.id], d.requests[e.id];
      eff := Released(stored.(state := ClarificationSent, askedAbout := AskedFields(held.message.unresolved)),
                      Clarification(e.id, held.toAddress, held.inReplyTo, held.message));
    } else {
      eff := Unchanged;
    }
  }

  /** Only a validated request can be reopened, or one at NEEDS_INFO that has lost its draft. */
  lemma WhoCanBeReopened(v: View)
    requires Fit(v) && v.request.Some?
    ensures var s := StateOf(v.request);
            Advance(s, NeedsInfo)
            == if s == Validated || s == NeedsInfo then Returned(NeedsInfo) else Raised(IllegalTransition(s, NeedsInfo))
  {
  }

  lemma EffectOfAsking(
    d: Desk, maxRounds: int, id: Id, us: seq<UnresolvedField>, to: string, ref: string) returns (eff: Effect)
    requires Fit(ViewOf(d, id)) && id in d.requests && id !in d.pending && us != []
            && RoundsOf(d.rounds, id) < maxRounds
    ensures var s := AskAgain(d, maxRounds, id, us, to, ref);
            && s.0 == Apply(d, id, eff) && (s.1.Raised? ==> eff.Unchanged?)
    ensures QuestionMay(ViewOf(d, id), maxRounds, us, to, ref, eff)
  {
    WhoCanBeReopened(ViewOf(d, id));
    var stored := d.requests[id];
    if Advance(stored.state, NeedsInfo).Returned? {
      eff := Held(stored.(state := NeedsInfo, record := Reopened(stored.record, us)),
          Draft(Composed(us).value, to, ref));
    } else {
      eff := Unchanged;
    }
  }

  lemma EffectOfQuestion(
    d: Desk, maxRounds: int, id: Id, us: seq<UnresolvedField>, to: string, ref: string) returns (eff: Effect)
    requires Fit(ViewOf(d, id))
    ensures var s := AskAgain(d, maxRounds, id, us, to, ref);
            && s.0 == Apply(d, id, eff) && (s.1.Raised? ==> eff.Unchanged?)
    ensures QuestionMay(ViewOf(d, id), maxRounds, us, to, ref, eff)
  {
    if id in d.pending || us == [] || id !in d.requests {
      eff := Unchanged;
    } else if RoundsOf(d.rounds, id) < maxRounds {
      eff := EffectOfAsking(d, maxRounds, id, us, to, ref);
    } else if Advance(d.requests[id].state, ManualReview).Returned? {
      eff := Stored(d.requests[id].(state := ManualReview));
    } else {
      eff := Unchanged;
    }
  }

  /** Every operation on one request does one of the things allowed, and nothing else. */
  lemma EffectOfStep(d: Desk, maxRounds: int, e: Event) returns (eff: Effect)
    requires !e.Deadline? && Fit(ViewOf(d, e.id))
    ensures Step(d, maxRounds, e) == Apply(d, e.id, eff) && May(ViewOf(d, e.id), maxRounds, e, eff)
  {
    match e {
      case Inbound(_, _, _, _, _) => eff := EffectOfMessage(d, maxRounds, e);
      case Approval(_, _, _, _) => eff := EffectOfApproval(d, maxRounds, e);
      case AskPlaces(id, places, to, ref) => eff := EffectOfQuestion(d, maxRounds, id, PlaceQuestions(places), to, ref);
      case AskShipDate(id, to, ref) => eff := EffectOfQuestion(d, maxRounds, id, DATE_QUESTION, to, ref);
      case Downstream(id, target) =>
        eff := if id in d.requests && target in DOWNSTREAM && CanTransition(d.requests[id].state, target)
        then Stored(d.requests[id].(state := target)) else Unchanged;
    }
  }

  // ----- what is stored stays sane --------------------------------------------

  lemma AVerdictIsSane(q: Option<QuotationRequest>, rounds: nat, maxRounds: int, e: Event, eff: Effect)
    requires e.Inbound? && VerdictMay(q, rounds, maxRounds, e, eff) && Tidy(RecordOf(q))
    ensures Sane(eff.saved) && (eff.Held? <==> eff.saved.state == NeedsInfo)
  {
    MergeStaysTidy(RecordOf(q), ResolveShipDate(e.model.x, e.clock.resolve.today));
    match eff {
      case Stored(saved) =>
        if saved.state == Validated {
          ValidOnADayIsValidWithoutOne(saved.record, e.clock.validate.today);
        }
      case Held(_, _) =>
        ClearedStaysTidy(MergeBy(q, e.model.x, e.clock).record, AnalysisBy(q, e.model.x, e.clock).unresolved);
    }
  }

  lemma ClearedStaysTidy(r: Fields, us: seq<UnresolvedField>)
    requires Tidy(r)
    ensures Tidy(Cleared(r, us))
  {
  }

  lemma ANoticeIsSane(q: Option<QuotationRequest>, e: Event, eff: Effect)
    requires e.Inbound? && (NoticeMay(q, e, eff) || ReminderMay(q, e, eff)) && Tidy(RecordOf(q))
    ensures Sane(eff.saved)
  {
    if e.model.Understood? {
      MergeStaysTidy(RecordOf(q), ResolveShipDate(e.model.x, e.clock.resolve.today));
    }
  }

  lemma AMessageKeepsFit(v: View, maxRounds: int, e: Event, eff: Effect)
    requires e.Inbound? && Fit(v) && MessageMay(v.request, v.rounds, maxRounds, e, eff)
    ensures Fit(ApplyToView(v, eff))
  {
    if eff.Mailed? {
      ANoticeIsSane(v.request, e, eff);
    } else if !eff.Unchanged? {
      AVerdictIsSane(v.request, v.rounds, maxRounds, e, eff);
    }
  }

  lemma AQuestionKeepsFit(v: View, maxRounds: int, us: seq<UnresolvedField>, to: string, ref: string, eff: Effect)
    requires Fit(v) && QuestionMay(v, maxRounds, us, to, ref, eff)
    ensures Fit(ApplyToView(v, eff))
  {
  }

  lemma ADownstreamMoveKeepsFit(v: View, target: RequestState)
    requires Fit(v) && v.request.Some? && target in DOWNSTREAM && CanTransition(StateOf(v.request), target)
    ensures Fit(ApplyToView(v, Stored(v.request.value.(state := target))))
  {
  }

  lemma AllowedEffectsKeepFit(v: View, maxRounds: int, e: Event, eff: Effect)
    requires Fit(v) && May(v, maxRounds, e, eff)
    ensures Fit(ApplyToView(v, eff))
  {
    if !eff.Unchanged? {
      match e
      case Inbound(_, _, _, _, _) => AMessageKeepsFit(v, maxRounds, e, eff);
      case Approval(_, _, _, _) =>
      case AskPlaces(_, places, to, ref) => AQuestionKeepsFit(v, maxRounds, PlaceQuestions(places), to, ref, eff);
      case AskShipDate(_, to, ref) => AQuestionKeepsFit(v, maxRounds, DATE_QUESTION, to, ref, eff);
      case Downstream(_, target) => ADownstreamMoveKeepsFit(v, target);
    }
  }

  // ----- the counts are kept ----------------------------------------------------

  lemma AMessageKeepsCounts(v: View, maxRounds: int, start: Option<QuotationRequest>, e: Event, eff: Effect)
    requires e.Inbound? && Ok(v, maxRounds, start) && MessageMay(v.request, v.rounds, maxRounds, e, eff)
    ensures Counted(ApplyToView(v, eff), maxRounds, start) && Remembered(ApplyToView(v, eff), start)
  {
    if eff.Mailed? {
      MailKeepsCounts(v, maxRounds, start, e, eff);
    } else if !eff.Unchanged? {
      AVerdictKeepsCounts(v, maxRounds, start, e, eff);
    }
  }

  lemma MailKeepsCounts(v: View, maxRounds: int, start: Option<QuotationRequest>, e: Event, eff: Effect)
    requires e.Inbound? && Ok(v, maxRounds, start) && (NoticeMay(v.request, e, eff) || ReminderMay(v.request, e, eff))
    requires v.request.None? || v.request.value.state == ClarificationSent
    ensures Counted(ApplyToView(v, eff), maxRounds, start) && Remembered(ApplyToView(v, eff), start)
  {
  }

  lemma AVerdictKeepsCounts(v: View, maxRounds: int, start: Option<QuotationRequest>, e: Event, eff: Effect)
    requires e.Inbound? && Ok(v, maxRounds, start) && VerdictMay(v.request, v.rounds, maxRounds, e, eff)
    requires v.request.None? || v.request.value.state == ClarificationSent
    ensures Counted(ApplyToView(v, eff), maxRounds, start) && Remembered(ApplyToView(v, eff), start)
  {
  }

  lemma AReleaseKeepsCounts(v: View, maxRounds: int, start: Option<QuotationRequest>, eff: Effect)
    requires Ok(v, maxRounds, start) && StateOf(v.request) == NeedsInfo && v.draft.Some? && eff.Released?
    requires eff.mail.Clarification? && eff.mail.message == v.draft.value.message
    requires eff.saved == v.request.value.(state := ClarificationSent,
            askedAbout := AskedFields(v.draft.value.message.unresolved))
    ensures Counted(ApplyToView(v, eff), maxRounds, start) && Remembered(ApplyToView(v, eff), start)
  {
  }

  lemma AQuestionKeepsCounts(
    v: View, maxRounds: int, start: Option<QuotationRequest>, us: seq<UnresolvedField>, to: string, ref: string,
    eff: Effect)
    requires Ok(v, maxRounds, start) && QuestionMay(v, maxRounds, us, to, ref, eff)
    ensures Counted(ApplyToView(v, eff), maxRounds, start) && Remembered(ApplyToView(v, eff), start)
  {
  }

  lemma ADownstreamMoveKeepsCounts(v: View, maxRounds: int, start: Option<QuotationRequest>, target: RequestState)
    requires Ok(v, maxRounds, start) && v.request.Some? && target in DOWNSTREAM
            && CanTransition(StateOf(v.request), target)
    ensures var after := ApplyToView(v, Stored(v.request.value.(state := target)));
            Counted(after, maxRounds, start) && Remembered(after, start)
  {
  }

  lemma AllowedEffectsKeepOk(v: View, maxRounds: int, start: Option<QuotationRequest>, e: Event, eff: Effect)
    requires Ok(v, maxRounds, start) && May(v, maxRounds, e, eff)
    ensures Ok(ApplyToView(v, eff), maxRounds, start)
  {
    AllowedEffectsKeepFit(v, maxRounds, e, eff);
    if !eff.Unchanged? {
      match e
      case Inbound(_, _, _, _, _) => AMessageKeepsCounts(v, maxRounds, start, e, eff);
      case Approval(_, _, _, _) => AReleaseKeepsCounts(v, maxRounds, start, eff);
      case AskPlaces(_, places, to, ref) =>
          AQuestionKeepsCounts(v, maxRounds, start, PlaceQuestions(places), to, ref, eff);
      case AskShipDate(_, to, ref) => AQuestionKeepsCounts(v, maxRounds, start, DATE_QUESTION, to, ref, eff);
      case Downstream(_, target) => ADownstreamMoveKeepsCounts(v, maxRounds, start, target);
    }
  }

  // ----- over whole desks -------------------------------------------------------

  lemma SweepKeepsFit(d: Desk, now: int, id: Id)
    requires Fit(ViewOf(d, id))
    ensures Fit(ViewOf(Sweep(d, now), id))
  {
  }

  lemma SweepKeepsOk(d: Desk, maxRounds: int, start: Option<QuotationRequest>, now: int, id: Id)
    requires Ok(ViewOf(d, id), maxRounds, start)
    ensures Ok(ViewOf(Sweep(d, now), id), maxRounds, start)
  {
  }

  /** What is stored stays sane, whatever the model, the mail server and the clock do. */
  lemma StepKeepsFit(d: Desk, maxRounds: int, e: Event)
    requires AllFit(d)
    ensures AllFit(Step(d, maxRounds, e))
  {
    forall id: Id ensures Fit(ViewOf(Step(d, maxRounds, e), id)) {
      assert Fit(ViewOf(d, id));
      if e.Deadline? {
        SweepKeepsFit(d, e.now, id);
      } else {
        var eff := TheEffect(d, maxRounds, e);
        if id == e.id {
          AllowedEffectsKeepFit(ViewOf(d, id), maxRounds, e, eff);
        }
      }
    }
  }

  /** The effect of a step, and what it leaves alone. */
  lemma TheEffect(d: Desk, maxRounds: int, e: Event) returns (eff: Effect)
    requires AllFit(d) && !e.Deadline?
    ensures Step(d, maxRounds, e) == Apply(d, e.id, eff) && May(ViewOf(d, e.id), maxRounds, e, eff)
    ensures ViewOf(Step(d, maxRounds, e), e.id) == ApplyToView(ViewOf(d, e.id), eff)
    ensures OnlyTouches(d, Step(d, maxRounds, e), e.id)
  {
    assert Fit(ViewOf(d, e.id));
    eff := EffectOfStep(d, maxRounds, e);
    EffectOnViews(d, e.id, eff);
  }

  /** The whole invariant is kept by every operation. */
  lemma StepKeepsOk(d: Desk, maxRounds: int, start: map<Id, QuotationRequest>, e: Event)
    requires AllOk(d, maxRounds, start)
    ensures AllOk(Step(d, maxRounds, e), maxRounds, start)
  {
    AllOkIsAllFit(d, maxRounds, start);
    forall id: Id ensures Ok(ViewOf(Step(d, maxRounds, e), id), maxRounds, Lookup(start, id)) {
      assert Ok(ViewOf(d, id), maxRounds, Lookup(start, id));
      if e.Deadline? {
        SweepKeepsOk(d, maxRounds, Lookup(start, id), e.now, id);
      } else {
        var eff := TheEffect(d, maxRounds, e);
        if id == e.id {
          AllowedEffectsKeepOk(ViewOf(d, id), maxRounds, Lookup(start, id), e, eff);
        }
      }
    }
  }

  lemma AllOkIsAllFit(d: Desk, maxRounds: int, start: map<Id, QuotationRequest>)
    requires AllOk(d, maxRounds, start)
    ensures AllFit(d)
  {
    forall id: Id ensures Fit(ViewOf(d, id)) {
      assert Ok(ViewOf(d, id), maxRounds, Lookup(start, id));
    }
  }

  lemma ANewDeskIsOk(start: map<Id, QuotationRequest>, maxRounds: int)
    requires SaneStore(start)
    ensures AllOk(NewDesk(start), maxRounds, start)
  {
  }

  /** In every state one process can reach, from any store of sane requests. */
  lemma {:induction false} RunIsOk(start: map<Id, QuotationRequest>, maxRounds: int, events: seq<Event>)
    requires SaneStore(start)
    ensures AllOk(Run(start, maxRounds, events), maxRounds, start)
  {
    if events == [] {
      ANewDeskIsOk(start, maxRounds);
    } else {
      RunIsOk(start, maxRounds, events[..|events| - 1]);
      StepKeepsOk(Run(start, maxRounds, events[..|events| - 1]), maxRounds, start, events[|events| - 1]);
    }
  }

  lemma RunIsOkFor(start: map<Id, QuotationRequest>, maxRounds: int, events: seq<Event>, id: Id)
    requires SaneStore(start)
    ensures Ok(ViewOf(Run(start, maxRounds, events), id), maxRounds, Lookup(start, id))
  {
    RunIsOk(start, maxRounds, events);
  }
}
