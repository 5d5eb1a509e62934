/** The promises of the clarification workflow. Those about one step hold of any desk whose stored requests are
    sane and whose drafts belong to requests at NEEDS_INFO; those about runs hold of every run of one workflow
    instance from any store of sane requests: any interleaving of messages, approvals, questions found later,
    sweeps and moves made by the rest of the system, with any extraction results, refused sends and clock
    readings. What a restart leaves is proved to be such a store elsewhere. */
module WorkflowRuns {
  import opened Prelude
  import opened Shipment
  import opened Validation
  import opened Clarification
  import opened States
  import opened Workflow
  import opened WorkflowTheorems
  import Calendar

  // ----- mail ---------------------------------------------------------------

  /** One process sends a request at most the budget of clarifications, at most one reminder for each one it
      delivered, and at most one failure notice; a question that was out when the process started can be
      reminded of once more. */
  lemma MailIsBounded(start: map<Id, QuotationRequest>, maxRounds: int, events: seq<Event>, id: Id)
    requires SaneStore(start)
    ensures var o, credit := Run(start, maxRounds, events).outbox, Credit(Lookup(start, id));
            && Sent(o, id, ClarificationMail) <= Budget(maxRounds)
            && Sent(o, id, ReminderMail) <= Sent(o, id, ClarificationMail) + credit
            && Sent(o, id, NoticeMail) <= 1
            && Sent(o, id, ClarificationMail) + Sent(o, id, ReminderMail) + Sent(o, id, NoticeMail)
               <= 2 * Budget(maxRounds) + 1 + credit
  {
    RunIsOkFor(start, maxRounds, events, id);
  }

  /** A round is spent exactly when a draft is written, so every round is a clarification that was
      delivered or the one still held. A draft is held only at NEEDS_INFO, and approving it then works; a
      request is at NEEDS_INFO without a draft only if it was found so in the store. */
  lemma NoDraftIsStranded(
    start: map<Id, QuotationRequest>, maxRounds: int, events: seq<Event>, id: Id, approver: string, at: int)
    requires SaneStore(start)
    ensures var d := Run(start, maxRounds, events);
            && (id in d.pending ==> id in d.requests && d.requests[id].state == NeedsInfo)
            && (id in d.requests && d.requests[id].state == NeedsInfo && !(id in start && start[id].state == NeedsInfo)
               ==> id in d.pending)
            && RoundsOf(d.rounds, id) == Sent(d.outbox, id, ClarificationMail) + (if id in d.pending then 1 else 0)
            && (id in d.pending ==>
                  var s := Approve(d, id, approver, Delivered, at); var held := d.pending[id];
                  && s.1 == Returned(Approved(approver, at))
                  && s.0.requests[id].state == ClarificationSent && id !in s.0.pending
                  && s.0.outbox == d.outbox + [Clarification(id, held.toAddress, held.inReplyTo, held.message)])
  {
    RunIsOkFor(start, maxRounds, events, id);
  }

  /** One that was found so is moved by neither side: no approval is possible, and every message from the client
      is refused. */
  lemma ADraftlessRequestIsStuck(d: Desk, maxRounds: int, inbound: Event, approval: Event)
    requires inbound.Inbound? && approval.Approval? && inbound.id == approval.id
    requires inbound.id in d.requests && d.requests[inbound.id].state == NeedsInfo && inbound.id !in d.pending
    ensures var id := inbound.id;
            && Approve(d, id, approval.approver, approval.send, approval.at) == (d, Raised(NoDraftHeld))
            && Handle(d, maxRounds, id, inbound.email, inbound.model, inbound.send, inbound.clock)
               == (d, Raised(IllegalTransition(NeedsInfo, Extracted)))
  {
  }

  /** A refused send leaves everything as it was, so an approval can be repeated any number of times. */
  lemma {:induction false} RefusedApprovalsChangeNothing(
    start: map<Id, QuotationRequest>, maxRounds: int, events: seq<Event>, retries: seq<Event>)
    requires forall r :: r in retries ==> r.Approval? && r.send.Refused?
    ensures Run(start, maxRounds, events + retries) == Run(start, maxRounds, events)
  {
    if retries == [] {
      assert events + retries == events;
    } else {
      var before, last := retries[..|retries| - 1], retries[|retries| - 1];
      assert last in retries;
      RefusedApprovalsChangeNothing(start, maxRounds, events, before);
      assert (events + retries)[..|events + retries| - 1] == events + before;
    }
  }

  /** The mail one step sends: at most one; a clarification only on a person's approval and exactly the
      draft held; a reminder only for a delivered question not yet reminded of; all to the client
      whose message is being answered. */
  ghost predicate MailOfStep(d: Desk, d': Desk, e: Event) {
    d'.outbox == d.outbox ||
    exists m :: d'.outbox == d.outbox + [m] && MailFits(d, e, m)
  }

  ghost predicate MailFits(d: Desk, e: Event, m: Mail) {
    match m
    case Clarification(id, to, ref, message) =>
      e.Approval? && e.id == id && id in d.pending && Draft(message, to, ref) == d.pending[id]
    case Reminder(id, to, ref) =>
      e.Inbound? && e.id == id && to == e.email.fromAddress && ref == e.email.messageId
      && id in d.requests && d.requests[id].state == ClarificationSent && d.requests[id].followupAt.None?
    case FailureNotice(id, to, ref) =>
      e.Inbound? && e.id == id && e.model.ContractBroken? && to == e.email.fromAddress && ref == e.email.messageId
      && (id in d.requests ==> d.requests[id].state == ClarificationSent)
  }

  lemma OnlyApprovalsSendClarifications(d: Desk, maxRounds: int, e: Event)
    requires AllFit(d)
    ensures MailOfStep(d, Step(d, maxRounds, e), e)
  {
    if !e.Deadline? {
      var eff := TheEffect(d, maxRounds, e);
      MailOfEffect(d, maxRounds, e, eff);
    }
  }

  lemma MailOfEffect(d: Desk, maxRounds: int, e: Event, eff: Effect)
    requires !e.Deadline? && May(ViewOf(d, e.id), maxRounds, e, eff)
    ensures MailOfStep(d, Apply(d, e.id, eff), e)
  {
    if eff.Mailed? || eff.Released? {
      assert MailFits(d, e, eff.mail);
    }
  }

  /** The analysis of a first message. */
  ghost function FirstAnalysis(x: Extraction, today: Calendar.Day): Analysis {
    var merge := Merge(map[], ToExtractedFields(x));
    Identify(Validate(merge.record, Some(today)), x, merge.conflicts)
  }

  lemma FirstSettlement(d: Desk, id: Id, email: RawEmail, x: Extraction, clock: TurnClock)
    requires id !in d.rounds && FirstAnalysis(x, clock.validate.today).NeedsClarification()
    ensures Asking(Settle(d, id, email, x, Merge(map[], ToExtractedFields(x)), Received, false, false, clock).0, id)
  {
    var merge, analysis := Merge(map[], ToExtractedFields(x)), FirstAnalysis(x, clock.validate.today);
    VerdictIsNeverRefused(Received, false, false, analysis);
    assert Verdict(Received, false, false, analysis) == Returned(NeedsInfo);
    var issues := Validate(merge.record, Some(clock.validate.today));
    assert Asking(Settled(d, id, email, merge, issues, analysis, NeedsInfo, true).0, id);
  }

  /** A first question is drafted. */
  ghost predicate Asking(d: Desk, id: Id) {
    RoundsOf(d.rounds, id) == 1 && id in d.pending && id in d.requests && d.requests[id].state == NeedsInfo
  }

  lemma FirstTurn(d: Desk, id: Id, email: RawEmail, x: Extraction, send: SendReply, clock: TurnClock)
    requires id !in d.rounds && FirstAnalysis(x, clock.validate.today).NeedsClarification()
            && (AnyStated(x) || AnyInvalid(x))
    ensures Asking(Turn(d, id, email, x, Received, map[], None, false, send, clock).0, id)
  {
    FirstSettlement(d, id, email, x, clock);
  }

  /** With no budget at all, a first message that needs an answer is still answered with a question:
      the enforced bound is `max(1, max_rounds)`, not `max_rounds`. */
  lemma AFirstMessageIsAlwaysAsked(d: Desk, maxRounds: int, e: Event)
    requires e.Inbound? && e.model.Understood? && (AnyStated(e.model.x) || AnyInvalid(e.model.x))
    requires e.id !in d.requests && e.id !in d.rounds
    requires FirstAnalysis(ResolveShipDate(e.model.x, e.clock.resolve.today),
            e.clock.validate.today).NeedsClarification()
    ensures Asking(Step(d, maxRounds, e), e.id)
  {
    var x := ResolveShipDate(e.model.x, e.clock.resolve.today);
    ResolvingKeepsStatuses(e.model.x, e.clock.resolve.today);
    FirstTurn(d, e.id, e.email, x, e.send, e.clock);
  }

  lemma ResolvingKeepsStatuses(x: Extraction, today: Calendar.Day)
    ensures AnyStated(x) ==> AnyStated(ResolveShipDate(x, today))
    ensures AnyInvalid(x) ==> AnyInvalid(ResolveShipDate(x, today))
  {
    var r := ResolveShipDate(x, today);
    if AnyStated(x) {
      var f :| f in x && x[f].Stated?;
      assert f in r && r[f].Stated?;
    }
    if AnyInvalid(x) {
      var f :| f in x && x[f].Invalid?;
      assert f in r && r[f].Invalid?;
    }
  }

  // ----- stored states ------------------------------------------------------

  /** What the workflow itself may store. */
  predicate Storable(s: RequestState) {
    s == NeedsInfo || s == ClarificationSent || s == Validated || s == ManualReview
  }

  /** A request's stored state before and after: nothing is deleted, a change follows the table, and
      only the rest of the system stores any other state. */
  ghost predicate FollowsTheTable(v: View, v': View, e: Event) {
    && (v.request.Some? ==> v'.request.Some?)
    && (v'.request != v.request && !e.Downstream? ==> Storable(StateOf(v'.request)))
    && Path(StateOf(v.request), StateOf(v'.request), 2)
  }

  lemma {:induction false} EdgesArePaths(from: RequestState, to: RequestState)
    ensures Path(from, from, 2)
    ensures CanTransition(from, to) ==> Path(from, to, 2)
    ensures CanTransition(from, Extracted) && CanTransition(Extracted, to) ==> Path(from, to, 2)
  {
    assert Path(to, to, 1) && Path(to, to, 0);
    assert CanTransition(Extracted, to) ==> Path(Extracted, to, 1);
  }

  lemma WhereAMessageLeads(q: Option<QuotationRequest>, rounds: nat, maxRounds: int, e: Event, eff: Effect)
    requires e.Inbound? && MessageMay(q, rounds, maxRounds, e, eff) && !eff.Unchanged?
    ensures (StateOf(q) == Received || StateOf(q) == ClarificationSent) && Storable(eff.saved.state)
    ensures eff.saved.state == ClarificationSent ==> StateOf(q) == ClarificationSent
  {
  }

  lemma TurnsArePaths(from: RequestState, to: RequestState)
    requires (from == Received || from == ClarificationSent) && Storable(to)
            && (to == ClarificationSent ==> from == ClarificationSent)
    ensures Path(from, to, 2)
  {
    EdgesArePaths(from, to);
    assert CanTransition(Received, Extracted) && CanTransition(ClarificationSent, Extracted);
  }

  lemma MessageFollowsTheTable(v: View, maxRounds: int, e: Event, eff: Effect)
    requires e.Inbound? && MessageMay(v.request, v.rounds, maxRounds, e, eff)
    ensures FollowsTheTable(v, ApplyToView(v, eff), e)
  {
    if eff.Unchanged? {
      EdgesArePaths(StateOf(v.request), StateOf(v.request));
    } else {
      WhereAMessageLeads(v.request, v.rounds, maxRounds, e, eff);
      TurnsArePaths(StateOf(v.request), eff.saved.state);
      StoringFollowsTheTable(v, e, eff);
    }
  }

  lemma StoringFollowsTheTable(v: View, e: Event, eff: Effect)
    requires !eff.Unchanged? && Storable(eff.saved.state) && Path(StateOf(v.request), eff.saved.state, 2)
    ensures FollowsTheTable(v, ApplyToView(v, eff), e)
  {
  }

  lemma QuestionFollowsTheTable(
    v: View, maxRounds: int, e: Event, us: seq<UnresolvedField>, to: string, ref: string, eff: Effect)
    requires e.AskPlaces? || e.AskShipDate?
    requires QuestionMay(v, maxRounds, us, to, ref, eff)
    ensures FollowsTheTable(v, ApplyToView(v, eff), e)
  {
    EdgesArePaths(StateOf(v.request), if eff.Unchanged? then StateOf(v.request) else eff.saved.state);
  }

  lemma EffectFollowsTheTable(v: View, maxRounds: int, e: Event, eff: Effect)
    requires Fit(v) && May(v, maxRounds, e, eff)
    ensures FollowsTheTable(v, ApplyToView(v, eff), e)
  {
    match e
    case Inbound(_, _, _, _, _) => MessageFollowsTheTable(v, maxRounds, e, eff);
    case AskPlaces(_, places, to, ref) =>
        QuestionFollowsTheTable(v, maxRounds, e, PlaceQuestions(places), to, ref, eff);
    case AskShipDate(_, to, ref) => QuestionFollowsTheTable(v, maxRounds, e, DATE_QUESTION, to, ref, eff);
    case Approval(_, _, _, _) => EdgesArePaths(StateOf(v.request), ClarificationSent);
    case Downstream(_, target) => EdgesArePaths(StateOf(v.request), target);
  }

  /** Every pair of consecutive stored states is joined by a path of the table, the workflow stores
      only four states, and nothing is ever deleted. */
  lemma StoredStatesFollowTheTable(d: Desk, maxRounds: int, e: Event, id: Id)
    requires AllFit(d)
    ensures FollowsTheTable(ViewOf(d, id), ViewOf(Step(d, maxRounds, e), id), e)
  {
    EdgesArePaths(StateOf(Lookup(d.requests, id)), ManualReview);
    if !e.Deadline? {
      assert Fit(ViewOf(d, e.id));
      var eff := TheEffect(d, maxRounds, e);
      EffectFollowsTheTable(ViewOf(d, e.id), maxRounds, e, eff);
    }
  }

  /** After a sweep no waiting request has an expired window; the ids reported are exactly those that
      were handed over, nothing else about any request changed, and a second sweep finds nothing. */
  lemma SweepLeavesNoExpiredWindow(d: Desk, now: int, id: Id)
    ensures id in LapsedIds(d.requests, now) <==>
              && id in d.requests && d.requests[id].state == ClarificationSent
              && d.requests[id].followupAt.Some? && now >= d.requests[id].followupAt.value + 1_800_000_000
    ensures var d' := Sweep(d, now);
            && d'.requests.Keys == d.requests.Keys
            && (id in d.requests ==> !Lapsed(d'.requests[id], now))
            && (id in d.requests ==> d'.requests[id] == if id in LapsedIds(d.requests, now)
                                                         then d.requests[id].(state := ManualReview)
                                                             else d.requests[id])
            && Sweep(d', now) == d' && LapsedIds(d'.requests, now) == {}
            && d'.pending == d.pending && d'.outbox == d.outbox && d'.rounds == d.rounds
  {
    var d' := Sweep(d, now);
    assert Sweep(d', now).requests == d'.requests;
  }

  /** `handle` raises an illegal transition exactly for a reply to a request at NEEDS_INFO, and releasing a
      draft is refused exactly when there is none. */
  lemma WhenAMessageOrAnApprovalIsRefused(d: Desk, maxRounds: int, inbound: Event, approval: Event)
    requires AllFit(d) && inbound.Inbound? && approval.Approval? && inbound.id == approval.id
    ensures var id := inbound.id;
            var turn := Handle(d, maxRounds, id, inbound.email, inbound.model, inbound.send, inbound.clock).1;
            var release := Approve(d, id, approval.approver, approval.send, approval.at).1;
            && (turn.Raised? && turn.error.IllegalTransition?
               <==> id in d.requests && d.requests[id].state == NeedsInfo)
            && (release.Raised? && release.error == NoDraftHeld <==> id !in d.pending)
            && (release.Raised? ==> release.error == NoDraftHeld || release.error.SendFailed?)
  {
    assert Fit(ViewOf(d, inbound.id));
    var turn := EffectOfMessage(d, maxRounds, inbound);
    var release := EffectOfApproval(d, maxRounds, approval);
  }

  /** The states from which a request can be asked about again, and those from which it can be handed over. */
  const REOPENABLE: set<RequestState> := {Extracted, Validated, NeedsInfo}

  const HANDABLE: set<RequestState> := {Received, Extracted, ClarificationSent, Validated, QuotationSent, ManualReview}

  /** A request to ask about places or the shipment date is refused exactly when there is something to ask, no
      draft to give back, and either no such request or a state that its budget leaves no move from. Refused,
      it changes nothing. */
  lemma WhenAskingIsRefused(d: Desk, maxRounds: int, id: Id, us: seq<UnresolvedField>, to: string, ref: string)
    ensures var s := AskAgain(d, maxRounds, id, us, to, ref);
            var ways := if RoundsOf(d.rounds, id) >= maxRounds then HANDABLE else REOPENABLE;
            && (s.1.Raised? <==> us != [] && id !in d.pending
                                 && (id !in d.requests || d.requests[id].state !in ways))
            && (s.1.Raised? ==> s.0 == d && (s.1.error == UnknownRequest <==> id !in d.requests))
  {
    assert forall s :: Advance(s, ManualReview).Returned? <==> s in HANDABLE;
    assert forall s :: Advance(s, NeedsInfo).Returned? <==> s in REOPENABLE;
  }

  // ----- failures -----------------------------------------------------------

  /** A turn that came to `s` from `d` stored at most this request, and nothing if it raised. */
  ghost predicate AddsAtMost(d: Desk, s: (Desk, Result<TurnOutcome, Trouble>), id: Id) {
    s.0.requests.Keys <= d.requests.Keys + {id} && (s.1.Raised? ==> s.0 == d)
  }

  lemma SettlingAddsAtMostItsRequest(
    d: Desk, id: Id, email: RawEmail, x: Extraction, merge: MergeResult, state: RequestState, futile: bool,
    overBudget: bool, clock: TurnClock)
    ensures AddsAtMost(d, Settle(d, id, email, x, merge, state, futile, overBudget, clock), id)
  {
  }

  lemma ANonAnswerAddsAtMostItsRequest(
    d: Desk, id: Id, email: RawEmail, x: Extraction, merge: MergeResult, state: RequestState,
    existing: Option<QuotationRequest>, overBudget: bool, send: SendReply, clock: TurnClock)
    ensures AddsAtMost(d, AnswersNothing(d, id, email, x, merge, state, existing, overBudget, send, clock), id)
  {
    SettlingAddsAtMostItsRequest(d, id, email, x, merge, state, true, overBudget, clock);
  }

  lemma ATurnAddsAtMostItsRequest(
    d: Desk, id: Id, email: RawEmail, x: Extraction, state: RequestState, record: Fields,
    existing: Option<QuotationRequest>, overBudget: bool, send: SendReply, clock: TurnClock)
    ensures AddsAtMost(d, Turn(d, id, email, x, state, record, existing, overBudget, send, clock), id)
  {
    var merge := Merge(record, ToExtractedFields(x));
    var missing := MissingOf(Validate(merge.record, Some(clock.judge.today)));
    var unusable := state.ClarificationSent? && AnyUnusable(missing, x);
    SettlingAddsAtMostItsRequest(d, id, email, x, merge, state, unusable, overBudget, clock);
    ANonAnswerAddsAtMostItsRequest(d, id, email, x, merge, state, existing, overBudget, send, clock);
  }

  lemma AnUnreadMessageAddsAtMostItsRequest(d: Desk, id: Id, email: RawEmail, state: RequestState, record: Fields,
                                            existing: Option<QuotationRequest>, send: SendReply, clock: TurnClock)
    ensures AddsAtMost(d, ExtractionFailed(d, id, email, state, record, existing, send, clock), id)
  {
  }

  /** A turn that raises has changed nothing, whatever state the store was found in: requests, rounds, drafts and
      mail are as before. One that returns has stored at most its own request. */
  lemma ARaisedTurnChangesNothing(d: Desk, maxRounds: int, e: Event)
    requires e.Inbound?
    ensures AddsAtMost(d, Handle(d, maxRounds, e.id, e.email, e.model, e.send, e.clock), e.id)
  {
    var q := Lookup(d.requests, e.id);
    if q.Some? && !AcceptsClientReply(q.value.state) {
    } else if e.model.Understood? {
      var x := ResolveShipDate(e.model.x, e.clock.resolve.today);
      var overBudget := StateOf(q).ClarificationSent? && RoundsOf(d.rounds, e.id) >= maxRounds;
      ATurnAddsAtMostItsRequest(d, e.id, e.email, x, StateOf(q), RecordOf(q), q, overBudget, e.send, e.clock);
    } else if e.model.ContractBroken? {
      AnUnreadMessageAddsAtMostItsRequest(d, e.id, e.email, StateOf(q), RecordOf(q), q, e.send, e.clock);
    }
  }

  // ----- what the client is asked -------------------------------------------

  /** While a clarification is out, the model is shown exactly what was last asked, by this process or before
      it, until the reminder: that rebuilds the stored request and forgets it. */
  lemma TheModelIsShownTheQuestionUntilTheReminder(
    start: map<Id, QuotationRequest>, maxRounds: int, events: seq<Event>, id: Id)
    requires SaneStore(start)
    requires var d := Run(start, maxRounds, events); id in d.requests && d.requests[id].state == ClarificationSent
    ensures var d := Run(start, maxRounds, events); var q := d.requests[id];
            q.askedAbout == if q.followupAt.Some? then []
                            else if Sent(d.outbox, id, ClarificationMail) > 0 then LastAsked(d.outbox, id)
                            else if id in start then start[id].askedAbout else []
  {
    RunIsOkFor(start, maxRounds, events, id);
    if Sent(Run(start, maxRounds, events).outbox, id, ClarificationMail) == 0 {
      NothingAskedYet(Run(start, maxRounds, events).outbox, id);
    }
  }

  lemma {:induction false} NothingAskedYet(outbox: seq<Mail>, id: Id)
    requires Sent(outbox, id, ClarificationMail) == 0
    ensures LastAsked(outbox, id) == []
  {
    if outbox == [] {
    } else {
      NothingAskedYet(outbox[..|outbox| - 1], id);
    }
  }

  /** When a turn drafts a question, every field it asks about is empty in what is stored, so that the
      answer can fill it, with one exception: a shipment date that was already stored and has since
      passed is asked for but left in place. */
  lemma AskedFieldsAreOpenButForAPastDate(
    q: Option<QuotationRequest>, rounds: nat, maxRounds: int, e: Event, eff: Effect, f: FieldName)
    requires e.Inbound? && Tidy(RecordOf(q)) && VerdictMay(q, rounds, maxRounds, e, eff) && eff.Held?
    requires Asks(eff.draft.message.unresolved, f)
    ensures var merge := MergeBy(q, e.model.x, e.clock);
            f in eff.saved.record <==>
              f == ShipDate && PastShipDate(merge.record, e.clock.validate.today) && f !in FieldsOf(merge.conflicts)
  {
    var x := ResolveShipDate(e.model.x, e.clock.resolve.today);
    var merge := MergeBy(q, e.model.x, e.clock);
    var issues := Validate(merge.record, Some(e.clock.validate.today));
    MergeStaysTidy(RecordOf(q), x);
    AskedExactly(issues, x, merge.conflicts, f);
    GapsAreLacks(merge.record, Some(e.clock.validate.today), f);
    GapsOfATidyRecord(merge.record, f, Some(e.clock.validate.today));
    MergeReportsEveryStatedField(RecordOf(q), ToExtractedFields(x), f);
    MergeNeverReplaces(RecordOf(q), ToExtractedFields(x));
  }

  /** So the answer to that question always comes back as a conflict: whatever date the client states, it is
      rolled forward to one that is not past, and the stored one is. */
  lemma TheAnswerToAPastDateConflicts(q: Option<QuotationRequest>, x: Extraction, clock: TurnClock)
    requires ShipDate in RecordOf(q) && PastShipDate(RecordOf(q), clock.resolve.today)
    ensures var merge := MergeBy(q, x, clock);
            && (ShipDate in FieldsOf(merge.conflicts) <==> StatusOf(x, ShipDate).Stated?)
            && merge.record[ShipDate] == RecordOf(q)[ShipDate]
  {
    var stated := ToExtractedFields(ResolveShipDate(x, clock.resolve.today));
    MergeNeverReplaces(RecordOf(q), stated);
    MergeReportsEveryStatedField(RecordOf(q), stated, ShipDate);
    if StatusOf(x, ShipDate).Stated? {
      assert Fits(ShipDate, x[ShipDate].value);
      Calendar.RolledIsTheNextOccurrence(x[ShipDate].value.day, clock.resolve.today);
    }
  }

  /** A shipment date filled by this message is past only if the clock passed it while the message was
      being handled; read on one day, it never is. */
  lemma AFilledShipDateIsNotPast(q: Option<QuotationRequest>, x: Extraction, clock: TurnClock)
    requires ShipDate !in RecordOf(q) && ShipDate in MergeBy(q, x, clock).record
    ensures StatusOf(x, ShipDate).Stated? && StatusOf(x, ShipDate).value.OnDay?
    ensures PastShipDate(MergeBy(q, x, clock).record, clock.validate.today)
            <==> Calendar.Before(Calendar.Rolled(StatusOf(x, ShipDate).value.day, clock.resolve.today),
                clock.validate.today)
    ensures clock.validate.today == clock.resolve.today
            ==> !PastShipDate(MergeBy(q, x, clock).record, clock.validate.today)
  {
    var resolved := ResolveShipDate(x, clock.resolve.today);
    MergeNeverReplaces(RecordOf(q), ToExtractedFields(resolved));
    assert ShipDate in ToExtractedFields(resolved);
    assert Fits(ShipDate, x[ShipDate].value);
    Calendar.RolledIsTheNextOccurrence(x[ShipDate].value.day, clock.resolve.today);
  }

  // ----- VALIDATED ----------------------------------------------------------

  /** A message the request can take ends at VALIDATED if and only if its merge contradicts nothing and
      the merged record passes every rule, with the date of that turn; the stored record is the merged
      one. Nothing else counts: not the rounds already spent, nor a lapsed reminder. */
  lemma ValidatedIffNothingIsOpen(d: Desk, maxRounds: int, e: Event)
    requires e.Inbound? && e.model.Understood?
    requires e.id in d.requests ==> Sane(d.requests[e.id]) && d.requests[e.id].state == ClarificationSent
    ensures var merge := MergeBy(Lookup(d.requests, e.id), e.model.x, e.clock);
            var s := Handle(d, maxRounds, e.id, e.email, e.model, e.send, e.clock);
            && (s.1.Returned? && s.1.value.state == Validated
                <==> merge.conflicts == [] && Validate(merge.record, Some(e.clock.validate.today)) == [])
            && (s.1.Returned? && s.1.value.state == Validated ==>
                  e.id in s.0.requests && s.0.requests[e.id].state == Validated
                      && s.0.requests[e.id].record == merge.record)
  {
    var eff := EffectOfMessage(d, maxRounds, e);
  }

  /** A request that is at VALIDATED, or anywhere the rest of the system takes it from there, has a
      record that passes every date-independent rule, so none of the rate query's guards can fire. */
  lemma ValidatedRecordsStayValid(start: map<Id, QuotationRequest>, maxRounds: int, events: seq<Event>, id: Id)
    requires SaneStore(start)
    requires var d := Run(start, maxRounds, events); id in d.requests && PastValidation(d.requests[id].state)
    ensures var r := Run(start, maxRounds, events).requests[id].record;
            Validate(r, None) == [] && QueryGuardsPass(r)
  {
    RunIsOkFor(start, maxRounds, events, id);
    ValidShipmentsPassTheQueryGuards(Run(start, maxRounds, events).requests[id].record);
  }

  // ----- record values ------------------------------------------------------

  /** What a message states about the record, after normalisation, the ship-date roll-forward and the
      denied-MSDS rule. */
  ghost function IncomingOf(e: Event): Fields {
    if e.Inbound? && e.model.Understood?
    then Normalize(ToExtractedFields(ResolveShipDate(e.model.x, e.clock.resolve.today)))
    else map[]
  }

  /** How one field of a record may move: filled with what came in, kept, or emptied when it is asked about. */
  ghost predicate Moves(r: Fields, r': Fields, incoming: Fields, asked: seq<UnresolvedField>, f: FieldName) {
    && (f in r && f in r' ==> r'[f] == r[f])
    && (f !in r && f in r' ==> f in incoming && r'[f] == incoming[f])
    && (f in r && f !in r' ==> Asks(asked, f))
  }

  /** What a newly drafted question asks about. */
  function NewlyAsked(v: View, v': View): seq<UnresolvedField> {
    if v.draft.None? && v'.draft.Some? then v'.draft.value.message.unresolved else []
  }

  /** How one field of a request may move in a step; `mine` says whether the step is about it. */
  ghost predicate FieldMoves(v: View, v': View, e: Event, mine: bool, f: FieldName) {
    Moves(RecordOf(v.request), RecordOf(v'.request), if mine then IncomingOf(e) else map[], NewlyAsked(v, v'), f)
  }

  lemma WhatAMessageStores(
    q: Option<QuotationRequest>, rounds: nat, maxRounds: int, e: Event, eff: Effect, f: FieldName)
    requires e.Inbound? && MessageMay(q, rounds, maxRounds, e, eff) && !eff.Unchanged?
    ensures eff.Mailed? || eff.Stored? || eff.Held?
    ensures var asked := if eff.Held? then eff.draft.message.unresolved else [];
            Moves(RecordOf(q), eff.saved.record, IncomingOf(e), asked, f)
  {
    if e.model.Understood? {
      AMergeMoves(RecordOf(q), ToExtractedFields(ResolveShipDate(e.model.x, e.clock.resolve.today)),
          AnalysisBy(q, e.model.x, e.clock).unresolved, f);
    }
  }

  /** A merge fills fields; clearing what is asked as a conflict empties some of those asked. */
  lemma AMergeMoves(existing: Fields, stated: Fields, us: seq<UnresolvedField>, f: FieldName)
    ensures var merged := Merge(existing, stated).record;
            && Moves(existing, merged, Normalize(stated), [], f)
            && Moves(existing, Cleared(merged, us), Normalize(stated), us, f)
  {
    MergeNeverReplaces(existing, stated);
  }

  lemma WhatIsStoredMoves(v: View, e: Event, eff: Effect, f: FieldName)
    requires v.draft.None? && (eff.Mailed? || eff.Stored? || eff.Held?)
    requires var asked := if eff.Held? then eff.draft.message.unresolved else [];
             Moves(RecordOf(v.request), eff.saved.record, IncomingOf(e), asked, f)
    ensures FieldMoves(v, ApplyToView(v, eff), e, true, f)
  {
  }

  lemma QuestionMovesFields(
    v: View, maxRounds: int, e: Event, us: seq<UnresolvedField>, to: string, ref: string, eff: Effect, f: FieldName)
    requires QuestionMay(v, maxRounds, us, to, ref, eff)
    ensures FieldMoves(v, ApplyToView(v, eff), e, true, f)
  {
  }

  lemma EffectMovesFields(v: View, maxRounds: int, e: Event, eff: Effect, f: FieldName)
    requires Fit(v) && May(v, maxRounds, e, eff)
    ensures FieldMoves(v, ApplyToView(v, eff), e, true, f)
  {
    match e
    case Inbound(_, _, _, _, _) =>
      if !eff.Unchanged? {
        WhereAMessageLeads(v.request, v.rounds, maxRounds, e, eff);
        WhatAMessageStores(v.request, v.rounds, maxRounds, e, eff, f);
        WhatIsStoredMoves(v, e, eff, f);
      }
    case AskPlaces(_, places, to, ref) => QuestionMovesFields(v, maxRounds, e, PlaceQuestions(places), to, ref, eff, f);
    case AskShipDate(_, to, ref) => QuestionMovesFields(v, maxRounds, e, DATE_QUESTION, to, ref, eff, f);
    case _ =>
  }

  /** A stored value is never replaced by a different one: a field is filled with what the message
      states, stays, or is emptied in the step that drafts a question about exactly that field. */
  lemma ValuesAreNeverReplaced(d: Desk, maxRounds: int, e: Event, id: Id, f: FieldName)
    requires AllFit(d)
    ensures FieldMoves(ViewOf(d, id), ViewOf(Step(d, maxRounds, e), id), e, !e.Deadline? && e.id == id, f)
  {
    if !e.Deadline? {
      assert Fit(ViewOf(d, e.id));
      var eff := TheEffect(d, maxRounds, e);
      EffectMovesFields(ViewOf(d, e.id), maxRounds, e, eff, f);
    }
  }

  /** Some message of the run stated `v` for `f` to this request. */
  ghost predicate StatedInRun(events: seq<Event>, id: Id, f: FieldName, v: Value) {
    exists i :: 0 <= i < |events| && events[i].Inbound? && events[i].id == id
                && f in IncomingOf(events[i]) && IncomingOf(events[i])[f] == v
  }

  lemma StatedEarlierIsStated(events: seq<Event>, e: Event, id: Id, f: FieldName, v: Value)
    requires StatedInRun(events, id, f, v)
    ensures StatedInRun(events + [e], id, f, v)
  {
    var i :| 0 <= i < |events| && events[i].Inbound? && events[i].id == id
             && f in IncomingOf(events[i]) && IncomingOf(events[i])[f] == v;
    assert (events + [e])[i] == events[i];
  }

  /** The store a process found had this value. */
  ghost predicate Found(start: map<Id, QuotationRequest>, id: Id, f: FieldName, v: Value) {
    id in start && f in start[id].record && start[id].record[f] == v
  }

  /** Every value in every record was stated by some message of that request, or was found in the store. */
  lemma {:induction false} EveryValueWasStated(
    start: map<Id, QuotationRequest>, maxRounds: int, events: seq<Event>, id: Id, f: FieldName)
    requires SaneStore(start)
    requires f in RecordOf(Lookup(Run(start, maxRounds, events).requests, id))
    ensures var v := RecordOf(Lookup(Run(start, maxRounds, events).requests, id))[f];
            StatedInRun(events, id, f, v) || Found(start, id, f, v)
  {
    if events == [] {
    } else {
      var before, e := events[..|events| - 1], events[|events| - 1];
      var d := Run(start, maxRounds, before);
      var r := RecordOf(Lookup(d.requests, id));
      RunIsOk(start, maxRounds, before);
      AllOkIsAllFit(d, maxRounds, start);
      ValuesAreNeverReplaced(d, maxRounds, e, id, f);
      assert events == before + [e];
      if f in r {
        EveryValueWasStated(start, maxRounds, before, id, f);
        if StatedInRun(before, id, f, r[f]) {
          StatedEarlierIsStated(before, e, id, f, r[f]);
        }
      } else {
        assert (before + [e])[|before|] == e;
      }
    }
  }
}
