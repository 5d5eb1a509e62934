/** The workflow in the form the source gives it: an object that updates a shared store, its round
    counters and its held drafts step by step. Every method is tied to the function of the state that
    specifies it, about which the invariants are proved. */
module WorkflowClass {
  import opened Prelude
  import opened Shipment
  import opened Validation
  import opened Clarification
  import opened States
  import opened Workflow

  /** The store port: requests and threads by request id. */
  class Store {
    var requests: map<Id, QuotationRequest>
    var threads: map<Id, seq<string>>

    constructor ()
      ensures requests == map[] && threads == map[]
    {
      requests, threads := map[], map[];
    }

    method GetRequest(id: Id) returns (q: Option<QuotationRequest>)
      ensures q == Lookup(requests, id)
    {
      q := if id in requests then Some(requests[id]) else None;
    }

    method SaveRequest(id: Id, q: QuotationRequest)
      modifies this`requests
      ensures requests == old(requests)[id := q]
    {
      requests := requests[id := q];
    }

    method SaveThread(id: Id, messageIds: seq<string>)
      modifies this`threads
      ensures threads == old(threads)[id := messageIds]
    {
      threads := threads[id := messageIds];
    }
  }

  class ClarificationWorkflow {
    const store: Store
    const maxRounds: int
    var rounds: map<Id, nat>
    var pending: map<Id, Draft>
    var outbox: seq<Mail>

    constructor (store: Store, maxRounds: int)
      ensures this.store == store && this.maxRounds == maxRounds
      ensures Now() == NewDesk(store.requests)
    {
      this.store := store;
      this.maxRounds := maxRounds;
      rounds, pending, outbox := map[], map[], [];
    }

    /** The state the specification speaks of. */
    ghost function Now(): Desk
      reads this, store
    {
      Desk(store.requests, rounds, pending, outbox)
    }

    method KeepRequest(id: Id, q: QuotationRequest)
      modifies store`requests
      ensures Now() == Save(old(Now()), id, q)
    {
      store.SaveRequest(id, q);
    }

    /** The sink: a delivered mail is in the outbox, a refused one is not. */
    method Send(m: Mail, send: SendReply) returns (r: Result<(), Trouble>)
      modifies this`outbox
      ensures send.Delivered? ==> r == Returned(()) && Now() == Post(old(Now()), m)
      ensures send.Refused? ==> r == Raised(OutboundUnavailable(send.permanent)) && Now() == old(Now())
    {
      if send.Refused? {
        return Raised(OutboundUnavailable(send.permanent));
      }
      outbox := outbox + [m];
      r := Returned(());
    }

    method MakeReport(
      id: Id, state: RequestState, record: Fields, x: Extraction, clock: TurnClock, nonEnquiry: bool, notAccepted: bool)
        returns (t: TurnOutcome)
      ensures t == Report(RoundsOf(rounds, id), state, record, x, clock.validate.today, nonEnquiry, notAccepted)
    {
      var merge := MergeShipment(record, ToExtractedFields(x));
      var issues := Validate(record, Some(clock.validate.today));
      var analysis := IdentifyUnresolved(issues, x, merge.conflicts);
      t := TurnOutcome(state, record, merge, issues, analysis, None, RoundsOf(rounds, id), nonEnquiry, notAccepted);
    }

    method MakeWaiting(id: Id, merge: MergeResult, x: Extraction, clock: TurnClock) returns (t: TurnOutcome)
      ensures t == Waiting(RoundsOf(rounds, id), merge, x, clock.validate.today)
    {
      var issues := Validate(merge.record, Some(clock.validate.today));
      var analysis := IdentifyUnresolved(issues, x, merge.conflicts);
      t := TurnOutcome(ClarificationSent, merge.record, merge, issues, analysis, None, RoundsOf(rounds, id), false,
          false);
    }

    /** `handle`, for the message `email` and the request `id`. */
    method HandleMessage(id: Id, email: RawEmail, model: ModelReply, send: SendReply, clock: TurnClock)
        returns (r: Result<TurnOutcome, Trouble>)
      modifies this, store`requests
      ensures Now() == Workflow.Handle(old(Now()), maxRounds, id, email, model, send, clock).0
      ensures r == Workflow.Handle(old(Now()), maxRounds, id, email, model, send, clock).1
    {
      var existing := store.GetRequest(id);
      var record: Fields := if existing.Some? then existing.value.record else map[];
      var state := if existing.Some? then existing.value.state else Received;
      var overBudget := state.ClarificationSent? && RoundsOf(rounds, id) >= maxRounds;
      if existing.Some? && !AcceptsClientReply(state) {
        if state.NeedsInfo? {
          if !CanTransition(state, Extracted) {
            return Raised(IllegalTransition(state, Extracted));
          }
        }
        var report := MakeReport(id, state, record, map[], clock, false, true);
        return Returned(report);
      }
      match model {
        case Unreachable(permanent) => r := Raised(ExtractionUnavailable(permanent));
        case ContractBroken => r := HandOverUnread(id, email, state, record, existing, send, clock);
        case Understood(raw) =>
          r := TakeTurn(id, email, ResolveShipDate(raw, clock.resolve.today), state, record, existing, overBudget, send,
              clock);
      }
    }

    /** `_extraction_failed`. */
    method HandOverUnread(id: Id, email: RawEmail, state: RequestState, record: Fields,
                          existing: Option<QuotationRequest>, send: SendReply, clock: TurnClock)
        returns (r: Result<TurnOutcome, Trouble>)
      modifies this`outbox, store`requests
      ensures Now() == ExtractionFailed(old(Now()), id, email, state, record, existing, send, clock).0
      ensures r == ExtractionFailed(old(Now()), id, email, state, record, existing, send, clock).1
    {
      var noticeAt := if existing.Some? then existing.value.failureNoticeAt else None;
      if noticeAt.None? {
        var sent := Send(FailureNotice(id, email.fromAddress, email.messageId), send);
        if sent.Raised? {
          return Raised(sent.error);
        }
        noticeAt := Some(clock.judge.at);
      }
      var report := SaveUnread(id, email, state, record, noticeAt, clock);
      r := Returned(report);
    }

    /** What `_extraction_failed` stores and reports once the client has been told. */
    method SaveUnread(
      id: Id, email: RawEmail, state: RequestState, record: Fields, noticeAt: Option<int>, clock: TurnClock)
        returns (t: TurnOutcome)
      modifies store`requests
      ensures Now() == Unread(old(Now()), id, email, state, record, noticeAt, clock).0
      ensures t == Unread(old(Now()), id, email, state, record, noticeAt, clock).1
    {
      var next := Escalated(state);
      KeepRequest(id, QuotationRequest(next, record, email.fromAddress, noticeAt, None, []));
      t := MakeReport(id, next, record, map[], clock, false, false);
    }

    /** `_send_followup`. */
    method RemindOnce(id: Id, email: RawEmail, merge: MergeResult, x: Extraction, send: SendReply, clock: TurnClock)
        returns (r: Result<TurnOutcome, Trouble>)
      modifies this`outbox, store`requests
      ensures Now() == SendFollowup(old(Now()), id, email, merge, x, send, clock).0
      ensures r == SendFollowup(old(Now()), id, email, merge, x, send, clock).1
    {
      var sent := Send(Reminder(id, email.fromAddress, email.messageId), send);
      if sent.Raised? {
        return Raised(sent.error);
      }
      KeepRequest(id, QuotationRequest(ClarificationSent, merge.record, email.fromAddress, None, Some(clock.judge.at),
          []));
      var waiting := MakeWaiting(id, merge, x, clock);
      r := Returned(waiting);
    }

    /** The deterministic part of `handle`, up to the verdict on a non-answer. */
    method TakeTurn(id: Id, email: RawEmail, x: Extraction, state: RequestState, record: Fields,
                    existing: Option<QuotationRequest>, overBudget: bool, send: SendReply, clock: TurnClock)
        returns (r: Result<TurnOutcome, Trouble>)
      modifies this, store`requests
      ensures Now() == Turn(old(Now()), id, email, x, state, record, existing, overBudget, send, clock).0
      ensures r == Turn(old(Now()), id, email, x, state, record, existing, overBudget, send, clock).1
    {
      if existing.None? && !AnyStated(x) && !AnyInvalid(x) {
        var report := MakeReport(id, Received, record, x, clock, true, false);
        return Returned(report);
      }
      r := MergeTurn(id, email, x, state, record, existing, overBudget, send, clock);
    }

    /** The reply merged into the record, and what is then missing. */
    method MergeTurn(id: Id, email: RawEmail, x: Extraction, state: RequestState, record: Fields,
                     existing: Option<QuotationRequest>, overBudget: bool, send: SendReply, clock: TurnClock)
        returns (r: Result<TurnOutcome, Trouble>)
      modifies this, store`requests
      ensures Now() == Merged(old(Now()), id, email, x, state, record, existing, overBudget, send, clock).0
      ensures r == Merged(old(Now()), id, email, x, state, record, existing, overBudget, send, clock).1
    {
      var merge := MergeShipment(record, ToExtractedFields(x));
      var missing := MissingOf(Validate(merge.record, Some(clock.judge.today)));
      r := JudgeTurn(id, email, x, merge, missing, state, existing, overBudget, send, clock);
    }

    /** Tells a reply that answers nothing, and one that cannot be used, from the rest. */
    method JudgeTurn(
      id: Id, email: RawEmail, x: Extraction, merge: MergeResult, missing: seq<FieldName>, state: RequestState,
      existing: Option<QuotationRequest>, overBudget: bool, send: SendReply, clock: TurnClock)
        returns (r: Result<TurnOutcome, Trouble>)
      modifies this, store`requests
      ensures Now() == Judged(old(Now()), id, email, x, merge, missing, state, existing, overBudget, send, clock).0
      ensures r == Judged(old(Now()), id, email, x, merge, missing, state, existing, overBudget, send, clock).1
    {
      var futile := state.ClarificationSent? && AnyUnusable(missing, x);
      if state.ClarificationSent? && !futile && NonAnswer(missing, merge, x) {
        r := TakeNonAnswer(id, email, x, merge, state, existing, overBudget, send, clock);
      } else {
        r := SettleTurn(id, email, x, merge, state, futile, overBudget, clock);
      }
    }

    method TakeNonAnswer(id: Id, email: RawEmail, x: Extraction, merge: MergeResult, state: RequestState,
                         existing: Option<QuotationRequest>, overBudget: bool, send: SendReply, clock: TurnClock)
        returns (r: Result<TurnOutcome, Trouble>)
      modifies this, store`requests
      ensures Now() == AnswersNothing(old(Now()), id, email, x, merge, state, existing, overBudget, send, clock).0
      ensures r == AnswersNothing(old(Now()), id, email, x, merge, state, existing, overBudget, send, clock).1
    {
      var followupAt := if existing.Some? then existing.value.followupAt else None;
      if followupAt.None? {
        r := RemindOnce(id, email, merge, x, send, clock);
      } else if clock.judge.at - followupAt.value >= FOLLOWUP_WINDOW {
        r := SettleTurn(id, email, x, merge, state, true, overBudget, clock);
      } else {
        var waiting := MakeWaiting(id, merge, x, clock);
        r := Returned(waiting);
      }
    }

    /** The rest of `handle`: advance, validate, decide, and save. */
    method SettleTurn(id: Id, email: RawEmail, x: Extraction, merge: MergeResult, state: RequestState,
                      futile: bool, overBudget: bool, clock: TurnClock)
        returns (r: Result<TurnOutcome, Trouble>)
      modifies this, store`requests
      ensures Now() == Settle(old(Now()), id, email, x, merge, state, futile, overBudget, clock).0
      ensures r == Settle(old(Now()), id, email, x, merge, state, futile, overBudget, clock).1
    {
      var issues := Validate(merge.record, Some(clock.validate.today));
      var analysis := IdentifyUnresolved(issues, x, merge.conflicts);
      var verdict := Decide(state, futile, overBudget, analysis);
      if verdict.Raised? {
        return Raised(verdict.error);
      }
      var outcome := StoreVerdict(id, email, merge, issues, analysis, verdict.value,
          Drafts(futile, overBudget, analysis));
      r := Returned(outcome);
    }

    /** Save what was decided; a question also empties the fields on which the client contradicted the record. */
    method StoreVerdict(id: Id, email: RawEmail, merge: MergeResult, issues: seq<Issue>, analysis: Analysis,
                        next: RequestState, drafts: bool)
        returns (t: TurnOutcome)
      requires drafts ==> analysis.NeedsClarification()
      modifies this, store`requests
      ensures (Now(), t) == Settled(old(Now()), id, email, merge, issues, analysis, next, drafts)
    {
      var clarification: Option<Message> := None;
      var saved := merge.record;
      if drafts {
        clarification := HoldDraft(id, analysis.unresolved, email.fromAddress, email.messageId);
        saved := Cleared(merge.record, clarification.value.unresolved);
      }
      KeepRequest(id, QuotationRequest(next, saved, email.fromAddress, None, None, []));
      t := TurnOutcome(next, merge.record, merge, issues, analysis, clarification, RoundsOf(rounds, id), false, false);
    }

    /** The moves of one turn: into EXTRACTED or straight to a person, and then on. */
    method Decide(
      state: RequestState, futile: bool, overBudget: bool, analysis: Analysis)
      returns (r: Result<RequestState, Trouble>)
      ensures r == Verdict(state, futile, overBudget, analysis)
    {
      r := Advance(state, if futile then ManualReview else Extracted);
      if r.Raised? || futile {
        return;
      }
      if analysis.IsStuck() || (overBudget && analysis.NeedsClarification()) {
        r := Advance(r.value, ManualReview);
      } else if !analysis.NeedsClarification() {
        r := Advance(r.value, Validated);
      } else {
        r := Advance(r.value, NeedsInfo);
      }
    }

    /** Write the message, hold it, and count the round. */
    method HoldDraft(
      id: Id, us: seq<UnresolvedField>, toAddress: string, inReplyTo: string) returns (message: Option<Message>)
      requires us != []
      modifies this`pending, this`rounds
      ensures message == Composed(us)
      ensures Now() == Hold(old(Now()), id, Draft(message.value, toAddress, inReplyTo))
    {
      message := ComposeClarification(us);
      pending := pending[id := Draft(message.value, toAddress, inReplyTo)];
      rounds := rounds[id := RoundsOf(rounds, id) + 1];
    }

    /** `request_location_clarification`. */
    method RequestLocationClarification(id: Id, places: seq<FieldName>, toAddress: string, inReplyTo: string)
        returns (r: Result<Option<Message>, Trouble>)
      modifies this, store`requests
      ensures Now() == AskAgain(old(Now()), maxRounds, id, PlaceQuestions(places), toAddress, inReplyTo).0
      ensures r == AskAgain(old(Now()), maxRounds, id, PlaceQuestions(places), toAddress, inReplyTo).1
    {
      r := AskLater(id, PlaceQuestions(places), toAddress, inReplyTo);
    }

    /** `request_ship_date_clarification`. */
    method RequestShipDateClarification(id: Id, toAddress: string, inReplyTo: string)
        returns (r: Result<Option<Message>, Trouble>)
      modifies this, store`requests
      ensures Now() == AskAgain(old(Now()), maxRounds, id, DATE_QUESTION, toAddress, inReplyTo).0
      ensures r == AskAgain(old(Now()), maxRounds, id, DATE_QUESTION, toAddress, inReplyTo).1
    {
      r := AskLater(id, DATE_QUESTION, toAddress, inReplyTo);
    }

    method AskLater(id: Id, us: seq<UnresolvedField>, toAddress: string, inReplyTo: string)
        returns (r: Result<Option<Message>, Trouble>)
      modifies this, store`requests
      ensures Now() == AskAgain(old(Now()), maxRounds, id, us, toAddress, inReplyTo).0
      ensures r == AskAgain(old(Now()), maxRounds, id, us, toAddress, inReplyTo).1
    {
      if id in pending {
        return Returned(Some(pending[id].message));
      }
      if us == [] {
        return Returned(None);
      }
      var found := store.GetRequest(id);
      if found.None? {
        return Raised(UnknownRequest);
      }
      var stored := found.value;
      if RoundsOf(rounds, id) >= maxRounds {
        var handed := Advance(stored.state, ManualReview);
        if handed.Raised? {
          return Raised(handed.error);
        }
        KeepRequest(id, stored.(state := handed.value));
        return Returned(None);
      }
      var asked := Advance(stored.state, NeedsInfo);
      if asked.Raised? {
        return Raised(asked.error);
      }
      KeepRequest(id, stored.(state := asked.value, record := Reopened(stored.record, us)));
      var message := HoldDraft(id, us, toAddress, inReplyTo);
      r := Returned(message);
    }

    /** `approve_clarification`: a refused send leaves the draft held. */
    method ApproveClarification(
      id: Id, approver: string, send: SendReply, at: int) returns (r: Result<Approved, Trouble>)
      modifies this, store`requests
      ensures Now() == Workflow.Approve(old(Now()), id, approver, send, at).0
      ensures r == Workflow.Approve(old(Now()), id, approver, send, at).1
    {
      if id !in pending {
        return Raised(NoDraftHeld);
      }
      var held := pending[id];
      var found := store.GetRequest(id);
      if found.None? {
        return Raised(UnknownRequest);
      }
      var stored := found.value;
      if send.Refused? {
        return Raised(SendFailed(send.permanent));
      }
      outbox := outbox + [Clarification(id, held.toAddress, held.inReplyTo, held.message)];
      pending := pending - {id};
      var advanced := Advance(stored.state, ClarificationSent);
      if advanced.Raised? {
        return Raised(advanced.error);
      }
      KeepRequest(id, stored.(state := advanced.value, askedAbout := AskedFields(held.message.unresolved)));
      r := Returned(Approved(approver, at));
    }

    /** `sweep_followup_deadlines`: reads the stored requests once and hands over the lapsed ones. */
    method SweepFollowupDeadlines(now: int) returns (escalated: set<Id>)
      modifies store`requests
      ensures Now() == Sweep(old(Now()), now)
      ensures escalated == LapsedIds(old(store.requests), now)
    {
      ghost var before := Now();
      var all := store.requests;
      var todo := all.Keys;
      escalated := {};
      while todo != {}
        invariant todo <= all.Keys && Now() == before.(requests := store.requests)
        invariant SweptBut(all, todo, now, store.requests, escalated)
        decreases |todo|
      {
        var id :| id in todo;
        SweptOneMore(all, todo, now, store.requests, escalated, id);
        var handed := SweepRequest(id, all[id], now);
        todo := todo - {id};
        escalated := escalated + if handed then {id} else {};
      }
      SweptAll(before, now, store.requests, escalated);
    }

    /** One request of the sweep. */
    method SweepRequest(id: Id, q: QuotationRequest, now: int) returns (handed: bool)
      modifies store`requests
      ensures handed == Lapsed(q, now)
      ensures store.requests == if handed then old(store.requests)[id := q.(state := ManualReview)]
              else old(store.requests)
    {
      handed := Lapsed(q, now);
      if handed {
        var advanced := Advance(q.state, ManualReview);
        assert advanced.Returned?;
        store.SaveRequest(id, q.(state := advanced.value));
      }
    }
  }

  /** All but the requests in `todo` have been swept, and these were handed over. */
  ghost predicate SweptBut(all: map<Id, QuotationRequest>, todo: set<Id>, now: int, requests: map<Id, QuotationRequest>,
                           escalated: set<Id>) {
    && requests.Keys == all.Keys
    && (forall id :: id in all ==> requests[id] == if id in todo then all[id] else Swept(all[id], now).value)
    && (forall id :: id in escalated <==> id in all && id !in todo && Lapsed(all[id], now))
  }

  lemma SweptOneMore(all: map<Id, QuotationRequest>, todo: set<Id>, now: int, requests: map<Id, QuotationRequest>,
                     escalated: set<Id>, id: Id)
    requires id in all && id in todo && SweptBut(all, todo, now, requests, escalated)
    ensures if Lapsed(all[id], now)
            then SweptBut(all, todo - {id}, now, requests[id := all[id].(state := ManualReview)], escalated + {id})
            else SweptBut(all, todo - {id}, now, requests, escalated + {})
  {
  }

  lemma SweptAll(d: Desk, now: int, requests: map<Id, QuotationRequest>, escalated: set<Id>)
    requires SweptBut(d.requests, {}, now, requests, escalated)
    ensures d.(requests := requests) == Sweep(d, now) && escalated == LapsedIds(d.requests, now)
  {
  }
}
