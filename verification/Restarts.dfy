/** The promises of the workflow and of the router across restarts: over every run of the whole system from
    nothing, with commits that fail or lose their replies and processes that die at any point. */
module Restarts {
  import opened Prelude
  import opened Shipment
  import opened Validation
  import opened Clarification
  import opened States
  import opened Workflow
  import opened WorkflowTheorems
  import opened WorkflowRuns
  import opened Routing
  import opened Durable
  import Calendar

  // ----- where stored requests come from ------------------------------------

  /** A request in memory or on disk after a commit was in one of them before, or in the scratch store. */
  ghost predicate FromBefore(requests: map<Id, QuotationRequest>, c: Copies, source: Kept) {
    forall id :: id in requests ==>
      || (id in c.disk.requests && requests[id] == c.disk.requests[id])
      || (id in c.cache.requests && requests[id] == c.cache.requests[id])
      || (id in source.requests && requests[id] == source.requests[id])
  }

  lemma RequestsOfACommit(c: Copies, redis: bool, source: Kept, id: Id, first: Reply, second: Reply)
    ensures var after := CommittedRequest(c, redis, source, id, first, second).0;
            FromBefore(after.disk.requests, c, source) && FromBefore(after.cache.requests, c, source)
    ensures var after := CommittedThread(c, redis, source, id, first).0;
            FromBefore(after.disk.requests, c, source) && FromBefore(after.cache.requests, c, source)
  {
  }

  lemma RequestsOfAStep(s: System, redis: bool, maxRounds: int, e: SystemEvent)
    ensures var after := SystemStep(s, redis, maxRounds, e).copies;
            && FromBefore(after.disk.requests, s.copies, Working(s.office))
            && FromBefore(after.cache.requests, s.copies, Working(s.office))
  {
    match e
    case CommitBoth(id, first, second) => RequestsOfACommit(s.copies, redis, Working(s.office), id, first, second);
    case CommitSeen(id, reply) => RequestsOfACommit(s.copies, redis, Working(s.office), id, reply, reply);
    case _ =>
  }

  // ----- what is stored stays sane, for good ---------------------------------

  ghost predicate SaneSystem(s: System) {
    AllFit(s.office.desk) && SaneStore(s.copies.disk.requests) && SaneStore(s.copies.cache.requests)
  }

  lemma FitDesksHoldSaneRequests(d: Desk)
    requires AllFit(d)
    ensures SaneStore(d.requests)
  {
    forall id | id in d.requests ensures Sane(d.requests[id]) {
      assert Fit(ViewOf(d, id));
    }
  }

  lemma SaneStoresOpenFit(requests: map<Id, QuotationRequest>)
    requires SaneStore(requests)
    ensures AllFit(NewDesk(requests))
  {
  }

  lemma AnOfficeStepKeepsFit(o: Office, maxRounds: int, e: OfficeEvent)
    requires AllFit(o.desk)
    ensures AllFit(OfficeStep(o, maxRounds, e).desk)
  {
    RouteStepsTheDesk(o, maxRounds, e);
    if DeskEvent(o.threads, e) != [] {
      StepKeepsFit(o.desk, maxRounds, DeskEvent(o.threads, e)[0]);
    }
  }

  lemma StepKeepsSane(s: System, redis: bool, maxRounds: int, e: SystemEvent)
    requires SaneSystem(s)
    ensures SaneSystem(SystemStep(s, redis, maxRounds, e))
  {
    RequestsOfAStep(s, redis, maxRounds, e);
    FitDesksHoldSaneRequests(s.office.desk);
    if e.Worked? {
      AnOfficeStepKeepsFit(s.office, maxRounds, e.e);
    } else if e.Restart? {
      SaneStoresOpenFit(Seeded(s.copies.disk).requests);
    }
  }

  /** In every state the system can reach, every request in the scratch store, in memory and on disk is sane. */
  lemma {:induction false} RunIsSane(redis: bool, maxRounds: int, events: seq<SystemEvent>)
    ensures SaneSystem(SystemRun(redis, maxRounds, events))
  {
    if events == [] {
      SaneStoresOpenFit(map[]);
    } else {
      RunIsSane(redis, maxRounds, events[..|events| - 1]);
      StepKeepsSane(SystemRun(redis, maxRounds, events[..|events| - 1]), redis, maxRounds, events[|events| - 1]);
    }
  }

  // ----- every process is a run of the office --------------------------------

  /** The office as the current process opened it. */
  ghost function ProcessStart(redis: bool, maxRounds: int, events: seq<SystemEvent>): Office {
    if events == [] then FRESH.office
    else if events[|events| - 1].Restart?
        then OfficeFrom(SystemRun(redis, maxRounds, events[..|events| - 1]).copies.disk)
    else ProcessStart(redis, maxRounds, events[..|events| - 1])
  }

  /** What the office has done since. */
  ghost function ProcessEvents(events: seq<SystemEvent>): seq<OfficeEvent> {
    if events == [] then []
    else
      match events[|events| - 1]
      case Restart => []
      case Worked(w) => ProcessEvents(events[..|events| - 1]) + [w]
      case _ => ProcessEvents(events[..|events| - 1])
  }

  lemma {:induction false} ProcessesOpenSoundly(redis: bool, maxRounds: int, events: seq<SystemEvent>)
    ensures var start := ProcessStart(redis, maxRounds, events);
            && start.desk == NewDesk(start.desk.requests) && SaneStore(start.desk.requests)
            && OneOwner(start.threads) && Threaded(start.desk.requests, start.threads)
  {
    if events == [] {
    } else if events[|events| - 1].Restart? {
      var s := SystemRun(redis, maxRounds, events[..|events| - 1]);
      RunIsSane(redis, maxRounds, events[..|events| - 1]);
      RunIsSound(redis, maxRounds, events[..|events| - 1]);
      RestartingKeepsSound(s, redis, maxRounds);
    } else {
      ProcessesOpenSoundly(redis, maxRounds, events[..|events| - 1]);
    }
  }

  lemma OneMoreOfficeEvent(start: Office, maxRounds: int, events: seq<OfficeEvent>, e: OfficeEvent)
    ensures OfficeRun(start, maxRounds, events + [e]) == OfficeStep(OfficeRun(start, maxRounds, events), maxRounds, e)
  {
    assert (events + [e])[..|events|] == events;
  }

  /** Between restarts the office is a run of one workflow instance from a store of sane requests, so all that is
      proved of such runs holds in every process. */
  lemma {:induction false} EveryProcessIsARun(redis: bool, maxRounds: int, events: seq<SystemEvent>)
    ensures SystemRun(redis, maxRounds, events).office
            == OfficeRun(ProcessStart(redis, maxRounds, events), maxRounds, ProcessEvents(events))
  {
    if events == [] {
    } else {
      var init := events[..|events| - 1];
      EveryProcessIsARun(redis, maxRounds, init);
      match events[|events| - 1]
      case Worked(w) => OneMoreOfficeEvent(ProcessStart(redis, maxRounds, init), maxRounds, ProcessEvents(init), w);
      case _ =>
    }
  }

  /** The desk of the current process, as a run of the workflow. */
  lemma TheDeskIsARun(redis: bool, maxRounds: int, events: seq<SystemEvent>)
    ensures var start := ProcessStart(redis, maxRounds, events);
            && SaneStore(start.desk.requests)
            && SystemRun(redis, maxRounds, events).office.desk
               == Run(start.desk.requests, maxRounds, DeskEvents(start, maxRounds, ProcessEvents(events)))
  {
    ProcessesOpenSoundly(redis, maxRounds, events);
    EveryProcessIsARun(redis, maxRounds, events);
    OfficeRunsTheWorkflow(ProcessStart(redis, maxRounds, events), maxRounds, ProcessEvents(events));
  }

  /** The mail of the current process: its own budget, and one more reminder for a question it found waiting. */
  lemma MailOfAProcessIsBounded(redis: bool, maxRounds: int, events: seq<SystemEvent>, id: Id)
    ensures var o := SystemRun(redis, maxRounds, events).office.desk.outbox;
            var credit := Credit(Lookup(ProcessStart(redis, maxRounds, events).desk.requests, id));
            && Sent(o, id, ClarificationMail) <= Budget(maxRounds)
            && Sent(o, id, ReminderMail) <= Sent(o, id, ClarificationMail) + credit
            && Sent(o, id, NoticeMail) <= 1
  {
    var start := ProcessStart(redis, maxRounds, events);
    TheDeskIsARun(redis, maxRounds, events);
    MailIsBounded(start.desk.requests, maxRounds, DeskEvents(start, maxRounds, ProcessEvents(events)), id);
  }

  // ----- steps of the workflow, in any process --------------------------------

  /** In every reachable state a step of the workflow sends at most one mail, and only as it may; moves states
      along the table; and replaces no value. */
  lemma EveryStepKeepsThePromises(redis: bool, maxRounds: int, events: seq<SystemEvent>, e: Event, id: Id, f: FieldName)
    ensures var d := SystemRun(redis, maxRounds, events).office.desk; var after := Step(d, maxRounds, e);
            && MailOfStep(d, after, e)
            && FollowsTheTable(ViewOf(d, id), ViewOf(after, id), e)
            && FieldMoves(ViewOf(d, id), ViewOf(after, id), e, !e.Deadline? && e.id == id, f)
  {
    var d := SystemRun(redis, maxRounds, events).office.desk;
    RunIsSane(redis, maxRounds, events);
    OnlyApprovalsSendClarifications(d, maxRounds, e);
    StoredStatesFollowTheTable(d, maxRounds, e, id);
    ValuesAreNeverReplaced(d, maxRounds, e, id, f);
  }

  /** In every reachable state, a message that its request can take ends at VALIDATED if and only if nothing is
      open, and the stored record is the merged one. */
  lemma ValidatedIffNothingIsOpenEver(redis: bool, maxRounds: int, events: seq<SystemEvent>, e: Event)
    requires e.Inbound? && e.model.Understood?
    requires var d := SystemRun(redis, maxRounds, events).office.desk;
             e.id in d.requests ==> d.requests[e.id].state == ClarificationSent
    ensures var d := SystemRun(redis, maxRounds, events).office.desk;
            var merge := MergeBy(Lookup(d.requests, e.id), e.model.x, e.clock);
            var s := Handle(d, maxRounds, e.id, e.email, e.model, e.send, e.clock);
            && (s.1.Returned? && s.1.value.state == Validated
                <==> merge.conflicts == [] && Validate(merge.record, Some(e.clock.validate.today)) == [])
            && (s.1.Returned? && s.1.value.state == Validated ==>
                  e.id in s.0.requests && s.0.requests[e.id].state == Validated
                      && s.0.requests[e.id].record == merge.record)
  {
    RunIsSane(redis, maxRounds, events);
    FitDesksHoldSaneRequests(SystemRun(redis, maxRounds, events).office.desk);
    ValidatedIffNothingIsOpen(SystemRun(redis, maxRounds, events).office.desk, maxRounds, e);
  }

  /** Wherever a request past VALIDATED is kept, in whichever process, its record passes every date-independent
      rule, and none of the rate query's guards can fire on it. */
  lemma ValidatedRecordsStayValidEverywhere(
    redis: bool, maxRounds: int, events: seq<SystemEvent>, q: QuotationRequest, id: Id)
    requires var s := SystemRun(redis, maxRounds, events);
             Lookup(s.office.desk.requests, id) == Some(q) || Lookup(s.copies.disk.requests, id) == Some(q)
    requires PastValidation(q.state)
    ensures Validate(q.record, None) == [] && QueryGuardsPass(q.record)
  {
    RunIsSane(redis, maxRounds, events);
    FitDesksHoldSaneRequests(SystemRun(redis, maxRounds, events).office.desk);
    ValidShipmentsPassTheQueryGuards(q.record);
  }

  // ----- routing, in any process ------------------------------------------------

  /** In every reachable state a reply to a recorded message lands on that message's request, and only a References
      chain over two requests is ever refused. */
  lemma PlacementAcrossRestarts(redis: bool, maxRounds: int, events: seq<SystemEvent>, email: RawEmail)
    ensures var threads := SystemRun(redis, maxRounds, events).office.threads;
            && (Correlate(email, threads).AmbiguousCorrelation?
                <==> |OwnersOf(email.references, threads)| > 1 && !AnswersARecord(email, threads))
            && (forall id ::
                  id in threads && email.inReplyTo.Some? && email.inReplyTo.value != ""
                  && email.inReplyTo.value in threads[id] ==>
                    Correlate(email, threads) == Existing(id))
  {
    var threads := SystemRun(redis, maxRounds, events).office.threads;
    RunIsSound(redis, maxRounds, events);
    RefusedOnlyForItsReferences(threads, email);
    forall id | id in threads && email.inReplyTo.Some? && email.inReplyTo.value != ""
        && email.inReplyTo.value in threads[id]
      ensures Correlate(email, threads) == Existing(id)
    {
      ARepliedToRequestGetsTheReply(threads, id, email);
    }
  }

  /** In every reachable state a delivery that raises or is refused changes nothing, any other is processed from
      then on, and it touches no request but the one it is placed on. */
  lemma DeliveriesAcrossRestarts(redis: bool, maxRounds: int, events: seq<SystemEvent>, v: Delivery)
    requires !AlreadyProcessed(SystemRun(redis, maxRounds, events).office.threads, v.email.messageId)
    ensures var o := SystemRun(redis, maxRounds, events).office;
            var r := Route(o, maxRounds, v); var id := PlacedOn(v, o.threads);
            && (r.1.Raised? || r.1.value == REFUSED ==> r.0 == o)
            && (AlreadyProcessed(r.0.threads, v.email.messageId) <==> r.1.Returned? && r.1.value != REFUSED)
            && OnlyTouches(o.desk, r.0.desk, id)
  {
    var o := SystemRun(redis, maxRounds, events).office;
    RunIsSane(redis, maxRounds, events);
    FitDesksHoldSaneRequests(o.desk);
    ARaisedDeliveryIsAFreshAttempt(o, maxRounds, v);
    RoutingTouchesOneRequest(o, maxRounds, v);
  }

  // ----- what backs a stored request ----------------------------------------------

  /** Some message of the run, handled for this request, stated `v` for `f`. */
  ghost predicate StatedInSystem(
    redis: bool, maxRounds: int, events: seq<SystemEvent>, id: Id, f: FieldName, v: Value) {
    exists i :: 0 <= i < |events| && StatedAt(redis, maxRounds, events, i, id, f, v)
  }

  ghost predicate StatedAt(
    redis: bool, maxRounds: int, events: seq<SystemEvent>, i: nat, id: Id, f: FieldName, v: Value)
    requires i < |events|
  {
    events[i].Worked? &&
    var handled := DeskEvent(SystemRun(redis, maxRounds, events[..i]).office.threads, events[i].e);
    && handled != [] && handled[0].Inbound? && handled[0].id == id
    && f in IncomingOf(handled[0]) && IncomingOf(handled[0])[f] == v
  }

  /** Some step of the run sent this request a clarification that asked about these fields. */
  ghost predicate AskedInSystem(redis: bool, maxRounds: int, events: seq<SystemEvent>, id: Id, asked: seq<FieldName>) {
    exists i :: 0 <= i < |events| && AskedAt(redis, maxRounds, events, i, id, asked)
  }

  ghost predicate AskedAt(redis: bool, maxRounds: int, events: seq<SystemEvent>, i: nat, id: Id, asked: seq<FieldName>)
    requires i < |events|
  {
    var s := SystemRun(redis, maxRounds, events[..i]);
    MailsTheDraft(s.office.desk, SystemStep(s, redis, maxRounds, events[i]).office.desk, id, asked)
  }

  /** The held draft of the request is mailed, and it asks about these fields. */
  ghost predicate MailsTheDraft(d: Desk, d': Desk, id: Id, asked: seq<FieldName>) {
    && id in d.pending && asked == AskedFields(d.pending[id].message.unresolved)
    && d'.outbox == d.outbox + [Clarification(id, d.pending[id].toAddress, d.pending[id].inReplyTo,
       d.pending[id].message)]
  }

  /** Every value was stated, and a request waiting for an answer shows what it was asked. */
  ghost predicate Backed(redis: bool, maxRounds: int, events: seq<SystemEvent>, id: Id, q: QuotationRequest) {
    && (forall f :: f in q.record ==> StatedInSystem(redis, maxRounds, events, id, f, q.record[f]))
    && (Unreminded(q) ==> AskedInSystem(redis, maxRounds, events, id, q.askedAbout))
  }

  ghost predicate AllBacked(
    redis: bool, maxRounds: int, events: seq<SystemEvent>, requests: map<Id, QuotationRequest>) {
    forall id :: id in requests ==> Backed(redis, maxRounds, events, id, requests[id])
  }

  lemma BackedEarlierIsBacked(
    redis: bool, maxRounds: int, events: seq<SystemEvent>, e: SystemEvent, id: Id, q: QuotationRequest)
    requires Backed(redis, maxRounds, events, id, q)
    ensures Backed(redis, maxRounds, events + [e], id, q)
  {
    var all := events + [e];
    assert forall i :: 0 <= i < |events| ==> all[i] == events[i] && all[..i] == events[..i];
    forall f | f in q.record ensures StatedInSystem(redis, maxRounds, all, id, f, q.record[f]) {
      var i :| 0 <= i < |events| && StatedAt(redis, maxRounds, events, i, id, f, q.record[f]);
      assert StatedAt(redis, maxRounds, all, i, id, f, q.record[f]);
    }
    if Unreminded(q) {
      var i :| 0 <= i < |events| && AskedAt(redis, maxRounds, events, i, id, q.askedAbout);
      assert AskedAt(redis, maxRounds, all, i, id, q.askedAbout);
    }
  }

  /** A request that waits after a step waited before it, unchanged, or was sent its question in it. */
  lemma WaitingAfterAStep(d: Desk, maxRounds: int, e: Event, id: Id)
    requires AllFit(d) && id in Step(d, maxRounds, e).requests && Unreminded(Step(d, maxRounds, e).requests[id])
    ensures var after := Step(d, maxRounds, e);
            Lookup(d.requests, id) == Some(after.requests[id])
                || MailsTheDraft(d, after, id, after.requests[id].askedAbout)
  {
    if !e.Deadline? {
      var eff := TheEffect(d, maxRounds, e);
      if id == e.id {
        if !eff.Unchanged? {
          WaitingAfterAnEffect(ViewOf(d, id), maxRounds, e, eff);
        }
      } else {
        assert ViewOf(Step(d, maxRounds, e), id) == ViewOf(d, id);
      }
    }
  }

  lemma WaitingAfterAnEffect(v: View, maxRounds: int, e: Event, eff: Effect)
    requires Fit(v) && May(v, maxRounds, e, eff) && !eff.Unchanged? && Unreminded(eff.saved)
    ensures eff.Released?
  {
  }

  lemma AllBackedEarlierIsBacked(
    redis: bool, maxRounds: int, events: seq<SystemEvent>, e: SystemEvent, requests: map<Id, QuotationRequest>)
    requires AllBacked(redis, maxRounds, events, requests)
    ensures AllBacked(redis, maxRounds, events + [e], requests)
  {
    forall id | id in requests ensures Backed(redis, maxRounds, events + [e], id, requests[id]) {
      BackedEarlierIsBacked(redis, maxRounds, events, e, id, requests[id]);
    }
  }

  /** A step of the workflow on a desk whose requests are backed already. */
  lemma AHandledEventIsBacked(
    redis: bool, maxRounds: int, all: seq<SystemEvent>, n: nat, d: Desk, h: Event, id: Id, q: QuotationRequest)
    requires n < |all| && d == SystemRun(redis, maxRounds, all[..n]).office.desk && AllFit(d)
    requires all[n].Worked? && DeskEvent(SystemRun(redis, maxRounds, all[..n]).office.threads, all[n].e) == [h]
    requires AllBacked(redis, maxRounds, all, d.requests) && Lookup(Step(d, maxRounds, h).requests, id) == Some(q)
    ensures Backed(redis, maxRounds, all, id, q)
  {
    forall f | f in q.record ensures StatedInSystem(redis, maxRounds, all, id, f, q.record[f]) {
      ValuesAreNeverReplaced(d, maxRounds, h, id, f);
      if id in d.requests && f in d.requests[id].record {
        assert Backed(redis, maxRounds, all, id, d.requests[id]);
      } else {
        assert StatedAt(redis, maxRounds, all, n, id, f, q.record[f]);
      }
    }
    if Unreminded(q) {
      WaitingAfterAStep(d, maxRounds, h, id);
      if Lookup(d.requests, id) == Some(q) {
        assert Backed(redis, maxRounds, all, id, d.requests[id]);
      } else {
        TheDraftIsMailedAt(redis, maxRounds, all, n, h, id, q.askedAbout);
      }
    }
  }

  lemma TheDraftIsMailedAt(
    redis: bool, maxRounds: int, all: seq<SystemEvent>, n: nat, h: Event, id: Id, asked: seq<FieldName>)
    requires n < |all| && all[n].Worked?
    requires var o := SystemRun(redis, maxRounds, all[..n]).office;
             DeskEvent(o.threads, all[n].e) == [h] && MailsTheDraft(o.desk, Step(o.desk, maxRounds, h), id, asked)
    ensures AskedInSystem(redis, maxRounds, all, id, asked)
  {
    RouteStepsTheDesk(SystemRun(redis, maxRounds, all[..n]).office, maxRounds, all[n].e);
    assert AskedAt(redis, maxRounds, all, n, id, asked);
  }

  lemma AWorkingStepIsBacked(redis: bool, maxRounds: int, events: seq<SystemEvent>, w: OfficeEvent)
    requires AllBacked(redis, maxRounds, events, SystemRun(redis, maxRounds, events).office.desk.requests)
    ensures AllBacked(redis, maxRounds, events + [Worked(w)],
            OfficeStep(SystemRun(redis, maxRounds, events).office, maxRounds, w).desk.requests)
  {
    var o := SystemRun(redis, maxRounds, events).office;
    var all := events + [Worked(w)];
    assert all[..|events|] == events;
    RunIsSane(redis, maxRounds, events);
    RouteStepsTheDesk(o, maxRounds, w);
    AllBackedEarlierIsBacked(redis, maxRounds, events, Worked(w), o.desk.requests);
    var handled := DeskEvent(o.threads, w);
    if handled != [] {
      var after := Step(o.desk, maxRounds, handled[0]);
      forall id | id in after.requests ensures Backed(redis, maxRounds, all, id, after.requests[id]) {
        AHandledEventIsBacked(redis, maxRounds, all, |events|, o.desk, handled[0], id, after.requests[id]);
      }
    }
  }

  /** Across any restarts and failed commits: every value in every record, in the scratch store, in memory or on
      disk, was stated by some message of that request; and a request that waits for an answer shows the model
      the fields of a clarification that was sent to it. */
  lemma {:induction false} EveryRequestIsBacked(redis: bool, maxRounds: int, events: seq<SystemEvent>)
    ensures var s := SystemRun(redis, maxRounds, events);
            && AllBacked(redis, maxRounds, events, s.office.desk.requests)
            && AllBacked(redis, maxRounds, events, s.copies.disk.requests)
            && AllBacked(redis, maxRounds, events, s.copies.cache.requests)
  {
    if events == [] {
    } else {
      var init, e := events[..|events| - 1], events[|events| - 1];
      EveryRequestIsBacked(redis, maxRounds, init);
      assert events == init + [e];
      AStepIsBacked(redis, maxRounds, init, e);
    }
  }

  lemma FromBeforeIsBacked(
    redis: bool, maxRounds: int, all: seq<SystemEvent>, requests: map<Id, QuotationRequest>, c: Copies, source: Kept)
    requires FromBefore(requests, c, source)
    requires AllBacked(redis, maxRounds, all, c.disk.requests) && AllBacked(redis, maxRounds, all, c.cache.requests)
    requires AllBacked(redis, maxRounds, all, source.requests)
    ensures AllBacked(redis, maxRounds, all, requests)
  {
  }

  lemma AStepIsBacked(redis: bool, maxRounds: int, events: seq<SystemEvent>, e: SystemEvent)
    requires var s := SystemRun(redis, maxRounds, events);
             && AllBacked(redis, maxRounds, events, s.office.desk.requests)
             && AllBacked(redis, maxRounds, events, s.copies.disk.requests)
             && AllBacked(redis, maxRounds, events, s.copies.cache.requests)
    ensures var s := SystemStep(SystemRun(redis, maxRounds, events), redis, maxRounds, e);
            && AllBacked(redis, maxRounds, events + [e], s.office.desk.requests)
            && AllBacked(redis, maxRounds, events + [e], s.copies.disk.requests)
            && AllBacked(redis, maxRounds, events + [e], s.copies.cache.requests)
  {
    var s, all := SystemRun(redis, maxRounds, events), events + [e];
    var after := SystemStep(s, redis, maxRounds, e);
    RequestsOfAStep(s, redis, maxRounds, e);
    AllBackedEarlierIsBacked(redis, maxRounds, events, e, s.office.desk.requests);
    AllBackedEarlierIsBacked(redis, maxRounds, events, e, s.copies.disk.requests);
    AllBackedEarlierIsBacked(redis, maxRounds, events, e, s.copies.cache.requests);
    FromBeforeIsBacked(redis, maxRounds, all, after.copies.disk.requests, s.copies, Working(s.office));
    FromBeforeIsBacked(redis, maxRounds, all, after.copies.cache.requests, s.copies, Working(s.office));
    if e.Worked? {
      AWorkingStepIsBacked(redis, maxRounds, events, e.e);
    } else if e.Restart? {
      FromBeforeIsBacked(redis, maxRounds, all, after.office.desk.requests, s.copies, Working(s.office));
    }
  }

  // ----- drafts and restarts ------------------------------------------------------

  /** At NEEDS_INFO with nothing to approve. */
  predicate Stranded(d: Desk, id: Id) {
    id in d.requests && d.requests[id].state == NeedsInfo && id !in d.pending
  }

  ghost predicate AnyStranded(d: Desk) {
    exists id :: Stranded(d, id)
  }

  predicate HoldsNeedsInfo(requests: map<Id, QuotationRequest>) {
    exists id :: id in requests && requests[id].state == NeedsInfo
  }

  /** The step commits a request that is at NEEDS_INFO, and the store keeps it. */
  predicate CommitsADraft(s: System, redis: bool, e: SystemEvent) {
    && e.CommitBoth? && (redis ==> !e.first.NotApplied?)
    && e.id in s.office.desk.requests && s.office.desk.requests[e.id].state == NeedsInfo
  }

  ghost predicate NoDraftCommitted(redis: bool, maxRounds: int, events: seq<SystemEvent>) {
    forall i :: 0 <= i < |events| ==> !CommitsADraft(SystemRun(redis, maxRounds, events[..i]), redis, events[i])
  }

  lemma NoOperationStrands(d: Desk, maxRounds: int, e: Event, id: Id)
    requires AllFit(d) && Stranded(Step(d, maxRounds, e), id)
    ensures Stranded(d, id)
  {
    if !e.Deadline? {
      var eff := TheEffect(d, maxRounds, e);
      assert Fit(ViewOf(d, id));
      if id == e.id {
        NoEffectStrands(ViewOf(d, id), maxRounds, e, eff);
      } else {
        assert ViewOf(Step(d, maxRounds, e), id) == ViewOf(d, id);
      }
    }
  }

  lemma NoEffectStrands(v: View, maxRounds: int, e: Event, eff: Effect)
    requires Fit(v) && May(v, maxRounds, e, eff)
    requires var after := ApplyToView(v, eff);
             after.request.Some? && after.request.value.state == NeedsInfo && after.draft.None?
    ensures v.request.Some? && v.request.value.state == NeedsInfo && v.draft.None?
  {
  }

  /** Neither in memory nor on disk. */
  predicate KeepsNoDraft(c: Copies) {
    !HoldsNeedsInfo(c.disk.requests) && !HoldsNeedsInfo(c.cache.requests)
  }

  lemma ACommitOfNoDraft(c: Copies, redis: bool, source: Kept, id: Id, first: Reply, second: Reply)
    requires KeepsNoDraft(c)
    requires id in source.requests && source.requests[id].state == NeedsInfo ==> redis && first.NotApplied?
    ensures KeepsNoDraft(CommittedRequest(c, redis, source, id, first, second).0)
  {
  }

  lemma AStepCommitsNoDraft(s: System, redis: bool, maxRounds: int, e: SystemEvent)
    requires !CommitsADraft(s, redis, e) && KeepsNoDraft(s.copies)
    ensures KeepsNoDraft(SystemStep(s, redis, maxRounds, e).copies)
  {
    match e
    case CommitBoth(id, first, second) => ACommitOfNoDraft(s.copies, redis, Working(s.office), id, first, second);
    case _ =>
  }

  lemma NoDraftCommittedBefore(redis: bool, maxRounds: int, events: seq<SystemEvent>, n: nat)
    requires NoDraftCommitted(redis, maxRounds, events) && n <= |events|
    ensures NoDraftCommitted(redis, maxRounds, events[..n])
    ensures n < |events| ==> !CommitsADraft(SystemRun(redis, maxRounds, events[..n]), redis, events[n])
  {
    assert forall i :: 0 <= i < n ==> events[..n][..i] == events[..i] && events[..n][i] == events[i];
  }

  lemma {:induction false} NoneIsStranded(redis: bool, maxRounds: int, events: seq<SystemEvent>)
    requires NoDraftCommitted(redis, maxRounds, events)
    ensures !AnyStranded(SystemRun(redis, maxRounds, events).office.desk)
            && KeepsNoDraft(SystemRun(redis, maxRounds, events).copies)
  {
    if events == [] {
    } else {
      var init, e := events[..|events| - 1], events[|events| - 1];
      NoDraftCommittedBefore(redis, maxRounds, events, |events| - 1);
      NoneIsStranded(redis, maxRounds, init);
      AStepCommitsNoDraft(SystemRun(redis, maxRounds, init), redis, maxRounds, e);
      RunIsSane(redis, maxRounds, init);
      AStepStrandsNothing(SystemRun(redis, maxRounds, init), redis, maxRounds, e);
    }
  }

  /** In a run that never commits a request at NEEDS_INFO, a draft is held if and only if its request is there,
      whatever restarts: none is ever without its one way out. */
  lemma DraftsAreHeldIfNoneIsCommitted(redis: bool, maxRounds: int, events: seq<SystemEvent>, id: Id)
    requires NoDraftCommitted(redis, maxRounds, events)
    ensures var d := SystemRun(redis, maxRounds, events).office.desk;
            id in d.pending <==> id in d.requests && d.requests[id].state == NeedsInfo
  {
    NoneIsStranded(redis, maxRounds, events);
    RunIsSane(redis, maxRounds, events);
    var d := SystemRun(redis, maxRounds, events).office.desk;
    assert Fit(ViewOf(d, id)) && !Stranded(d, id);
  }

  lemma AStepStrandsNothing(s: System, redis: bool, maxRounds: int, e: SystemEvent)
    requires AllFit(s.office.desk) && !AnyStranded(s.office.desk) && !HoldsNeedsInfo(s.copies.disk.requests)
    ensures !AnyStranded(SystemStep(s, redis, maxRounds, e).office.desk)
  {
    var after := SystemStep(s, redis, maxRounds, e).office.desk;
    if e.Worked? {
      RouteStepsTheDesk(s.office, maxRounds, e.e);
      var handled := DeskEvent(s.office.threads, e.e);
      forall id ensures !Stranded(after, id) {
        if handled != [] && Stranded(after, id) {
          NoOperationStrands(s.office.desk, maxRounds, handled[0], id);
        }
      }
    }
  }

  /** What a restart strands is exactly what is on disk at NEEDS_INFO and has a thread there. */
  lemma WhatARestartStrands(redis: bool, maxRounds: int, events: seq<SystemEvent>, id: Id)
    ensures var disk := SystemRun(redis, maxRounds, events).copies.disk;
            Stranded(SystemRun(redis, maxRounds, events + [Restart]).office.desk, id)
            <==> id in disk.threads && id in disk.requests && disk.requests[id].state == NeedsInfo
  {
    RunOneMore(redis, maxRounds, events, Restart);
  }

  ghost predicate StrandsAt(maxRounds: int, events: seq<SystemEvent>, n: nat)
    requires n <= |events|
  {
    AnyStranded(SystemRun(true, maxRounds, events[..n] + [Restart]).office.desk)
  }

  lemma NothingStrandsAt(maxRounds: int, events: seq<SystemEvent>, n: nat)
    requires NoDraftCommitted(true, maxRounds, events) && n <= |events|
    ensures !StrandsAt(maxRounds, events, n)
  {
    NoDraftCommittedBefore(true, maxRounds, events, n);
    NoneIsStranded(true, maxRounds, events[..n]);
    RunIsSane(true, maxRounds, events[..n]);
    RunOneMore(true, maxRounds, events[..n], Restart);
    AStepStrandsNothing(SystemRun(true, maxRounds, events[..n]), true, maxRounds, Restart);
  }

  lemma ACommittedDraftStrandsAt(maxRounds: int, events: seq<SystemEvent>, i: nat)
    requires i < |events| && CommitsADraft(SystemRun(true, maxRounds, events[..i]), true, events[i])
    ensures StrandsAt(maxRounds, events, i + 1)
  {
    var e := events[i];
    assert events[..i + 1] == events[..i] + [e];
    RunIsSound(true, maxRounds, events[..i]);
    RunOneMore(true, maxRounds, events[..i], e);
    ACommitReachesTheDisk(SystemRun(true, maxRounds, events[..i]), maxRounds, e.id, e.first, e.second);
    WhatARestartStrands(true, maxRounds, events[..i + 1], e.id);
    assert Stranded(SystemRun(true, maxRounds, events[..i + 1] + [Restart]).office.desk, e.id);
  }

  /** On Redis a run can be cut by a restart at any point without stranding a request if and only if it never
      commits one at NEEDS_INFO. */
  lemma RestartsAreSafeIffNoDraftIsCommitted(maxRounds: int, events: seq<SystemEvent>)
    ensures (forall n :: 0 <= n <= |events| ==> !StrandsAt(maxRounds, events, n))
            <==> NoDraftCommitted(true, maxRounds, events)
  {
    if NoDraftCommitted(true, maxRounds, events) {
      forall n | 0 <= n <= |events| ensures !StrandsAt(maxRounds, events, n) {
        NothingStrandsAt(maxRounds, events, n);
      }
    } else {
      var i :| 0 <= i < |events| && CommitsADraft(SystemRun(true, maxRounds, events[..i]), true, events[i]);
      ACommittedDraftStrandsAt(maxRounds, events, i);
    }
  }

  /** An enquiry that states something, but no destination, is asked about it. */
  lemma ADestinationIsAsked(x: Extraction, clock: TurnClock)
    requires StatusOf(x, Destination).NotStated?
    ensures FirstAnalysis(ResolveShipDate(x, clock.resolve.today), clock.validate.today).NeedsClarification()
  {
    var r := ResolveShipDate(x, clock.resolve.today);
    ATurnAsksExactly(map[], r, clock.validate.today, Destination);
    MergeNeverReplaces(map[], ToExtractedFields(r));
    assert Asks(FirstAnalysis(r, clock.validate.today).unresolved, Destination);
  }

  lemma AnEnquiryArrives(v: Delivery, maxRounds: int)
    requires v.model.Understood? && AnyStated(v.model.x) && StatusOf(v.model.x, Destination).NotStated? && !v.automated
    ensures var o := OfficeStep(FRESH.office, maxRounds, Arrives(v));
            Asking(o.desk, v.newId) && v.newId in o.threads
  {
    ADestinationIsAsked(v.model.x, v.clock);
    AFirstMessageIsAlwaysAsked(FRESH.office.desk, maxRounds, Handled(v, v.newId));
    RouteStepsTheDesk(FRESH.office, maxRounds, Arrives(v));
    StepKeepsThreaded(FRESH.office, maxRounds, Arrives(v));
    assert DeskEvent(FRESH.office.threads, Arrives(v)) == [Handled(v, v.newId)];
  }

  lemma ADraftIsCommitted(c: Copies, o: Office, redis: bool, id: Id)
    requires id in o.desk.requests && o.desk.requests[id].state == NeedsInfo && id in o.threads
    ensures var disk := CommittedRequest(c, redis, Working(o), id, Applied, Applied).0.disk;
            id in disk.threads && id in disk.requests && disk.requests[id].state == NeedsInfo
  {
  }

  /** A run that strands: such an enquiry arrives, its request is committed before anyone approves the draft, and
      the process restarts. */
  lemma ACommittedDraftIsStranded(redis: bool, maxRounds: int, v: Delivery)
    requires v.model.Understood? && AnyStated(v.model.x) && StatusOf(v.model.x, Destination).NotStated? && !v.automated
    ensures Stranded(SystemRun(redis, maxRounds,
            [Worked(Arrives(v)), CommitBoth(v.newId, Applied, Applied)] + [Restart]).office.desk, v.newId)
  {
    var e, commit := Worked(Arrives(v)), CommitBoth(v.newId, Applied, Applied);
    assert [] + [e] == [e] && [e] + [commit] == [e, commit];
    RunOneMore(redis, maxRounds, [], e);
    RunOneMore(redis, maxRounds, [e], commit);
    AnEnquiryArrives(v, maxRounds);
    ADraftIsCommitted(Copies(NOTHING, NOTHING), OfficeStep(FRESH.office, maxRounds, Arrives(v)), redis, v.newId);
    WhatARestartStrands(redis, maxRounds, [e, commit], v.newId);
  }

  // ----- a question about the date, committed by accident ---------------------------

  /** The enquiry states all that is needed. */
  ghost predicate Complete(v: Delivery) {
    v.model.Understood? && Validate(MergeBy(None, v.model.x, v.clock).record, Some(v.clock.validate.today)) == []
  }

  lemma ACompleteEnquiryIsValidated(v: Delivery, maxRounds: int)
    requires Complete(v) && !v.automated
    ensures var o := OfficeStep(FRESH.office, maxRounds, Arrives(v));
            && v.newId in o.desk.requests && o.desk.requests[v.newId].state == Validated && v.newId in o.threads
            && o.desk.rounds == map[] && o.desk.pending == map[]
  {
    var e := Handled(v, v.newId);
    assert DeskEvent(FRESH.office.threads, Arrives(v)) == [e];
    RouteStepsTheDesk(FRESH.office, maxRounds, Arrives(v));
    StepKeepsThreaded(FRESH.office, maxRounds, Arrives(v));
    assert FRESH.office.desk.requests == map[];
    NothingStoredConflictsWithNothing(v);
    var eff := EffectOfMessage(FRESH.office.desk, maxRounds, e);
  }

  lemma NothingStoredConflictsWithNothing(v: Delivery)
    requires v.model.Understood?
    ensures MergeBy(None, v.model.x, v.clock).conflicts == []
  {
    var stated := ToExtractedFields(ResolveShipDate(v.model.x, v.clock.resolve.today));
    var merge := Merge(map[], stated);
    if merge.conflicts != [] {
      var c := merge.conflicts[0];
      assert c in merge.conflicts && c.field in FieldsOf(merge.conflicts);
      MergeReportsEveryStatedField(map[], stated, c.field);
    }
  }

  lemma AskingForTheDateReopens(o: Office, maxRounds: int, id: Id, to: string, ref: string)
    requires id in o.desk.requests && o.desk.requests[id].state == Validated && id in o.threads
    requires id !in o.desk.pending && RoundsOf(o.desk.rounds, id) < maxRounds
    ensures var after := OfficeStep(o, maxRounds, Works(AskShipDate(id, to, ref)));
            && id in after.desk.requests && after.desk.requests[id].state == NeedsInfo && id in after.threads
  {
    assert CanTransition(Validated, NeedsInfo);
  }

  /** What has been done when a person picks a goods type for a request whose date passed while it was held for that:
      it arrived complete and was committed, the date was asked for, and the pick committed it again. */
  function PickedAfterTheDatePassed(v: Delivery, to: string, ref: string): seq<SystemEvent> {
    [Worked(Arrives(v))] + [CommitBoth(v.newId, Applied, Applied)] + [Worked(Works(AskShipDate(v.newId, to, ref)))]
    + [CommitBoth(v.newId, Applied, Applied)]
  }

  lemma RunOfThree(redis: bool, maxRounds: int, a: SystemEvent, b: SystemEvent, c: SystemEvent)
    ensures SystemRun(redis, maxRounds, [a] + [b] + [c])
            == SystemStep(SystemStep(SystemStep(FRESH, redis, maxRounds, a), redis, maxRounds, b), redis, maxRounds, c)
  {
    assert [] + [a] == [a];
    RunOneMore(redis, maxRounds, [], a);
    RunOneMore(redis, maxRounds, [a], b);
    RunOneMore(redis, maxRounds, [a] + [b], c);
  }

  lemma TheDateIsAskedFor(redis: bool, maxRounds: int, v: Delivery, to: string, ref: string)
    requires Complete(v) && !v.automated && maxRounds > 0
    ensures var arrived := SystemStep(FRESH, redis, maxRounds, Worked(Arrives(v)));
            var committed := SystemStep(arrived, redis, maxRounds, CommitBoth(v.newId, Applied, Applied));
            var o := SystemStep(committed, redis, maxRounds, Worked(Works(AskShipDate(v.newId, to, ref)))).office;
            && v.newId in committed.office.desk.requests && committed.office.desk.requests[v.newId].state == Validated
            && v.newId in o.desk.requests && o.desk.requests[v.newId].state == NeedsInfo && v.newId in o.threads
  {
    var o := OfficeStep(FRESH.office, maxRounds, Arrives(v));
    var arrived := SystemStep(FRESH, redis, maxRounds, Worked(Arrives(v)));
    assert arrived.office == o;
    assert SystemStep(arrived, redis, maxRounds, CommitBoth(v.newId, Applied, Applied)).office == o;
    ACompleteEnquiryIsValidated(v, maxRounds);
    AskingForTheDateReopens(o, maxRounds, v.newId, to, ref);
  }

  /** The run that the code can make: that second commit is of a request at NEEDS_INFO, and a restart strands it. */
  lemma AGoodsTypePickCanStrand(redis: bool, maxRounds: int, v: Delivery, to: string, ref: string)
    requires Complete(v) && !v.automated && maxRounds > 0
    ensures Stranded(SystemRun(redis, maxRounds, PickedAfterTheDatePassed(v, to, ref) + [Restart]).office.desk, v.newId)
  {
    var commit := CommitBoth(v.newId, Applied, Applied);
    var ask := Worked(Works(AskShipDate(v.newId, to, ref)));
    var run := [Worked(Arrives(v))] + [commit] + [ask];
    RunOfThree(redis, maxRounds, Worked(Arrives(v)), commit, ask);
    TheDateIsAskedFor(redis, maxRounds, v, to, ref);
    RunOneMore(redis, maxRounds, run, commit);
    ADraftIsCommitted(SystemRun(redis, maxRounds, run).copies, SystemRun(redis, maxRounds, run).office, redis, v.newId);
    WhatARestartStrands(redis, maxRounds, run + [commit], v.newId);
  }

  lemma OneWordIsClean()
    ensures Clean("A") == "A"
  {
    WordsOfJoin(["A"]);
  }

  function SomeValue(f: FieldName, today: Calendar.Day): Value {
    match f
    case WeightKg => Number(1.0)
    case DimensionsIn => Sides(1.0, 1.0, 1.0)
    case IsChemical => Flag(false)
    case MsdsAttached => Flag(false)
    case Pcs => Count(1)
    case DeliveryType => Value.Delivery(Airport)
    case ShipDate => OnDay(today)
    case _ => Text("A")
  }

  /** A complete enquiry for a day. */
  function CompleteOn(today: Calendar.Day): (x: Extraction)
    ensures forall f :: f in x <==> f != MsdsAttached && f != DeliveryAddress
    ensures forall f :: f in x ==> x[f] == Stated(SomeValue(f, today))
  {
    map f: FieldName | f != MsdsAttached && f != DeliveryAddress :: Stated(SomeValue(f, today))
  }

  /** The record of a complete enquiry for a day. */
  ghost predicate IsComplete(r: Fields, today: Calendar.Day) {
    forall f :: (f in r <==> f != MsdsAttached && f != DeliveryAddress) && (f in r ==> r[f] == SomeValue(f, today))
  }

  lemma ADateOfTodayStays(x: Extraction, today: Calendar.Day)
    requires StatusOf(x, ShipDate) == Stated(OnDay(today))
    ensures ResolveShipDate(x, today) == x
  {
  }

  lemma AFirstRecordIsWhatWasStated(x: Extraction)
    requires forall f :: f in x ==> x[f].Stated? && (x[f].value.Text? ==> x[f].value.text == "A")
    ensures var r := Merge(map[], ToExtractedFields(x)).record;
            forall f :: (f in r <==> f in x) && (f in r ==> r[f] == x[f].value)
  {
    OneWordIsClean();
    assert forall f :: f in ToExtractedFields(x) <==> f in x;
  }

  lemma NoGapInACompleteRecord(r: Fields, today: Calendar.Day, f: FieldName)
    requires IsComplete(r, today)
    ensures !Lacks(r, f) && !OutOfRange(r, f, Some(today))
  {
    var text := SomeValue(Origin, today).text;
    assert text[0] in text && !IsSpace(text[0]);
    assert r[IsChemical] == Flag(false) && r[DeliveryType] == Value.Delivery(Airport);
  }

  /** It meets the condition above on that day. */
  lemma ACompleteEnquiry(clock: TurnClock)
    requires clock.resolve.today == clock.validate.today
    ensures Validate(MergeBy(None, CompleteOn(clock.resolve.today), clock).record, Some(clock.validate.today)) == []
  {
    var today := clock.resolve.today;
    ADateOfTodayStays(CompleteOn(today), today);
    ACompleteEnquiryIsRecorded(today);
    AValidRecord(MergeBy(None, CompleteOn(today), clock).record, today);
  }

  lemma ACompleteEnquiryIsRecorded(today: Calendar.Day)
    ensures IsComplete(Merge(map[], ToExtractedFields(CompleteOn(today))).record, today)
  {
    AFirstRecordIsWhatWasStated(CompleteOn(today));
  }

  lemma AValidRecord(r: Fields, today: Calendar.Day)
    requires IsComplete(r, today)
    ensures Validate(r, Some(today)) == []
  {
    forall f ensures !Lacks(r, f) && !OutOfRange(r, f, Some(today)) {
      NoGapInACompleteRecord(r, today, f);
    }
    ValidMeansNoGaps(r, Some(today));
  }
}
