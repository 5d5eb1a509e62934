/** Placing an inbound message: correlation by header chain, the router that drives the clarification
    workflow, and the threads it records. The message ids of a request's thread are what the next reply is
    matched against (section 3.6.4 of RFC 5322). */
module Routing {
  import opened Prelude
  import opened States
  import opened Workflow
  import opened WorkflowTheorems
  import opened WorkflowRuns
  import opened WorkflowClass

  type Threads = map<Id, seq<string>>

  datatype Placement = Existing(id: Id) | NewRequest | AmbiguousCorrelation

  // ----- correlation --------------------------------------------------------

  /** `_owners_of`: the requests on whose threads one of `messageIds` is recorded. */
  function OwnersOf(messageIds: seq<string>, threads: Threads): (owners: set<Id>)
    ensures forall id :: id in owners <==> id in threads && exists m :: m in messageIds && m in threads[id]
  {
    set id | id in threads && exists m :: m in messageIds && m in threads[id]
  }

  lemma OnlyMember<T>(s: set<T>, x: T, y: T)
    requires |s| == 1 && x in s && y in s
    ensures x == y
  {
    assert |s - {x}| == 0;
    assert y !in s - {x};
  }

  /** `owners.pop()` of a set known to hold one id. */
  function TheOnly(owners: set<Id>): (id: Id)
    requires |owners| == 1
    ensures id in owners
  {
    assert owners != {};
    assert forall x, y :: x in owners && y in owners ==> x == y by {
      forall x, y | x in owners && y in owners ensures x == y { OnlyMember(owners, x, y); }
    }
    var x :| x in owners; x
  }

  /** `correlate`: the direct parent first; the wider chain only when that places nothing. An empty
      In-Reply-To counts as absent. */
  function Correlate(email: RawEmail, threads: Threads): Placement {
    var parents := if email.inReplyTo.Some? && email.inReplyTo.value != ""
        then OwnersOf([email.inReplyTo.value], threads) else {};
    var ancestors := OwnersOf(email.references, threads);
    if threads == map[] then NewRequest
    else if |parents| == 1 then Existing(TheOnly(parents))
    else if |parents| > 1 then AmbiguousCorrelation
    else if |ancestors| == 1 then Existing(TheOnly(ancestors))
    else if |ancestors| > 1 then AmbiguousCorrelation
    else NewRequest
  }

  // ----- routing ------------------------------------------------------------

  datatype Office = Office(desk: Desk, threads: Threads)

  datatype RoutedMessage = RoutedMessage(
    requestId: Option<Id>,
    isReply: bool,
    needsManualReview: bool,
    ignored: bool,
    outcome: Option<TurnOutcome>)

  /** One delivery of a message: the id a new request would get, whether it comes from an automated sender,
      and what the model, the mail server and the clock do. */
  datatype Delivery = Delivery(email: RawEmail, newId: Id, automated: bool, model: ModelReply, send: SendReply,
      clock: TurnClock)

  const REFUSED: RoutedMessage := RoutedMessage(None, false, true, false, None)

  predicate AlreadyProcessed(threads: Threads, messageId: string) {
    exists id :: id in threads && messageId in threads[id]
  }

  /** `_record`. */
  function Record(threads: Threads, id: Id, messageId: string): Threads {
    var known := if id in threads then threads[id] else [];
    if messageId in known then threads else threads[id := known + [messageId]]
  }

  predicate NeedsAPerson(t: TurnOutcome) {
    t.state == ManualReview || t.analysis.IsStuck()
  }

  /** The outcome of a message that reached the workflow. */
  function ReportOf(id: Id, isReply: bool, t: TurnOutcome): RoutedMessage {
    var ignored := t.replyNotAccepted || t.isNonEnquiry;
    RoutedMessage(Some(id), isReply, !ignored && NeedsAPerson(t), ignored, Some(t))
  }

  /** The request a message is handled for, unless its placement is refused. */
  function PlacedOn(v: Delivery, threads: Threads): Id {
    var placement := Correlate(v.email, threads);
    if placement.Existing? then placement.id else v.newId
  }

  /** Refused, or a first message from an automated sender: the workflow never sees it. */
  predicate KeptFromTheWorkflow(v: Delivery, threads: Threads) {
    var placement := Correlate(v.email, threads);
    placement.AmbiguousCorrelation? || (placement.NewRequest? && v.automated)
  }

  /** The message as the workflow is given it. */
  function Handled(v: Delivery, id: Id): Event {
    Inbound(id, v.email, v.model, v.send, v.clock)
  }

  /** `route`. */
  ghost function Route(o: Office, maxRounds: int, v: Delivery): (Office, Result<RoutedMessage, Trouble>) {
    var placement := Correlate(v.email, o.threads);
    if placement.AmbiguousCorrelation? then (o, Returned(REFUSED))
    else
      var id := if placement.Existing? then placement.id else v.newId;
      if placement.NewRequest? && v.automated then
        (o.(threads := Record(o.threads, id, v.email.messageId)),
         Returned(RoutedMessage(Some(id), false, false, true, None)))
      else
        var s := Handle(o.desk, maxRounds, id, v.email, v.model, v.send, v.clock);
        match s.1
        case Raised(t) => (o.(desk := s.0), Raised(t))
        case Returned(t) =>
          (Office(s.0, Record(o.threads, id, v.email.messageId)), Returned(ReportOf(id, placement.Existing?, t)))
  }

  // ----- runs ---------------------------------------------------------------

  /** A poll hands over a message, which is skipped when it has been processed before; or the workflow
      does something else. */
  datatype OfficeEvent = Arrives(v: Delivery) | Works(e: Event)

  ghost function OfficeStep(o: Office, maxRounds: int, e: OfficeEvent): Office {
    match e
    case Arrives(v) => if AlreadyProcessed(o.threads, v.email.messageId) then o else Route(o, maxRounds, v).0
    case Works(w) => if w.Inbound? then o else o.(desk := Step(o.desk, maxRounds, w))
  }

  /** A new process on a scratch store that holds these requests and threads. */
  function Opened(requests: map<Id, QuotationRequest>, threads: Threads): Office {
    Office(NewDesk(requests), threads)
  }

  ghost function OfficeRun(start: Office, maxRounds: int, events: seq<OfficeEvent>): Office {
    if events == [] then start
    else OfficeStep(OfficeRun(start, maxRounds, events[..|events| - 1]), maxRounds, events[|events| - 1])
  }

  // ----- one owner per message ----------------------------------------------

  /** Every message id lies in at most one thread, and there at most once. */
  ghost predicate OneOwner(threads: Threads) {
    && (forall a, b, m :: a in threads && b in threads && m in threads[a] && m in threads[b] ==> a == b)
    && (forall a :: a in threads ==> Distinct(threads[a]))
  }

  /** Recording puts a message at the end of the thread, and only once. */
  lemma RecordingTwiceIsRecordingOnce(threads: Threads, id: Id, m: string)
    ensures var once := Record(threads, id, m);
            && Record(once, id, m) == once && id in once && m in once[id]
            && (forall other :: other in once && other != id <==> other in threads && other != id)
            && (forall other :: other in threads && other != id ==> once[other] == threads[other])
            && (if id !in threads then once[id] == [m]
                else if m in threads[id] then once == threads else once[id] == threads[id] + [m])
  {
  }

  lemma RecordKeepsOneOwner(threads: Threads, id: Id, messageId: string)
    requires OneOwner(threads) && !AlreadyProcessed(threads, messageId)
    ensures OneOwner(Record(threads, id, messageId))
  {
    var after := Record(threads, id, messageId);
    forall a | a in after ensures Distinct(after[a]) {
      if a in threads {
        assert Distinct(threads[a]);
      }
    }
  }

  /** How a step changes the threads: not at all, or by recording one message at the end of one. */
  ghost predicate Records(threads: Threads, threads': Threads, messageId: string) {
    threads' == threads || exists id :: threads' == Record(threads, id, messageId)
  }

  lemma RouteRecordsAtMostOne(o: Office, maxRounds: int, v: Delivery)
    ensures Records(o.threads, Route(o, maxRounds, v).0.threads, v.email.messageId)
  {
  }

  lemma StepKeepsOneOwner(o: Office, maxRounds: int, e: OfficeEvent)
    requires OneOwner(o.threads)
    ensures OneOwner(OfficeStep(o, maxRounds, e).threads)
  {
    if e.Arrives? && !AlreadyProcessed(o.threads, e.v.email.messageId) {
      RouteRecordsAtMostOne(o, maxRounds, e.v);
      var after := Route(o, maxRounds, e.v).0;
      if after.threads != o.threads {
        var id :| after.threads == Record(o.threads, id, e.v.email.messageId);
        RecordKeepsOneOwner(o.threads, id, e.v.email.messageId);
      }
    }
  }

  lemma {:induction false} RunHasOneOwner(start: Office, maxRounds: int, events: seq<OfficeEvent>)
    requires OneOwner(start.threads)
    ensures OneOwner(OfficeRun(start, maxRounds, events).threads)
  {
    if events == [] {
    } else {
      RunHasOneOwner(start, maxRounds, events[..|events| - 1]);
      StepKeepsOneOwner(OfficeRun(start, maxRounds, events[..|events| - 1]), maxRounds, events[|events| - 1]);
    }
  }

  lemma StepExtendsThreads(o: Office, maxRounds: int, e: OfficeEvent, id: Id)
    requires id in o.threads
    ensures var o' := OfficeStep(o, maxRounds, e); id in o'.threads && o.threads[id] <= o'.threads[id]
  {
    if e.Arrives? {
      RouteRecordsAtMostOne(o, maxRounds, e.v);
    }
  }

  /** A thread begins another. */
  ghost predicate Extends(now: Threads, later: Threads, id: Id) {
    id in now && id in later && now[id] <= later[id]
  }

  lemma {:induction false} ThreadsOnlyGrow(
    start: Office, maxRounds: int, events: seq<OfficeEvent>, more: seq<OfficeEvent>, id: Id)
    requires id in OfficeRun(start, maxRounds, events).threads
    ensures Extends(OfficeRun(start, maxRounds, events).threads, OfficeRun(start, maxRounds, events + more).threads, id)
  {
    if more == [] {
      assert events + more == events;
    } else {
      ThreadsOnlyGrow(start, maxRounds, events, more[..|more| - 1], id);
      assert (events + more)[..|events + more| - 1] == events + more[..|more| - 1];
      StepExtendsThreads(OfficeRun(start, maxRounds, events + more[..|more| - 1]), maxRounds, more[|more| - 1], id);
    }
  }

  /** A thread is only ever extended, so while the process lasts a message keeps its owner. */
  lemma OwnersNeverChange(
    start: Office, maxRounds: int, events: seq<OfficeEvent>, more: seq<OfficeEvent>, id: Id, messageId: string)
    requires OneOwner(start.threads)
    requires id in OfficeRun(start, maxRounds, events).threads
            && messageId in OfficeRun(start, maxRounds, events).threads[id]
    ensures var later := OfficeRun(start, maxRounds, events + more).threads;
            && id in later && messageId in later[id] && OwnersOf([messageId], later) == {id}
  {
    ThreadsOnlyGrow(start, maxRounds, events, more, id);
    RunHasOneOwner(start, maxRounds, events + more);
    SingleOwner(OfficeRun(start, maxRounds, events + more).threads, id, messageId);
  }

  lemma SingleOwner(threads: Threads, id: Id, m: string)
    requires OneOwner(threads) && id in threads && m in threads[id]
    ensures OwnersOf([m], threads) == {id}
  {
    assert m in [m];
  }

  lemma AtMostOneOwner(threads: Threads, m: string)
    requires OneOwner(threads)
    ensures |OwnersOf([m], threads)| <= 1
  {
    if id :| id in OwnersOf([m], threads) {
      SingleOwner(threads, id, m);
    }
  }

  /** The In-Reply-To header names a message on record. */
  predicate AnswersARecord(email: RawEmail, threads: Threads) {
    email.inReplyTo.Some? && email.inReplyTo.value != "" && AlreadyProcessed(threads, email.inReplyTo.value)
  }

  /** In-Reply-To never makes a message ambiguous: it is refused only for a References chain that spans two
      requests while In-Reply-To names no message on record. */
  lemma RefusedOnlyForItsReferences(threads: Threads, email: RawEmail)
    requires OneOwner(threads)
    ensures email.inReplyTo.Some? ==> |OwnersOf([email.inReplyTo.value], threads)| <= 1
    ensures Correlate(email, threads).AmbiguousCorrelation?
            <==> |OwnersOf(email.references, threads)| > 1 && !AnswersARecord(email, threads)
  {
    if email.inReplyTo.Some? {
      var m := email.inReplyTo.value;
      AtMostOneOwner(threads, m);
      if id :| id in threads && m in threads[id] {
        SingleOwner(threads, id, m);
      }
    }
  }

  /** A reply to a recorded message lands on that message's request, whatever its References say. */
  lemma ARepliedToRequestGetsTheReply(threads: Threads, id: Id, email: RawEmail)
    requires OneOwner(threads) && id in threads
    requires email.inReplyTo.Some? && email.inReplyTo.value != "" && email.inReplyTo.value in threads[id]
    ensures Correlate(email, threads) == Existing(id)
  {
    SingleOwner(threads, id, email.inReplyTo.value);
  }

  /** Where a message goes, over any threads with one owner per message: to the request whose thread has the message it
      answers; if it answers none on record, to the one request that its References lead to; nowhere, if those lead to
      more than one; and if they lead to none, it begins a new request. */
  lemma WhereAMessageGoes(threads: Threads, email: RawEmail, id: Id)
    requires OneOwner(threads)
    ensures Correlate(email, threads) == Existing(id) <==>
              id in threads
              && if AnswersARecord(email, threads) then email.inReplyTo.value in threads[id]
                 else Leads(email, threads, id) && forall other :: Leads(email, threads, other) ==> other == id
    ensures Correlate(email, threads) == NewRequest <==>
              !AnswersARecord(email, threads) && forall other :: !Leads(email, threads, other)
  {
    if AnswersARecord(email, threads) {
      var owner :| owner in threads && email.inReplyTo.value in threads[owner];
      ARepliedToRequestGetsTheReply(threads, owner, email);
    } else {
      assert threads == map[] ==> OwnersOf(email.references, threads) == {};
      AStrangerIsPlacedByItsReferences(threads, email);
      OwnersAreWhereItLeads(threads, email, id);
    }
  }

  /** Some of its References is on record for this request. */
  ghost predicate Leads(email: RawEmail, threads: Threads, id: Id) {
    id in threads && exists m :: m in email.references && m in threads[id]
  }

  lemma AStrangerIsPlacedByItsReferences(threads: Threads, email: RawEmail)
    requires !AnswersARecord(email, threads)
    ensures var owners := OwnersOf(email.references, threads);
            Correlate(email, threads) == if |owners| == 1 then Existing(TheOnly(owners))
                                         else if |owners| > 1 then AmbiguousCorrelation else NewRequest
  {
    if email.inReplyTo.Some? && email.inReplyTo.value != "" {
      var m := email.inReplyTo.value;
      assert forall id :: id in threads ==> m !in threads[id];
      assert OwnersOf([m], threads) == {};
    }
    if threads == map[] {
      assert OwnersOf(email.references, threads) == {};
    }
  }

  lemma OwnersAreWhereItLeads(threads: Threads, email: RawEmail, id: Id)
    ensures var owners := OwnersOf(email.references, threads);
            && (|owners| == 1 && TheOnly(owners) == id
                <==> Leads(email, threads, id) && forall other :: Leads(email, threads, other) ==> other == id)
            && (|owners| == 0 <==> forall other :: !Leads(email, threads, other))
  {
    var owners := OwnersOf(email.references, threads);
    assert forall other :: other in owners <==> Leads(email, threads, other);
    if Leads(email, threads, id) && forall other :: Leads(email, threads, other) ==> other == id {
      assert owners == {id};
    }
    if |owners| == 1 {
      forall other | other in owners ensures other == TheOnly(owners) {
        OnlyMember(owners, other, TheOnly(owners));
      }
    }
    if owners == {} {
    } else {
      var other :| other in owners;
      assert Leads(email, threads, other);
    }
  }

  /** A message is placed on an existing request only when one of its headers names a message of that
      request: nothing is merged on a guess. */
  lemma PlacedOnlyByAHeader(email: RawEmail, threads: Threads, id: Id)
    requires Correlate(email, threads) == Existing(id)
    ensures id in threads
    ensures exists m :: m in threads[id] && (email.inReplyTo == Some(m) || m in email.references)
  {
    if email.inReplyTo.Some? && id in OwnersOf([email.inReplyTo.value], threads) {
      assert email.inReplyTo.value in threads[id];
    } else {
      assert id in OwnersOf(email.references, threads);
    }
  }

  // ----- the routed workflow is a workflow ----------------------------------

  /** What the workflow does in a run of the office. */
  ghost function DeskEvents(start: Office, maxRounds: int, events: seq<OfficeEvent>): seq<Event> {
    if events == [] then []
    else
      var before, e := OfficeRun(start, maxRounds, events[..|events| - 1]), events[|events| - 1];
      DeskEvents(start, maxRounds, events[..|events| - 1]) + DeskEvent(before.threads, e)
  }

  ghost function DeskEvent(threads: Threads, e: OfficeEvent): seq<Event> {
    match e
    case Works(w) => if w.Inbound? then [] else [w]
    case Arrives(v) =>
      var placement := Correlate(v.email, threads);
      if AlreadyProcessed(threads, v.email.messageId) || placement.AmbiguousCorrelation?
          || (placement.NewRequest? && v.automated)
      then []
      else [Handled(v, PlacedOn(v, threads))]
  }

  lemma OneMoreEvent(start: map<Id, QuotationRequest>, maxRounds: int, events: seq<Event>, more: seq<Event>)
    requires |more| <= 1
    ensures Run(start, maxRounds, events + more)
            == if more == [] then Run(start, maxRounds, events)
                else Step(Run(start, maxRounds, events), maxRounds, more[0])
  {
    if more == [] {
      assert events + more == events;
    } else {
      assert (events + more)[..|events + more| - 1] == events;
    }
  }

  lemma RouteStepsTheDesk(o: Office, maxRounds: int, e: OfficeEvent)
    ensures OfficeStep(o, maxRounds, e).desk
            == if DeskEvent(o.threads, e) == [] then o.desk else Step(o.desk, maxRounds, DeskEvent(o.threads, e)[0])
  {
  }

  /** Every run of the office is a run of the workflow, so all that holds of the latter holds of the desk. */
  lemma {:induction false} OfficeRunsTheWorkflow(start: Office, maxRounds: int, events: seq<OfficeEvent>)
    requires start.desk == NewDesk(start.desk.requests)
    ensures OfficeRun(start, maxRounds, events).desk
            == Run(start.desk.requests, maxRounds, DeskEvents(start, maxRounds, events))
  {
    if events == [] {
    } else {
      var init, e := events[..|events| - 1], events[|events| - 1];
      var before := OfficeRun(start, maxRounds, init);
      OfficeRunsTheWorkflow(start, maxRounds, init);
      RouteStepsTheDesk(before, maxRounds, e);
      OneMoreEvent(start.desk.requests, maxRounds, DeskEvents(start, maxRounds, init), DeskEvent(before.threads, e));
    }
  }

  // ----- what routing touches -----------------------------------------------

  /** A message that raises leaves the requests, the rounds, the drafts, the mail and the threads as they
      were, and is still unprocessed: delivering it again is a fresh attempt. One that is refused also
      changes nothing. Any other is processed from then on. */
  lemma ARaisedDeliveryIsAFreshAttempt(o: Office, maxRounds: int, v: Delivery)
    requires SaneStore(o.desk.requests) && !AlreadyProcessed(o.threads, v.email.messageId)
    ensures var r := Route(o, maxRounds, v); var id := PlacedOn(v, o.threads);
            && (r.1.Raised? || r.1.value == REFUSED ==> r.0 == o)
            && (AlreadyProcessed(r.0.threads, v.email.messageId) <==> r.1.Returned? && r.1.value != REFUSED)
            && (r.1.Raised? && r.1.error.IllegalTransition?
                <==> !KeptFromTheWorkflow(v, o.threads) && id in o.desk.requests
                     && o.desk.requests[id].state == NeedsInfo)
  {
    var id := PlacedOn(v, o.threads);
    if !Correlate(v.email, o.threads).AmbiguousCorrelation? {
      RecordProcesses(o.threads, id, v.email.messageId);
      var eff := EffectOfMessage(o.desk, maxRounds, Handled(v, id));
    }
  }

  lemma RecordProcesses(threads: Threads, id: Id, m: string)
    ensures AlreadyProcessed(Record(threads, id, m), m)
  {
    var after := Record(threads, id, m);
    assert id in after && m in after[id];
  }

  lemma AMessageTouchesOneRequest(d: Desk, maxRounds: int, e: Event)
    requires e.Inbound? && (e.id in d.requests ==> Sane(d.requests[e.id]))
    ensures OnlyTouches(d, Handle(d, maxRounds, e.id, e.email, e.model, e.send, e.clock).0, e.id)
  {
    var eff := EffectOfMessage(d, maxRounds, e);
    EffectOnViews(d, e.id, eff);
  }

  /** A message changes at most the one request it is placed on; a refused one and an automated first message
      change none. */
  lemma RoutingTouchesOneRequest(o: Office, maxRounds: int, v: Delivery)
    requires SaneStore(o.desk.requests)
    ensures OnlyTouches(o.desk, Route(o, maxRounds, v).0.desk, PlacedOn(v, o.threads))
    ensures KeptFromTheWorkflow(v, o.threads) ==> Route(o, maxRounds, v).0.desk == o.desk
  {
    AMessageTouchesOneRequest(o.desk, maxRounds, Handled(v, PlacedOn(v, o.threads)));
  }

  // ----- every request has a thread -----------------------------------------

  ghost predicate Threaded(requests: map<Id, QuotationRequest>, threads: Threads) {
    && requests.Keys <= threads.Keys
    && forall id :: id in threads ==> threads[id] != []
  }

  lemma OtherOperationsAddNoRequest(d: Desk, maxRounds: int, e: Event)
    requires !e.Inbound?
    ensures Step(d, maxRounds, e).requests.Keys == d.requests.Keys
  {
  }

  lemma ADeliveryKeepsThreaded(o: Office, maxRounds: int, v: Delivery)
    requires Threaded(o.desk.requests, o.threads)
    ensures var o' := Route(o, maxRounds, v).0; Threaded(o'.desk.requests, o'.threads)
  {
    ARaisedTurnChangesNothing(o.desk, maxRounds, Handled(v, PlacedOn(v, o.threads)));
  }

  lemma StepKeepsThreaded(o: Office, maxRounds: int, e: OfficeEvent)
    requires Threaded(o.desk.requests, o.threads)
    ensures var o' := OfficeStep(o, maxRounds, e); Threaded(o'.desk.requests, o'.threads)
  {
    if e.Arrives? {
      ADeliveryKeepsThreaded(o, maxRounds, e.v);
    } else if !e.e.Inbound? {
      OtherOperationsAddNoRequest(o.desk, maxRounds, e.e);
    }
  }

  /** Every stored request has a thread, and no thread is empty. */
  lemma {:induction false} EveryRequestHasAThread(start: Office, maxRounds: int, events: seq<OfficeEvent>)
    requires Threaded(start.desk.requests, start.threads)
    ensures var o := OfficeRun(start, maxRounds, events); Threaded(o.desk.requests, o.threads)
  {
    if events == [] {
    } else {
      EveryRequestHasAThread(start, maxRounds, events[..|events| - 1]);
      StepKeepsThreaded(OfficeRun(start, maxRounds, events[..|events| - 1]), maxRounds, events[|events| - 1]);
    }
  }

  // ----- the router as an object --------------------------------------------

  class InboundRouter {
    const workflow: ClarificationWorkflow
    const store: Store

    constructor (workflow: ClarificationWorkflow, store: Store)
      requires workflow.store == store
      ensures this.workflow == workflow && this.store == store
    {
      this.workflow := workflow;
      this.store := store;
    }

    /** The state the specification speaks of. */
    ghost function Now(): Office
      reads workflow, workflow.store, store
    {
      Office(workflow.Now(), store.threads)
    }

    /** `_record`. */
    method RecordMessage(id: Id, messageId: string)
      modifies store`threads
      ensures store.threads == Record(old(store.threads), id, messageId)
    {
      var known := if id in store.threads then store.threads[id] else [];
      if messageId in known {
        return;
      }
      store.SaveThread(id, known + [messageId]);
    }

    /** `route`: nothing is recorded until the workflow has returned. */
    method RouteMessage(v: Delivery) returns (r: Result<RoutedMessage, Trouble>)
      requires workflow.store == store
      modifies workflow, store
      ensures (Now(), r) == Route(old(Now()), workflow.maxRounds, v)
    {
      var placement := Correlate(v.email, store.threads);
      if placement.AmbiguousCorrelation? {
        return Returned(REFUSED);
      }
      if placement.NewRequest? && v.automated {
        RecordMessage(v.newId, v.email.messageId);
        return Returned(RoutedMessage(Some(v.newId), false, false, true, None));
      }
      var id := if placement.NewRequest? then v.newId else placement.id;
      var handled := workflow.HandleMessage(id, v.email, v.model, v.send, v.clock);
      if handled.Raised? {
        return Raised(handled.error);
      }
      RecordMessage(id, v.email.messageId);
      var t := handled.value;
      if t.replyNotAccepted || t.isNonEnquiry {
        return Returned(RoutedMessage(Some(id), placement.Existing?, false, true, Some(t)));
      }
      r := Returned(RoutedMessage(Some(id), placement.Existing?, NeedsAPerson(t), false, Some(t)));
    }
  }
}
