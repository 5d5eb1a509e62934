/** What the operations report: the whole outcome of a message, what the questions after validation come to, and
    what the router makes of a message. */
module Reports {
  import opened Prelude
  import opened Shipment
  import opened Validation
  import opened Clarification
  import opened States
  import opened Workflow
  import opened WorkflowTheorems
  import opened WorkflowRuns
  import opened Outcomes
  import opened Routing
  import Calendar

  // ----- a message ----------------------------------------------------------

  /** A message for this request is read: it is new, or stands where an answer can be merged. */
  predicate Takes(q: Option<QuotationRequest>) {
    q.None? || q.value.state in {Received, Extracted, ClarificationSent}
  }

  /** What is read of the message. */
  function ReadOf(q: Option<QuotationRequest>, e: Event): Extraction
    requires e.Inbound?
  {
    if Takes(q) && e.model.Understood? then ResolveShipDate(e.model.x, e.clock.resolve.today) else map[]
  }

  /** The two flags: a message that was not read, and a first message that states nothing. */
  ghost predicate FlagsFit(q: Option<QuotationRequest>, e: Event, o: TurnOutcome)
    requires e.Inbound?
  {
    var x := ReadOf(q, e);
    && (o.replyNotAccepted <==> !Takes(q))
    && (o.isNonEnquiry
        <==> q.None? && e.model.Understood? && forall f :: !StatusOf(x, f).Stated? && !StatusOf(x, f).Invalid?)
  }

  /** The analysis that is shown: of what was read, on the record that came of it. */
  ghost predicate FindingsFit(q: Option<QuotationRequest>, e: Event, o: TurnOutcome)
    requires e.Inbound?
  {
    var x := ReadOf(q, e);
    && o.merge == Merge(RecordOf(q), ToExtractedFields(x))
    && o.record == (if o.isNonEnquiry then RecordOf(q) else o.merge.record)
    && o.issues == Validate(o.record, Some(e.clock.validate.today))
    && o.analysis == Identify(o.issues, x, o.merge.conflicts)
  }

  /** The draft of the turn, if there is one, and the rounds. */
  ghost predicate DraftFits(d: Desk, d': Desk, e: Event, o: TurnOutcome)
    requires e.Inbound?
  {
    && o.roundNumber == RoundsOf(d'.rounds, e.id)
    && match o.clarification
       case None => d'.pending == d.pending && d'.rounds == d.rounds
       case Some(message) =>
         && d'.pending == d.pending[e.id := Draft(message, e.email.fromAddress, e.email.messageId)]
         && d'.rounds == d.rounds[e.id := RoundsOf(d.rounds, e.id) + 1]
         && Composed(o.analysis.unresolved) == Some(message)
  }

  /** The state reported is the one stored; only what was kept from the workflow leaves the store alone. */
  ghost predicate StateFits(d: Desk, d': Desk, e: Event, o: TurnOutcome)
    requires e.Inbound?
  {
    if o.replyNotAccepted || o.isNonEnquiry then d' == d && o.state == StateOf(Lookup(d.requests, e.id))
    else e.id in d'.requests && d'.requests[e.id].state == o.state
  }

  ghost predicate ReportFits(d: Desk, s: (Desk, Result<TurnOutcome, Trouble>), e: Event)
    requires e.Inbound?
  {
    s.1.Returned? ==>
      var q, o := Lookup(d.requests, e.id), s.1.value;
      && FlagsFit(q, e, o) && FindingsFit(q, e, o) && DraftFits(d, s.0, e, o) && StateFits(d, s.0, e, o)
      && (o.clarification.Some? <==> Takes(q) && o.state == NeedsInfo)
  }

  lemma NothingReadMergesNothing(record: Fields)
    ensures Merge(record, ToExtractedFields(map[])).record == record
  {
    assert ToExtractedFields(map[]) == map[];
  }

  /** A question is drafted exactly when the verdict is NEEDS_INFO. */
  lemma OnlyDraftsNeedInfo(state: RequestState, futile: bool, spent: bool, analysis: Analysis)
    requires state in {Received, Extracted, ClarificationSent}
    ensures var v := Verdict(state, futile, spent, analysis);
            v.Returned? && (v.value == NeedsInfo <==> Drafts(futile, spent, analysis))
  {
    assert CanTransition(state, ManualReview) && (state == Extracted || CanTransition(state, Extracted));
    assert CanTransition(Extracted, Validated) && CanTransition(Extracted, NeedsInfo)
           && CanTransition(Extracted, ManualReview);
  }

  /** What `Settled` stores and reports. */
  lemma ReportOfAVerdict(
    d: Desk, e: Event, merge: MergeResult, issues: seq<Issue>, analysis: Analysis, next: RequestState, drafts: bool)
    requires e.Inbound? && (drafts ==> analysis.NeedsClarification())
    ensures var s := Settled(d, e.id, e.email, merge, issues, analysis, next, drafts);
            && s.1 == TurnOutcome(next, merge.record, merge, issues, analysis, s.1.clarification, s.1.roundNumber,
               false, false)
            && DraftFits(d, s.0, e, s.1) && (s.1.clarification.Some? <==> drafts)
            && e.id in s.0.requests && s.0.requests[e.id].state == next
  {
  }

  lemma ReportOfASettlement(
    d: Desk, e: Event, q: Option<QuotationRequest>, x: Extraction, merge: MergeResult, futile: bool, spent: bool)
    requires e.Inbound? && e.model.Understood? && q == Lookup(d.requests, e.id) && Takes(q) && x == ReadOf(q, e)
    requires q.None? ==> AnyStated(x) || AnyInvalid(x)
    requires merge == Merge(RecordOf(q), ToExtractedFields(x))
    ensures ReportFits(d, Settle(d, e.id, e.email, x, merge, StateOf(q), futile, spent, e.clock), e)
  {
    NothingStatedOrInvalid(x);
    var issues := Validate(merge.record, Some(e.clock.validate.today));
    var analysis := Identify(issues, x, merge.conflicts);
    OnlyDraftsNeedInfo(StateOf(q), futile, spent, analysis);
    var next := Verdict(StateOf(q), futile, spent, analysis).value;
    ReportOfAVerdict(d, e, merge, issues, analysis, next, Drafts(futile, spent, analysis));
  }

  lemma ReportOfSilence(d: Desk, e: Event, q: Option<QuotationRequest>, x: Extraction, merge: MergeResult, spent: bool)
    requires e.Inbound? && e.model.Understood? && q == Lookup(d.requests, e.id) && x == ReadOf(q, e)
    requires q.Some? && q.value.state == ClarificationSent && merge == Merge(RecordOf(q), ToExtractedFields(x))
    ensures ReportFits(d, AnswersNothing(d, e.id, e.email, x, merge, ClarificationSent, q, spent, e.send, e.clock), e)
  {
    if q.value.followupAt.Some? && e.clock.judge.at - q.value.followupAt.value >= FOLLOWUP_WINDOW {
      ReportOfASettlement(d, e, q, x, merge, true, spent);
    }
  }

  lemma ReportOfATurn(d: Desk, e: Event, q: Option<QuotationRequest>, x: Extraction, spent: bool)
    requires e.Inbound? && e.model.Understood? && q == Lookup(d.requests, e.id) && Takes(q) && x == ReadOf(q, e)
    ensures ReportFits(d, Turn(d, e.id, e.email, x, StateOf(q), RecordOf(q), q, spent, e.send, e.clock), e)
  {
    NothingStatedOrInvalid(x);
    var s := Turn(d, e.id, e.email, x, StateOf(q), RecordOf(q), q, spent, e.send, e.clock);
    if q.Some? || AnyStated(x) || AnyInvalid(x) {
      var merge := Merge(RecordOf(q), ToExtractedFields(x));
      var missing := MissingOf(Validate(merge.record, Some(e.clock.judge.today)));
      var futile := StateOf(q).ClarificationSent? && AnyUnusable(missing, x);
      assert s == Judged(d, e.id, e.email, x, merge, missing, StateOf(q), q, spent, e.send, e.clock);
      if StateOf(q).ClarificationSent? && !futile && NonAnswer(missing, merge, x) {
        assert s == AnswersNothing(d, e.id, e.email, x, merge, ClarificationSent, q, spent, e.send, e.clock);
        ReportOfSilence(d, e, q, x, merge, spent);
      } else {
        assert s == Settle(d, e.id, e.email, x, merge, StateOf(q), futile, spent, e.clock);
        ReportOfASettlement(d, e, q, x, merge, futile, spent);
      }
    }
  }

  lemma ReportOfAnUnreadMessage(d: Desk, e: Event, q: Option<QuotationRequest>)
    requires e.Inbound? && e.model.ContractBroken? && q == Lookup(d.requests, e.id) && Takes(q)
    ensures ReportFits(d, ExtractionFailed(d, e.id, e.email, StateOf(q), RecordOf(q), q, e.send, e.clock), e)
  {
    NothingReadMergesNothing(RecordOf(q));
    assert Escalated(StateOf(q)) == ManualReview;
  }

  lemma WhoTakesAMessage(q: Option<QuotationRequest>)
    ensures Takes(q) <==> q.None? || AcceptsClientReply(q.value.state)
  {
    ReadingTheTable(StateOf(q), Extracted);
  }

  /** The whole outcome of a message, from any desk: it was not accepted exactly when the stored request is past taking
      one; it was no enquiry exactly when it is a first message that states nothing; the analysis is of what was read
      on the record that came of it; the clarification is the draft of the turn; and rounds and state are those
      stored. */
  lemma WhatIsReported(d: Desk, maxRounds: int, e: Event)
    requires e.Inbound?
    ensures ReportFits(d, Handle(d, maxRounds, e.id, e.email, e.model, e.send, e.clock), e)
  {
    var q := Lookup(d.requests, e.id);
    var s := Handle(d, maxRounds, e.id, e.email, e.model, e.send, e.clock);
    WhoTakesAMessage(q);
    if !Takes(q) {
      ALateMessageIsNotAccepted(d, maxRounds, e);
    } else if e.model.Understood? {
      var spent := StateOf(q).ClarificationSent? && RoundsOf(d.rounds, e.id) >= maxRounds;
      assert s == Turn(d, e.id, e.email, ReadOf(q, e), StateOf(q), RecordOf(q), q, spent, e.send, e.clock);
      ReportOfATurn(d, e, q, ReadOf(q, e), spent);
    } else if e.model.ContractBroken? {
      assert s == ExtractionFailed(d, e.id, e.email, StateOf(q), RecordOf(q), q, e.send, e.clock);
      ReportOfAnUnreadMessage(d, e, q);
    }
  }

  /** A message to a request that takes no more, whatever the model would have made of it: nothing changes, and it is
      reported as not accepted, with the stored state and record; while a draft is held it raises instead. */
  lemma ALateMessageIsNotAccepted(d: Desk, maxRounds: int, e: Event)
    requires e.Inbound? && !Takes(Lookup(d.requests, e.id))
    ensures var s := Handle(d, maxRounds, e.id, e.email, e.model, e.send, e.clock);
            var stored := d.requests[e.id];
            && s.0 == d
            && if stored.state == NeedsInfo then s.1 == Raised(IllegalTransition(NeedsInfo, Extracted))
               else
                 && s.1.Returned? && s.1.value.replyNotAccepted && !s.1.value.isNonEnquiry
                 && s.1.value.state == stored.state && s.1.value.record == stored.record
                 && s.1.value.clarification.None? && s.1.value.roundNumber == RoundsOf(d.rounds, e.id)
    ensures ReportFits(d, Handle(d, maxRounds, e.id, e.email, e.model, e.send, e.clock), e)
  {
    WhoTakesAMessage(Lookup(d.requests, e.id));
    NothingReadMergesNothing(d.requests[e.id].record);
  }

  // ----- a message that could not be read ---------------------------------------

  /** The hand-over of a message nobody could read, stored and told. */
  ghost predicate HandsOverUnread(
    d: Desk, s: (Desk, Result<TurnOutcome, Trouble>), e: Event, q: Option<QuotationRequest>)
    requires e.Inbound?
  {
    var told := if q.Some? then q.value.failureNoticeAt else None;
    var at := if told.None? then Some(e.clock.judge.at) else told;
    var notice := FailureNotice(e.id, e.email.fromAddress, e.email.messageId);
    && EndsAt(s, e.id, ManualReview)
    && s.0.requests == d.requests[e.id := QuotationRequest(ManualReview, RecordOf(q), e.email.fromAddress, at, None,
       [])]
    && s.0.outbox == (if told.None? then d.outbox + [notice] else d.outbox)
    && s.0.pending == d.pending && s.0.rounds == d.rounds
  }

  lemma AnUnreadMessageIsHandedOver(d: Desk, e: Event, q: Option<QuotationRequest>)
    requires e.Inbound? && q == Lookup(d.requests, e.id) && Takes(q)
    requires e.send.Delivered? || (q.Some? && q.value.failureNoticeAt.Some?)
    ensures HandsOverUnread(d, ExtractionFailed(d, e.id, e.email, StateOf(q), RecordOf(q), q, e.send, e.clock), e, q)
  {
    assert Escalated(StateOf(q)) == ManualReview;
  }

  /** Without the model, a message raises and changes nothing. What the model could not make sense of goes to a person,
      once the client has been told: now, if the server takes the notice, or on an earlier occasion. */
  lemma WhatAnUnreadMessageComesTo(d: Desk, maxRounds: int, e: Event)
    requires e.Inbound? && !e.model.Understood? && Takes(Lookup(d.requests, e.id))
    ensures var s, q := Handle(d, maxRounds, e.id, e.email, e.model, e.send, e.clock), Lookup(d.requests, e.id);
            if e.model.Unreachable? then s == (d, Raised(ExtractionUnavailable(e.model.permanent)))
            else if e.send.Refused? && (q.Some? ==> q.value.failureNoticeAt.None?)
            then s == (d, Raised(OutboundUnavailable(e.send.permanent)))
            else HandsOverUnread(d, s, e, q)
  {
    var q := Lookup(d.requests, e.id);
    WhoTakesAMessage(q);
    if e.model.ContractBroken? {
      assert Handle(d, maxRounds, e.id, e.email, e.model, e.send, e.clock)
             == ExtractionFailed(d, e.id, e.email, StateOf(q), RecordOf(q), q, e.send, e.clock);
      if e.send.Delivered? || (q.Some? && q.value.failureNoticeAt.Some?) {
        AnUnreadMessageIsHandedOver(d, e, q);
      }
    }
  }

  // ----- questions found after validation ---------------------------------------

  /** Only the state of the request differs: it is with a person now. */
  ghost predicate HandsOverAsItWas(d: Desk, s: (Desk, Result<Option<Message>, Trouble>), id: Id) {
    && s.1 == Returned(None) && id in d.requests
    && s.0 == d.(requests := d.requests[id := d.requests[id].(state := ManualReview)])
  }

  /** One more question is held for the request, about these fields; they are empty now, and nothing else is. */
  ghost predicate Reopens(
    d: Desk, s: (Desk, Result<Option<Message>, Trouble>), id: Id, us: seq<UnresolvedField>, to: string, ref: string)
  {
    id in d.requests && id in s.0.requests &&
    var q, q' := d.requests[id], s.0.requests[id];
    && q' == q.(state := NeedsInfo, record := q'.record)
    && (forall f :: f in q'.record <==> f in q.record && !Asks(us, f))
    && (forall f :: f in q'.record ==> q'.record[f] == q.record[f])
    && s.0.requests == d.requests[id := q']
    && us != [] && s.1 == Returned(Composed(us))
    && s.0.pending == d.pending[id := Draft(s.1.value.value, to, ref)]
    && s.0.rounds == d.rounds[id := RoundsOf(d.rounds, id) + 1] && s.0.outbox == d.outbox
  }

  /** Both questions, from any desk: a held draft is given back; without anything to ask there is none; a spent budget
      hands the request over as it is; otherwise exactly these fields are reopened. What the table has no move for
      raises. */
  lemma WhatAskingComesTo(d: Desk, maxRounds: int, id: Id, us: seq<UnresolvedField>, to: string, ref: string)
    ensures var s := AskAgain(d, maxRounds, id, us, to, ref);
            if id in d.pending then s == (d, Returned(Some(d.pending[id].message)))
            else if us == [] then s == (d, Returned(None))
            else if id !in d.requests then s == (d, Raised(UnknownRequest))
            else
              var state := d.requests[id].state;
              if RoundsOf(d.rounds, id) >= maxRounds then
                if state in HANDABLE then HandsOverAsItWas(d, s, id)
                else s == (d, Raised(IllegalTransition(state, ManualReview)))
              else if state in REOPENABLE then Reopens(d, s, id, us, to, ref)
              else s == (d, Raised(IllegalTransition(state, NeedsInfo)))
  {
    assert forall s :: Advance(s, ManualReview) == if s in HANDABLE then Returned(ManualReview)
                                                   else Raised(IllegalTransition(s, ManualReview));
    assert forall s :: Advance(s, NeedsInfo) == if s in REOPENABLE then Returned(NeedsInfo)
                                                else Raised(IllegalTransition(s, NeedsInfo));
  }

  /** The two questions themselves: each place once and as given, ambiguous; the shipment date, invalid. */
  lemma WhatIsAskedAfterValidation(places: seq<FieldName>)
    ensures var us := PlaceQuestions(places);
            && (us == [] <==> places == []) && (forall f :: Asks(us, f) <==> f in places)
            && AskedFields(us) == places && (forall u :: u in us ==> u.reason == AskAmbiguous && u.clash.None?)
    ensures DATE_QUESTION != [] && (forall f :: Asks(DATE_QUESTION, f) <==> f == ShipDate)
    ensures AskedFields(DATE_QUESTION) == [ShipDate]
            && (forall u :: u in DATE_QUESTION ==> u.reason == AskInvalid && u.clash.None?)
  {
    var us := PlaceQuestions(places);
    forall f ensures Asks(us, f) <==> f in places {
      if f in places {
        var i :| 0 <= i < |places| && places[i] == f;
        assert us[i] in us;
      }
    }
    assert DATE_QUESTION[0] in DATE_QUESTION;
  }

  /** What an event asks about: the places given, or the shipment date. */
  function AskedBy(e: Event): seq<FieldName>
    requires e.AskPlaces? || e.AskShipDate?
  {
    if e.AskPlaces? then e.places else [ShipDate]
  }

  /** A draft is held about exactly these fields, in this order, each for this reason and no conflict. */
  ghost predicate HoldsAQuestion(d: Desk, id: Id, fields: seq<FieldName>, reason: Reason) {
    id in d.pending &&
    var us := d.pending[id].message.unresolved;
    |us| == |fields| && forall i :: 0 <= i < |us| ==> us[i] == UnresolvedField(fields[i], reason, None)
  }

  /** The request is at NEEDS_INFO, with one more round and one draft about exactly these fields, which are
      empty now. */
  ghost predicate AsksFor(d: Desk, d': Desk, id: Id, fields: seq<FieldName>, reason: Reason, to: string, ref: string) {
    && HoldsAQuestion(d', id, fields, reason)
    && d'.pending[id].toAddress == to && d'.pending[id].inReplyTo == ref
    && d'.rounds == d.rounds[id := RoundsOf(d.rounds, id) + 1] && d'.outbox == d.outbox
    && id in d.requests && id in d'.requests
    && var q, q' := d.requests[id], d'.requests[id];
       && q'.state == NeedsInfo && (forall f :: f in q'.record <==> f in q.record && f !in fields)
       && (forall f :: f in q'.record ==> q'.record[f] == q.record[f])
  }

  lemma ReopeningAsksFor(d: Desk, s: (Desk, Result<Option<Message>, Trouble>), id: Id, us: seq<UnresolvedField>,
                         fields: seq<FieldName>, reason: Reason, to: string, ref: string)
    requires Reopens(d, s, id, us, to, ref)
    requires |us| == |fields| && forall i :: 0 <= i < |us| ==> us[i] == UnresolvedField(fields[i], reason, None)
    requires forall f :: Asks(us, f) <==> f in fields
    ensures AsksFor(d, s.0, id, fields, reason, to, ref)
  {
    assert Composed(us).value.unresolved == us;
  }

  /** The two events, from any desk. With a draft held, nothing to ask, no such request, or a state without the
      move that is left, nothing changes. With the budget spent it goes to a person just as it stands;
      within it the question is put. */
  lemma WhatTheTwoQuestionsDo(d: Desk, maxRounds: int, e: Event)
    requires e.AskPlaces? || e.AskShipDate?
    ensures var d', id, fields := Step(d, maxRounds, e), e.id, AskedBy(e);
            if id in d.pending || fields == [] || id !in d.requests then d' == d
            else
              var q := d.requests[id];
              if RoundsOf(d.rounds, id) >= maxRounds then
                d' == if q.state in HANDABLE then d.(requests := d.requests[id := q.(state := ManualReview)]) else d
              else if q.state in REOPENABLE then
                AsksFor(d, d', id, fields, if e.AskPlaces? then AskAmbiguous else AskInvalid, e.toAddress, e.inReplyTo)
              else d' == d
  {
    var us := if e.AskPlaces? then PlaceQuestions(e.places) else DATE_QUESTION;
    var s := AskAgain(d, maxRounds, e.id, us, e.toAddress, e.inReplyTo);
    WhatAskingComesTo(d, maxRounds, e.id, us, e.toAddress, e.inReplyTo);
    WhatIsAskedAfterValidation(AskedBy(e));
    assert Step(d, maxRounds, e) == s.0;
    if Reopens(d, s, e.id, us, e.toAddress, e.inReplyTo) {
      ReopeningAsksFor(d, s, e.id, us, AskedBy(e), if e.AskPlaces? then AskAmbiguous else AskInvalid, e.toAddress,
          e.inReplyTo);
    }
  }

  // ----- an approval --------------------------------------------------------

  /** The held message left, to whom and about what it was drafted, and the draft is spent. */
  ghost predicate SendsTheDraft(d: Desk, d': Desk, id: Id) {
    && id in d.pending && d'.rounds == d.rounds && d'.pending == d.pending - {id}
    && var held := d.pending[id];
       d'.outbox == d.outbox + [Clarification(id, held.toAddress, held.inReplyTo, held.message)]
  }

  /** The request waits for an answer to these questions now, and is otherwise as it was. */
  ghost predicate WaitsForAnswers(d: Desk, d': Desk, id: Id, us: seq<UnresolvedField>) {
    id in d.requests && id in d'.requests &&
    var q, q' := d.requests[id], d'.requests[id];
    && q' == q.(state := ClarificationSent, askedAbout := q'.askedAbout) && d'.requests == d.requests[id := q']
    && |q'.askedAbout| == |us| && forall i :: 0 <= i < |us| ==> q'.askedAbout[i] == us[i].field
  }

  /** An approval, from any desk: it raises without a draft, without a request, or when the server refuses, and
      then nothing has changed; otherwise the draft is sent. The request then waits, if the table lets it; if
      not, the move is what raises, and the mail has left. */
  lemma WhatAnApprovalComesTo(d: Desk, id: Id, approver: string, send: SendReply, at: int)
    ensures var s := Approve(d, id, approver, send, at);
            if id !in d.pending then s == (d, Raised(NoDraftHeld))
            else if id !in d.requests then s == (d, Raised(UnknownRequest))
            else if send.Refused? then s == (d, Raised(SendFailed(send.permanent)))
            else
              && SendsTheDraft(d, s.0, id)
              && var state := d.requests[id].state;
                 if state in {NeedsInfo, ClarificationSent} then
                   WaitsForAnswers(d, s.0, id, d.pending[id].message.unresolved)
                   && s.1 == Returned(Approved(approver, at))
                 else s.0.requests == d.requests && s.1 == Raised(IllegalTransition(state, ClarificationSent))
  {
    assert forall s :: Advance(s, ClarificationSent)
                       == if s in {NeedsInfo, ClarificationSent} then Returned(ClarificationSent)
                          else Raised(IllegalTransition(s, ClarificationSent));
  }

  // ----- what the router reports ------------------------------------------------------

  /** What the router makes of a message that reached the workflow: recorded unless it raised; a reply exactly
      when it was placed on a request; ignored exactly when it was not accepted or no enquiry; and otherwise for
      a person exactly when the turn left it with one, or there is a gap and nothing to ask about. */
  ghost predicate RoutedFits(o: Office, r: (Office, Result<RoutedMessage, Trouble>), v: Delivery,
                             handled: (Desk, Result<TurnOutcome, Trouble>), id: Id)
  {
    && r.0.desk == handled.0
    && match handled.1
       case Raised(t) => r.0.threads == o.threads && r.1 == Raised(t)
       case Returned(t) =>
         && r.0.threads == Record(o.threads, id, v.email.messageId)
         && r.1.Returned?
         && r.1.value.requestId == Some(id) && r.1.value.outcome == Some(t)
         && (r.1.value.isReply <==> Correlate(v.email, o.threads).Existing?)
         && (r.1.value.ignored <==> t.replyNotAccepted || t.isNonEnquiry)
         && (r.1.value.needsManualReview
             <==> !r.1.value.ignored
                  && (t.state == ManualReview || (t.analysis.unresolved == [] && t.analysis.blockedByDenial != [])))
  }

  /** Everything the router reports: a refused message is on no request and for a person; an automated first message is
      ignored and recorded without the workflow; any other is handled for the request it is placed on. */
  lemma WhatIsRouted(o: Office, maxRounds: int, v: Delivery)
    ensures var r, id := Route(o, maxRounds, v), PlacedOn(v, o.threads);
            var placement := Correlate(v.email, o.threads);
            if placement.AmbiguousCorrelation?
            then r == (o, Returned(RoutedMessage(None, false, true, false, None)))
            else if placement.NewRequest? && v.automated
            then r == (o.(threads := Record(o.threads, id, v.email.messageId)),
                       Returned(RoutedMessage(Some(v.newId), false, false, true, None)))
            else RoutedFits(o, r, v, Handle(o.desk, maxRounds, id, v.email, v.model, v.send, v.clock), id)
  {
  }

  /** Where a message is placed: on the request whose thread the headers name, and otherwise under a new id. */
  lemma WhereItIsPlaced(v: Delivery, threads: Threads)
    ensures Correlate(v.email, threads).Existing? ==>
              PlacedOn(v, threads) in threads && Correlate(v.email, threads) == Existing(PlacedOn(v, threads))
    ensures !Correlate(v.email, threads).Existing? ==> PlacedOn(v, threads) == v.newId
  {
    if Correlate(v.email, threads).Existing? {
      PlacedOnlyByAHeader(v.email, threads, PlacedOn(v, threads));
    }
  }
}
