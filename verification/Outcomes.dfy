/** What a client's message comes to: the exact condition of every outcome of a turn, read off the stored record,
    what the message states, the clock, and the rounds spent. */
module Outcomes {
  import opened Prelude
  import opened Shipment
  import opened Validation
  import opened Clarification
  import opened States
  import opened Workflow
  import opened WorkflowTheorems
  import opened WorkflowRuns
  import Calendar

  // ----- the conditions -----------------------------------------------------

  /** The shipment cannot be quoted as it is, because of `f`. */
  predicate Gap(r: Fields, f: FieldName, today: Calendar.Day) {
    Lacks(r, f) || OutOfRange(r, f, Some(today))
  }

  predicate AnyGap(r: Fields, today: Calendar.Day) {
    exists f :: Gap(r, f, today)
  }

  /** A field that is lacking, other than the date, was addressed, and nobody could use the answer. */
  predicate CannotBeUsed(r: Fields, x: Extraction) {
    exists f :: f != ShipDate && Lacks(r, f) && StatusOf(x, f) == Ambiguous
  }

  /** Something is lacking, and the message answers nothing, not even that there is no MSDS: what it denies is no
      answer, and what it leaves vague is none but for the shipment date. `before` is the stored record. */
  predicate SaysNothing(before: Fields, r: Fields, x: Extraction) {
    && (exists f :: Lacks(r, f))
    && (forall f :: !StatusOf(x, f).Stated? && !StatusOf(x, f).Invalid?) && StatusOf(x, ShipDate) != Ambiguous
    && (StatusOf(x, MsdsAttached).Denied? ==> MsdsAttached in before)
  }

  /** A contradiction, or a gap that this message does not deny. */
  predicate SomethingToAsk(merge: MergeResult, x: Extraction, today: Calendar.Day) {
    merge.conflicts != [] || exists f :: Gap(merge.record, f, today) && !StatusOf(x, f).Denied?
  }

  // ----- they are what the turn tests -----------------------------------------

  lemma LackingAndUnusable(r: Fields, x: Extraction, today: Calendar.Day)
    ensures AnyUnusable(MissingOf(Validate(r, Some(today))), x) <==> CannotBeUsed(r, x)
    ensures MissingOf(Validate(r, Some(today))) == [] <==> !exists f :: Lacks(r, f)
  {
    var missing := MissingOf(Validate(r, Some(today)));
    MissingFieldsAreTheLacks(r, Some(today));
    if missing != [] {
      assert Lacks(r, missing[0]);
    }
  }

  lemma NothingStatedOrInvalid(x: Extraction)
    ensures !AnyStated(x) && !AnyInvalid(x) <==> forall f :: !StatusOf(x, f).Stated? && !StatusOf(x, f).Invalid?
  {
    if AnyStated(x) {
      var f :| f in x && x[f].Stated?;
      assert StatusOf(x, f).Stated?;
    }
    if AnyInvalid(x) {
      var f :| f in x && x[f].Invalid?;
      assert StatusOf(x, f).Invalid?;
    }
  }

  lemma NothingStatedFillsNothing(before: Fields, x: Extraction)
    requires !AnyStated(x)
    ensures Merge(before, ToExtractedFields(x)).changed == []
            <==> (StatusOf(x, MsdsAttached).Denied? ==> MsdsAttached in before)
  {
    var stated := ToExtractedFields(x);
    var merge := Merge(before, stated);
    MergeNeverReplaces(before, stated);
    assert forall f :: f in stated ==> f == MsdsAttached && StatusOf(x, f).Denied?;
    if merge.changed != [] {
      assert merge.changed[0] in merge.changed;
      assert merge.changed[0] in Normalize(stated);
    }
    if StatusOf(x, MsdsAttached).Denied? {
      assert stated[MsdsAttached] == Flag(false) && MsdsAttached in Normalize(stated);
      assert MsdsAttached in merge.record;
    }
  }

  lemma NonAnswersSayNothing(before: Fields, x: Extraction, today: Calendar.Day)
    ensures var merge := Merge(before, ToExtractedFields(x));
            NonAnswer(MissingOf(Validate(merge.record, Some(today))), merge, x)
            <==> SaysNothing(before, merge.record, x)
  {
    LackingAndUnusable(Merge(before, ToExtractedFields(x)).record, x, today);
    NothingStatedOrInvalid(x);
    if !AnyStated(x) {
      NothingStatedFillsNothing(before, x);
    }
  }

  lemma AnalysisOfGaps(merge: MergeResult, x: Extraction, today: Calendar.Day)
    ensures var a := Identify(Validate(merge.record, Some(today)), x, merge.conflicts);
            && (a.NeedsClarification() <==> SomethingToAsk(merge, x, today))
            && (a.IsStuck() <==> !SomethingToAsk(merge, x, today) && AnyGap(merge.record, today))
  {
    var issues := Validate(merge.record, Some(today));
    var a := Identify(issues, x, merge.conflicts);
    forall f
      ensures Asks(a.unresolved, f) <==>
                f in FieldsOf(merge.conflicts) || (Gap(merge.record, f, today) && !StatusOf(x, f).Denied?)
      ensures f in a.blockedByDenial <==>
                f !in FieldsOf(merge.conflicts) && Gap(merge.record, f, today) && StatusOf(x, f).Denied?
    {
      AskedExactly(issues, x, merge.conflicts, f);
      GapsAreLacks(merge.record, Some(today), f);
    }
    if a.unresolved != [] {
      assert a.unresolved[0] in a.unresolved && Asks(a.unresolved, a.unresolved[0].field);
    }
    if merge.conflicts != [] {
      assert merge.conflicts[0] in merge.conflicts && merge.conflicts[0].field in FieldsOf(merge.conflicts);
    }
    if a.blockedByDenial != [] {
      assert a.blockedByDenial[0] in a.blockedByDenial;
    }
  }

  // ----- what a turn comes to ---------------------------------------------------

  /** The turn ended with this state, stored and reported. */
  ghost predicate EndsAt(s: (Desk, Result<TurnOutcome, Trouble>), id: Id, state: RequestState) {
    && s.1.Returned? && s.1.value.state == state
    && id in s.0.requests && s.0.requests[id].state == state
  }

  /** Where a merged message that is judged ends. */
  function JudgedState(merge: MergeResult, x: Extraction, today: Calendar.Day, futile: bool, spent: bool)
    : RequestState
  {
    if futile then ManualReview
    else if SomethingToAsk(merge, x, today) then (if spent then ManualReview else NeedsInfo)
    else if AnyGap(merge.record, today) then ManualReview
    else Validated
  }

  lemma SettlingEndsAt(d: Desk, id: Id, email: RawEmail, x: Extraction, merge: MergeResult, state: RequestState,
                       futile: bool, spent: bool, clock: TurnClock)
    requires state == Received || state == ClarificationSent
    ensures EndsAt(Settle(d, id, email, x, merge, state, futile, spent, clock), id,
                   JudgedState(merge, x, clock.validate.today, futile, spent))
  {
    var analysis := Identify(Validate(merge.record, Some(clock.validate.today)), x, merge.conflicts);
    AnalysisOfGaps(merge, x, clock.validate.today);
    VerdictIsNeverRefused(state, futile, spent, analysis);
  }

  /** The reminder is thirty minutes old, or older, by the clock's microseconds. */
  predicate Late(q: QuotationRequest, clock: TurnClock) {
    q.followupAt.Some? && clock.judge.at >= q.followupAt.value + 1_800_000_000
  }

  lemma AReplyIsJudged(d: Desk, maxRounds: int, e: Event, q: QuotationRequest, x: Extraction, merge: MergeResult)
    requires e.Inbound? && e.model.Understood? && Lookup(d.requests, e.id) == Some(q) && q.state == ClarificationSent
    requires x == ResolveShipDate(e.model.x, e.clock.resolve.today) && merge == MergeBy(Some(q), e.model.x, e.clock)
    ensures var s := Handle(d, maxRounds, e.id, e.email, e.model, e.send, e.clock);
            var spent, futile := RoundsOf(d.rounds, e.id) >= maxRounds, CannotBeUsed(merge.record, x);
            if !futile && SaysNothing(q.record, merge.record, x)
            then s == AnswersNothing(d, e.id, e.email, x, merge, ClarificationSent, Some(q), spent, e.send, e.clock)
            else s == Settle(d, e.id, e.email, x, merge, ClarificationSent, futile, spent, e.clock)
  {
    var spent := RoundsOf(d.rounds, e.id) >= maxRounds;
    var missing := MissingOf(Validate(merge.record, Some(e.clock.judge.today)));
    LackingAndUnusable(merge.record, x, e.clock.judge.today);
    NonAnswersSayNothing(q.record, x, e.clock.judge.today);
    ReadingTheTable(ClarificationSent, Extracted);
    assert Handle(d, maxRounds, e.id, e.email, e.model, e.send, e.clock)
           == Judged(d, e.id, e.email, x, merge, missing, ClarificationSent, Some(q), spent, e.send, e.clock);
  }

  /** A reply that answers something ends judged. */
  lemma WhatAnAnswerComesTo(d: Desk, maxRounds: int, e: Event, q: QuotationRequest, x: Extraction, merge: MergeResult)
    requires e.Inbound? && e.model.Understood? && Lookup(d.requests, e.id) == Some(q) && q.state == ClarificationSent
    requires x == ResolveShipDate(e.model.x, e.clock.resolve.today) && merge == MergeBy(Some(q), e.model.x, e.clock)
    requires CannotBeUsed(merge.record, x) || !SaysNothing(q.record, merge.record, x)
    ensures EndsAt(Handle(d, maxRounds, e.id, e.email, e.model, e.send, e.clock), e.id,
                   JudgedState(merge, x, e.clock.validate.today, CannotBeUsed(merge.record, x),
                               RoundsOf(d.rounds, e.id) >= maxRounds))
  {
    AReplyIsJudged(d, maxRounds, e, q, x, merge);
    SettlingEndsAt(d, e.id, e.email, x, merge, ClarificationSent, CannotBeUsed(merge.record, x),
                   RoundsOf(d.rounds, e.id) >= maxRounds, e.clock);
  }

  /** A reply that says nothing: the first is answered with a reminder, which forgets what was asked; a further one
      changes nothing while the window is open, and is handed over after it. */
  lemma WhatSilenceComesTo(d: Desk, maxRounds: int, e: Event, q: QuotationRequest, x: Extraction, merge: MergeResult)
    requires e.Inbound? && e.model.Understood? && Lookup(d.requests, e.id) == Some(q) && q.state == ClarificationSent
    requires x == ResolveShipDate(e.model.x, e.clock.resolve.today) && merge == MergeBy(Some(q), e.model.x, e.clock)
    requires !CannotBeUsed(merge.record, x) && SaysNothing(q.record, merge.record, x)
    ensures var s := Handle(d, maxRounds, e.id, e.email, e.model, e.send, e.clock);
            if Late(q, e.clock) then EndsAt(s, e.id, ManualReview)
            else if q.followupAt.Some? then EndsAt(s, e.id, ClarificationSent) && s.0 == d
            else if e.send.Refused? then s == (d, Raised(OutboundUnavailable(e.send.permanent)))
            else
              && EndsAt(s, e.id, ClarificationSent)
              && s.0.requests[e.id] == QuotationRequest(ClarificationSent, merge.record, e.email.fromAddress, None,
                                                        Some(e.clock.judge.at), [])
              && s.0.outbox == d.outbox + [Reminder(e.id, e.email.fromAddress, e.email.messageId)]
              && s.0.rounds == d.rounds && s.0.pending == d.pending
  {
    AReplyIsJudged(d, maxRounds, e, q, x, merge);
    var spent := RoundsOf(d.rounds, e.id) >= maxRounds;
    if Late(q, e.clock) {
      SettlingEndsAt(d, e.id, e.email, x, merge, ClarificationSent, true, spent, e.clock);
    }
  }

  /** A waiting request, after a message the model understood: exactly when it raises, and exactly when it ends in
      each of the four states it can end in. */
  lemma WhatAReplyComesTo(d: Desk, maxRounds: int, e: Event, q: QuotationRequest, x: Extraction, merge: MergeResult)
    requires e.Inbound? && e.model.Understood? && Lookup(d.requests, e.id) == Some(q) && q.state == ClarificationSent
    requires x == ResolveShipDate(e.model.x, e.clock.resolve.today) && merge == MergeBy(Some(q), e.model.x, e.clock)
    ensures var s := Handle(d, maxRounds, e.id, e.email, e.model, e.send, e.clock);
            var today, spent := e.clock.validate.today, RoundsOf(d.rounds, e.id) >= maxRounds;
            var unusable := CannotBeUsed(merge.record, x);
            var silent := !unusable && SaysNothing(q.record, merge.record, x);
            && (s.1.Raised? <==> silent && q.followupAt.None? && e.send.Refused?)
            && (EndsAt(s, e.id, ClarificationSent)
                <==> silent && !Late(q, e.clock) && (q.followupAt.None? ==> e.send.Delivered?))
            && (EndsAt(s, e.id, NeedsInfo) <==> !unusable && !silent && !spent && SomethingToAsk(merge, x, today))
            && (EndsAt(s, e.id, Validated) <==> merge.conflicts == [] && !AnyGap(merge.record, today))
            && (EndsAt(s, e.id, ManualReview)
                <==> unusable || (silent && Late(q, e.clock))
                     || (!silent && if SomethingToAsk(merge, x, today) then spent else AnyGap(merge.record, today)))
  {
    LacksAreGaps(merge.record, e.clock.validate.today);
    if CannotBeUsed(merge.record, x) || !SaysNothing(q.record, merge.record, x) {
      WhatAnAnswerComesTo(d, maxRounds, e, q, x, merge);
    } else {
      WhatSilenceComesTo(d, maxRounds, e, q, x, merge);
    }
  }

  lemma LacksAreGaps(r: Fields, today: Calendar.Day)
    ensures (exists f :: Lacks(r, f)) ==> AnyGap(r, today)
  {
    if f :| Lacks(r, f) {
      assert Gap(r, f, today);
    }
  }

  /** A first message, likewise: whether it is an enquiry at all, and exactly when it ends in each of the three
      states. */
  lemma WhatAFirstMessageComesTo(d: Desk, maxRounds: int, e: Event, x: Extraction, merge: MergeResult)
    requires e.Inbound? && e.model.Understood? && e.id !in d.requests
    requires x == ResolveShipDate(e.model.x, e.clock.resolve.today) && merge == MergeBy(None, e.model.x, e.clock)
    ensures var s := Handle(d, maxRounds, e.id, e.email, e.model, e.send, e.clock);
            var today, enquiry := e.clock.validate.today, AnyStated(x) || AnyInvalid(x);
            && s.1.Returned? && s.1.value.isNonEnquiry == !enquiry && (!enquiry ==> s.0 == d)
            && (EndsAt(s, e.id, NeedsInfo) <==> enquiry && SomethingToAsk(merge, x, today))
            && (EndsAt(s, e.id, ManualReview)
                <==> enquiry && !SomethingToAsk(merge, x, today) && AnyGap(merge.record, today))
            && (EndsAt(s, e.id, Validated)
                <==> enquiry && !SomethingToAsk(merge, x, today) && !AnyGap(merge.record, today))
  {
    var s := Handle(d, maxRounds, e.id, e.email, e.model, e.send, e.clock);
    if AnyStated(x) || AnyInvalid(x) {
      assert s == Settle(d, e.id, e.email, x, merge, Received, false, false, e.clock);
      SettlingEndsAt(d, e.id, e.email, x, merge, Received, false, false, e.clock);
      SettlingIsOfAnEnquiry(d, e.id, e.email, x, merge, e.clock);
    }
  }

  lemma SettlingIsOfAnEnquiry(d: Desk, id: Id, email: RawEmail, x: Extraction, merge: MergeResult, clock: TurnClock)
    ensures var s := Settle(d, id, email, x, merge, Received, false, false, clock);
            s.1.Returned? ==> !s.1.value.isNonEnquiry
  {
  }

  // ----- what a drafted question asks ---------------------------------------------

  /** A question was drafted in `d`, and it asks about `f`. */
  ghost predicate AsksAbout(d: Desk, id: Id, f: FieldName) {
    id in d.pending && Asks(d.pending[id].message.unresolved, f)
  }

  /** The question is that of the analysis, and only what it asks as a contradiction is emptied. */
  lemma SettlingHolds(d: Desk, id: Id, email: RawEmail, x: Extraction, merge: MergeResult, state: RequestState,
                      spent: bool, clock: TurnClock, analysis: Analysis)
    requires state == Received || state == ClarificationSent
    requires analysis == Identify(Validate(merge.record, Some(clock.validate.today)), x, merge.conflicts)
    requires !spent && analysis.NeedsClarification()
    ensures var s := Settle(d, id, email, x, merge, state, false, spent, clock).0;
            && id in s.pending && s.pending[id].message.unresolved == analysis.unresolved
            && id in s.requests && s.requests[id].record == Cleared(merge.record, analysis.unresolved)
  {
    VerdictIsNeverRefused(state, false, spent, analysis);
  }

  lemma AskedOfAGap(merge: MergeResult, x: Extraction, today: Calendar.Day, f: FieldName)
    ensures var us := Identify(Validate(merge.record, Some(today)), x, merge.conflicts).unresolved;
            && (Asks(us, f)
                <==> f in FieldsOf(merge.conflicts) || (Gap(merge.record, f, today) && !StatusOf(x, f).Denied?))
            && (f !in FieldsOf(merge.conflicts) && f in merge.record ==> f in Cleared(merge.record, us))
  {
    AskedExactly(Validate(merge.record, Some(today)), x, merge.conflicts, f);
    GapsAreLacks(merge.record, Some(today), f);
  }

  lemma SettlingAsks(d: Desk, id: Id, email: RawEmail, x: Extraction, merge: MergeResult, state: RequestState,
                     spent: bool, clock: TurnClock, f: FieldName)
    requires state == Received || state == ClarificationSent
    requires !spent && SomethingToAsk(merge, x, clock.validate.today)
    ensures var s := Settle(d, id, email, x, merge, state, false, spent, clock).0;
            && (AsksAbout(s, id, f) <==> f in FieldsOf(merge.conflicts)
                                         || (Gap(merge.record, f, clock.validate.today) && !StatusOf(x, f).Denied?))
            && (f !in FieldsOf(merge.conflicts) && f in merge.record ==>
                  id in s.requests && f in s.requests[id].record && s.requests[id].record[f] == merge.record[f])
  {
    var analysis := Identify(Validate(merge.record, Some(clock.validate.today)), x, merge.conflicts);
    AnalysisOfGaps(merge, x, clock.validate.today);
    SettlingHolds(d, id, email, x, merge, state, spent, clock, analysis);
    AskedOfAGap(merge, x, clock.validate.today, f);
  }

  /** What a reply that answers something asks about, when it is asked again: contradictions, and the gaps that this
      very message does not deny. What an earlier message denied plays no part. */
  lemma WhatAReplyIsAsked(d: Desk, maxRounds: int, e: Event, q: QuotationRequest, x: Extraction, merge: MergeResult,
                          f: FieldName)
    requires e.Inbound? && e.model.Understood? && Lookup(d.requests, e.id) == Some(q) && q.state == ClarificationSent
    requires x == ResolveShipDate(e.model.x, e.clock.resolve.today) && merge == MergeBy(Some(q), e.model.x, e.clock)
    requires EndsAt(Handle(d, maxRounds, e.id, e.email, e.model, e.send, e.clock), e.id, NeedsInfo)
    ensures var d' := Handle(d, maxRounds, e.id, e.email, e.model, e.send, e.clock).0;
            && (AsksAbout(d', e.id, f)
                <==> f in FieldsOf(merge.conflicts)
                     || (Gap(merge.record, f, e.clock.validate.today) && !StatusOf(x, f).Denied?))
            && (f !in FieldsOf(merge.conflicts) && f in merge.record ==>
                  f in d'.requests[e.id].record && d'.requests[e.id].record[f] == merge.record[f])
  {
    WhatAReplyComesTo(d, maxRounds, e, q, x, merge);
    AReplyIsJudged(d, maxRounds, e, q, x, merge);
    SettlingAsks(d, e.id, e.email, x, merge, ClarificationSent, RoundsOf(d.rounds, e.id) >= maxRounds, e.clock, f);
  }

  // ----- denials --------------------------------------------------------------------

  /** A reply that denies something lacking reaches a person in that turn if and only if something else it says
      cannot be used, or it says nothing and comes late, or there is nothing else to ask or no budget to ask it. */
  lemma WhenADenialReachesAPerson(
    d: Desk, maxRounds: int, e: Event, q: QuotationRequest, x: Extraction, merge: MergeResult, f: FieldName)
    requires e.Inbound? && e.model.Understood? && Lookup(d.requests, e.id) == Some(q) && q.state == ClarificationSent
    requires x == ResolveShipDate(e.model.x, e.clock.resolve.today) && merge == MergeBy(Some(q), e.model.x, e.clock)
    requires Lacks(merge.record, f) && StatusOf(x, f).Denied?
    ensures var silent := !CannotBeUsed(merge.record, x) && SaysNothing(q.record, merge.record, x);
            var spent := RoundsOf(d.rounds, e.id) >= maxRounds;
            EndsAt(Handle(d, maxRounds, e.id, e.email, e.model, e.send, e.clock), e.id, ManualReview)
            <==> CannotBeUsed(merge.record, x) || (silent && Late(q, e.clock))
                 || (!silent && (SomethingToAsk(merge, x, e.clock.validate.today) ==> spent))
  {
    WhatAReplyComesTo(d, maxRounds, e, q, x, merge);
    assert Gap(merge.record, f, e.clock.validate.today);
  }

  /** No field is addressed vaguely. */
  predicate NothingVague(x: Extraction) {
    forall f :: !StatusOf(x, f).Ambiguous?
  }

  lemma NothingVagueCanBeUsed(r: Fields, x: Extraction)
    requires NothingVague(x)
    ensures !CannotBeUsed(r, x)
  {
  }

  /** A message that answers nothing at all. */
  predicate Answerless(x: Extraction) {
    !AnyStated(x) && !AnyInvalid(x) && NothingVague(x) && !StatusOf(x, MsdsAttached).Denied?
  }

  lemma AnswerlessMessagesFillNothing(before: Fields, x: Extraction)
    requires Answerless(x)
    ensures Merge(before, ToExtractedFields(x)).record == before
  {
    assert forall f :: f !in ToExtractedFields(x);
  }

  /** A reply that states nothing is answered with the reminder, also when it denies what is lacking: the client is
      then asked for what only a person could settle. The request forgets which fields it was asked about. */
  lemma AnAnswerlessReplyIsReminded(d: Desk, maxRounds: int, e: Event, q: QuotationRequest, f: FieldName)
    requires e.Inbound? && e.model.Understood? && Answerless(e.model.x) && e.send.Delivered?
    requires Lookup(d.requests, e.id) == Some(q) && q.state == ClarificationSent && q.followupAt.None?
    requires Lacks(q.record, f)
    ensures var s := Handle(d, maxRounds, e.id, e.email, e.model, e.send, e.clock);
            && EndsAt(s, e.id, ClarificationSent)
            && s.0.requests[e.id] == QuotationRequest(ClarificationSent, q.record, e.email.fromAddress, None,
                                                      Some(e.clock.judge.at), [])
            && s.0.outbox == d.outbox + [Reminder(e.id, e.email.fromAddress, e.email.messageId)]
            && s.0.rounds == d.rounds
  {
    var x := ResolveShipDate(e.model.x, e.clock.resolve.today);
    assert x == e.model.x by {
      assert !StatusOf(e.model.x, ShipDate).Stated?;
    }
    AnswerlessMessagesFillNothing(q.record, x);
    NothingVagueCanBeUsed(q.record, x);
    WhatSilenceComesTo(d, maxRounds, e, q, x, MergeBy(Some(q), e.model.x, e.clock));
  }

  lemma DenialsAreAnswerless(f: FieldName)
    requires f != MsdsAttached
    ensures Answerless(map[]) && Answerless(map[f := Denied])
  {
    var nothing: Extraction, denial: Extraction := map[], map[f := Denied];
    assert forall g :: StatusOf(nothing, g).NotStated?;
    assert forall g :: StatusOf(denial, g).NotStated? || StatusOf(denial, g).Denied?;
  }

  /** An empty reply to a question, and all that the request was asked about is forgotten. */
  lemma TheReminderForgetsTheQuestion(d: Desk, maxRounds: int, e: Event, q: QuotationRequest, f: FieldName)
    requires e.Inbound? && e.model == Understood(map[]) && e.send.Delivered?
    requires Lookup(d.requests, e.id) == Some(q) && q.state == ClarificationSent && q.followupAt.None?
    requires Lacks(q.record, f)
    ensures var d' := Step(d, maxRounds, e);
            e.id in d'.requests && d'.requests[e.id].state == ClarificationSent && d'.requests[e.id].askedAbout == []
  {
    DenialsAreAnswerless(Origin);
    AnAnswerlessReplyIsReminded(d, maxRounds, e, q, f);
  }

  /** A denial and nothing else is answered with the reminder, and is forgotten: the next reply that states something,
      and is silent about the field, is answered with a question about it. */
  lemma ADenialIsAskedAboutAgain(d: Desk, maxRounds: int, deny: Event, next: Event, q: QuotationRequest, f: FieldName)
    requires f != MsdsAttached && deny.Inbound? && deny.model == Understood(map[f := Denied]) && deny.send.Delivered?
    requires Lookup(d.requests, deny.id) == Some(q) && q.state == ClarificationSent && q.followupAt.None?
    requires Lacks(q.record, f)
    requires next.Inbound? && next.id == deny.id && next.model.Understood? && AnyStated(next.model.x)
    requires NothingVague(next.model.x) && StatusOf(next.model.x, f).NotStated?
    requires RoundsOf(d.rounds, deny.id) < maxRounds
    ensures var d' := Step(d, maxRounds, deny);
            && d'.outbox == d.outbox + [Reminder(deny.id, deny.email.fromAddress, deny.email.messageId)]
            && AsksAbout(Step(d', maxRounds, next), deny.id, f)
  {
    DenialsAreAnswerless(f);
    AnAnswerlessReplyIsReminded(d, maxRounds, deny, q, f);
    var d' := Step(d, maxRounds, deny);
    AskedAboutAGap(d', maxRounds, next, d'.requests[deny.id], f);
  }

  // ----- gaps that are asked about --------------------------------------------------

  /** A reply that states something within the budget is answered with a question about every gap it is silent about,
      and leaves the value there. */
  lemma AskedAboutAGap(d: Desk, maxRounds: int, e: Event, q: QuotationRequest, f: FieldName)
    requires e.Inbound? && e.model.Understood? && Lookup(d.requests, e.id) == Some(q) && q.state == ClarificationSent
    requires AnyStated(e.model.x) && NothingVague(e.model.x) && RoundsOf(d.rounds, e.id) < maxRounds
    requires StatusOf(e.model.x, f).NotStated? && Gap(q.record, f, e.clock.validate.today)
    ensures var d' := Step(d, maxRounds, e);
            && AsksAbout(d', e.id, f) && e.id in d'.requests && d'.requests[e.id].state == NeedsInfo
            && (f in q.record ==> f in d'.requests[e.id].record && d'.requests[e.id].record[f] == q.record[f])
  {
    var x := ResolveShipDate(e.model.x, e.clock.resolve.today);
    var merge := MergeBy(Some(q), e.model.x, e.clock);
    ResolvingKeepsStatuses(e.model.x, e.clock.resolve.today);
    assert NothingVague(x) && StatusOf(x, f).NotStated?;
    NothingVagueCanBeUsed(merge.record, x);
    AnUnmentionedFieldStays(q.record, x, f);
    AnUnmentionedGapStays(q.record, x, f, e.clock.validate.today);
    AskedOnceMerged(d, maxRounds, e, q, x, merge, f);
  }

  lemma AskedOnceMerged(
    d: Desk, maxRounds: int, e: Event, q: QuotationRequest, x: Extraction, merge: MergeResult, f: FieldName)
    requires e.Inbound? && e.model.Understood? && Lookup(d.requests, e.id) == Some(q) && q.state == ClarificationSent
    requires x == ResolveShipDate(e.model.x, e.clock.resolve.today) && merge == MergeBy(Some(q), e.model.x, e.clock)
    requires AnyStated(x) && !CannotBeUsed(merge.record, x) && RoundsOf(d.rounds, e.id) < maxRounds
    requires Gap(merge.record, f, e.clock.validate.today) && !StatusOf(x, f).Denied? && f !in FieldsOf(merge.conflicts)
    ensures var s := Handle(d, maxRounds, e.id, e.email, e.model, e.send, e.clock);
            && EndsAt(s, e.id, NeedsInfo) && AsksAbout(s.0, e.id, f)
            && (f in merge.record ==> f in s.0.requests[e.id].record && s.0.requests[e.id].record[f] == merge.record[f])
  {
    NothingStatedOrInvalid(x);
    WhatAReplyComesTo(d, maxRounds, e, q, x, merge);
    WhatAReplyIsAsked(d, maxRounds, e, q, x, merge, f);
  }

  lemma AnUnmentionedFieldStays(before: Fields, x: Extraction, f: FieldName)
    requires StatusOf(x, f).NotStated?
    ensures var merge := Merge(before, ToExtractedFields(x));
            && f !in FieldsOf(merge.conflicts) && (f in merge.record <==> f in before)
            && (f in before ==> merge.record[f] == before[f])
  {
    MergeNeverReplaces(before, ToExtractedFields(x));
    MergeReportsEveryStatedField(before, ToExtractedFields(x), f);
  }

  lemma AnUnmentionedGapStays(before: Fields, x: Extraction, f: FieldName, today: Calendar.Day)
    requires StatusOf(x, f).NotStated? && Gap(before, f, today)
    ensures Gap(Merge(before, ToExtractedFields(x)).record, f, today)
  {
    AnUnmentionedFieldStays(before, x, f);
    MergeNeverReplaces(before, ToExtractedFields(x));
    GapsOfAFillRemain(before, Merge(before, ToExtractedFields(x)).record, f, today);
  }

  lemma GapsOfAFillRemain(before: Fields, after: Fields, f: FieldName, today: Calendar.Day)
    requires Gap(before, f, today) && (f in after <==> f in before)
    requires forall g :: g in before ==> g in after && after[g] == before[g]
    ensures Gap(after, f, today)
  {
  }

  /** So a stored shipment date that is past by now is asked about, and stays in the record. */
  lemma APastDateIsAskedAboutAndKept(d: Desk, maxRounds: int, e: Event, q: QuotationRequest)
    requires e.Inbound? && e.model.Understood? && Lookup(d.requests, e.id) == Some(q) && q.state == ClarificationSent
    requires AnyStated(e.model.x) && NothingVague(e.model.x) && RoundsOf(d.rounds, e.id) < maxRounds
    requires StatusOf(e.model.x, ShipDate).NotStated? && PastShipDate(q.record, e.clock.validate.today)
    ensures var d' := Step(d, maxRounds, e);
            && AsksAbout(d', e.id, ShipDate) && e.id in d'.requests && d'.requests[e.id].state == NeedsInfo
            && ShipDate in d'.requests[e.id].record && d'.requests[e.id].record[ShipDate] == q.record[ShipDate]
  {
    assert Gap(q.record, ShipDate, e.clock.validate.today);
    AskedAboutAGap(d, maxRounds, e, q, ShipDate);
  }
}
