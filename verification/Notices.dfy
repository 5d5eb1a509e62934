/** The failure notice: who is told that a message could not be read, how often, and what a restart makes of
    it. The time of the notice is stored with the request, and only what reached the store survives. */
module Notices {
  import opened Prelude
  import opened States
  import opened Workflow
  import opened WorkflowTheorems
  import opened WorkflowRuns
  import opened Routing
  import opened Durable
  import opened Restarts

  /** When the client was told, as these requests have it. */
  function ToldAt(requests: map<Id, QuotationRequest>, id: Id): Option<int> {
    if id in requests then requests[id].failureNoticeAt else None
  }

  /** Between these two states the request was sent a failure notice. */
  ghost predicate Notifies(d: Desk, d': Desk, id: Id) {
    Sent(d.outbox, id, NoticeMail) < Sent(d'.outbox, id, NoticeMail)
  }

  // ----- one step -----------------------------------------------------------

  function NoticeTime(q: Option<QuotationRequest>): Option<int> {
    if q.Some? then q.value.failureNoticeAt else None
  }

  /** No notice once the time of one is stored, which then stays; and the time is stored with the notice. */
  ghost predicate TellsOnce(v: View, v': View) {
    if NoticeTime(v.request).Some? then NoticeTime(v'.request) == NoticeTime(v.request) && v'.notices <= v.notices
    else v.notices < v'.notices <==> NoticeTime(v'.request).Some?
  }

  lemma AnEffectTellsOnce(v: View, maxRounds: int, e: Event, eff: Effect)
    requires Fit(v) && May(v, maxRounds, e, eff)
    ensures TellsOnce(v, ApplyToView(v, eff))
  {
    if NoticeTime(v.request).Some? {
      AToldRequestStaysTold(v, maxRounds, e, eff);
    } else {
      ATimeComesWithANotice(v, maxRounds, e, eff);
    }
  }

  lemma AToldRequestStaysTold(v: View, maxRounds: int, e: Event, eff: Effect)
    requires Fit(v) && NoticeTime(v.request).Some? && May(v, maxRounds, e, eff)
    ensures var after := ApplyToView(v, eff);
            NoticeTime(after.request) == NoticeTime(v.request) && after.notices == v.notices
  {
  }

  lemma ATimeComesWithANotice(v: View, maxRounds: int, e: Event, eff: Effect)
    requires Fit(v) && NoticeTime(v.request).None? && May(v, maxRounds, e, eff)
    ensures var after := ApplyToView(v, eff);
            v.notices < after.notices <==> NoticeTime(after.request).Some?
  {
  }

  lemma AStepTellsOnce(d: Desk, maxRounds: int, e: Event, id: Id)
    requires AllFit(d)
    ensures TellsOnce(ViewOf(d, id), ViewOf(Step(d, maxRounds, e), id))
  {
    if !e.Deadline? {
      var eff := TheEffect(d, maxRounds, e);
      assert Fit(ViewOf(d, id));
      if id == e.id {
        AnEffectTellsOnce(ViewOf(d, id), maxRounds, e, eff);
      } else {
        assert ViewOf(Step(d, maxRounds, e), id) == ViewOf(d, id);
      }
    }
  }

  /** From any desk whose stored requests are sane: once the time of a notice is stored it never changes, and no
      further notice is sent to that request; it is stored in the step that sends the notice, and in no other. */
  lemma ANoticeIsSentOnce(d: Desk, maxRounds: int, e: Event, id: Id)
    requires AllFit(d)
    ensures var d' := Step(d, maxRounds, e);
            if ToldAt(d.requests, id).Some?
            then ToldAt(d'.requests, id) == ToldAt(d.requests, id) && !Notifies(d, d', id)
            else Notifies(d, d', id) <==> ToldAt(d'.requests, id).Some?
  {
    AStepTellsOnce(d, maxRounds, e, id);
  }

  // ----- the whole system, across restarts -------------------------------------

  /** On Redis any run will do; with files, one whose commits all complete. */
  predicate Reliable(redis: bool, events: seq<SystemEvent>) {
    redis || forall e :: e in events ==> Completed(e)
  }

  /** What is on disk is threaded there, and with files it is also what is in memory. */
  lemma ReliableDisks(redis: bool, maxRounds: int, events: seq<SystemEvent>)
    requires Reliable(redis, events)
    ensures var c := SystemRun(redis, maxRounds, events).copies; NoOrphans(c.disk) && (!redis ==> c.cache == c.disk)
  {
    RunIsSound(redis, maxRounds, events);
    if !redis {
      CompletedCommitsOrphanNothing(maxRounds, events);
      CopiesAgree(redis, maxRounds, events);
    }
  }

  /** What the desk, the copy on disk and the working copy say after an event that does not reach the store. */
  lemma ToldOnDiskAfter(s: System, redis: bool, maxRounds: int, e: SystemEvent, id: Id)
    requires redis || (Completed(e) && s.copies.cache == s.copies.disk)
    ensures var disk := SystemStep(s, redis, maxRounds, e).copies.disk;
            ToldAt(disk.requests, id)
            == if Reached(redis, e, id) && id in s.office.desk.requests then ToldAt(s.office.desk.requests, id)
               else ToldAt(s.copies.disk.requests, id)
  {
  }

  lemma ToldAfterARestart(s: System, redis: bool, maxRounds: int, id: Id)
    requires NoOrphans(s.copies.disk)
    ensures ToldAt(SystemStep(s, redis, maxRounds, Restart).office.desk.requests, id)
            == ToldAt(s.copies.disk.requests, id)
  {
    SeedingLosesOnlyOrphans(s.copies.disk);
  }

  /** The system sends the request a notice in this step. */
  ghost predicate NotifiesIn(s: System, redis: bool, maxRounds: int, e: SystemEvent, id: Id) {
    Notifies(s.office.desk, SystemStep(s, redis, maxRounds, e).office.desk, id)
  }

  lemma AnOfficeStepTellsOnce(s: System, redis: bool, maxRounds: int, e: SystemEvent, id: Id)
    requires AllFit(s.office.desk) && !e.Restart?
    ensures TellsOnce(ViewOf(s.office.desk, id), ViewOf(SystemStep(s, redis, maxRounds, e).office.desk, id))
  {
    if e.Worked? {
      RouteStepsTheDesk(s.office, maxRounds, e.e);
      if DeskEvent(s.office.threads, e.e) != [] {
        AStepTellsOnce(s.office.desk, maxRounds, DeskEvent(s.office.threads, e.e)[0], id);
      }
    }
  }

  lemma NoNoticeOnRestart(s: System, redis: bool, maxRounds: int, id: Id)
    ensures !NotifiesIn(s, redis, maxRounds, Restart, id)
  {
  }

  /** The notice was sent before this run, and some restart in it came before any commit of the request. */
  predicate Forgotten(redis: bool, since: seq<SystemEvent>, id: Id) {
    exists k :: 0 <= k < |since| && since[k].Restart? && Unreached(redis, since, k, id)
  }

  predicate Unreached(redis: bool, since: seq<SystemEvent>, k: nat, id: Id)
    requires k <= |since|
  {
    forall i :: 0 <= i < k ==> !Reached(redis, since[i], id)
  }

  lemma ForgottenOneMore(redis: bool, since: seq<SystemEvent>, e: SystemEvent, id: Id)
    ensures Forgotten(redis, since + [e], id)
            <==> Forgotten(redis, since, id) || (e.Restart? && Unreached(redis, since, |since|, id))
    ensures Unreached(redis, since + [e], |since| + 1, id)
            <==> Unreached(redis, since, |since|, id) && !Reached(redis, e, id)
  {
    var all := since + [e];
    assert forall i :: 0 <= i < |since| ==> all[i] == since[i];
    assert all[|since|] == e;
    if Forgotten(redis, since, id) {
      var k :| 0 <= k < |since| && since[k].Restart? && Unreached(redis, since, k, id);
      assert all[k].Restart? && Unreached(redis, all, k, id);
    }
    if e.Restart? && Unreached(redis, since, |since|, id) {
      assert all[|since|].Restart? && Unreached(redis, all, |since|, id);
    }
    if Forgotten(redis, all, id) {
      var k :| 0 <= k < |all| && all[k].Restart? && Unreached(redis, all, k, id);
      assert k < |since| ==> since[k].Restart? && Unreached(redis, since, k, id);
    }
  }

  // ----- a time on disk is there for good ----------------------------------------

  /** A time on disk is also the one at work. */
  ghost predicate ToldAlike(s: System, id: Id) {
    ToldAt(s.copies.disk.requests, id).Some? ==>
      ToldAt(s.office.desk.requests, id) == ToldAt(s.copies.disk.requests, id)
  }

  lemma AStepToldAlike(s: System, redis: bool, maxRounds: int, e: SystemEvent, id: Id)
    requires AllFit(s.office.desk) && NoOrphans(s.copies.disk) && ToldAlike(s, id)
    requires redis || (Completed(e) && s.copies.cache == s.copies.disk)
    ensures ToldAlike(SystemStep(s, redis, maxRounds, e), id)
    ensures ToldAt(s.copies.disk.requests, id).Some? ==>
              var disk := SystemStep(s, redis, maxRounds, e).copies.disk;
              && ToldAt(disk.requests, id) == ToldAt(s.copies.disk.requests, id)
              && !NotifiesIn(s, redis, maxRounds, e, id)
  {
    ToldOnDiskAfter(s, redis, maxRounds, e, id);
    if e.Restart? {
      ToldAfterARestart(s, redis, maxRounds, id);
      NoNoticeOnRestart(s, redis, maxRounds, id);
    } else {
      AnOfficeStepTellsOnce(s, redis, maxRounds, e, id);
    }
  }

  lemma LastApart<T>(events: seq<T>, since: seq<T>)
    requires since != []
    ensures var init, e := since[..|since| - 1], since[|since| - 1];
            since == init + [e] && events + since == (events + init) + [e]
  {
  }

  lemma ReliableOneMore(redis: bool, events: seq<SystemEvent>, e: SystemEvent)
    requires Reliable(redis, events + [e])
    ensures Reliable(redis, events) && (redis || Completed(e))
  {
    if !redis {
      assert (events + [e])[|events|] == e && forall x :: x in events ==> x in events + [e];
    }
  }

  lemma {:induction false} RunToldAlike(redis: bool, maxRounds: int, events: seq<SystemEvent>, id: Id)
    requires Reliable(redis, events)
    ensures ToldAlike(SystemRun(redis, maxRounds, events), id)
  {
    if events == [] {
    } else {
      var init, e := events[..|events| - 1], events[|events| - 1];
      LastApart([], events);
      ReliableOneMore(redis, init, e);
      RunToldAlike(redis, maxRounds, init, id);
      RunIsSane(redis, maxRounds, init);
      ReliableDisks(redis, maxRounds, init);
      AStepToldAlike(SystemRun(redis, maxRounds, init), redis, maxRounds, e, id);
    }
  }

  /** Once a stored copy of the request carries the time of its notice, it does so in every continuation, whatever
      restarts, and so does the request at work. */
  lemma {:induction false} ATimeOnDiskIsForGood(
    redis: bool, maxRounds: int, events: seq<SystemEvent>, later: seq<SystemEvent>, id: Id)
    requires Reliable(redis, events + later)
    requires ToldAt(SystemRun(redis, maxRounds, events).copies.disk.requests, id).Some?
    ensures var disk, s := SystemRun(redis, maxRounds, events).copies.disk, SystemRun(redis, maxRounds, events + later);
            && ToldAt(s.copies.disk.requests, id) == ToldAt(disk.requests, id)
            && ToldAt(s.office.desk.requests, id) == ToldAt(s.copies.disk.requests, id)
    decreases |later|
  {
    RunToldAlike(redis, maxRounds, events + later, id);
    if later == [] {
      assert events + later == events;
    } else {
      var init, e := later[..|later| - 1], later[|later| - 1];
      LastApart(events, later);
      ReliableOneMore(redis, events + init, e);
      ATimeOnDiskIsForGood(redis, maxRounds, events, init, id);
      RunIsSane(redis, maxRounds, events + init);
      ReliableDisks(redis, maxRounds, events + init);
      RunOneMore(redis, maxRounds, events + init, e);
      AStepToldAlike(SystemRun(redis, maxRounds, events + init), redis, maxRounds, e, id);
    }
  }

  /** And from then on no process sends that request a notice, whatever further messages cannot be read. */
  lemma NoNoticeAfterATimeOnDisk(
    redis: bool, maxRounds: int, events: seq<SystemEvent>, later: seq<SystemEvent>, e: SystemEvent, id: Id)
    requires Reliable(redis, events + later + [e])
    requires ToldAt(SystemRun(redis, maxRounds, events).copies.disk.requests, id).Some?
    ensures !NotifiesIn(SystemRun(redis, maxRounds, events + later), redis, maxRounds, e, id)
  {
    ReliableOneMore(redis, events + later, e);
    ATimeOnDiskIsForGood(redis, maxRounds, events, later, id);
    RunIsSane(redis, maxRounds, events + later);
    ReliableDisks(redis, maxRounds, events + later);
    AStepToldAlike(SystemRun(redis, maxRounds, events + later), redis, maxRounds, e, id);
  }

  // ----- exactly when a notice is forgotten -----------------------------------------

  /** The desk has the time unless it was forgotten, and the disk if moreover it was reached. */
  ghost predicate Remembers(s: System, redis: bool, since: seq<SystemEvent>, id: Id, at: Option<int>) {
    && ToldAt(s.office.desk.requests, id) == (if Forgotten(redis, since, id) then None else at)
    && ToldAt(s.copies.disk.requests, id)
       == if Forgotten(redis, since, id) || Unreached(redis, since, |since|, id) then None else at
  }

  lemma OneMoreSince(
    s: System, redis: bool, maxRounds: int, since: seq<SystemEvent>, e: SystemEvent, id: Id, at: Option<int>)
    requires AllFit(s.office.desk) && NoOrphans(s.copies.disk) && at.Some? && Remembers(s, redis, since, id, at)
    requires redis || (Completed(e) && s.copies.cache == s.copies.disk)
    requires !NotifiesIn(s, redis, maxRounds, e, id)
    ensures Remembers(SystemStep(s, redis, maxRounds, e), redis, since + [e], id, at)
  {
    ForgottenOneMore(redis, since, e, id);
    ToldOnDiskAfter(s, redis, maxRounds, e, id);
    if e.Restart? {
      ToldAfterARestart(s, redis, maxRounds, id);
    } else {
      AnOfficeStepTellsOnce(s, redis, maxRounds, e, id);
    }
  }

  /** The last of these events sends the request a notice. */
  ghost predicate EndsWithANotice(redis: bool, maxRounds: int, events: seq<SystemEvent>, id: Id) {
    events != [] &&
    var init, e := events[..|events| - 1], events[|events| - 1];
    NotifiesIn(SystemRun(redis, maxRounds, init), redis, maxRounds, e, id)
  }

  ghost predicate NoneNotifies(redis: bool, maxRounds: int, events: seq<SystemEvent>, since: seq<SystemEvent>, id: Id) {
    forall k :: 0 <= k < |since| ==> !NotifiesAt(redis, maxRounds, events, since, k, id)
  }

  ghost predicate NotifiesAt(
    redis: bool, maxRounds: int, events: seq<SystemEvent>, since: seq<SystemEvent>, k: nat, id: Id)
    requires k < |since|
  {
    NotifiesIn(SystemRun(redis, maxRounds, events + since[..k]), redis, maxRounds, since[k], id)
  }

  /** A step that sends a notice leaves the time of it with the request at work, and none on disk. */
  lemma AStepWithANotice(s: System, redis: bool, maxRounds: int, e: SystemEvent, id: Id)
    requires AllFit(s.office.desk) && ToldAlike(s, id) && NotifiesIn(s, redis, maxRounds, e, id)
    requires redis || (Completed(e) && s.copies.cache == s.copies.disk)
    ensures var after := SystemStep(s, redis, maxRounds, e);
            ToldAt(after.office.desk.requests, id).Some? && ToldAt(after.copies.disk.requests, id).None?
  {
    ToldOnDiskAfter(s, redis, maxRounds, e, id);
    if e.Restart? {
      NoNoticeOnRestart(s, redis, maxRounds, id);
    } else {
      AnOfficeStepTellsOnce(s, redis, maxRounds, e, id);
    }
  }

  lemma ANoticeIsNotOnDiskYet(redis: bool, maxRounds: int, events: seq<SystemEvent>, id: Id)
    requires Reliable(redis, events) && EndsWithANotice(redis, maxRounds, events, id)
    ensures var s := SystemRun(redis, maxRounds, events);
            && ToldAt(s.office.desk.requests, id).Some?
            && Remembers(s, redis, [], id, ToldAt(s.office.desk.requests, id))
  {
    var init, e := events[..|events| - 1], events[|events| - 1];
    LastApart([], events);
    ReliableOneMore(redis, init, e);
    RunIsSane(redis, maxRounds, init);
    RunToldAlike(redis, maxRounds, init, id);
    ReliableDisks(redis, maxRounds, init);
    AStepWithANotice(SystemRun(redis, maxRounds, init), redis, maxRounds, e, id);
  }

  lemma NoneNotifiesBefore(
    redis: bool, maxRounds: int, events: seq<SystemEvent>, since: seq<SystemEvent>, e: SystemEvent, id: Id)
    requires NoneNotifies(redis, maxRounds, events, since + [e], id)
    ensures NoneNotifies(redis, maxRounds, events, since, id)
    ensures !NotifiesIn(SystemRun(redis, maxRounds, events + since), redis, maxRounds, e, id)
  {
    var all := since + [e];
    forall k | 0 <= k < |since| ensures !NotifiesAt(redis, maxRounds, events, since, k, id) {
      assert all[..k] == since[..k] && !NotifiesAt(redis, maxRounds, events, all, k, id);
    }
    assert all[..|since|] == since && !NotifiesAt(redis, maxRounds, events, all, |since|, id);
  }

  /** After a notice, and as long as no other is sent: the request at work has the time of it unless a restart came
      before any commit of that request reached the store, and the copy on disk has it if moreover one did. */
  lemma {:induction false} ANoticeIsRememberedUnlessForgotten(
    redis: bool, maxRounds: int, events: seq<SystemEvent>, since: seq<SystemEvent>, id: Id)
    requires Reliable(redis, events + since) && EndsWithANotice(redis, maxRounds, events, id)
    requires NoneNotifies(redis, maxRounds, events, since, id)
    ensures Remembers(SystemRun(redis, maxRounds, events + since), redis, since, id,
                      ToldAt(SystemRun(redis, maxRounds, events).office.desk.requests, id))
    ensures ToldAt(SystemRun(redis, maxRounds, events).office.desk.requests, id).Some?
    decreases |since|
  {
    if since == [] {
      assert events + since == events;
      ANoticeIsNotOnDiskYet(redis, maxRounds, events, id);
    } else {
      var init, e := since[..|since| - 1], since[|since| - 1];
      LastApart(events, since);
      ReliableOneMore(redis, events + init, e);
      NoneNotifiesBefore(redis, maxRounds, events, init, e, id);
      ANoticeIsRememberedUnlessForgotten(redis, maxRounds, events, init, id);
      RememberedOneMore(redis, maxRounds, events + init, init, e, id,
                        ToldAt(SystemRun(redis, maxRounds, events).office.desk.requests, id));
    }
  }

  lemma RememberedOneMore(
    redis: bool, maxRounds: int, run: seq<SystemEvent>, since: seq<SystemEvent>, e: SystemEvent, id: Id,
    at: Option<int>)
    requires Reliable(redis, run) && (redis || Completed(e)) && at.Some?
    requires var s := SystemRun(redis, maxRounds, run);
             Remembers(s, redis, since, id, at) && !NotifiesIn(s, redis, maxRounds, e, id)
    ensures Remembers(SystemRun(redis, maxRounds, run + [e]), redis, since + [e], id, at)
  {
    RunIsSane(redis, maxRounds, run);
    ReliableDisks(redis, maxRounds, run);
    RunOneMore(redis, maxRounds, run, e);
    OneMoreSince(SystemRun(redis, maxRounds, run), redis, maxRounds, since, e, id, at);
  }

  /** A message that cannot be read is answered with a notice exactly when its request is new or waiting and has
      not been told. */
  lemma WhoIsNotified(s: System, redis: bool, maxRounds: int, v: Delivery, id: Id)
    requires AllFit(s.office.desk) && v.model.ContractBroken? && v.send.Delivered?
    requires DeskEvent(s.office.threads, Arrives(v)) == [Handled(v, id)]
    ensures NotifiesIn(s, redis, maxRounds, Worked(Arrives(v)), id)
            <==> ToldAt(s.office.desk.requests, id).None?
                 && (id in s.office.desk.requests ==> s.office.desk.requests[id].state == ClarificationSent)
  {
    var d := s.office.desk;
    RouteStepsTheDesk(s.office, maxRounds, Arrives(v));
    assert Fit(ViewOf(d, id));
    AStepTellsOnce(d, maxRounds, Handled(v, id), id);
    var eff := EffectOfMessage(d, maxRounds, Handled(v, id));
  }

  /** So a second notice leaves, for a message that can be answered with one, if and only if the first was
      forgotten: some restart came after it and before any commit of the request. */
  lemma ASecondNoticeLeavesIffForgotten(
    redis: bool, maxRounds: int, events: seq<SystemEvent>, since: seq<SystemEvent>, v: Delivery, id: Id)
    requires Reliable(redis, events + since) && EndsWithANotice(redis, maxRounds, events, id)
    requires NoneNotifies(redis, maxRounds, events, since, id)
    requires v.model.ContractBroken? && v.send.Delivered?
    requires var o := SystemRun(redis, maxRounds, events + since).office;
             && DeskEvent(o.threads, Arrives(v)) == [Handled(v, id)]
             && (id in o.desk.requests ==> o.desk.requests[id].state == ClarificationSent)
    ensures NotifiesIn(SystemRun(redis, maxRounds, events + since), redis, maxRounds, Worked(Arrives(v)), id)
            <==> Forgotten(redis, since, id)
  {
    ANoticeIsRememberedUnlessForgotten(redis, maxRounds, events, since, id);
    RunIsSane(redis, maxRounds, events + since);
    WhoIsNotified(SystemRun(redis, maxRounds, events + since), redis, maxRounds, v, id);
  }

  /** The run in which it does: the notice is sent, the process restarts before anything is committed, and the
      unrecorded message is delivered again. */
  lemma ANoticeIsSentAgain(redis: bool, maxRounds: int, v: Delivery)
    requires v.model.ContractBroken? && v.send.Delivered? && !v.automated
    ensures var e := Worked(Arrives(v));
            && NotifiesIn(SystemRun(redis, maxRounds, []), redis, maxRounds, e, v.newId)
            && SystemRun(redis, maxRounds, [e] + [Restart]) == SystemRun(redis, maxRounds, [])
            && NotifiesIn(SystemRun(redis, maxRounds, [e] + [Restart]), redis, maxRounds, e, v.newId)
  {
    AFirstMessageIsNotified(redis, maxRounds, v);
    ARestartUndoesADelivery(redis, maxRounds, v);
  }

  lemma AFirstMessageIsNotified(redis: bool, maxRounds: int, v: Delivery)
    requires v.model.ContractBroken? && v.send.Delivered? && !v.automated
    ensures NotifiesIn(FRESH, redis, maxRounds, Worked(Arrives(v)), v.newId)
  {
    RunIsSane(redis, maxRounds, []);
    assert DeskEvent(FRESH.office.threads, Arrives(v)) == [Handled(v, v.newId)];
    WhoIsNotified(FRESH, redis, maxRounds, v, v.newId);
  }

  lemma ARestartUndoesADelivery(redis: bool, maxRounds: int, v: Delivery)
    ensures SystemRun(redis, maxRounds, [Worked(Arrives(v))] + [Restart]) == FRESH
  {
    var e := Worked(Arrives(v));
    assert [] + [e] == [e];
    RunOneMore(redis, maxRounds, [], e);
    RunOneMore(redis, maxRounds, [e], Restart);
    NothingIsReadBack(SystemRun(redis, maxRounds, [e]), redis, maxRounds);
  }

  lemma NothingIsReadBack(s: System, redis: bool, maxRounds: int)
    requires s.copies == FRESH.copies
    ensures SystemStep(s, redis, maxRounds, Restart) == FRESH
  {
    SeedingLosesOnlyOrphans(NOTHING);
  }
}
