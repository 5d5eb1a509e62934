/** The quotation gate: a person is asked before anything is sent, what was decided is not asked again, and a
    quotation leaves at most once, across any number of stage instances that share a store. */
module Gate {
  import opened Prelude
  import opened Shipment
  import opened States
  import opened Workflow
  import opened WorkflowClass
  import Rates

  datatype Decision = ApprovedBy(approver: string) | RejectedBy(maker: string)

  /** The material of one review. */
  datatype Packet = Packet(requestId: Id, record: Fields, selection: Rates.Selection)

  datatype GateReply = Decided(decision: Decision) | GateRaised

  /** One call of `run`: the packet, the client's address, and what the sink and the person do. */
  datatype Visit = Visit(packet: Packet, clientAddress: string, review: SendReply, gate: GateReply, send: SendReply)

  /** What leaves the stage or comes back from the person. */
  datatype GateEvent =
    | Reviewed(id: Id)
    | Answered(id: Id, decision: Decision)
    | Quoted(id: Id, approver: string, toAddress: string)

  datatype Problem =
    | AlreadyDecided | AlreadySettled | NotSent | NoDecision | IncompatibleService | AlreadyDispatched

  datatype GateOutcome = GateOutcome(requestId: Id, state: RequestState, decision: Decision, sent: bool)

  /** What one stage instance remembers. */
  datatype Ledger = Ledger(decided: map<Id, Decision>, dispatched: map<Id, string>)

  const NEW_LEDGER: Ledger := Ledger(map[], map[])

  type Requests = map<Id, QuotationRequest>

  datatype Stage = Stage(ledger: Ledger, store: Option<Requests>, log: seq<GateEvent>)

  const SETTLED_STATES: set<RequestState> := {QuotationSent, MakerRejected}

  // ----- one run ------------------------------------------------------------

  predicate Knows(store: Option<Requests>, id: Id) {
    store.Some? && id in store.value
  }

  /** `_save`: the state is written for a stored request, and for no other. */
  function Saved(s: Stage, id: Id, state: RequestState): Stage {
    if Knows(s.store, id) then s.(store := Some(s.store.value[id := s.store.value[id].(state := state)])) else s
  }

  function Logged(s: Stage, e: GateEvent): Stage {
    s.(log := s.log + [e])
  }

  function DecisionKept(s: Stage, id: Id, d: Decision): Stage {
    s.(ledger := s.ledger.(decided := s.ledger.decided[id := d]))
  }

  predicate LeftTheGate(store: Option<Requests>, id: Id) {
    Knows(store, id) && store.value[id].state in SETTLED_STATES
  }

  /** `run`, from the guards to the outcome. */
  function RunOnce(s: Stage, v: Visit): (Stage, Result<GateOutcome, Problem>) {
    var id := v.packet.requestId;
    if id in s.ledger.decided then (s, Raised(AlreadyDecided))
    else if LeftTheGate(s.store, id) then (s, Raised(AlreadySettled))
    else
      var pending := Saved(s, id, PendingApproval);
      if v.review.Refused? then (pending, Raised(NotSent))
      else
        var reviewed := Logged(pending, Reviewed(id));
        if v.gate.GateRaised? then (reviewed, Raised(NoDecision))
        else ActOn(Logged(DecisionKept(reviewed, id, v.gate.decision), Answered(id, v.gate.decision)), v,
            v.gate.decision)
  }

  /** What follows a decision. */
  function ActOn(s: Stage, v: Visit, d: Decision): (Stage, Result<GateOutcome, Problem>) {
    var id := v.packet.requestId;
    if d.RejectedBy? then (Saved(s, id, MakerRejected), Returned(GateOutcome(id, MakerRejected, d, false)))
    else if Rates.BuildQuotation(v.packet.record, v.packet.selection).Raised? then (s, Raised(IncompatibleService))
    else if id in s.ledger.dispatched then (s, Raised(AlreadyDispatched))
    else if v.send.Refused? then (s, Raised(NotSent))
    else
      var sent := Logged(s, Quoted(id, d.approver, v.clientAddress));
      var noted := sent.(ledger := sent.ledger.(dispatched := sent.ledger.dispatched[id := d.approver]));
      (Saved(noted, id, QuotationSent), Returned(GateOutcome(id, QuotationSent, d, true)))
  }

  // ----- what one run can do ------------------------------------------------

  /** The events of one run, in the only orders they come in: a quotation only right after an approval, given
      right after the review was sent. */
  ghost predicate RunsTo(tail: seq<GateEvent>, id: Id, address: string) {
    || tail == [] || tail == [Reviewed(id)]
    || (exists d :: tail == [Reviewed(id), Answered(id, d)])
    || (exists a :: tail == [Reviewed(id), Answered(id, ApprovedBy(a)), Quoted(id, a, address)])
  }

  predicate Final(e: GateEvent) {
    e.Quoted? || (e.Answered? && e.decision.RejectedBy?)
  }

  /** What one run adds to the log. */
  lemma OneRun(s: Stage, v: Visit) returns (tail: seq<GateEvent>)
    ensures var r := RunOnce(s, v); var id := v.packet.requestId;
            && r.0.log == s.log + tail && RunsTo(tail, id, v.clientAddress)
            && (id in s.ledger.decided || LeftTheGate(s.store, id) ==> tail == [] && r.0 == s)
            && (tail != [] && Final(tail[|tail| - 1]) ==> id in r.0.ledger.decided)
            && (tail != [] && Final(tail[|tail| - 1]) && Knows(s.store, id) ==> LeftTheGate(r.0.store, id))
            && (r.1.Returned? && r.1.value.sent <==> tail != [] && tail[|tail| - 1].Quoted?)
  {
    var r := RunOnce(s, v);
    tail := r.0.log[|s.log|..];
    if |tail| == 2 {
      assert tail == [Reviewed(v.packet.requestId), Answered(v.packet.requestId, v.gate.decision)];
    }
    if |tail| == 3 {
      assert tail == [Reviewed(v.packet.requestId), Answered(v.packet.requestId, ApprovedBy(v.gate.decision.approver)),
                      Quoted(v.packet.requestId, v.gate.decision.approver, v.clientAddress)];
    }
  }

  /** What one run leaves alone: every other request, every record, whether the store knows a request, what
      was decided before, and a settled state. */
  lemma OneRunKeeps(s: Stage, v: Visit, other: Id)
    ensures var r := RunOnce(s, v).0;
            && (Knows(r.store, other) <==> Knows(s.store, other))
            && (other in s.ledger.decided ==> other in r.ledger.decided)
            && (other in r.ledger.decided ==> other in s.ledger.decided || other == v.packet.requestId)
            && (Knows(s.store, other) ==>
                  && r.store.value[other].record == s.store.value[other].record
                  && (other != v.packet.requestId || LeftTheGate(s.store, other)
                     ==> r.store.value[other] == s.store.value[other]))
  {
    var id := v.packet.requestId;
    if id !in s.ledger.decided && !LeftTheGate(s.store, id) {
      var pending := Saved(s, id, PendingApproval);
      var reviewed := Logged(pending, Reviewed(id));
      if v.review.Delivered? && v.gate.Decided? {
        var answered := Logged(DecisionKept(reviewed, id, v.gate.decision), GateEvent.Answered(id, v.gate.decision));
        ActingKeeps(answered, v, v.gate.decision, other);
      }
    }
  }

  /** The same of what follows a decision. */
  lemma ActingKeeps(s: Stage, v: Visit, d: Decision, other: Id)
    ensures var r := ActOn(s, v, d).0;
            && (Knows(r.store, other) <==> Knows(s.store, other)) && r.ledger.decided == s.ledger.decided
            && (Knows(s.store, other) ==>
                  && r.store.value[other].record == s.store.value[other].record
                  && (other != v.packet.requestId ==> r.store.value[other] == s.store.value[other]))
  {
  }

  // ----- where one run ends -------------------------------------------------

  /** The person was asked, and answered. */
  predicate Answers(v: Visit) {
    v.review.Delivered? && v.gate.Decided?
  }

  predicate Declines(v: Visit) {
    Answers(v) && v.gate.decision.RejectedBy?
  }

  /** The delivery the client asked for is one this rate includes. */
  predicate Includes(v: Visit) {
    var record := v.packet.record;
    DeliveryType in record && record[DeliveryType] == Delivery(Door)
    ==> v.packet.selection.rate.servesDoor == Some(true)
  }

  /** All that a quotation needs. */
  predicate Quotes(s: Stage, v: Visit) {
    && Answers(v) && v.gate.decision.ApprovedBy? && Includes(v)
    && v.packet.requestId !in s.ledger.dispatched && v.send.Delivered?
  }

  /** What a run adds to the log. */
  ghost predicate Adds(s: Stage, v: Visit, tail: seq<GateEvent>) {
    var id := v.packet.requestId;
    if v.review.Refused? then tail == []
    else if v.gate.GateRaised? then tail == [Reviewed(id)]
    else if Quotes(s, v)
    then tail == [Reviewed(id), Answered(id, v.gate.decision), Quoted(id, v.gate.decision.approver, v.clientAddress)]
    else tail == [Reviewed(id), Answered(id, v.gate.decision)]
  }

  /** Why a run that asked gave no outcome. */
  predicate Explains(s: Stage, v: Visit, why: Problem) {
    match why
    case NotSent =>
      v.review.Refused? || (Answers(v) && Includes(v) && v.packet.requestId !in s.ledger.dispatched && v.send.Refused?)
    case NoDecision => v.review.Delivered? && v.gate.GateRaised?
    case IncompatibleService => Answers(v) && !Includes(v)
    case AlreadyDispatched => Answers(v) && Includes(v) && v.packet.requestId in s.ledger.dispatched
    case _ => false
  }

  /** A run asks unless this stage decided before, or the store has the request settled. */
  lemma WhenARunIsRefused(s: Stage, v: Visit)
    ensures var r, id := RunOnce(s, v), v.packet.requestId;
            && (r.1 == Raised(AlreadyDecided) <==> id in s.ledger.decided)
            && (r.1 == Raised(AlreadySettled) <==>
                  id !in s.ledger.decided && Knows(s.store, id)
                      && s.store.value[id].state in {QuotationSent, MakerRejected})
            && (id in s.ledger.decided || LeftTheGate(s.store, id) ==> r.0 == s)
  {
  }

  /** What a run that asks reports, from the visit alone. */
  ghost predicate Returns(s: Stage, v: Visit, r: Result<GateOutcome, Problem>) {
    var id := v.packet.requestId;
    if Declines(v) then r == Returned(GateOutcome(id, MakerRejected, v.gate.decision, false))
    else if Quotes(s, v) then r == Returned(GateOutcome(id, QuotationSent, v.gate.decision, true))
    else r.Raised? && Explains(s, v, r.error)
  }

  /** What it remembers. */
  ghost predicate Learns(s: Stage, v: Visit, ledger: Ledger) {
    var id := v.packet.requestId;
    && ledger.decided == (if Answers(v) then s.ledger.decided[id := v.gate.decision] else s.ledger.decided)
    && ledger.dispatched
       == if Quotes(s, v) then s.ledger.dispatched[id := v.gate.decision.approver] else s.ledger.dispatched
  }

  lemma WhatActingDoes(s: Stage, v: Visit)
    requires Answers(v)
    ensures var id, r := v.packet.requestId, ActOn(s, v, v.gate.decision);
            && Returns(s, v, r.1) && r.0.ledger.decided == s.ledger.decided
            && r.0.log == (if Quotes(s, v) then s.log + [Quoted(id, v.gate.decision.approver, v.clientAddress)]
               else s.log)
            && r.0.ledger.dispatched == (if Quotes(s, v) then s.ledger.dispatched[id := v.gate.decision.approver]
                                         else s.ledger.dispatched)
            && r.0.store == (if Declines(v) then Saved(s, id, MakerRejected)
                             else if Quotes(s, v) then Saved(s, id, QuotationSent) else s).store
  {
    assert Rates.BuildQuotation(v.packet.record, v.packet.selection).Returned? <==> Includes(v);
  }

  lemma SavedOver(s: Stage, t: Stage, id: Id, pending: RequestState, state: RequestState)
    requires t.store == Saved(s, id, pending).store
    ensures Saved(t, id, state).store == Saved(s, id, state).store
  {
    if Knows(s.store, id) {
      assert Saved(t, id, state).store.value == Saved(s, id, state).store.value;
    }
  }

  /** A run that is not refused, for a request that may or may not be stored: what it mails, remembers and reports. */
  lemma WhatARunDoes(s: Stage, v: Visit) returns (tail: seq<GateEvent>)
    requires v.packet.requestId !in s.ledger.decided && !LeftTheGate(s.store, v.packet.requestId)
    ensures var r := RunOnce(s, v);
            r.0.log == s.log + tail && Adds(s, v, tail) && Learns(s, v, r.0.ledger) && Returns(s, v, r.1)
    ensures var id := v.packet.requestId;
            RunOnce(s, v).0.store == Saved(s, id, if Declines(v) then MakerRejected
                                                  else if Quotes(s, v) then QuotationSent else PendingApproval).store
  {
    var id := v.packet.requestId;
    var pending := Saved(s, id, PendingApproval);
    var reviewed := Logged(pending, Reviewed(id));
    tail := if v.review.Refused? then [] else [Reviewed(id)];
    if Answers(v) {
      var answered := Logged(DecisionKept(reviewed, id, v.gate.decision), GateEvent.Answered(id, v.gate.decision));
      assert RunOnce(s, v) == ActOn(answered, v, v.gate.decision);
      WhatActingDoes(answered, v);
      SavedOver(s, answered, id, PendingApproval, MakerRejected);
      SavedOver(s, answered, id, PendingApproval, QuotationSent);
      tail := [Reviewed(id), GateEvent.Answered(id, v.gate.decision)];
      if Quotes(s, v) {
        tail := tail + [Quoted(id, v.gate.decision.approver, v.clientAddress)];
      }
    }
  }

  /** For a stored request: it ends at MAKER_REJECTED if and only if the person answered and declined, at
      QUOTATION_SENT if and only if a quotation left in that run, and otherwise at PENDING_APPROVAL; any outcome
      carries that state, and nothing else is stored. */
  lemma WhereARunEnds(s: Stage, v: Visit) returns (tail: seq<GateEvent>)
    requires v.packet.requestId !in s.ledger.decided
    requires Knows(s.store, v.packet.requestId) && !LeftTheGate(s.store, v.packet.requestId)
    ensures RunOnce(s, v).0.log == s.log + tail && Adds(s, v, tail)
    ensures var r, id := RunOnce(s, v), v.packet.requestId;
            Knows(r.0.store, id) &&
            var state := r.0.store.value[id].state;
            && (state == MakerRejected <==> Answers(v) && v.gate.decision.RejectedBy?)
            && (state == QuotationSent <==> tail != [] && tail[|tail| - 1].Quoted?)
            && (state == PendingApproval <==> r.1.Raised?)
            && r.0.store.value == s.store.value[id := s.store.value[id].(state := state)]
            && (r.1.Returned? ==> r.1.value == GateOutcome(id, state, v.gate.decision, state == QuotationSent))
  {
    tail := WhatARunDoes(s, v);
  }

  // ----- any number of stages, one store ------------------------------------

  /** Stage instances by number; one that has not run yet remembers nothing. */
  datatype House = House(ledgers: map<nat, Ledger>, store: Option<Requests>, log: seq<GateEvent>)

  function LedgerOf(h: House, stage: nat): Ledger {
    if stage in h.ledgers then h.ledgers[stage] else NEW_LEDGER
  }

  function Visited(h: House, stage: nat, v: Visit): House {
    var r := RunOnce(Stage(LedgerOf(h, stage), h.store, h.log), v).0;
    House(h.ledgers[stage := r.ledger], r.store, r.log)
  }

  datatype Call = Call(stage: nat, visit: Visit)

  /** Non-overlapping runs, by any stages, from a store and nothing remembered or sent. */
  ghost function After(store: Option<Requests>, calls: seq<Call>): House {
    if calls == [] then House(map[], store, [])
    else
      var last := calls[|calls| - 1];
      Visited(After(store, calls[..|calls| - 1]), last.stage, last.visit)
  }

  /** After a quotation, or a refusal to give one, nothing more is asked or sent about that request. */
  ghost predicate LastWord(log: seq<GateEvent>, id: Id) {
    forall i, j :: 0 <= i < j < |log| && log[i].id == id && Final(log[i]) ==> log[j].id != id
  }

  /** Every quotation comes right after the approval that names it, and the review before that. */
  ghost predicate Authorised(log: seq<GateEvent>) {
    forall i :: 0 <= i < |log| && log[i].Quoted? ==>
      i >= 2 && log[i - 1] == Answered(log[i].id, ApprovedBy(log[i].approver)) && log[i - 2] == Reviewed(log[i].id)
  }

  /** A final event is remembered, by `settled`. */
  ghost predicate Remembered(log: seq<GateEvent>, id: Id, settled: bool) {
    forall i :: 0 <= i < |log| && log[i].id == id && Final(log[i]) ==> settled
  }

  lemma OneMoreEvent(log: seq<GateEvent>, e: GateEvent, id: Id, settled: bool, settled': bool)
    requires LastWord(log, id) && Remembered(log, id, settled)
    requires e.id == id ==> !settled
    requires settled || (e.id == id && Final(e)) ==> settled'
    ensures LastWord(log + [e], id) && Remembered(log + [e], id, settled')
  {
  }

  lemma OneMoreRun(
    log: seq<GateEvent>, tail: seq<GateEvent>, id: Id, mine: Id, address: string, settled: bool, settled': bool)
    requires RunsTo(tail, mine, address) && LastWord(log, id) && Remembered(log, id, settled)
    requires settled ==> settled'
    requires id == mine && settled ==> tail == []
    requires id == mine && tail != [] && Final(tail[|tail| - 1]) ==> settled'
    ensures LastWord(log + tail, id) && Remembered(log + tail, id, settled')
  {
    if tail == [] {
      assert log + tail == log;
    } else {
      var n := |tail| - 1;
      if n > 0 {
        OneMoreEvent(log, tail[0], id, settled, settled);
      }
      if n > 1 {
        OneMoreEvent(log + [tail[0]], tail[1], id, settled, settled);
      }
      var before := if n == 0 then log else if n == 1 then log + [tail[0]] else log + [tail[0]] + [tail[1]];
      OneMoreEvent(before, tail[n], id, settled, settled');
      assert log + tail == before + [tail[n]];
    }
  }

  lemma RunsAreAuthorised(log: seq<GateEvent>, tail: seq<GateEvent>, mine: Id, address: string)
    requires RunsTo(tail, mine, address) && Authorised(log)
    ensures Authorised(log + tail)
  {
    var n := |log|;
    assert forall i :: 0 <= i < n ==> (log + tail)[i] == log[i];
    assert forall i :: 0 <= i < |tail| ==> (log + tail)[n + i] == tail[i];
  }

  /** With a store that knows the request, and that only the stages write. */
  lemma {:induction false} ASharedStoreRemembers(store: Option<Requests>, calls: seq<Call>, id: Id)
    requires Knows(store, id)
    ensures var h := After(store, calls);
            && LastWord(h.log, id) && Authorised(h.log)
            && Knows(h.store, id) && Remembered(h.log, id, LeftTheGate(h.store, id))
  {
    if calls == [] {
    } else {
      var last := calls[|calls| - 1];
      var h := After(store, calls[..|calls| - 1]);
      ASharedStoreRemembers(store, calls[..|calls| - 1], id);
      var s := Stage(LedgerOf(h, last.stage), h.store, h.log);
      var tail := OneRun(s, last.visit);
      OneRunKeeps(s, last.visit, id);
      RunsAreAuthorised(h.log, tail, last.visit.packet.requestId, last.visit.clientAddress);
      OneMoreRun(h.log, tail, id, last.visit.packet.requestId, last.visit.clientAddress,
                 LeftTheGate(h.store, id), LeftTheGate(RunOnce(s, last.visit).0.store, id));
    }
  }

  /** With a single stage, whatever store it has: its own ledger is enough. */
  lemma {:induction false} OneStageRemembers(store: Option<Requests>, calls: seq<Call>, stage: nat, id: Id)
    requires forall c :: c in calls ==> c.stage == stage
    ensures var h := After(store, calls);
            LastWord(h.log, id) && Authorised(h.log) && Remembered(h.log, id, id in LedgerOf(h, stage).decided)
  {
    if calls == [] {
    } else {
      var last := calls[|calls| - 1];
      assert last in calls;
      var h := After(store, calls[..|calls| - 1]);
      OneStageRemembers(store, calls[..|calls| - 1], stage, id);
      var s := Stage(LedgerOf(h, stage), h.store, h.log);
      var tail := OneRun(s, last.visit);
      OneRunKeeps(s, last.visit, id);
      RunsAreAuthorised(h.log, tail, last.visit.packet.requestId, last.visit.clientAddress);
      OneMoreRun(h.log, tail, id, last.visit.packet.requestId, last.visit.clientAddress,
                 id in s.ledger.decided, id in RunOnce(s, last.visit).0.ledger.decided);
    }
  }

  ghost function QuotationsFor(log: seq<GateEvent>, id: Id): nat {
    if log == [] then 0
    else QuotationsFor(log[..|log| - 1], id) + if log[|log| - 1].Quoted? && log[|log| - 1].id == id then 1 else 0
  }

  lemma {:induction false} TheLastWordIsSaidOnce(log: seq<GateEvent>, id: Id)
    requires LastWord(log, id)
    ensures QuotationsFor(log, id) <= 1
    ensures log != [] && log[|log| - 1].id == id ==> QuotationsFor(log[..|log| - 1], id) == 0
  {
    if log == [] {
    } else {
      var init := log[..|log| - 1];
      assert forall i :: 0 <= i < |init| ==> init[i] == log[i];
      TheLastWordIsSaidOnce(init, id);
      if log[|log| - 1].id == id {
        NoQuotationBefore(init, id);
      }
    }
  }

  lemma {:induction false} NoQuotationBefore(log: seq<GateEvent>, id: Id)
    requires forall i :: 0 <= i < |log| ==> log[i].id != id || !Final(log[i])
    ensures QuotationsFor(log, id) == 0
  {
    if log == [] {
    } else {
      NoQuotationBefore(log[..|log| - 1], id);
    }
  }

  /** At most one quotation is sent for a request, over any runs of any stages, each right after an approval and
      none after a decline, if the store knows the request. */
  lemma AtMostOneQuotation(store: Option<Requests>, calls: seq<Call>, id: Id)
    requires Knows(store, id)
    ensures var log := After(store, calls).log;
            QuotationsFor(log, id) <= 1 && LastWord(log, id) && Authorised(log)
  {
    ASharedStoreRemembers(store, calls, id);
    TheLastWordIsSaidOnce(After(store, calls).log, id);
  }

  /** A visit that is approved and delivered. */
  function ApprovedVisit(id: Id, selection: Rates.Selection): Visit {
    Visit(Packet(id, map[], selection), "client", Delivered, Decided(ApprovedBy("maker")), Delivered)
  }

  /** Two stages and a request the store does not know: two quotations. */
  lemma TwoStagesCanQuoteAnUnknownRequest(
    store: Option<Requests>, id: Id, selection: Rates.Selection) returns (calls: seq<Call>)
    requires !Knows(store, id)
    ensures QuotationsFor(After(store, calls).log, id) == 2
  {
    var v := ApprovedVisit(id, selection);
    calls := [Call(0, v), Call(1, v)];
    assert calls[..1] == [Call(0, v)] && calls[..1][..0] == [];
    var h0 := After(store, []);
    var h1 := Visited(h0, 0, v);
    assert After(store, calls[..1]) == h1;
    var once := [Reviewed(id), Answered(id, ApprovedBy("maker")), Quoted(id, "maker", "client")];
    assert h1.log == once && h1.store == store && LedgerOf(h1, 1) == NEW_LEDGER;
    assert After(store, calls).log == once + once;
    QuotationsInTurn(once, id);
  }

  lemma QuotationsInTurn(once: seq<GateEvent>, id: Id)
    requires |once| == 3 && once[2].Quoted? && once[2].id == id && !once[0].Quoted? && !once[1].Quoted?
    ensures QuotationsFor(once + once, id) == 2
  {
    var all := once + once;
    assert all[..5][..4] == all[..4] && all[..4][..3] == all[..3] && all[..3][..2] == all[..2]
           && all[..2][..1] == all[..1];
    assert QuotationsFor(all[..1], id) == 0;
    assert QuotationsFor(all[..3], id) == 1;
    assert QuotationsFor(all[..5], id) == 1;
  }

  /** A request can be quoted at most once by every sequence of runs if and only if the store knows it. */
  lemma OnceIffTheStoreKnowsIt(store: Option<Requests>, id: Id, selection: Rates.Selection)
    ensures (forall calls :: QuotationsFor(After(store, calls).log, id) <= 1) <==> Knows(store, id)
  {
    if Knows(store, id) {
      forall calls ensures QuotationsFor(After(store, calls).log, id) <= 1 {
        AtMostOneQuotation(store, calls, id);
      }
    } else {
      var calls := TwoStagesCanQuoteAnUnknownRequest(store, id, selection);
      assert QuotationsFor(After(store, calls).log, id) == 2;
    }
  }

  /** A single stage never needs the store. */
  lemma OneStageQuotesOnce(store: Option<Requests>, calls: seq<Call>, stage: nat, id: Id)
    requires forall c :: c in calls ==> c.stage == stage
    ensures QuotationsFor(After(store, calls).log, id) <= 1
  {
    OneStageRemembers(store, calls, stage, id);
    TheLastWordIsSaidOnce(After(store, calls).log, id);
  }

  /** Settled states are never left, and no run touches the stored record of any request. */
  lemma SettledStatesAreFinal(store: Option<Requests>, calls: seq<Call>, c: Call, id: Id)
    requires Knows(store, id)
    ensures var before, after := After(store, calls), After(store, calls + [c]);
            && Knows(before.store, id) && Knows(after.store, id)
            && (LeftTheGate(before.store, id) ==> after.store.value[id] == before.store.value[id])
            && after.store.value[id].record == before.store.value[id].record
  {
    assert (calls + [c])[..|calls|] == calls;
    ASharedStoreRemembers(store, calls, id);
    var h := After(store, calls);
    OneRunKeeps(Stage(LedgerOf(h, c.stage), h.store, h.log), c.visit, id);
  }

  // ----- what the stored state says about the log ---------------------------

  ghost predicate QuotedFor(log: seq<GateEvent>, id: Id) {
    exists e :: e in log && e.Quoted? && e.id == id
  }

  ghost predicate DeclinedFor(log: seq<GateEvent>, id: Id) {
    exists e :: e in log && e.Answered? && e.id == id && e.decision.RejectedBy?
  }

  lemma MoreOfTheLog(log: seq<GateEvent>, tail: seq<GateEvent>, id: Id)
    ensures QuotedFor(log + tail, id) <==> QuotedFor(log, id) || QuotedFor(tail, id)
    ensures DeclinedFor(log + tail, id) <==> DeclinedFor(log, id) || DeclinedFor(tail, id)
  {
    assert forall e :: e in log + tail <==> e in log || e in tail;
  }

  lemma EventsOfARun(s: Stage, v: Visit, tail: seq<GateEvent>, id: Id)
    requires Adds(s, v, tail)
    ensures QuotedFor(tail, id) <==> id == v.packet.requestId && Quotes(s, v)
    ensures DeclinedFor(tail, id) <==> id == v.packet.requestId && Declines(v)
  {
    if Quotes(s, v) {
      assert tail[2] in tail && tail[2].Quoted?;
    }
    if Declines(v) {
      assert tail[1] in tail && tail[1].Answered?;
    }
  }

  /** Where a stored request stands, by the log: settled exactly as the log says, and otherwise waiting once it was
      brought to the gate. */
  ghost predicate StandsByTheLog(state: RequestState, first: RequestState, log: seq<GateEvent>, id: Id, visited: bool) {
    && (state == QuotationSent <==> QuotedFor(log, id))
    && (state == MakerRejected <==> DeclinedFor(log, id))
    && (state in SETTLED_STATES || state == if visited then PendingApproval else first)
  }

  lemma ARunForAnotherLogsNothing(s: Stage, v: Visit, id: Id)
    requires v.packet.requestId != id
    ensures var r := RunOnce(s, v).0;
            (QuotedFor(r.log, id) <==> QuotedFor(s.log, id)) && (DeclinedFor(r.log, id) <==> DeclinedFor(s.log, id))
  {
    if v.packet.requestId !in s.ledger.decided && !LeftTheGate(s.store, v.packet.requestId) {
      var tail := WhatARunDoes(s, v);
      MoreOfTheLog(s.log, tail, id);
      EventsOfARun(s, v, tail, id);
    }
  }

  lemma ItsOwnRunStandsByTheLog(s: Stage, v: Visit, first: RequestState)
    requires var id := v.packet.requestId;
             && id !in s.ledger.decided && Knows(s.store, id) && !LeftTheGate(s.store, id)
             && !QuotedFor(s.log, id) && !DeclinedFor(s.log, id)
    ensures var r, id := RunOnce(s, v).0, v.packet.requestId;
            Knows(r.store, id) && StandsByTheLog(r.store.value[id].state, first, r.log, id, true)
  {
    var id := v.packet.requestId;
    var tail := WhereARunEnds(s, v);
    MoreOfTheLog(s.log, tail, id);
    EventsOfARun(s, v, tail, id);
  }

  lemma ARunStandsByTheLog(s: Stage, v: Visit, first: RequestState, id: Id, visited: bool)
    requires Knows(s.store, id) && StandsByTheLog(s.store.value[id].state, first, s.log, id, visited)
    requires (id in s.ledger.decided ==> visited) && first !in SETTLED_STATES
    ensures var r := RunOnce(s, v).0;
            && Knows(r.store, id)
            && StandsByTheLog(r.store.value[id].state, first, r.log, id, visited || v.packet.requestId == id)
  {
    if v.packet.requestId != id {
      OneRunKeeps(s, v, id);
      ARunForAnotherLogsNothing(s, v, id);
    } else if id in s.ledger.decided || LeftTheGate(s.store, id) {
      WhenARunIsRefused(s, v);
    } else {
      ItsOwnRunStandsByTheLog(s, v, first);
    }
  }

  ghost predicate BroughtToTheGate(calls: seq<Call>, id: Id) {
    exists c :: c in calls && c.visit.packet.requestId == id
  }

  /** No stage has decided what was never brought to it. */
  ghost predicate DecidedWereBrought(h: House, calls: seq<Call>, id: Id) {
    forall stage: nat :: id in LedgerOf(h, stage).decided ==> BroughtToTheGate(calls, id)
  }

  lemma DecidedWereStillBrought(h: House, calls: seq<Call>, c: Call, id: Id)
    requires DecidedWereBrought(h, calls, id)
    ensures DecidedWereBrought(Visited(h, c.stage, c.visit), calls + [c], id)
  {
    OneRunKeeps(Stage(LedgerOf(h, c.stage), h.store, h.log), c.visit, id);
    assert BroughtToTheGate(calls + [c], id) <==> BroughtToTheGate(calls, id) || c.visit.packet.requestId == id by {
      assert forall x :: x in calls + [c] <==> x in calls || x == c;
    }
    forall stage: nat | id in LedgerOf(Visited(h, c.stage, c.visit), stage).decided
      ensures BroughtToTheGate(calls + [c], id)
    {
      assert id in LedgerOf(h, stage).decided || c.visit.packet.requestId == id;
    }
  }

  /** Over any runs of any stages: the store says QUOTATION_SENT if and only if a quotation for the request is
      in the log, and MAKER_REJECTED if and only if a decline is; otherwise PENDING_APPROVAL if any run was made
      for it, and what it was before if none was. */
  lemma {:induction false} TheStoreSaysWhatTheLogSays(store: Option<Requests>, calls: seq<Call>, id: Id)
    requires Knows(store, id) && !LeftTheGate(store, id)
    ensures var h := After(store, calls);
            && Knows(h.store, id) && DecidedWereBrought(h, calls, id)
            && StandsByTheLog(h.store.value[id].state, store.value[id].state, h.log, id, BroughtToTheGate(calls, id))
  {
    if calls == [] {
    } else {
      var last, init := calls[|calls| - 1], calls[..|calls| - 1];
      TheStoreSaysWhatTheLogSays(store, init, id);
      var h := After(store, init);
      assert forall c :: c in calls <==> c in init || c == last;
      var s := Stage(LedgerOf(h, last.stage), h.store, h.log);
      DecidedWereStillBrought(h, init, last, id);
      ARunStandsByTheLog(s, last.visit, store.value[id].state, id, BroughtToTheGate(init, id));
      assert calls == init + [last];
    }
  }

  // ----- the stage as an object ---------------------------------------------

  /** Where mail and answers are noted, in the order they happen; shared by every stage. */
  class Log {
    var events: seq<GateEvent>

    constructor ()
      ensures events == []
    {
      events := [];
    }
  }

  class QuotationStage {
    const store: Store?
    const log: Log
    var decided: map<Id, Decision>
    var dispatched: map<Id, string>

    constructor (store: Store?, log: Log)
      ensures this.store == store && this.log == log && decided == map[] && dispatched == map[]
    {
      this.store := store;
      this.log := log;
      decided, dispatched := map[], map[];
    }

    ghost function Now(): Stage
      reads this, log, store
    {
      Stage(Ledger(decided, dispatched), if store == null then None else Some(store.requests), log.events)
    }

    method Note(e: GateEvent)
      modifies log
      ensures Now() == Logged(old(Now()), e)
    {
      log.events := log.events + [e];
    }

    /** `_save`. */
    method SaveState(id: Id, state: RequestState)
      modifies store
      ensures Now() == Saved(old(Now()), id, state)
    {
      if store == null {
        return;
      }
      var stored := store.GetRequest(id);
      if stored.None? {
        return;
      }
      store.SaveRequest(id, stored.value.(state := state));
    }

    /** `_refuse_if_already_settled`. */
    method IsSettled(id: Id) returns (settled: bool)
      ensures settled <==> LeftTheGate(Now().store, id)
    {
      if store == null {
        return false;
      }
      var stored := store.GetRequest(id);
      settled := stored.Some? && stored.value.state in SETTLED_STATES;
    }

    /** `run`. Each step follows an edge of the table, whatever is stored. */
    method RunVisit(v: Visit) returns (r: Result<GateOutcome, Problem>)
      modifies this, log, store
      ensures (Now(), r) == RunOnce(old(Now()), v)
    {
      var id := v.packet.requestId;
      if id in decided {
        return Raised(AlreadyDecided);
      }
      var settled := IsSettled(id);
      if settled {
        return Raised(AlreadySettled);
      }
      assert CanTransition(RateSelected, PendingApproval);
      SaveState(id, PendingApproval);
      if v.review.Refused? {
        return Raised(NotSent);
      }
      Note(Reviewed(id));
      if v.gate.GateRaised? {
        return Raised(NoDecision);
      }
      var decision := v.gate.decision;
      decided := decided[id := decision];
      Note(Answered(id, decision));
      if decision.RejectedBy? {
        assert CanTransition(PendingApproval, MakerRejected);
        SaveState(id, MakerRejected);
        return Returned(GateOutcome(id, MakerRejected, decision, false));
      }
      var quotation := Rates.BuildQuotation(v.packet.record, v.packet.selection);
      if quotation.Raised? {
        return Raised(Problem.IncompatibleService);
      }
      var problem := Dispatch(id, decision.approver, v.clientAddress, v.send);
      if problem.Some? {
        return Raised(problem.value);
      }
      assert CanTransition(PendingApproval, QuotationSent);
      SaveState(id, QuotationSent);
      r := Returned(GateOutcome(id, QuotationSent, decision, true));
    }

    /** `_dispatch`: the only call that sends a quotation. */
    method Dispatch(id: Id, approver: string, toAddress: string, send: SendReply) returns (problem: Option<Problem>)
      modifies this`dispatched, log
      ensures problem.None? <==> id !in old(dispatched) && send.Delivered?
      ensures problem.Some? ==> Now() == old(Now())
      ensures id in old(dispatched) ==> problem == Some(AlreadyDispatched)
      ensures id !in old(dispatched) && send.Refused? ==> problem == Some(NotSent)
      ensures problem.None? ==>
                dispatched == old(dispatched)[id := approver]
                    && log.events == old(log.events) + [Quoted(id, approver, toAddress)]
    {
      if id in dispatched {
        return Some(AlreadyDispatched);
      }
      if send.Refused? {
        return Some(NotSent);
      }
      log.events := log.events + [Quoted(id, approver, toAddress)];
      dispatched := dispatched[id := approver];
      problem := None;
    }
  }
}
