# A verified model of the Translog quotation workflow

Translog reads enquiries for air freight from a mailbox, extracts what they state about a shipment with a
language model, and from there on works deterministically: it merges what each email states into one record,
validates the record, asks the client for what is missing, searches rates, and quotes once a person has
approved. This project models that deterministic part in Dafny, from the year roll-forward of a date to the
interleaving of Redis commands, and proves what the system is meant to guarantee over every input and every run.

`dafny verify dfyconfig.toml` checks everything.

## How it is built

| file | what it is |
|---|---|
| `Prelude.dfy`, `Sorting.dfy` | options and results; Python's stable sort |
| `Calendar.dfy`, `Units.dfy` | year roll-forward; conversions that round up |
| `Shipment.dfy`, `Validation.dfy`, `Clarification.dfy` | the record and the merge; the thirteen rules; what is asked, and in which message |
| `States.dfy`, `Workflow.dfy` | the transition table; each operation of the clarification workflow as a function of its state |
| `WorkflowTheorems.dfy`, `WorkflowRuns.dfy` | every operation on a request has one of five effects, which keep what is true of stored requests and of one process; what holds of every step and of every run from any store |
| `WorkflowClass.dfy` | the workflow as an object over a store, each method tied to its function |
| `Routing.dfy`, `Durable.dfy` | correlation, threads and the router; commit points, the write-through store, restarts |
| `Outcomes.dfy`, `Reports.dfy` | the exact condition of every outcome of a turn; all that each operation reports and leaves, from its inputs |
| `Restarts.dfy`, `Notices.dfy` | the whole system from nothing: the promises of workflow and router in every process; who is told of a failure, and how often |
| `Lease.dfy` | the one-worker lock: one thread as an automaton, any number of them interleaved, and the lock object proved to follow the automaton |
| `Rates.dfy`, `Offers.dfy` | filter, selection and options; grouped offers and trade-offs |
| `Gmail.dfy` | the budgeted oldest-first read |
| `Gate.dfy` | the quotation gate |

Where the source updates an object, the model has a class whose methods make the same updates in the same order,
and each method's postcondition equates the new state and the result with a function of the old state. The
guarantees are lemmas about those functions. The answer of the language model, the outcome of every send, the
person's decision, the clock readings and the replies of Redis are inputs, and the lemmas hold for all of them.

## What is assumed

- A send is delivered or refused, and the reply says which; a crash between a send and the save after it is not
  modelled. The source documents that window as at-least-once. A crash after the save and before the commit is, as
  a restart: it is what can send a failure notice twice.
- Between the workflow's own operations the rest of the system moves stored requests only along edges of the
  transition table, to the states it is responsible for, and does not touch their records; so the gate, which
  checks a constant edge and not the stored state, is run for a request that has a selected rate.
- The router and its workflow share one store, as the composition root wires them.
- Rounds and held drafts live in memory, so the mail bounds are for one process, from whatever store it found.
- A stored request is called sane if it is at no transient state, carries a notice or reminder time only where one is
  left standing, has a tidy record, and at or past VALIDATED a valid one. That is no assumption about what a restart
  finds: `Restarts.RunIsSane` proves it of every run of the system.
- Commits come at any time and for any request. That none is of a request at NEEDS_INFO, as
  `src/translog_quote/interface/web/live_session.py:1475-1479` sees to when a message has been handled, is the
  condition of two lemmas on drafts across restarts, which show it to be exact; two runs that break it are given.
- The lease is exclusive under one assumption, spelled out as `Lease.Undisturbed`; two lemmas show that it cannot
  be dropped, and two give the exact condition for each of the commands concerned.
- Stages of the gate do not run at the same time, and only they write the stored state of a request they know.

## Where the code and its documentation differ

The model follows the code.

- `src/translog_quote/domain/workflow/state.py:20` speaks of thirteen states, six of them terminal. There are sixteen and seven, and
  one of the seven, MANUAL_REVIEW, has a way out.
- The reminder rebuilds the stored request and so forgets which fields were asked about.
- A shipment date that was stored and has since passed is asked for by a turn but left in the record, unlike a
  conflicted field, so the client's answer to that question comes back as a conflict.
- `src/translog_quote/domain/clarification/compose.py:64-70` says that a field the client denied needs a person and not another
  round trip. A reply that denies something and states nothing is sent the reminder, and a denial counts in its own
  turn only: the next question asks about the field again.
- `src/translog_quote/bootstrap.py:393-398` warns that a request committed while it awaits approval could not go on.
  `src/translog_quote/interface/web/live_session.py:1170-1221` commits an operator's goods-type pick without looking at the state, and
  lines 1577-1580 ask for a date that has passed, which moves the request to NEEDS_INFO, before the hold is looked at.
- The clarification budget is `max(1, max_rounds)`: a first message is always asked.
- `src/translog_quote/adapters/email/gmail.py:82-83` says that mail beyond the id cap is picked up by later polls. The listing is
  newest first, so what the cap drops is the oldest mail, which no later poll reaches, whatever newer mail
  comes in; a listing of full pages is read whole exactly when it is within the cap.
- `src/translog_quote/domain/rates/selection.py:27` says that a missing price never wins by accident. Its stand-in sorts before every
  real price, so under an ascending price key it would win; the filter removes such rates first.
- `src/translog_quote/interface/jobs/queue.py:333-335` says that losing the SET NX means another worker exists. It means so
  exactly when the SET NX that holds the key was not the worker's own, sent by another thread or with its answer lost.

## Model

| member | source | states |
|---|---|---|
| `WorkflowRuns.MailIsBounded` | src/translog_quote/pipeline/clarification_loop.py:258-261 | Over every run of one workflow instance from any store of sane requests, whatever the model, the mail server and the clock do, a request gets at most `max(1, max_rounds)` clarifications, at most one reminder per delivered clarification and one more for a question that was out at the start, at most one failure notice, and so at most twice the budget plus one mails, or plus two |
| `WorkflowRuns.NoDraftIsStranded` | src/translog_quote/pipeline/clarification_loop.py:631-648 | In every such run a draft is held only at NEEDS_INFO, a request is there without one only if the store had it so, rounds are the delivered clarifications plus the held one, and approving a held draft with a working mail server always succeeds and sends exactly that draft |
| `WorkflowRuns.ADraftlessRequestIsStuck` | src/translog_quote/pipeline/clarification_loop.py:901-903 | A request at NEEDS_INFO without a draft is moved by neither side: every approval raises NoDraftHeld, every message from the client an illegal transition, and nothing changes |
| `WorkflowRuns.RefusedApprovalsChangeNothing` | src/translog_quote/pipeline/clarification_loop.py:916-938 | After any run from any store, any number of approvals whose send is refused leaves the whole state as it was |
| `WorkflowRuns.OnlyApprovalsSendClarifications` | src/translog_quote/pipeline/clarification_loop.py:920-927 | From any desk whose stored requests are sane, a step sends at most one mail: a clarification only on a person's approval and exactly the held draft, a reminder only for a delivered question not yet reminded of, a failure notice only for an unreadable message |
| `WorkflowRuns.AFirstMessageIsAlwaysAsked` | src/translog_quote/pipeline/clarification_loop.py:258-261 | Even with no budget a first message that needs an answer is asked once, so the enforced bound is `max(1, max_rounds)` |
| `WorkflowRuns.StoredStatesFollowTheTable` | src/translog_quote/pipeline/clarification_loop.py:1178-1189 | From any such desk, the states stored before and after a step are joined by a path of the transition table, the workflow itself stores only NEEDS_INFO, CLARIFICATION_SENT, VALIDATED and MANUAL_REVIEW, and no request is ever deleted |
| `WorkflowRuns.SweepLeavesNoExpiredWindow` | src/translog_quote/pipeline/clarification_loop.py:578-614 | After a sweep no waiting request has a lapsed window, exactly the reported ids were handed over, nothing else changed, and a second sweep finds nothing |
| `WorkflowRuns.WhenAMessageOrAnApprovalIsRefused` | src/translog_quote/pipeline/clarification_loop.py:273-276 | `handle` raises an illegal transition if and only if the request is at NEEDS_INFO; an approval raises NoDraftHeld if and only if no draft is held, and otherwise only for a refused send |
| `WorkflowRuns.WhenAskingIsRefused` | src/translog_quote/pipeline/clarification_loop.py:696-753 | Both questions after validation raise if and only if there is something to ask, no draft to give back, and either no such request or a state without the move that is left: into NEEDS_INFO within the budget, to a person beyond it; then nothing changes |
| `WorkflowRuns.ARaisedTurnChangesNothing` | src/translog_quote/pipeline/clarification_loop.py:293-305 | From any desk at all, a turn that raises has changed no request, round, draft or mail, and one that returns has stored at most its own request |
| `WorkflowRuns.TheModelIsShownTheQuestionUntilTheReminder` | src/translog_quote/pipeline/clarification_loop.py:279-292 | In every run from a sane store, while a clarification is out the fields shown to the model are those last asked, by this process or before it, until the reminder rebuilds the request and drops them |
| `WorkflowRuns.AskedFieldsAreOpenButForAPastDate` | src/translog_quote/pipeline/clarification_loop.py:546-563 | For any stored request with a tidy record: a field a turn asks about is empty in what is stored if and only if it is not a shipment date that was stored, has since passed and is not in conflict |
| `WorkflowRuns.TheAnswerToAPastDateConflicts` | src/translog_quote/pipeline/clarification_loop.py:546-563 | So that date cannot be corrected by answering: whatever date the client states comes back as a conflict, and the past one stays |
| `WorkflowRuns.AFilledShipDateIsNotPast` | src/translog_quote/domain/extraction/ship_date.py:54-70 | A shipment date filled by a turn is past if and only if the clock passed it during the turn; read on one day it never is |
| `WorkflowRuns.ValidatedIffNothingIsOpen` | src/translog_quote/pipeline/clarification_loop.py:618-629 | For any sane stored request: a message ends at VALIDATED if and only if its merge has no conflict and the merged record passes every rule on that turn's date, whatever the rounds spent or the reminder's age; the stored record is the merged one |
| `WorkflowRuns.ValidatedRecordsStayValid` | src/translog_quote/pipeline/rate_search.py:97-102 | In every run from a sane store, anywhere at or past VALIDATED the stored record passes every date-independent rule, so the weight, dimension and piece guards of the rate query cannot fire |
| `WorkflowRuns.ValuesAreNeverReplaced` | src/translog_quote/domain/shipment/merge.py:108-127 | From any desk whose stored requests are sane, across every operation a stored field is filled with what that message states, stays, or is emptied in the step whose new draft asks about it; it never changes to another value |
| `WorkflowRuns.EveryValueWasStated` | src/translog_quote/pipeline/clarification_loop.py:546-563 | In every run from a sane store, every value in a stored record was in the store at the start or stated by an earlier message of that request, after normalisation, roll-forward and the denied-MSDS rule |
| `Outcomes.WhatAReplyComesTo` | src/translog_quote/pipeline/clarification_loop.py:378-576 | A waiting request, after a message the model understood: exactly when it raises, and exactly when it ends at CLARIFICATION_SENT, NEEDS_INFO, VALIDATED or MANUAL_REVIEW, by what is lacking, what the reply states, denies or leaves vague, the clock, and the rounds spent |
| `Outcomes.WhatSilenceComesTo` | src/translog_quote/pipeline/clarification_loop.py:423-439 | A reply that says nothing: the first is answered with one reminder, a further one changes nothing while the window is open, one after it is handed over; with a refused reminder the turn raises and changes nothing |
| `Outcomes.WhatAFirstMessageComesTo` | src/translog_quote/pipeline/clarification_loop.py:338-576 | A first message: whether it is an enquiry at all, and exactly when it ends at NEEDS_INFO, VALIDATED or MANUAL_REVIEW |
| `Outcomes.AnalysisOfGaps` | src/translog_quote/domain/clarification/compose.py:58-79 | There is something to ask if and only if the merge found a contradiction or some gap is not denied by this message, and a request is stuck if and only if there is nothing to ask and a gap is left |
| `Outcomes.NonAnswersSayNothing` | src/translog_quote/pipeline/clarification_loop.py:423-430 | The test for a non-answer holds if and only if something is lacking and the message states nothing, nothing invalid, no vague shipment date, and no denied MSDS that the record did not have |
| `Outcomes.WhatAReplyIsAsked` | src/translog_quote/domain/clarification/compose.py:105-193 | A drafted question asks about exactly the contradictions and the gaps that the same message does not deny, and leaves every value that is not in conflict where it was |
| `Outcomes.WhenADenialReachesAPerson` | src/translog_quote/domain/clarification/compose.py:64-70 | A reply that denies a lacking field reaches a person in that turn if and only if something else in it cannot be used, or it says nothing and comes late, or nothing else is left to ask or no budget to ask it |
| `Outcomes.ADenialIsAskedAboutAgain` | src/translog_quote/pipeline/clarification_loop.py:423-431 | A reply that only denies a lacking field is sent the reminder, and the next reply that states something and is silent about the field is answered with a question about it |
| `Outcomes.TheReminderForgetsTheQuestion` | src/translog_quote/pipeline/clarification_loop.py:1077-1122 | An empty reply to an unreminded question leaves the request at CLARIFICATION_SENT with nothing on record of what was asked |
| `Outcomes.APastDateIsAskedAboutAndKept` | src/translog_quote/pipeline/clarification_loop.py:546-563 | A waiting request whose stored date has passed, a reply that states something and is silent about the date, and budget left: the question asks about the date, and the past date stays in the record |
| `Reports.WhatIsReported` | src/translog_quote/pipeline/clarification_loop.py:237-321 | The whole outcome of a message, from any desk: replyNotAccepted if and only if the stored request is past RECEIVED, EXTRACTED and CLARIFICATION_SENT, isNonEnquiry if and only if it is a first message that states nothing, the merge, findings and analysis of what was read, the clarification if and only if the turn drafted it, and the state and rounds that are stored |
| `Reports.ALateMessageIsNotAccepted` | src/translog_quote/pipeline/clarification_loop.py:942-968 | A message to a stored request that takes no more: nothing changes, replyNotAccepted is true, and the stored state and record are reported; while a draft is held it raises an illegal transition instead |
| `Reports.WhatAnUnreadMessageComesTo` | src/translog_quote/pipeline/clarification_loop.py:995-1075 | Without the model a message raises and changes nothing; one it could not make sense of goes to a person once the client has been told, now or on an earlier occasion, and a refused notice changes nothing |
| `Reports.WhatAskingComesTo` | src/translog_quote/pipeline/clarification_loop.py:696-753 | The exact outcome of a question after validation, from any desk: the held message; none without anything to ask; at MANUAL_REVIEW as it was with the budget spent; at NEEDS_INFO with one more round, a draft about exactly these fields, and these fields empty; or the error |
| `Reports.WhatTheTwoQuestionsDo` | src/translog_quote/pipeline/clarification_loop.py:804-871 | The same of the two events: what is asked is each place as given, as ambiguous, or the shipment date, as invalid |
| `Reports.WhatAnApprovalComesTo` | src/translog_quote/pipeline/clarification_loop.py:880-938 | The exact outcome of an approval, from any desk: each error and when, and otherwise the held message sent, the draft spent, the questions remembered, and who approved it and when |
| `Reports.WhatIsRouted` | src/translog_quote/pipeline/inbound.py:89-167 | The whole of what the router reports and records, for a refused message, an automated first one and any other; the last is for a person if and only if it was not ignored and ended at MANUAL_REVIEW or has a gap and nothing to ask about |
| `WorkflowTheorems.EffectOfStep` | src/translog_quote/pipeline/clarification_loop.py:237-576 | On a sane stored request every operation does to the state one of a few effects its inputs allow, and nothing else |
| `WorkflowTheorems.EffectOfMessage` | src/translog_quote/pipeline/clarification_loop.py:237-576 | What one client message can do to a sane stored request: nothing, a hand-over with a notice, a reminder, a stored verdict or a held draft; raising means nothing, and it raises an illegal transition exactly at NEEDS_INFO |
| `WorkflowTheorems.EffectOfTurn` | src/translog_quote/pipeline/clarification_loop.py:346-576 | The same for a message the model understood; it is stored as VALIDATED if and only if nothing is open |
| `WorkflowTheorems.EffectOfJudging` | src/translog_quote/pipeline/clarification_loop.py:378-448 | The same once what is missing is known: a non-answer or a verdict, and VALIDATED if and only if nothing is open |
| `WorkflowTheorems.EffectOfNonAnswer` | src/translog_quote/pipeline/clarification_loop.py:423-439 | A reply that answers nothing is reminded once, ignored within the window and handed over after it |
| `WorkflowTheorems.EffectOfApproval` | src/translog_quote/pipeline/clarification_loop.py:880-938 | An approval releases the held draft or, refused, changes nothing; refused means no draft or a refused send |
| `WorkflowTheorems.EffectOfQuestion` | src/translog_quote/pipeline/clarification_loop.py:696-753 | A question found after validation does nothing but hold one draft and reopen the asked fields, hand over, or leave the desk as it was; which of them when, `Reports.WhatAskingComesTo` says exactly |
| `WorkflowTheorems.VerdictIsNeverRefused` | src/translog_quote/pipeline/clarification_loop.py:503-537 | From RECEIVED or CLARIFICATION_SENT no move of a turn is refused, and the verdict is NEEDS_INFO if and only if a question is drafted |
| `WorkflowTheorems.ATurnWithNothingOpen` | src/translog_quote/domain/clarification/compose.py:105-193 | Nothing to ask and nothing denied if and only if the merge has no conflict and the merged record passes every rule |
| `WorkflowTheorems.MergeStaysTidy` | src/translog_quote/domain/shipment/normalize.py:39-58 | Stored text is never blank and stored numbers stay positive through every merge |
| `WorkflowTheorems.StepKeepsFit` | src/translog_quote/pipeline/clarification_loop.py:237-938 | What is true of stored requests, and that a draft belongs to one at NEEDS_INFO, is kept by every operation from any desk |
| `WorkflowTheorems.StepKeepsOk` | src/translog_quote/pipeline/clarification_loop.py:237-938 | What one process has spent and remembers of each request, beside what is stored, is kept by every operation |
| `WorkflowTheorems.RunIsOk` | src/translog_quote/pipeline/clarification_loop.py:237-938 | Both hold in every state that a process can reach from any sane store |
| `WorkflowClass.ClarificationWorkflow.HandleMessage` | src/translog_quote/pipeline/clarification_loop.py:237-321 | `handle` on the object, step by step, leaves the state and returns the outcome of `Workflow.Handle`, all of which `Reports.WhatIsReported` fixes from the inputs |
| `WorkflowClass.ClarificationWorkflow.TakeTurn` | src/translog_quote/pipeline/clarification_loop.py:346-448 | The deterministic part of a turn, from the test for an enquiry on, meets its specification |
| `WorkflowClass.ClarificationWorkflow.MergeTurn` | src/translog_quote/pipeline/clarification_loop.py:359-381 | The merge, and what is then missing, meet their specification |
| `WorkflowClass.ClarificationWorkflow.JudgeTurn` | src/translog_quote/pipeline/clarification_loop.py:378-448 | Telling a reply that answers nothing and one that cannot be used from the rest meets its specification |
| `WorkflowClass.ClarificationWorkflow.TakeNonAnswer` | src/translog_quote/pipeline/clarification_loop.py:423-439 | The reminder, the wait and the late hand-over meet their specification |
| `WorkflowClass.ClarificationWorkflow.SettleTurn` | src/translog_quote/pipeline/clarification_loop.py:440-576 | Advancing, validating, deciding and saving meet their specification |
| `WorkflowClass.ClarificationWorkflow.Decide` | src/translog_quote/pipeline/clarification_loop.py:440-537 | The sequence of table moves of one turn gives the specified verdict or error |
| `WorkflowClass.ClarificationWorkflow.StoreVerdict` | src/translog_quote/pipeline/clarification_loop.py:546-576 | What is saved and reported, with conflicted fields reopened when a question is drafted |
| `WorkflowClass.ClarificationWorkflow.HoldDraft` | src/translog_quote/pipeline/clarification_loop.py:631-648 | A draft is composed, held and counted as a round |
| `WorkflowClass.ClarificationWorkflow.HandOverUnread` | src/translog_quote/pipeline/clarification_loop.py:995-1075 | `_extraction_failed`: notify once, move to MANUAL_REVIEW where the table allows, save; a refused notice changes nothing |
| `WorkflowClass.ClarificationWorkflow.RemindOnce` | src/translog_quote/pipeline/clarification_loop.py:1077-1122 | `_send_followup`: the reminder is saved only once it was accepted |
| `WorkflowClass.ClarificationWorkflow.RequestLocationClarification` | src/translog_quote/pipeline/clarification_loop.py:664-753 | `request_location_clarification` leaves the state and returns the message of `Workflow.AskAgain` about the places, whose exact outcome `Reports.WhatAskingComesTo` gives |
| `WorkflowClass.ClarificationWorkflow.RequestShipDateClarification` | src/translog_quote/pipeline/clarification_loop.py:804-871 | `request_ship_date_clarification` likewise about the shipment date |
| `WorkflowClass.ClarificationWorkflow.ApproveClarification` | src/translog_quote/pipeline/clarification_loop.py:880-938 | `approve_clarification`: the draft is spent only after the sink accepted it |
| `WorkflowClass.ClarificationWorkflow.SweepFollowupDeadlines` | src/translog_quote/pipeline/clarification_loop.py:578-614 | The sweep hands over exactly the lapsed requests, each along an edge of the table, and reports exactly their ids |
| `States.ReadingTheTable` | src/translog_quote/domain/workflow/state.py:46-135 | Terminal states have no way out but MANUAL_REVIEW to RESOLVED, NEEDS_INFO has exactly one exit, and a client message is welcome in exactly three states |
| `States.TheTableReadBackwards` | src/translog_quote/domain/workflow/state.py:64-135 | The table agrees with the list of what may come before each state |
| `Routing.RunHasOneOwner` | src/translog_quote/pipeline/inbound.py:245-257 | From any threads with one owner per message, if only unprocessed messages are routed, every message id lies in at most one thread, at most once |
| `Routing.OwnersNeverChange` | src/translog_quote/pipeline/inbound.py:245-257 | A thread only grows at its end, and while the process lasts a message keeps its owner |
| `Routing.RefusedOnlyForItsReferences` | src/translog_quote/domain/conversation/correlation.py:60-87 | With one owner per message, In-Reply-To is never ambiguous: a message is refused if and only if its References span two requests and its In-Reply-To names no recorded message |
| `Routing.WhereAMessageGoes` | src/translog_quote/domain/conversation/correlation.py:43-87 | With one owner per message: to the request that has the message answered; else to the only request its References lead to; to none if they lead to several; and to a new one if and only if neither header leads anywhere |
| `Routing.RecordingTwiceIsRecordingOnce` | src/translog_quote/pipeline/inbound.py:245-257 | A message is put at the end of its own thread, once, and no other thread moves |
| `Routing.ARepliedToRequestGetsTheReply` | src/translog_quote/domain/conversation/correlation.py:64-72 | With one owner per message, a reply to a recorded message lands on that message's request, whatever its References say |
| `Routing.PlacedOnlyByAHeader` | src/translog_quote/domain/conversation/correlation.py:43-87 | A message is placed on a request only when one of its headers names a message of that request |
| `Routing.OfficeRunsTheWorkflow` | src/translog_quote/pipeline/inbound.py:89-182 | Every run of the router is a run of the workflow from the same store, so everything proved of the latter holds of it |
| `Routing.ARaisedDeliveryIsAFreshAttempt` | src/translog_quote/pipeline/inbound.py:128-129 | With any sane stored requests, a delivery that raises or is refused changes nothing at all and leaves the message unprocessed; every other one leaves it processed; an illegal transition means exactly a reply to a request at NEEDS_INFO |
| `Routing.RoutingTouchesOneRequest` | src/translog_quote/pipeline/inbound.py:89-167 | With any sane stored requests, a message changes at most the request it is placed on; a refused or an automated first message changes none |
| `Routing.EveryRequestHasAThread` | src/translog_quote/pipeline/inbound.py:128-129 | If it is so at the start, every stored request has a thread, and no thread is empty, throughout |
| `Routing.InboundRouter.RouteMessage` | src/translog_quote/pipeline/inbound.py:89-167 | `route` on the object meets its specification: nothing is recorded until the workflow returned |
| `Routing.InboundRouter.RecordMessage` | src/translog_quote/pipeline/inbound.py:245-257 | `_record` appends the id unless the thread has it |
| `Durable.SavingKeepsAgreementUnlessUnapplied` | src/translog_quote/adapters/store/redis.py:84-96 | A plain save leaves memory and Redis in agreement if and only if it was applied or repeats what is there |
| `Durable.CommittingKeepsAgreementUnlessTheReplyIsLost` | src/translog_quote/adapters/store/redis.py:100-122 | A transaction leaves them in agreement if and only if its reply was not lost or it changed nothing |
| `Durable.TheNextFileWriteRepairs` | src/translog_quote/adapters/store/json_file.py:134-152 | A whole-file write repairs what an earlier failed one left; a hash field is untouched by the save of another |
| `Durable.SeedingLosesOnlyOrphans` | src/translog_quote/bootstrap.py:354-369 | A seeded scratch has every thread, and equals its source if and only if every request there has a thread |
| `Durable.SeedingCopiesWhatHasAThread` | src/translog_quote/bootstrap.py:354-369 | Every thread of the source and its request replace what the target had, and nothing else of the target moves |
| `Durable.WhatACommitWritesToRedis` | src/translog_quote/bootstrap.py:386-414 | From what the scratch holds and the replies alone: what Redis and memory hold after a commit, and when the call raises |
| `Durable.WhatACommitWritesToFiles` | src/translog_quote/bootstrap.py:411-414 | The same for two files |
| `Durable.WhatACommitOfTheThreadWrites` | src/translog_quote/bootstrap.py:372-383 | The thread reaches the disk if and only if there is one and its write took effect; requests stay, and on Redis so do other threads |
| `Durable.ACrashBetweenTwoSavesCanOrphanARequest` | src/translog_quote/bootstrap.py:411-414 | With two plain saves and a crash between them, the next run recovers all that is on disk if and only if an earlier thread of that request was there |
| `Durable.RunIsSound` | src/translog_quote/bootstrap.py:354-414 | On Redis and on files, over any run of routing, commits that fail or lose their replies, and restarts: every request at work has a thread, every message one owner, and every thread in memory or on disk begins the working one; on Redis no request on disk lacks its thread |
| `Durable.ARestartRecoversTheDisk` | src/translog_quote/bootstrap.py:354-369 | A restart at any point leaves memory and disk alike with the disk untouched, and the scratch store holding all of it but requests without a thread, of which Redis has none |
| `Durable.CompletedCommitsOrphanNothing` | src/translog_quote/bootstrap.py:411-414 | On files too there are none if every commit of the run completed |
| `Durable.TheLastCommitIsOnDisk` | src/translog_quote/bootstrap.py:386-414 | Redis holds of a request exactly what the scratch held at the last commit of it that reached Redis, and its thread with it, whatever failures, lost replies and restarts came since |
| `Durable.WhatIsOnDiskStays` | src/translog_quote/adapters/store/redis.py:100-122 | A thread on disk only grows, and on Redis only its own commits touch what is there of a request |
| `Durable.NothingIsOnDiskUncommitted` | src/translog_quote/bootstrap.py:386-398 | A request no commit of which reached the store is not there, in memory or on disk |
| `Durable.ACommittedMessageIsNeverHandledAgain` | src/translog_quote/bootstrap.py:372-383 | A message on record on disk keeps one owner there and in the scratch and is never handled again, across any restarts and failures, on Redis or on files |
| `Durable.AMessageCommittedAsSeenIsNeverHandledAgain` | src/translog_quote/bootstrap.py:372-383 | A recorded message whose thread a commit wrote is on disk for good, and no later process handles it again, whatever restarts and failures come |
| `Durable.CopiesAgree` | src/translog_quote/adapters/store/redis.py:100-122 | Memory and disk agree throughout a run whose transactions return or fail unapplied and whose plain saves are applied |
| `Durable.DurableStore.SaveRequest` | src/translog_quote/adapters/store/redis.py:84-86 | Memory first, then the write; a file is rewritten whole |
| `Durable.DurableStore.CommitRequestAndThread` | src/translog_quote/adapters/store/redis.py:100-122 | Both hash fields or neither, and memory only after the transaction returned |
| `Durable.SeedStore` | src/translog_quote/bootstrap.py:354-369 | The loop over threads writes exactly the seeded contents over the target |
| `Durable.CommitThread` | src/translog_quote/bootstrap.py:372-383 | Persists the thread and nothing else |
| `Durable.CommitRequest` | src/translog_quote/bootstrap.py:386-414 | The transaction where offered and there is a request, else two saves that stop at the first failure |
| `Restarts.RunIsSane` | src/translog_quote/bootstrap.py:354-414 | From nothing, over any run of the whole system with failing commits and restarts, every request at work, in memory or on disk is sane, and a draft belongs to a request at NEEDS_INFO |
| `Restarts.TheDeskIsARun` | src/translog_quote/bootstrap.py:354-369 | Between restarts the workflow is a run of one instance from a sane store, so all that is proved of such runs holds in every process |
| `Restarts.MailOfAProcessIsBounded` | src/translog_quote/pipeline/clarification_loop.py:258-261 | Every process keeps the mail bounds, with one more reminder for a question it found waiting |
| `Notices.ANoticeIsSentOnce` | src/translog_quote/pipeline/clarification_loop.py:1021-1026 | From any desk whose stored requests are sane, the time of a failure notice is stored in the step that sends it and in no other, never changes afterwards, and no further notice is sent to that request |
| `Notices.ATimeOnDiskIsForGood` | src/translog_quote/domain/workflow/state.py:160-170 | Once the stored copy of a request carries the time of its notice, it does so in every continuation, whatever restarts, and so does the request at work; on Redis in any run, on files in one whose commits complete |
| `Notices.NoNoticeAfterATimeOnDisk` | src/translog_quote/domain/workflow/state.py:160-170 | From then on no step of any process sends that request a notice |
| `Notices.ANoticeIsRememberedUnlessForgotten` | src/translog_quote/pipeline/clarification_loop.py:1021-1028 | After a notice, and as long as no other is sent, the request at work carries its time if and only if no restart came before a commit of the request, and the stored copy if moreover such a commit came |
| `Notices.ASecondNoticeLeavesIffForgotten` | src/translog_quote/pipeline/clarification_loop.py:1021-1028 | For an unreadable message to a request that is new or waiting, a second notice leaves if and only if some restart came after the first and before any commit of the request |
| `Notices.ANoticeIsSentAgain` | src/translog_quote/pipeline/clarification_loop.py:1026-1028 | The run in which it does: the notice is sent, the process restarts before anything is committed, and the message is delivered again |
| `Restarts.EveryStepKeepsThePromises` | src/translog_quote/pipeline/clarification_loop.py:237-938 | In every reachable state of the system a step sends at most one mail and only as it may, moves states along the table, and replaces no value |
| `Restarts.ValidatedIffNothingIsOpenEver` | src/translog_quote/pipeline/clarification_loop.py:618-629 | In every reachable state of the system a message ends at VALIDATED if and only if nothing is open |
| `Restarts.ValidatedRecordsStayValidEverywhere` | src/translog_quote/pipeline/rate_search.py:97-102 | At or past VALIDATED, at work or on disk and in whichever process, a record passes every date-independent rule and none of the rate query's guards can fire |
| `Restarts.EveryRequestIsBacked` | src/translog_quote/bootstrap.py:354-414 | Across restarts and failed commits, every value in every record was stated by a message handled for that request, and a waiting request shows the model the fields of a clarification it was really sent |
| `Restarts.PlacementAcrossRestarts` | src/translog_quote/domain/conversation/correlation.py:60-87 | In every reachable state of the system a reply to a recorded message lands on its request, and only References over two requests are refused |
| `Restarts.DeliveriesAcrossRestarts` | src/translog_quote/pipeline/inbound.py:89-182 | In every reachable state of the system a delivery that raises or is refused changes nothing, any other is processed from then on, and it touches only the request it is placed on |
| `Restarts.DraftsAreHeldIfNoneIsCommitted` | src/translog_quote/interface/web/live_session.py:1475-1479 | Across restarts a draft is held if and only if its request is at NEEDS_INFO, in every run that never commits a request at NEEDS_INFO |
| `Restarts.RestartsAreSafeIffNoDraftIsCommitted` | src/translog_quote/bootstrap.py:386-398 | On Redis, a run can be cut by a restart at any point without stranding a request if and only if it never commits one at NEEDS_INFO |
| `Restarts.WhatARestartStrands` | src/translog_quote/bootstrap.py:354-369 | A restart leaves at NEEDS_INFO without a draft exactly the requests that are on disk at NEEDS_INFO with a thread |
| `Restarts.ACommittedDraftIsStranded` | src/translog_quote/bootstrap.py:386-398 | A run that strands: an enquiry arrives without a destination, its request is committed before the draft is approved, and the process restarts |
| `Restarts.AGoodsTypePickCanStrand` | src/translog_quote/interface/web/live_session.py:1170-1221 | A run the code can make: a complete enquiry is committed at VALIDATED, its date passes and is asked for while it is held for a goods type, the operator's pick commits it at NEEDS_INFO, and a restart strands it |
| `Restarts.ACompleteEnquiry` | src/translog_quote/domain/validation/validator.py:235-247 | There is a complete enquiry for any day, as that run needs |
| `Lease.AtMostOneWorker` | src/translog_quote/interface/jobs/queue.py:313-367 | However the commands of any number of workers and threads interleave, with lost commands and answers and any passing of time, at most one worker is inside an unexpired lease it was granted, provided the key never goes between a thread's reading of its own token and the EXPIRE or DEL that follows |
| `Lease.StepsKeepTheInvariant` | src/translog_quote/interface/jobs/queue.py:313-367 | Whoever is inside a granted lease holds the key at least that long; kept by every step |
| `Lease.ExtendingIsSafeIffStillHeld` | src/translog_quote/interface/jobs/queue.py:343-345 | An EXPIRE that returns grants a lease that is really held if and only if the key is still the worker's own at that instant |
| `Lease.DeletingIsSafeIffNotAnothers` | src/translog_quote/interface/jobs/queue.py:364-367 | A DEL leaves every other lease intact if and only if the key is not another worker's under a lease it is still inside |
| `Lease.ALapseDuringRefreshGivesTwoWorkers` | src/translog_quote/interface/jobs/queue.py:342-345 | Without the assumption: a lapse between GET and EXPIRE leaves two workers inside granted leases |
| `Lease.ALapseDuringReleaseGivesTwoWorkers` | src/translog_quote/interface/jobs/queue.py:364-367 | The same for a lapse between the GET and the DEL of a release |
| `Lease.ARefreshIsFounded` | src/translog_quote/interface/jobs/queue.py:322-359 | A refresh returns only after reading its own token and extending, or reading no holder and winning the SET NX; it refuses only after reading another token or losing the SET NX |
| `Lease.ARefreshFailsAfterThreeDrops` | src/translog_quote/interface/jobs/queue.py:67-93 | A refresh fails only after the same command was dropped three times in a row, returns on an acknowledged EXPIRE or a SET NX that took the key, and refuses on an answered read |
| `Lease.WhatAnAcquireComesTo` | src/translog_quote/interface/jobs/queue.py:313-320 | An acquire is one SET NX: it returns, refuses or fails as that took the key, did not, or was dropped |
| `Lease.WhatAReleaseComesTo` | src/translog_quote/interface/jobs/queue.py:364-367 | A release deletes the key if and only if it reads its own token, and fails if and only if its last command was dropped |
| `Lease.AWorkerCanRefuseItsOwnLease` | src/translog_quote/interface/jobs/queue.py:346-359 | A run against the key, for every positive TTL: the lease is gone, the worker's SET NX takes it back and its answer is lost, the retry loses to the worker's own token, and it refuses while the key is its own |
| `Lease.LosingMeansAnotherUnlessItWasItself` | src/translog_quote/interface/jobs/queue.py:333-359 | In every run, a refresh whose SET NX loses faces another worker's key if and only if the SET NX that put the key there was not its own worker's, sent by another of its threads or by itself with the answer lost |
| `Lease.AForeignHolderIsRefused` | src/translog_quote/interface/jobs/queue.py:342-359 | In every run in which another token holds the key whenever a beating thread acts, that thread is refused by the first refresh whose read is answered, and until then goes on unrefused, however many beats fail; it never extends, deletes or returns from a refresh |
| `Lease.AnOverlapEndsAtTheNextRead` | src/translog_quote/interface/jobs/queue.py:417-436 | In every undisturbed run, while another worker stays inside a lease, a worker that goes on beyond its own is refused exactly when its next read is answered: the two overlap until then and no longer |
| `Lease.AWorkerCanOutstayItsLease` | src/translog_quote/interface/jobs/queue.py:417-436 | The run in which two overlap, for every positive TTL: a lease lapses before the next beat and another worker is granted one |
| `Lease.AnOperationIsShort` | src/translog_quote/interface/jobs/queue.py:67-93 | No operation sends more than nine commands |
| `Lease.WorkerLock.AcquireLock` | src/translog_quote/interface/jobs/queue.py:313-320 | Sends what the automaton of the concurrent model sends, and ends where it ends |
| `Lease.WorkerLock.WithRetry` | src/translog_quote/interface/jobs/queue.py:67-93 | The same command until it is answered, three times at most |
| `Lease.WorkerLock.RefreshLock` | src/translog_quote/interface/jobs/queue.py:322-359 | For every sequence of answers, sends exactly the automaton's commands and ends in its place |
| `Lease.WorkerLock.ReleaseLock` | src/translog_quote/interface/jobs/queue.py:364-367 | Likewise for release |
| `Lease.LockHeartbeat.Run` | src/translog_quote/interface/jobs/queue.py:417-436 | What is sent is one refresh an interval and nothing else, until stopped; after a refusal it notifies exactly once and never sends again; a dropped connection only skips a beat |
| `Gmail.GmailEmailSource.FetchSince` | src/translog_quote/adapters/email/gmail.py:794-815 | Whatever the memo and the quarantine hold, a poll returns exactly: the listing reversed, unseen parseable client mail kept, the budget taken; the memo stays within the window, and both stay true of the mailbox, also after mail is deleted from it or arrives |
| `Gmail.GmailEmailSource.IngestInTurn` | src/translog_quote/adapters/email/gmail.py:808-815 | The budgeted loop over a window equals filter-then-take |
| `Gmail.GmailEmailSource.Ingest` | src/translog_quote/adapters/email/gmail.py:839-912 | One id is appended if and only if it is wanted; skips cost no budget; memo, quarantine and metadata are updated accordingly |
| `Gmail.GmailEmailSource.FetchNewestSlice` | src/translog_quote/adapters/email/gmail.py:777-792 | The one-page read is newest first and ignores what was seen |
| `Gmail.ListIds` | src/translog_quote/adapters/email/gmail.py:817-837 | The paged loop lists pages until the cap is reached, a slice is empty or no page follows |
| `Gmail.WhatAPollReturns` | src/translog_quote/adapters/email/gmail.py:839-912 | No poll returns our own mail, internal mail, what could not be read or what was seen, nor more than the budget; one whose budget covers the window returns all the rest |
| `Gmail.ListedBeginsTheListing` | src/translog_quote/adapters/email/gmail.py:817-837 | What is listed begins the listing and is all of it unless the cap was reached |
| `Gmail.ReadWholeIffTheCapComesLast` | src/translog_quote/adapters/email/gmail.py:817-837 | For pages of any size, some of them empty, a listing is read whole if and only if it is empty or the pages ahead of the last one that holds mail hold fewer ids than the cap |
| `Gmail.ReadWholeIffWithinTheCap` | src/translog_quote/adapters/email/gmail.py:80-84 | With full pages, if and only if the listing is within the cap |
| `Gmail.AListingPastTheCap` | src/translog_quote/adapters/email/gmail.py:80-84 | A listing of one message more than the cap, whose oldest message is dropped |
| `Gmail.PastTheCapTheOldestIsNeverReturned` | src/translog_quote/adapters/email/gmail.py:80-84 | No number of polls of a listing past the cap returns its oldest message, whatever newer mail comes in between |
| `Gmail.AnUnlistedMessageIsNotReturned` | src/translog_quote/adapters/email/gmail.py:740-757 | Whatever else the polls list, a message none of them lists is never returned |
| `Gmail.PollsReturnTheOldestOnce` | src/translog_quote/adapters/email/gmail.py:740-757 | If what is returned is marked seen, then over any polls of a window that grows at its newest end, what has been returned is the oldest client mail, each message exactly once and in order |
| `Gmail.NoMessageIsReturnedTwice` | src/translog_quote/adapters/email/gmail.py:740-757 | Whatever is listed, deleted, delivered or dropped from the window between polls, no message is returned twice |
| `Gmail.AWaitingMessageIsReturned` | src/translog_quote/adapters/email/gmail.py:740-757 | A client's message that stays listed, with mail ahead of it only read, deleted or dropped from the window, is returned by the polls whose budgets cover what was ahead of it at first |
| `Gmail.AWindowDrains` | src/translog_quote/adapters/email/gmail.py:740-757 | A window that does not change is drained by n polls if and only if n budgets cover its client messages, whatever malformed or internal mail lies between |
| `Gate.AtMostOneQuotation` | src/translog_quote/pipeline/quotation.py:149-221 | Over any runs of any number of stages sharing a store that knows the request, at most one quotation is sent, each right after an approval in its own run, and nothing follows a quotation or a decline |
| `Gate.OnceIffTheStoreKnowsIt` | src/translog_quote/pipeline/quotation.py:243-260 | Every sequence of runs quotes a request at most once if and only if the store knows it |
| `Gate.TwoStagesCanQuoteAnUnknownRequest` | src/translog_quote/pipeline/quotation.py:251-255 | Two stages and a request the store does not know: two quotations |
| `Gate.OneStageQuotesOnce` | src/translog_quote/pipeline/quotation.py:149-156 | A single stage quotes a request at most once whatever store it has |
| `Gate.SettledStatesAreFinal` | src/translog_quote/pipeline/quotation.py:243-260 | QUOTATION_SENT and MAKER_REJECTED are never left, and no run touches a stored record |
| `Gate.OneRun` | src/translog_quote/pipeline/quotation.py:130-221 | The events of one run come in one of four orders; a quotation only right after an approval and the review; a decided or settled request is left alone |
| `Gate.WhenARunIsRefused` | src/translog_quote/pipeline/quotation.py:149-165 | A run refuses to ask if and only if its stage decided before or the stored request is at QUOTATION_SENT or MAKER_REJECTED, and then changes nothing |
| `Gate.WhatARunDoes` | src/translog_quote/pipeline/quotation.py:130-221 | From the visit and the ledger alone: what is mailed and in what order, what is remembered, the state saved, and the outcome or the reason there is none |
| `Gate.WhereARunEnds` | src/translog_quote/pipeline/quotation.py:190-221 | A stored request ends at MAKER_REJECTED if and only if the person answered and declined, at QUOTATION_SENT if and only if a quotation left in that run, and at PENDING_APPROVAL if and only if the run raised; the outcome carries the stored state, and nothing else is stored |
| `Gate.TheStoreSaysWhatTheLogSays` | src/translog_quote/pipeline/quotation.py:243-295 | Over any runs of any stages: QUOTATION_SENT if and only if a quotation for it is in the log, MAKER_REJECTED if and only if a decline is, otherwise PENDING_APPROVAL once any run was made for it |
| `Gate.OneRunKeeps` | src/translog_quote/pipeline/quotation.py:283-295 | A run leaves every other request, every record and every earlier decision alone, and invents no request |
| `Gate.ASharedStoreRemembers` | src/translog_quote/pipeline/quotation.py:243-260 | With a store that knows the request, a final event is remembered by its state |
| `Gate.OneStageRemembers` | src/translog_quote/pipeline/quotation.py:149-156 | Without one, by the stage's own ledger |
| `Gate.QuotationStage.RunVisit` | src/translog_quote/pipeline/quotation.py:130-221 | `run` on the object does what `Gate.RunOnce` does, which `Gate.WhatARunDoes` and `Gate.WhereARunEnds` fix from the visit, and none of its constant edges is refused |
| `Gate.QuotationStage.Dispatch` | src/translog_quote/pipeline/quotation.py:225-241 | Sends once per request, and changes nothing when it does not send |
| `Gate.QuotationStage.SaveState` | src/translog_quote/pipeline/quotation.py:283-295 | Saves the state of a request the store knows and invents none |
| `Rates.FilterRates` | src/translog_quote/domain/rates/filters.py:104-130 | The survivors, which pass every rule, and the excluded, each with the earliest rule it fails, interleave to the input in its own order |
| `Rates.FilteringIsDetermined` | src/translog_quote/domain/rates/filters.py:104-130 | Those three facts leave one outcome only |
| `Rates.Rejection` | src/translog_quote/domain/rates/filters.py:23-101 | No reason if and only if no rule rejects; otherwise the first rule in order that does |
| `Rates.WhyARateIsExcluded` | src/translog_quote/domain/rates/filters.py:23-101 | What survives is priced in a currency, has a transit time, is of no carrier that states it takes no liquids when the cargo is one, and states door delivery where it is asked for; and each reason is given exactly when it is the first to apply |
| `Rates.BuildSortKey` | src/translog_quote/domain/rates/selection.py:53-60 | The loop builds one part per key, reversed for a descending one |
| `Rates.TuplesCompareAtTheFirstDifference` | src/translog_quote/domain/rates/selection.py:53-78 | Comparing sort keys as tuples is comparing at the first key on which two rates differ, in that key's own direction |
| `Rates.WhatAKeyCompares` | src/translog_quote/domain/rates/selection.py:31-50 | A key is the minutes of transit, the price or the carrier's code, the lesser first, and a descending one turns that round |
| `Rates.StringsCompareAtTheFirstDifference` | src/translog_quote/domain/rates/selection.py:45-50 | Codes compare at their first different character, a prefix before what it begins |
| `Rates.TransitUnitsAgree` | src/translog_quote/domain/rates/model.py:34-49 | An hour is sixty minutes and a day twenty-four hours, so rates quoted in different units are compared as they should be |
| `Rates.ChainsAreKeyOrders` | src/translog_quote/domain/rates/selection.py:53-78 | Any chain of ascending and descending keys is an order a stable sort can use |
| `Rates.TheWinnerIsLeast` | src/translog_quote/domain/rates/selection.py:101-117 | Winner and runners-up are a permutation of the input; no rate comes before the winner under any mix of directions, and among ties it is the first |
| `Rates.AnAbsentPriceComesFirst` | src/translog_quote/domain/rates/selection.py:27-28 | Ranked by price, a rate without one comes before a priced rate if and only if that price is above minus one; the filter alone keeps it out |
| `Rates.SelectionSucceeds` | src/translog_quote/domain/rates/selection.py:101-117 | A filtered set is always selected from, and only the empty one gives nothing |
| `Rates.WhenSelectionRaises` | src/translog_quote/domain/rates/selection.py:101-117 | Exactly when selection raises and with what: a rate without transit under a key that needs one, or no key to give as a reason |
| `Rates.OptionsAreTheExtremes` | src/translog_quote/domain/rates/options.py:76-84 | Both options are in the set and best on their own axis and then on the other; the cheapest is withheld if and only if two currencies are quoted |
| `Rates.HowTiesAreBroken` | src/translog_quote/domain/rates/options.py:76-84 | A tie on both axes goes to the carrier whose code comes first, and then to the rate that came first |
| `Rates.WhenTheCheapestIsWithheld` | src/translog_quote/domain/rates/options.py:63-73 | Over any rates with transit: for want of a price or currency if and only if some rate lacks one, otherwise for mixed currencies if and only if two are quoted |
| `Rates.WhatIsQuoted` | src/translog_quote/domain/quotation/compose.py:432-465 | A quotation is refused if and only if door delivery was asked for and the rate does not state it, and otherwise is of the selected rate |
| `Rates.SelectFor` | src/translog_quote/pipeline/rate_search.py:162-184 | From any provider rates and any chain, what is selected is eligible and a quotation for the record is never refused for its delivery |
| `Sorting.SortIsPermutation` | src/translog_quote/domain/rates/selection.py:110-111 | Python's sort is a permutation of its input |
| `Sorting.SortIsSorted` | src/translog_quote/domain/rates/selection.py:110-111 | Its result is in order |
| `Sorting.SortIsStable` | src/translog_quote/domain/rates/selection.py:110-111 | Rows whose keys tie keep their order |
| `Offers.GroupOffers` | src/translog_quote/domain/rates/offers.py:107-117 | The one-pass dictionary gives the groups of `Offers.GroupsOf`; that two rows share one exactly if they are of the same offer, and how many there are, is `Offers.OneGroupIffSameOffer` and `Offers.AsManyGroupsAsOffers` |
| `Offers.OneGroupIffSameOffer` | src/translog_quote/domain/rates/offers.py:87-95 | Two rows lie in one group if and only if carrier, product, total, currency and transit minutes all agree |
| `Offers.AsManyGroupsAsOffers` | src/translog_quote/domain/rates/offers.py:107-117 | There are as many groups as offers, however one row of each is chosen |
| `Offers.FirstRowsRepresent` | src/translog_quote/domain/rates/offers.py:201 | The first rows of the groups are such a choice |
| `Offers.RowsKeepTheirOrder` | src/translog_quote/domain/rates/offers.py:107-117 | In its group a row comes after exactly the rows of its offer that came before it |
| `Offers.GroupsKeepTheirOrder` | src/translog_quote/domain/rates/offers.py:107-117 | Groups come in the order of their first rows |
| `Offers.EveryRowIsInOneGroup` | src/translog_quote/domain/rates/offers.py:107-117 | Every row is in exactly one group, as often as in the input |
| `Offers.OtherOffers` | src/translog_quote/domain/rates/offers.py:168-219 | Returns the first `limit` of the ranked other offers and how many there are |
| `Offers.OffersBeside` | src/translog_quote/domain/rates/offers.py:187-192 | The loop keeps exactly the groups that hold no option |
| `Offers.MarkTradeOffs` | src/translog_quote/domain/rates/offers.py:201-217 | Marking against one row per group is marking against every row of every other offer |
| `Offers.WeaklyDominated` | src/translog_quote/domain/rates/offers.py:140-152 | True if and only if some rival costs no more and takes no longer |
| `Offers.TheOthersAreTheRest` | src/translog_quote/domain/rates/offers.py:168-219 | The ranked offers are all different, and every row that is of no option's offer is in one of them |
| `Offers.TheTotalIsWhatIsLeft` | src/translog_quote/domain/rates/offers.py:168-219 | The reported total is the number of offers, however one row of each is chosen, less one or two, as the options share an offer or not |
| `Offers.RankedAreOthers` | src/translog_quote/domain/rates/offers.py:201-217 | A ranked offer shows every row of its own as often as it is there, none of another and none of an option's; it is a trade-off if and only if every row that differs in carrier, product, total, currency or minutes costs more or takes longer; without a cheapest none is marked |
| `Offers.AnOfferShowsItsEarliest` | src/translog_quote/domain/rates/offers.py:187-192 | The row an offer shows is its earliest, the others follow in order, and rows that depart together keep theirs |
| `Offers.TheListIsInOrder` | src/translog_quote/domain/rates/offers.py:194-218 | With comparable prices the trade-offs come before the rest, each part by price, then transit, then carrier; otherwise the list is by transit and carrier with nothing marked |
| `Offers.TradeOffsClimb` | src/translog_quote/domain/rates/offers.py:201-219 | The trade-offs come first, each strictly dearer and strictly faster than the one before |
| `Offers.TradeOffsLieBetween` | src/translog_quote/domain/rates/offers.py:201-219 | Every trade-off lies strictly between the cheapest and the fastest on both axes |
| `Offers.OfferFor` | src/translog_quote/domain/rates/offers.py:155-165 | The card of a rate shows it and the other rows of its group |
| `Offers.ACardShowsTheRest` | src/translog_quote/domain/rates/offers.py:161-164 | Those are all rows that agree with it in carrier, product, total, currency and minutes, in order of departure, without any copy of the rate itself |
| `Clarification.IdentifyUnresolved` | src/translog_quote/domain/clarification/compose.py:105-193 | The two loops and the sort give the specified analysis |
| `Clarification.ATurnAsksExactly` | src/translog_quote/domain/clarification/compose.py:105-193 | In a turn the fields asked about are exactly those in conflict and the gaps neither in conflict nor denied, strictly in canonical order; denied gaps go to the blocked list, and MSDS never does |
| `Clarification.AskedExactly` | src/translog_quote/domain/clarification/compose.py:105-193 | The same for any findings, with the reason of each question: conflict, ambiguous, invalid or missing, and the two values of a conflict |
| `Clarification.BlockedInTheOrderOfTheFindings` | src/translog_quote/domain/clarification/compose.py:105-193 | The blocked list has the denied findings that no conflict covers, each once, in their order |
| `Clarification.AskedInCanonicalOrder` | src/translog_quote/domain/clarification/compose.py:189-193 | Strictly increasing canonical order: nothing is asked twice |
| `Clarification.ADeniedMsdsIsAnAnswer` | src/translog_quote/domain/extraction/mapping.py:60-73 | A denied MSDS fills the field and never blocks |
| `Clarification.NothingOpenMeansValid` | src/translog_quote/domain/clarification/compose.py:58-79 | Nothing to ask and nothing denied means no conflict and no finding |
| `Clarification.ComposeClarification` | src/translog_quote/domain/clarification/compose.py:217-260 | Writes the specified message, or none when nothing is outstanding |
| `Clarification.QuestionsAreNumberedOneToN` | src/translog_quote/domain/clarification/compose.py:231-251 | Every item is asked once, numbered 1 to n across both paragraphs; conflicts, and only they, are in the second |
| `Clarification.WhichNumberEachItemGets` | src/translog_quote/domain/clarification/compose.py:231-251 | Which item gets which number: the open ones first, in the order of the list, then the conflicts in theirs |
| `Shipment.MergeShipment` | src/translog_quote/domain/shipment/merge.py:95-134 | The loop computes the merge of `Shipment.Merge`; what that is, read off the record and the message, is `Shipment.MergeTellsFillsFromContradictions` |
| `Shipment.ValuesDifferIffTheyContradict` | src/translog_quote/domain/shipment/merge.py:48-58 | Two texts are different values if and only if they differ in the number of their words or in some letter of a word up to case; values of any other kind, or of two kinds, if and only if they are unequal |
| `Shipment.MergeTellsFillsFromContradictions` | src/translog_quote/domain/shipment/merge.py:95-134 | A stated field, text with a word in it or any other value, is changed if and only if nothing is stored, in conflict if and only if what is stored contradicts it, and else confirmed; the conflict carries both values |
| `Shipment.WordsOfALayout` | src/translog_quote/domain/shipment/normalize.py:39-42 | However words and gaps of whitespace are laid out, the words are what splitting finds |
| `Shipment.EveryTextHasALayout` | src/translog_quote/domain/shipment/normalize.py:39-42 | And every text is so laid out |
| `Shipment.CleaningSpacesOnce` | src/translog_quote/domain/shipment/normalize.py:39-42 | Normalised text has the same words, one space between two and no other whitespace |
| `Shipment.MergeListsFieldsInOrder` | src/translog_quote/domain/shipment/merge.py:108-127 | Changes, confirmations and conflicts come in canonical order, no field twice |
| `Shipment.MergeNeverReplaces` | src/translog_quote/domain/shipment/merge.py:108-127 | A merge keeps every stored value and fills exactly the fields it reports as changed |
| `Shipment.MergeReportsEveryStatedField` | src/translog_quote/domain/shipment/merge.py:108-125 | Each normalised field is reported exactly once: changed, confirmed or conflicting, a conflict with both values as they were; what makes a conflict, `Shipment.ValuesDifferIffTheyContradict` says |
| `Shipment.RepeatingIsNeverAConflict` | src/translog_quote/domain/shipment/merge.py:48-58 | Repeating what is known in any case and spacing changes and contradicts nothing |
| `Shipment.CleaningKeepsTheValue` | src/translog_quote/domain/shipment/merge.py:48-58 | Normalising text never turns it into a different value |
| `Shipment.CleanIsIdempotent` | src/translog_quote/domain/shipment/normalize.py:39-58 | Normalising twice is normalising once |
| `Shipment.ToExtractedFields` | src/translog_quote/domain/extraction/mapping.py:45-73 | Stated values only, and a denied MSDS as the answer no |
| `Shipment.ResolveShipDate` | src/translog_quote/domain/extraction/ship_date.py:54-70 | Only a stated shipment date is touched; a past one becomes the roll-forward of it, any other stays |
| `Validation.FindingsAreTheGaps` | src/translog_quote/domain/validation/validator.py:235-247 | A field is found missing if and only if the shipment lacks it and wrong if and only if it is out of range, against a definition that does not mention the rules |
| `Validation.FindingsConcernDifferentFields` | src/translog_quote/domain/validation/validator.py:219-247 | No two of the thirteen findings concern one field |
| `Validation.MissingFieldsAreTheLacks` | src/translog_quote/domain/validation/validator.py:235-247 | The missing fields are the lacks, on any date |
| `Validation.BlankIffWithoutAWord` | src/translog_quote/domain/validation/validator.py:33-41 | A text is lacking if and only if it is absent or has no word in it |
| `Validation.ValidMeansNoGaps` | src/translog_quote/domain/validation/validator.py:235-247 | Valid if and only if nothing is lacking or out of range |
| `Validation.ValidOnADayIsValidWithoutOne` | src/translog_quote/domain/validation/validator.py:188-204 | Passing on some day is passing the date-independent rules for good |
| `Validation.ValidShipmentsPassTheQueryGuards` | src/translog_quote/pipeline/rate_search.py:97-102 | None of the rate query's guards fires on a valid shipment |
| `Calendar.RollForwardToToday` | src/translog_quote/domain/extraction/ship_date.py:32-51 | The loop over years terminates and computes the roll-forward |
| `Calendar.RolledIsTheNextOccurrence` | src/translog_quote/domain/extraction/ship_date.py:32-51 | The stated date if not past, else its earliest anniversary that is not before today, at most eight years on |
| `Calendar.RollingIsIdempotent` | src/translog_quote/domain/extraction/ship_date.py:32-51 | Rolling again on the same or an earlier day changes nothing |
| `Calendar.RollingIsMonotone` | src/translog_quote/domain/extraction/ship_date.py:32-51 | A later day never gives an earlier date |
| `Calendar.PythonLoopReturnsIffADayIsLeft` | src/translog_quote/domain/extraction/ship_date.py:42-51 | With dates ending at 9999 the loop finds a date if and only if today is not past the last such day of that calendar: 29 February 9996, or the same day of 9999 |
| `Calendar.TheAnswerIsTheSame` | src/translog_quote/domain/extraction/ship_date.py:42-51 | That is so exactly when the roll-forward without an end falls within the calendar |
| `Calendar.RollForwardExtremes` | src/translog_quote/domain/extraction/ship_date.py:42-51 | The gap of eight years is reached, and 29 February after 9996 has no answer |
| `Calendar.LeapYearWithinEight` | src/translog_quote/domain/extraction/ship_date.py:36-38 | A leap year comes within eight years |
| `Calendar.LeapYearsAreCounted` | src/translog_quote/domain/extraction/ship_date.py:36-38 | The leap years up to a year are its quarter, less its hundredth, plus its four-hundredth part |
| `Calendar.MonthsMakeAYear` | src/translog_quote/domain/extraction/ship_date.py:42-51 | Long and short months alternate and begin again in August, and a year has 365 days or 366 |
| `Calendar.DaysCompareAsNumbers` | src/translog_quote/domain/extraction/ship_date.py:42-51 | Dates compare as numbers, and any two are in order |
| `Units.RoundUpBounds` | src/translog_quote/domain/shipment/units.py:89-92 | A multiple of a tenth, never more than 1e-10 below the true size and less than a tenth above |
| `Units.RoundUpIsTheOnlyTenth` | src/translog_quote/domain/shipment/units.py:89-92 | Those bounds determine it |
| `Units.LengthIsNeverUnderstated` | src/translog_quote/domain/shipment/units.py:95-102 | The bounds for lengths in every unit; inches pass through |
| `Units.WeightIsNeverUnderstated` | src/translog_quote/domain/shipment/units.py:105-109 | The bounds for weights in every unit; kilograms pass through |
| `Units.TheTotalIsNeverUnderstated` | src/translog_quote/domain/shipment/units.py:291-297 | The total of any number of pieces, in kilograms too, is a whole number of tenths within the same bounds |
| `Units.TheFactorsAgree` | src/translog_quote/domain/shipment/units.py:29-46 | How the factors relate: a foot, an inch, a metre, a tonne, a kilogram and a pound |
| `Units.LengthsKeepTheirOrder` | src/translog_quote/domain/shipment/units.py:95-102 | Conversion of lengths is monotone |
| `Units.WeightsKeepTheirOrder` | src/translog_quote/domain/shipment/units.py:105-109 | Conversion of weights is monotone |
| `Units.MultiplyFirstIsTheTighterRoute` | src/translog_quote/domain/shipment/units.py:291-297 | Multiplying the pieces first stays within a tenth of the true total and exceeds the per-piece route by at most a tenth, up to a thousand million pieces; the per-piece route overstates by less than a tenth a piece |
| `Units.ThePerPieceRouteCanOverstateByATenthEach` | src/translog_quote/domain/shipment/units.py:291-297 | For every number of pieces it can overstate by all but 2e-10 of that tenth for each |
| `Units.FourBoxesOfFiftyFivePounds` | src/translog_quote/domain/shipment/units.py:291-294 | The documented example: 99.8 kg one way and 100 kg the other |

## Left out

- Audit events, logging, subjects, the wording of questions and notes, evidence quoted back, and every display
  text: only which fields are asked, why, and under which number is kept.
- The language model, its prompt, and the regular expressions that recognise units, dates, preferences, quoted
  replies and automated senders: an extraction is any value its contract allows, and an automated sender is a flag.
- HTTP, OAuth, retries with backoff, quota holds, MIME parsing, and the JSON written to Redis and to files.
- The fields of a stored request that no modelled branch reads: its subject, its notes for a person, the rates and
  the quotation kept with it; and the request id and source inside the record.
- The web pages, the command-line demonstrations, the job queue around the worker and the simulated rates.
- Iteration in sorted id order: the sweep and the seeding loop visit ids in any order, and report sets.
- The workflow's optional collaborators (a gate without a store is modelled; a stage without an approver address,
  which refuses to be built, is not).
- Shipment.CleaningKeepsTheValue: case folding is that of ASCII, not of Unicode; whitespace is Python's.
- Shipment.RepeatingIsNeverAConflict: ASCII case, as above.
- Shipment.ValuesDifferIffTheyContradict: ASCII case, as above.
- Units.RoundUpBounds: arithmetic is over the reals; the effect of binary floating point is not modelled, nor is a
  unit outside the tables.
- Calendar.RollForwardToToday: the calendar has no last year; `Calendar.PythonLoopReturnsIffADayIsLeft` says when
  that matters.
- Offers.OtherOffers: the order of departures within an offer is any order of rows, in place of the parsed date and
  time labels, and the limit is not negative.
- Rates.TheWinnerIsLeast: the worded reason for a choice is not modelled, only that an empty chain fails on it.
- Gmail.GmailEmailSource.FetchSince: the time window of the query is the listing it is given; which messages the
  provider lists, and a malformed listing, are not modelled.
- Gmail.PollsReturnTheOldestOnce: for client messages with distinct Message-IDs, over a mailbox in which nothing is
  deleted; `Gmail.NoMessageIsReturnedTwice` and `Gmail.AWaitingMessageIsReturned` do without the second.
- Lease.LockHeartbeat.Run: the stop event is a number of intervals, and a callback that raises is not modelled.
- Durable.TheLastCommitIsOnDisk: for Redis; what the two files hold after a failed write is covered by
  `Durable.TheNextFileWriteRepairs`, and over runs by `Durable.RunIsSound` and `Durable.CompletedCommitsOrphanNothing`.
- Gate.AtMostOneQuotation: the worded quotation, its markup and note are not modelled, only its delivery guard.
