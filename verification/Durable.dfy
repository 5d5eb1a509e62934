/** Commit points and the durable store. Each process works on its own copy of the stored requests, and writes
    a request back together with its thread once a step can no longer be undone. The durable store answers
    from memory and persists every write: Redis one hash field at a time, and both of a commit's fields in one
    transaction; the file store by rewriting a whole file. */
module Durable {
  import opened Prelude
  import opened Workflow
  import opened WorkflowClass
  import opened Routing

  /** What a store holds. */
  datatype Kept = Kept(requests: map<Id, QuotationRequest>, threads: Threads)

  /** What a durable store has in memory, and what has reached Redis or the disk. */
  datatype Copies = Copies(cache: Kept, disk: Kept)

  /** How a write ends: it returns, it fails without being applied, or it is applied and its reply lost. */
  datatype Reply = Applied | NotApplied | ReplyLost

  datatype Lost = WriteFailed

  const NOTHING: Kept := Kept(map[], map[])

  // ----- single writes and the transaction ----------------------------------

  /** `save_request`: memory first, then the write. A file is rewritten with all that memory holds; a hash
      gets the one field. */
  function SavedRequest(c: Copies, redis: bool, id: Id, q: QuotationRequest, reply: Reply): Copies {
    var cache := c.cache.(requests := c.cache.requests[id := q]);
    var written := if redis then c.disk.requests[id := q] else cache.requests;
    Copies(cache, if reply.NotApplied? then c.disk else c.disk.(requests := written))
  }

  /** `save_thread`. */
  function SavedThread(c: Copies, redis: bool, id: Id, thread: seq<string>, reply: Reply): Copies {
    var cache := c.cache.(threads := c.cache.threads[id := thread]);
    var written := if redis then c.disk.threads[id := thread] else cache.threads;
    Copies(cache, if reply.NotApplied? then c.disk else c.disk.(threads := written))
  }

  function With(k: Kept, id: Id, q: QuotationRequest, thread: Option<seq<string>>): Kept {
    Kept(k.requests[id := q], if thread.Some? then k.threads[id := thread.value] else k.threads)
  }

  /** `commit_request_and_thread`: one transaction, and memory only after it returned. */
  function CommittedTogether(
    c: Copies, id: Id, q: QuotationRequest, thread: Option<seq<string>>, reply: Reply): Copies {
    Copies(if reply.Applied? then With(c.cache, id, q, thread) else c.cache,
           if reply.NotApplied? then c.disk else With(c.disk, id, q, thread))
  }

  function ThreadOf(threads: Threads, id: Id): Option<seq<string>> {
    if id in threads then Some(threads[id]) else None
  }

  /** `commit_request`: the transaction where the store offers one and there is a request, else two plain
      saves. `second` is the reply to the second save, when there is one. */
  function CommittedRequest(
    c: Copies, redis: bool, source: Kept, id: Id, first: Reply, second: Reply): (Copies, Result<(), Lost>)
  {
    var request, thread := Lookup(source.requests, id), ThreadOf(source.threads, id);
    if request.Some? && redis then (CommittedTogether(c, id, request.value, thread, first), Ended(first))
    else
      var saved := if request.Some? then SavedRequest(c, redis, id, request.value, first) else c;
      if request.Some? && !first.Applied? then (saved, Raised(WriteFailed))
      else if thread.None? then (saved, Returned(()))
      else (SavedThread(saved, redis, id, thread.value, second), Ended(second))
  }

  /** `commit_thread`. */
  function CommittedThread(c: Copies, redis: bool, source: Kept, id: Id, reply: Reply): (Copies, Result<(), Lost>) {
    var thread := ThreadOf(source.threads, id);
    if thread.None? then (c, Returned(()))
    else (SavedThread(c, redis, id, thread.value, reply), Ended(reply))
  }

  function Ended(reply: Reply): Result<(), Lost> {
    if reply.Applied? then Returned(()) else Raised(WriteFailed)
  }

  /** `base` with the entries of `top` at `keys` written over it. */
  function Overlaid<V>(base: map<Id, V>, top: map<Id, V>, keys: set<Id>): map<Id, V> {
    base + map id | id in top && id in keys :: top[id]
  }

  /** `seed_store`: every thread is copied, and with each the request of the same id. */
  function Seed(target: Kept, source: Kept): Kept {
    Kept(Overlaid(target.requests, source.requests, source.threads.Keys),
         Overlaid(target.threads, source.threads, source.threads.Keys))
  }

  /** A new scratch store, seeded. */
  function Seeded(source: Kept): Kept {
    Seed(NOTHING, source)
  }

  /** A new process loads what has reached the disk. */
  function Reloaded(c: Copies): Copies {
    Copies(c.disk, c.disk)
  }

  // ----- what a commit writes -----------------------------------------------

  /** Whether a commit's request, and its thread, reach Redis or the disk. */
  predicate RequestReaches(source: Kept, id: Id, first: Reply) {
    id in source.requests && !first.NotApplied?
  }

  predicate ThreadReaches(redis: bool, source: Kept, id: Id, first: Reply, second: Reply) {
    && id in source.threads
    && if id !in source.requests then !second.NotApplied?
       else if redis then !first.NotApplied? else first.Applied? && !second.NotApplied?
  }

  /** What Redis holds after a commit, and what the call returns: both fields or neither where there is a request; with
      files, below, the request alone if its save raised. */
  lemma WhatACommitWritesToRedis(c: Copies, source: Kept, id: Id, first: Reply, second: Reply)
    ensures var r := CommittedRequest(c, true, source, id, first, second);
            && r.0.disk.requests == (if RequestReaches(source, id, first)
                                     then c.disk.requests[id := source.requests[id]] else c.disk.requests)
            && r.0.disk.threads == (if ThreadReaches(true, source, id, first, second)
                                    then c.disk.threads[id := source.threads[id]] else c.disk.threads)
            && (r.1.Raised? <==> if id in source.requests then !first.Applied?
                                 else id in source.threads && !second.Applied?)
            && (id in source.requests ==>
                  r.0.cache == if first.Applied?
                      then With(c.cache, id, source.requests[id], ThreadOf(source.threads, id))
                               else c.cache)
  {
  }

  /** The same for two files, each of which holds all that memory does once it is written. */
  lemma WhatACommitWritesToFiles(c: Copies, source: Kept, id: Id, first: Reply, second: Reply)
    ensures var r := CommittedRequest(c, false, source, id, first, second);
            && r.0.disk.requests == (if RequestReaches(source, id, first)
                                     then c.cache.requests[id := source.requests[id]] else c.disk.requests)
            && r.0.disk.threads == (if ThreadReaches(false, source, id, first, second)
                                    then c.cache.threads[id := source.threads[id]] else c.disk.threads)
            && (id in source.requests ==> r.0.cache.requests == c.cache.requests[id := source.requests[id]])
            && (r.1.Raised? <==>
                  (id in source.requests && !first.Applied?) || (id in source.threads && !second.Applied?))
  {
  }

  /** A message that changed no request is committed by its thread alone. */
  lemma WhatACommitOfTheThreadWrites(c: Copies, redis: bool, source: Kept, id: Id, reply: Reply)
    ensures var r := CommittedThread(c, redis, source, id, reply);
            && r.0.disk.requests == c.disk.requests && r.0.cache.requests == c.cache.requests
            && (r.1.Raised? <==> id in source.threads && !reply.Applied?)
            && (id in source.threads && !reply.NotApplied?
               ==> ThreadOf(r.0.disk.threads, id) == Some(source.threads[id]))
            && (id !in source.threads || reply.NotApplied? ==> r.0.disk.threads == c.disk.threads)
            && (forall other :: other != id && redis ==>
                  ThreadOf(r.0.disk.threads, other) == ThreadOf(c.disk.threads, other))
  {
  }

  // ----- when memory and disk agree -----------------------------------------

  /** A plain save goes to memory first, so it leaves the two in agreement unless it failed unapplied and
      was not a repetition of what is already there. */
  lemma SavingKeepsAgreementUnlessUnapplied(c: Copies, redis: bool, id: Id, q: QuotationRequest, reply: Reply)
    requires c.cache == c.disk
    ensures var after := SavedRequest(c, redis, id, q, reply);
            after.cache == after.disk <==> !reply.NotApplied? || Lookup(c.disk.requests, id) == Some(q)
  {
    var after := SavedRequest(c, redis, id, q, reply);
    if reply.NotApplied? {
      assert after.cache.requests[id] == q;
      if Lookup(c.disk.requests, id) == Some(q) {
        assert c.disk.requests[id := q] == c.disk.requests;
      }
    }
  }

  /** A transaction goes to memory last, so it leaves the two in agreement unless its reply was lost and it
      changed something. */
  lemma CommittingKeepsAgreementUnlessTheReplyIsLost(
    c: Copies, id: Id, q: QuotationRequest, thread: Option<seq<string>>, reply: Reply)
    requires c.cache == c.disk
    ensures var after := CommittedTogether(c, id, q, thread, reply);
            after.cache == after.disk <==> !reply.ReplyLost? || With(c.disk, id, q, thread) == c.disk
  {
  }

  /** A file is rewritten from memory, so the next save that is applied repairs whatever an earlier failure
      left behind; a hash field is not touched by the save of another. */
  lemma TheNextFileWriteRepairs(c: Copies, id: Id, q: QuotationRequest, other: Id)
    requires other != id
    ensures var file, hash := SavedRequest(c, false, id, q, Applied), SavedRequest(c, true, id, q, Applied);
            && file.disk.requests == file.cache.requests
            && Lookup(hash.disk.requests, other) == Lookup(c.disk.requests, other)
            && Lookup(hash.cache.requests, other) == Lookup(c.cache.requests, other)
  {
  }

  // ----- seeding ------------------------------------------------------------

  /** Every thread of the source and its request are copied over what the target had; nothing else of the target
      moves. */
  lemma SeedingCopiesWhatHasAThread(target: Kept, source: Kept, id: Id)
    ensures var after := Seed(target, source);
            && ThreadOf(after.threads, id)
               == ThreadOf(if id in source.threads then source.threads else target.threads, id)
            && Lookup(after.requests, id) == Lookup(if id in source.threads && id in source.requests
                                                    then source.requests else target.requests, id)
  {
  }

  /** What `seed_store` makes of `source` agrees with it on every thread, and on every request if and only if every
      request has a thread. */
  lemma SeedingLosesOnlyOrphans(source: Kept)
    ensures Seeded(source).threads == source.threads
    ensures Seeded(source) == source <==> source.requests.Keys <= source.threads.Keys
    ensures forall id :: id in source.requests && id !in source.threads ==> id !in Seeded(source).requests
  {
    var seeded := Seeded(source);
    if source.requests.Keys <= source.threads.Keys {
      assert seeded.requests == source.requests;
    } else {
      var id :| id in source.requests.Keys && id !in source.threads.Keys;
      assert id !in seeded.requests;
    }
  }

  /** With two plain saves, a process that dies between them has kept the request without its thread: the
      next run recovers all that is on disk if and only if an earlier thread of that request was there. */
  lemma ACrashBetweenTwoSavesCanOrphanARequest(c: Copies, source: Kept, id: Id, second: Reply)
    requires c.cache == c.disk && Threaded(c.disk.requests, c.disk.threads) && id in source.requests
    requires id in source.threads && second.NotApplied?
    ensures var after := Reloaded(CommittedRequest(c, false, source, id, Applied, second).0);
            && after.disk.requests[id] == source.requests[id] && after.disk.threads == c.disk.threads
            && (Seeded(after.cache) == after.cache <==> id in c.disk.threads)
  {
    SeedingLosesOnlyOrphans(Reloaded(CommittedRequest(c, false, source, id, Applied, second).0).cache);
  }

  // ----- a system that commits and restarts ---------------------------------

  /** The office at work on its scratch store, and the durable store it commits to. */
  datatype System = System(office: Office, copies: Copies)

  datatype SystemEvent =
    | Worked(e: OfficeEvent)
    | CommitBoth(id: Id, first: Reply, second: Reply)
    | CommitSeen(id: Id, reply: Reply)
    | Restart

  function Working(o: Office): Kept {
    Kept(o.desk.requests, o.threads)
  }

  /** A new process: what was persisted is read back and copied, and the workflow starts
      with no rounds, no drafts and no mail of its own. */
  function OfficeFrom(k: Kept): Office {
    Opened(Seeded(k).requests, Seeded(k).threads)
  }

  ghost function SystemStep(s: System, redis: bool, maxRounds: int, e: SystemEvent): System {
    match e
    case Worked(w) => s.(office := OfficeStep(s.office, maxRounds, w))
    case CommitBoth(id, first, second) =>
        s.(copies := CommittedRequest(s.copies, redis, Working(s.office), id, first, second).0)
    case CommitSeen(id, reply) => s.(copies := CommittedThread(s.copies, redis, Working(s.office), id, reply).0)
    case Restart => System(OfficeFrom(Reloaded(s.copies).cache), Reloaded(s.copies))
  }

  const FRESH: System := System(Opened(map[], map[]), Copies(NOTHING, NOTHING))

  /** From nothing at all: messages, approvals and everything else the office does, commits that return, fail or
      lose their replies, and restarts at any point, on Redis or on two files. */
  ghost function SystemRun(redis: bool, maxRounds: int, events: seq<SystemEvent>): System {
    if events == [] then FRESH
    else SystemStep(SystemRun(redis, maxRounds, events[..|events| - 1]), redis, maxRounds, events[|events| - 1])
  }

  lemma RunOneMore(redis: bool, maxRounds: int, events: seq<SystemEvent>, e: SystemEvent)
    ensures SystemRun(redis, maxRounds, events + [e])
            == SystemStep(SystemRun(redis, maxRounds, events), redis, maxRounds, e)
  {
    assert (events + [e])[..|events|] == events;
  }

  /** Each thread on record begins the same thread elsewhere. */
  ghost predicate Behind(kept: Threads, ahead: Threads) {
    forall id :: id in kept ==> id in ahead && kept[id] <= ahead[id]
  }

  /** No request on disk lacks a thread there. */
  ghost predicate NoOrphans(k: Kept) {
    k.requests.Keys <= k.threads.Keys
  }

  ghost predicate Sound(s: System, redis: bool) {
    && Threaded(s.office.desk.requests, s.office.threads)
    && OneOwner(s.office.threads)
    && Behind(s.copies.disk.threads, s.office.threads) && Behind(s.copies.cache.threads, s.office.threads)
    && (forall id :: id in s.copies.disk.threads ==> s.copies.disk.threads[id] != [])
    && (forall id :: id in s.copies.cache.threads ==> s.copies.cache.threads[id] != [])
    && (if redis then NoOrphans(s.copies.disk) else Behind(s.copies.disk.threads, s.copies.cache.threads))
  }

  lemma WorkingKeepsSound(s: System, redis: bool, maxRounds: int, e: OfficeEvent)
    requires Sound(s, redis)
    ensures Sound(SystemStep(s, redis, maxRounds, Worked(e)), redis)
  {
    var after := OfficeStep(s.office, maxRounds, e);
    StepKeepsThreaded(s.office, maxRounds, e);
    StepKeepsOneOwner(s.office, maxRounds, e);
    StillBehind(s.copies.disk.threads, s.office, maxRounds, e);
    StillBehind(s.copies.cache.threads, s.office, maxRounds, e);
  }

  lemma StillBehind(kept: Threads, o: Office, maxRounds: int, e: OfficeEvent)
    requires Behind(kept, o.threads)
    ensures Behind(kept, OfficeStep(o, maxRounds, e).threads)
  {
    var after := OfficeStep(o, maxRounds, e);
    forall id | id in kept ensures id in after.threads && kept[id] <= after.threads[id] {
      StepExtendsThreads(o, maxRounds, e, id);
    }
  }

  /** At most one thread is copied over. */
  ghost predicate CopiesOne(before: Threads, after: Threads, source: Threads, id: Id) {
    after == before || (id in source && after == before[id := source[id]])
  }

  /** What a commit does to the threads in memory and on disk. */
  ghost predicate CommitsThread(c: Copies, after: Copies, redis: bool, source: Threads, id: Id) {
    && CopiesOne(c.cache.threads, after.cache.threads, source, id)
    && if redis then CopiesOne(c.disk.threads, after.disk.threads, source, id)
       else after.disk.threads == c.disk.threads || after.disk.threads == after.cache.threads
  }

  lemma ThreadsOfACommit(c: Copies, redis: bool, source: Kept, id: Id, first: Reply, second: Reply)
    ensures CommitsThread(c, CommittedRequest(c, redis, source, id, first, second).0, redis, source.threads, id)
    ensures CommitsThread(c, CommittedThread(c, redis, source, id, first).0, redis, source.threads, id)
  {
  }

  lemma ACommitOrphansNothingOnRedis(c: Copies, source: Kept, id: Id, first: Reply, second: Reply)
    requires NoOrphans(c.disk) && NoOrphans(source)
    ensures NoOrphans(CommittedRequest(c, true, source, id, first, second).0.disk)
    ensures NoOrphans(CommittedThread(c, true, source, id, first).0.disk)
  {
  }

  lemma CopyingKeepsBehind(before: Threads, after: Threads, source: Threads, id: Id)
    requires CopiesOne(before, after, source, id) && Behind(before, source)
    requires forall x :: x in source ==> source[x] != []
    requires forall x :: x in before ==> before[x] != []
    ensures Behind(after, source) && Behind(before, after) && forall x :: x in after ==> after[x] != []
  {
  }

  /** A commit adds only what the scratch store holds, or nothing. */
  lemma CommittingKeepsSound(s: System, after: Copies, redis: bool, id: Id)
    requires Sound(s, redis) && CommitsThread(s.copies, after, redis, s.office.threads, id)
    requires redis ==> NoOrphans(after.disk)
    ensures Sound(s.(copies := after), redis)
    ensures Behind(s.copies.disk.threads, after.disk.threads)
  {
    CopyingKeepsBehind(s.copies.cache.threads, after.cache.threads, s.office.threads, id);
    if redis {
      CopyingKeepsBehind(s.copies.disk.threads, after.disk.threads, s.office.threads, id);
    }
  }

  lemma RestartingKeepsSound(s: System, redis: bool, maxRounds: int)
    requires Sound(s, redis)
    ensures Sound(SystemStep(s, redis, maxRounds, Restart), redis)
  {
    SeedingLosesOnlyOrphans(s.copies.disk);
    var disk, working := s.copies.disk.threads, s.office.threads;
    forall a | a in disk ensures Distinct(disk[a]) {
      assert Distinct(working[a]);
    }
    forall a, b, m | a in disk && b in disk && m in disk[a] && m in disk[b] ensures a == b {
      assert m in working[a] && m in working[b];
    }
  }

  lemma StepKeepsSound(s: System, redis: bool, maxRounds: int, e: SystemEvent)
    requires Sound(s, redis)
    ensures Sound(SystemStep(s, redis, maxRounds, e), redis)
    ensures Behind(s.copies.disk.threads, SystemStep(s, redis, maxRounds, e).copies.disk.threads)
  {
    var source := Working(s.office);
    match e
    case Worked(w) => WorkingKeepsSound(s, redis, maxRounds, w);
    case CommitBoth(id, first, second) =>
      ThreadsOfACommit(s.copies, redis, source, id, first, second);
      if redis { ACommitOrphansNothingOnRedis(s.copies, source, id, first, second); }
      CommittingKeepsSound(s, CommittedRequest(s.copies, redis, source, id, first, second).0, redis, id);
    case CommitSeen(id, reply) =>
      ThreadsOfACommit(s.copies, redis, source, id, reply, reply);
      if redis { ACommitOrphansNothingOnRedis(s.copies, source, id, reply, reply); }
      CommittingKeepsSound(s, CommittedThread(s.copies, redis, source, id, reply).0, redis, id);
    case Restart => RestartingKeepsSound(s, redis, maxRounds);
  }

  lemma {:induction false} RunIsSound(redis: bool, maxRounds: int, events: seq<SystemEvent>)
    ensures Sound(SystemRun(redis, maxRounds, events), redis)
  {
    if events == [] {
    } else {
      RunIsSound(redis, maxRounds, events[..|events| - 1]);
      StepKeepsSound(SystemRun(redis, maxRounds, events[..|events| - 1]), redis, maxRounds, events[|events| - 1]);
    }
  }

  // ----- memory and disk in agreement ---------------------------------------

  /** A step that cannot set memory and disk apart: a transaction that returned or failed unapplied, and plain
      saves that were applied. */
  predicate Quiet(redis: bool, e: SystemEvent) {
    match e
    case CommitBoth(_, first, second) =>
        (if redis then !first.ReplyLost? else !first.NotApplied?) && !second.NotApplied?
    case CommitSeen(_, reply) => !reply.NotApplied?
    case _ => true
  }

  /** Memory and disk agree throughout a run of such steps. */
  lemma {:induction false} CopiesAgree(redis: bool, maxRounds: int, events: seq<SystemEvent>)
    requires forall e :: e in events ==> Quiet(redis, e)
    ensures var c := SystemRun(redis, maxRounds, events).copies; c.cache == c.disk
  {
    if events == [] {
    } else {
      assert events[|events| - 1] in events;
      CopiesAgree(redis, maxRounds, events[..|events| - 1]);
      AQuietStepKeepsAgreement(SystemRun(redis, maxRounds, events[..|events| - 1]), redis, maxRounds,
          events[|events| - 1]);
    }
  }

  lemma AQuietStepKeepsAgreement(s: System, redis: bool, maxRounds: int, e: SystemEvent)
    requires Quiet(redis, e) && s.copies.cache == s.copies.disk
    ensures var c := SystemStep(s, redis, maxRounds, e).copies; c.cache == c.disk
  {
  }

  // ----- what a restart recovers --------------------------------------------

  /** A restart, at any point of any run, leaves memory and disk alike, with the disk as it was, and the scratch
      store holding all of it but the requests without a thread; on Redis there are none. */
  lemma ARestartRecoversTheDisk(redis: bool, maxRounds: int, events: seq<SystemEvent>)
    ensures var before, after := SystemRun(redis, maxRounds, events).copies.disk,
            SystemRun(redis, maxRounds, events + [Restart]);
            && after.copies.cache == after.copies.disk == before
            && Working(after.office).threads == before.threads
            && (Working(after.office) == before <==> NoOrphans(before))
            && (redis ==> NoOrphans(before))
  {
    RunOneMore(redis, maxRounds, events, Restart);
    RunIsSound(redis, maxRounds, events);
    SeedingLosesOnlyOrphans(SystemRun(redis, maxRounds, events).copies.disk);
  }

  /** Every call of the run completed. */
  predicate Completed(e: SystemEvent) {
    match e
    case CommitBoth(_, first, second) => first.Applied? && second.Applied?
    case CommitSeen(_, reply) => reply.Applied?
    case _ => true
  }

  /** With two files, a run whose commits all complete leaves nothing without a thread, so restarts recover all
      that was committed. */
  lemma {:induction false} CompletedCommitsOrphanNothing(maxRounds: int, events: seq<SystemEvent>)
    requires forall e :: e in events ==> Completed(e)
    ensures NoOrphans(SystemRun(false, maxRounds, events).copies.disk)
  {
    if events == [] {
    } else {
      var init, e := events[..|events| - 1], events[|events| - 1];
      assert e in events;
      CompletedCommitsOrphanNothing(maxRounds, init);
      RunIsSound(false, maxRounds, init);
      CopiesAgree(false, maxRounds, init);
      ACompletedStepOrphansNothing(SystemRun(false, maxRounds, init), maxRounds, e);
    }
  }

  lemma ACompletedStepOrphansNothing(s: System, maxRounds: int, e: SystemEvent)
    requires Completed(e) && Sound(s, false) && s.copies.cache == s.copies.disk && NoOrphans(s.copies.disk)
    ensures NoOrphans(SystemStep(s, false, maxRounds, e).copies.disk)
  {
  }

  /** A commit of the request `id` that reached Redis, whether or not its reply came back; with files, any. */
  predicate Reached(redis: bool, e: SystemEvent, id: Id) {
    e.CommitBoth? && e.id == id && (redis ==> !e.first.NotApplied?)
  }

  /** A commit that may write the thread of `id`. */
  predicate WritesThread(e: SystemEvent, id: Id) {
    (e.CommitBoth? || e.CommitSeen?) && e.id == id
  }

  /** What became of a request and its thread on disk: the thread is there and has at most grown; `sameThread`
      and `sameRequest` say that it, and the request, are as they were. */
  ghost predicate Stays(before: Kept, after: Kept, id: Id, sameThread: bool, sameRequest: bool) {
    && Extends(before.threads, after.threads, id)
    && (sameThread ==> after.threads[id] == before.threads[id])
    && (sameRequest ==> Lookup(after.requests, id) == Lookup(before.requests, id))
  }

  lemma OneStepOnRedis(s: System, maxRounds: int, e: SystemEvent, id: Id)
    ensures var before, after := s.copies.disk, SystemStep(s, true, maxRounds, e).copies.disk;
            && (!WritesThread(e, id) ==> ThreadOf(after.threads, id) == ThreadOf(before.threads, id))
            && (!Reached(true, e, id) ==> Lookup(after.requests, id) == Lookup(before.requests, id))
  {
  }

  lemma OneStepOnDisk(s: System, redis: bool, maxRounds: int, e: SystemEvent, id: Id)
    requires Sound(s, redis) && id in s.copies.disk.threads
    ensures Stays(s.copies.disk, SystemStep(s, redis, maxRounds, e).copies.disk, id,
                  redis && !WritesThread(e, id), redis && !Reached(redis, e, id))
  {
    StepKeepsSound(s, redis, maxRounds, e);
    if redis {
      OneStepOnRedis(s, maxRounds, e, id);
    }
  }

  ghost predicate NoneWritesThread(events: seq<SystemEvent>, id: Id) {
    forall e :: e in events ==> !WritesThread(e, id)
  }

  ghost predicate NoneReached(redis: bool, events: seq<SystemEvent>, id: Id) {
    forall e :: e in events ==> !Reached(redis, e, id)
  }

  /** A thread on disk only grows, and on Redis nothing but its own commits touches what is there of a request. */
  lemma {:induction false} WhatIsOnDiskStays(
    redis: bool, maxRounds: int, events: seq<SystemEvent>, later: seq<SystemEvent>, id: Id)
    requires id in SystemRun(redis, maxRounds, events).copies.disk.threads
    ensures Stays(SystemRun(redis, maxRounds, events).copies.disk,
            SystemRun(redis, maxRounds, events + later).copies.disk, id,
                  redis && NoneWritesThread(later, id), redis && NoneReached(redis, later, id))
    decreases |later|
  {
    if later == [] {
      assert events + later == events;
    } else {
      var init, e := later[..|later| - 1], later[|later| - 1];
      assert events + later == (events + init) + [e];
      assert forall x :: x in init ==> x in later;
      WhatIsOnDiskStays(redis, maxRounds, events, init, id);
      RunOneMore(redis, maxRounds, events + init, e);
      RunIsSound(redis, maxRounds, events + init);
      OneStepOnDisk(SystemRun(redis, maxRounds, events + init), redis, maxRounds, e, id);
    }
  }

  lemma ACommitReachesTheDisk(s: System, maxRounds: int, id: Id, first: Reply, second: Reply)
    requires Sound(s, true) && id in s.office.desk.requests && !first.NotApplied?
    ensures var disk := SystemStep(s, true, maxRounds, CommitBoth(id, first, second)).copies.disk;
            && id in s.office.threads && id in disk.requests && id in disk.threads
            && disk.requests[id] == s.office.desk.requests[id] && disk.threads[id] == s.office.threads[id]
  {
  }

  /** What Redis holds of a request is what the scratch store held when the last commit of it that reached
      Redis was made, and its thread with it, whatever restarts, failures and lost replies came since. */
  lemma TheLastCommitIsOnDisk(
    maxRounds: int, events: seq<SystemEvent>, later: seq<SystemEvent>, id: Id, first: Reply, second: Reply)
    requires id in SystemRun(true, maxRounds, events).office.desk.requests && !first.NotApplied?
    requires NoneReached(true, later, id)
    ensures var committed := SystemRun(true, maxRounds, events).office;
            var disk := SystemRun(true, maxRounds, events + [CommitBoth(id, first, second)] + later).copies.disk;
            && id in disk.requests && disk.requests[id] == committed.desk.requests[id]
            && id in disk.threads && id in committed.threads && committed.threads[id] <= disk.threads[id]
            && (NoneWritesThread(later, id) ==> disk.threads[id] == committed.threads[id])
  {
    var now := events + [CommitBoth(id, first, second)];
    RunOneMore(true, maxRounds, events, CommitBoth(id, first, second));
    RunIsSound(true, maxRounds, events);
    ACommitReachesTheDisk(SystemRun(true, maxRounds, events), maxRounds, id, first, second);
    WhatIsOnDiskStays(true, maxRounds, now, later, id);
  }

  /** A message that was recorded and whose thread was committed so, by a call that took effect, is on disk and
      stays, and no later process handles it again. */
  lemma AMessageCommittedAsSeenIsNeverHandledAgain(
    redis: bool, maxRounds: int, events: seq<SystemEvent>, later: seq<SystemEvent>, id: Id, reply: Reply,
    messageId: string)
    requires var o := SystemRun(redis, maxRounds, events).office; id in o.threads && messageId in o.threads[id]
    requires !reply.NotApplied?
    ensures var committed := SystemRun(redis, maxRounds, events).office;
            var s := SystemRun(redis, maxRounds, events + [CommitSeen(id, reply)] + later);
            && id in s.copies.disk.threads && committed.threads[id] <= s.copies.disk.threads[id]
            && AlreadyProcessed(s.office.threads, messageId)
            && OwnersOf([messageId], s.copies.disk.threads) == {id}
  {
    var now := events + [CommitSeen(id, reply)];
    var before := SystemRun(redis, maxRounds, events);
    RunOneMore(redis, maxRounds, events, CommitSeen(id, reply));
    WhatACommitOfTheThreadWrites(before.copies, redis, Working(before.office), id, reply);
    ACommittedMessageIsNeverHandledAgain(redis, maxRounds, now, later, id, messageId);
    WhatIsOnDiskStays(redis, maxRounds, now, later, id);
  }

  /** A request no commit of which has reached the store is not there: nothing is persisted early. */
  lemma {:induction false} NothingIsOnDiskUncommitted(redis: bool, maxRounds: int, events: seq<SystemEvent>, id: Id)
    requires NoneReached(redis, events, id)
    ensures var c := SystemRun(redis, maxRounds, events).copies; id !in c.disk.requests && id !in c.cache.requests
  {
    if events == [] {
    } else {
      assert events[|events| - 1] in events;
      NothingIsOnDiskUncommitted(redis, maxRounds, events[..|events| - 1], id);
      AnUncommittedStepPersistsNothing(SystemRun(redis, maxRounds, events[..|events| - 1]), redis, maxRounds,
          events[|events| - 1], id);
    }
  }

  lemma AnUncommittedStepPersistsNothing(s: System, redis: bool, maxRounds: int, e: SystemEvent, id: Id)
    requires !Reached(redis, e, id) && id !in s.copies.disk.requests && id !in s.copies.cache.requests
    ensures var c := SystemStep(s, redis, maxRounds, e).copies; id !in c.disk.requests && id !in c.cache.requests
  {
  }

  /** A message on record on disk belongs to one request there for good, and is never handled again: not
      after any number of restarts, lost replies and failed commits, on Redis or on files. */
  lemma ACommittedMessageIsNeverHandledAgain(
    redis: bool, maxRounds: int, events: seq<SystemEvent>, later: seq<SystemEvent>, id: Id, messageId: string)
    requires var disk := SystemRun(redis, maxRounds, events).copies.disk;
             id in disk.threads && messageId in disk.threads[id]
    ensures var s := SystemRun(redis, maxRounds, events + later);
            && id in s.copies.disk.threads && messageId in s.copies.disk.threads[id]
            && OwnersOf([messageId], s.copies.disk.threads) == {id} == OwnersOf([messageId], s.office.threads)
            && AlreadyProcessed(s.office.threads, messageId)
  {
    WhatIsOnDiskStays(redis, maxRounds, events, later, id);
    RunIsSound(redis, maxRounds, events + later);
    OneOwnerOnDisk(SystemRun(redis, maxRounds, events + later), redis, id, messageId);
  }

  lemma OneOwnerOnDisk(s: System, redis: bool, id: Id, messageId: string)
    requires Sound(s, redis) && id in s.copies.disk.threads && messageId in s.copies.disk.threads[id]
    ensures OwnersOf([messageId], s.copies.disk.threads) == {id} == OwnersOf([messageId], s.office.threads)
    ensures AlreadyProcessed(s.office.threads, messageId)
  {
    var disk, working := s.copies.disk.threads, s.office.threads;
    assert messageId in working[id];
    SingleOwner(working, id, messageId);
    assert OwnersOf([messageId], disk) == {id} by {
      assert messageId in [messageId];
      forall other | other in OwnersOf([messageId], disk) ensures other == id {
        assert messageId in working[other];
      }
    }
  }

  // ----- the stores as objects ----------------------------------------------

  /** Two Redis hashes, or two files: what outlives a process. */
  class Disk {
    var requests: map<Id, QuotationRequest>
    var threads: Threads

    constructor ()
      ensures requests == map[] && threads == map[]
    {
      requests, threads := map[], map[];
    }
  }

  class DurableStore {
    const disk: Disk
    /** Writes field by field and offers the transaction. */
    const redis: bool
    var requests: map<Id, QuotationRequest>
    var threads: Threads

    /** Everything is loaded once. */
    constructor (disk: Disk, redis: bool)
      ensures this.disk == disk && this.redis == redis
      ensures Now() == Reloaded(Copies(NOTHING, Kept(disk.requests, disk.threads)))
    {
      this.disk := disk;
      this.redis := redis;
      requests, threads := disk.requests, disk.threads;
    }

    ghost function Now(): Copies
      reads this, disk
    {
      Copies(Kept(requests, threads), Kept(disk.requests, disk.threads))
    }

    method SaveRequest(id: Id, q: QuotationRequest, reply: Reply) returns (r: Result<(), Lost>)
      modifies this`requests, disk`requests
      ensures Now() == SavedRequest(old(Now()), redis, id, q, reply) && r == Ended(reply)
    {
      requests := requests[id := q];
      if !reply.NotApplied? {
        disk.requests := if redis then disk.requests[id := q] else requests;
      }
      r := Ended(reply);
    }

    method SaveThread(id: Id, thread: seq<string>, reply: Reply) returns (r: Result<(), Lost>)
      modifies this`threads, disk`threads
      ensures Now() == SavedThread(old(Now()), redis, id, thread, reply) && r == Ended(reply)
    {
      threads := threads[id := thread];
      if !reply.NotApplied? {
        disk.threads := if redis then disk.threads[id := thread] else threads;
      }
      r := Ended(reply);
    }

    /** The transaction: both hash fields or neither, and memory only once it returned. */
    method CommitRequestAndThread(
      id: Id, q: QuotationRequest, thread: Option<seq<string>>, reply: Reply) returns (r: Result<(), Lost>)
      modifies this, disk
      ensures Now() == CommittedTogether(old(Now()), id, q, thread, reply) && r == Ended(reply)
    {
      if !reply.NotApplied? {
        disk.requests := disk.requests[id := q];
        if thread.Some? {
          disk.threads := disk.threads[id := thread.value];
        }
      }
      if !reply.Applied? {
        return Raised(WriteFailed);
      }
      requests := requests[id := q];
      if thread.Some? {
        threads := threads[id := thread.value];
      }
      r := Returned(());
    }
  }

  lemma OverlaidOnce<V>(base: map<Id, V>, top: map<Id, V>, keys: set<Id>, id: Id)
    ensures Overlaid(base, top, {}) == base
    ensures Overlaid(base, top, keys + {id}) == if id in top then Overlaid(base, top, keys)[id := top[id]]
            else Overlaid(base, top, keys)
  {
  }

  /** `seed_store`: one pass over the threads, copying each and the request of the same id. */
  method SeedStore(target: Store, source: DurableStore)
    modifies target
    ensures Kept(target.requests, target.threads)
            == Seed(old(Kept(target.requests, target.threads)), source.Now().cache)
  {
    var requests, threads := source.requests, source.threads;
    ghost var requests0, threads0, done := target.requests, target.threads, {};
    var todo := threads.Keys;
    OverlaidOnce(threads0, threads, {}, "");
    OverlaidOnce(requests0, requests, {}, "");
    while todo != {}
      invariant done + todo == threads.Keys
      invariant target.threads == Overlaid(threads0, threads, done)
      invariant target.requests == Overlaid(requests0, requests, done)
      decreases |todo|
    {
      var id :| id in todo;
      assert id in threads;
      OverlaidOnce(threads0, threads, done, id);
      OverlaidOnce(requests0, requests, done, id);
      done, todo := done + {id}, todo - {id};
      target.SaveThread(id, threads[id]);
      if id in requests {
        target.SaveRequest(id, requests[id]);
      }
    }
  }

  method CommitThread(source: Store, target: DurableStore, id: Id, reply: Reply) returns (r: Result<(), Lost>)
    modifies target`threads, target.disk`threads
    ensures (target.Now(), r)
            == CommittedThread(old(target.Now()), target.redis, old(Kept(source.requests, source.threads)), id, reply)
  {
    if id !in source.threads {
      return Returned(());
    }
    r := target.SaveThread(id, source.threads[id], reply);
  }

  method CommitRequest(
    source: Store, target: DurableStore, id: Id, first: Reply, second: Reply) returns (r: Result<(), Lost>)
    modifies target, target.disk
    ensures (target.Now(), r)
            == CommittedRequest(old(target.Now()), target.redis, old(Kept(source.requests, source.threads)), id, first,
                second)
  {
    var request := source.GetRequest(id);
    var thread := ThreadOf(source.threads, id);
    if request.Some? && target.redis {
      r := target.CommitRequestAndThread(id, request.value, thread, first);
      return;
    }
    r := Returned(());
    if request.Some? {
      r := target.SaveRequest(id, request.value, first);
      if r.Raised? {
        return;
      }
    }
    if thread.Some? {
      r := target.SaveThread(id, thread.value, second);
    }
  }
}
