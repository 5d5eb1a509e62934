/** The one-worker lease. Every worker runs the same code against one Redis key; each command is atomic, and
    the commands of any number of workers, each with any number of threads, interleave with the passing of
    time. A command can be lost on the way out or its answer on the way back. */
module Lease {
  import opened Prelude

  /** A worker and the token it writes into the key. */
  type Worker = nat

  // ----- one thread: what it sends, and what it does with the answer --------

  datatype Command = Read | Extend | Claim | Delete

  /** What a command is answered: the holder read, whether a SET NX took the key, an acknowledgement that is
      not looked at, or a dropped connection. */
  datatype Answer = Holder(holder: Option<Worker>) | Taken(taken: bool) | Acknowledged | Dropped

  predicate Fits(c: Command, a: Answer) {
    match a
    case Dropped => true
    case Holder(_) => c.Read?
    case Taken(_) => c.Claim?
    case Acknowledged => c.Extend? || c.Delete?
  }

  datatype Operation = Acquire | Refresh | Release

  /** Where a thread is: about to send a command for the `tries`-th time, or at the end of an operation that
      returned, refused to go on (`PermanentFailure`), or failed on a dropped connection. */
  datatype Place =
    | Acquiring
    | Reading(tries: nat)
    | Extending(tries: nat)
    | Reclaiming(tries: nat)
    | Rereading(tries: nat)
    | ReadingForRelease
    | Deleting
    | Kept
    | Refused
    | Failed
    | Freed

  const RETRY_ATTEMPTS: nat := 3

  predicate Ended(p: Place) {
    p.Kept? || p.Refused? || p.Failed? || p.Freed?
  }

  function Begin(op: Operation): Place {
    match op
    case Acquire => Acquiring
    case Refresh => Reading(0)
    case Release => ReadingForRelease
  }

  function Issue(p: Place): Command
    requires !Ended(p)
  {
    match p
    case Acquiring => Claim
    case Reading(_) => Read
    case Extending(_) => Extend
    case Reclaiming(_) => Claim
    case Rereading(_) => Read
    case ReadingForRelease => Read
    case Deleting => Delete
  }

  /** `acquire`, `refresh` and `release`, one command at a time. `refresh` ignores what EXPIRE answers, and
      after losing the SET NX it reads the holder only to name it. Only `refresh` retries. */
  function Next(me: Worker, p: Place, a: Answer): Place
    requires !Ended(p) && Fits(Issue(p), a)
  {
    match p
    case Acquiring => if a.Dropped? then Failed else if a.taken then Kept else Refused
    case Reading(n) =>
      if a.Dropped? then (if n + 1 < RETRY_ATTEMPTS then Reading(n + 1) else Failed)
      else if a.holder == Some(me) then Extending(0)
      else if a.holder.None? then Reclaiming(0)
      else Refused
    case Extending(n) =>
      if a.Dropped? then (if n + 1 < RETRY_ATTEMPTS then Extending(n + 1) else Failed) else Kept
    case Reclaiming(n) =>
      if a.Dropped? then (if n + 1 < RETRY_ATTEMPTS then Reclaiming(n + 1) else Failed)
      else if a.taken then Kept
      else Rereading(0)
    case Rereading(n) =>
      if a.Dropped? then (if n + 1 < RETRY_ATTEMPTS then Rereading(n + 1) else Failed) else Refused
    case ReadingForRelease => if a.Dropped? then Failed else if a.holder == Some(me) then Deleting else Freed
    case Deleting => if a.Dropped? then Failed else Freed
  }

  datatype Exchange = Exchange(command: Command, answer: Answer)

  /** Where a thread that started at `p` is after these exchanges, if it sent exactly what it should have. */
  ghost function Reaches(me: Worker, p: Place, x: seq<Exchange>): Option<Place> {
    if x == [] then Some(p)
    else
      var last, q := x[|x| - 1], Reaches(me, p, x[..|x| - 1]);
      if q.Some? && !Ended(q.value) && last.command == Issue(q.value) && Fits(last.command, last.answer)
      then Some(Next(me, q.value, last.answer)) else None
  }

  lemma OneMoreExchange(me: Worker, p: Place, x: seq<Exchange>, q: Place, a: Answer)
    requires Reaches(me, p, x) == Some(q) && !Ended(q) && Fits(Issue(q), a)
    ensures Reaches(me, p, x + [Exchange(Issue(q), a)]) == Some(Next(me, q, a))
  {
    assert (x + [Exchange(Issue(q), a)])[..|x|] == x;
  }

  lemma OneExchange(me: Worker, p: Place, a: Answer)
    requires !Ended(p) && Fits(Issue(p), a)
    ensures Reaches(me, p, [Exchange(Issue(p), a)]) == Some(Next(me, p, a))
  {
    OneMoreExchange(me, p, [], p, a);
    assert [] + [Exchange(Issue(p), a)] == [Exchange(Issue(p), a)];
  }

  // ----- any number of threads, one key, and time ---------------------------

  type Thread = nat

  datatype Key = Key(holder: Worker, expiry: int)

  /** `until` is when the last lease a worker was granted runs out: one TTL after Redis carried out the
      command whose answer it got. */
  datatype State = State(
    now: int,
    key: Option<Key>,
    owner: map<Thread, Worker>,
    places: map<Thread, Place>,
    until: map<Worker, int>)

  datatype Fate = Delivered | LostOnTheWay | AnswerLost

  datatype Step = Wait(time: nat) | Start(thread: Thread, op: Operation) | Act(thread: Thread, fate: Fate)

  /** What Redis does with one command. */
  function Carried(s: State, ttl: nat, me: Worker, c: Command): (Option<Key>, Answer) {
    match c
    case Read => (s.key, Holder(if s.key.Some? then Some(s.key.value.holder) else None))
    case Extend => (if s.key.Some? then Some(Key(s.key.value.holder, s.now + ttl)) else None, Acknowledged)
    case Claim => if s.key.None? then (Some(Key(me, s.now + ttl)), Taken(true)) else (s.key, Taken(false))
    case Delete => (None, Acknowledged)
  }

  /** The leases a worker believes in once a command of its own has been sent: one that returns normally
      grants a lease from now; deleting the key gives up whatever it had. */
  function Believed(s: State, ttl: nat, me: Worker, c: Command, after: Place): map<Worker, int> {
    if c.Delete? then s.until - {me}
    else if after.Kept? then s.until[me := s.now + ttl]
    else s.until
  }

  predicate Busy(s: State, t: Thread) {
    t in s.owner && t in s.places && !Ended(s.places[t])
  }

  function Take(s: State, ttl: nat, step: Step): State {
    match step
    case Wait(time) =>
      var later := s.now + time;
      s.(now := later, key := if s.key.Some? && s.key.value.expiry <= later then None else s.key)
    case Start(t, op) => if t in s.owner && !Busy(s, t) then s.(places := s.places[t := Begin(op)]) else s
    case Act(t, fate) =>
      if !Busy(s, t) then s
      else
        var me, c := s.owner[t], Issue(s.places[t]);
        var done := Carried(s, ttl, me, c);
        var after := Next(me, s.places[t], if fate.Delivered? then done.1 else Dropped);
        s.(key := if fate.LostOnTheWay? then s.key else done.0,
           places := s.places[t := after],
           until := Believed(s, ttl, me, c, after))
  }

  /** Inside a lease it was granted. */
  predicate Inside(s: State, w: Worker) {
    w in s.until && s.now < s.until[w]
  }

  /** A thread that has read its own token and has yet to act on it. */
  predicate Committed(s: State, t: Thread) {
    t in s.owner && t in s.places && (s.places[t].Extending? || s.places[t].Deleting?)
  }

  ghost predicate NoOtherCommitted(s: State, w: Worker, t: Thread) {
    forall u :: Committed(s, u) && s.owner[u] == w ==> u == t
  }

  ghost predicate NoneCommitted(s: State, w: Worker) {
    forall u :: Committed(s, u) ==> s.owner[u] != w
  }

  /** The assumption: the key does not go, by lapsing or by being deleted, while another thread of its
      holder stands between reading its own token and the EXPIRE or DEL that follows. */
  ghost predicate Undisturbed(s: State, step: Step) {
    match step
    case Wait(time) => s.key.Some? && s.key.value.expiry <= s.now + time ==> NoneCommitted(s, s.key.value.holder)
    case Start(_, _) => true
    case Act(t, fate) =>
      Busy(s, t) && s.places[t].Deleting? && s.key.Some? ==> NoOtherCommitted(s, s.key.value.holder, t)
  }

  // ----- the lease is exclusive ---------------------------------------------

  /** Whoever is inside a granted lease holds the key for at least that long. */
  ghost predicate GrantsHold(s: State) {
    forall w :: Inside(s, w) ==> s.key.Some? && s.key.value.holder == w && s.until[w] <= s.key.value.expiry
  }

  ghost predicate InTime(s: State, ttl: nat) {
    s.key.Some? ==> s.now < s.key.value.expiry <= s.now + ttl
  }

  ghost predicate Invariant(s: State, ttl: nat) {
    && GrantsHold(s) && InTime(s, ttl)
    && forall t :: Committed(s, t) ==> s.key.Some? && s.key.value.holder == s.owner[t]
  }

  lemma StepsKeepTheInvariant(s: State, ttl: nat, step: Step)
    requires ttl > 0 && Invariant(s, ttl) && Undisturbed(s, step)
    ensures Invariant(Take(s, ttl, step), ttl)
  {
  }

  ghost function After(s: State, ttl: nat, steps: seq<Step>): State {
    if steps == [] then s else Take(After(s, ttl, steps[..|steps| - 1]), ttl, steps[|steps| - 1])
  }

  ghost predicate AllUndisturbed(s: State, ttl: nat, steps: seq<Step>) {
    forall i :: 0 <= i < |steps| ==> Undisturbed(After(s, ttl, steps[..i]), steps[i])
  }

  /** Nobody has done anything yet. */
  ghost predicate Initial(s: State) {
    s.key.None? && s.until == map[] && s.places == map[]
  }

  lemma {:induction false} RunsKeepTheInvariant(s: State, ttl: nat, steps: seq<Step>)
    requires ttl > 0 && Initial(s) && AllUndisturbed(s, ttl, steps)
    ensures Invariant(After(s, ttl, steps), ttl)
  {
    if steps == [] {
    } else {
      var init := steps[..|steps| - 1];
      assert forall i :: 0 <= i < |init| ==> init[..i] == steps[..i];
      RunsKeepTheInvariant(s, ttl, init);
      StepsKeepTheInvariant(After(s, ttl, init), ttl, steps[|steps| - 1]);
    }
  }

  /** However the commands of any number of workers interleave, whatever is lost on the wire and however
      time passes, at most one worker is ever inside an unexpired lease it was granted. */
  lemma AtMostOneWorker(s: State, ttl: nat, steps: seq<Step>, w: Worker, other: Worker)
    requires ttl > 0 && Initial(s) && AllUndisturbed(s, ttl, steps)
    requires Inside(After(s, ttl, steps), w) && Inside(After(s, ttl, steps), other)
    ensures w == other
    ensures var key := After(s, ttl, steps).key; key.Some? && key.value.holder == w
  {
    RunsKeepTheInvariant(s, ttl, steps);
  }

  // ----- exactly when the two read-then-act pairs are safe ------------------

  /** An EXPIRE that returns grants a lease that is really held if and only if the key is still the worker's
      own at that instant: neither gone nor another's. */
  lemma ExtendingIsSafeIffStillHeld(s: State, ttl: nat, t: Thread)
    requires ttl > 0 && GrantsHold(s) && InTime(s, ttl) && Committed(s, t) && s.places[t].Extending?
    ensures GrantsHold(Take(s, ttl, Act(t, Delivered))) <==> s.key.Some? && s.key.value.holder == s.owner[t]
  {
    var me, after := s.owner[t], Take(s, ttl, Act(t, Delivered));
    assert Inside(after, me);
  }

  /** A DEL leaves every other lease intact if and only if the key is not at that instant another worker's
      under a lease it is still inside. */
  lemma DeletingIsSafeIffNotAnothers(s: State, ttl: nat, t: Thread, fate: Fate)
    requires GrantsHold(s) && Committed(s, t) && s.places[t].Deleting? && !fate.LostOnTheWay?
    ensures GrantsHold(Take(s, ttl, Act(t, fate)))
            <==> s.key.None? || s.key.value.holder == s.owner[t] || !Inside(s, s.key.value.holder)
  {
    var me, after := s.owner[t], Take(s, ttl, Act(t, fate));
    if s.key.Some? && s.key.value.holder != me && Inside(s, s.key.value.holder) {
      assert Inside(after, s.key.value.holder);
    }
  }

  /** Three workers of one thread each, and nothing in Redis. */
  const THREE_WORKERS: State := State(0, None, map[1 := 1, 2 := 2, 3 := 3], map[], map[])

  lemma OneMoreStep(ttl: nat, steps: seq<Step>, s: State, step: Step) returns (steps': seq<Step>, s': State)
    requires s == After(THREE_WORKERS, ttl, steps)
    ensures steps' == steps + [step] && s' == Take(s, ttl, step) && s' == After(THREE_WORKERS, ttl, steps')
  {
    steps', s' := steps + [step], Take(s, ttl, step);
    assert steps'[..|steps|] == steps;
  }

  /** Worker 1 takes the lease and reads its own token back. */
  lemma TokenReadBack(ttl: nat, op: Operation) returns (steps: seq<Step>, s: State)
    requires ttl > 0 && !op.Acquire?
    ensures steps == [Start(1, Acquire), Act(1, Delivered), Start(1, op), Act(1, Delivered)]
    ensures s == After(THREE_WORKERS, ttl, steps)
    ensures s == State(0, Some(Key(1, ttl)), THREE_WORKERS.owner,
            map[1 := if op.Refresh? then Extending(0) else Deleting], map[1 := ttl])
  {
    assert After(THREE_WORKERS, ttl, []) == THREE_WORKERS;
    AFreeKeyIsTaken(THREE_WORKERS, ttl, 1);
    steps, s := OneMoreStep(ttl, [], THREE_WORKERS, Start(1, Acquire));
    steps, s := OneMoreStep(ttl, steps, s, Act(1, Delivered));
    steps, s := OneMoreStep(ttl, steps, s, Start(1, op));
    steps, s := OneMoreStep(ttl, steps, s, Act(1, Delivered));
  }

  /** Its lease lapses, and worker 2 takes the key. */
  lemma TakenOverAfterTheRead(ttl: nat, op: Operation) returns (steps: seq<Step>, s: State)
    requires ttl > 0 && !op.Acquire?
    ensures steps == [Start(1, Acquire), Act(1, Delivered), Start(1, op), Act(1, Delivered), Wait(ttl),
            Start(2, Acquire), Act(2, Delivered)]
    ensures s == After(THREE_WORKERS, ttl, steps)
    ensures s == State(ttl, Some(Key(2, ttl + ttl)), THREE_WORKERS.owner,
                       map[1 := if op.Refresh? then Extending(0) else Deleting, 2 := Kept],
                           map[1 := ttl, 2 := ttl + ttl])
  {
    steps, s := TokenReadBack(ttl, op);
    steps, s := OneMoreStep(ttl, steps, s, Wait(ttl));
    AFreeKeyIsTaken(s, ttl, 2);
    steps, s := OneMoreStep(ttl, steps, s, Start(2, Acquire));
    steps, s := OneMoreStep(ttl, steps, s, Act(2, Delivered));
  }

  /** Without the assumption: a lease that lapses between a refresh's GET and its EXPIRE leaves two workers
      inside leases they were granted. */
  lemma ALapseDuringRefreshGivesTwoWorkers(ttl: nat) returns (steps: seq<Step>, s: State)
    requires ttl > 0
    ensures s == After(THREE_WORKERS, ttl, steps) && Initial(THREE_WORKERS) && Inside(s, 1) && Inside(s, 2)
  {
    steps, s := TakenOverAfterTheRead(ttl, Refresh);
    steps, s := OneMoreStep(ttl, steps, s, Act(1, Delivered));
  }

  lemma TheSuccessorsKeyIsDeleted(ttl: nat) returns (steps: seq<Step>, s: State)
    requires ttl > 0
    ensures s == After(THREE_WORKERS, ttl, steps)
    ensures s == State(ttl, None, THREE_WORKERS.owner, map[1 := Freed, 2 := Kept], map[2 := ttl + ttl])
  {
    steps, s := TakenOverAfterTheRead(ttl, Release);
    steps, s := OneMoreStep(ttl, steps, s, Act(1, Delivered));
  }

  /** The same between a release's GET and its DEL, which removes the successor's key. */
  lemma ALapseDuringReleaseGivesTwoWorkers(ttl: nat) returns (steps: seq<Step>, s: State)
    requires ttl > 0
    ensures s == After(THREE_WORKERS, ttl, steps) && Initial(THREE_WORKERS) && Inside(s, 2) && Inside(s, 3)
  {
    steps, s := TheSuccessorsKeyIsDeleted(ttl);
    AFreeKeyIsTaken(s, ttl, 3);
    steps, s := OneMoreStep(ttl, steps, s, Start(3, Acquire));
    steps, s := OneMoreStep(ttl, steps, s, Act(3, Delivered));
  }

  // ----- what a refresh can conclude ----------------------------------------

  /** What the last answered read of the holder said, when the thread acts on it. */
  ghost predicate Founded(me: Worker, x: seq<Exchange>, p: Place) {
    match p
    case Reading(_) => forall e :: e in x ==> e == Exchange(Read, Dropped)
    case Extending(_) => Exchange(Read, Holder(Some(me))) in x
    case Reclaiming(_) => Exchange(Read, Holder(None)) in x
    case Rereading(_) => Exchange(Read, Holder(None)) in x && Exchange(Claim, Taken(false)) in x
    case Kept => (Exchange(Read, Holder(Some(me))) in x && Exchange(Extend, Acknowledged) in x)
                 || (Exchange(Read, Holder(None)) in x && Exchange(Claim, Taken(true)) in x)
    case Refused => Exchange(Claim, Taken(false)) in x || exists w :: w != me && Exchange(Read, Holder(Some(w))) in x
    case Failed => Exchange(Read, Dropped) in x || Exchange(Extend, Dropped) in x || Exchange(Claim, Dropped) in x
    case _ => false
  }

  /** A refresh returns normally only after reading its own token and extending, or reading no holder and
      winning the SET NX; it refuses only after reading another's token or losing the SET NX. */
  lemma {:induction false} ARefreshIsFounded(me: Worker, x: seq<Exchange>)
    requires Reaches(me, Reading(0), x).Some?
    ensures Founded(me, x, Reaches(me, Reading(0), x).value)
  {
    if x == [] {
    } else {
      var init, e := x[..|x| - 1], x[|x| - 1];
      ARefreshIsFounded(me, init);
      assert x == init + [e];
      var q := Reaches(me, Reading(0), init).value;
      assert forall y :: y in x <==> y in init || y == e;
      if q.Reading? && e.answer.Holder? && e.answer.holder.Some? {
        assert Exchange(Read, Holder(Some(e.answer.holder.value))) in x;
      }
    }
  }

  /** The last `n` exchanges are the same command, dropped each time. */
  ghost predicate EndsInDrops(x: seq<Exchange>, c: Command, n: nat) {
    n <= |x| && forall i :: |x| - n <= i < |x| ==> x[i] == Exchange(c, Dropped)
  }

  /** How often the command a thread is about to send has just been dropped, and what ended it. */
  ghost predicate Tried(x: seq<Exchange>, p: Place) {
    match p
    case Reading(n) => n < 3 && EndsInDrops(x, Read, n)
    case Extending(n) => n < 3 && EndsInDrops(x, Extend, n)
    case Reclaiming(n) => n < 3 && EndsInDrops(x, Claim, n)
    case Rereading(n) => n < 3 && EndsInDrops(x, Read, n)
    case Kept => x != [] && x[|x| - 1] in {Exchange(Extend, Acknowledged), Exchange(Claim, Taken(true))}
    case Refused => x != [] && x[|x| - 1].command.Read? && x[|x| - 1].answer.Holder?
    case Failed => exists c :: EndsInDrops(x, c, 3)
    case _ => false
  }

  /** And where it ends is told by its last exchanges: it fails only after three drops of one command in a row. */
  lemma {:induction false} ARefreshFailsAfterThreeDrops(me: Worker, x: seq<Exchange>)
    requires Reaches(me, Reading(0), x).Some?
    ensures Tried(x, Reaches(me, Reading(0), x).value)
  {
    if x == [] {
    } else {
      var init, e := x[..|x| - 1], x[|x| - 1];
      ARefreshFailsAfterThreeDrops(me, init);
      OneMoreTry(me, init, Reaches(me, Reading(0), init).value, e);
      assert x == init + [e];
    }
  }

  lemma OneMoreTry(me: Worker, x: seq<Exchange>, p: Place, e: Exchange)
    requires Tried(x, p) && !Ended(p) && e.command == Issue(p) && Fits(e.command, e.answer)
    ensures Tried(x + [e], Next(me, p, e.answer))
  {
    if e.answer.Dropped? {
      assert EndsInDrops(x + [e], e.command, p.tries + 1);
    }
  }

  /** An acquire is one SET NX: it returns if that took the key, refuses if it did not, and fails on a drop. */
  lemma {:induction false} WhatAnAcquireComesTo(me: Worker, x: seq<Exchange>)
    requires Reaches(me, Acquiring, x).Some?
    ensures var p := Reaches(me, Acquiring, x).value;
            if x == [] then p.Acquiring?
            else
              && |x| == 1 && x[0].command.Claim? && Ended(p) && !p.Freed?
              && (p.Kept? <==> x[0].answer == Taken(true)) && (p.Refused? <==> x[0].answer == Taken(false))
              && (p.Failed? <==> x[0].answer.Dropped?)
  {
    if x != [] {
      WhatAnAcquireComesTo(me, x[..|x| - 1]);
    }
  }

  /** A release reads the holder, deletes the key exactly when it reads its own token, and fails on the first drop. */
  lemma {:induction false} WhatAReleaseComesTo(me: Worker, x: seq<Exchange>)
    requires Reaches(me, ReadingForRelease, x).Some?
    ensures var p := Reaches(me, ReadingForRelease, x).value;
            if x == [] then p.ReadingForRelease?
            else
              && x[0].command.Read? && |x| <= 2 && (|x| == 2 ==> x[1].command.Delete?)
              && (!Ended(p) || |x| == 2 <==> x[0].answer == Holder(Some(me)))
              && (Ended(p) ==> p == if x[|x| - 1].answer.Dropped? then Failed else Freed)
              && (!Ended(p) ==> p.Deleting? && |x| == 1)
  {
    if x != [] {
      WhatAReleaseComesTo(me, x[..|x| - 1]);
    }
  }

  // ----- when losing the SET NX means another worker --------------------------

  /** The step takes the key: a SET NX that Redis carries out while there is none. */
  predicate Claims(s: State, step: Step) {
    && step.Act? && Busy(s, step.thread) && Issue(s.places[step.thread]).Claim?
    && !step.fate.LostOnTheWay? && s.key.None?
  }

  /** The last step of the run that took the key. */
  ghost function LastClaim(s: State, ttl: nat, steps: seq<Step>): (i: Option<nat>)
    ensures i.Some? ==> i.value < |steps| && steps[i.value].Act?
  {
    if steps == [] then None
    else if Claims(After(s, ttl, steps[..|steps| - 1]), steps[|steps| - 1]) then Some(|steps| - 1)
    else LastClaim(s, ttl, steps[..|steps| - 1])
  }

  /** A key on Redis was taken by the last claim, for the worker of the thread that made it; and a thread that
      is trying to take the key made that claim itself only if it never heard back. */
  ghost predicate ClaimedAt(s: State, now: State, steps: seq<Step>, i: Option<nat>) {
    && now.owner == s.owner
    && (now.key.Some? ==>
          && i.Some? && i.value < |steps| && steps[i.value].Act? && steps[i.value].thread in s.owner
          && now.key.value.holder == s.owner[steps[i.value].thread]
          && forall t :: t in now.places && now.places[t].Reclaiming? && steps[i.value].thread == t ==>
               steps[i.value].fate == AnswerLost)
  }

  lemma OneMoreStepIsClaimed(s: State, ttl: nat, now: State, steps: seq<Step>, i: Option<nat>, step: Step)
    requires ClaimedAt(s, now, steps, i)
    ensures ClaimedAt(s, Take(now, ttl, step), steps + [step], if Claims(now, step) then Some(|steps|) else i)
  {
  }

  lemma {:induction false} TheKeyIsClaimed(s: State, ttl: nat, steps: seq<Step>)
    requires Initial(s)
    ensures ClaimedAt(s, After(s, ttl, steps), steps, LastClaim(s, ttl, steps))
  {
    if steps == [] {
    } else {
      var init, last := steps[..|steps| - 1], steps[|steps| - 1];
      TheKeyIsClaimed(s, ttl, init);
      OneMoreStepIsClaimed(s, ttl, After(s, ttl, init), init, LastClaim(s, ttl, init), last);
      assert steps == init + [last];
    }
  }

  /** A claim by `t`'s own worker: by another of its threads, or by `t` with the answer lost. */
  predicate ByItsOwnWorker(owner: map<Thread, Worker>, claim: Step, t: Thread) {
    && claim.Act? && claim.thread in owner && t in owner && owner[claim.thread] == owner[t]
    && (claim.thread == t ==> claim.fate == AnswerLost)
  }

  /** In every run: a refresh that loses its SET NX, and so refuses, is right that another worker holds the key
      if and only if the SET NX that put the key there was not its own worker's, made by another thread or by
      itself with the answer lost. */
  lemma LosingMeansAnotherUnlessItWasItself(s: State, ttl: nat, steps: seq<Step>, t: Thread)
    requires Initial(s)
    requires var now := After(s, ttl, steps); Busy(now, t) && now.places[t].Reclaiming? && now.key.Some?
    ensures var now := After(s, ttl, steps);
            && Take(now, ttl, Act(t, Delivered)).places[t] == Rereading(0)
            && LastClaim(s, ttl, steps).Some?
            && (now.key.value.holder != now.owner[t]
               <==> !ByItsOwnWorker(now.owner, steps[LastClaim(s, ttl, steps).value], t))
  {
    TheKeyIsClaimed(s, ttl, steps);
  }

  lemma TakenButUnanswered(ttl: nat) returns (steps: seq<Step>, s: State)
    requires ttl > 0
    ensures steps == [Start(1, Refresh), Act(1, Delivered), Act(1, AnswerLost)]
    ensures s == After(THREE_WORKERS, ttl, steps)
    ensures s == State(0, Some(Key(1, ttl)), THREE_WORKERS.owner, map[1 := Reclaiming(1)], map[])
  {
    assert After(THREE_WORKERS, ttl, []) == THREE_WORKERS;
    steps, s := OneMoreStep(ttl, [], THREE_WORKERS, Start(1, Refresh));
    steps, s := OneMoreStep(ttl, steps, s, Act(1, Delivered));
    steps, s := OneMoreStep(ttl, steps, s, Act(1, AnswerLost));
  }

  /** The input on which it is wrong: the lease is gone, the SET NX takes it back, and its answer is lost; the
      retry loses to the worker's own token, and the worker refuses while the key is its own. */
  lemma AWorkerCanRefuseItsOwnLease(ttl: nat) returns (steps: seq<Step>, s: State)
    requires ttl > 0
    ensures steps == [Start(1, Refresh), Act(1, Delivered), Act(1, AnswerLost), Act(1, Delivered), Act(1, Delivered)]
    ensures s == After(THREE_WORKERS, ttl, steps) && Initial(THREE_WORKERS)
    ensures s == State(0, Some(Key(1, ttl)), map[1 := 1, 2 := 2, 3 := 3], map[1 := Refused], map[])
  {
    steps, s := TakenButUnanswered(ttl);
    steps, s := OneMoreStep(ttl, steps, s, Act(1, Delivered));
    steps, s := OneMoreStep(ttl, steps, s, Act(1, Delivered));
  }

  // ----- a worker that finds another's token ----------------------------------

  /** Between two beats, or trying to read the holder, and not refused so far. */
  predicate Unrefused(s: State, t: Thread) {
    t in s.owner && t in s.places && !s.places[t].Refused? && (Ended(s.places[t]) || s.places[t].Reading?)
  }

  /** The heartbeat of `t`: it starts nothing but a refresh, and nothing once it was refused. */
  predicate Beats(s: State, t: Thread, step: Step) {
    step.Start? && step.thread == t ==> step.op.Refresh? && t in s.places && !s.places[t].Refused?
  }

  /** `t` finds the key another's when it acts. */
  predicate FindsAnother(s: State, t: Thread, step: Step) {
    step.Act? && step.thread == t ==> t in s.owner && s.key.Some? && s.key.value.holder != s.owner[t]
  }

  /** In this run `t` only beats, and finds the key another's whenever it acts. */
  ghost predicate Foreign(s: State, ttl: nat, steps: seq<Step>, t: Thread) {
    forall i :: 0 <= i < |steps| ==>
      Beats(After(s, ttl, steps[..i]), t, steps[i]) && FindsAnother(After(s, ttl, steps[..i]), t, steps[i])
  }

  /** One of its reads was answered. */
  ghost predicate Answered(s: State, ttl: nat, steps: seq<Step>, t: Thread) {
    exists i :: 0 <= i < |steps| && steps[i] == Act(t, Delivered) && Busy(After(s, ttl, steps[..i]), t)
  }

  lemma ForeignBefore(s: State, ttl: nat, init: seq<Step>, last: Step, t: Thread)
    requires Foreign(s, ttl, init + [last], t)
    ensures Foreign(s, ttl, init, t)
    ensures Beats(After(s, ttl, init), t, last) && FindsAnother(After(s, ttl, init), t, last)
    ensures Answered(s, ttl, init + [last], t) <==>
              Answered(s, ttl, init, t) || (last == Act(t, Delivered) && Busy(After(s, ttl, init), t))
  {
    var all := init + [last];
    assert forall i :: 0 <= i < |init| ==> all[i] == init[i] && all[..i] == init[..i];
    assert all[..|init|] == init && all[|init|] == last;
  }

  /** A worker whose key another token holds is refused by the first refresh that reads the key, whatever the other
      threads do and however many beats fail before that; until then it goes on unrefused. It never extends or
      deletes, and returns from no refresh. */
  lemma {:induction false} AForeignHolderIsRefused(s: State, ttl: nat, steps: seq<Step>, t: Thread)
    requires Unrefused(s, t) && Foreign(s, ttl, steps, t)
    ensures var now := After(s, ttl, steps);
            && now.owner == s.owner && t in now.places
            && (now.places[t].Refused? <==> Answered(s, ttl, steps, t))
            && (!now.places[t].Refused?
               ==> now.places[t] == s.places[t] || now.places[t].Reading? || now.places[t].Failed?)
  {
    if steps == [] {
    } else {
      var init, last := steps[..|steps| - 1], steps[|steps| - 1];
      assert steps == init + [last];
      ForeignBefore(s, ttl, init, last, t);
      AForeignHolderIsRefused(s, ttl, init, t);
      OneForeignStep(After(s, ttl, init), ttl, last, t, s.places[t]);
    }
  }

  lemma OneForeignStep(s: State, ttl: nat, step: Step, t: Thread, start: Place)
    requires t in s.owner && t in s.places && Beats(s, t, step) && FindsAnother(s, t, step)
    requires s.places[t] == start || s.places[t].Reading? || s.places[t].Failed? || s.places[t].Refused?
    requires Ended(start) || start.Reading?
    ensures var now := Take(s, ttl, step);
            && now.owner == s.owner && t in now.places
            && (now.places[t].Refused? <==> s.places[t].Refused? || (step == Act(t, Delivered) && Busy(s, t)))
            && (!now.places[t].Refused? ==> now.places[t] == start || now.places[t].Reading? || now.places[t].Failed?)
  {
  }

  // ----- two workers that both go on ------------------------------------------

  lemma {:induction false} AfterBoth(s: State, ttl: nat, before: seq<Step>, more: seq<Step>)
    ensures After(After(s, ttl, before), ttl, more) == After(s, ttl, before + more)
    decreases |more|
  {
    if more == [] {
      assert before + more == before;
    } else {
      var init, last := more[..|more| - 1], more[|more| - 1];
      AfterBoth(s, ttl, before, init);
      assert (before + more)[..|before + more| - 1] == before + init;
    }
  }

  /** Another worker stays inside a lease it was granted. */
  ghost predicate StaysInside(s: State, ttl: nat, more: seq<Step>, other: Worker) {
    forall i :: 0 <= i < |more| ==> Inside(After(s, ttl, more[..i]), other)
  }

  ghost predicate OnlyBeats(s: State, ttl: nat, more: seq<Step>, t: Thread) {
    forall i :: 0 <= i < |more| ==> Beats(After(s, ttl, more[..i]), t, more[i])
  }

  lemma {:induction false} OwnersStay(s: State, ttl: nat, steps: seq<Step>)
    ensures After(s, ttl, steps).owner == s.owner
  {
    if steps == [] {
    } else {
      OwnersStay(s, ttl, steps[..|steps| - 1]);
    }
  }

  lemma AnotherHoldsTheKey(s: State, ttl: nat, before: seq<Step>, more: seq<Step>, i: nat, other: Worker)
    requires ttl > 0 && Initial(s) && AllUndisturbed(s, ttl, before + more) && i <= |more|
    requires Inside(After(After(s, ttl, before), ttl, more[..i]), other)
    ensures var key := After(After(s, ttl, before), ttl, more[..i]).key; key.Some? && key.value.holder == other
  {
    var all := before + more;
    AfterBoth(s, ttl, before, more[..i]);
    assert before + more[..i] == all[..|before| + i];
    assert forall k :: 0 <= k < |before| + i ==> all[..|before| + i][..k] == all[..k];
    RunsKeepTheInvariant(s, ttl, before + more[..i]);
  }

  /** A worker whose lease has lapsed goes on until it is told: while another is inside a lease, the two overlap
      until the first one's next read is answered, and no longer. */
  lemma AnOverlapEndsAtTheNextRead(
    s: State, ttl: nat, before: seq<Step>, more: seq<Step>, t: Thread, other: Worker)
    requires ttl > 0 && Initial(s) && AllUndisturbed(s, ttl, before + more)
    requires var now := After(s, ttl, before);
             && Unrefused(now, t) && now.owner[t] != other
             && StaysInside(now, ttl, more, other) && OnlyBeats(now, ttl, more, t)
    ensures var now, later := After(s, ttl, before), After(s, ttl, before + more);
            && t in later.places && (later.places[t].Refused? <==> Answered(now, ttl, more, t))
            && (!later.places[t].Refused? ==> Unrefused(later, t))
  {
    var now := After(s, ttl, before);
    forall i | 0 <= i < |more| ensures FindsAnother(After(now, ttl, more[..i]), t, more[i]) {
      assert Inside(After(now, ttl, more[..i]), other);
      AnotherHoldsTheKey(s, ttl, before, more, i, other);
      OwnersStay(now, ttl, more[..i]);
    }
    AForeignHolderIsRefused(now, ttl, more, t);
    AfterBoth(s, ttl, before, more);
  }

  /** Worker 1's lease lapses before its next beat. */
  lemma LeaseLapsed(ttl: nat) returns (steps: seq<Step>, s: State)
    requires ttl > 0
    ensures s == After(THREE_WORKERS, ttl, steps) && AllUndisturbed(THREE_WORKERS, ttl, steps)
    ensures s == State(ttl, None, THREE_WORKERS.owner, map[1 := Kept], map[1 := ttl])
  {
    assert After(THREE_WORKERS, ttl, []) == THREE_WORKERS;
    steps, s := OneMoreUndisturbed(ttl, [], THREE_WORKERS, Start(1, Acquire));
    steps, s := OneMoreUndisturbed(ttl, steps, s, Act(1, Delivered));
    assert s == State(0, Some(Key(1, ttl)), THREE_WORKERS.owner, map[1 := Kept], map[1 := ttl]);
    steps, s := OneMoreUndisturbed(ttl, steps, s, Wait(ttl));
  }

  /** Such an overlap: worker 2 is then granted a lease. */
  lemma AWorkerCanOutstayItsLease(ttl: nat) returns (steps: seq<Step>, s: State)
    requires ttl > 0
    ensures s == After(THREE_WORKERS, ttl, steps) && Initial(THREE_WORKERS) && AllUndisturbed(THREE_WORKERS, ttl, steps)
    ensures Unrefused(s, 1) && !Inside(s, 1) && Inside(s, 2)
  {
    steps, s := LeaseLapsed(ttl);
    AFreeKeyIsTaken(s, ttl, 2);
    steps, s := OneMoreUndisturbed(ttl, steps, s, Start(2, Acquire));
    steps, s := OneMoreUndisturbed(ttl, steps, s, Act(2, Delivered));
  }

  lemma AFreeKeyIsTaken(s: State, ttl: nat, t: Thread)
    requires ttl > 0 && s.key.None? && t in s.owner && !Busy(s, t)
    ensures Undisturbed(s, Start(t, Acquire))
    ensures var trying := Take(s, ttl, Start(t, Acquire));
            && Undisturbed(trying, Act(t, Delivered))
            && Take(trying, ttl, Act(t, Delivered))
               == s.(key := Some(Key(s.owner[t], s.now + ttl)), places := s.places[t := Kept],
                     until := s.until[s.owner[t] := s.now + ttl])
  {
    var trying := Take(s, ttl, Start(t, Acquire));
    assert trying.places[t := Kept] == s.places[t := Kept];
  }

  lemma OneMoreUndisturbed(ttl: nat, steps: seq<Step>, s: State, step: Step) returns (steps': seq<Step>, s': State)
    requires s == After(THREE_WORKERS, ttl, steps) && AllUndisturbed(THREE_WORKERS, ttl, steps) && Undisturbed(s, step)
    ensures steps' == steps + [step] && s' == Take(s, ttl, step) && s' == After(THREE_WORKERS, ttl, steps')
    ensures AllUndisturbed(THREE_WORKERS, ttl, steps')
  {
    steps', s' := OneMoreStep(ttl, steps, s, step);
    forall i | 0 <= i < |steps'| ensures Undisturbed(After(THREE_WORKERS, ttl, steps'[..i]), steps'[i]) {
      if i < |steps| {
        assert steps'[..i] == steps[..i] && steps'[i] == steps[i];
      } else {
        assert steps'[..i] == steps;
      }
    }
  }

  /** An operation sends a bounded number of commands: nine at most. */
  lemma {:induction false} AnOperationIsShort(me: Worker, op: Operation, x: seq<Exchange>)
    requires Reaches(me, Begin(op), x).Some?
    ensures |x| <= Rank(Reaches(me, Begin(op), x).value) <= 9
  {
    if x == [] {
    } else {
      AnOperationIsShort(me, op, x[..|x| - 1]);
    }
  }

  /** The most commands that can have been sent on reaching a place. */
  function Rank(p: Place): nat {
    match p
    case Acquiring => 0
    case ReadingForRelease => 0
    case Deleting => 1
    case Reading(n) => n
    case Extending(n) => 3 + n
    case Reclaiming(n) => 3 + n
    case Rereading(n) => 6 + n
    case _ => 9
  }

  // ----- the lock and the heartbeat as objects ------------------------------

  predicate Repeatable(p: Place) {
    p.Reading? || p.Extending? || p.Reclaiming? || p.Rereading?
  }

  /** About to send `c` for the first time, and ready to repeat it. */
  predicate Trying(p: Place, c: Command) {
    Repeatable(p) && Issue(p) == c && p.tries == 0
  }

  /** The place after `n` dropped attempts. */
  function Retried(p: Place, n: nat): Place
    requires Repeatable(p)
  {
    if n >= RETRY_ATTEMPTS then Failed else p.(tries := n)
  }

  lemma RetriedOnce(me: Worker, p: Place, n: nat, a: Answer)
    requires n < RETRY_ATTEMPTS && Repeatable(p) && p.tries == 0 && Fits(Issue(p), a)
    ensures !Ended(Retried(p, n)) && Issue(Retried(p, n)) == Issue(p)
    ensures Next(me, Retried(p, n), a) == if a.Dropped? then Retried(p, n + 1) else Next(me, p, a)
  {
  }

  /** A connection answers each command in some way that fits it: what the others do in the meantime, and
      what is lost, is not this worker's to say. */
  class Connection {
    var sent: seq<Exchange>

    constructor ()
      ensures sent == []
    {
      sent := [];
    }

    method Send(c: Command) returns (a: Answer)
      modifies this
      ensures Fits(c, a) && sent == old(sent) + [Exchange(c, a)]
    {
      assert Fits(c, Dropped);
      a :| Fits(c, a);
      sent := sent + [Exchange(c, a)];
    }
  }

  class WorkerLock {
    const connection: Connection
    const token: Worker

    constructor (connection: Connection, token: Worker)
      ensures this.connection == connection && this.token == token
    {
      this.connection := connection;
      this.token := token;
    }

    /** `acquire`. */
    method AcquireLock() returns (end: Place)
      modifies connection
      ensures |connection.sent| > |old(connection.sent)| && old(connection.sent) <= connection.sent
      ensures var x := connection.sent[|old(connection.sent)|..]; Reaches(token, Acquiring, x) == Some(end)
      ensures Ended(end)
    {
      var a := connection.Send(Claim);
      OneExchange(token, Acquiring, a);
      assert connection.sent[|old(connection.sent)|..] == [Exchange(Claim, a)];
      end := if a.Dropped? then Failed else if a.taken then Kept else Refused;
    }

    /** `_with_retry`: the same command until it is answered, three times at most. Since it stood at `start` the
        thread has exchanged `x`, which took it to `p`. */
    method WithRetry(
      c: Command, ghost start: Place, ghost before: seq<Exchange>, ghost x: seq<Exchange>, ghost p: Place)
        returns (a: Answer, ghost y: seq<Exchange>)
      requires connection.sent == before + x && Reaches(token, start, x) == Some(p) && Trying(p, c)
      modifies connection
      ensures connection.sent == before + y && Fits(c, a)
      ensures Reaches(token, start, y) == Some(if a.Dropped? then Failed else Next(token, p, a))
    {
      a, y := Dropped, x;
      var attempt := 0;
      while attempt < RETRY_ATTEMPTS && a.Dropped?
        invariant attempt <= RETRY_ATTEMPTS && connection.sent == before + y && Fits(c, a)
        invariant Reaches(token, start, y) == Some(if a.Dropped? then Retried(p, attempt) else Next(token, p, a))
        decreases RETRY_ATTEMPTS - attempt
      {
        a := connection.Send(c);
        OneMoreExchange(token, start, y, Retried(p, attempt), a);
        RetriedOnce(token, p, attempt, a);
        assert (before + y) + [Exchange(c, a)] == before + (y + [Exchange(c, a)]);
        y := y + [Exchange(c, a)];
        attempt := attempt + 1;
      }
    }

    /** `refresh`. */
    method RefreshLock() returns (end: Place)
      modifies connection
      ensures old(connection.sent) <= connection.sent
      ensures var x := connection.sent[|old(connection.sent)|..]; Reaches(token, Reading(0), x) == Some(end)
      ensures end.Kept? || end.Refused? || end.Failed?
    {
      ghost var before := connection.sent;
      ghost var x: seq<Exchange> := [];
      assert before + x == before;
      var a;
      a, x := WithRetry(Read, Reading(0), before, x, Reading(0));
      assert connection.sent[|before|..] == x;
      if a.Dropped? {
        return Failed;
      }
      if a.holder == Some(token) {
        a, x := WithRetry(Extend, Reading(0), before, x, Extending(0));
        assert connection.sent[|before|..] == x;
        return if a.Dropped? then Failed else Kept;
      }
      if a.holder.None? {
        a, x := WithRetry(Claim, Reading(0), before, x, Reclaiming(0));
        assert connection.sent[|before|..] == x;
        if a.Dropped? {
          return Failed;
        }
        if a.taken {
          return Kept;
        }
        a, x := WithRetry(Read, Reading(0), before, x, Rereading(0));
        assert connection.sent[|before|..] == x;
        if a.Dropped? {
          return Failed;
        }
      }
      end := Refused;
    }

    /** `release`. */
    method ReleaseLock() returns (end: Place)
      modifies connection
      ensures old(connection.sent) <= connection.sent
      ensures var x := connection.sent[|old(connection.sent)|..];
              Reaches(token, ReadingForRelease, x) == Some(end)
      ensures end.Freed? || end.Failed?
    {
      ghost var before := connection.sent;
      var a := connection.Send(Read);
      ghost var x := [Exchange(Read, a)];
      OneExchange(token, ReadingForRelease, a);
      assert connection.sent[|before|..] == x;
      if a.Dropped? {
        return Failed;
      }
      if a.holder == Some(token) {
        var d := connection.Send(Delete);
        OneMoreExchange(token, ReadingForRelease, x, Deleting, d);
        x := x + [Exchange(Delete, d)];
        assert connection.sent == before + x && connection.sent[|before|..] == x;
        if d.Dropped? {
          return Failed;
        }
      }
      end := Freed;
    }
  }

  /** What was exchanged beat by beat, end to end. */
  ghost function EndToEnd(talk: seq<seq<Exchange>>): seq<Exchange> {
    if talk == [] then [] else EndToEnd(talk[..|talk| - 1]) + talk[|talk| - 1]
  }

  class LockHeartbeat {
    const lock: WorkerLock
    /** What each beat came to. */
    var beats: seq<Place>
    /** How often the worker has been told that its lock is lost. */
    var notices: nat

    constructor (lock: WorkerLock)
      ensures this.lock == lock && beats == [] && notices == 0
    {
      this.lock := lock;
      beats, notices := [], 0;
    }

    /** `_run`: one refresh an interval and nothing else, until told to stop after `ticks` intervals or refused. A
        beat that failed on a dropped connection is skipped. */
    method Run(ticks: nat) returns (ghost talk: seq<seq<Exchange>>)
      requires beats == [] && notices == 0
      modifies this, lock.connection
      ensures lock.connection.sent == old(lock.connection.sent) + EndToEnd(talk) && |talk| == |beats| <= ticks
      ensures forall i :: 0 <= i < |beats| ==> Reaches(lock.token, Reading(0), talk[i]) == Some(beats[i])
      ensures forall i :: 0 <= i < |beats| - 1 ==> !beats[i].Refused?
      ensures notices == (if beats != [] && beats[|beats| - 1].Refused? then 1 else 0)
      ensures notices == 0 ==> |beats| == ticks
    {
      ghost var start := lock.connection.sent;
      talk := [];
      var tick := 0;
      while tick < ticks
        invariant tick <= ticks && |beats| == |talk| == tick && notices == 0
        invariant lock.connection.sent == start + EndToEnd(talk)
        invariant forall i :: 0 <= i < |beats| ==>
                    !beats[i].Refused? && Reaches(lock.token, Reading(0), talk[i]) == Some(beats[i])
      {
        ghost var before := lock.connection.sent;
        var end := lock.RefreshLock();
        ghost var x := lock.connection.sent[|before|..];
        assert lock.connection.sent == before + x;
        assert (talk + [x])[..|talk|] == talk;
        talk := talk + [x];
        beats := beats + [end];
        if end.Refused? {
          notices := notices + 1;
          return;
        }
        tick := tick + 1;
      }
    }
  }
}
