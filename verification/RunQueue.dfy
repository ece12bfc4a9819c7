/** The queue of runs on one session: submitting, syncing a run with its task, and releasing queued
    continuations. Each handler is one atomic step here; `RunInterleaving` takes them apart. */
module RunQueue {
  import opened Common

  datatype Status = Queued | Ready | Running | Successful | Failed
  {
    predicate Active() { Ready? || Running? }
    predicate Terminal() { Successful? || Failed? }
  }

  /** `tracked` marks API and MCP runs, the only ones under the one-active-run constraint. */
  datatype Run = Run(tracked: bool, status: Status, createdAt: int, task: Option<nat>)

  /** What becomes of one enqueue: the broker refuses it, or the row cannot be linked to it, and
      then the row may or may not be saved as failed. */
  datatype Attempt = Enqueued(task: nat) | EnqueueFailed(saved: bool) | LinkFailed(saved: bool)

  function AfterAttempt(r: Run, a: Attempt): Run {
    if a.Enqueued? then r.(task := Some(a.task))
    else if a.saved then r.(status := Failed)
    else r
  }

  const MAX_CONSECUTIVE_DISPATCH_FAILURES: nat := 3

  predicate HasActive(runs: map<nat, Run>) {
    exists q | q in runs :: runs[q].tracked && runs[q].status.Active()
  }

  predicate HasQueued(runs: map<nat, Run>) {
    exists q | q in runs :: runs[q].status.Queued?
  }

  /** First by creation time; rows created at the same instant come in any order. */
  predicate OldestQueued(runs: map<nat, Run>, x: nat) {
    && x in runs && runs[x].status.Queued?
    && forall q | q in runs && runs[q].status.Queued? :: runs[x].createdAt <= runs[q].createdAt
  }

  predicate OneActive(runs: map<nat, Run>) {
    forall p, q | p in runs && q in runs && runs[p].tracked && runs[q].tracked
      && runs[p].status.Active() && runs[q].status.Active() :: p == q
  }

  predicate Valid(runs: map<nat, Run>) {
    && OneActive(runs)
    && forall q | q in runs && runs[q].status.Queued? :: runs[q].tracked && runs[q].task.None?
  }

  // ---------------------------------------------------------------- dispatch

  datatype End = Drained | Blocked | Released | GaveUp | Raised

  /** One call of the dispatcher: the rows it claimed in order, what became of each, and how it ended. */
  datatype Dispatch = Dispatch(claimed: seq<nat>, attempts: seq<Attempt>, end: End)

  predicate Refused(a: Attempt) {
    a.LinkFailed? || (a.EnqueueFailed? && a.saved)
  }

  predicate Decisive(d: Dispatch, after: map<nat, Run>)
    requires |d.attempts| == |d.claimed|
  {
    var n := |d.claimed|;
    match d.end
    case Drained => !HasQueued(after) && n < 3 && (n > 0 ==> Refused(d.attempts[n - 1]))
    case Blocked => HasQueued(after) && HasActive(after) && n < 3 && (n > 0 ==> Refused(d.attempts[n - 1]))
    case Released => n > 0 && d.attempts[n - 1].Enqueued?
    case Raised => n > 0 && d.attempts[n - 1] == EnqueueFailed(false)
    case GaveUp => n == MAX_CONSECUTIVE_DISPATCH_FAILURES && Refused(d.attempts[n - 1])
  }

  /** The rows claimed so far and what became of them. */
  ghost predicate Claims(runs: map<nat, Run>, claimed: seq<nat>, attempts: seq<Attempt>, after: map<nat, Run>) {
    var n := |claimed|;
    && |attempts| == n
    && after.Keys == runs.Keys
    && (forall i | 0 <= i < n :: claimed[i] in runs && runs[claimed[i]].status.Queued?)
    && (forall i, j | 0 <= i < j < n :: claimed[i] != claimed[j])
    && (forall i, j | 0 <= i < j < n :: runs[claimed[i]].createdAt <= runs[claimed[j]].createdAt)
    && (forall i, q | 0 <= i < n && q in runs && runs[q].status.Queued? && q !in claimed ::
          runs[claimed[i]].createdAt <= runs[q].createdAt)
    && (forall i | 0 <= i < n :: after[claimed[i]] == AfterAttempt(runs[claimed[i]].(status := Ready), attempts[i]))
    && (forall q | q in runs && q !in claimed :: after[q] == runs[q])
    && (forall i | 0 <= i < n - 1 :: Refused(attempts[i]) && attempts[i].saved)
    && (n > 0 ==> !HasActive(runs))
  }

  /** What a dispatch promises: it takes queued rows oldest first, stops at the first that is released,
      and gives up only after three refusals in a row. */
  ghost predicate Dispatched(runs: map<nat, Run>, d: Dispatch, after: map<nat, Run>) {
    && Claims(runs, d.claimed, d.attempts, after)
    && |d.attempts| == |d.claimed| <= MAX_CONSECUTIVE_DISPATCH_FAILURES
    && Decisive(d, after)
  }

  lemma {:induction false} OldestExists(runs: map<nat, Run>, among: set<nat>) returns (x: nat)
    requires among != {} && forall q | q in among :: q in runs
    ensures x in among && forall q | q in among :: runs[x].createdAt <= runs[q].createdAt
  {
    x :| x in among;
    if among != {x} {
      var y := OldestExists(runs, among - {x});
      if runs[y].createdAt < runs[x].createdAt {
        x := y;
      }
    }
  }

  lemma SomeIsOldest(runs: map<nat, Run>)
    requires HasQueued(runs)
    ensures exists x :: x in runs && OldestQueued(runs, x)
  {
    var q :| q in runs && runs[q].status.Queued?;
    var queued := set p | p in runs && runs[p].status.Queued?;
    assert q in queued;
    var x := OldestExists(runs, queued);
    assert OldestQueued(runs, x);
  }

  lemma NoClaims(runs: map<nat, Run>)
    ensures Claims(runs, [], [], runs)
  {
  }

  /** Claiming the oldest queued row and trying to enqueue it extends the claims by one. */
  lemma OneMoreClaim(runs: map<nat, Run>, claimed: seq<nat>, attempts: seq<Attempt>, now: map<nat, Run>, x: nat,
                     a: Attempt)
    requires Valid(runs) && Claims(runs, claimed, attempts, now)
    requires forall i | 0 <= i < |claimed| :: Refused(attempts[i])
    requires OldestQueued(now, x) && !HasActive(now)
    ensures Claims(runs, claimed + [x], attempts + [a], now[x := AfterAttempt(now[x].(status := Ready), a)])
  {
    var n := |claimed|;
    forall i | 0 <= i < n ensures claimed[i] != x && attempts[i].saved {
      assert claimed[i] in runs && runs[claimed[i]].tracked;
      assert !now[claimed[i]].status.Active();
    }
    assert x !in claimed;
    assert now[x] == runs[x];
    forall q | q in runs && q !in claimed ensures now[q] == runs[q] {
    }
    forall q | q in runs && runs[q].tracked ensures !runs[q].status.Active() {
      if q !in claimed {
        assert now[q] == runs[q];
      }
    }
  }

  // ---------------------------------------------------------------- the handlers

  /** One session's runs. `gaveUp` records whether the last dispatch stopped after three failures. */
  datatype Queue = Queue(runs: map<nat, Run>, gaveUp: bool)

  class Session {
    var runs: map<nat, Run>
    var gaveUp: bool

    constructor ()
      ensures State() == Queue(map[], false)
    {
      runs, gaveUp := map[], false;
    }

    function State(): Queue
      reads this
    {
      Queue(runs, gaveUp)
    }

    /** `_enqueue_queued_run`: None when its save raised. */
    method EnqueueQueuedRun(x: nat, a: Attempt) returns (ok: Option<bool>)
      requires x in runs
      modifies this`runs
      ensures runs == old(runs)[x := if a.Enqueued? then old(runs)[x].(task := Some(a.task))
                                     else if a.saved then old(runs)[x].(status := Failed) else old(runs)[x]]
      ensures ok == if a.Enqueued? then Some(true) else if Refused(a) then Some(false) else None
    {
      if a.EnqueueFailed? {
        if !a.saved {
          assert runs == runs[x := runs[x]];
          return None;
        }
        runs := runs[x := runs[x].(status := Failed)];
        return Some(false);
      }
      if a.LinkFailed? {
        runs := runs[x := if a.saved then runs[x].(status := Failed) else runs[x]];
        return Some(false);
      }
      runs := runs[x := runs[x].(task := Some(a.task))];
      return Some(true);
    }

    /** `dispatch_next_in_session`; `fates` says what becomes of an attempt to enqueue each run. */
    method DispatchNext(fates: nat -> Attempt) returns (d: Dispatch)
      requires Valid(runs)
      modifies this
      ensures Dispatched(old(runs), d, runs)
      ensures forall i | 0 <= i < |d.claimed| :: d.attempts[i] == fates(d.claimed[i])
      ensures gaveUp == d.end.GaveUp?
    {
      hide Claims, OldestQueued, HasQueued, HasActive, Valid;
      NoClaims(runs);
      var claimed: seq<nat>, attempts: seq<Attempt> := [], [];
      var consecutiveFailures := 0;
      gaveUp := false;
      while true
        invariant consecutiveFailures == |claimed| == |attempts| < MAX_CONSECUTIVE_DISPATCH_FAILURES
        invariant Claims(old(runs), claimed, attempts, runs)
        invariant forall i | 0 <= i < |claimed| :: Refused(attempts[i]) && attempts[i] == fates(claimed[i])
        invariant !gaveUp
        decreases MAX_CONSECUTIVE_DISPATCH_FAILURES - consecutiveFailures
      {
        if !HasQueued(runs) {
          return Dispatch(claimed, attempts, Drained);
        }
        SomeIsOldest(runs);
        var next :| next in runs && OldestQueued(runs, next);
        if HasActive(runs) {
          return Dispatch(claimed, attempts, Blocked);
        }
        OneMoreClaim(old(runs), claimed, attempts, runs, next, fates(next));
        ghost var now := runs;
        assert next in now;
        runs := runs[next := runs[next].(status := Ready)];
        var ok := EnqueueQueuedRun(next, fates(next));
        assert runs == now[next := AfterAttempt(now[next].(status := Ready), fates(next))];
        claimed, attempts := claimed + [next], attempts + [fates(next)];
        if ok.None? {
          return Dispatch(claimed, attempts, Raised);
        }
        if ok.value {
          return Dispatch(claimed, attempts, Released);
        }
        consecutiveFailures := consecutiveFailures + 1;
        if consecutiveFailures >= MAX_CONSECUTIVE_DISPATCH_FAILURES {
          gaveUp := true;
          return Dispatch(claimed, attempts, GaveUp);
        }
      }
    }

    /** `_submit_one`, on a session that exists. `stored` is false when the insert that the constraint admits fails for
        another reason: then no run is created and nothing else happens. */
    method Submit(x: nat, tracked: bool, createdAt: int, stored: bool, attempt: Attempt, fates: nat -> Attempt)
        returns (d: Dispatch)
      requires Valid(runs) && x !in runs
      modifies this
      ensures Step(old(State()), Event.Submit(x, tracked, createdAt, stored, attempt, d), State())
    {
      d := Dispatch([], [], Drained);
      if !stored {
        return;
      }
      if tracked && HasActive(runs) {
        runs := runs[x := Run(tracked, Queued, createdAt, None)];
        return;
      }
      var run := Run(tracked, Ready, createdAt, None);
      runs := runs[x := AfterAttempt(run, attempt)];
      ReadyIsValid(old(runs), x, AfterAttempt(run, attempt));
      if !attempt.Enqueued? {
        d := DispatchNext(fates);
      }
    }

    /** `sync_and_save`: the status is what the broker reports; a save that would make a second active run raises. */
    method Sync(x: nat, reported: Status, fates: nat -> Attempt) returns (d: Dispatch)
      requires Valid(runs) && x in runs && runs[x].task.Some? && !reported.Queued?
      modifies this
      ensures Step(old(State()), Event.Sync(x, reported, d), State())
    {
      d := Dispatch([], [], Drained);
      var previous := runs[x].status;
      if previous == reported || Clashes(runs, x, reported) {
        return;
      }
      runs := runs[x := runs[x].(status := reported)];
      SyncedIsValid(old(runs), x, reported);
      if reported.Terminal() && !previous.Terminal() {
        d := DispatchNext(fates);
      }
    }

    /** The management command for stranded runs, on this session. */
    method ReleaseOrphan(fates: nat -> Attempt) returns (x: Option<nat>)
      requires Valid(runs)
      modifies this
      ensures x.None? <==> (forall q | q in old(runs) :: old(runs)[q].status != Queued)
                           || exists q | q in old(runs) :: old(runs)[q].status in {Ready, Running}
      ensures if x.None? then State() == old(State())
              else Step(old(State()), Event.ReleaseOrphan(x.value, fates(x.value)), State())
    {
      if !NoneActive(runs) || !HasQueued(runs) {
        return None;
      }
      SomeIsOldest(runs);
      var orphan :| orphan in runs && OldestQueued(runs, orphan);
      runs := runs[orphan := runs[orphan].(status := Ready)];
      var ok := EnqueueQueuedRun(orphan, fates(orphan));
      assert runs == old(runs)[orphan := AfterAttempt(old(runs)[orphan].(status := Ready), fates(orphan))];
      return Some(orphan);
    }
  }

  predicate NoneActive(runs: map<nat, Run>) {
    forall p | p in runs :: !runs[p].status.Active()
  }

  /** The one-active-run constraint refuses to give x this status. */
  predicate Clashes(runs: map<nat, Run>, x: nat, status: Status)
    requires x in runs
  {
    runs[x].tracked && status.Active() && HasActive(map q | q in runs && q != x :: runs[q])
  }

  lemma ReadyIsValid(runs: map<nat, Run>, x: nat, r: Run)
    requires Valid(runs) && x !in runs && !r.status.Queued? && !(r.tracked && HasActive(runs))
    ensures Valid(runs[x := r])
  {
  }

  lemma SyncedIsValid(runs: map<nat, Run>, x: nat, reported: Status)
    requires Valid(runs) && x in runs && !reported.Queued? && !Clashes(runs, x, reported)
    ensures Valid(runs[x := runs[x].(status := reported)])
  {
    var others := map q | q in runs && q != x :: runs[q];
    forall q | q in runs && q != x && runs[x].tracked && reported.Active() && runs[q].tracked
      ensures !runs[q].status.Active()
    {
      assert q in others && !HasActive(others);
    }
  }

  // ---------------------------------------------------------------- whole runs

  datatype Event =
    | Submit(x: nat, tracked: bool, createdAt: int, stored: bool, attempt: Attempt, d: Dispatch)
    | Sync(x: nat, reported: Status, d: Dispatch)
    | ReleaseOrphan(x: nat, attempt: Attempt)

  ghost predicate Advance(runs: map<nat, Run>, d: Dispatch, after: Queue) {
    Dispatched(runs, d, after.runs) && after.gaveUp == d.end.GaveUp?
  }

  ghost predicate Step(q: Queue, e: Event, after: Queue) {
    match e
    case Submit(x, tracked, createdAt, stored, attempt, d) =>
      && x !in q.runs
      && if !stored then after == q
         else if tracked && HasActive(q.runs) then
           after == Queue(q.runs[x := Run(tracked, Queued, createdAt, None)], q.gaveUp)
         else
           var started := q.runs[x := AfterAttempt(Run(tracked, Ready, createdAt, None), attempt)];
           if attempt.Enqueued? then after == Queue(started, q.gaveUp) else Advance(started, d, after)
    case Sync(x, reported, d) =>
      && x in q.runs && q.runs[x].task.Some? && !reported.Queued?
      && if q.runs[x].status == reported || Clashes(q.runs, x, reported) then after == q else
           var synced := q.runs[x := q.runs[x].(status := reported)];
           if reported.Terminal() && !q.runs[x].status.Terminal() then Advance(synced, d, after)
           else after == Queue(synced, q.gaveUp)
    case ReleaseOrphan(x, attempt) =>
      // the management command: only on a session with no active run of any kind
      && OldestQueued(q.runs, x)
      && NoneActive(q.runs)
      && after == Queue(q.runs[x := AfterAttempt(q.runs[x].(status := Ready), attempt)], q.gaveUp)
  }

  /** A queued run waits behind an active one, or the last dispatch gave up. */
  ghost predicate NobodyStranded(q: Queue) {
    Valid(q.runs) && (HasQueued(q.runs) ==> HasActive(q.runs) || q.gaveUp)
  }

  /** After any dispatch every claimed run but the last has failed, so at most one was released, and
      queued runs are left with nothing to wait for exactly when it gave up with all three saved failed. */
  lemma DispatchOutcome(runs: map<nat, Run>, d: Dispatch, after: map<nat, Run>)
    requires Valid(runs) && Dispatched(runs, d, after)
    ensures Valid(after)
    ensures forall i | 0 <= i < |d.claimed| - 1 :: after[d.claimed[i]].status.Failed?
    ensures HasQueued(after) ==> (!HasActive(after) <==> d.end.GaveUp? && d.attempts[2].saved)
  {
    DispatchKeepsValid(runs, d, after);
    QueuedAreTracked(runs);
    hide Valid, Claims, HasQueued, HasActive;
    ClaimsMean(runs, d.claimed, d.attempts, after) by { assert Dispatched(runs, d, after); }
    if HasQueued(after) {
      LeftWaiting(runs, d, after);
    }
  }

  lemma LeftWaiting(runs: map<nat, Run>, d: Dispatch, after: map<nat, Run>)
    requires Valid(runs) && Dispatched(runs, d, after) && HasQueued(after)
    ensures !HasActive(after) <==> d.end.GaveUp? && d.attempts[2].saved
  {
    QueuedAreTracked(runs);
    ClaimsMean(runs, d.claimed, d.attempts, after);
    var n := |d.claimed|;
    if n > 0 {
      var x := d.claimed[n - 1];
      hide Valid, Claims, HasQueued;
      forall q | q in after && after[q].tracked && after[q].status.Active() ensures q == x {
        if q in d.claimed {
          var i :| 0 <= i < n && d.claimed[i] == q;
        }
      }
      assert HasActive(after) <==> after[x].status.Active() by { assert after[x].tracked; }
      hide HasActive;
    }
  }

  lemma QueuedAreTracked(runs: map<nat, Run>)
    requires Valid(runs)
    ensures forall q | q in runs && runs[q].status.Queued? :: runs[q].tracked && runs[q].task.None?
  {
  }

  lemma DispatchKeepsValid(runs: map<nat, Run>, d: Dispatch, after: map<nat, Run>)
    requires Valid(runs) && Dispatched(runs, d, after)
    ensures Valid(after)
  {
    hide HasQueued, Decisive, OneActive;
    var n := |d.claimed|;
    if n == 0 {
      assert after == runs;
    } else {
      OnlyLastIsActive(runs, d, after);
      forall q | q in after && after[q].status.Queued? ensures after[q].tracked && after[q].task.None? {
        assert q !in d.claimed;
      }
      assert OneActive(after) by { SingleActive(after, d.claimed[n - 1]); }
    }
  }

  lemma SingleActive(runs: map<nat, Run>, x: nat)
    requires forall q | q in runs && runs[q].tracked && runs[q].status.Active() :: q == x
    ensures OneActive(runs)
  {
  }

  lemma OnlyLastIsActive(runs: map<nat, Run>, d: Dispatch, after: map<nat, Run>)
    requires Dispatched(runs, d, after) && |d.claimed| > 0
    ensures forall q | q in after && after[q].tracked && after[q].status.Active() :: q == d.claimed[|d.claimed| - 1]
  {
    hide HasQueued, Decisive;
    forall q | q in after && after[q].tracked && after[q].status.Active() && q != d.claimed[|d.claimed| - 1]
      ensures false
    {
    }
  }

  // ---------------------------------------------------------------- what becomes of the runs

  /** What one attempt to enqueue a run leaves: linked to its task and ready, or failed, or ready with no task
      because not even the failure was saved. */
  predicate Tried(before: Run, a: Attempt, after: Run) {
    && after.tracked == before.tracked && after.createdAt == before.createdAt
    && (a.Enqueued? ==> after.status == Ready && after.task == Some(a.task))
    && (!a.Enqueued? ==> after.status == (if a.saved then Failed else Ready) && after.task == before.task)
  }

  /** A dispatch changes nothing but the runs it claims, tries the oldest queued run whenever no tracked run is ready
      or running, and ends when nothing is queued, a run is active or released, a save raised, or three were refused. */
  lemma DispatchMeans(runs: map<nat, Run>, d: Dispatch, after: map<nat, Run>)
    requires Dispatched(runs, d, after)
    ensures after.Keys == runs.Keys
    ensures forall x | x in runs && x !in d.claimed :: after[x] == runs[x]
    ensures forall i | 0 <= i < |d.claimed| ::
              var x := d.claimed[i];
              x in runs && runs[x].status == Queued && Tried(runs[x], d.attempts[i], after[x])
    ensures forall i, x | 0 <= i < |d.claimed| && x in runs && runs[x].status == Queued && x !in d.claimed[..i] ::
              runs[d.claimed[i]].createdAt <= runs[x].createdAt
    ensures forall i | 0 <= i < |d.claimed| - 1 :: !d.attempts[i].Enqueued? && d.attempts[i].saved
    ensures d.claimed != [] ==> forall x | x in runs && runs[x].tracked :: runs[x].status !in {Ready, Running}
    ensures match d.end
            case Drained => forall x | x in after :: after[x].status != Queued
            case Blocked => exists x | x in after :: after[x].tracked && after[x].status in {Ready, Running}
            case Released => d.claimed != [] && d.attempts[|d.claimed| - 1].Enqueued?
            case Raised => d.claimed != [] && d.attempts[|d.claimed| - 1] == EnqueueFailed(false)
            case GaveUp => |d.claimed| == 3 && forall i | 0 <= i < 3 :: !d.attempts[i].Enqueued?
  {
    hide Claims, Decisive, Tried;
    ClaimsMean(runs, d.claimed, d.attempts, after);
    ClaimsInOrder(runs, d.claimed, d.attempts, after);
    EndMeans(runs, d, after);
  }

  lemma ClaimsMean(runs: map<nat, Run>, claimed: seq<nat>, attempts: seq<Attempt>, after: map<nat, Run>)
    requires Claims(runs, claimed, attempts, after)
    ensures after.Keys == runs.Keys && |attempts| == |claimed|
    ensures forall x | x in runs && x !in claimed :: after[x] == runs[x]
    ensures forall i | 0 <= i < |claimed| ::
              && claimed[i] in runs && runs[claimed[i]].status == Queued
              && Tried(runs[claimed[i]], attempts[i], after[claimed[i]])
    ensures forall i | 0 <= i < |claimed| - 1 :: !attempts[i].Enqueued? && attempts[i].saved
    ensures claimed != [] ==> forall x | x in runs && runs[x].tracked :: runs[x].status !in {Ready, Running}
  {
  }

  lemma EndMeans(runs: map<nat, Run>, d: Dispatch, after: map<nat, Run>)
    requires Dispatched(runs, d, after)
    ensures match d.end
            case Drained => forall x | x in after :: after[x].status != Queued
            case Blocked => exists x | x in after :: after[x].tracked && after[x].status in {Ready, Running}
            case Released => d.claimed != [] && d.attempts[|d.claimed| - 1].Enqueued?
            case Raised => d.claimed != [] && d.attempts[|d.claimed| - 1] == EnqueueFailed(false)
            case GaveUp => |d.claimed| == 3 && forall i | 0 <= i < 3 :: !d.attempts[i].Enqueued?
  {
    ClaimsMean(runs, d.claimed, d.attempts, after);
    hide Claims, Tried;
  }

  lemma ClaimsInOrder(runs: map<nat, Run>, claimed: seq<nat>, attempts: seq<Attempt>, after: map<nat, Run>)
    requires Claims(runs, claimed, attempts, after)
    ensures forall i, x | 0 <= i < |claimed| && x in runs && runs[x].status == Queued && x !in claimed[..i] ::
              runs[claimed[i]].createdAt <= runs[x].createdAt
  {
    hide HasActive;
    forall i, x | 0 <= i < |claimed| && x in runs && runs[x].status == Queued && x !in claimed[..i]
      ensures runs[claimed[i]].createdAt <= runs[x].createdAt
    {
      if x in claimed {
        var j :| 0 <= j < |claimed| && claimed[j] == x;
        assert j >= i;
      }
    }
  }

  /** A tracked run of the session is ready or running. */
  ghost predicate Busy(runs: map<nat, Run>) {
    exists q | q in runs :: runs[q].tracked && runs[q].status in {Ready, Running}
  }

  /** A submitted run that is stored is there afterwards. It is queued exactly if it is tracked and the session was
      busy, and then nothing else changes; otherwise it was tried at once, and if it was refused only queued runs
      change beside it. */
  lemma SubmitMeans(q: Queue, x: nat, tracked: bool, createdAt: int, stored: bool, attempt: Attempt, d: Dispatch,
                    after: Queue)
    requires Step(q, Event.Submit(x, tracked, createdAt, stored, attempt, d), after)
    ensures !stored ==> after == q
    ensures stored ==>
              && after.runs.Keys == q.runs.Keys + {x} && x !in q.runs
              && after.runs[x].tracked == tracked && after.runs[x].createdAt == createdAt
              && (after.runs[x].status == Queued <==> tracked && Busy(q.runs))
              && (after.runs[x].status != Queued ==>
                    Tried(Run(tracked, Ready, createdAt, None), attempt, after.runs[x]))
              && (forall y | y in q.runs && q.runs[y].status != Queued :: after.runs[y] == q.runs[y])
              && (after.runs[x].status == Queued || attempt.Enqueued? ==>
                    after.gaveUp == q.gaveUp && forall y | y in q.runs :: after.runs[y] == q.runs[y])
  {
    assert HasActive(q.runs) <==> Busy(q.runs);
    hide HasActive, HasQueued, Decisive, Busy;
  }

  /** Whoever else of the session is tracked and ready or running. */
  ghost predicate BusyBut(runs: map<nat, Run>, x: nat) {
    exists q | q in runs && q != x :: runs[q].tracked && runs[q].status in {Ready, Running}
  }

  /** A sync gives the run the status reported, unless that would make a second tracked run active; then, as when
      the status is the same, nothing changes. Other runs change only on the first arrival at a final status, and
      only queued ones. */
  lemma SyncMeans(q: Queue, x: nat, reported: Status, d: Dispatch, after: Queue)
    requires Step(q, Event.Sync(x, reported, d), after)
    ensures x in q.runs && after.runs.Keys == q.runs.Keys
    ensures var clash := q.runs[x].tracked && reported in {Ready, Running} && BusyBut(q.runs, x);
            && (clash ==> after == q)
            && (!clash ==> after.runs[x] == q.runs[x].(status := reported))
    ensures forall y | y in q.runs && y != x && q.runs[y].status != Queued :: after.runs[y] == q.runs[y]
    ensures q.runs[x].status in {Successful, Failed} || reported !in {Successful, Failed} ==>
              after.gaveUp == q.gaveUp && forall y | y in q.runs && y != x :: after.runs[y] == q.runs[y]
  {
    var others := map p | p in q.runs && p != x :: q.runs[p];
    assert HasActive(others) <==> BusyBut(q.runs, x) by {
      if p :| p in q.runs && p != x && q.runs[p].tracked && q.runs[p].status in {Ready, Running} {
        assert p in others;
      }
    }
    assert q.runs[x].(status := q.runs[x].status) == q.runs[x];
    hide HasActive, HasQueued, Decisive, BusyBut;
  }

  /** A submitted run that was tried and refused dispatches. */
  lemma SubmitDispatches(q: Queue, x: nat, tracked: bool, createdAt: int, attempt: Attempt, d: Dispatch, after: Queue)
    requires Step(q, Event.Submit(x, tracked, createdAt, true, attempt, d), after)
    requires !(tracked && Busy(q.runs)) && !attempt.Enqueued?
    ensures x in after.runs && Dispatched(q.runs[x := after.runs[x]], d, after.runs)
    ensures after.gaveUp <==> d.end == GaveUp
  {
    assert HasActive(q.runs) <==> Busy(q.runs);
    hide HasActive, HasQueued, Decisive, Busy;
  }

  /** A first arrival at a final status dispatches. */
  lemma SyncDispatches(q: Queue, x: nat, reported: Status, d: Dispatch, after: Queue)
    requires Step(q, Event.Sync(x, reported, d), after)
    requires reported in {Successful, Failed} && q.runs[x].status !in {Successful, Failed}
    ensures Dispatched(q.runs[x := q.runs[x].(status := reported)], d, after.runs)
    ensures after.gaveUp <==> d.end == GaveUp
  {
    hide HasActive, Dispatched;
  }

  /** The command tries the oldest queued run of a session where nothing is ready or running, and that one only. */
  lemma OrphanMeans(q: Queue, x: nat, attempt: Attempt, after: Queue)
    requires Step(q, Event.ReleaseOrphan(x, attempt), after)
    ensures x in q.runs && q.runs[x].status == Queued && after.runs.Keys == q.runs.Keys && after.gaveUp == q.gaveUp
    ensures Tried(q.runs[x], attempt, after.runs[x]) && forall y | y in q.runs && y != x :: after.runs[y] == q.runs[y]
    ensures forall y | y in q.runs ::
              && q.runs[y].status !in {Ready, Running}
              && (q.runs[y].status == Queued ==> q.runs[x].createdAt <= q.runs[y].createdAt)
  {
  }

  lemma StepKeeps(q: Queue, e: Event, after: Queue)
    requires NobodyStranded(q) && Step(q, e, after)
    ensures NobodyStranded(after)
  {
    match e
    case Submit(x, tracked, createdAt, stored, attempt, d) =>
      if !stored {
        assert after == q;
      } else if tracked && HasActive(q.runs) {
        QueueingKeeps(q.runs, x, createdAt);
      } else {
        var run := AfterAttempt(Run(tracked, Ready, createdAt, None), attempt);
        ReadyIsValid(q.runs, x, run);
        if attempt.Enqueued? {
          StartingKeeps(q, x, run);
        } else {
          AdvanceKeeps(q.runs[x := run], d, after);
        }
      }
    case Sync(x, reported, d) =>
      if after != q {
        SyncedIsValid(q.runs, x, reported);
        if reported.Terminal() && !q.runs[x].status.Terminal() {
          AdvanceKeeps(q.runs[x := q.runs[x].(status := reported)], d, after);
        } else {
          RelabelKeeps(q, x, reported);
        }
      }
    case ReleaseOrphan(x, attempt) =>
      OrphanKeeps(q, x, attempt);
  }

  lemma AdvanceKeeps(runs: map<nat, Run>, d: Dispatch, after: Queue)
    requires Valid(runs) && Advance(runs, d, after)
    ensures NobodyStranded(after)
  {
    hide Claims, HasQueued, HasActive, Valid;
    DispatchOutcome(runs, d, after.runs);
  }

  lemma QueueingKeeps(runs: map<nat, Run>, x: nat, createdAt: int)
    requires Valid(runs) && x !in runs && HasActive(runs)
    ensures var after := runs[x := Run(true, Queued, createdAt, None)]; Valid(after) && HasActive(after)
  {
    var p :| p in runs && runs[p].tracked && runs[p].status.Active();
    assert p in runs[x := Run(true, Queued, createdAt, None)];
  }

  lemma StartingKeeps(q: Queue, x: nat, r: Run)
    requires NobodyStranded(q) && x !in q.runs && !r.status.Queued? && !(r.tracked && HasActive(q.runs))
    ensures NobodyStranded(Queue(q.runs[x := r], q.gaveUp))
  {
    ReadyIsValid(q.runs, x, r);
    var after := q.runs[x := r];
    if p :| p in after && after[p].status.Queued? {
      assert p in q.runs;
      if HasActive(q.runs) {
        var a :| a in q.runs && q.runs[a].tracked && q.runs[a].status.Active();
        assert a in after && after[a] == q.runs[a];
      }
    }
  }

  /** A sync that is no first arrival at a terminal status leaves an active run active. */
  lemma RelabelKeeps(q: Queue, x: nat, reported: Status)
    requires NobodyStranded(q) && x in q.runs && q.runs[x].task.Some? && !reported.Queued?
    requires !Clashes(q.runs, x, reported) && (reported.Terminal() ==> q.runs[x].status.Terminal())
    ensures NobodyStranded(Queue(q.runs[x := q.runs[x].(status := reported)], q.gaveUp))
  {
    SyncedIsValid(q.runs, x, reported);
    var after := q.runs[x := q.runs[x].(status := reported)];
    if p :| p in after && after[p].status.Queued? {
      assert p in q.runs;
      if HasActive(q.runs) {
        var a :| a in q.runs && q.runs[a].tracked && q.runs[a].status.Active();
        assert a in after && after[a].status.Active();
      }
    }
  }

  lemma OrphanKeeps(q: Queue, x: nat, attempt: Attempt)
    requires NobodyStranded(q) && OldestQueued(q.runs, x)
    requires NoneActive(q.runs)
    ensures NobodyStranded(Queue(q.runs[x := AfterAttempt(q.runs[x].(status := Ready), attempt)], q.gaveUp))
  {
    assert q.gaveUp;
  }

  /** Each handler starts from the state the last one left. */
  ghost predicate Trace(queues: seq<Queue>, events: seq<Event>) {
    && |queues| == |events| + 1
    && queues[0] == Queue(map[], false)
    && forall k | 0 <= k < |events| :: Step(queues[k], events[k], queues[k + 1])
  }

  /** In every reachable state a queued run has an active one to wait for, unless the last dispatch gave
      up after three failures. */
  lemma {:induction false} NoLostWakeup(queues: seq<Queue>, events: seq<Event>, k: nat)
    requires Trace(queues, events) && k <= |events|
    ensures NobodyStranded(queues[k])
  {
    hide Step, NobodyStranded;
    if k == 0 {
      assert NobodyStranded(queues[0]) by {
        EmptyIsFine();
      }
    } else {
      NoLostWakeup(queues, events, k - 1);
      StepKeeps(queues[k - 1], events[k - 1], queues[k]);
    }
  }

  lemma EmptyIsFine()
    ensures NobodyStranded(Queue(map[], false))
  {
  }

  predicate Waiting(q: Queue, x: nat) {
    x in q.runs && q.runs[x].status.Queued?
  }

  /** A step takes a run out of the queue only together with every older one, and puts none back. */
  lemma StepIsFifo(q: Queue, e: Event, after: Queue, x: nat)
    requires NobodyStranded(q) && Step(q, e, after) && x in q.runs
    ensures x in after.runs && after.runs[x].createdAt == q.runs[x].createdAt
    ensures Waiting(after, x) ==> Waiting(q, x)
    ensures forall y | Waiting(q, x) && Waiting(q, y) && q.runs[x].createdAt < q.runs[y].createdAt
              && Waiting(after, x) :: Waiting(after, y)
  {
    hide HasActive, HasQueued, OneActive, Decisive, Clashes;
  }

  /** No queued run is ever overtaken: once a younger run has left the queue, so has every older one. */
  lemma {:induction false} NeverOvertaken(queues: seq<Queue>, events: seq<Event>, i: nat, j: nat, x: nat, y: nat)
    requires Trace(queues, events) && i <= j <= |events|
    requires Waiting(queues[i], x) && Waiting(queues[i], y)
    requires queues[i].runs[x].createdAt < queues[i].runs[y].createdAt
    ensures x in queues[j].runs && queues[j].runs[x].createdAt == queues[i].runs[x].createdAt
    ensures y in queues[j].runs && queues[j].runs[y].createdAt == queues[i].runs[y].createdAt
    ensures Waiting(queues[j], x) ==> Waiting(queues[j], y)
  {
    hide Step, NobodyStranded;
    if i < j {
      NeverOvertaken(queues, events, i, j - 1, x, y);
      NoLostWakeup(queues, events, j - 1);
      StepIsFifo(queues[j - 1], events[j - 1], queues[j], x);
      StepIsFifo(queues[j - 1], events[j - 1], queues[j], y);
    }
  }
}
