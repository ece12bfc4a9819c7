/** Submitters, dispatchers and the release command of `RunQueue` at the grain of single database
    statements and broker calls, interleaved in any way. */
module RunInterleaving {
  import opened Common
  import opened RunQueue

  datatype Row = Row(session: nat, run: Run)
  {
    function To(status: Status): Row {
      this.(run := run.(status := status))
    }
  }

  /** What a worker goes back to once it is done with a run. */
  datatype Caller = Submitter(session: nat) | Dispatcher(session: nat, failures: nat) | Releaser

  /** Where a worker stands: the statement it executes next. */
  datatype Worker =
    | Idle
    | Inserting(x: nat, row: Row)
    | InsertingQueued(x: nat, row: Row)
    | Looking(session: nat, failures: nat)
    | Claiming(x: nat, caller: Caller)
    | Enqueueing(x: nat, caller: Caller)
    | Linking(x: nat, task: nat, caller: Caller)
    | Failing(x: nat, accepted: bool, caller: Caller)
  {
    predicate Creates(y: nat) {
      (Inserting? || InsertingQueued?) && x == y
    }

    predicate Owns(y: nat) {
      (Enqueueing? || Linking? || Failing?) && x == y
    }
  }

  /** `broker` lists the runs the broker accepted a task for; `ids` the run ids handed out. */
  datatype State = State(rows: map<nat, Row>, workers: map<nat, Worker>, broker: seq<nat>, ids: set<nat>)
  {
    function At(w: nat): Worker {
      if w in workers then workers[w] else Idle
    }

    function Go(w: nat, to: Worker): State {
      this.(workers := workers[w := to])
    }

    function Put(x: nat, row: Row): State {
      this.(rows := rows[x := row])
    }
  }

  /** Whether the one-active-run constraint refuses row x this content. */
  predicate Refuses(rows: map<nat, Row>, x: nat, row: Row) {
    row.run.tracked && row.run.status.Active() &&
    exists q | q in rows && q != x ::
      rows[q].session == row.session && rows[q].run.tracked && rows[q].run.status.Active()
  }

  predicate OldestIn(rows: map<nat, Row>, session: nat, x: nat) {
    && x in rows && rows[x].session == session && rows[x].run.status.Queued?
    && forall q | q in rows && rows[q].session == session && rows[q].run.status.Queued? ::
         rows[x].run.createdAt <= rows[q].run.createdAt
  }

  predicate NoneQueued(rows: map<nat, Row>, session: nat) {
    forall q | q in rows && rows[q].session == session :: !rows[q].run.status.Queued?
  }

  datatype Step =
    | StartSubmit(w: nat, x: nat, session: nat, tracked: bool, createdAt: int)
    | StartDispatch(w: nat, session: nat)
    | StartRelease(w: nat, x: nat)
    | InsertReady(w: nat, ok: bool)
    | InsertQueued(w: nat, ok: bool)
    | Look(w: nat, oldest: Option<nat>)
    | Claim(w: nat)
    | Enqueue(w: nat, task: Option<nat>, stored: bool)
    | Link(w: nat, ok: bool)
    | SaveFailed(w: nat, saved: bool)
    | Sync(x: nat, reported: Status)

  ghost predicate Enabled(e: Step, s: State) {
    match e
    case StartSubmit(w, x, _, _, _) => s.At(w).Idle? && x !in s.ids
    case StartDispatch(w, _) => s.At(w).Idle?
    case StartRelease(w, x) => s.At(w).Idle? && x in s.rows
    case InsertReady(w, _) => s.At(w).Inserting?
    case InsertQueued(w, _) => s.At(w).InsertingQueued?
    case Look(w, oldest) =>
      && s.At(w).Looking?
      && (if oldest.Some? then OldestIn(s.rows, s.At(w).session, oldest.value) else NoneQueued(s.rows, s.At(w).session))
    case Claim(w) => s.At(w).Claiming? && s.At(w).x in s.rows
    case Enqueue(w, _, _) => s.At(w).Enqueueing?
    case Link(w, _) => s.At(w).Linking? && s.At(w).x in s.rows
    case SaveFailed(w, _) => s.At(w).Failing? && s.At(w).x in s.rows
    case Sync(x, reported) => x in s.rows && s.rows[x].run.task.Some? && !reported.Queued?
  }

  /** After a failed claim or a run marked failed: the dispatcher loops, a submitter's `run_finished` starts
      a dispatcher, the release command moves on. `counted` failures end the dispatcher at the third;
      a save that raises out of the enqueue branch ends it at once. */
  function Resume(c: Caller, counted: bool, raised: bool): Worker {
    match c
    case Submitter(session) => Looking(session, 0)
    case Dispatcher(session, failures) =>
      var n := failures + if counted then 1 else 0;
      if raised || n >= MAX_CONSECUTIVE_DISPATCH_FAILURES then Idle else Looking(session, n)
    case Releaser => Idle
  }

  ghost function Next(e: Step, s: State): State
    requires Enabled(e, s)
  {
    match e
    case StartSubmit(w, x, session, tracked, createdAt) =>
      s.(ids := s.ids + {x}).Go(w, Inserting(x, Row(session, Run(tracked, Ready, createdAt, None))))
    case StartDispatch(w, session) => s.Go(w, Looking(session, 0))
    case StartRelease(w, x) => s.Go(w, Claiming(x, Releaser))
    case InsertReady(w, ok) =>
      var Inserting(x, row) := s.At(w);
      if Refuses(s.rows, x, row) then s.Go(w, InsertingQueued(x, row.To(Queued)))
      else if !ok then s.Go(w, Idle)
      else s.Put(x, row).Go(w, Enqueueing(x, Submitter(row.session)))
    case InsertQueued(w, ok) =>
      var InsertingQueued(x, row) := s.At(w);
      (if ok then s.Put(x, row) else s).Go(w, Idle)
    case Look(w, oldest) =>
      var Looking(session, failures) := s.At(w);
      s.Go(w, if oldest.Some? then Claiming(oldest.value, Dispatcher(session, failures)) else Idle)
    case Claim(w) =>
      var Claiming(x, caller) := s.At(w);
      if !s.rows[x].run.status.Queued? then s.Go(w, Resume(caller, false, false))
      else if Refuses(s.rows, x, s.rows[x].To(Ready)) then s.Go(w, Idle)
      else s.Put(x, s.rows[x].To(Ready)).Go(w, Enqueueing(x, caller))
    case Enqueue(w, task, stored) =>
      var Enqueueing(x, caller) := s.At(w);
      if task.Some? then s.(broker := s.broker + [x]).Go(w, Linking(x, task.value, caller))
      else s.(broker := if stored then s.broker + [x] else s.broker).Go(w, Failing(x, false, caller))
    case Link(w, ok) =>
      var Linking(x, task, caller) := s.At(w);
      if ok then s.Put(x, s.rows[x].(run := s.rows[x].run.(task := Some(task)))).Go(w, Idle)
      else s.Go(w, Failing(x, true, caller))
    case SaveFailed(w, saved) =>
      var Failing(x, accepted, caller) := s.At(w);
      (if saved then s.Put(x, s.rows[x].To(Failed)) else s).Go(w, Resume(caller, true, !accepted && !saved))
    case Sync(x, reported) =>
      if Refuses(s.rows, x, s.rows[x].To(reported)) then s else s.Put(x, s.rows[x].To(reported))
  }

  ghost predicate OneActivePerSession(s: State) {
    forall p, q | p in s.rows && q in s.rows && s.rows[p].session == s.rows[q].session
      && s.rows[p].run.tracked && s.rows[q].run.tracked
      && s.rows[p].run.status.Active() && s.rows[q].run.status.Active() :: p == q
  }

  /** A run about to be inserted has an id of its own; a queued run has not been enqueued and nobody is
      working on it; a run being enqueued is worked on by one worker and not yet with the broker. */
  ghost predicate Tidy(s: State) {
    RowsTidy(s) && Distinct(s.broker) && AllFit(s) && Apart(s.workers)
  }

  ghost predicate RowsTidy(s: State) {
    && (forall x | x in s.rows :: x in s.ids)
    && (forall x | x in s.broker :: x in s.rows && !s.rows[x].run.status.Queued?)
    && (forall x | x in s.rows && s.rows[x].run.status.Queued? :: s.rows[x].run.task.None?)
  }

  ghost predicate AllFit(s: State) {
    forall w | w in s.workers :: FitsRows(s, s.workers[w])
  }

  ghost predicate Apart(workers: map<nat, Worker>) {
    forall w, v | w in workers && v in workers && w != v :: Independent(workers[w], workers[v])
  }

  ghost predicate FitsRows(s: State, k: Worker) {
    && (k.Inserting? || k.InsertingQueued? ==> k.x in s.ids && k.x !in s.rows)
    && (k.Inserting? ==> k.row.run.status.Ready? && k.row.run.task.None?)
    && (k.InsertingQueued? ==> k.row.run.status.Queued? && k.row.run.task.None?)
    && (k.Claiming? ==> k.x in s.rows)
    && (k.Enqueueing? || k.Linking? || k.Failing? ==> k.x in s.rows && !s.rows[k.x].run.status.Queued?)
    && (k.Enqueueing? ==> k.x !in s.broker)
  }

  ghost predicate Independent(k: Worker, l: Worker) {
    && (forall x | k.Creates(x) :: !l.Creates(x))
    && (forall x | k.Owns(x) :: !l.Owns(x))
  }

  /** Nobody but w creates or works on what k does. */
  ghost predicate Alone(s: State, w: nat, k: Worker) {
    forall v | v in s.workers && v != w :: Independent(k, s.workers[v]) && Independent(s.workers[v], k)
  }

  lemma WorkerMoves(s: State, w: nat, k: Worker)
    requires Tidy(s) && FitsRows(s, k) && Alone(s, w, k)
    ensures Tidy(s.Go(w, k))
  {
    hide Independent, FitsRows, Distinct;
    forall v | v in s.Go(w, k).workers ensures FitsRows(s.Go(w, k), s.Go(w, k).workers[v]) {
      FitsSame(s, s.Go(w, k), s.Go(w, k).workers[v]);
    }
  }

  lemma FitsSame(s: State, t: State, k: Worker)
    requires FitsRows(s, k) && t.rows == s.rows && s.ids <= t.ids && t.broker == s.broker
    ensures FitsRows(t, k)
  {
  }

  /** A worker that stays with its run, or drops it, stays alone. */
  lemma StaysAlone(s: State, w: nat, k: Worker)
    requires Tidy(s)
    requires forall x | k.Creates(x) :: s.At(w).Creates(x)
    requires forall x | k.Owns(x) :: s.At(w).Owns(x)
    ensures Alone(s, w, k)
  {
    hide FitsRows, Distinct;
  }

  lemma RowChanges(s: State, x: nat, row: Row)
    requires Tidy(s) && x in s.rows && !row.run.status.Queued?
    ensures Tidy(s.Put(x, row))
  {
    hide Independent, Distinct;
  }

  lemma IdIsTaken(s: State, x: nat)
    requires Tidy(s)
    ensures Tidy(s.(ids := s.ids + {x}))
  {
    hide Independent, Distinct;
  }

  lemma IdleIsApart(workers: map<nat, Worker>, w: nat)
    requires Apart(workers)
    ensures Apart(workers[w := Idle])
  {
  }

  lemma FitsNewRow(s: State, x: nat, row: Row, k: Worker)
    requires FitsRows(s, k) && x !in s.rows && !k.Creates(x)
    ensures FitsRows(s.Put(x, row), k) && !k.Owns(x)
  {
  }

  /** While w's new row appears, another worker goes on as before and has nothing to do with it. */
  lemma OthersFitNewRow(s: State, w: nat, row: Row, v: nat)
    requires Tidy(s) && (s.At(w).Inserting? || s.At(w).InsertingQueued?) && v in s.workers && v != w
    ensures FitsRows(s.Go(w, Idle).Put(s.At(w).x, row), s.workers[v]) && !s.workers[v].Owns(s.At(w).x)
  {
    hide RowsTidy, Distinct;
    var x := s.At(w).x;
    assert FitsRows(s, s.workers[w]) && FitsRows(s, s.workers[v]);
    assert s.workers[w].Creates(x) && Independent(s.workers[w], s.workers[v]);
    FitsNewRow(s, x, row, s.workers[v]);
    FitsSame(s.Put(x, row), s.Go(w, Idle).Put(x, row), s.workers[v]);
  }

  /** w's new row appears, while w itself does nothing yet. */
  lemma RowAppears(s: State, w: nat, row: Row)
    requires Tidy(s) && (s.At(w).Inserting? || s.At(w).InsertingQueued?)
    requires row.run.task.None? && (row.run.status.Ready? || row.run.status.Queued?)
    ensures var t := s.Go(w, Idle).Put(s.At(w).x, row);
            Tidy(t) && forall k: Worker | k.Enqueueing? && k.x == s.At(w).x :: Alone(t, w, k)
  {
    var x := s.At(w).x;
    var t := s.Go(w, Idle).Put(x, row);
    assert FitsRows(s, s.workers[w]);
    RowsTidyWith(s, x, row);
    IdleIsApart(s.workers, w);
    hide RowsTidy, Distinct, Apart, Independent;
    assert RowsTidy(t) by { SameRowsTidy(s.Put(x, row), t); }
    assert FitsRows(t, Idle);
    forall v | v in t.workers && v != w ensures FitsRows(t, t.workers[v]) && !t.workers[v].Owns(x) {
      OthersFitNewRow(s, w, row, v);
    }
    hide FitsRows;
    forall k: Worker | k.Enqueueing? && k.x == x ensures Alone(t, w, k) {
      OwnerIsAlone(t, w, k);
    }
  }

  lemma OwnerIsAlone(t: State, w: nat, k: Worker)
    requires k.Enqueueing? && forall v | v in t.workers && v != w :: !t.workers[v].Owns(k.x)
    ensures Alone(t, w, k)
  {
  }

  lemma RowsTidyWith(s: State, x: nat, row: Row)
    requires RowsTidy(s) && x in s.ids && x !in s.rows && row.run.task.None?
    ensures RowsTidy(s.Put(x, row))
  {
  }

  lemma SameRowsTidy(s: State, t: State)
    requires RowsTidy(s) && t.rows == s.rows && t.broker == s.broker && t.ids == s.ids
    ensures RowsTidy(t)
  {
  }

  lemma FitsBroker(s: State, x: nat, k: Worker)
    requires FitsRows(s, k) && !k.Owns(x)
    ensures FitsRows(s.(broker := s.broker + [x]), k)
  {
  }

  /** The broker takes w's run, while w itself does nothing yet. */
  lemma BrokerGrows(s: State, w: nat)
    requires Tidy(s) && s.At(w).Enqueueing?
    ensures Tidy(s.Go(w, Idle).(broker := s.broker + [s.At(w).x]))
  {
    var x := s.At(w).x;
    var t := s.Go(w, Idle).(broker := s.broker + [x]);
    assert FitsRows(s, s.workers[w]);
    assert RowsTidy(t);
    DistinctGrows(s.broker, x);
    hide RowsTidy, Distinct;
    IdleIsApart(s.workers, w);
    assert s.workers[w].Owns(x);
    forall v | v in t.workers && v != w ensures FitsRows(t, t.workers[v]) {
      assert Independent(s.workers[w], s.workers[v]);
      FitsBroker(s, x, s.workers[v]);
      FitsSame(s.(broker := t.broker), t, s.workers[v]);
    }
  }

  lemma DistinctGrows(xs: seq<nat>, x: nat)
    requires Distinct(xs) && x !in xs
    ensures Distinct(xs + [x])
  {
  }

  lemma ClaimIsTidy(s: State, w: nat)
    requires Tidy(s) && Enabled(Claim(w), s)
    ensures Tidy(Next(Claim(w), s))
  {
    hide Refuses, Distinct;
    var Claiming(x, caller) := s.At(w);
    if s.rows[x].run.status.Queued? && !Refuses(s.rows, x, s.rows[x].To(Ready)) {
      RowChanges(s, x, s.rows[x].To(Ready));
      WorkerMoves(s.Put(x, s.rows[x].To(Ready)), w, Enqueueing(x, caller));
    } else {
      StaysAlone(s, w, Idle);
      StaysAlone(s, w, Resume(caller, false, false));
      WorkerMoves(s, w, Idle);
      WorkerMoves(s, w, Resume(caller, false, false));
    }
  }

  lemma InsertIsTidy(e: Step, s: State)
    requires Tidy(s) && Enabled(e, s) && (e.InsertReady? || e.InsertQueued?)
    ensures Tidy(Next(e, s))
  {
    hide Refuses, Distinct, Independent, Alone;
    var w, k := e.w, s.At(e.w);
    if e.InsertReady? && Refuses(s.rows, k.x, k.row) {
      StaysAlone(s, w, InsertingQueued(k.x, k.row.To(Queued)));
      WorkerMoves(s, w, InsertingQueued(k.x, k.row.To(Queued)));
    } else if e.ok {
      RowAppears(s, w, k.row);
      var t := s.Go(w, Idle).Put(k.x, k.row);
      if e.InsertReady? {
        var l := Enqueueing(k.x, Submitter(k.row.session));
        assert k.x !in s.rows;
        assert FitsRows(t, l);
        WorkerMoves(t, w, l);
        assert t.Go(w, l) == Next(e, s);
      } else {
        assert t == Next(e, s);
      }
    } else {
      StaysAlone(s, w, Idle);
      WorkerMoves(s, w, Idle);
    }
  }

  lemma EnqueueIsTidy(e: Step, s: State)
    requires Tidy(s) && Enabled(e, s) && e.Enqueue?
    ensures Tidy(Next(e, s))
  {
    hide Distinct, Independent;
    var w := e.w;
    var Enqueueing(x, caller) := s.At(w);
    var k := if e.task.Some? then Linking(x, e.task.value, caller) else Failing(x, false, caller);
    StaysAlone(s, w, k);
    assert FitsRows(s, s.workers[w]);
    if e.task.Some? || e.stored {
      BrokerGrows(s, w);
      var t := s.Go(w, Idle).(broker := s.broker + [x]);
      assert Alone(t, w, k);
      hide Tidy, Alone;
      assert FitsRows(t, k);
      WorkerMoves(t, w, k);
      assert t.Go(w, k) == Next(e, s);
    } else {
      WorkerMoves(s, w, k);
      assert s.Go(w, k) == Next(e, s);
    }
  }

  lemma FinishIsTidy(e: Step, s: State)
    requires Tidy(s) && Enabled(e, s) && (e.Link? || e.SaveFailed?)
    ensures Tidy(Next(e, s))
  {
    hide Distinct;
    var w := e.w;
    var t := Next(e, s);
    StaysAlone(s, w, t.At(w));
    if e.Link? && e.ok {
      var row := s.rows[s.At(w).x];
      RowChanges(s, s.At(w).x, row.(run := row.run.(task := Some(s.At(w).task))));
    } else if e.SaveFailed? && e.saved {
      RowChanges(s, s.At(w).x, s.rows[s.At(w).x].To(Failed));
    }
    WorkerMoves(s.(rows := t.rows), w, t.At(w));
    assert s.(rows := t.rows).Go(w, t.At(w)) == t;
  }

  lemma NextIsTidy(e: Step, s: State)
    requires Tidy(s) && Enabled(e, s)
    ensures Tidy(Next(e, s))
  {
    hide Refuses, NoneQueued, Independent, Distinct;
    match e
    case StartSubmit(w, x, session, tracked, createdAt) =>
      IdIsTaken(s, x);
      FreshIdIsAlone(s, w, Inserting(x, Row(session, Run(tracked, Ready, createdAt, None))));
      WorkerMoves(s.(ids := s.ids + {x}), w, Inserting(x, Row(session, Run(tracked, Ready, createdAt, None))));
    case StartDispatch(_, _) => StaysAlone(s, e.w, Next(e, s).At(e.w)); WorkerMoves(s, e.w, Next(e, s).At(e.w));
    case StartRelease(_, _) => StaysAlone(s, e.w, Next(e, s).At(e.w)); WorkerMoves(s, e.w, Next(e, s).At(e.w));
    case Look(_, _) => StaysAlone(s, e.w, Next(e, s).At(e.w)); WorkerMoves(s, e.w, Next(e, s).At(e.w));
    case InsertReady(_, _) => InsertIsTidy(e, s);
    case InsertQueued(_, _) => InsertIsTidy(e, s);
    case Claim(w) => ClaimIsTidy(s, w);
    case Enqueue(_, _, _) => EnqueueIsTidy(e, s);
    case Link(_, _) => FinishIsTidy(e, s);
    case SaveFailed(_, _) => FinishIsTidy(e, s);
    case Sync(x, reported) => RowChanges(s, x, s.rows[x].To(reported));
  }

  lemma FreshIdIsAlone(s: State, w: nat, k: Worker)
    requires Tidy(s) && k.Inserting? && k.x !in s.ids
    ensures Alone(s, w, k)
  {
    hide Distinct;
  }

  lemma NextKeepsOneActive(e: Step, s: State)
    requires Tidy(s) && OneActivePerSession(s) && Enabled(e, s)
    ensures OneActivePerSession(Next(e, s))
  {
    hide OldestIn, NoneQueued;
  }

  // ---------------------------------------------------------------- whole runs

  ghost predicate Trace(states: seq<State>, steps: seq<Step>) {
    && |states| == |steps| + 1
    && states[0].rows == map[] && states[0].workers == map[] && states[0].broker == []
    && forall k | 0 <= k < |steps| :: Enabled(steps[k], states[k]) && states[k + 1] == Next(steps[k], states[k])
  }

  lemma {:induction false} TraceIsTidy(states: seq<State>, steps: seq<Step>, n: nat)
    requires Trace(states, steps) && n <= |steps|
    ensures Tidy(states[n]) && OneActivePerSession(states[n])
  {
    hide Enabled, Next, Tidy, OneActivePerSession;
    if n == 0 {
      NothingIsTidy(states[0]);
    } else {
      TraceIsTidy(states, steps, n - 1);
      NextIsTidy(steps[n - 1], states[n - 1]);
      NextKeepsOneActive(steps[n - 1], states[n - 1]);
    }
  }

  lemma NothingIsTidy(s: State)
    requires s.rows == map[] && s.workers == map[] && s.broker == []
    ensures Tidy(s) && OneActivePerSession(s)
  {
  }

  /** Whoever races whom, the broker accepts a task for a run at most once. */
  lemma EnqueuedOnce(states: seq<State>, steps: seq<Step>, n: nat, i: nat, j: nat)
    requires Trace(states, steps) && n <= |steps|
    requires i < |states[n].broker| && j < |states[n].broker| && states[n].broker[i] == states[n].broker[j]
    ensures i == j
  {
    hide Enabled, Next, FitsRows, Independent, OneActivePerSession;
    TraceIsTidy(states, steps, n);
  }

  /** There are never two active API or MCP runs on one session. */
  lemma NeverTwoActive(states: seq<State>, steps: seq<Step>, n: nat, p: nat, q: nat)
    requires Trace(states, steps) && n <= |steps| && p in states[n].rows && q in states[n].rows
    requires states[n].rows[p].session == states[n].rows[q].session
    requires states[n].rows[p].run.tracked && states[n].rows[q].run.tracked
    requires states[n].rows[p].run.status in {Ready, Running} && states[n].rows[q].run.status in {Ready, Running}
    ensures p == q
  {
    hide Enabled, Next, Tidy;
    TraceIsTidy(states, steps, n);
  }

  predicate Left(s: State, x: nat) {
    x in s.rows && !s.rows[x].run.status.Queued?
  }

  lemma NextNeverRequeues(e: Step, s: State, x: nat)
    requires Tidy(s) && Enabled(e, s) && Left(s, x)
    ensures Left(Next(e, s), x)
  {
    hide Refuses, Independent, Distinct, OldestIn, NoneQueued;
  }

  /** A run that is not queued never is again. */
  lemma {:induction false} NeverRequeued(states: seq<State>, steps: seq<Step>, i: nat, j: nat, x: nat)
    requires Trace(states, steps) && i <= j <= |steps| && Left(states[i], x)
    ensures Left(states[j], x)
  {
    hide Enabled, Next, Tidy, Left, OneActivePerSession;
    if i < j {
      NeverRequeued(states, steps, i, j - 1, x);
      TraceIsTidy(states, steps, j - 1);
      NextNeverRequeues(steps[j - 1], states[j - 1], x);
    }
  }

  /** A row keeps its session, its kind and its age through every statement. */
  lemma NextKeepsFacts(e: Step, s: State, x: nat)
    requires Tidy(s) && Enabled(e, s) && x in s.rows
    ensures x in Next(e, s).rows
    ensures var was, row := s.rows[x], Next(e, s).rows[x];
            row.session == was.session && row.run.tracked == was.run.tracked && row.run.createdAt == was.run.createdAt
  {
    hide Refuses, Independent, Distinct, OldestIn, NoneQueued;
  }

  /** A sync gives the row the status reported, unless another tracked run of its session is ready or running and
      the status is one of the two; nobody else's row or place changes. */
  lemma SyncRow(s: State, x: nat, reported: Status)
    requires Enabled(Step.Sync(x, reported), s)
    ensures var t, was := Next(Step.Sync(x, reported), s), s.rows[x];
            var clash := was.run.tracked && reported in {Ready, Running}
              && exists q | q in s.rows && q != x ::
                   && s.rows[q].session == was.session && s.rows[q].run.tracked
                   && s.rows[q].run.status in {Ready, Running};
            && t.rows == (if clash then s.rows else s.rows[x := Row(was.session, was.run.(status := reported))])
            && t.workers == s.workers && t.broker == s.broker
  {
  }

  /** The broker has every run that a row or a worker knows a task of. */
  ghost predicate WithBroker(s: State) {
    && (forall x | x in s.rows && s.rows[x].run.task.Some? :: x in s.broker)
    && (forall w | w in s.workers :: KnowsBroker(s.workers[w], s.broker))
  }

  predicate KnowsBroker(k: Worker, broker: seq<nat>) {
    k.Linking? || (k.Failing? && k.accepted) ==> k.x in broker
  }

  lemma WorkersKnowBroker(e: Step, s: State, w: nat)
    requires Enabled(e, s) && w in Next(e, s).workers && (w in s.workers ==> KnowsBroker(s.workers[w], s.broker))
    ensures KnowsBroker(Next(e, s).workers[w], Next(e, s).broker)
  {
    hide Refuses, OldestIn, NoneQueued;
  }

  lemma RowsKnowBroker(e: Step, s: State, x: nat)
    requires Tidy(s) && WithBroker(s) && Enabled(e, s)
    requires x in Next(e, s).rows && Next(e, s).rows[x].run.task.Some?
    ensures x in Next(e, s).broker
  {
    if e.InsertReady? || e.InsertQueued? || e.Link? {
      assert FitsRows(s, s.workers[e.w]) && KnowsBroker(s.workers[e.w], s.broker);
    }
    hide Tidy, Refuses, OldestIn, NoneQueued;
  }

  lemma NextIsWithBroker(e: Step, s: State)
    requires Tidy(s) && WithBroker(s) && Enabled(e, s)
    ensures WithBroker(Next(e, s))
  {
    hide Tidy, Enabled, Next, KnowsBroker;
    var t := Next(e, s);
    forall w | w in t.workers ensures KnowsBroker(t.workers[w], t.broker) {
      WorkersKnowBroker(e, s, w);
    }
    forall x | x in t.rows && t.rows[x].run.task.Some? ensures x in t.broker {
      RowsKnowBroker(e, s, x);
    }
  }

  /** A row is linked to a task only if the broker accepted one for it. */
  lemma {:induction false} LinkedIsWithBroker(states: seq<State>, steps: seq<Step>, n: nat)
    requires Trace(states, steps) && n <= |steps|
    ensures forall x | x in states[n].rows && states[n].rows[x].run.task.Some? :: x in states[n].broker
    ensures WithBroker(states[n])
  {
    hide Enabled, Next, Tidy, OneActivePerSession;
    if n > 0 {
      LinkedIsWithBroker(states, steps, n - 1);
      TraceIsTidy(states, steps, n - 1);
      NextIsWithBroker(steps[n - 1], states[n - 1]);
    }
  }

  // ---------------------------------------------------------------- every dispatch ends

  /** Whose statement a step is; a sync is nobody's here. */
  predicate Own(e: Step, w: nat) {
    !e.Sync? && e.w == w
  }

  /** How many of the steps from i up to k are w's own. */
  function OwnSteps(steps: seq<Step>, w: nat, i: nat, k: nat): nat
    requires i <= k <= |steps|
  {
    if i == k then 0 else OwnSteps(steps, w, i, k - 1) + if Own(steps[k - 1], w) then 1 else 0
  }

  /** The rows w found oldest in the steps from i up to k. */
  function Seen(steps: seq<Step>, w: nat, i: nat, k: nat): set<nat>
    requires i <= k <= |steps|
  {
    if i == k then {} else
      var e := steps[k - 1];
      Seen(steps, w, i, k - 1) + if Finds(e, w) then {e.oldest.value} else {}
  }

  /** How far a worker is since it last looked. */
  function Rank(k: Worker): nat {
    match k
    case Claiming(_, _) => 1
    case Enqueueing(_, _) => 2
    case Linking(_, _, _) => 3
    case Failing(_, _, _) => 4
    case _ => 0
  }

  predicate Dispatching(k: Worker) {
    k.Looking? || k.Claiming? || k.Enqueueing? || k.Linking? || k.Failing?
  }

  /** Every row seen has left the queue for good, but for the one being claimed. */
  ghost predicate SeenLeft(s: State, w: nat, seen: set<nat>) {
    forall x | x in seen :: x in s.rows && (Left(s, x) || (s.At(w).Claiming? && s.At(w).x == x))
  }

  /** Steps and rows seen so far: each row costs at most five steps. */
  predicate Paid(k: Worker, own: nat, seen: nat) {
    && Dispatching(k)
    && (if k.Looking? then own <= 5 * seen else seen > 0 && own <= 5 * (seen - 1) + Rank(k))
  }

  predicate Finds(e: Step, w: nat) {
    e.Look? && e.w == w && e.oldest.Some?
  }

  lemma PaidStep(e: Step, s: State, w: nat, own: nat, seen: nat)
    requires Enabled(e, s) && Paid(s.At(w), own, seen) && !Next(e, s).At(w).Idle?
    ensures Paid(Next(e, s).At(w), own + if Own(e, w) then 1 else 0, seen + if Finds(e, w) then 1 else 0)
  {
    hide Refuses, NoneQueued, OldestIn;
    if !Own(e, w) {
      assert Next(e, s).At(w) == s.At(w);
    }
  }

  /** What w finds oldest it had not seen before. */
  lemma FindsNew(e: Step, s: State, w: nat, seen: set<nat>)
    requires Enabled(e, s) && Finds(e, w) && SeenLeft(s, w, seen)
    ensures e.oldest.value !in seen
    ensures e.oldest.value in Next(e, s).rows && Next(e, s).At(w).Claiming? && Next(e, s).At(w).x == e.oldest.value
  {
  }

  lemma DispatchStep(e: Step, s: State, w: nat, own: nat, seen: set<nat>)
    requires Tidy(s) && Enabled(e, s) && SeenLeft(s, w, seen) && Paid(s.At(w), own, |seen|)
    requires !Next(e, s).At(w).Idle?
    ensures var found := if Finds(e, w) then {e.oldest.value} else {};
            && SeenLeft(Next(e, s), w, seen + found)
            && Paid(Next(e, s).At(w), own + if Own(e, w) then 1 else 0, |seen + found|)
  {
    SeenStaysLeft(e, s, w, seen);
    PaidStep(e, s, w, own, |seen|);
    if Finds(e, w) {
      FindsNew(e, s, w, seen);
    } else {
      assert seen + {} == seen;
    }
    hide Tidy, Enabled, Next, Paid, Left;
  }

  lemma SeenStaysLeft(e: Step, s: State, w: nat, seen: set<nat>)
    requires Tidy(s) && Enabled(e, s) && SeenLeft(s, w, seen) && !Next(e, s).At(w).Idle?
    ensures SeenLeft(Next(e, s), w, seen)
  {
    hide Tidy;
    var t := Next(e, s);
    forall x | x in seen ensures x in t.rows && (Left(t, x) || (t.At(w).Claiming? && t.At(w).x == x)) {
      if Left(s, x) {
        NextNeverRequeues(e, s, x);
      }
    }
  }

  lemma {:induction false} DispatchIsPaid(states: seq<State>, steps: seq<Step>, w: nat, i: nat, k: nat)
    requires Trace(states, steps) && i <= k <= |steps| && states[i].At(w).Looking?
    requires forall l | i <= l <= k :: !states[l].At(w).Idle?
    ensures SeenLeft(states[k], w, Seen(steps, w, i, k))
    ensures Paid(states[k].At(w), OwnSteps(steps, w, i, k), |Seen(steps, w, i, k)|)
  {
    hide Enabled, Next, Tidy, SeenLeft, Paid, OneActivePerSession, Finds, Own;
    if i == k {
      NothingSeen(states[i], w);
    } else {
      DispatchIsPaid(states, steps, w, i, k - 1);
      TraceIsTidy(states, steps, k - 1);
      assert states[k] == Next(steps[k - 1], states[k - 1]) && !states[k].At(w).Idle?;
      DispatchStep(steps[k - 1], states[k - 1], w, OwnSteps(steps, w, i, k - 1), Seen(steps, w, i, k - 1));
    }
  }

  lemma NothingSeen(s: State, w: nat)
    requires s.At(w).Looking?
    ensures SeenLeft(s, w, {}) && Paid(s.At(w), 0, 0)
  {
  }

  /** A dispatcher's loop is bounded under any interference: from the moment it starts looking until it is idle
      again it takes at most five steps for each row there is. Failed claims are not counted by its failure
      counter, but each of them is on another row that has left the queue for good. */
  lemma DispatchIsBounded(states: seq<State>, steps: seq<Step>, w: nat, i: nat, k: nat)
    requires Trace(states, steps) && i <= k <= |steps| && states[i].At(w).Looking?
    requires forall l | i <= l <= k :: !states[l].At(w).Idle?
    ensures OwnSteps(steps, w, i, k) <= 5 * |states[k].rows|
  {
    DispatchIsPaid(states, steps, w, i, k);
    var seen := Seen(steps, w, i, k);
    hide Trace, OwnSteps, Seen;
    assert seen <= states[k].rows.Keys;
    SubsetSize(seen, states[k].rows.Keys);
  }

  /** And it is never stuck: a worker that is not idle can always take its next step. */
  lemma NeverStuck(states: seq<State>, steps: seq<Step>, n: nat, w: nat)
    requires Trace(states, steps) && n <= |steps| && !states[n].At(w).Idle?
    ensures exists e :: Enabled(e, states[n]) && Own(e, w)
  {
    hide Next, OneActivePerSession, RowsTidy, Apart, Distinct;
    var s := states[n];
    TraceIsTidy(states, steps, n);
    hide Trace;
    assert FitsRows(s, s.workers[w]);
    match s.At(w)
    case Inserting(_, _) => assert Enabled(InsertReady(w, true), s) && Own(InsertReady(w, true), w);
    case InsertingQueued(_, _) => assert Enabled(InsertQueued(w, true), s) && Own(InsertQueued(w, true), w);
    case Looking(session, _) =>
      var oldest := Oldest(s.rows, session);
      assert Enabled(Look(w, oldest), s) && Own(Look(w, oldest), w);
    case Claiming(_, _) => assert Enabled(Claim(w), s) && Own(Claim(w), w);
    case Enqueueing(_, _) => assert Enabled(Enqueue(w, None, false), s) && Own(Enqueue(w, None, false), w);
    case Linking(_, _, _) => assert Enabled(Link(w, true), s) && Own(Link(w, true), w);
    case Failing(_, _, _) => assert Enabled(SaveFailed(w, true), s) && Own(SaveFailed(w, true), w);
  }

  lemma Oldest(rows: map<nat, Row>, session: nat) returns (x: Option<nat>)
    ensures if x.Some? then OldestIn(rows, session, x.value) else NoneQueued(rows, session)
  {
    var queued := map q | q in rows && rows[q].session == session && rows[q].run.status.Queued? :: rows[q].run;
    if queued == map[] {
      x := None;
      assert forall q | q in rows :: q !in queued;
    } else {
      var y := OldestExists(queued, queued.Keys);
      x := Some(y);
      assert forall q | q in rows && rows[q].session == session && rows[q].run.status.Queued? :: q in queued;
    }
  }

  // ---------------------------------------------------------------- undisturbed, it is the atomic queue

  /** The runs of one session. */
  function RunsOf(rows: map<nat, Row>, session: nat): map<nat, Run> {
    map x | x in rows && rows[x].session == session :: rows[x].run
  }

  /** The steps lead from s to t, and all of them are w's. */
  ghost predicate Leads(s: State, steps: seq<Step>, w: nat, t: State)
    decreases |steps|
  {
    if steps == [] then s == t
    else Own(steps[0], w) && Enabled(steps[0], s) && Leads(Next(steps[0], s), steps[1..], w, t)
  }

  lemma {:induction false} LeadsOn(s: State, a: seq<Step>, w: nat, t: State, b: seq<Step>, u: State)
    requires Leads(s, a, w, t) && Leads(t, b, w, u)
    ensures Leads(s, a + b, w, u)
    decreases |a|
  {
    hide Enabled, Next;
    if a == [] {
      assert a + b == b;
    } else {
      LeadsOn(Next(a[0], s), a[1..], w, t, b, u);
      assert (a + b)[1..] == a[1..] + b;
    }
  }

  /** Nothing but the rows of this session and worker w differs. */
  ghost predicate Only(s: State, t: State, w: nat, session: nat) {
    && s.rows.Keys <= t.rows.Keys
    && (forall x | x in t.rows && x !in s.rows :: t.rows[x].session == session)
    && (forall x | x in s.rows :: t.rows[x].session == s.rows[x].session)
    && (forall x | x in s.rows && s.rows[x].session != session :: t.rows[x] == s.rows[x])
    && (forall v | v != w :: t.At(v) == s.At(v))
  }

  /** The statements after w holds a run to enqueue, for each fate of it. */
  function EnqueueingSteps(w: nat, a: Attempt): seq<Step> {
    match a
    case Enqueued(task) => [Enqueue(w, Some(task), true), Link(w, true)]
    case EnqueueFailed(saved) => [Enqueue(w, None, false), SaveFailed(w, saved)]
    case LinkFailed(saved) => [Enqueue(w, Some(0), true), Link(w, false), SaveFailed(w, saved)]
  }

  /** Where a worker goes from one attempt: a run that is enqueued ends it, as does a save that raises for a
      dispatcher. */
  function AfterFate(caller: Caller, a: Attempt): Worker {
    if a.Enqueued? then Idle else Resume(caller, true, a == EnqueueFailed(false))
  }

  lemma EnqueueAlone(s: State, w: nat, x: nat, caller: Caller, a: Attempt) returns (t: State)
    requires s.At(w) == Enqueueing(x, caller) && x in s.rows
    ensures Leads(s, EnqueueingSteps(w, a), w, t) && Only(s, t, w, s.rows[x].session)
    ensures t.rows == s.rows[x := s.rows[x].(run := AfterAttempt(s.rows[x].run, a))]
    ensures t.At(w) == AfterFate(caller, a)
  {
    hide Only;
    var steps := EnqueueingSteps(w, a);
    var s1 := Next(steps[0], s);
    var s2 := Next(steps[1], s1);
    assert s.rows[x := s.rows[x]] == s.rows;
    t := if a.LinkFailed? then Next(steps[2], s2) else s2;
    hide Enabled, Next;
    if a.LinkFailed? {
      assert Leads(t, steps[1..][1..][1..], w, t);
      assert Leads(s2, steps[1..][1..], w, t);
    } else {
      assert Leads(t, steps[1..][1..], w, t);
    }
    assert Leads(s1, steps[1..], w, t);
    OneRowOnly(s, t, w, x);
  }

  lemma OneRowOnly(s: State, t: State, w: nat, x: nat)
    requires x in s.rows && x in t.rows && t.rows == s.rows[x := t.rows[x]]
    requires t.rows[x].session == s.rows[x].session && forall v | v != w :: t.At(v) == s.At(v)
    ensures Only(s, t, w, s.rows[x].session)
  {
  }

  /** What the constraint and the dispatcher's query see of a session. */
  lemma SessionView(rows: map<nat, Row>, session: nat, x: nat)
    ensures OldestIn(rows, session, x) <==> OldestQueued(RunsOf(rows, session), x)
    ensures NoneQueued(rows, session) <==> !HasQueued(RunsOf(rows, session))
    ensures x in rows && rows[x].session == session && rows[x].run.tracked && rows[x].run.status.Queued? ==>
              (Refuses(rows, x, rows[x].To(Ready)) <==> HasActive(RunsOf(rows, session)))
    ensures x !in rows ==> forall run: Run | run.status.Ready? ::
              Refuses(rows, x, Row(session, run)) <==> run.tracked && HasActive(RunsOf(rows, session))
  {
    var runs := RunsOf(rows, session);
    assert forall q :: q in runs <==> q in rows && rows[q].session == session;
  }

  lemma RunsOfPut(rows: map<nat, Row>, session: nat, x: nat, run: Run)
    ensures x in rows ==> rows[x].session == session ==>
              RunsOf(rows[x := rows[x].(run := run)], session) == RunsOf(rows, session)[x := run]
    ensures x !in rows ==> RunsOf(rows[x := Row(session, run)], session) == RunsOf(rows, session)[x := run]
  {
  }

  lemma ClaimAlone(s: State, w: nat, session: nat, failures: nat, x: nat) returns (s1: State, s2: State)
    requires s.At(w) == Looking(session, failures) && OldestIn(s.rows, session, x)
    requires Valid(RunsOf(s.rows, session)) && !HasActive(RunsOf(s.rows, session))
    ensures Enabled(Look(w, Some(x)), s) && s1 == Next(Look(w, Some(x)), s)
    ensures Enabled(Claim(w), s1) && s2 == Next(Claim(w), s1)
    ensures s2.At(w) == Enqueueing(x, Dispatcher(session, failures)) && s2.rows == s.rows[x := s.rows[x].To(Ready)]
    ensures forall v | v != w :: s2.At(v) == s.At(v)
  {
    SessionView(s.rows, session, x);
    QueuedAreTracked(RunsOf(s.rows, session));
    hide HasActive, Refuses, Valid;
    s1 := Next(Look(w, Some(x)), s);
    s2 := Next(Claim(w), s1);
  }

  /** One turn of the dispatcher that finds x oldest on a session without an active run. */
  lemma TurnAlone(s: State, w: nat, session: nat, failures: nat, x: nat, a: Attempt)
      returns (steps: seq<Step>, t: State)
    requires s.At(w) == Looking(session, failures) && OldestIn(s.rows, session, x)
    requires Valid(RunsOf(s.rows, session)) && !HasActive(RunsOf(s.rows, session))
    ensures Leads(s, steps, w, t) && Only(s, t, w, session)
    ensures RunsOf(t.rows, session) ==
            RunsOf(s.rows, session)[x := AfterAttempt(RunsOf(s.rows, session)[x].(status := Ready), a)]
    ensures t.At(w) == AfterFate(Dispatcher(session, failures), a)
  {
    hide Enabled, Next, Valid, HasActive, Refuses, AfterAttempt, AfterFate, EnqueueingSteps, Only;
    var s1, s2 := ClaimAlone(s, w, session, failures, x);
    t := EnqueueAlone(s2, w, x, Dispatcher(session, failures), a);
    RunsOfPut(s.rows, session, x, AfterAttempt(s.rows[x].run.(status := Ready), a));
    assert t.rows == s.rows[x := s.rows[x].(run := AfterAttempt(s.rows[x].run.(status := Ready), a))];
    steps := [Look(w, Some(x)), Claim(w)] + EnqueueingSteps(w, a);
    TwoMore(s, s1, w, Look(w, Some(x)), Claim(w), EnqueueingSteps(w, a), t);
    assert forall v | v != w :: t.At(v) == s2.At(v) by { OnlyMeans(s2, t, w, session); }
    OneRowOnly(s, t, w, x);
  }

  lemma OnlyMeans(s: State, t: State, w: nat, session: nat)
    requires Only(s, t, w, session)
    ensures forall v | v != w :: t.At(v) == s.At(v)
  {
  }

  lemma TwoMore(s: State, s1: State, w: nat, a: Step, b: Step, rest: seq<Step>, t: State)
    requires Own(a, w) && Enabled(a, s) && s1 == Next(a, s) && Own(b, w) && Enabled(b, s1)
    requires Leads(Next(b, s1), rest, w, t)
    ensures Leads(s, [a, b] + rest, w, t)
  {
    hide Enabled, Next, Own;
    var steps := [a, b] + rest;
    assert steps[1..] == [b] + rest && steps[1..][1..] == rest;
    assert Leads(s1, steps[1..], w, t);
  }

  lemma OnlyOn(s: State, t: State, u: State, w: nat, session: nat)
    requires Only(s, t, w, session) && Only(t, u, w, session)
    ensures Only(s, u, w, session)
  {
  }

  /** The last turn of a dispatcher: nothing is queued, or a run of the session is active. */
  lemma LastTurnAlone(s: State, w: nat, session: nat, failures: nat) returns (steps: seq<Step>, t: State)
    requires s.At(w) == Looking(session, failures) && Valid(RunsOf(s.rows, session))
    requires HasQueued(RunsOf(s.rows, session)) ==> HasActive(RunsOf(s.rows, session))
    ensures Leads(s, steps, w, t) && Only(s, t, w, session) && t.rows == s.rows && t.At(w) == Idle
  {
    var oldest := Oldest(s.rows, session);
    var s1 := Next(Look(w, oldest), s);
    SessionView(s.rows, session, if oldest.Some? then oldest.value else 0);
    if oldest.None? {
      steps, t := [Look(w, None)], s1;
      assert Leads(t, steps[1..], w, t);
    } else {
      QueuedAreTracked(RunsOf(s.rows, session));
      assert oldest.value in RunsOf(s.rows, session);
      steps, t := [Look(w, oldest), Claim(w)], Next(Claim(w), s1);
      hide Enabled, Next;
      TwoMore(s, s1, w, Look(w, oldest), Claim(w), [], t);
      assert steps == steps + [];
    }
  }

  /** A dispatcher whose statements nobody else interleaves does what `RunQueue` says a dispatch does; these are the
      turns after some claims that were refused. */
  lemma {:induction false} TurnsAlone(runs: map<nat, Run>, s: State, w: nat, session: nat, fates: nat -> Attempt,
                                      claimed: seq<nat>, attempts: seq<Attempt>)
      returns (steps: seq<Step>, t: State, d: Dispatch)
    requires s.At(w) == Looking(session, |claimed|) && |claimed| < MAX_CONSECUTIVE_DISPATCH_FAILURES
    requires Valid(runs) && Claims(runs, claimed, attempts, RunsOf(s.rows, session))
    requires Valid(RunsOf(s.rows, session)) && forall i | 0 <= i < |attempts| :: Refused(attempts[i])
    ensures Leads(s, steps, w, t) && Only(s, t, w, session) && t.At(w) == Idle
    ensures Dispatched(runs, d, RunsOf(t.rows, session))
    ensures |d.attempts| == |d.claimed| && |attempts| == |claimed| && claimed <= d.claimed && attempts <= d.attempts
    ensures forall i | |claimed| <= i < |d.claimed| :: d.attempts[i] == fates(d.claimed[i])
    decreases MAX_CONSECUTIVE_DISPATCH_FAILURES - |claimed|
  {
    hide Leads, Only, Valid, HasQueued, HasActive, Claims, Dispatched, RunsOf, Resume, Refused;
    if !HasQueued(RunsOf(s.rows, session)) || HasActive(RunsOf(s.rows, session)) {
      steps, t := LastTurnAlone(s, w, session, |claimed|);
      d := Dispatch(claimed, attempts, if HasQueued(RunsOf(s.rows, session)) then Blocked else Drained);
      NothingToClaim(runs, d, RunsOf(s.rows, session));
    } else {
      var first, u, x := ClaimTurn(runs, s, w, session, fates, claimed, attempts);
      TurnEnds(session, |claimed|, fates(x));
      if u.At(w) == Idle {
        steps, t := first, u;
        d := Dispatch(claimed + [x], attempts + [fates(x)], EndOf(fates(x)));
        EndedByLast(runs, d, RunsOf(u.rows, session));
      } else {
        var rest;
        rest, t, d := TurnsAlone(runs, u, w, session, fates, claimed + [x], attempts + [fates(x)]);
        steps := first + rest;
        LeadsOn(s, first, w, u, rest, t);
        OnlyOn(s, u, t, w, session);
        OneLonger(claimed, x, d.claimed);
        OneLonger(attempts, fates(x), d.attempts);
      }
    }
  }

  lemma OneLonger<T>(xs: seq<T>, x: T, ys: seq<T>)
    requires xs + [x] <= ys
    ensures xs <= ys && |xs| < |ys| && ys[|xs|] == x
  {
    assert ys[|xs|] == (xs + [x])[|xs|];
  }

  function EndOf(a: Attempt): End {
    if a.Enqueued? then Released else if Refused(a) then GaveUp else Raised
  }

  /** A dispatcher goes on exactly after a refusal that is not its third. */
  lemma TurnEnds(session: nat, failures: nat, a: Attempt)
    requires failures < MAX_CONSECUTIVE_DISPATCH_FAILURES
    ensures AfterFate(Dispatcher(session, failures), a) ==
            if Refused(a) && failures + 1 < MAX_CONSECUTIVE_DISPATCH_FAILURES
            then Looking(session, failures + 1) else Idle
  {
  }

  lemma ClaimTurn(runs: map<nat, Run>, s: State, w: nat, session: nat, fates: nat -> Attempt, claimed: seq<nat>,
                  attempts: seq<Attempt>) returns (first: seq<Step>, u: State, x: nat)
    requires s.At(w) == Looking(session, |claimed|)
    requires Valid(runs) && Claims(runs, claimed, attempts, RunsOf(s.rows, session))
    requires Valid(RunsOf(s.rows, session)) && forall i | 0 <= i < |attempts| :: Refused(attempts[i])
    requires HasQueued(RunsOf(s.rows, session)) && !HasActive(RunsOf(s.rows, session))
    ensures Leads(s, first, w, u) && Only(s, u, w, session) && Valid(RunsOf(u.rows, session))
    ensures |attempts| == |claimed| && Claims(runs, claimed + [x], attempts + [fates(x)], RunsOf(u.rows, session))
    ensures u.At(w) == AfterFate(Dispatcher(session, |claimed|), fates(x))
  {
    var now := RunsOf(s.rows, session);
    assert |attempts| == |claimed|;
    SomeIsOldest(now);
    x :| x in now && OldestQueued(now, x);
    hide Leads, Only, Valid, HasQueued, HasActive, OldestQueued, Claims, RunsOf, AfterAttempt, AfterFate;
    SessionView(s.rows, session, x);
    first, u := TurnAlone(s, w, session, |claimed|, x, fates(x));
    OneMoreClaim(runs, claimed, attempts, now, x, fates(x));
    ClaimedIsValid(now, x, fates(x));
  }

  lemma NothingToClaim(runs: map<nat, Run>, d: Dispatch, now: map<nat, Run>)
    requires Claims(runs, d.claimed, d.attempts, now) && |d.claimed| < MAX_CONSECUTIVE_DISPATCH_FAILURES
    requires forall i | 0 <= i < |d.attempts| :: Refused(d.attempts[i])
    requires if HasQueued(now) then HasActive(now) && d.end == Blocked else d.end == Drained
    ensures Dispatched(runs, d, now)
  {
  }

  lemma EndedByLast(runs: map<nat, Run>, d: Dispatch, now: map<nat, Run>)
    requires Claims(runs, d.claimed, d.attempts, now) && 0 < |d.claimed| <= MAX_CONSECUTIVE_DISPATCH_FAILURES
    requires var a := d.attempts[|d.claimed| - 1];
             && d.end == EndOf(a)
             && (Refused(a) ==> |d.claimed| == MAX_CONSECUTIVE_DISPATCH_FAILURES)
    ensures Dispatched(runs, d, now)
  {
    hide HasQueued, HasActive;
  }

  lemma ClaimedIsValid(runs: map<nat, Run>, x: nat, a: Attempt)
    requires Valid(runs) && OldestQueued(runs, x) && !HasActive(runs)
    ensures Valid(runs[x := AfterAttempt(runs[x].(status := Ready), a)])
  {
  }

  /** Main result: undisturbed, the dispatcher's single statements amount to the dispatch of `RunQueue`. */
  lemma UndisturbedDispatch(s: State, w: nat, session: nat, fates: nat -> Attempt)
      returns (steps: seq<Step>, t: State, d: Dispatch)
    requires s.At(w) == Looking(session, 0) && Valid(RunsOf(s.rows, session))
    ensures Leads(s, steps, w, t) && Only(s, t, w, session) && t.At(w) == Idle
    ensures Dispatched(RunsOf(s.rows, session), d, RunsOf(t.rows, session))
    ensures forall i | 0 <= i < |d.claimed| :: d.attempts[i] == fates(d.claimed[i])
  {
    hide Leads, Only, Dispatched, Claims;
    NoClaims(RunsOf(s.rows, session));
    steps, t, d := TurnsAlone(RunsOf(s.rows, session), s, w, session, fates, [], []);
  }

  lemma NewRowOnly(s: State, t: State, w: nat, x: nat, session: nat)
    requires || t.rows == s.rows
             || (x !in s.rows && x in t.rows && t.rows == s.rows[x := t.rows[x]] && t.rows[x].session == session)
    requires forall v | v != w :: t.At(v) == s.At(v)
    ensures Only(s, t, w, session)
  {
  }

  /** The statements up to the insert: the run is stored as ready, or as queued behind an active one, or not at all. */
  lemma InsertAlone(s: State, w: nat, x: nat, session: nat, tracked: bool, createdAt: int, stored: bool)
      returns (steps: seq<Step>, t: State)
    requires s.At(w) == Idle && x !in s.ids && x !in s.rows
    ensures Leads(s, steps, w, t) && Only(s, t, w, session)
    ensures var queued := tracked && HasActive(RunsOf(s.rows, session));
            var row := Row(session, Run(tracked, if queued then Queued else Ready, createdAt, None));
            && t.rows == (if stored then s.rows[x := row] else s.rows)
            && t.At(w) == if stored && !queued then Enqueueing(x, Submitter(session)) else Idle
  {
    var row := Row(session, Run(tracked, Ready, createdAt, None));
    SessionView(s.rows, session, x);
    var start := StartSubmit(w, x, session, tracked, createdAt);
    var s1 := Next(start, s);
    assert s1.At(w) == Inserting(x, row) && s1.rows == s.rows;
    var s2 := Next(InsertReady(w, stored), s1);
    if Refuses(s.rows, x, row) {
      t := Next(InsertQueued(w, stored), s2);
      steps := [start, InsertReady(w, stored)] + [InsertQueued(w, stored)];
      hide Refuses, HasActive;
      NewRowOnly(s, t, w, x, session);
      assert Leads(t, [], w, t);
      assert [InsertQueued(w, stored)][1..] == [];
      TwoMore(s, s1, w, start, InsertReady(w, stored), [InsertQueued(w, stored)], t);
    } else {
      t := s2;
      steps := [start, InsertReady(w, stored)] + [];
      hide Refuses, HasActive;
      NewRowOnly(s, t, w, x, session);
      TwoMore(s, s1, w, start, InsertReady(w, stored), [], t);
    }
  }

  /** Main result: undisturbed, a submitter's single statements, with those of the dispatch that follows a refusal,
      amount to the submit of `RunQueue`. */
  lemma UndisturbedSubmit(s: State, w: nat, x: nat, session: nat, tracked: bool, createdAt: int, stored: bool,
                          attempt: Attempt, fates: nat -> Attempt, gaveUp: bool)
      returns (steps: seq<Step>, t: State, d: Dispatch, after: Queue)
    requires s.At(w) == Idle && x !in s.ids && x !in s.rows && Valid(RunsOf(s.rows, session))
    ensures Leads(s, steps, w, t) && Only(s, t, w, session) && t.At(w) == Idle
    ensures after.runs == RunsOf(t.rows, session)
    ensures RunQueue.Step(Queue(RunsOf(s.rows, session), gaveUp),
                          Event.Submit(x, tracked, createdAt, stored, attempt, d), after)
  {
    hide Leads, Only, HasActive, Dispatched, Valid, RunsOf, AfterAttempt, EnqueueingSteps;
    var first, u := InsertAlone(s, w, x, session, tracked, createdAt, stored);
    var runs := RunsOf(s.rows, session);
    assert x !in runs by { NotThere(s.rows, session, x); }
    d := Dispatch([], [], Drained);
    if u.At(w) == Idle {
      steps, t := first, u;
      after := Queue(RunsOf(t.rows, session), gaveUp);
      RunsOfPut(s.rows, session, x, Run(tracked, Queued, createdAt, None));
    } else {
      var run := Run(tracked, Ready, createdAt, None);
      var v := EnqueueAlone(u, w, x, Submitter(session), attempt);
      LeadsOn(s, first, w, u, EnqueueingSteps(w, attempt), v);
      OnlyOn(s, u, v, w, session);
      RunsOfPut(s.rows, session, x, AfterAttempt(run, attempt));
      assert v.rows == s.rows[x := Row(session, AfterAttempt(run, attempt))];
      if attempt.Enqueued? {
        steps, t := first + EnqueueingSteps(w, attempt), v;
        after := Queue(RunsOf(t.rows, session), gaveUp);
      } else {
        StartedIsValid(runs, x, run, attempt);
        var rest;
        rest, t, d := UndisturbedDispatch(v, w, session, fates);
        steps := first + EnqueueingSteps(w, attempt) + rest;
        LeadsOn(s, first + EnqueueingSteps(w, attempt), w, v, rest, t);
        OnlyOn(s, v, t, w, session);
        after := Queue(RunsOf(t.rows, session), d.end.GaveUp?);
      }
    }
  }

  lemma NotThere(rows: map<nat, Row>, session: nat, x: nat)
    requires x !in rows
    ensures x !in RunsOf(rows, session)
  {
  }

  lemma StartedIsValid(runs: map<nat, Run>, x: nat, run: Run, a: Attempt)
    requires Valid(runs) && x !in runs && run.status == Ready && !(run.tracked && HasActive(runs))
    ensures Valid(runs[x := AfterAttempt(run, a)])
  {
    ReadyIsValid(runs, x, AfterAttempt(run, a));
  }

  /** Main result: undisturbed, the release command on the oldest queued run of a session where nothing is ready or
      running amounts to that of `RunQueue`. */
  lemma UndisturbedRelease(s: State, w: nat, x: nat, session: nat, attempt: Attempt, gaveUp: bool)
      returns (steps: seq<Step>, t: State)
    requires s.At(w) == Idle && OldestIn(s.rows, session, x) && Valid(RunsOf(s.rows, session))
    requires NoneActive(RunsOf(s.rows, session))
    ensures Leads(s, steps, w, t) && Only(s, t, w, session) && t.At(w) == Idle
    ensures RunQueue.Step(Queue(RunsOf(s.rows, session), gaveUp), Event.ReleaseOrphan(x, attempt),
                          Queue(RunsOf(t.rows, session), gaveUp))
  {
    assert OldestQueued(RunsOf(s.rows, session), x) by { SessionView(s.rows, session, x); }
    hide Leads, Valid, NoneActive, Only, OldestIn, OldestQueued, RunsOf;
    steps, t := ReleaseAlone(s, w, x, session, attempt);
  }

  lemma ReleaseAlone(s: State, w: nat, x: nat, session: nat, attempt: Attempt) returns (steps: seq<Step>, t: State)
    requires s.At(w) == Idle && OldestIn(s.rows, session, x) && Valid(RunsOf(s.rows, session))
    requires NoneActive(RunsOf(s.rows, session))
    ensures Leads(s, steps, w, t) && Only(s, t, w, session) && t.At(w) == Idle
    ensures RunsOf(t.rows, session) ==
            RunsOf(s.rows, session)[x := AfterAttempt(RunsOf(s.rows, session)[x].(status := Ready), attempt)]
  {
    hide Enabled, Next, Valid, NoneActive, Refuses, AfterAttempt, EnqueueingSteps, Only;
    var s1, s2 := ReleaseClaims(s, w, x, session);
    t := EnqueueAlone(s2, w, x, Releaser, attempt);
    RunsOfPut(s.rows, session, x, AfterAttempt(s.rows[x].run.(status := Ready), attempt));
    assert t.rows == s.rows[x := s.rows[x].(run := AfterAttempt(s.rows[x].run.(status := Ready), attempt))];
    steps := [StartRelease(w, x), Claim(w)] + EnqueueingSteps(w, attempt);
    TwoMore(s, s1, w, StartRelease(w, x), Claim(w), EnqueueingSteps(w, attempt), t);
    assert forall v | v != w :: t.At(v) == s2.At(v) by { OnlyMeans(s2, t, w, session); }
    OneRowOnly(s, t, w, x);
  }

  lemma ReleaseClaims(s: State, w: nat, x: nat, session: nat) returns (s1: State, s2: State)
    requires s.At(w) == Idle && OldestIn(s.rows, session, x) && Valid(RunsOf(s.rows, session))
    requires NoneActive(RunsOf(s.rows, session))
    ensures Enabled(StartRelease(w, x), s) && s1 == Next(StartRelease(w, x), s)
    ensures Enabled(Claim(w), s1) && s2 == Next(Claim(w), s1)
    ensures x in s.rows && s.rows[x].session == session
    ensures s2.At(w) == Enqueueing(x, Releaser) && s2.rows == s.rows[x := s.rows[x].To(Ready)]
    ensures forall v | v != w :: s2.At(v) == s.At(v)
  {
    SessionView(s.rows, session, x);
    QueuedAreTracked(RunsOf(s.rows, session));
    assert !HasActive(RunsOf(s.rows, session));
    hide HasActive, Refuses, Valid, NoneActive;
    s1 := Next(StartRelease(w, x), s);
    s2 := Next(Claim(w), s1);
  }
}
