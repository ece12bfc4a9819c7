/** The notifications of one batch: siblings write their envelopes and emit, in any interleaving, with
    crashes and the re-drive sweep as backstop. Instants are seconds on one clock. */
module BatchRollup {
  import opened Common

  datatype Verdict = AllClear | FoundIssues | NeedsAttention | FailedRun

  predicate NotifyWorthy(v: Verdict) {
    !v.AllClear?
  }

  /** The key a notification is unique on, beside its recipient. */
  datatype Source = RunSource(x: nat, scheduled: bool) | BatchSource

  /** `emitter` is the run whose emit created the row. */
  datatype Notification = Notification(recipient: nat, source: Source, emitter: nat)

  datatype Sibling = Sibling(envelope: Option<Verdict>, muted: bool, finishedAt: Option<int>, scheduled: bool)

  /** RECLASSIFY_MAX_AGE */
  const MAX_AGE: int := 24 * 60 * 60

  predicate InWindow(sib: Sibling, now: int) {
    sib.finishedAt.Some? && sib.finishedAt.value >= now - MAX_AGE
  }

  /** `notification_source_for_run`, for a run that carries a batch id. */
  function SourceFor(x: nat, sib: Sibling, total: nat): Source {
    if total > 1 then BatchSource else RunSource(x, sib.scheduled)
  }

  predicate HasRow(rows: seq<Notification>, r: nat, source: Source) {
    exists i | 0 <= i < |rows| :: rows[i].recipient == r && rows[i].source == source
  }

  /** The unique constraint makes a repeated insert a no-op. */
  function Inserted(rows: seq<Notification>, n: Notification): seq<Notification> {
    if HasRow(rows, n.recipient, n.source) then rows else rows + [n]
  }

  function Classified(siblings: map<nat, Sibling>): set<nat> {
    set x | x in siblings && siblings[x].envelope.Some?
  }

  predicate AllWritten(siblings: map<nat, Sibling>) {
    forall x | x in siblings :: siblings[x].envelope.Some?
  }

  predicate Worthy(sib: Sibling) {
    sib.envelope.Some? && NotifyWorthy(sib.envelope.value)
  }

  predicate Notable(siblings: map<nat, Sibling>) {
    exists x | x in siblings :: Worthy(siblings[x])
  }

  // ---------------------------------------------------------------- steps

  /** How far one emit is: before it opens; after it read the number of siblings; after it found all of
      them classified; inserting rows. */
  datatype Emit =
    | Idle
    | Begun(x: nat)
    | Counting(x: nat, total: nat)
    | Deciding(x: nat)
    | Delivering(x: nat, source: Source, todo: set<nat>)

  /** `missed`: since all envelopes were there or the last re-drive, some emit crashed, failed to insert a row,
      or was dropped because its run is muted or outside the relevance window. */
  datatype State = State(
    siblings: map<nat, Sibling>,
    recipients: set<nat>,
    emits: map<nat, Emit>,
    rows: seq<Notification>,
    clock: int,
    missed: bool)
  {
    function At(p: nat): Emit {
      if p in emits then emits[p] else Idle
    }

    function Go(p: nat, k: Emit): State {
      this.(emits := emits[p := k])
    }

    function Drop(p: nat): State {
      this.(emits := emits[p := Idle], missed := true)
    }
  }

  datatype Step =
    | Tick(seconds: nat)
    | Create(x: nat, muted: bool, scheduled: bool)
    | Finish(x: nat, at: int)
    | Write(p: nat, x: nat, verdict: Verdict)
    | Open(p: nat)
    | Count(p: nat)
    | Decide(p: nat)
    | Insert(p: nat, r: nat, ok: bool)
    | Crash(p: nat)
    | Redrive(p: nat, x: nat)

  /** The sweep re-emits for x: notable, in the window, unmuted, its whole batch classified, and some
      recipient still without the row. */
  predicate NeedsRedrive(siblings: map<nat, Sibling>, recipients: set<nat>, rows: seq<Notification>, now: int, x: nat) {
    && x in siblings && Worthy(siblings[x]) && InWindow(siblings[x], now) && !siblings[x].muted
    && (|siblings| > 1 ==> |Classified(siblings)| >= |siblings|)
    && exists r | r in recipients :: !HasRow(rows, r, SourceFor(x, siblings[x], |siblings|))
  }

  predicate Enabled(e: Step, s: State) {
    match e
    case Tick(_) => true
    case Create(x, _, _) => x !in s.siblings
    case Finish(x, at) => x in s.siblings && s.siblings[x].finishedAt.None? && at <= s.clock
    case Write(p, x, _) => s.At(p).Idle? && x in s.siblings && s.siblings[x].envelope.None?
    case Open(p) => s.At(p).Begun? && s.At(p).x in s.siblings
    case Count(p) => s.At(p).Counting?
    case Decide(p) => s.At(p).Deciding? && s.At(p).x in s.siblings
    case Insert(p, r, _) => s.At(p).Delivering? && r in s.At(p).todo
    case Crash(p) => !s.At(p).Idle?
    case Redrive(p, x) => s.At(p).Idle? && NeedsRedrive(s.siblings, s.recipients, s.rows, s.clock, x)
  }

  function Next(e: Step, s: State): State
    requires Enabled(e, s)
  {
    match e
    case Tick(seconds) => s.(clock := s.clock + seconds)
    case Create(x, muted, scheduled) => s.(siblings := s.siblings[x := Sibling(None, muted, None, scheduled)])
    case Finish(x, at) => s.(siblings := s.siblings[x := s.siblings[x].(finishedAt := Some(at))])
    case Write(p, x, verdict) =>
      var after := s.siblings[x := s.siblings[x].(envelope := Some(verdict))];
      s.(siblings := after, missed := s.missed && !AllWritten(after)).Go(p, Begun(x))
    case Open(p) =>
      var x := s.At(p).x;
      var sib := s.siblings[x];
      if !InWindow(sib, s.clock) then s.Drop(p)
      else if |s.siblings| > 1 then s.Go(p, Counting(x, |s.siblings|))
      else if Worthy(sib) && !sib.muted then s.Go(p, Delivering(x, SourceFor(x, sib, 1), s.recipients))
      else s.Go(p, Idle)
    case Count(p) =>
      var Counting(x, total) := s.At(p);
      s.Go(p, if |Classified(s.siblings)| < total then Idle else Deciding(x))
    case Decide(p) =>
      var x := s.At(p).x;
      if !Notable(s.siblings) then s.Go(p, Idle)
      else if s.siblings[x].muted then s.Drop(p)
      else s.Go(p, Delivering(x, BatchSource, s.recipients))
    case Insert(p, r, ok) =>
      var Delivering(x, source, todo) := s.At(p);
      var t := s.Go(p, Delivering(x, source, todo - {r}));
      if ok then t.(rows := Inserted(s.rows, Notification(r, source, x))) else t.(missed := true)
    case Crash(p) => s.Drop(p)
    case Redrive(p, x) => s.(missed := s.missed && |s.siblings| <= 1).Go(p, Begun(x))
  }

  ghost predicate Trace(states: seq<State>, steps: seq<Step>) {
    && |states| == |steps| + 1
    && states[0].siblings == map[] && states[0].emits == map[] && states[0].rows == [] && !states[0].missed
    && forall k | 0 <= k < |steps| :: Enabled(steps[k], states[k]) && states[k + 1] == Next(steps[k], states[k])
  }

  // ---------------------------------------------------------------- what every state keeps

  /** An emit belongs to a classified run; a roll-up is only ever for a batch with something notable, on
      behalf of an unmuted run. */
  predicate Sound(s: State, k: Emit) {
    && (!k.Idle? ==> k.x in s.siblings && s.siblings[k.x].envelope.Some?)
    && (k.Counting? ==> 1 < k.total <= |s.siblings|)
    && (k.Delivering? ==> k.todo <= s.recipients)
    && (k.Delivering? && k.source.BatchSource? ==> Justified(s, k.x))
  }

  predicate Justified(s: State, x: nat) {
    Notable(s.siblings) && x in s.siblings && !s.siblings[x].muted
  }

  ghost predicate OnePerKey(rows: seq<Notification>) {
    forall i, j | 0 <= i < j < |rows| :: !(rows[i].recipient == rows[j].recipient && rows[i].source == rows[j].source)
  }

  ghost predicate Coherent(s: State) {
    && OnePerKey(s.rows)
    && (forall p | p in s.emits :: Sound(s, s.emits[p]))
    && (forall i | 0 <= i < |s.rows| && s.rows[i].source.BatchSource? :: Justified(s, s.rows[i].emitter))
  }

  /** This emit will still insert the roll-up for r, unless it is dropped. */
  predicate Promises(s: State, k: Emit, r: nat) {
    k.Begun? || k.Counting? || k.Deciding? || (k.Delivering? && k.source.BatchSource? && r in k.todo)
  }

  ghost predicate Owed(s: State, r: nat) {
    exists p :: p in s.emits && Promises(s, s.emits[p], r)
  }

  /** The batch is complete and has something to say. */
  predicate Due(s: State) {
    |s.siblings| > 1 && AllWritten(s.siblings) && Notable(s.siblings)
  }

  ghost predicate Covered(s: State, r: nat) {
    HasRow(s.rows, r, BatchSource) || Owed(s, r)
  }

  /** While no emit was lost, whoever lacks the roll-up of a complete batch has an emit under way. */
  ghost predicate NothingLost(s: State) {
    Due(s) && !s.missed ==> forall r | r in s.recipients :: Covered(s, r)
  }

  /** Siblings only gain envelopes and finishing times. */
  predicate Grows(a: map<nat, Sibling>, b: map<nat, Sibling>) {
    forall x | x in a ::
      && x in b && b[x].muted == a[x].muted && b[x].scheduled == a[x].scheduled
      && (a[x].envelope.Some? ==> b[x].envelope == a[x].envelope)
      && (a[x].finishedAt.Some? ==> b[x].finishedAt == a[x].finishedAt)
  }

  lemma SiblingsGrow(e: Step, s: State)
    requires Enabled(e, s)
    ensures Grows(s.siblings, Next(e, s).siblings) && Next(e, s).recipients == s.recipients
  {
    hide HasRow, Inserted, NeedsRedrive, InWindow, Notable, AllWritten;
  }

  lemma NextGrows(e: Step, s: State)
    requires Enabled(e, s)
    ensures Grows(s.siblings, Next(e, s).siblings) && Next(e, s).recipients == s.recipients
    ensures |s.siblings| <= |Next(e, s).siblings|
    ensures Notable(s.siblings) ==> Notable(Next(e, s).siblings)
  {
    SiblingsGrow(e, s);
    var t := Next(e, s);
    hide HasRow, Inserted, NeedsRedrive, InWindow, Enabled, Next;
    SubsetSize(s.siblings.Keys, t.siblings.Keys);
    if x :| x in s.siblings && Worthy(s.siblings[x]) {
      assert x in t.siblings && Worthy(t.siblings[x]);
    }
  }

  lemma InsertedKeepsOne(rows: seq<Notification>, n: Notification)
    requires OnePerKey(rows)
    ensures OnePerKey(Inserted(rows, n))
    ensures HasRow(Inserted(rows, n), n.recipient, n.source)
    ensures forall r, source | HasRow(rows, r, source) :: HasRow(Inserted(rows, n), r, source)
    ensures forall m | m in Inserted(rows, n) :: m in rows || m == n
  {
    var after := Inserted(rows, n);
    assert !HasRow(rows, n.recipient, n.source) ==> after[|rows|] == n;
    forall r, source | HasRow(rows, r, source) ensures HasRow(after, r, source) {
      var i :| 0 <= i < |rows| && rows[i].recipient == r && rows[i].source == source;
      assert after[i] == rows[i];
    }
  }

  /** An emit that was sound stays so while siblings grow. */
  lemma StaysSound(s: State, t: State, k: Emit)
    requires Sound(s, k) && Grows(s.siblings, t.siblings) && |s.siblings| <= |t.siblings|
    requires t.recipients == s.recipients && (Notable(s.siblings) ==> Notable(t.siblings))
    ensures Sound(t, k)
  {
    hide Notable;
  }

  lemma NextKeepsRows(e: Step, s: State)
    requires Coherent(s) && Enabled(e, s)
    ensures OnePerKey(Next(e, s).rows)
    ensures forall i | 0 <= i < |Next(e, s).rows| && Next(e, s).rows[i].source.BatchSource? ::
              Justified(Next(e, s), Next(e, s).rows[i].emitter)
  {
    hide Notable, HasRow, NeedsRedrive, InWindow, OnePerKey, Inserted;
    NextGrows(e, s);
    var t := Next(e, s);
    if e.Insert? && e.ok {
      var k := s.At(e.p);
      InsertedKeepsOne(s.rows, Notification(e.r, k.source, k.x));
      assert Sound(s, k);
    }
    forall i | 0 <= i < |t.rows| && t.rows[i].source.BatchSource? ensures Justified(t, t.rows[i].emitter) {
      assert t.rows[i] in t.rows;
    }
  }

  lemma OpenIsSound(s: State, p: nat)
    requires Coherent(s) && Enabled(Open(p), s)
    ensures Sound(Next(Open(p), s), Next(Open(p), s).emits[p])
  {
    hide Notable, HasRow, InWindow, OnePerKey, Inserted, Justified, Worthy;
    assert Sound(s, s.emits[p]);
  }

  /** What the emit a step moves becomes. */
  lemma MovedIsSound(e: Step, s: State, p: nat)
    requires Coherent(s) && Enabled(e, s) && p in Next(e, s).emits
    ensures Sound(Next(e, s), Next(e, s).emits[p])
  {
    hide Notable, HasRow, InWindow, OnePerKey, Inserted, AllWritten;
    NextGrows(e, s);
    var t := Next(e, s);
    if p in s.emits && t.emits[p] == s.emits[p] {
      hide Next, Enabled, Sound;
      StaysSound(s, t, s.emits[p]);
    } else if e.Open? {
      OpenIsSound(s, e.p);
    } else if p in s.emits {
      hide Grows;
      assert Sound(s, s.emits[p]);
    }
  }

  lemma NextIsCoherent(e: Step, s: State)
    requires Coherent(s) && Enabled(e, s)
    ensures Coherent(Next(e, s))
  {
    hide Sound, Justified, OnePerKey;
    NextKeepsRows(e, s);
    forall p | p in Next(e, s).emits ensures Sound(Next(e, s), Next(e, s).emits[p]) {
      MovedIsSound(e, s, p);
    }
  }

  lemma ClassifiedIsAll(siblings: map<nat, Sibling>)
    requires AllWritten(siblings)
    ensures |Classified(siblings)| == |siblings|
  {
    assert Classified(siblings) == siblings.Keys;
  }

  /** The emit that a step moves keeps its promise or fulfils it. */
  lemma PromiseMoves(e: Step, s: State, p: nat, r: nat)
    requires Coherent(s) && Enabled(e, s) && Due(s) && !Next(e, s).missed
    requires p in s.emits && Promises(s, s.emits[p], r) && r in s.recipients
    ensures Covered(Next(e, s), r)
  {
    hide InWindow, OnePerKey, Inserted, HasRow, Notable;
    var t := Next(e, s);
    if t.At(p) == s.At(p) {
      assert p in t.emits && Promises(t, t.emits[p], r);
    } else {
      assert Sound(s, s.emits[p]);
      ClassifiedIsAll(s.siblings);
      if e.Insert? && e.r == r {
        InsertedKeepsOne(s.rows, Notification(r, s.At(p).source, s.At(p).x));
      } else {
        assert p in t.emits && Promises(t, t.emits[p], r);
      }
    }
  }

  lemma RowsStay(e: Step, s: State, r: nat, source: Source)
    requires Coherent(s) && Enabled(e, s) && HasRow(s.rows, r, source)
    ensures HasRow(Next(e, s).rows, r, source)
  {
    hide Inserted, HasRow, InWindow, Notable, NeedsRedrive;
    if e.Insert? && e.ok {
      InsertedKeepsOne(s.rows, Notification(e.r, s.At(e.p).source, s.At(e.p).x));
    }
  }

  lemma NewIsUnwritten(e: Step, s: State)
    requires Enabled(e, s) && e.Create?
    ensures !AllWritten(Next(e, s).siblings)
  {
    assert Next(e, s).siblings[e.x].envelope.None?;
  }

  lemma DueBefore(e: Step, s: State)
    requires Enabled(e, s) && Due(Next(e, s)) && !e.Write?
    ensures Due(s)
  {
    hide InWindow, HasRow, NeedsRedrive, Inserted;
    var t := Next(e, s);
    if e.Create? {
      NewIsUnwritten(e, s);
    } else if e.Finish? {
      assert t.siblings.Keys == s.siblings.Keys;
      assert forall x | x in s.siblings :: t.siblings[x].envelope == s.siblings[x].envelope;
      var x :| x in t.siblings && Worthy(t.siblings[x]);
      assert Worthy(s.siblings[x]);
    }
  }

  lemma NextLosesNothing(e: Step, s: State)
    requires Coherent(s) && NothingLost(s) && Enabled(e, s)
    ensures NothingLost(Next(e, s))
  {
    hide Coherent, HasRow, InWindow, Notable, Inserted, Due;
    var t := Next(e, s);
    if Due(t) && !t.missed {
      forall r | r in t.recipients ensures Covered(t, r) {
        if e.Write? || (e.Redrive? && |s.siblings| > 1) {
          assert e.p in t.emits && Promises(t, t.emits[e.p], r);
        } else {
          DueBefore(e, s);
          NotMissedBefore(e, s);
          assert Covered(s, r);
          if HasRow(s.rows, r, BatchSource) {
            RowsStay(e, s, r, BatchSource);
          } else {
            var p :| p in s.emits && Promises(s, s.emits[p], r);
            PromiseMoves(e, s, p, r);
          }
        }
      }
    }
  }

  lemma NotMissedBefore(e: Step, s: State)
    requires Enabled(e, s) && !Next(e, s).missed && Due(s)
    requires !e.Write? && !(e.Redrive? && |s.siblings| > 1)
    ensures !s.missed
  {
  }

  lemma {:induction false} TraceIsCoherent(states: seq<State>, steps: seq<Step>, n: nat)
    requires Trace(states, steps) && n <= |steps|
    ensures Coherent(states[n]) && NothingLost(states[n])
  {
    hide Enabled, Next, Coherent, NothingLost;
    if n == 0 {
      NothingYet(states[0]);
    } else {
      TraceIsCoherent(states, steps, n - 1);
      NextIsCoherent(steps[n - 1], states[n - 1]);
      NextLosesNothing(steps[n - 1], states[n - 1]);
    }
  }

  lemma NothingYet(s: State)
    requires s.siblings == map[] && s.emits == map[] && s.rows == []
    ensures Coherent(s) && NothingLost(s)
  {
  }

  // ---------------------------------------------------------------- main results

  function RowCount(rows: seq<Notification>, r: nat, source: Source): nat {
    if rows == [] then 0 else
      RowCount(rows[1..], r, source) + if rows[0].recipient == r && rows[0].source == source then 1 else 0
  }

  lemma {:induction false} CountMeans(rows: seq<Notification>, r: nat, source: Source)
    requires OnePerKey(rows)
    ensures RowCount(rows, r, source) == if HasRow(rows, r, source) then 1 else 0
  {
    if rows != [] {
      CountMeans(rows[1..], r, source);
      if HasRow(rows[1..], r, source) {
        var i :| 0 <= i < |rows[1..]| && rows[1..][i].recipient == r && rows[1..][i].source == source;
        assert rows[i + 1] == rows[1..][i];
      }
      if HasRow(rows, r, source) {
        var i :| 0 <= i < |rows| && rows[i].recipient == r && rows[i].source == source;
        if i > 0 {
          assert rows[1..][i - 1] == rows[i];
        }
      }
    }
  }

  /** No emit is under way. */
  predicate Settled(s: State) {
    forall p | p in s.emits :: s.emits[p].Idle? || (s.emits[p].Delivering? && s.emits[p].todo == {})
  }

  /** Every classified run is unmuted and in the relevance window. */
  predicate Healthy(s: State) {
    forall x | x in s.siblings && s.siblings[x].envelope.Some? ::
      !s.siblings[x].muted && InWindow(s.siblings[x], s.clock)
  }

  predicate Failure(e: Step) {
    e.Crash? || (e.Insert? && !e.ok)
  }

  lemma {:induction false} NothingMissed(states: seq<State>, steps: seq<Step>, i: nat, n: nat)
    requires Trace(states, steps) && i <= n <= |steps| && !states[i].missed
    requires forall k | i <= k < n :: Healthy(states[k]) && !Failure(steps[k])
    ensures !states[n].missed
  {
    hide HasRow, Inserted, NeedsRedrive, Notable, Coherent, NothingLost;
    if i < n {
      NothingMissed(states, steps, i, n - 1);
      TraceIsCoherent(states, steps, n - 1);
      HealthyMissesNothing(steps[n - 1], states[n - 1]);
    }
  }

  lemma HealthyMissesNothing(e: Step, s: State)
    requires Coherent(s) && Enabled(e, s) && Healthy(s) && !Failure(e) && !s.missed
    ensures !Next(e, s).missed
  {
    hide HasRow, Inserted, NeedsRedrive, Notable, OnePerKey, InWindow;
    if (e.Open? || e.Decide?) {
      assert Sound(s, s.emits[e.p]);
    }
  }

  /** The roll-up: when every sibling has its envelope and no emit is under way, each recipient has exactly
      one row if some sibling is notable, and none otherwise. i is the start, or any later point at which
      nothing is missed, such as right after a re-drive; from i on no emit may fail. */
  lemma RollUpExactlyOnce(states: seq<State>, steps: seq<Step>, i: nat, n: nat, r: nat)
    requires Trace(states, steps) && i <= n <= |steps| && !states[i].missed
    requires forall k | i <= k < n :: Healthy(states[k]) && !Failure(steps[k])
    requires |states[n].siblings| > 1 && AllWritten(states[n].siblings) && Settled(states[n])
    requires r in states[n].recipients
    ensures RowCount(states[n].rows, r, BatchSource) == if Notable(states[n].siblings) then 1 else 0
  {
    hide Enabled, Next, Healthy, Failure, Notable;
    var s := states[n];
    TraceIsCoherent(states, steps, n);
    NothingMissed(states, steps, i, n);
    CountMeans(s.rows, r, BatchSource);
    if Notable(s.siblings) {
      assert Covered(s, r);
    }
  }

  /** With every run muted nobody gets a roll-up, whatever happens. */
  lemma MutedIsSilent(states: seq<State>, steps: seq<Step>, n: nat, r: nat)
    requires Trace(states, steps) && n <= |steps|
    requires forall x | x in states[n].siblings :: states[n].siblings[x].muted
    ensures RowCount(states[n].rows, r, BatchSource) == 0
  {
    hide Enabled, Next, Notable, NothingLost;
    TraceIsCoherent(states, steps, n);
    CountMeans(states[n].rows, r, BatchSource);
  }

  /** With every emit outside the relevance window nobody gets anything. */
  lemma {:induction false} LateIsSilent(states: seq<State>, steps: seq<Step>, n: nat)
    requires Trace(states, steps) && n <= |steps|
    requires forall k | 0 <= k < n :: AllLate(states[k])
    ensures states[n].rows == [] && NoneOpened(states[n])
  {
    hide NeedsRedrive, InWindow, Notable, AllWritten;
    if n > 0 {
      LateIsSilent(states, steps, n - 1);
      var s, t := states[n - 1], states[n];
      forall p | p in t.emits ensures t.emits[p].Idle? || t.emits[p].Begun? {
        assert p in s.emits ==> s.emits[p].Idle? || s.emits[p].Begun?;
      }
    }
  }

  predicate NoneOpened(s: State) {
    forall p | p in s.emits :: s.emits[p].Idle? || s.emits[p].Begun?
  }

  predicate AllLate(s: State) {
    forall x | x in s.siblings :: !InWindow(s.siblings[x], s.clock)
  }

  /** After a crash, as long as some notable run is unmuted and in the window, the sweep finds the batch and
      nothing is missed any more. */
  lemma SweepRepairs(s: State, p: nat, x: nat, r: nat)
    requires Due(s) && s.At(p).Idle? && r in s.recipients && !HasRow(s.rows, r, BatchSource)
    requires x in s.siblings && Worthy(s.siblings[x]) && InWindow(s.siblings[x], s.clock) && !s.siblings[x].muted
    ensures Enabled(Redrive(p, x), s) && !Next(Redrive(p, x), s).missed
  {
    hide HasRow, InWindow, Notable;
    ClassifiedIsAll(s.siblings);
    assert SourceFor(x, s.siblings[x], |s.siblings|) == BatchSource;
  }

  /** A delivered roll-up stays the only one, through any number of emits and re-drives, and once everybody
      has it the sweep leaves the batch alone. */
  lemma {:induction false} DeliveredForGood(states: seq<State>, steps: seq<Step>, i: nat, n: nat, r: nat)
    requires Trace(states, steps) && i <= n <= |steps| && HasRow(states[i].rows, r, BatchSource)
    ensures RowCount(states[n].rows, r, BatchSource) == 1
    ensures HasRow(states[n].rows, r, BatchSource)
  {
    hide Enabled, Next, NothingLost, HasRow;
    TraceIsCoherent(states, steps, n);
    CountMeans(states[n].rows, r, BatchSource);
    if i < n {
      DeliveredForGood(states, steps, i, n - 1, r);
      TraceIsCoherent(states, steps, n - 1);
      RowsStay(steps[n - 1], states[n - 1], r, BatchSource);
    }
  }

  lemma SweepIsIdle(s: State, x: nat)
    requires |s.siblings| > 1 && forall r | r in s.recipients :: HasRow(s.rows, r, BatchSource)
    ensures !NeedsRedrive(s.siblings, s.recipients, s.rows, s.clock, x)
  {
    hide HasRow, InWindow;
    assert x in s.siblings ==> SourceFor(x, s.siblings[x], |s.siblings|) == BatchSource;
  }

  // ---------------------------------------------------------------- the code itself

  /** An insert for each recipient in order; it fails for those in `fails`, and the others are tried all the same. */
  function InsertedAll(rows: seq<Notification>, recipients: seq<nat>, fails: set<nat>, source: Source, x: nat)
    : seq<Notification>
  {
    if recipients == [] then rows else
      var n := |recipients| - 1;
      var before := InsertedAll(rows, recipients[..n], fails, source, x);
      if recipients[n] in fails then before else Inserted(before, Notification(recipients[n], source, x))
  }

  /** One emit with nobody in between. */
  function Emitted(rows: seq<Notification>, siblings: map<nat, Sibling>, recipients: seq<nat>, fails: set<nat>,
                   now: int, x: nat): seq<Notification>
    requires x in siblings
  {
    var sib, total := siblings[x], |siblings|;
    if !InWindow(sib, now) || sib.muted then rows
    else if total > 1 then
      if AllWritten(siblings) && Notable(siblings) then InsertedAll(rows, recipients, fails, BatchSource, x) else rows
    else if Worthy(sib) then InsertedAll(rows, recipients, fails, SourceFor(x, sib, total), x)
    else rows
  }

  lemma FewerThanAll(siblings: map<nat, Sibling>)
    ensures |Classified(siblings)| < |siblings| <==> !AllWritten(siblings)
  {
    if AllWritten(siblings) {
      ClassifiedIsAll(siblings);
    } else {
      var x :| x in siblings && siblings[x].envelope.None?;
      SubsetSize(Classified(siblings), siblings.Keys - {x});
    }
  }

  class Notifications {
    var rows: seq<Notification>

    /** `notify` and the dedup around it. */
    method Notify(r: nat, source: Source, x: nat)
      modifies this
      ensures rows == Inserted(old(rows), Notification(r, source, x))
    {
      if !HasRow(rows, r, source) {
        rows := rows + [Notification(r, source, x)];
      }
    }

    /** `fails` are the recipients whose insert raises; the loop goes on to the next. */
    method DeliverToRecipients(recipients: seq<nat>, fails: set<nat>, source: Source, x: nat)
      modifies this
      ensures rows == InsertedAll(old(rows), recipients, fails, source, x)
    {
      hide Inserted;
      for i := 0 to |recipients|
        invariant rows == InsertedAll(old(rows), recipients[..i], fails, source, x)
      {
        assert recipients[..i + 1][..i] == recipients[..i];
        if recipients[i] in fails {
          continue;
        }
        Notify(recipients[i], source, x);
      }
      assert recipients[..|recipients|] == recipients;
    }

    method HandleBatchCompletion(siblings: map<nat, Sibling>, recipients: seq<nat>, fails: set<nat>, x: nat, total: nat)
      requires x in siblings && 1 < total == |siblings|
      modifies this
      ensures rows == if AllWritten(siblings) && Notable(siblings) && !siblings[x].muted
                      then InsertedAll(old(rows), recipients, fails, BatchSource, x) else old(rows)
    {
      hide InsertedAll;
      FewerThanAll(siblings);
      if |Classified(siblings)| < total {
        return;
      }
      var notable := |set y | y in siblings && Worthy(siblings[y])|;
      assert Notable(siblings) <==> notable > 0 by {
        var worthy := set y | y in siblings && Worthy(siblings[y]);
        if y :| y in siblings && Worthy(siblings[y]) {
          assert y in worthy;
        }
        if notable > 0 {
          var y :| y in worthy;
        }
      }
      if notable == 0 || siblings[x].muted {
        return;
      }
      DeliverToRecipients(recipients, fails, SourceFor(x, siblings[x], total), x);
    }

    method EmitRunNotification(siblings: map<nat, Sibling>, recipients: seq<nat>, fails: set<nat>, now: int, x: nat)
      requires x in siblings && siblings[x].envelope.Some?
      modifies this
      ensures rows == Emitted(old(rows), siblings, recipients, fails, now, x)
    {
      hide InsertedAll;
      if !InWindow(siblings[x], now) {
        return;
      }
      var total := |siblings|;
      if total > 1 {
        HandleBatchCompletion(siblings, recipients, fails, x, total);
        return;
      }
      if !NotifyWorthy(siblings[x].envelope.value) || siblings[x].muted {
        return;
      }
      DeliverToRecipients(recipients, fails, SourceFor(x, siblings[x], 1), x);
    }

    /** The sweep over this batch's candidates; it counts the runs whose re-emit left nobody without a row. */
    method RedriveMissing(siblings: map<nat, Sibling>, recipients: seq<nat>, fails: set<nat>, now: int,
                          candidates: seq<nat>) returns (redriven: nat)
      requires forall x | x in candidates :: x in siblings && Worthy(siblings[x])
      modifies this
      ensures (rows, redriven) == Swept(old(rows), siblings, recipients, fails, now, candidates)
    {
      hide Emitted, NeedsRedrive;
      redriven := 0;
      var expected := SetOf(recipients);
      for i := 0 to |candidates|
        invariant (rows, redriven) == Swept(old(rows), siblings, recipients, fails, now, candidates[..i])
      {
        var x := candidates[i];
        assert candidates[..i + 1][..i] == candidates[..i];
        if NeedsRedrive(siblings, expected, rows, now, x) {
          EmitRunNotification(siblings, recipients, fails, now, x);
          if AllHave(rows, recipients, SourceFor(x, siblings[x], |siblings|)) {
            redriven := redriven + 1;
          }
        }
      }
      assert candidates[..|candidates|] == candidates;
    }
  }

  function SetOf(recipients: seq<nat>): (all: set<nat>)
    ensures forall r :: r in all <==> r in recipients
  {
    set r | r in recipients
  }

  predicate AllHave(rows: seq<Notification>, recipients: seq<nat>, source: Source) {
    forall r | r in recipients :: HasRow(rows, r, source)
  }

  function Swept(rows: seq<Notification>, siblings: map<nat, Sibling>, recipients: seq<nat>, fails: set<nat>, now: int,
                 candidates: seq<nat>): (seq<Notification>, nat)
    requires forall x | x in candidates :: x in siblings && Worthy(siblings[x])
  {
    if candidates == [] then (rows, 0) else
      var n := |candidates| - 1;
      var (before, count) := Swept(rows, siblings, recipients, fails, now, candidates[..n]);
      if NeedsRedrive(siblings, SetOf(recipients), before, now, candidates[n])
      then
        var after := Emitted(before, siblings, recipients, fails, now, candidates[n]);
        var source := SourceFor(candidates[n], siblings[candidates[n]], |siblings|);
        (after, count + if AllHave(after, recipients, source) then 1 else 0)
      else (before, count)
  }

  lemma {:induction false} InsertedAllReaches(rows: seq<Notification>, recipients: seq<nat>, fails: set<nat>,
                                              source: Source, x: nat)
    requires OnePerKey(rows)
    ensures OnePerKey(InsertedAll(rows, recipients, fails, source, x))
    ensures forall r | r in recipients && r !in fails ::
              HasRow(InsertedAll(rows, recipients, fails, source, x), r, source)
    ensures forall r, key | HasRow(rows, r, key) :: HasRow(InsertedAll(rows, recipients, fails, source, x), r, key)
  {
    hide HasRow, Inserted, OnePerKey;
    if recipients != [] {
      var n := |recipients| - 1;
      InsertedAllReaches(rows, recipients[..n], fails, source, x);
      InsertedKeepsOne(InsertedAll(rows, recipients[..n], fails, source, x), Notification(recipients[n], source, x));
      assert forall r | r in recipients :: r in recipients[..n] || r == recipients[n];
    }
  }

  /** A sweep completes a batch at most once, however many of its runs are candidates. After it every expected
      recipient has exactly one row if it counted the batch, and everyone whose insert did not fail has exactly one
      if any candidate qualified. */
  lemma {:induction false} SweepOnce(rows: seq<Notification>, siblings: map<nat, Sibling>, recipients: seq<nat>,
                                     fails: set<nat>, now: int, candidates: seq<nat>)
    requires forall x | x in candidates :: x in siblings && Worthy(siblings[x])
    requires |siblings| > 1 && AllWritten(siblings) && OnePerKey(rows)
    ensures var (after, count) := Swept(rows, siblings, recipients, fails, now, candidates);
            && count <= 1 && OnePerKey(after)
            && (count == 0 && SetOf(recipients) !! fails ==> after == rows)
            && (count == 1 ==> forall q | q in recipients :: RowCount(after, q, BatchSource) == 1)
            && ((exists x | x in candidates :: InWindow(siblings[x], now) && !siblings[x].muted) ==>
                  forall q | q in recipients && q !in fails :: RowCount(after, q, BatchSource) == 1)
  {
    hide HasRow, OnePerKey, InWindow, InsertedAll;
    if candidates != [] {
      var n := |candidates| - 1;
      var x := candidates[n];
      SweepOnce(rows, siblings, recipients, fails, now, candidates[..n]);
      var (before, count) := Swept(rows, siblings, recipients, fails, now, candidates[..n]);
      SweptStep(before, siblings, recipients, fails, now, x);
      forall q | q in recipients
        ensures RowCount(before, q, BatchSource) == if HasRow(before, q, BatchSource) then 1 else 0
      {
        CountMeans(before, q, BatchSource);
      }
      assert SourceFor(x, siblings[x], |siblings|) == BatchSource;
    }
  }

  lemma SweptStep(before: seq<Notification>, siblings: map<nat, Sibling>, recipients: seq<nat>, fails: set<nat>,
                  now: int, x: nat)
    requires |siblings| > 1 && AllWritten(siblings) && OnePerKey(before) && x in siblings && Worthy(siblings[x])
    ensures NeedsRedrive(siblings, SetOf(recipients), before, now, x) <==>
            InWindow(siblings[x], now) && !siblings[x].muted
            && exists q | q in recipients :: !HasRow(before, q, BatchSource)
    ensures NeedsRedrive(siblings, SetOf(recipients), before, now, x) ==>
            var after := Emitted(before, siblings, recipients, fails, now, x);
            && OnePerKey(after)
            && (forall q | q in recipients ::
                  RowCount(after, q, BatchSource) == if HasRow(after, q, BatchSource) then 1 else 0)
            && (forall q | q in recipients && q !in fails :: HasRow(after, q, BatchSource))
            && (SetOf(recipients) !! fails ==> AllHave(after, recipients, BatchSource))
  {
    hide HasRow, OnePerKey, InWindow;
    ClassifiedIsAll(siblings);
    InsertedAllReaches(before, recipients, fails, BatchSource, x);
    var after := InsertedAll(before, recipients, fails, BatchSource, x);
    forall q | q in recipients
      ensures RowCount(after, q, BatchSource) == if HasRow(after, q, BatchSource) then 1 else 0
    {
      CountMeans(after, q, BatchSource);
    }
    assert SourceFor(x, siblings[x], |siblings|) == BatchSource;
  }

  lemma {:induction false} InsertedAllAddsOnly(rows: seq<Notification>, recipients: seq<nat>, fails: set<nat>,
                                              source: Source, x: nat, r: nat, key: Source)
    requires !(r in recipients && r !in fails && key == source) && !HasRow(rows, r, key)
    ensures !HasRow(InsertedAll(rows, recipients, fails, source, x), r, key)
  {
    hide HasRow;
    if recipients != [] {
      var n := |recipients| - 1;
      assert recipients[n] in recipients && forall q | q in recipients[..n] :: q in recipients;
      InsertedAllAddsOnly(rows, recipients[..n], fails, source, x, r, key);
      if recipients[n] !in fails {
        var before := InsertedAll(rows, recipients[..n], fails, source, x);
        InsertedAddsOnly(before, Notification(recipients[n], source, x), r, key);
      }
    }
  }

  lemma InsertedAddsOnly(rows: seq<Notification>, n: Notification, r: nat, key: Source)
    requires !(n.recipient == r && n.source == key) && !HasRow(rows, r, key)
    ensures !HasRow(Inserted(rows, n), r, key)
  {
    var after := Inserted(rows, n);
    forall i | 0 <= i < |after| ensures !(after[i].recipient == r && after[i].source == key) {
      assert i < |rows| ==> after[i] == rows[i];
    }
  }

  /** Who gets which row from one undisturbed emit: each recipient whose insert succeeds one under the run's key, if
      the run is recent and unmuted and there is something to say, and nobody anything else. */
  lemma EmitMeans(rows: seq<Notification>, siblings: map<nat, Sibling>, recipients: seq<nat>, fails: set<nat>, now: int,
                  x: nat, r: nat, key: Source)
    requires x in siblings && OnePerKey(rows) && !HasRow(rows, r, key)
    ensures HasRow(Emitted(rows, siblings, recipients, fails, now, x), r, key) <==>
            && r in recipients && r !in fails
            && key == (if |siblings| > 1 then BatchSource else RunSource(x, siblings[x].scheduled))
            && siblings[x].finishedAt.Some? && siblings[x].finishedAt.value >= now - 24 * 60 * 60 && !siblings[x].muted
            && (|siblings| > 1 ==> forall y | y in siblings :: siblings[y].envelope.Some?)
            && exists y | y in siblings :: (|siblings| > 1 || y == x)
                 && siblings[y].envelope.Some? && siblings[y].envelope.value != AllClear
  {
    hide HasRow, OnePerKey, InsertedAll;
    var source := SourceFor(x, siblings[x], |siblings|);
    InsertedAllReaches(rows, recipients, fails, source, x);
    if !(r in recipients && r !in fails && key == source) {
      InsertedAllAddsOnly(rows, recipients, fails, source, x, r, key);
    }
  }

  /** For whom the sweep emits again: the run is recent, unmuted and has something to say, every envelope of its batch
      is there, and some recipient has no row under its key. */
  lemma RedriveMeans(siblings: map<nat, Sibling>, recipients: set<nat>, rows: seq<Notification>, now: int, x: nat)
    ensures NeedsRedrive(siblings, recipients, rows, now, x) <==>
            && x in siblings && siblings[x].envelope.Some? && siblings[x].envelope.value != AllClear
            && siblings[x].finishedAt.Some? && siblings[x].finishedAt.value >= now - 24 * 60 * 60 && !siblings[x].muted
            && (forall y | y in siblings :: siblings[y].envelope.Some?)
            && exists r | r in recipients :: forall i | 0 <= i < |rows| ::
                 !(rows[i].recipient == r
                   && rows[i].source == if |siblings| > 1 then BatchSource else RunSource(x, siblings[x].scheduled))
  {
    FewerThanAll(siblings);
    if x in siblings && |siblings| <= 1 {
      OnlySibling(siblings, x);
    }
  }

  lemma OnlySibling(siblings: map<nat, Sibling>, x: nat)
    requires x in siblings && |siblings| <= 1
    ensures siblings.Keys == {x}
  {
    SubsetSize(siblings.Keys - {x}, siblings.Keys);
  }

  /** What each step does to the siblings and the rows. */
  lemma NextMeans(e: Step, s: State)
    requires Enabled(e, s)
    ensures var t := Next(e, s);
            t.siblings == match e
                          case Create(x, muted, scheduled) => s.siblings[x := Sibling(None, muted, None, scheduled)]
                          case Finish(x, at) => s.siblings[x := s.siblings[x].(finishedAt := Some(at))]
                          case Write(_, x, verdict) => s.siblings[x := s.siblings[x].(envelope := Some(verdict))]
                          case _ => s.siblings
    ensures Next(e, s).clock == s.clock + if e.Tick? then e.seconds else 0
    ensures e.Write? || e.Redrive? ==> Next(e, s).At(e.p) == Begun(e.x)
    ensures if e.Insert? && e.ok then
              exists i | 0 <= i < |Next(e, s).rows| ::
                Next(e, s).rows[i].recipient == e.r && Next(e, s).rows[i].source == s.At(e.p).source
            else Next(e, s).rows == s.rows
  {
    if e.Insert? && e.ok {
      var n := Notification(e.r, s.At(e.p).source, s.At(e.p).x);
      if !HasRow(s.rows, e.r, s.At(e.p).source) {
        assert Inserted(s.rows, n)[|s.rows|] == n;
      }
    }
  }

  // ---------------------------------------------------------------- code and steps agree

  /** One emit whose steps nobody else interleaves, inserting for these recipients in order. */
  ghost function Alone(s: State, p: nat, recipients: seq<nat>, fails: set<nat>): State
    requires s.At(p).Begun? && s.At(p).x in s.siblings
    requires s.recipients == SetOf(recipients) && Distinct(recipients)
  {
    var begun := Next(Open(p), s);
    var counted := if begun.At(p).Counting? then Next(Count(p), begun) else begun;
    var decided := if counted.At(p).Deciding? then Next(Decide(p), counted) else counted;
    if decided.At(p).Delivering? then AfterInserts(decided, p, recipients, fails, |recipients|) else decided
  }

  /** After the first n inserts. */
  ghost function AfterInserts(s: State, p: nat, recipients: seq<nat>, fails: set<nat>, n: nat): (t: State)
    requires s.At(p).Delivering? && s.At(p).todo == SetOf(recipients) && n <= |recipients|
    requires Distinct(recipients)
    ensures t.At(p) == Delivering(s.At(p).x, s.At(p).source, SetOf(recipients[n..]))
    ensures t.rows == InsertedAll(s.rows, recipients[..n], fails, s.At(p).source, s.At(p).x)
  {
    hide Inserted;
    if n == 0 then
      assert recipients[0..] == recipients && recipients[..0] == [];
      s
    else
      var before := AfterInserts(s, p, recipients, fails, n - 1);
      var r := recipients[n - 1];
      assert recipients[n - 1..] == [r] + recipients[n..];
      assert r in recipients[n - 1..];
      assert r !in recipients[n..];
      assert recipients[..n][..n - 1] == recipients[..n - 1];
      assert SetOf(recipients[n - 1..]) - {r} == SetOf(recipients[n..]);
      Next(Insert(p, r, r !in fails), before)
  }

  /** The method's emit is the protocol's emit, undisturbed. */
  lemma AloneIsEmitted(s: State, p: nat, recipients: seq<nat>, fails: set<nat>)
    requires s.At(p).Begun? && s.At(p).x in s.siblings
    requires s.recipients == SetOf(recipients) && Distinct(recipients)
    ensures Alone(s, p, recipients, fails).rows == Emitted(s.rows, s.siblings, recipients, fails, s.clock, s.At(p).x)
  {
    hide HasRow, Inserted, InWindow, Notable, InsertedAll;
    FewerThanAll(s.siblings);
    assert recipients[..|recipients|] == recipients;
  }
}
