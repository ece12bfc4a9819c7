/** The execution slot of one session: the single-query operations of `SessionLock`, and the protocol
    they form when holders on different machines interleave them. Instants are seconds on one clock. */
module SessionLock {
  import opened Common

  /** STALE_RUN_MINUTES, in seconds. */
  const STALE: int := 30 * 60

  /** Holder ids are numbers: each chat turn and each job run has its own. */
  datatype Row = Row(holder: Option<nat>, lastActiveAt: int)
  {
    predicate Stale(cutoff: int) {
      holder.Some? && lastActiveAt < cutoff
    }

    predicate Takeable(prior: nat, cutoff: int) {
      holder == Some(prior) && Stale(cutoff)
    }

    function ClaimedBy(x: nat, now: int, allowed: bool): Row {
      if allowed then Row(Some(x), now) else this
    }

    function Bumped(x: nat, at: int): Row {
      if holder == Some(x) then this.(lastActiveAt := at) else this
    }

    function Freed(x: nat, at: int): Row {
      if holder == Some(x) then Row(None, at) else this
    }
  }

  function StaleCutoff(now: int): int {
    now - STALE
  }

  // ---------------------------------------------------------------- the queries

  class Session {
    var activeRunId: Option<nat>
    var lastActiveAt: int

    function State(): Row
      reads this
    {
      Row(activeRunId, lastActiveAt)
    }

    /** The fast path's update, filtered on a null `active_run_id`. */
    method ClaimFree(holder: nat, now: int) returns (updated: bool)
      modifies this
      ensures updated == old(State()).holder.None?
      ensures State() == if updated then Row(Some(holder), now) else old(State())
    {
      updated := activeRunId.None?;
      if updated {
        activeRunId, lastActiveAt := Some(holder), now;
      }
    }

    method PriorHolder(cutoff: int) returns (prior: Option<nat>)
      ensures prior == if State().Stale(cutoff) then State().holder else None
    {
      prior := if activeRunId.Some? && lastActiveAt < cutoff then activeRunId else None;
    }

    /** The compare-and-swap on the prior holder. */
    method TakeOver(prior: nat, cutoff: int, holder: nat, now: int) returns (updated: bool)
      modifies this
      ensures updated == (old(State()).holder == Some(prior) && old(State()).lastActiveAt < cutoff)
      ensures State() == if updated then Row(Some(holder), now) else old(State())
    {
      updated := activeRunId == Some(prior) && lastActiveAt < cutoff;
      if updated {
        activeRunId, lastActiveAt := Some(holder), now;
      }
    }

    /** `try_claim` with nobody between its queries: it succeeds exactly on a free or stale slot. */
    method TryClaim(holder: nat, now: int) returns (claimed: bool)
      modifies this
      ensures claimed == (old(State()).holder.None? || old(State()).lastActiveAt < now - 30 * 60)
      ensures State() == if claimed then Row(Some(holder), now) else old(State())
    {
      claimed := ClaimFree(holder, now);
      if claimed {
        return;
      }
      var cutoff := StaleCutoff(now);
      var prior := PriorHolder(cutoff);
      if prior.None? {
        return false;
      }
      claimed := TakeOver(prior.value, cutoff, holder, now);
    }

    method Heartbeat(holder: nat, at: int) returns (bumped: bool)
      modifies this
      ensures bumped == (old(State()).holder == Some(holder))
      ensures State() == if bumped then Row(Some(holder), at) else old(State())
    {
      bumped := activeRunId == Some(holder);
      if bumped {
        lastActiveAt := at;
      }
    }

    /** It frees the slot, but only for whoever holds it. */
    method Release(holder: nat, at: int)
      modifies this
      ensures State() == if old(State()).holder == Some(holder) then Row(None, at) else old(State())
    {
      if activeRunId == Some(holder) {
        activeRunId, lastActiveAt := None, at;
      }
    }

    /** `Session.atouch`, which anybody may call. */
    method Touch(at: int)
      modifies this
      ensures State() == old(State()).(lastActiveAt := at)
    {
      lastActiveAt := at;
    }
  }

  /** After the holder's release anybody's claim succeeds, however recent the last heartbeat. */
  method ReleaseThenClaim(session: Session, holder: nat, at: int, next: nat, now: int) returns (claimed: bool)
    requires session.State().holder == Some(holder)
    modifies session
    ensures claimed && session.State() == Row(Some(next), now)
  {
    session.Release(holder, at);
    claimed := session.TryClaim(next, now);
  }

  // ---------------------------------------------------------------- waiting for the slot

  /** LOCK_WAIT_TIMEOUT_S and LOCK_POLL_INTERVAL_S */
  const WAIT_TIMEOUT: int := 1800
  const POLL_INTERVAL: int := 5

  datatype Wait = Unlocked | Claimed | TimedOut

  /** How long the wait is held up by queries and scheduling: pauses(k) before its k-th look at the deadline, and
      gaps(k) from there until the claim reads the clock itself. */
  datatype Delays = Delays(pauses: nat -> nat, gaps: nat -> nat)

  /** When the k-th poll looks at the deadline, which counts from `start`: a poll interval after the claim before. */
  function Check(start: int, d: Delays, k: nat): (at: int)
    ensures at >= start + k * POLL_INTERVAL
    decreases k, 0
  {
    (if k == 0 then start else Read(start, d, k - 1) + POLL_INTERVAL) + d.pauses(k)
  }

  /** When its claim reads the clock. */
  function Read(start: int, d: Delays, k: nat): (at: int)
    ensures at >= start + k * POLL_INTERVAL
    decreases k, 1
  {
    Check(start, d, k) + d.gaps(k)
  }

  /** The k-th poll comes before the deadline and finds the slot free or stale. */
  predicate PollSucceeds(start: int, d: Delays, row: Row, k: nat) {
    Check(start, d, k) < start + WAIT_TIMEOUT && (row.holder.None? || row.lastActiveAt < Read(start, d, k) - STALE)
  }

  /** `_acquire_session_lock` behind a holder that crashed: nobody else touches the slot meanwhile, and each poll
      may be held up anywhere. It succeeds exactly if some poll before the deadline finds the slot free or stale, and
      takes it at the first such poll. */
  method AcquireSessionLock(session: Session, holder: nat, start: int, sessionExists: bool, d: Delays)
      returns (r: Wait)
    modifies session
    ensures r.Unlocked? <==> !sessionExists
    ensures r.Claimed? <==> sessionExists && exists k: nat :: PollSucceeds(start, d, old(session.State()), k)
    ensures r.Claimed? ==>
            exists k: nat :: PollSucceeds(start, d, old(session.State()), k)
              && session.State() == Row(Some(holder), Read(start, d, k))
              && forall l: nat | l < k :: !PollSucceeds(start, d, old(session.State()), l)
    ensures !r.Claimed? ==> session.State() == old(session.State())
  {
    if !sessionExists {
      return Unlocked;
    }
    ghost var row := session.State();
    var deadline := start + WAIT_TIMEOUT;
    var now := start + d.pauses(0);
    var k: nat := 0;
    while now < deadline
      invariant now == Check(start, d, k)
      invariant session.State() == row
      invariant forall l: nat | l < k :: !PollSucceeds(start, d, row, l)
      decreases deadline - now
    {
      now := now + d.gaps(k);
      var claimed := session.TryClaim(holder, now);
      if claimed {
        assert PollSucceeds(start, d, row, k);
        return Claimed;
      }
      k := k + 1;
      now := now + POLL_INTERVAL + d.pauses(k);
    }
    forall l: nat | l >= k ensures !PollSucceeds(start, d, row, l) {
      PollsMoveOn(start, d, k, l);
    }
    return TimedOut;
  }

  lemma {:induction false} PollsMoveOn(start: int, d: Delays, k: nat, l: nat)
    requires k <= l
    ensures Check(start, d, k) <= Check(start, d, l)
  {
    if k < l {
      PollsMoveOn(start, d, k, l - 1);
    }
  }

  /** The last poll before the deadline. */
  lemma {:induction false} LastPoll(start: int, d: Delays, from: nat) returns (k: nat)
    requires Check(start, d, from) < start + WAIT_TIMEOUT
    ensures Check(start, d, k) < start + WAIT_TIMEOUT <= Check(start, d, k + 1)
    decreases start + WAIT_TIMEOUT - Check(start, d, from)
  {
    assert Check(start, d, from + 1) == Read(start, d, from) + POLL_INTERVAL + d.pauses(from + 1);
    if Check(start, d, from + 1) < start + WAIT_TIMEOUT {
      k := LastPoll(start, d, from + 1);
    } else {
      k := from;
    }
  }

  /** A wait that began later than the last heartbeat by more than one poll interval and the longest pause takes the
      slot over; one that began the longest gap before the last heartbeat, or earlier, never does. */
  lemma WaitOutlivesHolder(start: int, d: Delays, row: Row, pause: nat, gap: nat)
    requires row.holder.Some? && d.pauses(0) < WAIT_TIMEOUT
    requires forall k: nat :: d.pauses(k) <= pause && d.gaps(k) <= gap
    ensures row.lastActiveAt + POLL_INTERVAL + pause < start ==> exists k: nat :: PollSucceeds(start, d, row, k)
    ensures (exists k: nat :: PollSucceeds(start, d, row, k)) ==> row.lastActiveAt < start + gap
  {
    var k := LastPoll(start, d, 0);
    assert Check(start, d, k + 1) == Read(start, d, k) + POLL_INTERVAL + d.pauses(k + 1);
    if row.lastActiveAt + POLL_INTERVAL + pause < start {
      assert PollSucceeds(start, d, row, k);
    }
  }

  /** With polls that take no time at all the one interval is exact. */
  lemma PromptWaitIsExact(start: int, d: Delays, row: Row)
    requires row.holder.Some? && forall k: nat :: d.pauses(k) == d.gaps(k) == 0
    ensures (exists k: nat :: PollSucceeds(start, d, row, k)) <==> row.lastActiveAt + POLL_INTERVAL < start
  {
    WaitOutlivesHolder(start, d, row, 0, 0);
    forall k: nat ensures Check(start, d, k) == Read(start, d, k) == start + k * POLL_INTERVAL {
      EvenPolls(start, d, k);
    }
  }

  lemma {:induction false} EvenPolls(start: int, d: Delays, k: nat)
    requires d.pauses(k) == 0 && forall l: nat | l < k :: d.pauses(l) == d.gaps(l) == 0
    ensures Check(start, d, k) == start + k * POLL_INTERVAL
  {
    if k > 0 {
      EvenPolls(start, d, k - 1);
    }
  }

  /** A single gap makes a difference: if the claim of the last of otherwise prompt polls is held up for longer than
      the poll interval, a wait that began exactly at the last heartbeat takes the slot over. */
  lemma HeldUpPollTakesOver(start: int, d: Delays, holder: nat)
    requires forall k: nat :: d.pauses(k) == 0
    requires forall k: nat :: d.gaps(k) == if k == WAIT_TIMEOUT / POLL_INTERVAL - 1 then POLL_INTERVAL + 1 else 0
    ensures exists k: nat :: PollSucceeds(start, d, Row(Some(holder), start), k)
  {
    var k := WAIT_TIMEOUT / POLL_INTERVAL - 1;
    EvenPolls(start, d, k);
    assert PollSucceeds(start, d, Row(Some(holder), start), k);
  }

  // ---------------------------------------------------------------- the protocol

  /** How far a holder is in `try_claim`, which reads the clock once before its first query. */
  datatype Phase =
    | Away
    | Started(now: int)
    | Missed(now: int)
    | Saw(now: int, prior: nat)
    | Holding
    | Gone

  /** landed[x] is when x's last successful claim or heartbeat reached the row. */
  datatype State = State(row: Row, phases: map<nat, Phase>, landed: map<nat, int>, clock: int)
  {
    function Of(x: nat): Phase {
      if x in phases then phases[x] else Away
    }

    predicate Owns(x: nat) {
      Of(x).Holding? && row.holder == Some(x)
    }

    function To(x: nat, p: Phase): State {
      this.(phases := phases[x := p])
    }

    function Claimed(x: nat, now: int): State {
      State(row.ClaimedBy(x, now, true), phases[x := Holding], landed[x := clock], clock)
    }
  }

  /** One query, or the passing of time. `at` is the clock reading a write carries; it may be read long
      before the write lands, also after the holder was superseded or released. */
  datatype Step =
    | Tick(seconds: nat)
    | Begin(x: nat)
    | ClaimFree(x: nat)
    | ReadPrior(x: nat)
    | TakeOver(x: nat)
    | Beat(x: nat, at: int)
    | Release(x: nat, at: int)
    | Touch(at: int)

  predicate Enabled(e: Step, s: State) {
    match e
    case Tick(_) => true
    case Begin(x) => s.Of(x).Away?
    case ClaimFree(x) => s.Of(x).Started?
    case ReadPrior(x) => s.Of(x).Missed?
    case TakeOver(x) => s.Of(x).Saw?
    case Beat(_, at) => at <= s.clock
    case Release(x, at) => s.Of(x).Holding? && at <= s.clock
    case Touch(at) => at <= s.clock
  }

  function Next(e: Step, s: State): State
    requires Enabled(e, s)
  {
    match e
    case Tick(seconds) => s.(clock := s.clock + seconds)
    case Begin(x) => s.To(x, Started(s.clock))
    case ClaimFree(x) =>
      var now := s.Of(x).now;
      if s.row.holder.None? then s.Claimed(x, now) else s.To(x, Missed(now))
    case ReadPrior(x) =>
      var now := s.Of(x).now;
      if s.row.Stale(StaleCutoff(now)) then s.To(x, Saw(now, s.row.holder.value)) else s.To(x, Away)
    case TakeOver(x) =>
      var Saw(now, prior) := s.Of(x);
      if s.row.Takeable(prior, StaleCutoff(now)) then s.Claimed(x, now) else s.To(x, Away)
    case Beat(x, at) =>
      if s.row.holder != Some(x) then s else
        s.(row := s.row.Bumped(x, at), landed := s.landed[x := s.clock])
    case Release(x, at) =>
      s.(row := s.row.Freed(x, at)).To(x, Gone)
    case Touch(at) => s.(row := s.row.(lastActiveAt := at))
  }

  /** What each step of the protocol does to the row. */
  lemma NextRow(e: Step, s: State)
    requires Enabled(e, s)
    ensures var was, row := s.row, Next(e, s).row;
            match e
            case ClaimFree(x) => row == if was.holder == None then Row(Some(x), s.phases[x].now) else was
            case TakeOver(x) =>
              row == if was.holder == Some(s.phases[x].prior) && was.lastActiveAt < s.phases[x].now - 30 * 60
                     then Row(Some(x), s.phases[x].now) else was
            case Beat(x, at) => row == if was.holder == Some(x) then Row(Some(x), at) else was
            case Release(x, at) => row == if was.holder == Some(x) then Row(None, at) else was
            case Touch(at) => row == Row(was.holder, at)
            case _ => row == was
  {
  }

  /** And how far it leaves whoever makes it: a holder executes from its claim to its release, and one that is
      refused may begin again. */
  lemma NextPhase(e: Step, s: State, x: nat)
    requires Enabled(e, s)
    ensures var was, now := s.Of(x), Next(e, s).Of(x);
            if e.Tick? || e.Touch? || e.Beat? || e.x != x then now == was else
              match e
              case Begin(_) => now == Started(s.clock)
              case ClaimFree(_) => now == if s.row.holder == None then Holding else Missed(was.now)
              case ReadPrior(_) =>
                now == if s.row.holder.Some? && s.row.lastActiveAt < was.now - 30 * 60
                       then Saw(was.now, s.row.holder.value) else Away
              case TakeOver(_) =>
                now == if s.row.holder == Some(was.prior) && s.row.lastActiveAt < was.now - 30 * 60
                       then Holding else Away
              case Release(_, _) => now == Gone
              case _ => true
    ensures Next(e, s).clock == s.clock + if e.Tick? then e.seconds else 0
    ensures Next(e, s).landed ==
            if ((e.ClaimFree? || e.TakeOver?) && Next(e, s).Of(e.x) == Holding)
               || (e.Beat? && s.row.holder == Some(e.x))
            then s.landed[e.x := s.clock] else s.landed
  {
  }

  /** A write that lands carries a clock reading at most d old. */
  predicate Prompt(e: Step, s: State, d: nat)
    requires Enabled(e, s)
  {
    match e
    case ClaimFree(x) => s.row.holder.None? ==> s.clock - s.Of(x).now <= d
    case TakeOver(x) => s.row.Takeable(s.Of(x).prior, StaleCutoff(s.Of(x).now)) ==> s.clock - s.Of(x).now <= d
    case Beat(_, at) => s.clock - at <= d
    case Touch(at) => s.clock - at <= d
    case _ => true
  }

  predicate Initial(s: State) {
    s.row.holder.None? && s.phases == map[] && s.landed == map[]
  }

  ghost predicate Run(states: seq<State>, steps: seq<Step>, d: nat) {
    && |states| == |steps| + 1
    && Initial(states[0])
    && forall k | 0 <= k < |steps| ::
         Enabled(steps[k], states[k]) && Prompt(steps[k], states[k], d) && states[k + 1] == Next(steps[k], states[k])
  }

  /** At most h has passed since x's last claim or heartbeat landed. */
  predicate Beating(s: State, x: nat, h: nat) {
    x in s.landed && s.clock <= s.landed[x] + h
  }

  /** x owns the slot at i, and up to j keeps beating within h and does not release. */
  ghost predicate Tenure(states: seq<State>, steps: seq<Step>, h: nat, x: nat, i: nat, j: nat) {
    && i <= j < |states| == |steps| + 1
    && states[i].Owns(x)
    && (forall k | i <= k <= j :: Beating(states[k], x, h))
    && (forall k | i <= k < j :: !(steps[k].Release? && steps[k].x == x))
  }

  /** What every reachable state keeps: readings come from the past, and the row's timestamp is at most
      d older than the holder's last landing. */
  ghost predicate Invariant(s: State, d: nat) {
    && (forall x | x in s.phases && (s.phases[x].Started? || s.phases[x].Missed? || s.phases[x].Saw?) ::
          s.phases[x].now <= s.clock)
    && (s.row.holder.Some? ==>
          var x := s.row.holder.value;
          && x in s.landed && s.Of(x) in {Holding, Gone}
          && s.landed[x] <= s.clock && s.row.lastActiveAt >= s.landed[x] - d)
  }

  lemma NextKeeps(e: Step, s: State, d: nat)
    requires Invariant(s, d) && Enabled(e, s) && Prompt(e, s, d)
    ensures Invariant(Next(e, s), d)
  {
  }

  lemma {:induction false} RunKeeps(states: seq<State>, steps: seq<Step>, d: nat, k: nat)
    requires Run(states, steps, d) && k <= |steps|
    ensures Invariant(states[k], d)
  {
    hide Invariant, Enabled, Next, Prompt;
    if k == 0 {
      NothingHolds(states[0], d);
    } else {
      RunKeeps(states, steps, d, k - 1);
      NextKeeps(steps[k - 1], states[k - 1], d);
    }
  }

  lemma NothingHolds(s: State, d: nat)
    requires Initial(s)
    ensures Invariant(s, d)
  {
  }

  // ---------------------------------------------------------------- mutual exclusion

  /** No step takes the slot from a holder that has beaten within h and does not release. */
  lemma StepKeepsOwner(e: Step, s: State, d: nat, h: nat, x: nat)
    requires Invariant(s, d) && Enabled(e, s) && Prompt(e, s, d)
    requires h + d <= STALE && s.Owns(x) && Beating(s, x, h)
    requires !(e.Release? && e.x == x)
    ensures Next(e, s).Owns(x)
  {
  }

  /** No other claim succeeds before a prompt holder releases. */
  lemma {:induction false} HeldUntilRelease(states: seq<State>, steps: seq<Step>, d: nat, h: nat, x: nat,
                                            i: nat, j: nat)
    requires Run(states, steps, d) && Tenure(states, steps, h, x, i, j)
    requires h + d <= STALE
    ensures states[j].Owns(x)
  {
    hide Invariant, Enabled, Next, Prompt, Beating;
    if i < j {
      HeldUntilRelease(states, steps, d, h, x, i, j - 1);
      RunKeeps(states, steps, d, j - 1);
      StepKeepsOwner(steps[j - 1], states[j - 1], d, h, x);
    }
  }

  /** Whoever holds the slot beats within h. */
  ghost predicate AllBeating(s: State, h: nat) {
    forall x | s.Of(x).Holding? :: Beating(s, x, h)
  }

  /** While every holder beats in time, at most one of them is executing. */
  lemma {:induction false} OneHolder(states: seq<State>, steps: seq<Step>, d: nat, h: nat, j: nat, x: nat, y: nat)
    requires Run(states, steps, d) && j <= |steps| && h + d <= STALE
    requires forall k | 0 <= k <= j :: AllBeating(states[k], h)
    requires states[j].Of(x).Holding? && states[j].Of(y).Holding?
    ensures x == y
  {
    hide Invariant, Enabled, Next, Prompt, AllBeating;
    HolderOwns(states, steps, d, h, j, x);
    HolderOwns(states, steps, d, h, j, y);
  }

  lemma {:induction false} HolderOwns(states: seq<State>, steps: seq<Step>, d: nat, h: nat, j: nat, x: nat)
    requires Run(states, steps, d) && j <= |steps| && h + d <= STALE
    requires forall k | 0 <= k <= j :: AllBeating(states[k], h)
    requires states[j].Of(x).Holding?
    ensures states[j].Owns(x)
  {
    hide Invariant, Prompt;
    if j > 0 {
      var s, e := states[j - 1], steps[j - 1];
      RunKeeps(states, steps, d, j - 1);
      if s.Of(x).Holding? {
        HolderOwns(states, steps, d, h, j - 1, x);
        StepKeepsOwner(e, s, d, h, x);
      }
    }
  }

  // ---------------------------------------------------------------- superseded holders

  predicate Superseded(s: State, x: nat) {
    s.Of(x) in {Holding, Gone} && s.row.holder != Some(x)
  }

  /** x's heartbeat or release. */
  predicate LateWrite(e: Step, x: nat) {
    (e.Beat? || e.Release?) && e.x == x
  }

  /** Once superseded, a holder never gets the slot back, and its late heartbeats and release leave the
      row alone, however late anything is. */
  lemma {:induction false} SupersededIsInert(states: seq<State>, steps: seq<Step>, d: nat, x: nat, i: nat, j: nat)
    requires Run(states, steps, d) && i <= j <= |steps| && Superseded(states[i], x)
    ensures Superseded(states[j], x)
    ensures forall k | i <= k < j && LateWrite(steps[k], x) :: states[k + 1].row == states[k].row
  {
    hide Prompt, Enabled, Next;
    if i < j {
      SupersededIsInert(states, steps, d, x, i, j - 1);
      var s, e := states[j - 1], steps[j - 1];
      StaysSuperseded(e, s, x);
      assert LateWrite(e, x) ==> states[j - 1 + 1].row == s.row;
    }
  }

  lemma StaysSuperseded(e: Step, s: State, x: nat)
    requires Enabled(e, s) && Superseded(s, x)
    ensures Superseded(Next(e, s), x)
    ensures LateWrite(e, x) ==> Next(e, s).row == s.row
  {
  }

  // ---------------------------------------------------------------- the bound is exact

  /** Every prompt holder keeps the slot, in every run. */
  ghost predicate Safe(d: nat, h: nat) {
    forall states: seq<State>, steps: seq<Step>, x: nat, i: nat, j: nat ::
      Run(states, steps, d) && Tenure(states, steps, h, x, i, j) ==> states[j].Owns(x)
  }

  /** Holder 0 claims as slowly as d allows and is silent for h; holder 1 takes the slot over. */
  function LateSteps(d: nat, h: nat): seq<Step> {
    [Begin(0), Tick(d), ClaimFree(0), Tick(h), Begin(1), ClaimFree(1), ReadPrior(1), TakeOver(1)]
  }

  function LateStates(d: nat, h: nat): seq<State> {
    var kept := Row(Some(0), 0);
    var l := map[0 := d];
    [ State(Row(None, 0), map[], map[], 0),
      State(Row(None, 0), map[0 := Started(0)], map[], 0),
      State(Row(None, 0), map[0 := Started(0)], map[], d),
      State(kept, map[0 := Holding], l, d),
      State(kept, map[0 := Holding], l, d + h),
      State(kept, map[0 := Holding, 1 := Started(d + h)], l, d + h),
      State(kept, map[0 := Holding, 1 := Missed(d + h)], l, d + h),
      State(kept, map[0 := Holding, 1 := Saw(d + h, 0)], l, d + h),
      State(Row(Some(1), d + h), map[0 := Holding, 1 := Holding], map[0 := d, 1 := d + h], d + h) ]
  }

  lemma LateStep(d: nat, h: nat, k: nat)
    requires h + d > STALE && k < 8
    ensures var s, e := LateStates(d, h)[k], LateSteps(d, h)[k];
            Enabled(e, s) && Prompt(e, s, d) && Next(e, s) == LateStates(d, h)[k + 1]
  {
    var s := LateStates(d, h)[k];
    var after := LateStates(d, h)[k + 1].phases;
    if k in {0, 2} {
      assert s.phases[0 := after[0]] == after;
    } else if k >= 4 {
      assert s.phases[1 := after[1]] == after;
    }
  }

  lemma LateTenure(d: nat, h: nat)
    ensures Tenure(LateStates(d, h), LateSteps(d, h), h, 0, 3, 8)
    ensures !LateStates(d, h)[8].Owns(0)
  {
  }

  lemma LateRun(d: nat, h: nat)
    requires h + d > STALE
    ensures Run(LateStates(d, h), LateSteps(d, h), d)
    ensures Tenure(LateStates(d, h), LateSteps(d, h), h, 0, 3, 8) && !LateStates(d, h)[8].Owns(0)
  {
    LateTenure(d, h);
    hide Enabled, Next, Prompt, Tenure;
    var states, steps := LateStates(d, h), LateSteps(d, h);
    forall k | 0 <= k < |steps|
      ensures Enabled(steps[k], states[k]) && Prompt(steps[k], states[k], d)
      ensures states[k + 1] == Next(steps[k], states[k])
    {
      LateStep(d, h, k);
    }
  }

  /** The thirty minutes must cover a holder's silence and a write's delay together, and no less will do. */
  lemma StaleWindowIsExact(d: nat, h: nat)
    ensures Safe(d, h) <==> h + d <= STALE
  {
    hide Run, LateStates, LateSteps;
    if h + d <= STALE {
      forall states: seq<State>, steps: seq<Step>, x: nat, i: nat, j: nat
        | Run(states, steps, d) && Tenure(states, steps, h, x, i, j)
        ensures states[j].Owns(x)
      {
        HeldUntilRelease(states, steps, d, h, x, i, j);
      }
    } else {
      LateRun(d, h);
    }
  }
}
