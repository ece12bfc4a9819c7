/** `ConsolidationRound.apply`: the rows are written, the document pruned and rendered, in one
    transaction. */
module MemoryRound {
  import opened Common
  import opened MemoryModel
  import opened MemoryRender
  import opened MemoryPrune
  import opened MemoryConsolidation

  /** The rows of one repository's memory. */
  datatype Store = Store(
    entries: map<nat, Entry>,
    observations: map<nat, ObservationStatus>,
    document: string)

  /** `RoundOutcome` */
  datatype RoundOutcome = RoundOutcome(
    applied: nat, rejected: nat, consolidated: nat, discarded: nat, stillPending: nat, truncated: nat)

  /** What a round is given: the model's operations, the operations past the cap, the observations and
      the active entries it was shown, the clock and the render budget. */
  datatype Round = Round(
    operations: seq<Proposal>,
    deferred: seq<Operation>,
    observations: set<nat>,
    entries: seq<nat>,
    now: int,
    maxLines: int,
    maxBytes: int)

  ghost predicate RowsKeyed(entries: map<nat, Entry>) {
    forall x | x in entries :: entries[x].pk == x
  }

  /** A round the application starts on these rows: it was shown rows of the repository, and the
      primary keys for new entries are not taken. */
  ghost predicate Starts(r: Round, s: Store) {
    && RowsKeyed(s.entries)
    && Distinct(r.entries) && Ids(r.entries) <= s.entries.Keys
    && r.observations <= s.observations.Keys
    && OwnKeys(r.operations)
    && forall p | p in r.operations :: WellTyped(p.op) && p.pk !in s.entries
  }

  // ---------------------------------------------------------------- from the answer to the round

  /** The model's answer as it came, one free primary key for each operation, and what the round is shown. */
  datatype Answer = Answer(
    operations: seq<Operation>,
    keys: seq<nat>,
    observations: set<nat>,
    entries: seq<nat>,
    now: int,
    maxLines: int,
    maxBytes: int)

  function ParsedAll(operations: seq<Operation>): seq<Operation> {
    seq(|operations|, i requires 0 <= i < |operations| => Parsed(operations[i]))
  }

  function Proposed(operations: seq<Operation>, keys: seq<nat>): seq<Proposal>
    requires |keys| == |operations|
  {
    seq(|operations|, i requires 0 <= i < |operations| => Proposal(operations[i], keys[i]))
  }

  function Cap(operations: seq<Operation>): nat {
    if |operations| < MAX_OPERATIONS then |operations| else MAX_OPERATIONS
  }

  /** The round of `run_consolidation_round`: the parsed operations up to the cap, the others deferred. */
  function RoundFor(a: Answer): Round
    requires |a.keys| == |a.operations|
  {
    var parsed, n := ParsedAll(a.operations), Cap(a.operations);
    Round(Proposed(parsed[..n], a.keys[..n]), parsed[n..], a.observations, a.entries, a.now, a.maxLines, a.maxBytes)
  }

  /** The round has the first operations of the answer, each parsed and with its key, and puts off those after the
      fiftieth. */
  lemma RoundForMeans(a: Answer)
    requires |a.keys| == |a.operations|
    ensures var r := RoundFor(a);
            && |r.operations| + |r.deferred| == |a.operations| && |r.operations| <= 50
            && (r.deferred != [] ==> |r.operations| == 50)
            && (forall i | 0 <= i < |r.operations| ::
                  r.operations[i].op == Parsed(a.operations[i]) && r.operations[i].pk == a.keys[i])
            && (forall i | 0 <= i < |r.deferred| :: r.deferred[i] == Parsed(a.operations[|r.operations| + i]))
            && r.observations == a.observations && r.entries == a.entries
            && r.now == a.now && r.maxLines == a.maxLines && r.maxBytes == a.maxBytes
  {
    hide Parsed;
  }

  /** An answer to a question about these rows: any operations the schema admits. */
  ghost predicate Asked(a: Answer, s: Store) {
    && RowsKeyed(s.entries)
    && Distinct(a.entries) && Ids(a.entries) <= s.entries.Keys
    && a.observations <= s.observations.Keys
    && |a.keys| == |a.operations| && Distinct(a.keys)
    && (forall k | k in a.keys :: k !in s.entries)
    && forall op | op in a.operations :: InSchema(op)
  }

  /** Parsing gives every answer the form rounds rely on. */
  lemma AnswerStarts(a: Answer, s: Store)
    requires Asked(a, s)
    ensures Starts(RoundFor(a), s)
    ensures forall op | op in RoundFor(a).deferred :: WellTyped(op)
  {
    hide Parsed, WellTyped, InSchema;
    forall i | 0 <= i < |a.operations| ensures WellTyped(ParsedAll(a.operations)[i]) {
      assert a.operations[i] in a.operations;
      ParsedIsWellTyped(a.operations[i]);
    }
  }

  function SnapshotOf(r: Round, s: Store): Snapshot
    requires Ids(r.entries) <= s.entries.Keys
  {
    Snapshot(map e | e in Ids(r.entries) :: s.entries[e], r.observations)
  }

  function Decide(r: Round, s: Store): Claims
    requires Ids(r.entries) <= s.entries.Keys
  {
    Accepted(r.operations, |r.operations|, SnapshotOf(r, s))
  }

  /** The accepted operations can all be written. */
  lemma DecideIsReady(r: Round, s: Store)
    requires Starts(r, s)
    ensures Ready(s.entries, Decide(r, s).accepted)
    ensures forall p | p in Decide(r, s).accepted :: WellTyped(p.op) && Applicable(p, SnapshotOf(r, s))
  {
    hide ShapeFault, Accepted, Apart;
    AcceptedAreApart(r.operations, |r.operations|, SnapshotOf(r, s));
    assert r.operations[..|r.operations|] == r.operations;
  }

  // ---------------------------------------------------------------- observations

  /** The observation ids of the operations that discard, or of those that do not, in order. */
  function SourceIds(ps: seq<Proposal>, discarding: bool): (ids: seq<nat>)
    ensures forall o :: o in ids <==> exists p :: p in ps && p.op.kind.Discard? == discarding && o in p.Sources()
  {
    if ps == [] then [] else
      var n := |ps| - 1;
      assert forall p :: p in ps <==> p in ps[..n] || p == ps[n];
      SourceIds(ps[..n], discarding) + if ps[n].op.kind.Discard? == discarding then ps[n].op.observationIds else []
  }

  /** The observation rows after the round's two updates. */
  function Settled(observations: map<nat, ObservationStatus>, consolidated: seq<nat>, discarded: seq<nat>):
    map<nat, ObservationStatus>
  {
    map o | o in observations ::
      if o in discarded then Discarded else if o in consolidated then Consolidated else observations[o]
  }

  lemma {:induction false} SourcesAreCounted(ps: seq<Proposal>)
    requires PairwiseApart(ps) && forall p | p in ps :: WellTyped(p.op)
    ensures Distinct(SourceIds(ps, true)) && Distinct(SourceIds(ps, false))
    ensures Ids(SourceIds(ps, true)) !! Ids(SourceIds(ps, false))
    ensures forall o :: o in Ids(SourceIds(ps, true)) + Ids(SourceIds(ps, false)) <==> Sourced(ps, o)
  {
    hide SourceIds;
    if ps == [] {
      SourcesOfNone();
    } else {
      var n := |ps| - 1;
      var init, p := ps[..n], ps[n];
      assert ps == init + [p];
      SourcesAreCounted(init);
      SourcesOfLast(ps);
      forall o | o in p.Sources() ensures o !in SourceIds(init, true) && o !in SourceIds(init, false) {
        forall q | q in init ensures o !in q.Sources() {
          var i :| 0 <= i < n && ps[i] == q;
          assert Apart(ps[i], ps[n]);
        }
      }
      DistinctAppend(SourceIds(init, p.op.kind.Discard?), p.op.observationIds);
    }
  }

  lemma SourcesOfNone()
    ensures SourceIds([], true) == [] && SourceIds([], false) == []
  {
  }

  lemma SourcesOfLast(ps: seq<Proposal>)
    requires ps != []
    ensures var n := |ps| - 1;
            && SourceIds(ps, ps[n].op.kind.Discard?) ==
                 SourceIds(ps[..n], ps[n].op.kind.Discard?) + ps[n].op.observationIds
            && SourceIds(ps, !ps[n].op.kind.Discard?) == SourceIds(ps[..n], !ps[n].op.kind.Discard?)
  {
  }

  lemma DistinctAppend(a: seq<nat>, b: seq<nat>)
    requires Distinct(a) && Distinct(b) && forall x | x in b :: x !in a
    ensures Distinct(a + b)
  {
    var c := a + b;
    forall i, j | 0 <= i < j < |c| ensures c[i] != c[j] {
      if i < |a| && |a| <= j {
        assert c[j] in b && c[i] in a;
      }
    }
  }

  // ---------------------------------------------------------------- the surviving entries

  /** The rows at these keys that are still active. */
  function ActiveAt(entries: map<nat, Entry>, pks: seq<nat>): (list: seq<Entry>)
    requires Ids(pks) <= entries.Keys
    ensures Rows(list) == set x | x in pks && entries[x].status.Active? :: entries[x]
  {
    if pks == [] then [] else
      var n := |pks| - 1;
      var x := pks[n];
      assert x in Ids(pks) && Ids(pks) == Ids(pks[..n]) + {x};
      var before := ActiveAt(entries, pks[..n]);
      assert forall y :: y in pks <==> y in pks[..n] || y == x;
      if entries[x].status.Active? then
        RowsAppend(before, [entries[x]]);
        before + [entries[x]]
      else before
  }

  lemma {:induction false} ActiveAtIsKeyed(entries: map<nat, Entry>, pks: seq<nat>)
    requires Ids(pks) <= entries.Keys && RowsKeyed(entries) && Distinct(pks)
    ensures KeyedList(ActiveAt(entries, pks))
  {
    if pks != [] {
      var n := |pks| - 1;
      var x := pks[n];
      assert Ids(pks) == Ids(pks[..n]) + {x} && x in Ids(pks);
      ActiveAtIsKeyed(entries, pks[..n]);
      var before := ActiveAt(entries, pks[..n]);
      forall i | 0 <= i < |before| ensures !SameKey(before[i], entries[x]) {
        assert before[i] in Rows(before);
      }
    }
  }

  /** The entries that survive the operations: the ones shown that are still active, then the new ones.
      A new entry is active, so one filter serves both parts. */
  function Surviving(entries: map<nat, Entry>, shown: seq<nat>, created: seq<nat>): seq<Entry>
    requires Ids(shown) <= entries.Keys && Ids(created) <= entries.Keys
  {
    assert Ids(shown + created) == Ids(shown) + Ids(created);
    ActiveAt(entries, shown + created)
  }

  /** The entry rows after eviction. */
  function Evict(entries: map<nat, Entry>, evicted: seq<Entry>): map<nat, Entry> {
    map x | x in entries :: if exists e | e in evicted :: e.pk == x then entries[x].Supersede(None) else entries[x]
  }

  lemma {:induction false} CreatedAreDistinct(ps: seq<Proposal>)
    requires PairwiseApart(ps)
    ensures Distinct(CreatedPks(ps))
  {
    if ps != [] {
      var n := |ps| - 1;
      CreatedAreDistinct(ps[..n]);
      forall x | x in CreatedPks(ps[..n]) ensures x != ps[n].pk {
        var p :| p in ps[..n] && p.pk == x;
        var i :| 0 <= i < n && ps[i] == p;
        assert Apart(ps[i], ps[n]);
      }
      DistinctAppend(CreatedPks(ps[..n]), if ps[n].Creates() then [ps[n].pk] else []);
    }
  }

  lemma WrittenAreKeyed(entries: map<nat, Entry>, ps: seq<Proposal>, now: int)
    requires RowsKeyed(entries) && Ready(entries, ps)
    ensures RowsKeyed(WriteAll(entries, ps, now))
  {
    hide ShapeFault, WriteAll;
    var after := WriteAll(entries, ps, now);
    forall x | x in after ensures after[x].pk == x {
      if x in CreatedPks(ps) {
        var p :| p in ps && p.Creates() && p.pk == x;
        assert WroteOne(entries, p, now, after);
      } else if Targeted(ps, x) {
        var p :| p in ps && x in p.Targets();
        assert WroteOne(entries, p, now, after);
        OnlyTarget(p, x);
      }
    }
  }

  lemma SurvivingIsKeyed(r: Round, s: Store, ps: seq<Proposal>)
    requires Starts(r, s) && Ready(s.entries, ps)
    ensures var after := WriteAll(s.entries, ps, r.now);
            && RowsKeyed(after)
            && Ids(r.entries) <= after.Keys && Ids(CreatedPks(ps)) <= after.Keys
            && KeyedList(Surviving(after, r.entries, CreatedPks(ps)))
  {
    hide ShapeFault, WriteAll, CreatedPks, ActiveAt;
    var after := WriteAll(s.entries, ps, r.now);
    WrittenAreKeyed(s.entries, ps, r.now);
    CreatedAreDistinct(ps);
    assert forall x | x in CreatedPks(ps) :: x !in r.entries by {
      assert forall x | x in r.entries :: x in Ids(r.entries);
    }
    DistinctAppend(r.entries, CreatedPks(ps));
    assert Ids(r.entries + CreatedPks(ps)) == Ids(r.entries) + Ids(CreatedPks(ps));
    ActiveAtIsKeyed(after, r.entries + CreatedPks(ps));
  }

  // ---------------------------------------------------------------- the round

  /** What pruning keeps and evicts after these operations. */
  function Pressure(r: Round, s: Store, ps: seq<Proposal>): (seq<Entry>, seq<Entry>)
    requires Starts(r, s) && Ready(s.entries, ps)
  {
    SurvivingIsKeyed(r, s, ps);
    Pruned(Surviving(WriteAll(s.entries, ps, r.now), r.entries, CreatedPks(ps)), r.maxLines, r.maxBytes)
  }

  lemma PressureIsKeyed(r: Round, s: Store, ps: seq<Proposal>)
    requires Starts(r, s) && Ready(s.entries, ps)
    ensures Keyed(Rows(Pressure(r, s, ps).0))
  {
    hide ShapeFault, WriteAll, Surviving;
    SurvivingIsKeyed(r, s, ps);
    var list := Surviving(WriteAll(s.entries, ps, r.now), r.entries, CreatedPks(ps));
    PruneSplits(list, r.maxLines, r.maxBytes);
    KeyedListIsKeyed(Pressure(r, s, ps).0);
  }

  /** The store after a round that applies these operations. */
  function Applied(r: Round, s: Store, ps: seq<Proposal>): Store
    requires Starts(r, s) && Ready(s.entries, ps)
  {
    var (kept, evicted) := Pressure(r, s, ps);
    PressureIsKeyed(r, s, ps);
    Store(Evict(WriteAll(s.entries, ps, r.now), evicted),
          Settled(s.observations, SourceIds(ps, false), SourceIds(ps, true)),
          Document(Rows(kept)))
  }

  function DeferredIds(deferred: seq<Operation>): set<nat> {
    set op, o | op in deferred && o in op.observationIds :: o
  }

  function Outcome(r: Round, s: Store): RoundOutcome
    requires Starts(r, s)
  {
    var c := Decide(r, s);
    var pending := r.observations - c.claimed;
    RoundOutcome(|c.accepted|, c.rejected, |SourceIds(c.accepted, false)|, |SourceIds(c.accepted, true)|,
                 |pending|, |DeferredIds(r.deferred) * pending|)
  }

  /** The store after a round: unchanged when no operation survived validation. */
  function After(r: Round, s: Store): Store
    requires Starts(r, s)
  {
    DecideIsReady(r, s);
    var ps := Decide(r, s).accepted;
    if ps == [] then s else Applied(r, s, ps)
  }

  /** A round accounts for every observation and every operation it was given: each observation is
      consolidated, discarded or still pending, each operation applied or rejected, and what was put
      off at the cap is part of what is pending. */
  lemma RoundConserves(r: Round, s: Store)
    requires Starts(r, s)
    ensures var out := Outcome(r, s);
            && out.consolidated + out.discarded + out.stillPending == |r.observations|
            && out.applied + out.rejected == |r.operations|
            && out.truncated <= out.stillPending
  {
    hide ShapeFault, SourceIds, Accepted, Decide, DeferredIds, WellTyped;
    var c := Decide(r, s);
    ClaimedIsSettled(r, s);
    var pending := r.observations - c.claimed;
    SplitSize(r.observations, Ids(SourceIds(c.accepted, false)), Ids(SourceIds(c.accepted, true)), c.claimed);
    SubsetSize(DeferredIds(r.deferred) * pending, pending);
  }

  /** For any answer of the model: each operation is applied, rejected or put off, and nothing is put off unless
      there are more than the cap. */
  lemma AnswerConserves(a: Answer, s: Store)
    requires Asked(a, s)
    ensures var r := RoundFor(a);
            && Starts(r, s)
            && var out := Outcome(r, s);
            && out.consolidated + out.discarded + out.stillPending == |a.observations|
            && out.applied + out.rejected + |r.deferred| == |a.operations|
            && (r.deferred == [] <==> |a.operations| <= MAX_OPERATIONS)
            && out.truncated <= out.stillPending
  {
    hide Starts, Outcome, Parsed;
    AnswerStarts(a, s);
    RoundConserves(RoundFor(a), s);
  }

  /** The claimed observations are those the operations consolidate and those they discard. */
  lemma ClaimedIsSettled(r: Round, s: Store)
    requires Starts(r, s)
    ensures var c := Decide(r, s);
            var a, b := SourceIds(c.accepted, false), SourceIds(c.accepted, true);
            && Ids(a) !! Ids(b) && Ids(a) + Ids(b) == c.claimed <= r.observations
            && |Ids(a)| == |a| && |Ids(b)| == |b|
            && |c.accepted| + c.rejected == |r.operations|
  {
    hide ShapeFault, SourceIds, Accepted, WellTyped, Apart;
    var c := Decide(r, s);
    AcceptedAreApart(r.operations, |r.operations|, SnapshotOf(r, s));
    DecideIsReady(r, s);
    SourcesAreCounted(c.accepted);
    DistinctSize(SourceIds(c.accepted, false));
    DistinctSize(SourceIds(c.accepted, true));
    forall o | o in c.claimed ensures o in r.observations {
      var p :| p in c.accepted && o in p.Sources();
      assert Applicable(p, SnapshotOf(r, s));
    }
  }

  lemma SplitSize(all: set<nat>, a: set<nat>, b: set<nat>, both: set<nat>)
    requires a !! b && a + b == both <= all
    ensures |a| + |b| + |all - both| == |all|
  {
    assert |both| == |a| + |b|;
    assert all == both + (all - both);
  }

  // ---------------------------------------------------------------- order of the operations

  /** The rows kept or created carry at most one category outside the document's sections. */
  ghost predicate ListedBut(entries: map<nat, Entry>) {
    forall x, y | x in entries && y in entries && entries[x].category.Unlisted? && entries[y].category.Unlisted? ::
      entries[x].category == entries[y].category
  }

  lemma WrittenCategories(entries: map<nat, Entry>, ps: seq<Proposal>, now: int)
    requires Ready(entries, ps) && forall p | p in ps :: WellTyped(p.op)
    ensures var after := WriteAll(entries, ps, now);
            && (forall x | x in entries :: after[x].category == entries[x].category)
            && (forall x | x in after && after[x].category.Unlisted? ::
                  exists y :: y in entries && entries[y].category == after[x].category)
  {
    hide WriteAll, CreatedPks, ContentFault;
    var after := WriteAll(entries, ps, now);
    forall x | x in entries ensures after[x].category == entries[x].category {
      if Targeted(ps, x) {
        var p :| p in ps && x in p.Targets();
        assert WroteOne(entries, p, now, after);
        OnlyTarget(p, x);
      }
    }
    forall x | x in after && after[x].category.Unlisted?
      ensures exists y :: y in entries && entries[y].category == after[x].category
    {
      if x !in entries {
        var p :| p in ps && p.Creates() && p.pk == x;
        assert WroteOne(entries, p, now, after);
        if !p.op.kind.Add? {
          NamesOne(p);
        }
      }
    }
  }

  /** The accepted operations of a round commute. Applied in any order, each with its own primary key,
      they leave the same entry rows with the same successor links, the same observation statuses and
      the same document, and evict the same entries in the same order. */
  lemma AcceptedCommute(r: Round, s: Store, qs: seq<Proposal>)
    requires Starts(r, s) && ListedBut(s.entries)
    requires multiset(qs) == multiset(Decide(r, s).accepted)
    ensures Ready(s.entries, Decide(r, s).accepted) && Ready(s.entries, qs)
    ensures Applied(r, s, qs) == Applied(r, s, Decide(r, s).accepted)
    ensures Pressure(r, s, qs).1 == Pressure(r, s, Decide(r, s).accepted).1
  {
    hide ShapeFault, WriteAll, CreatedPks, SourceIds, Pruned, Decide, ActiveAt;
    var ps := Decide(r, s).accepted;
    DecideIsReady(r, s);
    SameMembers(ps, qs);
    PermutedIsReady(s.entries, ps, qs);
    WriteIgnoresOrder(s.entries, ps, qs, r.now);
    SurvivingIsKeyed(r, s, ps);
    SurvivingIsKeyed(r, s, qs);
    var after := WriteAll(s.entries, ps, r.now);
    var a, b := Surviving(after, r.entries, CreatedPks(ps)), Surviving(after, r.entries, CreatedPks(qs));
    assert Rows(a) == Rows(b) by {
      SurvivingRows(after, r.entries, CreatedPks(ps), CreatedPks(qs));
    }
    assert OneUnlisted(Rows(a)) by {
      WrittenCategories(s.entries, ps, r.now);
      ActiveRows(after, r.entries + CreatedPks(ps));
    }
    PruneIgnoresOrder(a, b, r.maxLines, r.maxBytes);
    assert Settled(s.observations, SourceIds(ps, false), SourceIds(ps, true))
        == Settled(s.observations, SourceIds(qs, false), SourceIds(qs, true));
  }

  lemma ActiveRows(entries: map<nat, Entry>, pks: seq<nat>)
    requires Ids(pks) <= entries.Keys
    ensures forall e | e in Rows(ActiveAt(entries, pks)) :: exists x :: x in entries && entries[x] == e
  {
    hide ActiveAt;
    forall e | e in Rows(ActiveAt(entries, pks)) ensures exists x :: x in entries && entries[x] == e {
      var x :| x in pks && entries[x].status.Active? && entries[x] == e;
      assert x in Ids(pks);
    }
  }

  lemma SurvivingRows(entries: map<nat, Entry>, shown: seq<nat>, a: seq<nat>, b: seq<nat>)
    requires Ids(shown) <= entries.Keys && Ids(a) <= entries.Keys && Ids(a) == Ids(b)
    ensures Rows(Surviving(entries, shown, a)) == Rows(Surviving(entries, shown, b))
  {
    hide ActiveAt;
    assert forall x :: x in shown + a <==> x in shown || x in Ids(a);
    assert forall x :: x in shown + b <==> x in shown || x in Ids(b);
    assert forall x :: x in shown + a <==> x in shown + b;
  }

  lemma SameMembers(ps: seq<Proposal>, qs: seq<Proposal>)
    requires multiset(qs) == multiset(ps)
    ensures forall p :: p in ps <==> p in qs
  {
    assert forall p :: p in ps <==> p in multiset(ps);
    assert forall p :: p in qs <==> p in multiset(qs);
  }

  lemma PermutedIsReady(entries: map<nat, Entry>, ps: seq<Proposal>, qs: seq<Proposal>)
    requires Ready(entries, ps) && multiset(qs) == multiset(ps) && forall p :: p in ps <==> p in qs
    ensures Ready(entries, qs)
  {
    hide ShapeFault;
    forall i, j | 0 <= i < j < |qs| ensures Apart(qs[i], qs[j]) {
      if qs[i] == qs[j] {
        TwicePresent(qs, i, j);
        TwiceMeansTwo(ps, qs[i]);
      } else {
        assert qs[i] in ps && qs[j] in ps;
        var k :| 0 <= k < |ps| && ps[k] == qs[i];
        var l :| 0 <= l < |ps| && ps[l] == qs[j];
        assert Apart(ps[if k < l then k else l], ps[if k < l then l else k]);
      }
    }
  }

  lemma TwicePresent(qs: seq<Proposal>, i: nat, j: nat)
    requires i < j < |qs| && qs[i] == qs[j]
    ensures multiset(qs)[qs[i]] >= 2
  {
    assert qs == qs[..i] + [qs[i]] + qs[i + 1..j] + [qs[j]] + qs[j + 1..];
  }

  lemma {:induction false} TwiceMeansTwo(ps: seq<Proposal>, p: Proposal)
    requires multiset(ps)[p] >= 2
    ensures exists i, j :: 0 <= i < j < |ps| && ps[i] == p && ps[j] == p
  {
    var i :| 0 <= i < |ps| && ps[i] == p;
    var rest := ps[..i] + ps[i + 1..];
    assert ps == ps[..i] + [p] + ps[i + 1..];
    assert multiset(ps) == multiset(rest) + multiset{p};
    assert p in rest;
    var k :| 0 <= k < |rest| && rest[k] == p;
    var j := if k < i then k else k + 1;
    assert ps[j] == p && j != i;
    assert ps[if i < j then i else j] == p && ps[if i < j then j else i] == p;
  }
}
