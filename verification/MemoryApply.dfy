/** `ConsolidationRound` as the source writes it: loops over the operations that grow the claim sets,
    change entry rows and settle observations. Each method is proved against the functions of
    `MemoryConsolidation` and `MemoryRound`. */
module MemoryApply {
  import opened Common
  import opened MemoryModel
  import opened MemoryRender
  import opened MemoryPrune
  import opened MemoryConsolidation
  import opened MemoryRound

  /** The tables of one repository's memory. */
  class Repository {
    var entries: map<nat, Entry>
    var observations: map<nat, ObservationStatus>
    var document: string

    constructor ()
      ensures State() == Store(map[], map[], "")
    {
      entries, observations, document := map[], map[], "";
    }

    function State(): Store
      reads this
    {
      Store(entries, observations, document)
    }

    /** `MemoryEntry.supersede` on the row x: it leaves the active rows and names its replacement, but keeps its
        fact, its times and its provenance, and no other row changes. */
    method Supersede(x: nat, successor: Option<nat>)
      requires x in entries
      modifies this`entries
      ensures entries.Keys == old(entries).Keys
      ensures forall y | y in entries && y != x :: entries[y] == old(entries)[y]
      ensures forall y | y in entries :: entries[y].status.Active? <==> old(entries)[y].status.Active? && y != x
      ensures entries[x].successor == successor
      ensures var was, now := old(entries)[x], entries[x];
              && now.pk == was.pk && now.category == was.category && now.content == was.content
              && now.createdAt == was.createdAt && now.confirmedAt == was.confirmedAt
              && now.observations == was.observations
    {
      entries := entries[x := entries[x].Supersede(successor)];
    }

    /** Retire each evicted entry in turn. */
    method SupersedeAll(evicted: seq<Entry>)
      requires forall e | e in evicted :: e.pk in entries
      modifies this`entries
      ensures entries == Evict(old(entries), evicted)
    {
      hide Evict;
      EvictNone(entries);
      for i := 0 to |evicted|
        invariant entries == Evict(old(entries), evicted[..i])
      {
        EvictOneMore(old(entries), evicted, i);
        ghost var sofar := entries;
        Supersede(evicted[i].pk, None);
        assert entries == sofar[evicted[i].pk := sofar[evicted[i].pk].Supersede(None)];
      }
      assert evicted[..|evicted|] == evicted;
    }

    /** Replace each of these entries by the row pk. */
    method SupersedeEach(ids: seq<nat>, pk: nat)
      requires pk !in ids && forall x | x in ids :: x in entries
      modifies this`entries
      ensures entries == Retired(old(entries), ids, pk)
    {
      hide Retired;
      RetiredNone(entries, pk);
      for k := 0 to |ids|
        invariant entries == Retired(old(entries), ids[..k], pk)
      {
        RetiredOneMore(old(entries), ids, k, pk);
        ghost var sofar := entries;
        Supersede(ids[k], Some(pk));
        assert entries == sofar[ids[k] := sofar[ids[k]].Supersede(Some(pk))];
      }
      assert ids[..|ids|] == ids;
    }

    /** `MemoryObservation.objects.filter(pk__in=ids).update(status=status)`: the named observations join those
        with the status and nothing else changes; ids no row carries add none. */
    method Mark(ids: seq<nat>, status: ObservationStatus)
      modifies this`observations
      ensures observations.Keys == old(observations).Keys
      ensures With(observations, status) == With(old(observations), status) + Ids(ids) * old(observations).Keys
      ensures forall other | other != status :: With(observations, other) == With(old(observations), other) - Ids(ids)
    {
      observations := map o | o in observations :: if o in ids then status else observations[o];
    }
  }

  /** The observations with this status. */
  function With(observations: map<nat, ObservationStatus>, status: ObservationStatus): set<nat> {
    set o | o in observations && observations[o] == status
  }

  function Marked(observations: map<nat, ObservationStatus>, ids: seq<nat>, status: ObservationStatus):
    map<nat, ObservationStatus>
  {
    map o | o in observations :: if o in ids then status else observations[o]
  }

  /** The statuses are determined by which observations have which. */
  lemma MarkedMeans(before: map<nat, ObservationStatus>, after: map<nat, ObservationStatus>, ids: seq<nat>,
                    status: ObservationStatus)
    requires after.Keys == before.Keys
    requires With(after, status) == With(before, status) + Ids(ids) * before.Keys
    requires forall other | other != status :: With(after, other) == With(before, other) - Ids(ids)
    ensures after == Marked(before, ids, status)
  {
    forall o | o in before ensures after[o] == Marked(before, ids, status)[o] {
      assert o in ids <==> o in Ids(ids);
      assert o in With(before, before[o]);
      assert o in With(after, after[o]);
    }
  }

  function Retired(entries: map<nat, Entry>, ids: seq<nat>, pk: nat): map<nat, Entry> {
    map q | q in entries :: if q in ids then entries[q].Supersede(Some(pk)) else entries[q]
  }

  lemma RetiredNone(entries: map<nat, Entry>, pk: nat)
    ensures Retired(entries, [], pk) == entries
  {
  }

  lemma RetiredOneMore(entries: map<nat, Entry>, ids: seq<nat>, k: nat, pk: nat)
    requires k < |ids| && ids[k] in entries
    ensures var sofar := Retired(entries, ids[..k], pk);
            && ids[k] in sofar
            && Retired(entries, ids[..k + 1], pk) == sofar[ids[k] := sofar[ids[k]].Supersede(Some(pk))]
  {
    assert ids[..k + 1] == ids[..k] + [ids[k]];
    assert forall x :: x in ids[..k + 1] <==> x in ids[..k] || x == ids[k];
  }

  class ConsolidationRound {
    const operations: seq<Proposal>
    const deferred: seq<Operation>
    const observations: set<nat>
    const entries: seq<nat>
    const snapshot: Snapshot
    var claimed: set<nat>
    var claimedEntries: set<nat>

    constructor (repo: Repository, operations: seq<Proposal>, observations: set<nat>, entries: seq<nat>,
                 deferred: seq<Operation>)
      requires Ids(entries) <= repo.entries.Keys
      ensures this.operations == operations && this.observations == observations
      ensures this.entries == entries && this.deferred == deferred
      ensures snapshot == SnapshotOf(Given(0, 0, 0), repo.State())
      ensures claimed == {} && claimedEntries == {}
    {
      this.operations, this.observations := operations, observations;
      this.entries, this.deferred := entries, deferred;
      this.snapshot := Snapshot(map e | e in Ids(entries) :: repo.entries[e], observations);
      this.claimed, this.claimedEntries := {}, {};
    }

    function Given(now: int, maxLines: int, maxBytes: int): Round {
      Round(operations, deferred, observations, entries, now, maxLines, maxBytes)
    }

    /** `accept`: one pass that grows the two claim sets. */
    method Accept() returns (accepted: seq<Proposal>, rejected: nat)
      modifies this
      ensures Claims(claimed, claimedEntries, accepted, rejected) == Accepted(operations, |operations|, snapshot)
    {
      claimed, claimedEntries := {}, {};
      accepted, rejected := [], 0;
      for i := 0 to |operations|
        invariant Claims(claimed, claimedEntries, accepted, rejected) == Accepted(operations, i, snapshot)
      {
        hide Validate;
        var p := operations[i];
        if Validate(p.op, snapshot, claimed, claimedEntries).Some? {
          rejected := rejected + 1;
        } else {
          claimed := claimed + p.Sources();
          claimedEntries := claimedEntries + p.Targets();
          accepted := accepted + [p];
        }
      }
    }

    /** The arm of `_write` for UPDATE and MERGE: create the successor, then retire each target. */
    method WriteSuccessor(repo: Repository, p: Proposal, now: int)
      requires ShapeFault(p.op).None? && (p.op.kind.Update? || p.op.kind.Merge?)
      requires p.Targets() <= repo.entries.Keys && p.pk !in repo.entries
      modifies repo`entries
      ensures repo.entries == WriteOne(old(repo.entries), p, now)
    {
      ghost var before := repo.entries;
      NamesOne(p);
      var entry := NewEntry(p, repo.entries[p.op.entryIds[0]].category, now);
      assert entry == NewEntry(p, NewCategory(p, before), now);
      SuccessorRows(before, p, now, entry);
      hide NewEntry, NewCategory, ShapeFault, WriteOne, Retired;
      repo.entries := repo.entries[p.pk := entry];
      assert forall x | x in p.op.entryIds :: x in p.Targets();
      repo.SupersedeEach(p.op.entryIds, p.pk);
    }

    /** `_write` */
    method Write(repo: Repository, accepted: seq<Proposal>, now: int)
      returns (consolidatedIds: seq<nat>, discardedIds: seq<nat>, created: seq<nat>)
      requires Ready(repo.entries, accepted)
      modifies repo`entries
      ensures repo.entries == WriteAll(old(repo.entries), accepted, now)
      ensures consolidatedIds == SourceIds(accepted, false) && discardedIds == SourceIds(accepted, true)
      ensures created == CreatedPks(accepted)
    {
      hide ShapeFault, WriteOne, NewEntry, NewCategory;
      ghost var before := repo.entries;
      consolidatedIds, discardedIds, created := [], [], [];
      for i := 0 to |accepted|
        invariant Ready(before, accepted[..i])
        invariant repo.entries == WriteAll(before, accepted[..i], now)
        invariant consolidatedIds == SourceIds(accepted[..i], false)
        invariant discardedIds == SourceIds(accepted[..i], true)
        invariant created == CreatedPks(accepted[..i])
      {
        var p := accepted[i];
        NextWrite(before, accepted, i, now);
        match p.op.kind {
          case Add =>
            WriteAdds(repo.entries, p, now);
            repo.entries := repo.entries[p.pk := NewEntry(p, p.op.category.value, now)];
            created := created + [p.pk];
            consolidatedIds := consolidatedIds + p.op.observationIds;
          case Update | Merge =>
            WriteSuccessor(repo, p, now);
            created := created + [p.pk];
            consolidatedIds := consolidatedIds + p.op.observationIds;
          case Confirm =>
            NamesOne(p);
            WriteConfirms(repo.entries, p, now);
            var e := p.op.entryIds[0];
            repo.entries := repo.entries[e := repo.entries[e].Confirm(now, p.Sources())];
            consolidatedIds := consolidatedIds + p.op.observationIds;
          case Discard =>
            WriteDiscards(repo.entries, p, now);
            discardedIds := discardedIds + p.op.observationIds;
        }
      }
      assert accepted[..|accepted|] == accepted;
    }

    /** `apply` */
    method Apply(repo: Repository, now: int, maxLines: int, maxBytes: int) returns (outcome: Option<RoundOutcome>)
      requires Starts(Given(now, maxLines, maxBytes), repo.State())
      requires snapshot == SnapshotOf(Given(now, maxLines, maxBytes), repo.State())
      modifies this, repo
      ensures repo.State() == After(Given(now, maxLines, maxBytes), old(repo.State()))
      ensures outcome == if Decide(Given(now, maxLines, maxBytes), old(repo.State())).accepted == [] then None
                         else Some(Outcome(Given(now, maxLines, maxBytes), old(repo.State())))
    {
      hide ShapeFault, WriteOne, WriteAll, SourceIds, CreatedPks, Pruned, Accepted, ActiveAt, WroteOne, Wrote,
           Evict, Settled, Surviving, DeferredIds, Document, WellTyped, Apart, Marked, With, Ids;
      ghost var r, s := Given(now, maxLines, maxBytes), repo.State();
      var accepted, rejected := Accept();
      assert Claims(claimed, claimedEntries, accepted, rejected) == Decide(r, s);
      if accepted == [] {
        return None;
      }
      DecideIsReady(r, s);
      var consolidatedIds, discardedIds, created := Write(repo, accepted, now);
      repo.Mark(consolidatedIds, Consolidated);
      MarkedMeans(s.observations, repo.observations, consolidatedIds, Consolidated);
      ghost var halfway := repo.observations;
      repo.Mark(discardedIds, Discarded);
      MarkedMeans(halfway, repo.observations, discardedIds, Discarded);
      SettledInTwo(s.observations, consolidatedIds, discardedIds);
      SurvivingIsKeyed(r, s, accepted);
      var surviving := Surviving(repo.entries, entries, created);
      var kept, evicted := PruneToBudget(surviving, maxLines, maxBytes);
      PruneSplits(surviving, maxLines, maxBytes);
      EvictedAreRows(repo.entries, entries, created, evicted, kept);
      repo.SupersedeAll(evicted);
      repo.document := RenderMemoryDocument(kept);
      var pending := observations - claimed;
      outcome := Some(RoundOutcome(|accepted|, rejected, |consolidatedIds|, |discardedIds|, |pending|,
                                   |DeferredIds(deferred) * pending|));
    }
  }

  /** `run_consolidation_round` once the model has answered: the parsed operations up to the cap make a round, the
      others are put off, and an empty answer changes nothing. */
  method RunConsolidationRound(repo: Repository, a: Answer) returns (outcome: Option<RoundOutcome>)
    requires Asked(a, repo.State())
    modifies repo
    ensures Starts(RoundFor(a), old(repo.State()))
    ensures repo.State() == After(RoundFor(a), old(repo.State()))
    ensures outcome == if Decide(RoundFor(a), old(repo.State())).accepted == [] then None
                       else Some(Outcome(RoundFor(a), old(repo.State())))
  {
    AnswerStarts(a, repo.State());
    if a.operations == [] {
      return None;
    }
    var parsed := ParsedAll(a.operations);
    var n := if |parsed| < MAX_OPERATIONS then |parsed| else MAX_OPERATIONS;
    var proposed := Proposed(parsed[..n], a.keys[..n]);
    var round := new ConsolidationRound(repo, proposed, a.observations, a.entries, parsed[n..]);
    hide After, Outcome, Decide, Starts, ParsedAll, Proposed;
    outcome := round.Apply(repo, a.now, a.maxLines, a.maxBytes);
  }

  // ---------------------------------------------------------------- steps of the loops

  lemma NextWrite(before: map<nat, Entry>, ps: seq<Proposal>, i: nat, now: int)
    requires i < |ps| && Ready(before, ps) && Ready(before, ps[..i])
    ensures Ready(before, ps[..i + 1])
    ensures var p, written := ps[i], WriteAll(before, ps[..i], now);
            && ShapeFault(p.op).None? && p.Targets() <= written.Keys && p.pk !in written
            && WriteAll(before, ps[..i + 1], now) == WriteOne(written, p, now)
    ensures SourceIds(ps[..i + 1], true) ==
            SourceIds(ps[..i], true) + if ps[i].op.kind.Discard? then ps[i].op.observationIds else []
    ensures SourceIds(ps[..i + 1], false) ==
            SourceIds(ps[..i], false) + if ps[i].op.kind.Discard? then [] else ps[i].op.observationIds
    ensures CreatedPks(ps[..i + 1]) == CreatedPks(ps[..i]) + if ps[i].Creates() then [ps[i].pk] else []
  {
    hide ShapeFault, WriteOne, Wrote, WroteOne;
    var next := ps[..i + 1];
    assert ps[i] in ps && next[..i] == ps[..i] && next[i] == ps[i];
    assert Ready(before, next);
    KeysOfWritten(before, ps[..i], now);
  }

  lemma KeysOfWritten(before: map<nat, Entry>, ps: seq<Proposal>, now: int)
    requires Ready(before, ps)
    ensures before.Keys <= WriteAll(before, ps, now).Keys
    ensures forall x | x in WriteAll(before, ps, now) :: x in before || exists p :: p in ps && p.pk == x
  {
    hide ShapeFault, WriteOne, WroteOne, WriteAll;
    assert Wrote(before, ps, now, WriteAll(before, ps, now));
  }

  lemma SuccessorRows(entries: map<nat, Entry>, p: Proposal, now: int, entry: Entry)
    requires ShapeFault(p.op).None? && (p.op.kind.Update? || p.op.kind.Merge?)
    requires p.Targets() <= entries.Keys && p.pk !in entries && entry == NewEntry(p, NewCategory(p, entries), now)
    ensures WriteOne(entries, p, now) == Retired(entries[p.pk := entry], p.op.entryIds, p.pk)
  {
    hide NewEntry, NewCategory;
    assert forall x | x in p.op.entryIds :: x in p.Targets();
  }

  lemma WriteAdds(entries: map<nat, Entry>, p: Proposal, now: int)
    requires ShapeFault(p.op).None? && p.Targets() <= entries.Keys && p.op.kind.Add?
    ensures p.op.category.Some?
    ensures WriteOne(entries, p, now) == entries[p.pk := NewEntry(p, p.op.category.value, now)]
  {
  }

  lemma WriteConfirms(entries: map<nat, Entry>, p: Proposal, now: int)
    requires ShapeFault(p.op).None? && p.Targets() <= entries.Keys && p.op.kind.Confirm?
    ensures p.op.entryIds != [] && p.op.entryIds[0] in entries
    ensures WriteOne(entries, p, now) ==
            entries[p.op.entryIds[0] := entries[p.op.entryIds[0]].Confirm(now, p.Sources())]
  {
    NamesOne(p);
  }

  lemma WriteDiscards(entries: map<nat, Entry>, p: Proposal, now: int)
    requires ShapeFault(p.op).None? && p.Targets() <= entries.Keys && p.op.kind.Discard?
    ensures WriteOne(entries, p, now) == entries
  {
  }

  lemma EvictedAreRows(entries: map<nat, Entry>, shown: seq<nat>, created: seq<nat>, evicted: seq<Entry>,
                       kept: seq<Entry>)
    requires Ids(shown) <= entries.Keys && Ids(created) <= entries.Keys && RowsKeyed(entries)
    requires Rows(kept) + Rows(evicted) == Rows(Surviving(entries, shown, created))
    ensures forall e | e in evicted :: e.pk in entries
  {
    hide ActiveAt;
    forall e | e in evicted ensures e.pk in entries {
      assert e in Rows(evicted);
      assert Ids(shown + created) == Ids(shown) + Ids(created);
      ActiveRows(entries, shown + created);
    }
  }

  lemma EvictNone(entries: map<nat, Entry>)
    ensures Evict(entries, []) == entries
  {
  }

  lemma SettledInTwo(observations: map<nat, ObservationStatus>, consolidated: seq<nat>, discarded: seq<nat>)
    ensures Settled(observations, consolidated, discarded) ==
            Marked(Marked(observations, consolidated, Consolidated), discarded, Discarded)
  {
  }

  lemma EvictOneMore(entries: map<nat, Entry>, evicted: seq<Entry>, i: nat)
    requires i < |evicted| && evicted[i].pk in entries
    ensures evicted[i].pk in Evict(entries, evicted[..i])
    ensures var sofar := Evict(entries, evicted[..i]);
            Evict(entries, evicted[..i + 1]) == sofar[evicted[i].pk := sofar[evicted[i].pk].Supersede(None)]
  {
    assert evicted[..i + 1] == evicted[..i] + [evicted[i]];
    assert forall e :: e in evicted[..i + 1] <==> e in evicted[..i] || e == evicted[i];
  }
}
