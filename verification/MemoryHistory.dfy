/** What holds over every history of a repository's memory: any number of extractions and
    consolidation rounds, from no rows at all. */
module MemoryHistory {
  import opened Common
  import opened MemoryModel
  import opened MemoryRender
  import opened MemoryPrune
  import opened MemoryConsolidation
  import opened MemoryRound

  /** What happens to the rows: an extraction stores new pending observations, or a round runs. */
  datatype Event = Extract(observations: set<nat>) | Consolidate(answer: Answer)

  function ActivePks(entries: map<nat, Entry>): set<nat> {
    set x | x in entries && entries[x].status.Active?
  }

  function ActiveEntries(entries: map<nat, Entry>): set<Entry> {
    set x | x in entries && entries[x].status.Active? :: entries[x]
  }

  /** A round is shown every active entry, and observations that are pending. */
  ghost predicate Faces(r: Round, s: Store) {
    && Starts(r, s)
    && Ids(r.entries) == ActivePks(s.entries)
    && forall o | o in r.observations :: s.observations[o].Pending?
  }

  ghost predicate Enabled(e: Event, s: Store) {
    match e
    case Extract(os) => os !! s.observations.Keys
    case Consolidate(a) =>
      && Asked(a, s)
      && Ids(a.entries) == ActivePks(s.entries)
      && forall o | o in a.observations :: s.observations[o].Pending?
  }

  lemma AnswerFaces(a: Answer, s: Store)
    requires Enabled(Consolidate(a), s)
    ensures Faces(RoundFor(a), s)
  {
    hide Starts;
    AnswerStarts(a, s);
  }

  function Next(e: Event, s: Store): Store
    requires Enabled(e, s)
  {
    match e
    case Extract(os) => s.(observations := s.observations + map o | o in os :: Pending)
    case Consolidate(a) =>
      AnswerFaces(a, s);
      if a.operations == [] then s else After(RoundFor(a), s)
  }

  const NOTHING := Store(map[], map[], "")

  ghost predicate History(states: seq<Store>, events: seq<Event>) {
    && |states| == |events| + 1
    && states[0] == NOTHING
    && forall i | 0 <= i < |events| :: Enabled(events[i], states[i]) && states[i + 1] == Next(events[i], states[i])
  }

  // ---------------------------------------------------------------- the fate of a row

  datatype Fate = Same | Made(p: Proposal) | Replaced(p: Proposal) | Restated(p: Proposal)

  /** What the operations did to row x. */
  ghost predicate HadFate(entries: map<nat, Entry>, ps: seq<Proposal>, now: int, x: nat, f: Fate)
    requires Ready(entries, ps) && x in WriteAll(entries, ps, now)
  {
    var row := WriteAll(entries, ps, now)[x];
    match f
    case Same => x in entries && row == entries[x] && !Targeted(ps, x)
    case Made(p) =>
      x !in entries && p in ps && p.Creates() && p.pk == x && row == NewEntry(p, NewCategory(p, entries), now)
    case Replaced(p) =>
      && x in entries && p in ps && p.Creates() && x in p.Retires()
      && row == entries[x].Supersede(Some(p.pk))
    case Restated(p) =>
      && x in entries && p in ps && p.op.kind.Confirm? && x == p.op.entryIds[0] && x in p.Targets()
      && row == entries[x].Confirm(now, p.Sources())
  }

  lemma EveryRowHasAFate(entries: map<nat, Entry>, ps: seq<Proposal>, now: int, x: nat)
    requires Ready(entries, ps) && x in WriteAll(entries, ps, now)
    ensures exists f :: HadFate(entries, ps, now, x, f)
  {
    hide ShapeFault, WriteAll, NewEntry, NewCategory, CreatedPks, Apart;
    var after := WriteAll(entries, ps, now);
    if x in CreatedPks(ps) {
      var p :| p in ps && p.Creates() && p.pk == x;
      assert WroteOne(entries, p, now, after);
      assert HadFate(entries, ps, now, x, Made(p));
    } else if Targeted(ps, x) {
      var p :| p in ps && x in p.Targets();
      assert WroteOne(entries, p, now, after);
      OnlyTarget(p, x);
      assert HadFate(entries, ps, now, x, if p.op.kind.Confirm? then Restated(p) else Replaced(p));
    } else {
      assert HadFate(entries, ps, now, x, Same);
    }
  }

  /** A row the operations created is active; the rows they retired are not; no other status changed. */
  lemma StatusAfterWrite(entries: map<nat, Entry>, ps: seq<Proposal>, now: int, x: nat)
    requires Ready(entries, ps) && x in WriteAll(entries, ps, now)
    ensures WriteAll(entries, ps, now)[x].status.Active? ==>
              x in CreatedPks(ps) || (x in entries && entries[x].status.Active?)
    ensures x in CreatedPks(ps) ==> WriteAll(entries, ps, now)[x].status.Active?
  {
    hide ShapeFault, WriteAll, NewCategory;
    EveryRowHasAFate(entries, ps, now, x);
    if x in CreatedPks(ps) {
      var p :| p in ps && p.Creates() && p.pk == x;
      assert WroteOne(entries, p, now, WriteAll(entries, ps, now));
    }
  }

  // ---------------------------------------------------------------- one round

  /** The active entries after a round are exactly what pruning kept. */
  lemma KeptAreActive(r: Round, s: Store, ps: seq<Proposal>)
    requires Faces(r, s) && Ready(s.entries, ps)
    ensures ActiveEntries(Applied(r, s, ps).entries) == Rows(Pressure(r, s, ps).0)
    ensures ActiveEntries(WriteAll(s.entries, ps, r.now)) != {} ==> Pressure(r, s, ps).0 != []
    ensures var written := WriteAll(s.entries, ps, r.now);
            forall e | e in Pressure(r, s, ps).1 :: e.pk in written && written[e.pk] == e && e.status.Active?
  {
    hide ShapeFault, WriteAll, CreatedPks, ActiveAt, Pruned, SourceIds, Wrote;
    var written := WriteAll(s.entries, ps, r.now);
    var (kept, evicted) := Pressure(r, s, ps);
    SurvivingIsKeyed(r, s, ps);
    var list := Surviving(written, r.entries, CreatedPks(ps));
    SurvivingAreActive(r, s, ps);
    PruneSplits(list, r.maxLines, r.maxBytes);
    PruneFits(list, r.maxLines, r.maxBytes);
    EvictLeavesKept(written, Rows(kept), evicted);
    forall e | e in evicted ensures e.pk in written && written[e.pk] == e && e.status.Active? {
      assert e in Rows(evicted);
    }
    if ActiveEntries(written) != {} {
      assert Rows([]) == {};
    }
  }

  lemma EvictLeavesKept(written: map<nat, Entry>, kept: set<Entry>, evicted: seq<Entry>)
    requires RowsKeyed(written) && kept !! Rows(evicted) && kept + Rows(evicted) == ActiveEntries(written)
    ensures ActiveEntries(Evict(written, evicted)) == kept
  {
    var after := Evict(written, evicted);
    forall e | e in evicted ensures e.pk in written && written[e.pk] == e && e !in kept {
      assert e in Rows(evicted) && e in ActiveEntries(written);
    }
    forall e ensures e in ActiveEntries(after) <==> e in kept {
      if e in kept {
        assert e in ActiveEntries(written);
        assert written[e.pk] == e && after[e.pk] == e;
      }
      if e in ActiveEntries(after) {
        assert written[e.pk] == e && e !in evicted;
        assert e in ActiveEntries(written);
      }
    }
  }

  lemma SurvivingAreActive(r: Round, s: Store, ps: seq<Proposal>)
    requires Faces(r, s) && Ready(s.entries, ps)
    ensures var written := WriteAll(s.entries, ps, r.now);
            && Ids(r.entries) <= written.Keys && Ids(CreatedPks(ps)) <= written.Keys
            && Rows(Surviving(written, r.entries, CreatedPks(ps))) == ActiveEntries(written)
  {
    hide ShapeFault, WriteAll, CreatedPks, ActiveAt;
    SurvivingIsKeyed(r, s, ps);
    var written := WriteAll(s.entries, ps, r.now);
    var pks := r.entries + CreatedPks(ps);
    forall x | x in written && written[x].status.Active? ensures x in pks {
      StatusAfterWrite(s.entries, ps, r.now, x);
      assert x in Ids(r.entries) || x in CreatedPks(ps);
    }
    assert Ids(pks) == Ids(r.entries) + Ids(CreatedPks(ps));
    assert forall x | x in pks :: x in Ids(pks);
  }

  // ---------------------------------------------------------------- what every state satisfies

  /** Observation o led to row x. */
  ghost predicate Linked(s: Store, x: nat, o: nat) {
    x in s.entries && o in s.entries[x].observations
  }

  /** A consolidated observation is linked to exactly one entry, any other to none. */
  ghost predicate Provenance(s: Store) {
    && (forall x, o | Linked(s, x, o) :: o in s.observations && s.observations[o].Consolidated?)
    && (forall x, y, o | Linked(s, x, o) && Linked(s, y, o) :: x == y)
    && (forall o | o in s.observations && s.observations[o].Consolidated? :: exists x :: Linked(s, x, o))
  }

  /** A superseded row names a successor of its own category, or none; an active row names none. */
  ghost predicate Lineage(s: Store) {
    forall x | x in s.entries && s.entries[x].successor.Some? ::
      && s.entries[x].status.Superseded?
      && s.entries[x].successor.value in s.entries
      && s.entries[s.entries[x].successor.value].category == s.entries[x].category
  }

  ghost predicate Listed(entries: map<nat, Entry>) {
    forall x | x in entries :: !entries[x].category.Unlisted?
  }

  /** The stored document is the render of the active entries. */
  ghost predicate Rendered(s: Store) {
    Keyed(ActiveEntries(s.entries)) && s.document == Document(ActiveEntries(s.entries))
  }

  ghost predicate Invariant(s: Store) {
    RowsKeyed(s.entries) && Listed(s.entries) && Rendered(s) && Lineage(s) && Provenance(s)
  }

  /** `document_would_be_discarded` */
  predicate DocumentWouldBeDiscarded(s: Store) {
    ActivePks(s.entries) == {} && s.document != ""
  }

  /** How a later state may differ from an earlier one. */
  ghost predicate Evolves(s: Store, t: Store) {
    && s.entries.Keys <= t.entries.Keys
    && (forall x | x in s.entries :: SameFact(s.entries[x], t.entries[x]))
    && (forall x | x in s.entries && s.entries[x].status.Superseded? :: t.entries[x] == s.entries[x])
    && s.observations.Keys <= t.observations.Keys
    && (forall o | o in s.observations && !s.observations[o].Pending? :: t.observations[o] == s.observations[o])
    && (ActivePks(s.entries) != {} ==> ActivePks(t.entries) != {})
  }

  predicate SameFact(a: Entry, b: Entry) {
    a.content == b.content && a.category == b.category && a.createdAt == b.createdAt
  }

  /** A successor named in one step is a row made in that step. */
  ghost predicate NewSuccessors(s: Store, t: Store) {
    forall x | x in s.entries && x in t.entries && s.entries[x].status.Active? && t.entries[x].successor.Some? ::
      t.entries[x].successor.value !in s.entries && t.entries[x].successor.value in t.entries
  }

  // ---------------------------------------------------------------- one round keeps it all

  lemma RoundKeepsKeys(r: Round, s: Store, ps: seq<Proposal>)
    requires Faces(r, s) && Ready(s.entries, ps)
    ensures var t := Applied(r, s, ps);
            && RowsKeyed(t.entries)
            && t.entries.Keys == s.entries.Keys + Ids(CreatedPks(ps))
            && t.observations.Keys == s.observations.Keys
  {
    hide ShapeFault, WriteAll, CreatedPks, Pressure, SourceIds, WroteOne;
    WrittenAreKeyed(s.entries, ps, r.now);
  }

  /** Row x after the round is the written row, or that row retired with no successor. */
  lemma RowAfter(r: Round, s: Store, ps: seq<Proposal>, x: nat)
    requires Faces(r, s) && Ready(s.entries, ps) && x in Applied(r, s, ps).entries
    ensures x in WriteAll(s.entries, ps, r.now)
    ensures var row, t := WriteAll(s.entries, ps, r.now)[x], Applied(r, s, ps).entries[x];
            t == row || (row.status.Active? && t == row.Supersede(None))
  {
    hide ShapeFault, WriteAll, CreatedPks, Pressure, SourceIds;
    KeptAreActive(r, s, ps);
  }

  lemma RoundEvolves(r: Round, s: Store, ps: seq<Proposal>)
    requires Faces(r, s) && Ready(s.entries, ps) && Lineage(s)
    requires forall p | p in ps :: Applicable(p, SnapshotOf(r, s))
    ensures Evolves(s, Applied(r, s, ps)) && NewSuccessors(s, Applied(r, s, ps))
  {
    hide ShapeFault, WriteAll, CreatedPks, Pressure, NewEntry, NewCategory, SourceIds, Applied;
    var t := Applied(r, s, ps);
    RoundKeepsKeys(r, s, ps);
    forall x | x in s.entries
      ensures SameFact(s.entries[x], t.entries[x])
      ensures s.entries[x].status.Superseded? ==> t.entries[x] == s.entries[x]
      ensures s.entries[x].status.Active? && t.entries[x].successor.Some? ==>
                t.entries[x].successor.value !in s.entries && t.entries[x].successor.value in t.entries
    {
      RowEvolves(r, s, ps, x);
    }
    ObservationsEvolve(r, s, ps);
    SomeStaysActive(r, s, ps);
  }

  lemma RowEvolves(r: Round, s: Store, ps: seq<Proposal>, x: nat)
    requires Faces(r, s) && Ready(s.entries, ps) && Lineage(s) && x in s.entries
    requires forall p | p in ps :: Applicable(p, SnapshotOf(r, s))
    ensures var t := Applied(r, s, ps);
            && x in t.entries
            && SameFact(s.entries[x], t.entries[x])
            && (s.entries[x].status.Superseded? ==> t.entries[x] == s.entries[x])
            && (s.entries[x].status.Active? && t.entries[x].successor.Some? ==>
                  t.entries[x].successor.value !in s.entries && t.entries[x].successor.value in t.entries)
  {
    hide ShapeFault, WriteAll, CreatedPks, Pressure, NewEntry, NewCategory, SourceIds, Applied;
    RoundKeepsKeys(r, s, ps);
    RowAfter(r, s, ps, x);
    EveryRowHasAFate(s.entries, ps, r.now, x);
    var f :| HadFate(s.entries, ps, r.now, x, f);
    if f.Replaced? || f.Restated? {
      assert Applicable(f.p, SnapshotOf(r, s));
      assert x in f.p.Targets();
      assert x in Ids(r.entries);
    }
  }

  lemma ObservationsEvolve(r: Round, s: Store, ps: seq<Proposal>)
    requires Faces(r, s) && Ready(s.entries, ps)
    requires forall p | p in ps :: Applicable(p, SnapshotOf(r, s))
    ensures var t := Applied(r, s, ps);
            && t.observations.Keys == s.observations.Keys
            && (forall o | o in s.observations && !s.observations[o].Pending? :: t.observations[o] == s.observations[o])
            && (forall o | o in s.observations && s.observations[o].Pending? ::
                  t.observations[o] == if o in SourceIds(ps, true) then Discarded
                                       else if o in SourceIds(ps, false) then Consolidated else Pending)
  {
    hide ShapeFault, WriteAll, CreatedPks, Pressure;
    forall o | o in s.observations && !s.observations[o].Pending?
      ensures o !in SourceIds(ps, true) && o !in SourceIds(ps, false)
    {
      forall p | p in ps ensures o !in p.Sources() {
        assert Applicable(p, SnapshotOf(r, s));
      }
    }
  }

  lemma SomeStaysActive(r: Round, s: Store, ps: seq<Proposal>)
    requires Faces(r, s) && Ready(s.entries, ps)
    ensures ActivePks(s.entries) != {} ==> ActivePks(Applied(r, s, ps).entries) != {}
  {
    hide ShapeFault, WriteAll, CreatedPks, Pressure, NewEntry, NewCategory, SourceIds, Applied, WroteOne;
    if ActivePks(s.entries) != {} {
      var x :| x in ActivePks(s.entries);
      var written := WriteAll(s.entries, ps, r.now);
      EveryRowHasAFate(s.entries, ps, r.now, x);
      var f :| HadFate(s.entries, ps, r.now, x, f);
      var y := if f.Replaced? then f.p.pk else x;
      assert y in written && written[y].status.Active? by {
        if f.Replaced? {
          assert y in CreatedPks(ps) by {
            assert f.p in ps && f.p.Creates();
          }
          assert y in Ids(CreatedPks(ps));
          StatusAfterWrite(s.entries, ps, r.now, y);
        }
      }
      assert written[y] in ActiveEntries(written);
      KeptAreActive(r, s, ps);
      var kept := Pressure(r, s, ps).0;
      assert kept[0] in ActiveEntries(Applied(r, s, ps).entries) by {
        assert kept[0] in Rows(kept);
      }
      var z :| z in Applied(r, s, ps).entries && Applied(r, s, ps).entries[z].status.Active?;
      assert z in ActivePks(Applied(r, s, ps).entries);
    }
  }

  lemma RoundRenders(r: Round, s: Store, ps: seq<Proposal>)
    requires Faces(r, s) && Ready(s.entries, ps)
    ensures Rendered(Applied(r, s, ps))
  {
    hide ShapeFault, WriteAll, CreatedPks, Pressure, SourceIds, Document;
    PressureIsKeyed(r, s, ps);
    KeptAreActive(r, s, ps);
  }

  lemma RoundLists(r: Round, s: Store, ps: seq<Proposal>)
    requires Faces(r, s) && Ready(s.entries, ps) && Listed(s.entries)
    requires forall p | p in ps :: WellTyped(p.op)
    ensures Listed(Applied(r, s, ps).entries)
  {
    hide ShapeFault, WriteAll, CreatedPks, Pressure, SourceIds, Applied, WellTyped;
    WrittenCategories(s.entries, ps, r.now);
    RoundKeepsKeys(r, s, ps);
    forall x | x in Applied(r, s, ps).entries ensures !Applied(r, s, ps).entries[x].category.Unlisted? {
      RowAfter(r, s, ps, x);
    }
  }

  lemma RoundKeepsLineage(r: Round, s: Store, ps: seq<Proposal>)
    requires Faces(r, s) && Ready(s.entries, ps) && Lineage(s)
    requires forall p | p in ps :: Applicable(p, SnapshotOf(r, s))
    ensures Lineage(Applied(r, s, ps))
  {
    hide ShapeFault, WriteAll, CreatedPks, Pressure, SourceIds, Applied, WroteOne;
    var t := Applied(r, s, ps);
    RoundKeepsKeys(r, s, ps);
    forall x | x in t.entries && t.entries[x].successor.Some?
      ensures t.entries[x].status.Superseded? && t.entries[x].successor.value in t.entries
      ensures t.entries[t.entries[x].successor.value].category == t.entries[x].category
    {
      RowAfter(r, s, ps, x);
      EveryRowHasAFate(s.entries, ps, r.now, x);
      var f :| HadFate(s.entries, ps, r.now, x, f);
      if f.Replaced? {
        SuccessorCategory(r, s, ps, f.p, x);
      } else {
        assert x in s.entries && s.entries[x].successor == t.entries[x].successor;
        RowEvolves(r, s, ps, x);
        RowEvolves(r, s, ps, s.entries[x].successor.value);
      }
    }
  }

  lemma SuccessorCategory(r: Round, s: Store, ps: seq<Proposal>, p: Proposal, x: nat)
    requires Faces(r, s) && Ready(s.entries, ps) && p in ps && p.Creates() && x in p.Retires()
    requires Applicable(p, SnapshotOf(r, s))
    ensures var t := Applied(r, s, ps);
            p.pk in t.entries && t.entries[p.pk].category == s.entries[x].category
  {
    hide ShapeFault, WriteAll, CreatedPks, Pressure, SourceIds, Applied, WroteOne;
    RoundKeepsKeys(r, s, ps);
    assert p.pk in CreatedPks(ps);
    assert p.pk in Ids(CreatedPks(ps));
    RowAfter(r, s, ps, p.pk);
    EveryRowHasAFate(s.entries, ps, r.now, p.pk);
    var f :| HadFate(s.entries, ps, r.now, p.pk, f);
    assert f.Made? && f.p == p by {
      OneMaker(ps, p, f.p);
    }
    NamesOne(p);
    assert x in p.op.entryIds;
  }

  lemma OneMaker(ps: seq<Proposal>, p: Proposal, q: Proposal)
    requires PairwiseApart(ps) && p in ps && q in ps && p.pk == q.pk
    ensures p == q
  {
    var i :| 0 <= i < |ps| && ps[i] == p;
    var j :| 0 <= j < |ps| && ps[j] == q;
  }

  /** Where the observations of an operation end up: in the entry it creates or confirms. */
  function Home(p: Proposal): nat
    requires ShapeFault(p.op).None? && !p.op.kind.Discard?
  {
    if p.op.kind.Confirm? then p.op.entryIds[0] else p.pk
  }

  /** After the round row x is linked to o exactly when it was before, or when an accepted operation
      made from o created or confirmed it. */
  lemma LinksAfter(r: Round, s: Store, ps: seq<Proposal>, x: nat, o: nat)
    requires Faces(r, s) && Ready(s.entries, ps)
    ensures Linked(Applied(r, s, ps), x, o) <==>
            Linked(s, x, o) || exists p :: p in ps && !p.op.kind.Discard? && o in p.Sources() && Home(p) == x
  {
    hide ShapeFault, WriteAll, CreatedPks, Pressure, SourceIds, Applied, NewCategory, WroteOne;
    var t := Applied(r, s, ps);
    RoundKeepsKeys(r, s, ps);
    if x in t.entries {
      RowAfter(r, s, ps, x);
      EveryRowHasAFate(s.entries, ps, r.now, x);
      var f :| HadFate(s.entries, ps, r.now, x, f);
      forall p | p in ps && !p.op.kind.Discard? && o in p.Sources() && Home(p) == x ensures Linked(t, x, o) {
        HomeIsItsFate(s.entries, ps, r.now, x, f, p);
      }
      if Linked(t, x, o) && !Linked(s, x, o) {
        assert f.p in ps && o in f.p.Sources() && Home(f.p) == x;
      }
    } else {
      forall p | p in ps && !p.op.kind.Discard? ensures Home(p) != x {
        HomeIsARow(s.entries, ps, p);
      }
    }
  }

  lemma HomeIsARow(entries: map<nat, Entry>, ps: seq<Proposal>, p: Proposal)
    requires Ready(entries, ps) && p in ps && !p.op.kind.Discard?
    ensures Home(p) in entries.Keys + Ids(CreatedPks(ps))
  {
    if p.op.kind.Confirm? {
      NamesOne(p);
    } else {
      assert p.Creates() && p.pk in CreatedPks(ps);
    }
  }

  lemma HomeIsItsFate(entries: map<nat, Entry>, ps: seq<Proposal>, now: int, x: nat, f: Fate, p: Proposal)
    requires Ready(entries, ps) && x in WriteAll(entries, ps, now) && HadFate(entries, ps, now, x, f)
    requires p in ps && !p.op.kind.Discard? && Home(p) == x
    ensures (f.Made? || f.Restated?) && f.p == p
  {
    hide WriteAll, NewCategory, NewEntry, ContentFault;
    if p.op.kind.Confirm? {
      NamesOne(p);
      assert Targeted(ps, x);
      assert f.Replaced? || f.Restated?;
      OneTargeter(ps, p, f.p, x);
    } else {
      OneMaker(ps, p, f.p);
    }
  }

  lemma OneTargeter(ps: seq<Proposal>, p: Proposal, q: Proposal, x: nat)
    requires PairwiseApart(ps) && p in ps && q in ps && x in p.Targets() && x in q.Targets()
    ensures p == q
  {
    var i :| 0 <= i < |ps| && ps[i] == p;
    var j :| 0 <= j < |ps| && ps[j] == q;
  }

  lemma OneSourcer(ps: seq<Proposal>, p: Proposal, q: Proposal, o: nat)
    requires PairwiseApart(ps) && p in ps && q in ps && o in p.Sources() && o in q.Sources()
    ensures p == q
  {
    var i :| 0 <= i < |ps| && ps[i] == p;
    var j :| 0 <= j < |ps| && ps[j] == q;
  }

  lemma RoundKeepsProvenance(r: Round, s: Store, ps: seq<Proposal>)
    requires Faces(r, s) && Ready(s.entries, ps) && Provenance(s)
    requires forall p | p in ps :: Applicable(p, SnapshotOf(r, s))
    ensures Provenance(Applied(r, s, ps))
  {
    hide ShapeFault, Applied, Home, Applicable, Apart, SourceIds, Linked;
    var t := Applied(r, s, ps);
    ObservationsEvolve(r, s, ps);
    forall x, o | Linked(t, x, o) ensures o in t.observations && t.observations[o].Consolidated? {
      LinksAfter(r, s, ps, x, o);
      if !Linked(s, x, o) {
        var p :| p in ps && !p.op.kind.Discard? && o in p.Sources() && Home(p) == x;
        SourceIsSettled(r, s, ps, p, o);
      }
    }
    forall x, y, o | Linked(t, x, o) && Linked(t, y, o) ensures x == y {
      LinksAfter(r, s, ps, x, o);
      LinksAfter(r, s, ps, y, o);
      OneHome(r, s, ps, x, y, o);
    }
    forall o | o in t.observations && t.observations[o].Consolidated? ensures exists x :: Linked(t, x, o) {
      if s.observations[o].Consolidated? {
        var x :| Linked(s, x, o);
        LinksAfter(r, s, ps, x, o);
      } else {
        assert o in SourceIds(ps, false);
        var p :| p in ps && p.op.kind.Discard? == false && o in p.Sources();
        LinksAfter(r, s, ps, Home(p), o);
      }
    }
  }

  lemma SourceIsSettled(r: Round, s: Store, ps: seq<Proposal>, p: Proposal, o: nat)
    requires Faces(r, s) && Ready(s.entries, ps) && p in ps && o in p.Sources()
    requires !p.op.kind.Discard? && forall q | q in ps :: Applicable(q, SnapshotOf(r, s))
    ensures o in s.observations && s.observations[o].Pending?
    ensures Applied(r, s, ps).observations[o].Consolidated?
  {
    hide ShapeFault, Applied, Apart;
    ObservationsEvolve(r, s, ps);
    assert Applicable(p, SnapshotOf(r, s));
    if o in SourceIds(ps, true) {
      var q :| q in ps && q.op.kind.Discard? && o in q.Sources();
      OneSourcer(ps, p, q, o);
    }
  }

  lemma OneHome(r: Round, s: Store, ps: seq<Proposal>, x: nat, y: nat, o: nat)
    requires Faces(r, s) && Ready(s.entries, ps) && Provenance(s)
    requires forall p | p in ps :: Applicable(p, SnapshotOf(r, s))
    requires Linked(s, x, o) || exists p :: p in ps && !p.op.kind.Discard? && o in p.Sources() && Home(p) == x
    requires Linked(s, y, o) || exists p :: p in ps && !p.op.kind.Discard? && o in p.Sources() && Home(p) == y
    ensures x == y
  {
    hide ShapeFault, Applied, Home, Applicable, Apart, SourceIds, Linked;
    if exists p :: p in ps && !p.op.kind.Discard? && o in p.Sources() && Home(p) == x {
      var p :| p in ps && !p.op.kind.Discard? && o in p.Sources() && Home(p) == x;
      SourceIsSettled(r, s, ps, p, o);
    }
    if exists q :: q in ps && !q.op.kind.Discard? && o in q.Sources() && Home(q) == y {
      var q :| q in ps && !q.op.kind.Discard? && o in q.Sources() && Home(q) == y;
      SourceIsSettled(r, s, ps, q, o);
      if !Linked(s, x, o) {
        var p :| p in ps && !p.op.kind.Discard? && o in p.Sources() && Home(p) == x;
        OneSourcer(ps, p, q, o);
      }
    }
  }

  // ---------------------------------------------------------------- what a round leaves

  /** Some accepted operation that discards, or one that does not, is made from o. */
  ghost predicate From(ps: seq<Proposal>, o: nat, discards: bool) {
    exists p :: p in ps && (p.op.kind == Discard) == discards && o in p.op.observationIds
  }

  /** The observations a round was shown: discarded if an accepted operation discards them, consolidated if another
      one is made from them, else pending as before. All others keep their status. */
  lemma ObservationsAfter(r: Round, s: Store, o: nat)
    requires Faces(r, s) && o in s.observations
    ensures var ps := Decide(r, s).accepted;
            && o in After(r, s).observations
            && (From(ps, o, true) ==> After(r, s).observations[o] == Discarded)
            && (From(ps, o, false) ==> After(r, s).observations[o] == Consolidated)
            && (!From(ps, o, true) && !From(ps, o, false) ==> After(r, s).observations[o] == s.observations[o])
            && (From(ps, o, true) || From(ps, o, false) ==> o in r.observations)
  {
    assert Starts(r, s);
    hide Applied, Decide, Starts, Faces, Ready, From, Applicable, WellTyped;
    var ps := Decide(r, s).accepted;
    DecideIsReady(r, s);
    SourcesAre(ps, o);
    ShownOnly(r, s, ps, o);
    if ps == [] {
      NothingFrom(o);
    } else {
      ObservationsEvolve(r, s, ps);
      if From(ps, o, true) {
        NotBoth(s.entries, ps, o);
      }
    }
  }

  lemma NothingFrom(o: nat)
    ensures !From([], o, true) && !From([], o, false)
  {
  }

  lemma NotBoth(entries: map<nat, Entry>, ps: seq<Proposal>, o: nat)
    requires Ready(entries, ps) && From(ps, o, true)
    ensures !From(ps, o, false)
  {
    hide ShapeFault;
    var p :| p in ps && (p.op.kind == Discard) == true && o in p.op.observationIds;
    if From(ps, o, false) {
      var q :| q in ps && (q.op.kind == Discard) == false && o in q.op.observationIds;
      OneSourcer(ps, p, q, o);
    }
  }

  lemma WerePending(r: Round, s: Store)
    requires Faces(r, s)
    ensures forall o | o in r.observations :: o in s.observations && s.observations[o] == Pending
  {
  }

  lemma SourcesAre(ps: seq<Proposal>, o: nat)
    ensures From(ps, o, true) <==> o in SourceIds(ps, true)
    ensures From(ps, o, false) <==> o in SourceIds(ps, false)
  {
    hide SourceIds;
    if o in SourceIds(ps, true) {
      var p :| p in ps && p.op.kind.Discard? && o in p.Sources();
      assert (p.op.kind == Discard) == true && o in p.op.observationIds;
    }
    if o in SourceIds(ps, false) {
      var p :| p in ps && !p.op.kind.Discard? && o in p.Sources();
      assert (p.op.kind == Discard) == false && o in p.op.observationIds;
    }
  }

  lemma ShownOnly(r: Round, s: Store, ps: seq<Proposal>, o: nat)
    requires Faces(r, s) && forall p | p in ps :: Applicable(p, SnapshotOf(r, s))
    ensures From(ps, o, true) || From(ps, o, false) ==> o in r.observations
    ensures o in r.observations ==> o in s.observations && s.observations[o].Pending?
  {
    hide ShapeFault;
    if p :| p in ps && o in p.op.observationIds {
      assert Applicable(p, SnapshotOf(r, s));
      assert o in p.Sources();
    }
  }

  /** Those of these observations that have this status. */
  function Having(observations: map<nat, ObservationStatus>, among: set<nat>, status: ObservationStatus): set<nat> {
    set o | o in among && o in observations && observations[o] == status
  }

  /** Those of these observations that some of these operations name. */
  function Naming(operations: seq<Operation>, among: set<nat>): set<nat> {
    set o | o in among && exists op | op in operations :: o in op.observationIds
  }

  lemma StatusOf(r: Round, s: Store, o: nat)
    requires Faces(r, s) && o in r.observations
    ensures var ps, now := Decide(r, s).accepted, After(r, s).observations;
            && o in now
            && (now[o] == Discarded <==> o in SourceIds(ps, true))
            && (now[o] == Consolidated <==> o in SourceIds(ps, false))
  {
    assert Starts(r, s);
    hide Decide, After, SourceIds, Faces, From, WellTyped;
    WerePending(r, s);
    ObservationsAfter(r, s, o);
    SourcesAre(Decide(r, s).accepted, o);
  }

  /** The round's report counts what became of the observations it was shown. */
  lemma OutcomeCounts(r: Round, s: Store)
    requires Faces(r, s)
    ensures var out, now := Outcome(r, s), After(r, s).observations;
            && out.applied == |Decide(r, s).accepted| && out.rejected == |r.operations| - |Decide(r, s).accepted|
            && out.consolidated == |Having(now, r.observations, Consolidated)|
            && out.discarded == |Having(now, r.observations, Discarded)|
            && out.stillPending == |Having(now, r.observations, Pending)|
            && out.truncated == |Naming(r.deferred, Having(now, r.observations, Pending))|
  {
    hide Decide, After, SourceIds, WellTyped, Having, Naming;
    var c := Decide(r, s);
    ClaimedIsSettled(r, s);
    hide Faces, Starts;
    forall o | o in r.observations
      ensures o in After(r, s).observations
      ensures After(r, s).observations[o] == Discarded <==> o in SourceIds(c.accepted, true)
      ensures After(r, s).observations[o] == Consolidated <==> o in SourceIds(c.accepted, false)
    {
      StatusOf(r, s, o);
    }
    CountedByStatus(After(r, s).observations, r.observations, SourceIds(c.accepted, false),
                    SourceIds(c.accepted, true), c.claimed, r.deferred);
  }

  lemma CountedByStatus(now: map<nat, ObservationStatus>, shown: set<nat>, consolidated: seq<nat>, discarded: seq<nat>,
                        claimed: set<nat>, deferred: seq<Operation>)
    requires Ids(consolidated) + Ids(discarded) == claimed <= shown
    requires forall o | o in shown :: o in now && (now[o] == Discarded <==> o in discarded)
                                      && (now[o] == Consolidated <==> o in consolidated)
    ensures Having(now, shown, Consolidated) == Ids(consolidated) && Having(now, shown, Discarded) == Ids(discarded)
    ensures Having(now, shown, Pending) == shown - claimed
    ensures Naming(deferred, shown - claimed) == DeferredIds(deferred) * (shown - claimed)
  {
  }

  /** Pruning decides which written rows stay active; the others are superseded by nothing, and keep all they say. */
  lemma RowAfterRound(r: Round, s: Store, x: nat)
    requires Faces(r, s) && Decide(r, s).accepted != []
    ensures Ready(s.entries, Decide(r, s).accepted)
    ensures var ps := Decide(r, s).accepted;
            var written, kept, t := WriteAll(s.entries, ps, r.now), Pressure(r, s, ps).0, After(r, s);
            && (x in t.entries <==> x in written)
            && (x in written && (written[x].status == Superseded || written[x] in kept) ==> t.entries[x] == written[x])
            && (x in written && written[x].status == Active && written[x] !in kept ==>
                  var was, row := written[x], t.entries[x];
                  && row.status == Superseded && row.successor == None
                  && row.pk == was.pk && row.category == was.category && row.content == was.content
                  && row.createdAt == was.createdAt && row.confirmedAt == was.confirmedAt
                  && row.observations == was.observations)
  {
    assert Starts(r, s);
    DecideIsReady(r, s);
    var ps := Decide(r, s).accepted;
    hide Decide, WriteAll, Pressure, Faces, Starts, Ready, Wrote, SourceIds, CreatedPks, WellTyped, Applicable, Evict;
    ActiveRowsSplit(r, s, ps);
    EvictMeans(WriteAll(s.entries, ps, r.now), Pressure(r, s, ps).0, Pressure(r, s, ps).1, x);
    assert After(r, s).entries == Evict(WriteAll(s.entries, ps, r.now), Pressure(r, s, ps).1);
  }

  lemma EvictMeans(written: map<nat, Entry>, kept: seq<Entry>, evicted: seq<Entry>, x: nat)
    requires RowsKeyed(written)
    requires Rows(kept) !! Rows(evicted) && Rows(kept) + Rows(evicted) == ActiveEntries(written)
    ensures var after := Evict(written, evicted);
            && (x in after <==> x in written)
            && (x in written ==> after[x] == if written[x].status == Superseded || written[x] in kept
                                             then written[x] else written[x].Supersede(None))
  {
    if x in written {
      var e := written[x];
      assert e.status == Active ==> e in ActiveEntries(written);
      assert e in kept <==> e in Rows(kept);
      assert e in evicted <==> e in Rows(evicted);
      forall v | v in evicted && v.pk == x ensures v == e {
        assert v in Rows(evicted) && v in ActiveEntries(written);
      }
      assert e in evicted ==> e.status == Active;
      assert (exists v | v in evicted :: v.pk == x) <==> e in evicted;
    }
  }

  /** What is kept and what is evicted are the active rows, each on one side. */
  lemma ActiveRowsSplit(r: Round, s: Store, ps: seq<Proposal>)
    requires Faces(r, s) && Ready(s.entries, ps)
    ensures var (kept, evicted) := Pressure(r, s, ps);
            && Rows(kept) !! Rows(evicted)
            && Rows(kept) + Rows(evicted) == ActiveEntries(WriteAll(s.entries, ps, r.now))
            && RowsKeyed(WriteAll(s.entries, ps, r.now))
  {
    hide ShapeFault, WriteAll, CreatedPks, ActiveAt, Pruned, Surviving;
    SurvivingIsKeyed(r, s, ps);
    SurvivingAreActive(r, s, ps);
    PruneSplits(Surviving(WriteAll(s.entries, ps, r.now), r.entries, CreatedPks(ps)), r.maxLines, r.maxBytes);
  }

  // ---------------------------------------------------------------- every history

  /** An extraction adds its observations as pending and touches nothing else; a consolidation is its round. */
  lemma NextMeans(e: Event, s: Store)
    requires Enabled(e, s)
    ensures e.Extract? ==>
              && Next(e, s).entries == s.entries && Next(e, s).document == s.document
              && (forall o :: o in Next(e, s).observations <==> o in s.observations || o in e.observations)
              && (forall o | o in s.observations :: Next(e, s).observations[o] == s.observations[o])
              && (forall o | o in e.observations :: Next(e, s).observations[o] == Pending)
    ensures e.Consolidate? ==> Starts(RoundFor(e.answer), s) && Next(e, s) == After(RoundFor(e.answer), s)
  {
    hide Applied, Starts, Ready, Document;
    if e.Consolidate? {
      AnswerFaces(e.answer, s);
    }
  }

  lemma NextKeeps(e: Event, s: Store)
    requires Invariant(s) && Enabled(e, s)
    ensures Invariant(Next(e, s)) && Evolves(s, Next(e, s)) && NewSuccessors(s, Next(e, s))
  {
    hide ShapeFault, Decide, Applied, Provenance, Document;
    match e
    case Extract(os) =>
      ExtractKeepsProvenance(os, s);
    case Consolidate(a) =>
      AnswerFaces(a, s);
      var r := RoundFor(a);
      hide RoundFor, Asked;
      var ps := Decide(r, s).accepted;
      DecideIsReady(r, s);
      if a.operations != [] && ps != [] {
        RoundKeepsKeys(r, s, ps);
        RoundLists(r, s, ps);
        RoundRenders(r, s, ps);
        RoundKeepsLineage(r, s, ps);
        RoundKeepsProvenance(r, s, ps);
        RoundEvolves(r, s, ps);
      }
  }

  lemma ExtractKeepsProvenance(os: set<nat>, s: Store)
    requires Provenance(s) && Enabled(Extract(os), s)
    ensures Provenance(Next(Extract(os), s))
  {
    var t := Next(Extract(os), s);
    assert forall x, o :: Linked(t, x, o) <==> Linked(s, x, o);
  }

  lemma EvolvesMeans(s: Store, t: Store)
    requires Evolves(s, t)
    ensures forall o | o in s.observations :: s.observations[o] != Pending ==> t.observations[o] == s.observations[o]
    ensures (exists x :: x in s.entries && s.entries[x].status == Active) ==>
              exists x :: x in t.entries && t.entries[x].status == Active
  {
    if x :| x in s.entries && s.entries[x].status == Active {
      assert x in ActivePks(s.entries);
      var y :| y in ActivePks(t.entries);
    }
  }

  lemma EvolvesOn(s: Store, t: Store, u: Store)
    requires Evolves(s, t) && Evolves(t, u)
    ensures Evolves(s, u)
  {
  }

  lemma {:induction false} HistoryInvariant(states: seq<Store>, events: seq<Event>, n: nat)
    requires History(states, events) && n <= |events|
    ensures Invariant(states[n])
  {
    hide Next, Enabled;
    if n == 0 {
      NothingIsValid();
    } else {
      HistoryInvariant(states, events, n - 1);
      NextKeeps(events[n - 1], states[n - 1]);
    }
  }

  lemma NothingIsValid()
    ensures Invariant(NOTHING)
  {
    assert ActiveEntries(NOTHING.entries) == {};
    assert forall c :: OfCategory({}, c) == {};
    assert SectionTexts({}, 1) == SectionTexts({}, 2) == SectionTexts({}, 3) == SectionTexts({}, 4) == [];
  }

  /** Along any history an entry keeps its content and category, leaves ACTIVE at most once and never
      changes after that, settled observations stay settled, and a repository with an active entry
      always keeps one. */
  lemma {:induction false} HistoryEvolves(states: seq<Store>, events: seq<Event>, i: nat, j: nat)
    requires History(states, events) && i <= j <= |events|
    ensures Evolves(states[i], states[j])
    ensures forall x | x in states[i].entries ::
              && x in states[j].entries
              && states[j].entries[x].content == states[i].entries[x].content
              && states[j].entries[x].category == states[i].entries[x].category
              && states[j].entries[x].createdAt == states[i].entries[x].createdAt
              && (states[i].entries[x].status == Superseded ==> states[j].entries[x] == states[i].entries[x])
    ensures forall o | o in states[i].observations ::
              && o in states[j].observations
              && (states[i].observations[o] != Pending ==> states[j].observations[o] == states[i].observations[o])
    ensures (exists x :: x in states[i].entries && states[i].entries[x].status == Active) ==>
              exists x :: x in states[j].entries && states[j].entries[x].status == Active
    decreases j
  {
    hide Next, Enabled, Invariant;
    if i < j {
      HistoryEvolves(states, events, i, j - 1);
      HistoryInvariant(states, events, j - 1);
      NextKeeps(events[j - 1], states[j - 1]);
      EvolvesOn(states[i], states[j - 1], states[j]);
    }
    EvolvesMeans(states[i], states[j]);
  }

  /** The accepted operations of a round commute in every state a history reaches. */
  lemma ReachableRoundsCommute(states: seq<Store>, events: seq<Event>, n: nat, a: Answer, qs: seq<Proposal>)
    requires History(states, events) && n <= |events| && Asked(a, states[n])
    requires multiset(qs) == multiset(Decide(RoundFor(a), states[n]).accepted)
    ensures var r, s := RoundFor(a), states[n];
            && Starts(r, s) && Ready(s.entries, Decide(r, s).accepted) && Ready(s.entries, qs)
            && Applied(r, s, qs) == Applied(r, s, Decide(r, s).accepted)
            && Pressure(r, s, qs).1 == Pressure(r, s, Decide(r, s).accepted).1
  {
    AnswerStarts(a, states[n]);
    hide Next, Enabled, Applied, Pressure, Ready, Decide, Starts, Rendered, Lineage, Provenance, RoundFor;
    HistoryInvariant(states, events, n);
    AcceptedCommute(RoundFor(a), states[n], qs);
  }

  /** In every state the stored document is the render of the active entries, and consolidating would
      never discard it. */
  lemma DocumentIsCurrent(states: seq<Store>, events: seq<Event>, n: nat)
    requires History(states, events) && n <= |events|
    ensures Keyed(ActiveEntries(states[n].entries))
    ensures states[n].document == Document(ActiveEntries(states[n].entries))
    ensures !DocumentWouldBeDiscarded(states[n])
  {
    hide Next, Enabled, Document;
    HistoryInvariant(states, events, n);
    if ActivePks(states[n].entries) == {} {
      assert ActiveEntries(states[n].entries) == {} by {
        assert forall x | x in states[n].entries :: x !in ActivePks(states[n].entries);
      }
      NothingIsValid();
      assert ActiveEntries(NOTHING.entries) == {};
    }
  }

  /** Every consolidated observation is linked to exactly one entry and every other one to none, so
      nothing is ever left to replay. */
  lemma NothingToReplay(states: seq<Store>, events: seq<Event>, n: nat)
    requires History(states, events) && n <= |events|
    ensures forall o | o in states[n].observations ::
              if states[n].observations[o].Consolidated?
              then exists x :: Linked(states[n], x, o) && forall y | Linked(states[n], y, o) :: y == x
              else forall x :: !Linked(states[n], x, o)
  {
    hide Next, Enabled, Linked;
    HistoryInvariant(states, events, n);
  }

  /** The step at which a row was superseded by another: just before it the successor did not exist. */
  ghost predicate ReplacedAt(states: seq<Store>, i: nat, x: nat, q: nat) {
    && i + 1 < |states|
    && x in states[i].entries && states[i].entries[x].status.Active?
    && q !in states[i].entries && q in states[i + 1].entries
  }

  /** A successor is made in the round that supersedes the row, so strictly after the row itself. */
  lemma {:induction false} SuccessorIsLater(states: seq<Store>, events: seq<Event>, n: nat, x: nat)
    requires History(states, events) && n <= |events|
    requires x in states[n].entries && states[n].entries[x].successor.Some?
    ensures exists i: nat :: i < n && ReplacedAt(states, i, x, states[n].entries[x].successor.value)
  {
    hide Next, Enabled, Invariant;
    if n > 0 {
      var s, t := states[n - 1], states[n];
      HistoryInvariant(states, events, n - 1);
      HistoryInvariant(states, events, n);
      NextKeeps(events[n - 1], s);
      if x in s.entries && s.entries[x].status.Superseded? {
        SuccessorIsLater(states, events, n - 1, x);
      } else if x in s.entries {
        assert ReplacedAt(states, n - 1, x, t.entries[x].successor.value);
      } else {
        NewRowsHaveNoSuccessor(events[n - 1], s, x);
      }
    }
  }

  lemma NewRowsHaveNoSuccessor(e: Event, s: Store, x: nat)
    requires Invariant(s) && Enabled(e, s) && x in Next(e, s).entries && x !in s.entries
    ensures Next(e, s).entries[x].successor.None?
  {
    hide ShapeFault, Decide, Applied, Document, WriteAll, Pressure;
    if e.Consolidate? && e.answer.operations != [] {
      AnswerFaces(e.answer, s);
      var r := RoundFor(e.answer);
      var ps := Decide(r, s).accepted;
      DecideIsReady(r, s);
      RowAfter(r, s, ps, x);
      EveryRowHasAFate(s.entries, ps, r.now, x);
    }
  }

  ghost predicate Appears(states: seq<Store>, x: nat) {
    exists i :: 0 <= i < |states| && x in states[i].entries
  }

  /** The first state a row is in. */
  ghost function Birth(states: seq<Store>, x: nat): (b: nat)
    requires Appears(states, x)
    ensures b < |states| && x in states[b].entries
    ensures forall i | 0 <= i < b :: x !in states[i].entries
  {
    if x in states[0].entries then 0 else
      assert Appears(states[1..], x) by {
        var i :| 0 <= i < |states| && x in states[i].entries;
        assert states[1..][i - 1] == states[i];
      }
      var b := 1 + Birth(states[1..], x);
      assert forall i | 1 <= i < b :: states[i] == states[1..][i - 1];
      b
  }

  /** A row's successor has its category and was made in a strictly later round. */
  lemma BornLater(states: seq<Store>, events: seq<Event>, n: nat, x: nat)
    requires History(states, events) && n <= |events|
    requires x in states[n].entries && states[n].entries[x].successor.Some?
    ensures var q := states[n].entries[x].successor.value;
            && q in states[n].entries
            && states[n].entries[q].category == states[n].entries[x].category
            && Appears(states, x) && Appears(states, q)
            && Birth(states, x) < Birth(states, q) <= n
  {
    hide Next, Enabled;
    HistoryInvariant(states, events, n);
    SuccessorIsLater(states, events, n, x);
    var q := states[n].entries[x].successor.value;
    var i: nat :| i < n && ReplacedAt(states, i, x, q);
    var b := Birth(states, q);
    assert Birth(states, x) <= i;
    assert b <= n;
    if b <= i {
      HistoryEvolves(states, events, b, i);
    }
  }

  /** Following successor links. */
  ghost function Latest(states: seq<Store>, events: seq<Event>, n: nat, x: nat): (y: nat)
    requires History(states, events) && n <= |events| && x in states[n].entries
    ensures y in states[n].entries
    ensures states[n].entries[y].successor.None?
    ensures states[n].entries[y].category == states[n].entries[x].category
    decreases n - Birth(states, x)
  {
    if states[n].entries[x].successor.None? then x else
      BornLater(states, events, n, x);
      Latest(states, events, n, states[n].entries[x].successor.value)
  }
}
