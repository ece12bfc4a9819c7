/** One consolidation round: `daiv/memory/schemas.py` and `ConsolidationRound` of
    `daiv/memory/consolidation.py`. */
module MemoryConsolidation {
  import opened Text
  import opened Common
  import opened MemoryModel

  // ---------------------------------------------------------------- operations

  datatype Kind = Add | Update | Merge | Confirm | Discard

  /** A `MemoryOperation`. The id texts are primary keys, or numbers no row carries. */
  datatype Operation = Operation(
    kind: Kind,
    entryIds: seq<nat>,
    observationIds: seq<nat>,
    category: Option<Category>,
    content: Option<string>,
    reason: Option<string>)

  const CONTENT_HARD_LIMIT := 2000
  const MIN_CONTENT_CHARS := 10
  const MAX_OPERATIONS := 50

  function Ids(ids: seq<nat>): set<nat> {
    set x | x in ids
  }

  lemma {:induction false} DistinctSize(ids: seq<nat>)
    requires Distinct(ids)
    ensures |Ids(ids)| == |ids|
  {
    if ids != [] {
      var n := |ids| - 1;
      DistinctSize(ids[..n]);
      assert Ids(ids) == Ids(ids[..n]) + {ids[n]};
    }
  }

  /** `_dedupe_ids`: each id once, at its first position. */
  function Dedupe(ids: seq<nat>): (r: seq<nat>)
    ensures Distinct(r) && Ids(r) == Ids(ids)
  {
    if ids == [] then [] else
      var n := |ids| - 1;
      assert Ids(ids) == Ids(ids[..n]) + {ids[n]};
      var before := Dedupe(ids[..n]);
      assert ids[n] in before <==> ids[n] in Ids(before);
      if ids[n] in before then before else before + [ids[n]]
  }

  /** The field validators: ids without repeats and content without surrounding white space. */
  function Parsed(raw: Operation): Operation {
    raw.(entryIds := Dedupe(raw.entryIds),
         observationIds := Dedupe(raw.observationIds),
         content := if raw.content.Some? then Some(Strip(raw.content.value)) else None)
  }

  /** What every parsed operation is: distinct ids, and a category among the five when it has one. */
  predicate WellTyped(op: Operation) {
    && Distinct(op.entryIds) && Distinct(op.observationIds)
    && (op.category.Some? ==> !op.category.value.Unlisted?)
  }

  /** What the schema admits before its validators run: a category is one of the five or absent. */
  predicate InSchema(raw: Operation) {
    raw.category.Some? ==> !raw.category.value.Unlisted?
  }

  /** Whatever ids and texts the model answers with, parsing leaves each id once and in order of first mention,
      loses none, and parsing again changes nothing. */
  lemma ParsedIsWellTyped(raw: Operation)
    requires InSchema(raw)
    ensures WellTyped(Parsed(raw))
    ensures Ids(Parsed(raw).entryIds) == Ids(raw.entryIds) && Ids(Parsed(raw).observationIds) == Ids(raw.observationIds)
    ensures Parsed(Parsed(raw)) == Parsed(raw)
  {
    hide Strip;
    DedupeOfDistinct(Dedupe(raw.entryIds));
    DedupeOfDistinct(Dedupe(raw.observationIds));
    if raw.content.Some? {
      StripTwice(raw.content.value);
    }
  }

  /** What the validators leave alone, and in what order the ids stay. */
  lemma ParsedMeans(raw: Operation)
    ensures var op := Parsed(raw);
            && op.kind == raw.kind && op.category == raw.category && op.reason == raw.reason
            && (op.content.Some? <==> raw.content.Some?)
            && (raw.content.Some? ==> op.content.value == Strip(raw.content.value))
            && FirstMentions(raw.entryIds, op.entryIds) && FirstMentions(raw.observationIds, op.observationIds)
  {
    hide Strip;
    DedupeKeepsOrder(raw.entryIds);
    DedupeKeepsOrder(raw.observationIds);
  }

  /** Each id stands before those first mentioned after it. */
  predicate FirstMentions(ids: seq<nat>, r: seq<nat>) {
    forall i, j | 0 <= i < j < |r| :: MentionedFirst(ids, r[i], r[j])
  }

  predicate MentionedFirst(ids: seq<nat>, x: nat, y: nat) {
    exists k | 0 <= k < |ids| :: ids[k] == x && y !in ids[..k]
  }

  lemma {:induction false} DedupeKeepsOrder(ids: seq<nat>)
    ensures FirstMentions(ids, Dedupe(ids))
  {
    if ids != [] {
      var n := |ids| - 1;
      DedupeKeepsOrder(ids[..n]);
      var before, r := Dedupe(ids[..n]), Dedupe(ids);
      forall i, j | 0 <= i < j < |r| ensures MentionedFirst(ids, r[i], r[j]) {
        assert before[i] in before && before[i] in Ids(ids[..n]);
        if j < |before| {
          assert MentionedFirst(ids[..n], before[i], before[j]);
          var k :| 0 <= k < n && ids[..n][k] == before[i] && before[j] !in ids[..n][..k];
          assert ids[..n][..k] == ids[..k];
        } else {
          var k :| 0 <= k < n && ids[..n][k] == before[i];
          assert ids[n] !in Ids(ids[..n]);
          assert forall x | x in ids[..k] :: x in ids[..n];
        }
      }
    }
  }

  lemma {:induction false} DedupeOfDistinct(ids: seq<nat>)
    requires Distinct(ids)
    ensures Dedupe(ids) == ids
  {
    if ids != [] {
      var n := |ids| - 1;
      DedupeOfDistinct(ids[..n]);
      assert ids == ids[..n] + [ids[n]];
    }
  }

  datatype Fault =
    | NoObservation | TargetsEntries | WrongTargetCount | NoContent | NoCategory | NoReason
    | ContentTooShort | ContentTooLong
    | UnknownObservation | ClaimedObservation | UnknownEntry | ClaimedEntry | CrossesCategories

  function ContentText(op: Operation): string {
    if op.content.Some? then op.content.value else ""
  }

  function ContentFault(content: string): Option<Fault> {
    if |content| < MIN_CONTENT_CHARS then Some(ContentTooShort)
    else if |content| > CONTENT_HARD_LIMIT then Some(ContentTooLong)
    else None
  }

  /** `MemoryOperation.shape_error` */
  function ShapeFault(op: Operation): Option<Fault> {
    if op.observationIds == [] then Some(NoObservation) else
      match op.kind
      case Add =>
        if op.entryIds != [] then Some(TargetsEntries)
        else if ContentText(op) == "" then Some(NoContent)
        else if op.category.None? then Some(NoCategory)
        else ContentFault(ContentText(op))
      case Update =>
        if |op.entryIds| != 1 then Some(WrongTargetCount)
        else if ContentText(op) == "" then Some(NoContent)
        else ContentFault(ContentText(op))
      case Merge =>
        if |op.entryIds| < 2 then Some(WrongTargetCount)
        else if ContentText(op) == "" then Some(NoContent)
        else ContentFault(ContentText(op))
      case Confirm => if |op.entryIds| != 1 then Some(WrongTargetCount) else None
      case Discard =>
        if op.entryIds != [] then Some(TargetsEntries)
        else if op.reason.None? || Strip(op.reason.value) == "" then Some(NoReason)
        else None
  }

  /** What each kind of operation must carry. */
  predicate WellShaped(op: Operation) {
    && op.observationIds != []
    && (match op.kind
        case Add => op.entryIds == [] && op.category.Some?
        case Update => |op.entryIds| == 1
        case Merge => |op.entryIds| >= 2
        case Confirm => |op.entryIds| == 1
        case Discard => op.entryIds == [] && op.reason.Some? && Strip(op.reason.value) != "")
    && (op.kind in {Add, Update, Merge} ==> MIN_CONTENT_CHARS <= |ContentText(op)| <= CONTENT_HARD_LIMIT)
  }

  lemma ShapeFaultIsExact(op: Operation)
    ensures ShapeFault(op).None? <==> WellShaped(op)
  {
  }

  /** An operation with the primary key its new entry would get. */
  datatype Proposal = Proposal(op: Operation, pk: nat)
  {
    function Targets(): set<nat> { Ids(op.entryIds) }

    function Sources(): set<nat> { Ids(op.observationIds) }

    predicate Creates() { op.kind.Add? || op.kind.Update? || op.kind.Merge? }

    /** The entries the operation supersedes. */
    function Retires(): set<nat> {
      if op.kind.Update? || op.kind.Merge? then Targets() else {}
    }
  }

  // ---------------------------------------------------------------- validate and accept

  /** The snapshot a round is decided against. */
  datatype Snapshot = Snapshot(entries: map<nat, Entry>, observations: set<nat>)

  /** The bookkeeping of `accept`. */
  datatype Claims = Claims(claimed: set<nat>, claimedEntries: set<nat>, accepted: seq<Proposal>, rejected: nat)

  /** `ConsolidationRound.validate` */
  function Validate(op: Operation, snap: Snapshot, claimed: set<nat>, claimedEntries: set<nat>): Option<Fault> {
    if ShapeFault(op).Some? then ShapeFault(op)
    else if exists o | o in op.observationIds :: o !in snap.observations then Some(UnknownObservation)
    else if exists o | o in op.observationIds :: o in claimed then Some(ClaimedObservation)
    else if exists e | e in op.entryIds :: e !in snap.entries then Some(UnknownEntry)
    else if exists e | e in op.entryIds :: e in claimedEntries then Some(ClaimedEntry)
    else if op.kind.Merge? &&
            exists e | e in op.entryIds :: snap.entries[e].category != snap.entries[op.entryIds[0]].category
    then Some(CrossesCategories)
    else None
  }

  function Consider(c: Claims, p: Proposal, snap: Snapshot): Claims {
    if Validate(p.op, snap, c.claimed, c.claimedEntries).Some? then c.(rejected := c.rejected + 1)
    else Claims(c.claimed + p.Sources(), c.claimedEntries + p.Targets(), c.accepted + [p], c.rejected)
  }

  /** The claims after the first n operations. */
  function Accepted(ops: seq<Proposal>, n: nat, snap: Snapshot): Claims
    requires n <= |ops|
  {
    if n == 0 then Claims({}, {}, [], 0) else Consider(Accepted(ops, n - 1, snap), ops[n - 1], snap)
  }

  /** The operation names only known rows, and stays within one category when it merges. */
  ghost predicate Applicable(p: Proposal, snap: Snapshot) {
    && ShapeFault(p.op).None?
    && p.Sources() <= snap.observations
    && p.Targets() <= snap.entries.Keys
    && forall e | e in p.op.entryIds :: snap.entries[e].category == snap.entries[p.op.entryIds[0]].category
  }

  predicate Apart(p: Proposal, q: Proposal) {
    p.Sources() !! q.Sources() && p.Targets() !! q.Targets() && p.pk != q.pk
  }

  /** Some operation of the list is made from observation o. */
  ghost predicate Sourced(ps: seq<Proposal>, o: nat) {
    exists p :: p in ps && o in p.Sources()
  }

  /** Some operation of the list names entry e. */
  ghost predicate Targeted(ps: seq<Proposal>, e: nat) {
    exists p :: p in ps && e in p.Targets()
  }

  /** Proposed rows get primary keys of their own. */
  ghost predicate OwnKeys(ops: seq<Proposal>) {
    forall i, j | 0 <= i < j < |ops| :: ops[i].pk != ops[j].pk
  }

  ghost predicate PairwiseApart(ps: seq<Proposal>) {
    forall i, j | 0 <= i < j < |ps| :: Apart(ps[i], ps[j])
  }

  /** Whatever the model proposes, the accepted operations are applicable and no two of them touch the
      same observation or entry. */
  lemma {:induction false} AcceptedAreApart(ops: seq<Proposal>, n: nat, snap: Snapshot)
    requires n <= |ops| && OwnKeys(ops)
    ensures var c := Accepted(ops, n, snap);
            && (forall p | p in c.accepted :: Applicable(p, snap) && p in ops[..n])
            && PairwiseApart(c.accepted)
            && (forall o :: o in c.claimed <==> Sourced(c.accepted, o))
            && (forall e :: e in c.claimedEntries <==> Targeted(c.accepted, e))
            && |c.accepted| + c.rejected == n
  {
    hide ShapeFault, Validate;
    if n > 0 {
      AcceptedAreApart(ops, n - 1, snap);
      var c, p := Accepted(ops, n - 1, snap), ops[n - 1];
      assert ops[..n] == ops[..n - 1] + [p];
      if Validate(p.op, snap, c.claimed, c.claimedEntries).None? {
        ValidIsApplicable(p, snap, c.claimed, c.claimedEntries);
        var next := c.accepted + [p];
        forall q | q in c.accepted ensures Apart(q, p) {
          assert forall o | o in q.Sources() :: Sourced(c.accepted, o);
          assert forall e | e in q.Targets() :: Targeted(c.accepted, e);
          var i :| 0 <= i < n - 1 && ops[i] == q;
        }
        assert forall q :: q in next <==> q in c.accepted || q == p;
      }
    }
  }

  lemma ValidIsApplicable(p: Proposal, snap: Snapshot, claimed: set<nat>, claimedEntries: set<nat>)
    requires Validate(p.op, snap, claimed, claimedEntries).None?
    ensures Applicable(p, snap) && p.Sources() !! claimed && p.Targets() !! claimedEntries
  {
    if !p.op.kind.Merge? && p.op.entryIds != [] {
      assert |p.op.entryIds| == 1;
    }
  }

  lemma ApplicableIsValid(p: Proposal, snap: Snapshot, claimed: set<nat>, claimedEntries: set<nat>)
    requires Applicable(p, snap) && p.Sources() !! claimed && p.Targets() !! claimedEntries
    ensures Validate(p.op, snap, claimed, claimedEntries).None?
  {
    assert forall o | o in p.op.observationIds :: o in p.Sources();
    assert forall e | e in p.op.entryIds :: e in p.Targets();
  }

  /** Acceptance is greedy and complete: an operation is accepted exactly if it is applicable and shares no
      observation or entry with an operation accepted before it. */
  lemma AcceptanceIsGreedy(ops: seq<Proposal>, n: nat, snap: Snapshot, j: nat)
    requires j < n <= |ops| && OwnKeys(ops)
    ensures ops[j] in Accepted(ops, n, snap).accepted <==>
            Applicable(ops[j], snap) && AllApart(Accepted(ops, j, snap).accepted, ops[j])
  {
    hide ShapeFault, Validate, Applicable;
    var c, p := Accepted(ops, j, snap), ops[j];
    AcceptedAreApart(ops, j, snap);
    DecidedOnce(ops, n, snap, j);
    hide Accepted, OwnKeys, PairwiseApart;
    forall q | q in c.accepted ensures q.pk != p.pk {
      KeysDiffer(ops, j, q);
    }
    ClaimsAreApart(c, p);
    hide AllApart, Sourced, Targeted;
    if Validate(p.op, snap, c.claimed, c.claimedEntries).None? {
      ValidIsApplicable(p, snap, c.claimed, c.claimedEntries);
    } else if Applicable(p, snap) && AllApart(c.accepted, p) {
      ApplicableIsValid(p, snap, c.claimed, c.claimedEntries);
    }
  }

  lemma KeysDiffer(ops: seq<Proposal>, j: nat, q: Proposal)
    requires j < |ops| && OwnKeys(ops) && q in ops[..j]
    ensures q.pk != ops[j].pk
  {
    var i :| 0 <= i < j && ops[i] == q;
  }

  /** The two claim sets say exactly what the accepted operations name. */
  lemma ClaimsAreApart(c: Claims, p: Proposal)
    requires forall o :: o in c.claimed <==> Sourced(c.accepted, o)
    requires forall e :: e in c.claimedEntries <==> Targeted(c.accepted, e)
    requires forall q | q in c.accepted :: q.pk != p.pk
    ensures AllApart(c.accepted, p) <==> p.Sources() !! c.claimed && p.Targets() !! c.claimedEntries
  {
    if p.Sources() !! c.claimed && p.Targets() !! c.claimedEntries {
      forall q | q in c.accepted ensures Apart(q, p) {
        assert forall o | o in q.Sources() :: Sourced(c.accepted, o);
        assert forall e | e in q.Targets() :: Targeted(c.accepted, e);
      }
    }
  }

  /** Whether an operation is accepted is decided at its turn. */
  lemma {:induction false} DecidedOnce(ops: seq<Proposal>, n: nat, snap: Snapshot, j: nat)
    requires j < n <= |ops| && OwnKeys(ops)
    ensures var c := Accepted(ops, j, snap);
            ops[j] in Accepted(ops, n, snap).accepted <==> Validate(ops[j].op, snap, c.claimed, c.claimedEntries).None?
  {
    hide Validate;
    if j < n - 1 {
      DecidedOnce(ops, n - 1, snap, j);
    } else {
      AcceptedAreApart(ops, j, snap);
    }
  }

  // ---------------------------------------------------------------- writing the entries

  /** The category of the entry an operation creates. */
  function NewCategory(p: Proposal, entries: map<nat, Entry>): Category
    requires p.Creates() && ShapeFault(p.op).None? && p.Targets() <= entries.Keys
  {
    if p.op.kind.Add? then p.op.category.value else
      assert p.op.entryIds[0] in p.Targets();
      entries[p.op.entryIds[0]].category
  }

  /** `_create_entry` */
  function NewEntry(p: Proposal, category: Category, now: int): Entry {
    Entry(p.pk, category, ContentText(p.op), now, now, Active, None, p.Sources())
  }

  /** The entry rows after one accepted operation. */
  function WriteOne(entries: map<nat, Entry>, p: Proposal, now: int): map<nat, Entry>
    requires ShapeFault(p.op).None? && p.Targets() <= entries.Keys
  {
    match p.op.kind
    case Add => entries[p.pk := NewEntry(p, NewCategory(p, entries), now)]
    case Update | Merge =>
      (map q | q in entries :: if q in p.Targets() then entries[q].Supersede(Some(p.pk)) else entries[q])
        [p.pk := NewEntry(p, NewCategory(p, entries), now)]
    case Confirm =>
      var q := p.op.entryIds[0];
      assert q in p.Targets();
      entries[q := entries[q].Confirm(now, p.Sources())]
    case Discard => entries
  }

  /** Every operation can be written to these rows: it names rows that are there, and the rows it
      creates are not. */
  ghost predicate Ready(entries: map<nat, Entry>, ps: seq<Proposal>) {
    && PairwiseApart(ps)
    && forall p | p in ps :: ShapeFault(p.op).None? && p.Targets() <= entries.Keys && p.pk !in entries
  }

  function CreatedPks(ps: seq<Proposal>): (pks: seq<nat>)
    ensures forall x :: x in pks <==> exists p :: p in ps && p.Creates() && p.pk == x
  {
    if ps == [] then [] else
      var n := |ps| - 1;
      assert forall p :: p in ps <==> p in ps[..n] || p == ps[n];
      CreatedPks(ps[..n]) + if ps[n].Creates() then [ps[n].pk] else []
  }

  /** What one operation left in the rows. */
  ghost predicate WroteOne(entries: map<nat, Entry>, p: Proposal, now: int, after: map<nat, Entry>)
    requires ShapeFault(p.op).None? && p.Targets() <= entries.Keys
  {
    && (p.Creates() ==> p.pk in after && after[p.pk] == NewEntry(p, NewCategory(p, entries), now))
    && (forall q | q in p.Retires() :: q in after && after[q] == entries[q].Supersede(Some(p.pk)))
    && (p.op.kind.Confirm? ==>
          var q := p.op.entryIds[0];
          q in p.Targets() && q in after && after[q] == entries[q].Confirm(now, p.Sources()))
  }

  ghost predicate WroteEach(entries: map<nat, Entry>, ps: seq<Proposal>, now: int, after: map<nat, Entry>)
    requires forall p | p in ps :: ShapeFault(p.op).None? && p.Targets() <= entries.Keys
    requires entries.Keys <= after.Keys
  {
    && (forall p | p in ps :: WroteOne(entries, p, now, after))
    && (forall q | q in entries && !Targeted(ps, q) :: after[q] == entries[q])
  }

  /** What a list of operations left in the rows, stated without their order. */
  ghost predicate Wrote(entries: map<nat, Entry>, ps: seq<Proposal>, now: int, after: map<nat, Entry>)
    requires Ready(entries, ps)
  {
    after.Keys == entries.Keys + Ids(CreatedPks(ps)) && WroteEach(entries, ps, now, after)
  }

  ghost predicate AllApart(ps: seq<Proposal>, p: Proposal) {
    forall q | q in ps :: Apart(q, p)
  }

  lemma ReadyPrefix(entries: map<nat, Entry>, ps: seq<Proposal>)
    requires ps != [] && Ready(entries, ps)
    ensures Ready(entries, ps[..|ps| - 1])
    ensures AllApart(ps[..|ps| - 1], ps[|ps| - 1])
  {
    hide ShapeFault, Apart;
    assert ps[|ps| - 1] in ps;
  }

  lemma WroteAllOf(entries: map<nat, Entry>, init: seq<Proposal>, p: Proposal, now: int,
                   before: map<nat, Entry>, after: map<nat, Entry>)
    requires Ready(entries, init) && Ready(entries, init + [p]) && Wrote(entries, init, now, before)
    requires after.Keys == before.Keys + if p.Creates() then {p.pk} else {}
    requires WroteEach(entries, init + [p], now, after)
    ensures Wrote(entries, init + [p], now, after)
  {
    hide NewEntry, NewCategory, ShapeFault, WriteOne, WroteOne, Targeted, Apart, Ready, WroteEach;
    assert (init + [p])[..|init|] == init;
  }

  /** `_write` on the entry rows. */
  function WriteAll(entries: map<nat, Entry>, ps: seq<Proposal>, now: int): (after: map<nat, Entry>)
    requires Ready(entries, ps)
    ensures Wrote(entries, ps, now, after)
  {
    if ps == [] then entries else
      var n := |ps| - 1;
      ReadyPrefix(entries, ps);
      var before := WriteAll(entries, ps[..n], now);
      var after := WriteOne(before, ps[n], now);
      assert ps[..n] + [ps[n]] == ps;
      WriteLast(entries, ps[..n], ps[n], now, before);
      WriteOneMeans(before, ps[n], now);
      WroteAllOf(entries, ps[..n], ps[n], now, before, after);
      after
  }

  /** One write changes the rows it names and adds the row it creates, nothing else. */
  lemma WriteOneMeans(entries: map<nat, Entry>, p: Proposal, now: int)
    requires ShapeFault(p.op).None? && p.Targets() <= entries.Keys && p.pk !in entries
    ensures var after := WriteOne(entries, p, now);
            && WroteOne(entries, p, now, after)
            && after.Keys == entries.Keys + (if p.Creates() then {p.pk} else {})
            && forall x | x in entries && x !in p.Targets() :: after[x] == entries[x]
  {
    hide NewEntry, NewCategory;
    assert p.op.kind.Confirm? ==> p.op.entryIds[0] in p.Targets();
  }

  /** What an earlier operation wrote, a later one apart from it leaves alone. */
  lemma WroteOneStays(entries: map<nat, Entry>, r: Proposal, p: Proposal, now: int,
                      before: map<nat, Entry>, after: map<nat, Entry>)
    requires ShapeFault(r.op).None? && r.Targets() <= entries.Keys && r.pk !in entries
    requires p.Targets() <= entries.Keys && Apart(r, p)
    requires WroteOne(entries, r, now, before)
    requires before.Keys <= after.Keys && forall x | x in before && x !in p.Targets() :: after[x] == before[x]
    ensures WroteOne(entries, r, now, after)
  {
    hide NewEntry, NewCategory, ShapeFault;
  }

  /** An operation writes the same whether or not rows it does not name have changed meanwhile. */
  lemma WroteOneSame(entries: map<nat, Entry>, before: map<nat, Entry>, p: Proposal, now: int, after: map<nat, Entry>)
    requires ShapeFault(p.op).None? && p.Targets() <= entries.Keys && p.Targets() <= before.Keys
    requires forall q | q in p.Targets() :: before[q] == entries[q]
    requires WroteOne(before, p, now, after)
    ensures WroteOne(entries, p, now, after)
  {
    hide NewEntry, ShapeFault;
    if !p.op.kind.Add? && !p.op.kind.Discard? {
      NamesOne(p);
    }
  }

  lemma NamesOne(p: Proposal)
    requires ShapeFault(p.op).None? && (p.op.kind.Update? || p.op.kind.Merge? || p.op.kind.Confirm?)
    ensures p.op.entryIds != [] && p.op.entryIds[0] in p.Targets()
  {
  }

  lemma WriteLast(entries: map<nat, Entry>, init: seq<Proposal>, p: Proposal, now: int, before: map<nat, Entry>)
    requires Ready(entries, init) && Wrote(entries, init, now, before)
    requires ShapeFault(p.op).None? && p.Targets() <= entries.Keys && p.pk !in entries
    requires forall q | q in init :: Apart(q, p)
    ensures p.Targets() <= before.Keys && p.pk !in before
    ensures forall q | q in p.Targets() :: before[q] == entries[q]
    ensures entries.Keys <= WriteOne(before, p, now).Keys
    ensures WroteEach(entries, init + [p], now, WriteOne(before, p, now))
  {
    hide NewEntry, NewCategory, ShapeFault, WriteOne, WroteOne, CreatedPks;
    forall q | q in p.Targets() ensures before[q] == entries[q] {
      assert !Targeted(init, q);
    }
    assert p.pk !in before by {
      assert forall x | x in CreatedPks(init) :: exists r :: r in init && r.pk == x;
    }
    WriteOneMeans(before, p, now);
    var after := WriteOne(before, p, now);
    WroteOneSame(entries, before, p, now, after);
    forall r | r in init ensures WroteOne(entries, r, now, after) {
      WroteOneStays(entries, r, p, now, before, after);
    }
    forall q | q in entries && !Targeted(init + [p], q) ensures after[q] == entries[q] {
      assert q !in p.Targets() by {
        assert p in init + [p];
      }
      assert !Targeted(init, q) by {
        assert forall r | r in init :: r in init + [p];
      }
    }
  }

  /** What the rows say once a list of operations has been written: which rows there are. */
  lemma WrittenKeys(entries: map<nat, Entry>, ps: seq<Proposal>, now: int, x: nat)
    requires Ready(entries, ps)
    ensures x in WriteAll(entries, ps, now) <==>
            x in entries || exists p :: p in ps && p.op.kind in {Add, Update, Merge} && p.pk == x
  {
    hide ShapeFault, WriteAll, WroteOne;
    if x in Ids(CreatedPks(ps)) {
      var p :| p in ps && p.Creates() && p.pk == x;
    }
    if p :| p in ps && p.op.kind in {Add, Update, Merge} && p.pk == x {
      assert p.Creates();
      assert x in CreatedPks(ps);
    }
  }

  /** A new row holds the operation's content and observations, the category asked for or that of the rows it
      replaces, and the round's time. */
  lemma CreatedRow(entries: map<nat, Entry>, ps: seq<Proposal>, now: int, p: Proposal)
    requires Ready(entries, ps) && p in ps && p.op.kind in {Add, Update, Merge}
    ensures p.pk in WriteAll(entries, ps, now)
    ensures var row := WriteAll(entries, ps, now)[p.pk];
            && row.pk == p.pk && p.op.content == Some(row.content)
            && row.createdAt == now && row.confirmedAt == now && row.status == Active && row.successor == None
            && (forall o :: o in row.observations <==> o in p.op.observationIds)
            && (p.op.kind == Add ==> p.op.category == Some(row.category))
            && (p.op.kind != Add ==> p.op.entryIds != [] && p.op.entryIds[0] in entries
                                     && row.category == entries[p.op.entryIds[0]].category)
  {
    hide WriteAll, CreatedPks;
    assert WroteOne(entries, p, now, WriteAll(entries, ps, now));
    if p.op.kind != Add {
      NamesOne(p);
    }
  }

  /** A row that an UPDATE or MERGE names is superseded by the new row and keeps everything else. */
  lemma ReplacedRow(entries: map<nat, Entry>, ps: seq<Proposal>, now: int, p: Proposal, x: nat)
    requires Ready(entries, ps) && p in ps && p.op.kind in {Update, Merge} && x in p.op.entryIds
    ensures x in entries && x in WriteAll(entries, ps, now)
    ensures var was, row := entries[x], WriteAll(entries, ps, now)[x];
            && row.status == Superseded && row.successor == Some(p.pk)
            && row.pk == was.pk && row.category == was.category && row.content == was.content
            && row.createdAt == was.createdAt && row.confirmedAt == was.confirmedAt
            && row.observations == was.observations
  {
    hide ShapeFault, WriteAll, CreatedPks;
    assert x in p.Targets() && x in p.Retires();
    assert WroteOne(entries, p, now, WriteAll(entries, ps, now));
  }

  /** A row that a CONFIRM names gains the observations and the time of confirmation, and nothing else. */
  lemma ConfirmedRow(entries: map<nat, Entry>, ps: seq<Proposal>, now: int, p: Proposal, x: nat)
    requires Ready(entries, ps) && p in ps && p.op.kind == Confirm && x in p.op.entryIds
    ensures x in entries && x in WriteAll(entries, ps, now)
    ensures var was, row := entries[x], WriteAll(entries, ps, now)[x];
            && row.confirmedAt == now
            && (forall o :: o in row.observations <==> o in was.observations || o in p.op.observationIds)
            && row.pk == was.pk && row.category == was.category && row.content == was.content
            && row.createdAt == was.createdAt && row.status == was.status && row.successor == was.successor
  {
    hide WriteAll, CreatedPks;
    OnlyTarget(p, x);
    assert WroteOne(entries, p, now, WriteAll(entries, ps, now));
  }

  /** A row no operation names stays as it was. */
  lemma UnnamedRow(entries: map<nat, Entry>, ps: seq<Proposal>, now: int, x: nat)
    requires Ready(entries, ps) && x in entries && forall p | p in ps :: x !in p.op.entryIds
    ensures x in WriteAll(entries, ps, now) && WriteAll(entries, ps, now)[x] == entries[x]
  {
    hide ShapeFault, WriteAll, CreatedPks;
  }

  /** The rows determine what was written: two results of the same operations agree everywhere. */
  lemma WroteIsUnique(entries: map<nat, Entry>, ps: seq<Proposal>, qs: seq<Proposal>, now: int,
                      a: map<nat, Entry>, b: map<nat, Entry>)
    requires Ready(entries, ps) && Ready(entries, qs) && forall p :: p in ps <==> p in qs
    requires Wrote(entries, ps, now, a) && Wrote(entries, qs, now, b)
    ensures a == b
  {
    hide NewEntry, NewCategory, ShapeFault, CreatedPks;
    assert Ids(CreatedPks(ps)) == Ids(CreatedPks(qs));
    forall x | x in a ensures a[x] == b[x] {
      if x in CreatedPks(ps) {
        var p :| p in ps && p.Creates() && p.pk == x;
        assert WroteOne(entries, p, now, a) && WroteOne(entries, p, now, b);
      } else if Targeted(ps, x) {
        var p :| p in ps && x in p.Targets();
        assert WroteOne(entries, p, now, a) && WroteOne(entries, p, now, b);
        OnlyTarget(p, x);
      } else {
        assert !Targeted(qs, x);
      }
    }
  }

  lemma OnlyTarget(p: Proposal, x: nat)
    requires ShapeFault(p.op).None? && x in p.op.entryIds
    ensures x in p.Retires() || (p.op.kind.Confirm? && x == p.op.entryIds[0])
  {
  }

  /** The order of the operations does not show in the entry rows. */
  lemma WriteIgnoresOrder(entries: map<nat, Entry>, ps: seq<Proposal>, qs: seq<Proposal>, now: int)
    requires Ready(entries, ps) && Ready(entries, qs)
    requires forall p :: p in ps <==> p in qs
    ensures WriteAll(entries, ps, now) == WriteAll(entries, qs, now)
  {
    WroteIsUnique(entries, ps, qs, now, WriteAll(entries, ps, now), WriteAll(entries, qs, now));
  }
}
