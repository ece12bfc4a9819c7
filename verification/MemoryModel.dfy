/** The rows of a repository's memory: `daiv/memory/models.py`. */
module MemoryModel {
  import opened Common

  /** The five categories of `ObservationCategory`, and any other text the column may hold. */
  datatype Category =
    | BuildTest
    | CodebaseFact
    | Pitfall
    | ReviewerPreference
    | Workflow
    | Unlisted(name: string)

  datatype EntryStatus = Active | Superseded

  datatype ObservationStatus = Pending | Consolidated | Discarded

  /** A `MemoryEntry` row. Primary keys are UUIDs, whose canonical text sorts as the number does;
      times are instants on one clock. */
  datatype Entry = Entry(
    pk: nat,
    category: Category,
    content: string,
    createdAt: int,
    confirmedAt: int,
    status: EntryStatus,
    successor: Option<nat>,
    observations: set<nat>)
  {
    /** `MemoryEntry.supersede` */
    function Supersede(replacement: Option<nat>): Entry {
      this.(status := Superseded, successor := replacement)
    }

    /** `MemoryEntry.confirm`, with the provenance link its caller adds. */
    function Confirm(when: int, sources: set<nat>): Entry {
      this.(confirmedAt := when, observations := observations + sources)
    }
  }

  predicate SameKey(a: Entry, b: Entry) {
    a.pk == b.pk
  }

  /** No two rows share a primary key. */
  ghost predicate Keyed(rows: set<Entry>) {
    forall a, b {:trigger SameKey(a, b)} | a in rows && b in rows :: SameKey(a, b) ==> a == b
  }

  ghost predicate KeyedList(rows: seq<Entry>) {
    forall i, j {:trigger SameKey(rows[i], rows[j])} | 0 <= i < j < |rows| :: !SameKey(rows[i], rows[j])
  }

  function Rows(list: seq<Entry>): set<Entry> {
    set e | e in list
  }

  lemma KeyedListIsKeyed(list: seq<Entry>)
    requires KeyedList(list)
    ensures Keyed(Rows(list))
  {
    forall a, b | a in Rows(list) && b in Rows(list) && SameKey(a, b) ensures a == b {
      var i :| 0 <= i < |list| && list[i] == a;
      var j :| 0 <= j < |list| && list[j] == b;
      assert SameKey(list[i], list[j]) && SameKey(list[j], list[i]);
    }
  }

  lemma {:induction false} RowsSize(list: seq<Entry>)
    requires KeyedList(list)
    ensures |Rows(list)| == |list|
  {
    if list != [] {
      var rest := list[1..];
      assert list == [list[0]] + rest;
      KeyedCons(list[0], rest);
      RowsSize(rest);
      RowsAppend([list[0]], rest);
      assert Rows([list[0]]) == {list[0]};
    }
  }

  lemma KeyedCons(e: Entry, rest: seq<Entry>)
    ensures KeyedList([e] + rest) <==> KeyedList(rest) && forall r | r in rest :: r.pk != e.pk
  {
    var list := [e] + rest;
    if KeyedList(list) {
      forall r | r in rest ensures r.pk != e.pk {
        var i :| 0 <= i < |rest| && rest[i] == r;
        assert !SameKey(list[0], list[i + 1]);
      }
      forall i, j | 0 <= i < j < |rest| ensures !SameKey(rest[i], rest[j]) {
        assert !SameKey(list[i + 1], list[j + 1]);
      }
    }
  }

  lemma RowsAppend(a: seq<Entry>, b: seq<Entry>)
    ensures Rows(a + b) == Rows(a) + Rows(b)
  {
  }

  function OfCategory(rows: set<Entry>, c: Category): set<Entry> {
    set e | e in rows && e.category == c
  }

  // ---------------------------------------------------------------- orders on rows

  /** The two orders the document and the eviction sort rows by. */
  datatype Order = RenderOrder | EvictionOrder

  /** `_render_order` is creation time, then primary key; `_eviction_order` puts the time of the last
      confirmation before both. */
  predicate Before(o: Order, a: Entry, b: Entry) {
    if o.EvictionOrder? && a.confirmedAt != b.confirmedAt then a.confirmedAt < b.confirmedAt
    else if a.createdAt != b.createdAt then a.createdAt < b.createdAt
    else a.pk < b.pk
  }

  ghost predicate IsLeast(o: Order, m: Entry, rows: set<Entry>) {
    m in rows && forall e | e in rows && e != m :: Before(o, m, e)
  }

  lemma {:induction false} LeastExists(o: Order, rows: set<Entry>)
    requires rows != {} && Keyed(rows)
    ensures exists m :: IsLeast(o, m, rows)
    decreases |rows|
  {
    var m :| m in rows;
    var rest := rows - {m};
    assert rows == rest + {m};
    if rest == {} {
      assert IsLeast(o, m, rows);
    } else {
      LeastExists(o, rest);
      var n :| IsLeast(o, n, rest);
      assert !SameKey(n, m);
      assert IsLeast(o, if Before(o, n, m) then n else m, rows);
    }
  }

  lemma LeastIsUnique(o: Order, m: Entry, n: Entry, rows: set<Entry>)
    requires IsLeast(o, m, rows) && IsLeast(o, n, rows)
    ensures m == n
  {
    assert m == n || (Before(o, m, n) && Before(o, n, m));
  }

  /** `min(rows, key=...)` for the key of the order. */
  function Least(o: Order, rows: set<Entry>): (m: Entry)
    requires rows != {} && Keyed(rows)
    ensures IsLeast(o, m, rows)
  {
    LeastExists(o, rows);
    assert exists m :: IsLeast(o, m, rows);
    var m :| m in rows && forall e | e in rows && e != m :: Before(o, m, e);
    m
  }
}
