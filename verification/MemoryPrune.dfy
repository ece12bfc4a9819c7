/** Eviction under budget pressure: `prune_to_budget` of `daiv/memory/render.py`. */
module MemoryPrune {
  import opened Text
  import opened Common
  import opened MemoryModel
  import opened MemoryRender

  /** `_fits_budget` on the rendered entries. */
  predicate Fits(list: seq<Entry>, maxLines: int, maxBytes: int)
    requires KeyedList(list)
  {
    KeyedListIsKeyed(list);
    var (lines, bytes) := DocumentSize(Document(Rows(list)));
    lines <= maxLines && bytes <= maxBytes
  }

  /** The raw content bytes of one category. */
  function CategoryBytes(list: seq<Entry>, c: Category): nat {
    if list == [] then 0
    else CategoryBytes(list[1..], c) + if list[0].category == c then Utf8Size(list[0].content) else 0
  }

  /** `_SECTION_ORDER.get(category, len(_SECTION_ORDER))` */
  function SectionIndex(c: Category): nat {
    match c
    case BuildTest => 0
    case CodebaseFact => 1
    case Pitfall => 2
    case ReviewerPreference => 3
    case Workflow => 4
    case Unlisted(_) => 5
  }

  /** The index of a section in the document, and one past them for any other category. */
  lemma SectionOrder(c: Category)
    ensures SectionIndex(c) < |SECTIONS| ==> SECTIONS[SectionIndex(c)].0 == c
    ensures SectionIndex(c) >= |SECTIONS| ==> forall k | 0 <= k < |SECTIONS| :: SECTIONS[k].0 != c
    ensures SectionIndex(c) <= |SECTIONS|
  {
  }

  /** The key `_largest_category` minimises puts c strictly before d. */
  predicate Outranks(bytesC: nat, c: Category, bytesD: nat, d: Category) {
    bytesC > bytesD || (bytesC == bytesD && SectionIndex(c) < SectionIndex(d))
  }

  /** The categories in the order the counter first meets them. */
  function Categories(list: seq<Entry>): (cats: seq<Category>)
    ensures forall c :: c in cats <==> exists e :: e in list && e.category == c
  {
    if list == [] then [] else
      var n := |list| - 1;
      assert list == list[..n] + [list[n]];
      var before := Categories(list[..n]);
      if list[n].category in before then before else before + [list[n].category]
  }

  /** `content_bytes`, the counter. */
  function Counter(list: seq<Entry>): map<Category, nat> {
    map c | c in Categories(list) :: CategoryBytes(list, c)
  }

  /** `min` over the counter's keys, which it holds in this order: the first of the least. */
  function Best(contentBytes: map<Category, nat>, keys: seq<Category>): (best: Category)
    requires keys != [] && forall k | k in keys :: k in contentBytes
    ensures best in keys
    ensures forall d | d in keys :: !Outranks(contentBytes[d], d, contentBytes[best], best)
  {
    var n := |keys| - 1;
    if n == 0 then keys[0] else
      var b := Best(contentBytes, keys[..n]);
      assert forall d | d in keys :: d in keys[..n] || d == keys[n];
      if Outranks(contentBytes[keys[n]], keys[n], contentBytes[b], b) then keys[n] else b
  }

  function Largest(list: seq<Entry>): (c: Category)
    requires list != []
    ensures OfCategory(Rows(list), c) != {}
    ensures forall e | e in list :: CategoryBytes(list, e.category) <= CategoryBytes(list, c)
    ensures forall e | e in list && CategoryBytes(list, e.category) == CategoryBytes(list, c) ::
              SectionIndex(c) <= SectionIndex(e.category)
  {
    assert list[0] in list && list[0].category in Categories(list);
    var c := Best(Counter(list), Categories(list));
    var e :| e in list && e.category == c;
    assert e in OfCategory(Rows(list), c);
    forall e | e in list
      ensures e.category in Categories(list)
      ensures !Outranks(CategoryBytes(list, e.category), e.category, CategoryBytes(list, c), c)
    {
    }
    c
  }

  lemma CategoriesAppend(list: seq<Entry>, e: Entry)
    ensures Categories(list + [e]) ==
            if e.category in Categories(list) then Categories(list) else Categories(list) + [e.category]
  {
    assert (list + [e])[..|list|] == list;
  }

  lemma CountOneMore(contentBytes: map<Category, nat>, list: seq<Entry>, e: Entry)
    requires contentBytes == Counter(list)
    ensures var sofar := if e.category in contentBytes then contentBytes[e.category] else 0;
            Counter(list + [e]) == contentBytes[e.category := sofar + Utf8Size(e.content)]
  {
    hide CategoryBytes, Utf8Size, Categories;
    CategoriesAppend(list, e);
    var sofar := if e.category in contentBytes then contentBytes[e.category] else 0;
    var next := contentBytes[e.category := sofar + Utf8Size(e.content)];
    if e.category !in contentBytes {
      AbsentCategory(list, e.category);
    }
    assert Counter(list + [e]).Keys == next.Keys;
    forall d | d in next ensures Counter(list + [e])[d] == next[d] {
      CategoryBytesAppend(list, e, d);
    }
  }

  /** `_largest_category`: sum the bytes per category in one pass, then take the least key. */
  method LargestCategory(list: seq<Entry>) returns (c: Category)
    requires list != []
    ensures c == Largest(list)
  {
    hide Utf8Size, CategoryBytes, Categories, Counter, Best;
    var contentBytes: map<Category, nat> := map[];
    var keys: seq<Category> := [];
    NothingCounted(list);
    for i := 0 to |list|
      invariant contentBytes == Counter(list[..i])
      invariant keys == Categories(list[..i])
    {
      var e := list[i];
      CountOneMore(contentBytes, list[..i], e);
      CategoriesAppend(list[..i], e);
      CountedAreKeys(list[..i]);
      assert list[..i + 1] == list[..i] + [e];
      if e.category !in contentBytes {
        keys := keys + [e.category];
      }
      var sofar := if e.category in contentBytes then contentBytes[e.category] else 0;
      contentBytes := contentBytes[e.category := sofar + Utf8Size(e.content)];
    }
    assert list[..|list|] == list;
    CountedAreKeys(list);
    assert list[0] in list && list[0].category in keys;
    c := Best(contentBytes, keys);
  }

  lemma NothingCounted(list: seq<Entry>)
    ensures Counter(list[..0]) == map[] && Categories(list[..0]) == []
  {
  }

  lemma CountedAreKeys(list: seq<Entry>)
    ensures forall c :: c in Counter(list) <==> c in Categories(list)
  {
    hide CategoryBytes, Categories;
  }

  lemma {:induction false} CategoryBytesAppend(list: seq<Entry>, e: Entry, c: Category)
    ensures CategoryBytes(list + [e], c) == CategoryBytes(list, c) + if e.category == c then Utf8Size(e.content) else 0
  {
    if list == [] {
      assert ([e])[1..] == [];
      assert list + [e] == [e];
    } else {
      assert (list + [e])[1..] == list[1..] + [e];
      CategoryBytesAppend(list[1..], e, c);
    }
  }

  /** The entry under pressure: the least recently confirmed of the largest category. */
  function Victim(list: seq<Entry>): (v: Entry)
    requires list != [] && KeyedList(list)
    ensures v in list && v.category == Largest(list)
    ensures forall e | e in list && e.category == v.category && e != v :: Before(EvictionOrder, v, e)
  {
    KeyedListIsKeyed(list);
    Least(EvictionOrder, OfCategory(Rows(list), Largest(list)))
  }

  /** `kept.remove(victim)`: drop the first row equal to it, rows being equal by primary key. */
  function Without(list: seq<Entry>, v: Entry): (rest: seq<Entry>)
    ensures forall e | e in rest :: e in list
    ensures KeyedList(list) ==> KeyedList(rest)
  {
    if list == [] then []
    else if list[0].pk == v.pk then list[1..]
    else
      var rest := Without(list[1..], v);
      assert list == [list[0]] + list[1..];
      KeyedCons(list[0], list[1..]);
      KeyedCons(list[0], rest);
      [list[0]] + rest
  }

  lemma {:induction false} WithoutSplits(list: seq<Entry>, v: Entry)
    requires KeyedList(list) && v in list
    ensures |Without(list, v)| == |list| - 1
    ensures multiset(list) == multiset(Without(list, v)) + multiset{v}
    ensures Rows(Without(list, v)) == Rows(list) - {v}
    ensures forall c :: CategoryBytes(list, c) ==
                        CategoryBytes(Without(list, v), c) + if v.category == c then Utf8Size(v.content) else 0
  {
    assert list == [list[0]] + list[1..];
    KeyedCons(list[0], list[1..]);
    if list[0].pk != v.pk {
      assert v in list[1..];
      WithoutSplits(list[1..], v);
      var rest := Without(list[1..], v);
      assert ([list[0]] + rest)[1..] == rest;
      RowsAppend([list[0]], rest);
      RowsAppend([list[0]], list[1..]);
    }
  }

  /** What `prune_to_budget` keeps and what it evicts, in eviction order. */
  function Pruned(list: seq<Entry>, maxLines: int, maxBytes: int): (seq<Entry>, seq<Entry>)
    requires KeyedList(list)
    decreases |list|
  {
    if |list| <= 1 || Fits(list, maxLines, maxBytes) then (list, []) else
      var v := Victim(list);
      WithoutSplits(list, v);
      var (kept, evicted) := Pruned(Without(list, v), maxLines, maxBytes);
      (kept, [v] + evicted)
  }

  lemma PruneStops(list: seq<Entry>, maxLines: int, maxBytes: int)
    requires KeyedList(list) && (|list| <= 1 || Fits(list, maxLines, maxBytes))
    ensures Pruned(list, maxLines, maxBytes) == (list, [])
  {
    hide Fits;
  }

  lemma PruneStep(list: seq<Entry>, maxLines: int, maxBytes: int)
    requires KeyedList(list) && |list| > 1 && !Fits(list, maxLines, maxBytes)
    ensures var v := Victim(list);
            var rest := Without(list, v);
            && KeyedList(rest) && |rest| == |list| - 1
            && Pruned(list, maxLines, maxBytes) ==
                 (Pruned(rest, maxLines, maxBytes).0, [v] + Pruned(rest, maxLines, maxBytes).1)
  {
    hide Fits, Victim, Without, CategoryBytes;
    WithoutSplits(list, Victim(list));
  }

  method PruneToBudget(entries: seq<Entry>, maxLines: int, maxBytes: int)
    returns (kept: seq<Entry>, evicted: seq<Entry>)
    requires KeyedList(entries)
    ensures (kept, evicted) == Pruned(entries, maxLines, maxBytes)
  {
    hide Pruned, Largest, CategoryBytes, Without, Document, DocumentSize;
    kept, evicted := entries, [];
    while |kept| > 1
      invariant KeyedList(kept)
      invariant Pruned(entries, maxLines, maxBytes).0 == Pruned(kept, maxLines, maxBytes).0
      invariant Pruned(entries, maxLines, maxBytes).1 == evicted + Pruned(kept, maxLines, maxBytes).1
      decreases |kept|
    {
      var document := RenderMemoryDocument(kept);
      var (lines, bytes) := DocumentSize(document);
      if lines <= maxLines && bytes <= maxBytes {
        break;
      }
      PruneStep(kept, maxLines, maxBytes);
      var category := LargestCategory(kept);
      KeyedListIsKeyed(kept);
      var victim := Least(EvictionOrder, OfCategory(Rows(kept), category));
      kept := Without(kept, victim);
      evicted := evicted + [victim];
    }
    PruneStops(kept, maxLines, maxBytes);
    assert evicted + [] == evicted;
  }

  // ---------------------------------------------------------------- what pruning guarantees

  /** Nothing is lost or invented: kept and evicted together are the input. */
  lemma {:induction false} PruneSplits(list: seq<Entry>, maxLines: int, maxBytes: int)
    requires KeyedList(list)
    ensures var (kept, evicted) := Pruned(list, maxLines, maxBytes);
            && multiset(list) == multiset(kept) + multiset(evicted)
            && KeyedList(kept)
            && Rows(kept) !! Rows(evicted) && Rows(kept) + Rows(evicted) == Rows(list)
    decreases |list|
  {
    hide Victim, Largest, Fits, Without, CategoryBytes;
    if |list| > 1 && !Fits(list, maxLines, maxBytes) {
      var v := Victim(list);
      WithoutSplits(list, v);
      PruneSplits(Without(list, v), maxLines, maxBytes);
      RowsAppend([v], Pruned(Without(list, v), maxLines, maxBytes).1);
    } else {
      assert Rows([]) == {};
    }
  }

  /** The document of these rows is within the budget. */
  ghost predicate WithinBudget(rows: set<Entry>, maxLines: int, maxBytes: int)
    requires Keyed(rows)
  {
    |SplitLines(Document(rows))| <= maxLines && Utf8Size(Document(rows)) <= maxBytes
  }

  /** The result fits the budget unless a single entry is left, and the last entry always stays. */
  lemma {:induction false} PruneFits(list: seq<Entry>, maxLines: int, maxBytes: int)
    requires KeyedList(list)
    ensures var kept := Pruned(list, maxLines, maxBytes).0;
            && KeyedList(kept) && Keyed(Rows(kept))
            && (|kept| <= 1 || WithinBudget(Rows(kept), maxLines, maxBytes))
            && (list != [] ==> kept != [])
    decreases |list|
  {
    KeyedListIsKeyed(list);
    FitsMeans(list, maxLines, maxBytes);
    hide Victim, Largest, Fits, Without, CategoryBytes;
    if |list| > 1 && !Fits(list, maxLines, maxBytes) {
      var v := Victim(list);
      WithoutSplits(list, v);
      PruneFits(Without(list, v), maxLines, maxBytes);
    }
  }

  lemma FitsMeans(list: seq<Entry>, maxLines: int, maxBytes: int)
    requires KeyedList(list)
    ensures Keyed(Rows(list)) && (Fits(list, maxLines, maxBytes) <==> WithinBudget(Rows(list), maxLines, maxBytes))
  {
    KeyedListIsKeyed(list);
  }

  /** Confirmed less recently; at the same time, made earlier; made at the same time, with the smaller key. */
  predicate LessRecent(a: Entry, b: Entry) {
    || a.confirmedAt < b.confirmedAt
    || (a.confirmedAt == b.confirmedAt && a.createdAt < b.createdAt)
    || (a.confirmedAt == b.confirmedAt && a.createdAt == b.createdAt && a.pk < b.pk)
  }

  /** Each eviction was called for: what was left then was more than one entry and over the budget, and the victim
      is the least recent entry of the category with the most bytes, of the earliest section on a tie. */
  lemma {:induction false} EachEviction(list: seq<Entry>, maxLines: int, maxBytes: int, i: nat, left: seq<Entry>)
    requires KeyedList(list) && KeyedList(left) && i < |Pruned(list, maxLines, maxBytes).1|
    requires var (kept, evicted) := Pruned(list, maxLines, maxBytes); Rows(left) == Rows(kept) + Rows(evicted[i..])
    ensures |left| > 1 && Keyed(Rows(left)) && !WithinBudget(Rows(left), maxLines, maxBytes)
    ensures var v := Pruned(list, maxLines, maxBytes).1[i];
            && v in left
            && (forall d :: CategoryBytes(left, d) <= CategoryBytes(left, v.category))
            && (forall e | e in left && CategoryBytes(left, e.category) == CategoryBytes(left, v.category) ::
                  SectionIndex(v.category) <= SectionIndex(e.category))
            && (forall e | e in left && e.category == v.category && e != v :: LessRecent(v, e))
    decreases |list|
  {
    hide Largest, Fits, Without, CategoryBytes, WithinBudget;
    var v := Victim(list);
    var (kept, evicted) := Pruned(list, maxLines, maxBytes);
    WithoutSplits(list, v);
    PruneStep(list, maxLines, maxBytes);
    if i > 0 {
      assert evicted[i..] == Pruned(Without(list, v), maxLines, maxBytes).1[i - 1..];
      EachEviction(Without(list, v), maxLines, maxBytes, i - 1, left);
    } else {
      assert evicted[0..] == evicted;
      PruneSplits(list, maxLines, maxBytes);
      FirstEviction(list, left, v);
      FitsMeans(list, maxLines, maxBytes);
    }
  }

  lemma FirstEviction(list: seq<Entry>, left: seq<Entry>, v: Entry)
    requires KeyedList(list) && KeyedList(left) && Rows(left) == Rows(list) && list != [] && v == Victim(list)
    ensures |left| == |list| && v in left
    ensures forall d :: CategoryBytes(left, d) <= CategoryBytes(left, v.category)
    ensures forall e | e in left && CategoryBytes(left, e.category) == CategoryBytes(left, v.category) ::
              SectionIndex(v.category) <= SectionIndex(e.category)
    ensures forall e | e in left && e.category == v.category && e != v :: LessRecent(v, e)
  {
    hide Largest, CategoryBytes;
    assert forall e :: e in left <==> e in Rows(left);
    assert forall e :: e in list <==> e in Rows(list);
    SameBytes(left, list, v.category);
    forall d ensures CategoryBytes(left, d) == CategoryBytes(list, d) <= CategoryBytes(list, v.category) {
      SameBytes(left, list, d);
      LargestBounds(list, d);
    }
  }

  /** Within a category the evicted entries are a prefix of the eviction order, evicted in that
      order, and the kept ones its tail. */
  lemma {:induction false} PruneKeepsTail(list: seq<Entry>, maxLines: int, maxBytes: int)
    requires KeyedList(list)
    ensures var (kept, evicted) := Pruned(list, maxLines, maxBytes);
            && (forall k, v | k in kept && v in evicted && k.category == v.category :: LessRecent(v, k))
            && (forall i, j | 0 <= i < j < |evicted| && evicted[i].category == evicted[j].category ::
                  LessRecent(evicted[i], evicted[j]))
    decreases |list|
  {
    hide Victim, Largest, Fits, Without, CategoryBytes;
    if |list| > 1 && !Fits(list, maxLines, maxBytes) {
      var v := Victim(list);
      WithoutSplits(list, v);
      var rest := Without(list, v);
      var (kept, evicted) := Pruned(rest, maxLines, maxBytes);
      PruneKeepsTail(rest, maxLines, maxBytes);
      PruneSplits(rest, maxLines, maxBytes);
      forall e | (e in kept || e in evicted) && e.category == v.category ensures LessRecent(v, e) {
        assert e in Rows(kept) + Rows(evicted);
        assert e in list && e != v;
      }
    }
  }

  /** The last entry of category c among the evicted. */
  ghost predicate LastVictim(evicted: seq<Entry>, i: nat) {
    i < |evicted| && forall j | i < j < |evicted| :: evicted[j].category != evicted[i].category
  }

  lemma {:induction false} KeptBytesShrink(list: seq<Entry>, maxLines: int, maxBytes: int, c: Category)
    requires KeyedList(list)
    ensures var (kept, evicted) := Pruned(list, maxLines, maxBytes);
            && CategoryBytes(kept, c) <= CategoryBytes(list, c)
            && ((forall e | e in evicted :: e.category != c) ==> CategoryBytes(kept, c) == CategoryBytes(list, c))
    decreases |list|
  {
    hide Victim, Largest, Fits, Without, CategoryBytes;
    if |list| > 1 && !Fits(list, maxLines, maxBytes) {
      var v := Victim(list);
      WithoutSplits(list, v);
      KeptBytesShrink(Without(list, v), maxLines, maxBytes, c);
      var evicted := Pruned(list, maxLines, maxBytes).1;
      assert v == evicted[0];
      assert forall e | e in Pruned(Without(list, v), maxLines, maxBytes).1 :: e in evicted;
    }
  }

  /** The fairness step: the round that evicts the last entry of its category. */
  lemma LastEvictionIsFair(list: seq<Entry>, maxLines: int, maxBytes: int, d: Category)
    requires KeyedList(list) && |list| > 1
    requires var v := Victim(list);
             forall e | e in Pruned(Without(list, v), maxLines, maxBytes).1 :: e.category != v.category
    ensures var v := Victim(list);
            var kept := Pruned(Without(list, v), maxLines, maxBytes).0;
            CategoryBytes(kept, d) <= CategoryBytes(kept, v.category) + Utf8Size(v.content)
  {
    hide Victim, Largest, Fits, Without, CategoryBytes;
    var v := Victim(list);
    WithoutSplits(list, v);
    KeptBytesShrink(Without(list, v), maxLines, maxBytes, v.category);
    KeptBytesShrink(Without(list, v), maxLines, maxBytes, d);
    LargestBounds(list, d);
  }

  /** Fairness: no category d keeps more bytes than a category that lost entries had just before it
      gave up its last one. */
  lemma {:induction false} PruneIsFair(list: seq<Entry>, maxLines: int, maxBytes: int, i: nat, d: Category)
    requires KeyedList(list) && LastVictim(Pruned(list, maxLines, maxBytes).1, i)
    ensures var (kept, evicted) := Pruned(list, maxLines, maxBytes);
            CategoryBytes(kept, d) <= CategoryBytes(kept, evicted[i].category) + Utf8Size(evicted[i].content)
    decreases |list|
  {
    hide Victim, Largest, Fits, Without, CategoryBytes;
    var v := Victim(list);
    WithoutSplits(list, v);
    var rest := Without(list, v);
    var evicted := Pruned(rest, maxLines, maxBytes).1;
    var all := Pruned(list, maxLines, maxBytes).1;
    assert all == [v] + evicted && Pruned(list, maxLines, maxBytes).0 == Pruned(rest, maxLines, maxBytes).0;
    assert forall j | 0 <= j < |evicted| :: evicted[j] == all[j + 1];
    if i > 0 {
      PruneIsFair(rest, maxLines, maxBytes, i - 1, d);
    } else {
      LastEvictionIsFair(list, maxLines, maxBytes, d);
    }
  }

  lemma {:induction false} AbsentCategory(list: seq<Entry>, d: Category)
    requires forall e | e in list :: e.category != d
    ensures CategoryBytes(list, d) == 0
  {
    if list != [] {
      assert list[0] in list && forall e | e in list[1..] :: e in list;
      AbsentCategory(list[1..], d);
    }
  }

  lemma LargestBounds(list: seq<Entry>, d: Category)
    requires list != []
    ensures CategoryBytes(list, d) <= CategoryBytes(list, Largest(list))
  {
    if forall e | e in list :: e.category != d {
      AbsentCategory(list, d);
    }
  }

  /** A looser budget evicts a prefix of what a tighter one evicts. */
  lemma {:induction false} LooserEvictsPrefix(list: seq<Entry>, lines: int, bytes: int, lines': int, bytes': int)
    requires KeyedList(list) && lines <= lines' && bytes <= bytes'
    ensures Pruned(list, lines', bytes').1 <= Pruned(list, lines, bytes).1
    decreases |list|
  {
    hide Victim, Largest, Without, CategoryBytes;
    if |list| > 1 && !Fits(list, lines', bytes') {
      var v := Victim(list);
      WithoutSplits(list, v);
      LooserEvictsPrefix(Without(list, v), lines, bytes, lines', bytes');
    }
  }

  // ---------------------------------------------------------------- the order of the input

  /** At most one category outside the document's sections among these rows. */
  ghost predicate OneUnlisted(rows: set<Entry>) {
    forall a, b | a in rows && b in rows && a.category.Unlisted? && b.category.Unlisted? :: a.category == b.category
  }

  lemma {:induction false} SameBytes(a: seq<Entry>, b: seq<Entry>, c: Category)
    requires KeyedList(a) && KeyedList(b) && Rows(a) == Rows(b)
    ensures |a| == |b| && CategoryBytes(a, c) == CategoryBytes(b, c)
  {
    RowsSize(a);
    RowsSize(b);
    if a != [] {
      var v := a[0];
      assert v in Rows(a);
      WithoutSplits(a, v);
      WithoutSplits(b, v);
      SameBytes(a[1..], Without(b, v), c);
    }
  }

  lemma SameLargest(a: seq<Entry>, b: seq<Entry>)
    requires KeyedList(a) && KeyedList(b) && Rows(a) == Rows(b) && a != [] && b != []
    requires OneUnlisted(Rows(a))
    ensures Largest(a) == Largest(b)
  {
    var c, d := Largest(a), Largest(b);
    SameBytes(a, b, c);
    SameBytes(a, b, d);
    var ec :| ec in OfCategory(Rows(a), c);
    var ed :| ed in OfCategory(Rows(b), d);
    assert d in Categories(a) && c in Categories(b) by {
      assert ed in a && ec in b;
    }
    assert SectionIndex(c) == SectionIndex(d);
  }

  /** With at most one category outside the sections, neither the evictions nor what is kept depend
      on the order of the input. */
  lemma {:induction false} PruneIgnoresOrder(a: seq<Entry>, b: seq<Entry>, maxLines: int, maxBytes: int)
    requires KeyedList(a) && KeyedList(b) && Rows(a) == Rows(b)
    requires OneUnlisted(Rows(a))
    ensures Pruned(a, maxLines, maxBytes).1 == Pruned(b, maxLines, maxBytes).1
    ensures Rows(Pruned(a, maxLines, maxBytes).0) == Rows(Pruned(b, maxLines, maxBytes).0)
    decreases |a|
  {
    SameBytes(a, b, BuildTest);
    if |a| > 1 && !Fits(a, maxLines, maxBytes) {
      SameLargest(a, b);
      var v := Victim(a);
      KeyedListIsKeyed(a);
      assert v == Victim(b);
      WithoutSplits(a, v);
      WithoutSplits(b, v);
      PruneIgnoresOrder(Without(a, v), Without(b, v), maxLines, maxBytes);
    }
  }

  /** The order of the input never shows, for entries whose categories are the five sections' or
      carry one of these names. */
  ghost predicate OrderNeverShows(names: set<string>) {
    forall a: seq<Entry>, b: seq<Entry>, maxLines: int, maxBytes: int
      | KeyedList(a) && KeyedList(b) && Rows(a) == Rows(b)
        && (forall e | e in a :: e.category.Unlisted? ==> e.category.name in names) ::
      Pruned(a, maxLines, maxBytes).1 == Pruned(b, maxLines, maxBytes).1
  }

  function Sample(pk: nat, category: Category, content: string): Entry {
    Entry(pk, category, content, 0, 0, Active, None, {})
  }

  /** Two categories outside the sections, equally large: the one listed first loses an entry. */
  lemma TwoUnlistedShowOrder(u: string, w: string)
    requires u != w
    ensures var k, x, y := Sample(0, BuildTest, ""), Sample(1, Unlisted(u), "a"), Sample(2, Unlisted(w), "a");
            && KeyedList([k, x, y]) && KeyedList([k, y, x]) && Rows([k, x, y]) == Rows([k, y, x])
            && Pruned([k, x, y], 0, 0).1 != Pruned([k, y, x], 0, 0).1
  {
    hide Largest, CategoryBytes, Without, Document, DocumentSize;
    var k, x, y := Sample(0, BuildTest, ""), Sample(1, Unlisted(u), "a"), Sample(2, Unlisted(w), "a");
    var a, b := [k, x, y], [k, y, x];
    assert Rows(a) == {k, x, y} == Rows(b);
    DocumentOfThree(k, x, y);
    LargestOfThree(k, x, y);
    LargestOfThree(k, y, x);
    assert Pruned(a, 0, 0).1[0] == Victim(a);
    assert Pruned(b, 0, 0).1[0] == Victim(b);
  }

  lemma DocumentOfThree(k: Entry, x: Entry, y: Entry)
    requires Keyed({k, x, y})
    requires k.category == BuildTest && x.category != BuildTest && y.category != BuildTest
    ensures DocumentSize(Document({k, x, y})).0 > 0
  {
    var rows := {k, x, y};
    assert OfCategory(rows, BuildTest) == {k};
    assert Visible(rows, 1) == Visible(rows, 0) + 1;
    VisibleGrows(rows, 1, |SECTIONS|);
    CountLines(rows, |SECTIONS|);
    LineCount(rows);
  }

  lemma {:induction false} VisibleGrows(rows: set<Entry>, m: nat, n: nat)
    requires m <= n <= |SECTIONS|
    ensures Visible(rows, m) <= Visible(rows, n)
  {
    if m < n {
      VisibleGrows(rows, m, n - 1);
    }
  }

  lemma BytesOfThree(k: Entry, x: Entry, y: Entry, c: Category)
    ensures CategoryBytes([k, x, y], c) ==
            (if k.category == c then Utf8Size(k.content) else 0)
            + (if x.category == c then Utf8Size(x.content) else 0)
            + (if y.category == c then Utf8Size(y.content) else 0)
  {
    hide Utf8Size;
    assert [] + [k] == [k] && [k] + [x] == [k, x] && [k, x] + [y] == [k, x, y];
    CategoryBytesAppend([], k, c);
    CategoryBytesAppend([k], x, c);
    CategoryBytesAppend([k, x], y, c);
  }

  lemma CategoriesOfThree(k: Entry, x: Entry, y: Entry)
    requires k.category != x.category && k.category != y.category && x.category != y.category
    ensures Categories([k, x, y]) == [k.category, x.category, y.category]
  {
    hide Categories;
    var none: seq<Entry> := [];
    assert none + [k] == [k] && [k] + [x] == [k, x] && [k, x] + [y] == [k, x, y];
    NoCategories();
    CategoriesAppend(none, k);
    CategoriesAppend([k], x);
    CategoriesAppend([k, x], y);
  }

  lemma NoCategories()
    ensures Categories([]) == []
  {
  }

  lemma BestOfThree(contentBytes: map<Category, nat>, c: Category, d: Category, e: Category)
    requires c in contentBytes && d in contentBytes && e in contentBytes
    requires Outranks(contentBytes[d], d, contentBytes[c], c) && !Outranks(contentBytes[e], e, contentBytes[d], d)
    ensures Best(contentBytes, [c, d, e]) == d
  {
    hide Outranks;
    assert [c, d, e][..2] == [c, d] && [c, d][..1] == [c];
    assert Best(contentBytes, [c]) == c;
    assert Best(contentBytes, [c, d]) == d;
  }

  lemma LargestOfThree(k: Entry, x: Entry, y: Entry)
    requires k.category == BuildTest && k.content == "" && x.content == "a" && y.content == "a"
    requires x.category.Unlisted? && y.category.Unlisted? && x.category != y.category
    ensures Largest([k, x, y]) == x.category
  {
    assert Utf8Size("a") == 1 + Utf8Size("a"[1..]) == 1;
    assert Utf8Size("") == 0;
    hide Utf8Size, CategoryBytes, Categories, Best;
    BytesOfThree(k, x, y, k.category);
    BytesOfThree(k, x, y, x.category);
    BytesOfThree(k, x, y, y.category);
    CategoriesOfThree(k, x, y);
    BestOfThree(Counter([k, x, y]), k.category, x.category, y.category);
  }

  /** Pruning ignores the order of its input exactly when at most one category name outside the
      document's sections can occur. */
  lemma OrderShowsExactly(names: set<string>)
    ensures OrderNeverShows(names) <==> forall u, w | u in names && w in names :: u == w
  {
    hide Pruned;
    if forall u, w | u in names && w in names :: u == w {
      forall a: seq<Entry>, b: seq<Entry>, maxLines: int, maxBytes: int
        | KeyedList(a) && KeyedList(b) && Rows(a) == Rows(b)
          && (forall e | e in a :: e.category.Unlisted? ==> e.category.name in names)
        ensures Pruned(a, maxLines, maxBytes).1 == Pruned(b, maxLines, maxBytes).1
      {
        PruneIgnoresOrder(a, b, maxLines, maxBytes);
      }
    } else {
      var u, w :| u in names && w in names && u != w;
      TwoUnlistedShowOrder(u, w);
    }
  }
}
