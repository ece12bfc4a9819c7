/** The memory document: `render_memory_document` and `document_size` of `daiv/memory/render.py`. */
module MemoryRender {
  import opened Text
  import opened MemoryModel

  /** `CATEGORY_SECTIONS`: the only categories the document shows, in section order. */
  const SECTIONS: seq<(Category, string)> := [
    (BuildTest, "## Build & test"),
    (CodebaseFact, "## Codebase facts"),
    (Pitfall, "## Pitfalls"),
    (ReviewerPreference, "## Reviewer preferences"),
    (Workflow, "## Workflow")
  ]

  function First(rows: set<Entry>): (m: Entry)
    requires rows != {} && Keyed(rows)
    ensures IsLeast(RenderOrder, m, rows)
  {
    Least(RenderOrder, rows)
  }

  /** `sorted(rows, key=_render_order)`. */
  function Sorted(rows: set<Entry>): (list: seq<Entry>)
    requires Keyed(rows)
    ensures |list| == |rows| && Rows(list) == rows
    decreases |rows|
  {
    if rows == {} then [] else
      var m := First(rows);
      var rest := Sorted(rows - {m});
      RowsAppend([m], rest);
      assert Rows([m]) == {m};
      [m] + rest
  }

  /** The sorted list is in strictly increasing render order. */
  lemma {:induction false} SortedInOrder(rows: set<Entry>)
    requires Keyed(rows)
    ensures forall i, j | 0 <= i < j < |Sorted(rows)| :: Before(RenderOrder, Sorted(rows)[i], Sorted(rows)[j])
    decreases |rows|
  {
    if rows != {} {
      var m := First(rows);
      var rest := Sorted(rows - {m});
      SortedInOrder(rows - {m});
      forall j | 0 <= j < |rest| ensures Before(RenderOrder, m, rest[j]) {
        assert rest[j] in Rows(rest);
      }
    }
  }

  /** There is only one such list: whatever order the rows came in, sorting them gives this one. */
  lemma {:induction false} SortedIsUnique(list: seq<Entry>)
    requires Keyed(Rows(list))
    requires forall i, j | 0 <= i < j < |list| :: Before(RenderOrder, list[i], list[j])
    ensures list == Sorted(Rows(list))
  {
    if list == [] {
      assert Rows(list) == {};
    } else {
      var rows, m, rest := Rows(list), list[0], list[1..];
      assert list == [m] + rest;
      RowsAppend([m], rest);
      assert Rows([m]) == {m};
      forall e | e in Rows(rest) ensures Before(RenderOrder, m, e) {
        var j :| 0 <= j < |rest| && rest[j] == e;
        assert list[j + 1] == e;
      }
      assert m !in Rows(rest);
      assert Rows(rest) == rows - {m};
      LeastIsUnique(RenderOrder, First(rows), m, rows);
      SortedIsUnique(rest);
    }
  }

  function Bullet(e: Entry): string {
    "- " + Collapse(e.content)
  }

  function Bullets(list: seq<Entry>): (lines: seq<string>)
    ensures |lines| == |list|
  {
    if list == [] then [] else [Bullet(list[0])] + Bullets(list[1..])
  }

  /** One section of the document as text. */
  function SectionText(header: string, items: set<Entry>): string
    requires Keyed(items)
  {
    header + "\n" + Join(Bullets(Sorted(items)), "\n")
  }

  /** The texts of the non-empty sections among the first n. */
  function SectionTexts(rows: set<Entry>, n: nat): seq<string>
    requires Keyed(rows) && n <= |SECTIONS|
  {
    if n == 0 then [] else
      var before := SectionTexts(rows, n - 1);
      var items := OfCategory(rows, SECTIONS[n - 1].0);
      if items == {} then before else before + [SectionText(SECTIONS[n - 1].1, items)]
  }

  /** The document of a set of entries. */
  function Document(rows: set<Entry>): string
    requires Keyed(rows)
  {
    Join(SectionTexts(rows, |SECTIONS|), "\n\n")
  }

  /** `document_size`: lines, then bytes. */
  function DocumentSize(document: string): (nat, nat) {
    (|SplitLines(document)|, Utf8Size(document))
  }

  /** `by_category` holds exactly these entries, each under its category. */
  ghost predicate Groups(byCategory: map<Category, seq<Entry>>, rows: set<Entry>) {
    forall c :: OfCategory(rows, c) == if c in byCategory then Rows(byCategory[c]) else {}
  }

  lemma GroupOneMore(entries: seq<Entry>, i: nat, was: map<Category, seq<Entry>>, now: map<Category, seq<Entry>>)
    requires i < |entries| && Groups(was, Rows(entries[..i]))
    requires var e := entries[i]; now == was[e.category := (if e.category in was then was[e.category] else []) + [e]]
    ensures Groups(now, Rows(entries[..i + 1]))
  {
    var e := entries[i];
    assert entries[..i + 1] == entries[..i] + [e];
    RowsAppend(entries[..i], [e]);
    assert Rows([e]) == {e};
    forall c
      ensures OfCategory(Rows(entries[..i + 1]), c) == if c in now then Rows(now[c]) else {}
    {
      if c == e.category {
        assert OfCategory(Rows(entries[..i]) + {e}, c) == OfCategory(Rows(entries[..i]), c) + {e};
        RowsAppend(if c in was then was[c] else [], [e]);
      } else {
        assert OfCategory(Rows(entries[..i]) + {e}, c) == OfCategory(Rows(entries[..i]), c);
      }
    }
  }

  lemma NextSection(rows: set<Entry>, byCategory: map<Category, seq<Entry>>, n: nat)
    requires Keyed(rows) && Groups(byCategory, rows) && n < |SECTIONS|
    ensures var (category, header) := SECTIONS[n];
            var items := if category in byCategory then byCategory[category] else [];
            && Keyed(Rows(items))
            && SectionTexts(rows, n + 1) ==
               SectionTexts(rows, n) + if items != [] then [SectionText(header, Rows(items))] else []
  {
    var category := SECTIONS[n].0;
    var items := if category in byCategory then byCategory[category] else [];
    assert Rows(items) == OfCategory(rows, category);
    if items != [] {
      assert items[0] in Rows(items);
    }
  }

  /** `render_memory_document`: the entries are grouped by category in one pass and each section is
      written in turn. The result depends on the set of entries alone, so on no order of the list. */
  method RenderMemoryDocument(entries: seq<Entry>) returns (document: string)
    requires KeyedList(entries)
    ensures Keyed(Rows(entries)) && document == Document(Rows(entries))
  {
    KeyedListIsKeyed(entries);
    var byCategory: map<Category, seq<Entry>> := map[];
    for i := 0 to |entries|
      invariant Groups(byCategory, Rows(entries[..i]))
    {
      var e := entries[i];
      var sofar := if e.category in byCategory then byCategory[e.category] else [];
      GroupOneMore(entries, i, byCategory, byCategory[e.category := sofar + [e]]);
      byCategory := byCategory[e.category := sofar + [e]];
    }
    assert entries[..|entries|] == entries;
    var sections: seq<string> := [];
    for n := 0 to |SECTIONS|
      invariant sections == SectionTexts(Rows(entries), n)
    {
      var (category, header) := SECTIONS[n];
      var items := if category in byCategory then byCategory[category] else [];
      NextSection(Rows(entries), byCategory, n);
      if items != [] {
        sections := sections + [SectionText(header, Rows(items))];
      }
    }
    document := Join(sections, "\n\n");
  }

  // ---------------------------------------------------------------- the document as lines

  /** The lines of one section. */
  function Block(n: nat, rows: set<Entry>): seq<string>
    requires Keyed(rows) && n < |SECTIONS|
  {
    var items := OfCategory(rows, SECTIONS[n].0);
    if items == {} then [] else [SECTIONS[n].1] + Bullets(Sorted(items))
  }

  /** Two runs of lines with an empty line between them when both are there. */
  function Spaced(a: seq<string>, b: seq<string>): seq<string> {
    if a == [] then b else if b == [] then a else a + [""] + b
  }

  function DocumentLines(rows: set<Entry>, n: nat): seq<string>
    requires Keyed(rows) && n <= |SECTIONS|
  {
    if n == 0 then [] else Spaced(DocumentLines(rows, n - 1), Block(n - 1, rows))
  }

  lemma JoinSpaced(a: seq<string>, b: seq<string>)
    requires a != [] && b != []
    ensures Join(a + [""] + b, "\n") == Join(a, "\n") + "\n\n" + Join(b, "\n")
  {
    JoinAppend(a, [""] + b, "\n");
    JoinAppend([""], b, "\n");
    assert a + ([""] + b) == a + [""] + b;
  }

  lemma {:induction false} DocumentIsLines(rows: set<Entry>, n: nat)
    requires Keyed(rows) && n <= |SECTIONS|
    ensures Join(SectionTexts(rows, n), "\n\n") == Join(DocumentLines(rows, n), "\n")
    ensures SectionTexts(rows, n) == [] <==> DocumentLines(rows, n) == []
  {
    if n > 0 {
      DocumentIsLines(rows, n - 1);
      var before, lines := SectionTexts(rows, n - 1), DocumentLines(rows, n - 1);
      var items := OfCategory(rows, SECTIONS[n - 1].0);
      if items != {} {
        var header, bullets := SECTIONS[n - 1].1, Bullets(Sorted(items));
        JoinAppend([header], bullets, "\n");
        if before != [] {
          JoinAppend(before, [SectionText(header, items)], "\n\n");
          JoinSpaced(lines, [header] + bullets);
        }
      }
    }
  }

  lemma BlockIsClean(n: nat, rows: set<Entry>)
    requires Keyed(rows) && n < |SECTIONS|
    ensures forall l | l in Block(n, rows) :: OneLine(l) && l != ""
  {
    HeaderIsOneLine(n);
    var items := OfCategory(rows, SECTIONS[n].0);
    if items != {} {
      BulletsAreClean(Sorted(items));
    }
  }

  lemma {:induction false} BulletsAreClean(list: seq<Entry>)
    ensures forall l | l in Bullets(list) :: OneLine(l) && l != ""
  {
    hide IsLineBreak, Collapse;
    if list != [] {
      CollapseIsOneLine(list[0].content);
      assert OneLine("- ") by { DashIsOneLine(); }
      assert OneLine(Bullet(list[0]));
      BulletsAreClean(list[1..]);
    }
  }

  lemma DashIsOneLine()
    ensures OneLine("- ")
  {
  }

  lemma SpacedEnd(a: seq<string>, b: seq<string>)
    requires forall l | l in b :: l != ""
    requires a != [] ==> a[|a| - 1] != ""
    ensures var ls := Spaced(a, b); ls != [] ==> ls[|ls| - 1] != ""
  {
    if b != [] {
      var ls := Spaced(a, b);
      assert ls[|ls| - 1] == b[|b| - 1] && b[|b| - 1] in b;
    }
  }

  /** Every line is one line, and the last is not empty. */
  ghost predicate Clean(lines: seq<string>) {
    && (forall l | l in lines :: OneLine(l))
    && (lines != [] ==> lines[|lines| - 1] != "")
  }

  lemma SpacedIsClean(a: seq<string>, b: seq<string>)
    requires Clean(a) && forall l | l in b :: OneLine(l) && l != ""
    ensures Clean(Spaced(a, b))
  {
    SpacedEnd(a, b);
  }

  lemma {:induction false} LinesAreClean(rows: set<Entry>, n: nat)
    requires Keyed(rows) && n <= |SECTIONS|
    ensures Clean(DocumentLines(rows, n))
  {
    hide Block, Spaced;
    if n > 0 {
      LinesAreClean(rows, n - 1);
      BlockIsClean(n - 1, rows);
      var block := Block(n - 1, rows);
      assert DocumentLines(rows, n) == Spaced(DocumentLines(rows, n - 1), block);
      SpacedIsClean(DocumentLines(rows, n - 1), block);
    }
  }

  lemma HeaderIsOneLine(n: nat)
    requires n < |SECTIONS|
    ensures OneLine(SECTIONS[n].1) && SECTIONS[n].1 != ""
  {
  }

  // ---------------------------------------------------------------- size of the document

  /** How many entries the document shows, and in how many non-empty sections, among the first n. */
  function Visible(rows: set<Entry>, n: nat): nat
    requires n <= |SECTIONS|
  {
    if n == 0 then 0 else Visible(rows, n - 1) + |OfCategory(rows, SECTIONS[n - 1].0)|
  }

  function Headed(rows: set<Entry>, n: nat): nat
    requires n <= |SECTIONS|
  {
    if n == 0 then 0 else Headed(rows, n - 1) + if OfCategory(rows, SECTIONS[n - 1].0) == {} then 0 else 1
  }

  lemma {:induction false} CountLines(rows: set<Entry>, n: nat)
    requires Keyed(rows) && n <= |SECTIONS|
    ensures DocumentLines(rows, n) == [] <==> Visible(rows, n) == 0
    ensures Headed(rows, n) == 0 <==> Visible(rows, n) == 0
    ensures Visible(rows, n) > 0 ==> |DocumentLines(rows, n)| == Visible(rows, n) + 2 * Headed(rows, n) - 1
  {
    if n > 0 {
      CountLines(rows, n - 1);
      var items := OfCategory(rows, SECTIONS[n - 1].0);
      assert items == {} <==> |items| == 0;
    }
  }

  /** The lines of the document are exactly its headings, bullets and separators. */
  lemma DocumentSplits(rows: set<Entry>)
    requires Keyed(rows)
    ensures SplitLines(Document(rows)) == DocumentLines(rows, |SECTIONS|)
    ensures var lines := DocumentLines(rows, |SECTIONS|);
            Utf8Size(Document(rows)) + 1 == if lines == [] then 1 else LineWeight(lines)
  {
    var lines := DocumentLines(rows, |SECTIONS|);
    DocumentIsLines(rows, |SECTIONS|);
    LinesAreClean(rows, |SECTIONS|);
    if lines != [] {
      SplitLinesOfJoin(lines);
      JoinSize(lines);
    }
  }

  /** A document of n entries in k sections has exactly n + 2k - 1 lines, and none when n is 0. */
  lemma LineCount(rows: set<Entry>)
    requires Keyed(rows)
    ensures var n, k := Visible(rows, |SECTIONS|), Headed(rows, |SECTIONS|);
            DocumentSize(Document(rows)).0 == if n == 0 then 0 else n + 2 * k - 1
  {
    DocumentSplits(rows);
    CountLines(rows, |SECTIONS|);
  }

  // ---------------------------------------------------------------- where an entry stands

  lemma {:induction false} BulletsAt(list: seq<Entry>, j: nat)
    requires j < |list|
    ensures Bullets(list)[j] == "- " + Collapse(list[j].content)
  {
    hide Collapse;
    if j > 0 {
      BulletsAt(list[1..], j - 1);
    }
  }

  lemma {:induction false} LinesGrow(rows: set<Entry>, m: nat, n: nat)
    requires Keyed(rows) && m <= n <= |SECTIONS|
    ensures DocumentLines(rows, m) <= DocumentLines(rows, n)
  {
    hide Block;
    if m < n {
      LinesGrow(rows, m, n - 1);
    }
  }

  lemma BlockAt(rows: set<Entry>, n: nat)
    requires Keyed(rows) && n < |SECTIONS| && Block(n, rows) != []
    ensures var at, lines := Visible(rows, n) + 2 * Headed(rows, n), DocumentLines(rows, n + 1);
            && |lines| == at + |Block(n, rows)| && lines[at..] == Block(n, rows)
            && (at > 0 ==> lines[at - 1] == "")
  {
    hide Block, Visible, Headed;
    CountLines(rows, n);
  }

  /** The section of a category that has entries: its heading stands after all the sections before it and an empty
      line, and under it its entries, oldest first, each with its content on one line. */
  lemma SectionLines(rows: set<Entry>, n: nat, list: seq<Entry>)
    requires Keyed(rows) && n < |SECTIONS| && list != [] && Rows(list) == OfCategory(rows, SECTIONS[n].0)
    requires forall i, j | 0 <= i < j < |list| ::
               || list[i].createdAt < list[j].createdAt
               || (list[i].createdAt == list[j].createdAt && list[i].pk < list[j].pk)
    ensures var lines, at := SplitLines(Document(rows)), Visible(rows, n) + 2 * Headed(rows, n);
            && at + |list| < |lines| && lines[at] == SECTIONS[n].1
            && (forall j | 0 <= j < |list| :: lines[at + 1 + j] == "- " + Collapse(list[j].content))
            && (at > 0 ==> lines[at - 1] == "")
  {
    hide Collapse, Visible, Headed, DocumentLines, SplitLines, Document;
    SectionBlock(rows, n, list);
    DocumentSplits(rows);
    BlockAt(rows, n);
    LinesGrow(rows, n + 1, |SECTIONS|);
    var block, at, lines := Block(n, rows), Visible(rows, n) + 2 * Headed(rows, n), DocumentLines(rows, n + 1);
    forall j | 0 <= j < |list| ensures SplitLines(Document(rows))[at + 1 + j] == "- " + Collapse(list[j].content) {
      assert lines[at..][j + 1] == block[j + 1];
    }
    assert lines[at..][0] == block[0];
  }

  lemma SectionBlock(rows: set<Entry>, n: nat, list: seq<Entry>)
    requires Keyed(rows) && n < |SECTIONS| && list != [] && Rows(list) == OfCategory(rows, SECTIONS[n].0)
    requires forall i, j | 0 <= i < j < |list| ::
               || list[i].createdAt < list[j].createdAt
               || (list[i].createdAt == list[j].createdAt && list[i].pk < list[j].pk)
    ensures Block(n, rows) != [] && |Block(n, rows)| == 1 + |list| && Block(n, rows)[0] == SECTIONS[n].1
    ensures forall j | 0 <= j < |list| :: Block(n, rows)[j + 1] == "- " + Collapse(list[j].content)
  {
    hide Collapse, Sorted;
    assert list[0] in Rows(list);
    SortedIsUnique(list);
    forall j | 0 <= j < |list| ensures Block(n, rows)[j + 1] == "- " + Collapse(list[j].content) {
      BulletsAt(list, j);
    }
  }

  // ---------------------------------------------------------------- removing an entry

  lemma {:induction false} SortedWithout(rows: set<Entry>, e: Entry)
    requires Keyed(rows) && e in rows
    ensures LineWeight(Bullets(Sorted(rows))) ==
            Utf8Size(Bullet(e)) + 1 + LineWeight(Bullets(Sorted(rows - {e})))
    decreases |rows|
  {
    hide Bullet, Utf8Size;
    var m := First(rows);
    var rest := Sorted(rows - {m});
    assert ([m] + rest)[1..] == rest;
    if m != e {
      var fewer := rows - {e};
      LeastIsUnique(RenderOrder, m, First(fewer), fewer);
      assert fewer - {m} == rows - {m} - {e};
      SortedWithout(rows - {m}, e);
      assert ([m] + Sorted(fewer - {m}))[1..] == Sorted(fewer - {m});
    }
  }

  /** Fewer or equal lines, and fewer or equal bytes. */
  ghost predicate NoLarger(a: seq<string>, b: seq<string>) {
    |a| <= |b| && LineWeight(a) <= LineWeight(b)
  }

  lemma SpacedWeight(a: seq<string>, b: seq<string>)
    ensures |Spaced(a, b)| == |a| + |b| + if a != [] && b != [] then 1 else 0
    ensures LineWeight(Spaced(a, b)) == LineWeight(a) + LineWeight(b) + if a != [] && b != [] then 1 else 0
  {
    if a != [] && b != [] {
      LineWeightAppend(a + [""], b);
      LineWeightAppend(a, [""]);
      assert LineWeight([""]) == 1 + LineWeight([""][1..]) == 1;
    }
  }

  lemma SpacedNoLarger(a: seq<string>, b: seq<string>, a': seq<string>, b': seq<string>)
    requires NoLarger(a, a') && NoLarger(b, b')
    ensures NoLarger(Spaced(a, b), Spaced(a', b'))
  {
    SpacedWeight(a, b);
    SpacedWeight(a', b');
  }

  lemma BlockWithout(n: nat, rows: set<Entry>, e: Entry)
    requires Keyed(rows) && e in rows && n < |SECTIONS|
    ensures NoLarger(Block(n, rows - {e}), Block(n, rows))
  {
    var c := SECTIONS[n].0;
    var items, fewer := OfCategory(rows, c), OfCategory(rows - {e}, c);
    if e.category != c {
      assert items == fewer;
    } else {
      assert fewer == items - {e};
      SortedWithout(items, e);
      if fewer != {} {
        LineWeightAppend([SECTIONS[n].1], Bullets(Sorted(fewer)));
        LineWeightAppend([SECTIONS[n].1], Bullets(Sorted(items)));
      }
    }
  }

  lemma {:induction false} LinesWithout(rows: set<Entry>, e: Entry, n: nat)
    requires Keyed(rows) && e in rows && n <= |SECTIONS|
    ensures NoLarger(DocumentLines(rows - {e}, n), DocumentLines(rows, n))
  {
    hide Block, Spaced, LineWeight;
    if n > 0 {
      var fewer := rows - {e};
      LinesWithout(rows, e, n - 1);
      BlockWithout(n - 1, rows, e);
      SpacedNoLarger(DocumentLines(fewer, n - 1), Block(n - 1, fewer),
                     DocumentLines(rows, n - 1), Block(n - 1, rows));
      assert DocumentLines(fewer, n) == Spaced(DocumentLines(fewer, n - 1), Block(n - 1, fewer));
      assert DocumentLines(rows, n) == Spaced(DocumentLines(rows, n - 1), Block(n - 1, rows));
    }
  }

  /** Removing an entry makes the document neither longer in lines nor larger in bytes. */
  lemma RemovingShrinks(rows: set<Entry>, e: Entry)
    requires Keyed(rows) && e in rows
    ensures DocumentSize(Document(rows - {e})).0 <= DocumentSize(Document(rows)).0
    ensures DocumentSize(Document(rows - {e})).1 <= DocumentSize(Document(rows)).1
  {
    DocumentSplits(rows);
    DocumentSplits(rows - {e});
    LinesWithout(rows, e, |SECTIONS|);
  }
}
