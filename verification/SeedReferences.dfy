/**
 References in pages: the producer asks for 128 rows at a time until a page is short, and the consumer accepts
 a list of stored pages.  What it accepts is one sorted list without duplicates, cut every 128 rows.
 */
module SeedReferences {
  import opened Prelude
  import opened Digits

  const PAGE := 128
  const MAX_ROWS := 200000
  const MAX_PRODUCED := 4096
  const MAX_CONSUMED := 1564
  const MAX_BLOB := 104857600

  datatype Row = Row(role: string, key: string, sha: string, size: int)

  // ---------- rows ----------

  /** A canonical UUID other than the zero one. */
  predicate IsUuid(s: string) {
    && |s| == 36 && (forall i :: 0 <= i < 36 ==> if i in {8, 13, 18, 23} then s[i] == '-' else IsHex(s[i]))
    && exists i :: 0 <= i < 36 && s[i] != '-' && s[i] != '0'
  }

  /** Two hexadecimal digits, a slash, the digest they start, a dash and a UUID. */
  predicate GoodRow(row: Row) {
    && row.role in {"cache", "corpus"} && |row.sha| == 64 && AllHex(row.sha) && 0 <= row.size <= MAX_BLOB
    && |row.key| == 104 && row.key[..2] == row.sha[..2] && row.key[2] == '/' && row.key[3..67] == row.sha
    && row.key[67] == '-' && IsUuid(row.key[68..])
  }

  /** Lexicographic order of strings. */
  predicate Below(a: string, b: string) {
    b != "" && (a == "" || a[0] < b[0] || (a[0] == b[0] && Below(a[1..], b[1..])))
  }

  predicate Precedes(a: Row, b: Row) {
    Below(a.role, b.role) || (a.role == b.role && Below(a.key, b.key))
  }

  lemma {:induction false} BelowTransitive(a: string, b: string, c: string)
    requires Below(a, b) && Below(b, c)
    ensures Below(a, c)
    decreases |a|
  {
    if a != "" && a[0] == b[0] && b[0] == c[0] {
      BelowTransitive(a[1..], b[1..], c[1..]);
    }
  }

  lemma {:induction false} BelowIrreflexive(a: string)
    ensures !Below(a, a)
    decreases |a|
  {
    if a != "" {
      BelowIrreflexive(a[1..]);
    }
  }

  lemma PrecedesTransitive(a: Row, b: Row, c: Row)
    requires Precedes(a, b) && Precedes(b, c)
    ensures Precedes(a, c)
  {
    if Below(a.role, b.role) && Below(b.role, c.role) {
      BelowTransitive(a.role, b.role, c.role);
    }
    if a.role == b.role == c.role {
      if Below(a.key, b.key) && Below(b.key, c.key) {
        BelowTransitive(a.key, b.key, c.key);
      } else {
        BelowIrreflexive(a.role);
      }
    }
  }

  /** Good rows in strictly increasing order: no key occurs twice. */
  ghost predicate Sorted(rows: seq<Row>) {
    && (forall i :: 0 <= i < |rows| ==> GoodRow(rows[i]))
    && (forall i, j :: 0 <= i < j < |rows| ==> Precedes(rows[i], rows[j]))
  }

  /** The same, checked row by row after a last one. */
  predicate Follows(last: Option<Row>, rows: seq<Row>)
    decreases |rows|
  {
    rows == [] || (
      && GoodRow(rows[0]) && (last.Some? ==> Precedes(last.value, rows[0]))
      && Follows(Some(rows[0]), rows[1..]))
  }

  function LastOf(rows: seq<Row>): Option<Row> {
    if rows == [] then None else Some(rows[|rows| - 1])
  }

  lemma SortedSnoc(rows: seq<Row>, row: Row)
    requires Sorted(rows) && GoodRow(row) && (rows != [] ==> Precedes(rows[|rows| - 1], row))
    ensures Sorted(rows + [row])
  {
    forall i | 0 <= i < |rows| ensures Precedes(rows[i], row) {
      if i < |rows| - 1 {
        PrecedesTransitive(rows[i], rows[|rows| - 1], row);
      }
    }
  }

  lemma {:induction false} FollowsSorted(rows: seq<Row>, more: seq<Row>)
    requires Sorted(rows)
    ensures Follows(LastOf(rows), more) <==> Sorted(rows + more)
    decreases |more|
  {
    if more == [] {
      assert rows + more == rows;
    } else {
      var all := rows + more;
      assert all == (rows + [more[0]]) + more[1..];
      if Sorted(all) {
        assert all[|rows|] == more[0] && (rows != [] ==> all[|rows| - 1] == rows[|rows| - 1]);
      }
      if GoodRow(more[0]) && (rows != [] ==> Precedes(rows[|rows| - 1], more[0])) {
        SortedSnoc(rows, more[0]);
        FollowsSorted(rows + [more[0]], more[1..]);
      }
    }
  }

  // ---------- stored pages ----------

  /** A stored page and what its reference says of it; nothing if it could not be read back. */
  datatype Page = Page(offset: int, sourceRows: int, rows: seq<Row>)
  datatype Item = Item(offset: int, rows: int, page: Option<Page>)

  function PageRows(item: Item): seq<Row> {
    if item.page.Some? then item.page.value.rows else []
  }

  ghost function All(items: seq<Item>): seq<Row> {
    if items == [] then [] else All(items[..|items| - 1]) + PageRows(items[|items| - 1])
  }

  /** What the consumer checks of one page after the earlier rows. */
  predicate ItemOk(item: Item, before: seq<Row>, previous: nat, source: Option<int>) {
    && item.offset == |before| && 0 <= item.rows <= PAGE && previous == PAGE && item.page.Some?
    && var page := item.page.value;
    page.offset == |before| && 0 <= page.sourceRows <= MAX_ROWS && |page.rows| == item.rows
    && |before| + |page.rows| <= page.sourceRows && (source.Some? ==> source.value == page.sourceRows)
    && Follows(LastOf(before), page.rows)
  }

  function SourceOf(items: seq<Item>): Option<int> {
    if items != [] && items[|items| - 1].page.Some? then Some(items[|items| - 1].page.value.sourceRows) else None
  }

  function SizeBefore(items: seq<Item>): nat {
    if items == [] then PAGE else |PageRows(items[|items| - 1])|
  }

  ghost predicate Read(items: seq<Item>)
    decreases |items|
  {
    items == [] || (
      var front := items[..|items| - 1];
      Read(front) && ItemOk(items[|items| - 1], All(front), SizeBefore(front), SourceOf(front)))
  }

  /** `_seed_references`. */
  method Consume(items: seq<Item>) returns (r: Option<seq<Row>>)
    ensures r.Some? <==> 1 <= |items| <= MAX_CONSUMED && Read(items) && SizeBefore(items) < PAGE
    ensures r.Some? ==> r.value == All(items)
  {
    if !(1 <= |items| <= MAX_CONSUMED) {
      return None;
    }
    var rows: seq<Row> := [];
    var source: Option<int> := None;
    var previous: nat := PAGE;
    assert items[..0] == [];
    for i := 0 to |items|
      invariant Read(items[..i]) && rows == All(items[..i])
      invariant source == SourceOf(items[..i]) && previous == SizeBefore(items[..i])
      invariant |rows| <= MAX_ROWS
    {
      assert items[..i + 1][..i] == items[..i];
      if !ItemOk(items[i], rows, previous, source) {
        NotReadLater(items, i + 1);
        return None;
      }
      source := Some(items[i].page.value.sourceRows);
      previous := |items[i].page.value.rows|;
      rows := rows + items[i].page.value.rows;
    }
    assert items[..|items|] == items;
    if previous >= PAGE {
      return None;
    }
    r := Some(rows);
  }

  lemma {:induction false} NotReadLater(items: seq<Item>, n: nat)
    requires n <= |items| && !Read(items[..n])
    ensures !Read(items)
    decreases |items|
  {
    if n == |items| {
      assert items[..n] == items;
    } else {
      assert items[..|items| - 1][..n] == items[..n];
      NotReadLater(items[..|items| - 1], n);
    }
  }

  /** What was accepted is one strictly sorted list, cut every 128 rows. */
  lemma {:induction false} ReadIsSorted(items: seq<Item>)
    requires Read(items)
    ensures Sorted(All(items)) && |All(items)| <= MAX_ROWS
    ensures forall i :: 0 <= i < |items| ==>
              && items[i].page.Some? && items[i].offset == items[i].page.value.offset == PAGE * i
              && |PageRows(items[i])| <= PAGE && (i < |items| - 1 ==> |PageRows(items[i])| == PAGE)
    ensures items != [] ==> |All(items)| == PAGE * (|items| - 1) + SizeBefore(items)
    decreases |items|
  {
    if items != [] {
      var front := items[..|items| - 1];
      ReadIsSorted(front);
      FollowsSorted(All(front), PageRows(items[|items| - 1]));
    }
  }

  // ---------- pages of one list ----------

  /** `OFFSET 128 * i LIMIT 128`. */
  function Slice(list: seq<Row>, i: nat): seq<Row> {
    if PAGE * i >= |list| then []
    else if |list| - PAGE * i <= PAGE then list[PAGE * i..]
    else list[PAGE * i..PAGE * i + PAGE]
  }

  ghost predicate PageIs(list: seq<Row>, items: seq<Item>, i: nat) {
    i < |items| ==> PageRows(items[i]) == Slice(list, i)
  }

  /** Every page is the slice of this list. */
  ghost predicate PagesAre(list: seq<Row>, items: seq<Item>) {
    forall i: nat :: PageIs(list, items, i)
  }

  lemma {:induction false} SlicesAreAPrefix(list: seq<Row>, items: seq<Item>)
    requires Read(items) && PagesAre(list, items)
    ensures |All(items)| <= |list| && All(items) == list[..|All(items)|]
    decreases |items|
  {
    if items != [] {
      var n := |items| - 1;
      var front := items[..n];
      forall i: nat ensures PageIs(list, front, i) {
        assert PageIs(list, items, i);
      }
      SlicesAreAPrefix(list, front);
      FullBefore(items);
      SliceContinues(list, |All(front)|, n);
      assert PageIs(list, items, n);
    }
  }

  /** All pages before the last are full. */
  lemma FullBefore(items: seq<Item>)
    requires Read(items) && items != []
    ensures |All(items[..|items| - 1])| == PAGE * (|items| - 1)
  {
    ReadIsSorted(items[..|items| - 1]);
    assert SizeBefore(items[..|items| - 1]) == PAGE;
  }

  lemma SliceContinues(list: seq<Row>, size: nat, n: nat)
    requires size == PAGE * n <= |list|
    ensures list[..size] + Slice(list, n) <= list
    ensures list[..size] + Slice(list, n) == list[..size + |Slice(list, n)|]
  {
    var whole := list[..size] + Slice(list, n);
    assert whole == list[..|whole|];
  }

  lemma ShortSliceEnds(list: seq<Row>, n: nat, size: nat)
    requires size == PAGE * n + |Slice(list, n)| && |Slice(list, n)| < PAGE && size <= |list|
    ensures size == |list|
  {
  }

  lemma PagesOfLength(n: nat, rest: nat)
    requires rest < PAGE
    ensures (PAGE * n + rest) / PAGE == n
  {
  }

  /** If every page is a slice of one list and the last is short, the result is that whole list. */
  lemma SlicesGiveTheList(list: seq<Row>, items: seq<Item>)
    requires Read(items) && items != [] && SizeBefore(items) < PAGE
    requires PagesAre(list, items)
    ensures All(items) == list && Sorted(list) && |items| == |list| / PAGE + 1
  {
    SlicesAreAPrefix(list, items);
    ReadIsSorted(items);
    var n := |items| - 1;
    assert PageIs(list, items, n);
    ShortSliceEnds(list, n, |All(items)|);
    PagesOfLength(n, SizeBefore(items));
    assert list[..|list|] == list;
  }

  // ---------- the producer ----------

  /** A list the database can serve: sorted, and no longer than the count it reports, which is in range. */
  ghost predicate Servable(list: seq<Row>, source: int) {
    Sorted(list) && |list| <= source <= MAX_ROWS
  }

  /** Whole pages of the list, from its start. */
  ghost predicate Produced(list: seq<Row>, source: int, items: seq<Item>) {
    && Read(items) && SizeBefore(items) == PAGE && (items != [] ==> SourceOf(items) == Some(source))
    && PagesAre(list, items)
  }

  lemma WholePages(items: seq<Item>)
    requires Read(items) && SizeBefore(items) == PAGE
    ensures |All(items)| == PAGE * |items| && Sorted(All(items)) && |items| < MAX_PRODUCED
  {
    ReadIsSorted(items);
  }

  lemma ProducedSoFar(list: seq<Row>, source: int, items: seq<Item>)
    requires Produced(list, source, items)
    ensures Sorted(All(items)) && |All(items)| == PAGE * |items| <= |list| && |items| < MAX_PRODUCED
    ensures All(items) + Slice(list, |items|) <= list
  {
    WholePages(items);
    SlicesAreAPrefix(list, items);
    SliceContinues(list, |All(items)|, |items|);
  }

  lemma SliceFits(list: seq<Row>, n: nat)
    ensures |Slice(list, n)| <= PAGE
  {
  }

  lemma ReadSnoc(items: seq<Item>, item: Item)
    requires Read(items) && ItemOk(item, All(items), SizeBefore(items), SourceOf(items))
    ensures Read(items + [item]) && All(items + [item]) == All(items) + item.page.value.rows
    ensures SourceOf(items + [item]) == Some(item.page.value.sourceRows)
    ensures SizeBefore(items + [item]) == |item.page.value.rows|
  {
    assert (items + [item])[..|items|] == items;
  }

  lemma NextIsRead(source: int, items: seq<Item>, n: nat, rows: seq<Row>)
    requires Read(items) && SizeBefore(items) == PAGE && n == |All(items)| && |rows| <= PAGE
    requires items != [] ==> SourceOf(items) == Some(source)
    requires 0 <= source <= MAX_ROWS && n + |rows| <= source && Follows(LastOf(All(items)), rows)
    ensures var more := items + [Item(n, |rows|, Some(Page(n, source, rows)))];
            Read(more) && SourceOf(more) == Some(source) && SizeBefore(more) == |rows| && All(more) == All(items) + rows
  {
    ReadSnoc(items, Item(n, |rows|, Some(Page(n, source, rows))));
  }

  lemma PagesNext(list: seq<Row>, items: seq<Item>, item: Item)
    requires PagesAre(list, items) && PageRows(item) == Slice(list, |items|)
    ensures PagesAre(list, items + [item])
  {
    var more := items + [item];
    forall i: nat ensures PageIs(list, more, i) {
      if i < |items| {
        assert more[i] == items[i] && PageIs(list, items, i);
      }
    }
  }

  /** The next page, as it is stored. */
  lemma OneMorePage(list: seq<Row>, source: int, items: seq<Item>, item: Item)
    requires Produced(list, source, items)
    requires item == Item(PAGE * |items|, |Slice(list, |items|)|, Some(Page(PAGE * |items|, source, Slice(list, |items|))))
    requires 0 <= source <= MAX_ROWS && |All(items)| + |Slice(list, |items|)| <= source
    requires Follows(LastOf(All(items)), Slice(list, |items|))
    ensures Read(items + [item]) && SourceOf(items + [item]) == Some(source)
    ensures SizeBefore(items + [item]) == |Slice(list, |items|)|
    ensures All(items + [item]) == All(items) + Slice(list, |items|)
    ensures PagesAre(list, items + [item])
  {
    var n, rows := PAGE * |items|, Slice(list, |items|);
    WholePages(items);
    SliceFits(list, |items|);
    NextIsRead(source, items, n, rows);
    PagesNext(list, items, Item(n, |rows|, Some(Page(n, source, rows))));
  }

  lemma LastPage(list: seq<Row>, items: seq<Item>)
    requires Read(items) && items != [] && SizeBefore(items) < PAGE
    requires PagesAre(list, items)
    ensures All(items) == list && Sorted(list) && |list| <= MAX_ROWS && |items| <= MAX_CONSUMED
  {
    SlicesGiveTheList(list, items);
    ReadIsSorted(items);
  }

  /**
     `_references`: one page after another, each at the number of rows so far, until a page is short.  On a list
     that stays the same it ends with the whole list exactly when it is servable, in pages that the consumer takes.
     */
  method Produce(list: seq<Row>, source: int) returns (r: Option<seq<Item>>)
    ensures r.Some? <==> Servable(list, source)
    ensures r.Some? ==> 1 <= |r.value| <= MAX_CONSUMED && Read(r.value) && SizeBefore(r.value) < PAGE && All(r.value) == list
  {
    var items: seq<Item> := [];
    var rows: seq<Row> := [];
    while true
      invariant Produced(list, source, items) && rows == All(items)
      decreases |list| - |rows|
    {
      ProducedSoFar(list, source, items);
      if |items| >= MAX_PRODUCED {
        return None;
      }
      var page := Slice(list, |items|);
      if !(0 <= source <= MAX_ROWS) || |rows| + |page| > source || !Follows(LastOf(rows), page) {
        NotServable(list, source, rows, page);
        return None;
      }
      var item := Item(|rows|, |page|, Some(Page(|rows|, source, page)));
      OneMorePage(list, source, items, item);
      items, rows := items + [item], rows + page;
      if |page| < PAGE {
        LastPage(list, items);
        return Some(items);
      }
    }
  }

  lemma NotServable(list: seq<Row>, source: int, rows: seq<Row>, page: seq<Row>)
    requires rows + page <= list && Sorted(rows)
    requires !(0 <= source <= MAX_ROWS) || |rows| + |page| > source || !Follows(LastOf(rows), page)
    ensures !Servable(list, source)
  {
    FollowsSorted(rows, page);
    if Sorted(list) {
      var all := rows + page;
      forall i | 0 <= i < |all| ensures all[i] == list[i] {
      }
    }
  }
}
