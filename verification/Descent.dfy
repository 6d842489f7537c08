/**
Searches of obj/btree.cc in trees that are not complete: new pages whose parents, or whose new root, have
not been told of them are reached by the sibling links only.
*/
module Descent {
  import opened PageData
  import opened Rows

  /** page::linear_search */
  function LinearSearch(pages: seq<Page>, at: nat, key: Key): Ptr
    requires at < |pages|
  {
    var p := pages[at];
    var found := if p.leftmost == Null then SearchLeaf(p.recs, key, 0) else SearchInternal(p.leftmost, p.recs, key, 0);
    if p.leftmost == Null && found != Null then found
    else if p.sibling.Child? && p.sibling.page < |pages| && pages[p.sibling.page].recs != []
            && key >= pages[p.sibling.page].recs[0].key then p.sibling
    else found
  }

  /** The pages of level l lead to some of the entries below: to the first one at least, and all of them in a leaf. */
  ghost predicate Leads(pages: seq<Page>, row: Row, below: Row, l: nat, cap: nat)
  {
    && RowOk(pages, row, l, cap, |row| == 1)
    && SortedFrom(Flatten(pages, row), FirstKey(l)) && Distinct(Flatten(pages, row))
    && SortedFrom(below, FirstKey(l))
    && (l > 0 ==> forall e :: e in below ==> e.ptr != Null)
    && if l == 0 then Flatten(pages, row) == below else SomeOf(Flatten(pages, row), below)
  }

  ghost predicate SomeOf(flat: Row, below: Row)
  {
    flat != [] && below != [] && flat[0] == below[0] && forall e :: e in flat ==> e in below
  }

  /** A tree in which pages may wait for their parents, on every level, and the root for a new root. */
  ghost predicate Searchable(pages: seq<Page>, rows: seq<Row>, cap: nat, root: nat)
  {
    && |rows| >= 2
    && (forall l: nat :: l < |rows| - 1 ==> Leads(pages, rows[l + 1], rows[l], l, cap))
    && rows[|rows| - 1] != [] && rows[|rows| - 1][0].ptr == Child(root)
  }

  /** The i-th page of a row of level l. */
  lemma PageAt(pages: seq<Page>, row: Row, below: Row, l: nat, cap: nat, i: nat)
    requires Leads(pages, row, below, l, cap) && i < |row|
    ensures row[i].ptr.Child? && row[i].ptr.page < |pages| && pages[row[i].ptr.page].level == l
    ensures pages[row[i].ptr.page].leftmost == Null <==> l == 0
  {
    hide Flatten, SortedFrom, Distinct;
    assert PageOk(pages, row, i, l, cap, |row| == 1);
  }

  lemma NotAfter(row: Row, k: Key, i: nat)
    requires row != [] && i < |row| && (i > 0 ==> row[i].key <= k)
    ensures i <= Locate(row, k)
  {
  }

  lemma LowEnough(row: Row, k: Key, i: nat)
    requires row != [] && SortedFrom(row, 1) && 0 < i <= Locate(row, k)
    ensures row[i].key <= k
  {
    assert i < Locate(row, k) ==> row[i].key < row[Locate(row, k)].key;
  }

  /** The kid that the scan of an internal page picks lies at or left of the one that covers the key. */
  lemma KidBelow(pages: seq<Page>, row: Row, below: Row, l: nat, cap: nat, key: Key, i: nat) returns (j: nat)
    requires l > 0 && Leads(pages, row, below, l, cap) && row != [] && i <= Locate(row, key)
    ensures j < |below| && j <= Locate(below, key) && below[j].ptr == SearchInternal(At(pages, row[i]).leftmost, At(pages, row[i]).recs, key, 0)
  {
    hide Flatten, SortedFrom, Distinct, SearchInternal, Locate, SomeOf;
    var top := |row| == 1;
    assert PageOk(pages, row, i, l, cap, top);
    var p, kids := At(pages, row[i]), KidsOf(pages, row[i]);
    var a, b := Neighbours(pages, row, l, cap, top, i);
    Part(a, kids, b);
    var c := KidIndex(p, row[i].key, key, 0);
    if i > 0 { LowEnough(row, key, i); }
    j := InBelow(a, kids, b, below, c);
    NotAfter(below, key, j);
  }

  /** A stretch of a sorted row of different pointers is one. */
  lemma Part(a: Row, kids: Row, b: Row)
    requires SortedFrom(a + kids + b, 1) && Distinct(a + kids + b)
    ensures SortedFrom(kids, 1) && Distinct(kids)
  {
    var flat := a + kids + b;
    forall s, t | 0 <= s < t < |kids| ensures kids[s].ptr != kids[t].ptr && (s > 0 ==> kids[s].key < kids[t].key) {
      assert flat[|a| + s] == kids[s] && flat[|a| + t] == kids[t];
    }
  }

  /** Where a kid is in the row below; only the very first kid of all is first there. */
  lemma InBelow(a: Row, kids: Row, b: Row, below: Row, c: nat) returns (j: nat)
    requires SomeOf(a + kids + b, below) && c < |kids|
    ensures j < |below| && below[j] == kids[c] && (a == [] && c == 0 ==> j == 0)
  {
    var flat := a + kids + b;
    assert flat[|a| + c] == kids[c];
    assert kids[c] in flat;
    if a == [] && c == 0 {
      j := 0;
    } else {
      j :| 0 <= j < |below| && below[j] == kids[c];
    }
  }

  /**
  One turn of the descent, from a page at or left of the one that covers the key: to the sibling, still not
  past it, or to a page at or left of the covering one below.
  */
  lemma Turn(pages: seq<Page>, row: Row, below: Row, l: nat, cap: nat, key: Key, i: nat) returns (aside: bool, j: nat)
    requires l > 0 && Leads(pages, row, below, l, cap) && row != [] && i <= Locate(row, key)
    ensures row[i].ptr.Child? && row[i].ptr.page < |pages|
    ensures aside ==> i < Locate(row, key) && LinearSearch(pages, row[i].ptr.page, key) == row[i + 1].ptr
    ensures !aside ==> j < |below| && j <= Locate(below, key) && LinearSearch(pages, row[i].ptr.page, key) == below[j].ptr
  {
    hide Flatten, SortedFrom, Distinct, SearchInternal, Locate, SomeOf;
    var top := |row| == 1;
    assert PageOk(pages, row, i, l, cap, top);
    j := KidBelow(pages, row, below, l, cap, key, i);
    var p := pages[row[i].ptr.page];
    aside := p.sibling.Child? && p.sibling.page < |pages| && pages[p.sibling.page].recs != [] && key >= pages[p.sibling.page].recs[0].key;
    if aside {
      FirstRecord(pages, row, l, cap, top, i + 1);
      NotAfter(row, key, i + 1);
    }
  }

  // ----- the states of a split -----

  lemma SomeOfAll(row: Row)
    requires row != []
    ensures SomeOf(row, row)
  {
  }

  lemma SomeOfWithout(row: Row, j: nat)
    requires 1 <= j < |row|
    ensures SomeOf(Without(row, j), row)
  {
  }

  /** While a new page of some level waits for its parent, searches still work. */
  lemma HoleSearchable(pages: seq<Page>, rows: seq<Row>, cap: nat, root: nat, hole: int, j: nat)
    requires TreeOk(pages, rows, cap, root, hole, j) && hole != 0
    ensures Searchable(pages, rows, cap, root)
  {
    hide RowOk, SortedFrom, Distinct, Flatten, SomeOf;
    forall l: nat | l < |rows| - 1 ensures Leads(pages, rows[l + 1], rows[l], l, cap) {
      assert LevelOk(pages, rows, cap, l, hole, j);
      LevelLeads(pages, rows, cap, l, hole, j);
    }
  }

  lemma LevelLeads(pages: seq<Page>, rows: seq<Row>, cap: nat, l: nat, hole: int, j: nat)
    requires l + 1 < |rows| && LevelOk(pages, rows, cap, l, hole, j) && hole != 0
    ensures Leads(pages, rows[l + 1], rows[l], l, cap)
  {
    TopIs(pages, rows[l + 1], l, cap, l + 2 == |rows|);
    if l > 0 { KidsThere(pages, rows[l + 1], l, cap, |rows[l + 1]| == 1); }
    if l == hole {
      WithoutSorted(rows[l], FirstKey(l), j);
      DistinctWithout(rows[l], j);
      SomeOfWithout(rows[l], j);
    } else if l > 0 {
      SomeOfAll(rows[l]);
    }
    hide RowOk, SortedFrom, Distinct, Flatten, SomeOf;
  }

  lemma TopIs(pages: seq<Page>, row: Row, l: nat, cap: nat, top: bool)
    requires RowOk(pages, row, l, cap, top)
    ensures RowOk(pages, row, l, cap, |row| == 1)
  {
    hide PageOk, SortedFrom, Distinct;
  }

  lemma DistinctWithout(row: Row, j: nat)
    requires j < |row| && Distinct(row)
    ensures Distinct(Without(row, j))
  {
    var r := Without(row, j);
    forall t | 0 <= t < |r| ensures r[t] == row[if t < j then t else t + 1] {
    }
  }

  lemma KidsThere(pages: seq<Page>, row: Row, l: nat, cap: nat, top: bool)
    requires RowOk(pages, row, l, cap, top) && l > 0
    ensures Flatten(pages, row) != []
  {
    assert PageOk(pages, row, 0, l, cap, top);
    FlattenAt(pages, row, 0);
  }

  /** So they do while a root and its sibling wait for a new root. */
  lemma HalvedSearchable(pages: seq<Page>, rows: seq<Row>, cap: nat, root: nat)
    requires RootHalved(pages, rows, cap, root)
    ensures Searchable(pages, rows, cap, root)
  {
    hide RowOk, SortedFrom, Distinct, Flatten, SomeOf;
    forall l: nat | l < |rows| - 1 ensures Leads(pages, rows[l + 1], rows[l], l, cap) {
      if l < |rows| - 2 {
        assert LevelOk(pages, rows, cap, l, COMPLETE, 0);
        LevelLeads(pages, rows, cap, l, COMPLETE, 0);
      } else {
        if l > 0 {
          KidsThere(pages, rows[l + 1], l, cap, false);
          SomeOfAll(rows[l]);
        }
      }
    }
  }

  /** The rows that a reader sees while page i of row l + 1 is cut and the new entry is in neither part. */
  function CutRows(pages: seq<Page>, rows: seq<Row>, l: nat, j: nat, i: nat): seq<Row>
    requires l + 1 < |rows| && j < |rows[l]| && i < |rows[l + 1]| && At(pages, rows[l + 1][i]).recs != []
  {
    var cut := rows[l + 1 := Insert1(rows[l + 1], i + 1, Entry(SplitKey(At(pages, rows[l + 1][i])), Child(|pages|)))];
    if l == 0 then cut[0 := Without(rows[0], j)] else cut
  }

  function CutPages(pages: seq<Page>, at: nat): seq<Page>
    requires at < |pages| && pages[at].recs != []
  {
    pages[at := LeftHalf(pages[at], Child(|pages|))] + [RightHalf(pages[at])]
  }

  /** And so they do in the middle of a split, when the sibling is linked and the old page cut. */
  lemma CutSearchable(pages: seq<Page>, rows: seq<Row>, cap: nat, root: nat, l: nat, j: nat, i: nat)
    requires Covers(rows, l, j, i) && TreeOk(pages, rows, cap, root, l, j)
    requires |At(pages, rows[l + 1][i]).recs| == cap
    ensures var e := rows[l + 1][i];
            && e.ptr.Child? && e.ptr.page < |pages| && pages[e.ptr.page].recs != []
            && Searchable(CutPages(pages, e.ptr.page), CutRows(pages, rows, l, j, i), cap, root)
  {
    hide RowOk, SortedFrom, Distinct, Flatten, SomeOf;
    var row := rows[l + 1];
    assert LevelOk(pages, rows, cap, l, l, j);
    CutLevel(pages, rows[l + 1], rows[l], l, cap, l + 2 == |rows|, j, i);
    var at := row[i].ptr.page;
    var pages', rows' := CutPages(pages, at), CutRows(pages, rows, l, j, i);
    var up := Entry(SplitKey(pages[at]), Child(|pages|));
    InsertedAfter(row, i, up);
    forall h: nat | h < |rows'| - 1 ensures Leads(pages', rows'[h + 1], rows'[h], h, cap) {
      assert LevelOk(pages, rows, cap, h, l, j);
      if h == l + 1 {
        LevelAbove(pages, pages', rows, cap, l, j, at, up, i);
      } else if h != l {
        LevelSame(pages, pages', rows, cap, h, l, j, at);
      }
    }
  }

  lemma InsertedAfter(row: Row, i: nat, e: Entry)
    requires i < |row|
    ensures Insert1(row, i + 1, e)[0] == row[0] && forall x :: x in row ==> x in Insert1(row, i + 1, e)
    ensures forall x :: x in Insert1(row, i + 1, e) ==> x in row || x == e
  {
    assert row == row[..i + 1] + row[i + 1..];
  }

  lemma CutLevel(pages: seq<Page>, row: Row, below: Row, l: nat, cap: nat, top: bool, j: nat, i: nat)
    requires RowOk(pages, row, l, cap, top) && i < |row| && cap >= 3 && |At(pages, row[i]).recs| == cap
    requires SortedFrom(below, FirstKey(l)) && Distinct(below) && (l > 0 ==> forall e :: e in below ==> e.ptr != Null)
    requires FirstKey(l) <= j < |below| && Flatten(pages, row) == Without(below, j)
    ensures row[i].ptr.Child? && row[i].ptr.page < |pages| && pages[row[i].ptr.page].recs != []
            && pages[row[i].ptr.page].level == l
    ensures var row' := Insert1(row, i + 1, Entry(SplitKey(pages[row[i].ptr.page]), Child(|pages|)));
            && Leads(CutPages(pages, row[i].ptr.page), row', if l == 0 then Without(below, j) else below, l, cap)
            && SortedFrom(row', 1)
  {
    hide Flatten, SortedFrom, Distinct, SomeOf;
    assert PageOk(pages, row, i, l, cap, top);
    WithoutSorted(below, FirstKey(l), j);
    DistinctWithout(below, j);
    assert forall e :: e in Without(below, j) ==> e in below;
    SplitRow(pages, row, l, cap, top, i);
    if l > 0 { SomeOfWithout(below, j); }
  }

  /** A level whose pages and entries the split does not touch. */
  lemma LevelSame(pages: seq<Page>, pages': seq<Page>, rows: seq<Row>, cap: nat, h: nat, l: nat, j: nat, at: nat)
    requires h + 1 < |rows| && h != l && LevelOk(pages, rows, cap, h, l, j)
    requires |pages| <= |pages'| && at < |pages| && pages[at].level == l
    requires forall x :: 0 <= x < |pages| && x != at ==> pages'[x] == pages[x]
    ensures Leads(pages', rows[h + 1], rows[h], h, cap)
  {
    OtherLevel(pages, pages', rows, rows, cap, h, l, j, COMPLETE, 0, at);
    LevelLeads(pages', rows, cap, h, COMPLETE, 0);
  }

  /** The level above: the parents do not know the new page. */
  lemma LevelAbove(pages: seq<Page>, pages': seq<Page>, rows: seq<Row>, cap: nat, l: nat, j: nat, at: nat, up: Entry, i: nat)
    requires l + 2 < |rows| && LevelOk(pages, rows, cap, l + 1, l, j) && i < |rows[l + 1]| && up.ptr != Null
    requires |pages| <= |pages'| && at < |pages| && pages[at].level == l
    requires forall x :: 0 <= x < |pages| && x != at ==> pages'[x] == pages[x]
    requires SortedFrom(Insert1(rows[l + 1], i + 1, up), 1)
    ensures Leads(pages', rows[l + 2], Insert1(rows[l + 1], i + 1, up), l + 1, cap)
  {
    LevelSame(pages, pages', rows, cap, l + 1, l, j, at);
    InsertedAfter(rows[l + 1], i, up);
    hide RowOk, SortedFrom, Distinct, Flatten, Insert1;
  }
}
