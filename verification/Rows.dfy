/**
The whole FAST-FAIR B+-tree of obj/btree.cc and page::store of obj/btree.h, for one writer.

Pages live in an arena and are named by their index, which stands for their address.  The proof
keeps the tree as rows: rows[0] is every record in key order, and rows[l+1] lists the pages of level
l from left to right, each with its lowest key (that of the first page of a row is not used).  A
page's kids are the entries it holds, led by its leftmost pointer when it is internal.  The shape
invariant is that the kids of row l+1, read off the pages, are row l.  While a split waits for its
parent, the row below lacks one entry: the hole.
*/
module Rows {
  import opened PageData

  datatype Page = Page(level: nat, leftmost: Ptr, sibling: Ptr, counter: nat, recs: seq<Entry>)

  type Row = seq<Entry>

  /** The page an entry names; entries that name none get an empty page. */
  function At(pages: seq<Page>, e: Entry): Page
  {
    if e.ptr.Child? && e.ptr.page < |pages| then pages[e.ptr.page] else Page(0, Null, Null, 0, [])
  }

  function Kids(p: Page, low: Key): seq<Entry>
  {
    if p.level == 0 then p.recs else [Entry(low, p.leftmost)] + p.recs
  }

  function KidsOf(pages: seq<Page>, e: Entry): seq<Entry>
  {
    Kids(At(pages, e), e.key)
  }

  function Flatten(pages: seq<Page>, row: Row): seq<Entry>
  {
    if row == [] then [] else KidsOf(pages, row[0]) + Flatten(pages, row[1..])
  }

  function MinFill(cap: nat): nat
  {
    if cap == 0 then 0 else (cap - 1) / 2
  }

  function Next(row: Row, i: nat): Ptr
    requires i < |row|
  {
    if i + 1 < |row| then row[i + 1].ptr else Null
  }

  /** Rows of pages leave their first key unused; the row of records does not. */
  function FirstKey(l: nat): nat
  {
    if l == 0 then 0 else 1
  }

  /** A page that can stand at position i of the row for level l. */
  ghost predicate Fits(p: Page, row: Row, i: nat, l: nat, cap: nat, top: bool)
    requires i < |row|
  {
    && p.level == l
    && (p.leftmost == Null <==> l == 0)
    && p.sibling == Next(row, i)
    && p.counter % 2 == 0
    && |p.recs| <= cap
    && (if top then l > 0 ==> |p.recs| >= 1 else |p.recs| >= MinFill(cap))
    && (i > 0 ==> Kids(p, row[i].key) != [] && Kids(p, row[i].key)[0].key == row[i].key)
  }

  ghost predicate PageOk(pages: seq<Page>, row: Row, i: nat, l: nat, cap: nat, top: bool)
    requires i < |row|
  {
    row[i].ptr.Child? && row[i].ptr.page < |pages| && Fits(At(pages, row[i]), row, i, l, cap, top)
  }

  ghost predicate Distinct(row: Row)
  {
    forall i, j :: 0 <= i < j < |row| ==> row[i].ptr != row[j].ptr
  }

  ghost predicate RowOk(pages: seq<Page>, row: Row, l: nat, cap: nat, top: bool)
  {
    && row != []
    && (top <==> |row| == 1)
    && SortedFrom(row, 1)
    && Distinct(row)
    && (forall i :: 0 <= i < |row| ==> PageOk(pages, row, i, l, cap, top))
  }

  function Without(row: Row, j: nat): Row
    requires j < |row|
  {
    row[..j] + row[j + 1..]
  }

  /** The last position whose key is not above k; position 0 takes everything smaller. */
  function Locate(row: Row, k: Key): (i: nat)
    requires row != []
    ensures i < |row|
    ensures i > 0 ==> row[i].key <= k
    ensures forall j :: i < j < |row| ==> k < row[j].key
  {
    if |row| == 1 || row[|row| - 1].key <= k then |row| - 1 else Locate(row[..|row| - 1], k)
  }

  lemma LocateUnique(row: Row, k: Key, i: nat)
    requires i < |row| && SortedFrom(row, 1)
    requires i > 0 ==> row[i].key <= k
    requires i + 1 < |row| ==> k < row[i + 1].key
    ensures i == Locate(row, k)
  {
    forall t | i < t < |row| ensures k < row[t].key {
    }
  }

  // ----- flattening -----

  lemma {:induction false} FlattenAppend(pages: seq<Page>, a: Row, b: Row)
    ensures Flatten(pages, a + b) == Flatten(pages, a) + Flatten(pages, b)
  {
    if a == [] {
      assert a + b == b;
    } else {
      assert (a + b)[1..] == a[1..] + b;
      FlattenAppend(pages, a[1..], b);
    }
  }

  lemma FlattenAt(pages: seq<Page>, row: Row, i: nat)
    requires i < |row|
    ensures Flatten(pages, row) == Flatten(pages, row[..i]) + KidsOf(pages, row[i]) + Flatten(pages, row[i + 1..])
  {
    assert row == row[..i] + row[i..];
    FlattenAppend(pages, row[..i], row[i..]);
    assert row[i..][1..] == row[i + 1..];
  }

  /** Only the pages a row names matter to it. */
  lemma {:induction false} FlattenFrame(pages: seq<Page>, pages': seq<Page>, row: Row)
    requires forall i :: 0 <= i < |row| ==> At(pages', row[i]) == At(pages, row[i])
    ensures Flatten(pages', row) == Flatten(pages, row)
  {
    if row != [] {
      FlattenFrame(pages, pages', row[1..]);
    }
  }

  lemma RowFrame(pages: seq<Page>, pages': seq<Page>, row: Row, l: nat, cap: nat, top: bool)
    requires RowOk(pages, row, l, cap, top) && |pages| <= |pages'|
    requires forall i :: 0 <= i < |row| ==> At(pages', row[i]) == At(pages, row[i])
    ensures RowOk(pages', row, l, cap, top) && Flatten(pages', row) == Flatten(pages, row)
  {
    FlattenFrame(pages, pages', row);
    forall i | 0 <= i < |row| ensures PageOk(pages', row, i, l, cap, top) {
      assert PageOk(pages, row, i, l, cap, top);
    }
  }

  lemma FlattenHead(pages: seq<Page>, row: Row)
    requires row != [] && KidsOf(pages, row[0]) != []
    ensures Flatten(pages, row) != [] && Flatten(pages, row)[0] == KidsOf(pages, row[0])[0]
  {
  }

  /** Entries before and after a stretch of a sorted sequence. */
  lemma SortedParts(a: seq<Entry>, kids: seq<Entry>, b: seq<Entry>, from: nat, low: Key, k: Key)
    requires SortedFrom(a + kids + b, from)
    requires a != [] ==> |a| >= from && kids != [] && kids[0].key == low && low <= k
    requires b != [] ==> |a + kids| >= from && k < b[0].key
    ensures forall t :: from <= t < |a| ==> a[t].key < low
    ensures forall t :: 0 <= t < |b| ==> k < b[t].key
  {
    var flat := a + kids + b;
    forall t | from <= t < |a| ensures a[t].key < low {
      assert flat[t] == a[t] && flat[|a|] == kids[0];
    }
    forall t | 0 <= t < |b| ensures k < b[t].key {
      assert flat[|a + kids|] == b[0] && flat[|a + kids| + t] == b[t];
    }
  }

  /** The row below, cut around the kids of the i-th page. */
  lemma Neighbours(pages: seq<Page>, row: Row, l: nat, cap: nat, top: bool, i: nat) returns (a: seq<Entry>, b: seq<Entry>)
    requires RowOk(pages, row, l, cap, top) && i < |row|
    ensures Flatten(pages, row) == a + KidsOf(pages, row[i]) + b
    ensures a == Flatten(pages, row[..i]) && b == Flatten(pages, row[i + 1..])
    ensures i == 0 ==> a == []
    ensures i > 0 && l > 0 ==> a != []
    ensures i + 1 == |row| ==> b == []
    ensures i + 1 < |row| ==> b != [] && b[0].key == row[i + 1].key
  {
    hide Distinct, SortedFrom;
    FlattenAt(pages, row, i);
    a, b := Flatten(pages, row[..i]), Flatten(pages, row[i + 1..]);
    if i + 1 < |row| {
      assert PageOk(pages, row, i + 1, l, cap, top);
      FlattenHead(pages, row[i + 1..]);
    }
    if i > 0 && l > 0 {
      assert PageOk(pages, row, 0, l, cap, top);
      FlattenHead(pages, row[..i]);
    }
  }

  /** The row below, cut around the kids of the page that covers k. */
  lemma Around(pages: seq<Page>, row: Row, l: nat, cap: nat, top: bool, k: Key) returns (a: seq<Entry>, b: seq<Entry>)
    requires RowOk(pages, row, l, cap, top)
    requires SortedFrom(Flatten(pages, row), FirstKey(l))
    ensures var i := Locate(row, k);
            && Flatten(pages, row) == a + KidsOf(pages, row[i]) + b
            && a == Flatten(pages, row[..i]) && b == Flatten(pages, row[i + 1..])
            && (forall t :: FirstKey(l) <= t < |a| ==> a[t].key < row[i].key)
            && (forall t :: 0 <= t < |b| ==> k < b[t].key)
            && (i == 0 ==> a == [])
  {
    hide Flatten, Distinct;
    var i := Locate(row, k);
    assert PageOk(pages, row, i, l, cap, top);
    a, b := Neighbours(pages, row, l, cap, top, i);
    SortedParts(a, KidsOf(pages, row[i]), b, FirstKey(l), row[i].key, k);
  }

  /** Descending one level: the page that covers k leads to the page that covers k below. */
  lemma Descend(pages: seq<Page>, row: Row, l: nat, cap: nat, top: bool, k: Key)
    requires l > 0 && RowOk(pages, row, l, cap, top)
    requires SortedFrom(Flatten(pages, row), 1) && Distinct(Flatten(pages, row))
    ensures var p := At(pages, row[Locate(row, k)]);
            var below := Flatten(pages, row);
            below != [] && SearchInternal(p.leftmost, p.recs, k, 0) == below[Locate(below, k)].ptr
  {
    var i := Locate(row, k);
    assert PageOk(pages, row, i, l, cap, top);
    hide Flatten, SortedFrom, Distinct, SearchInternal;
    var a, b := Around(pages, row, l, cap, top, k);
    var c := KidInRow(At(pages, row[i]), row[i].key, a, b, k);
    LocateUnique(Flatten(pages, row), k, |a| + c);
  }

  lemma KidInRow(p: Page, low: Key, a: seq<Entry>, b: seq<Entry>, k: Key) returns (c: nat)
    requires p.level > 0
    requires var flat := a + Kids(p, low) + b; SortedFrom(flat, 1) && Distinct(flat)
    requires a != [] ==> low <= k
    requires b != [] ==> k < b[0].key
    ensures var flat := a + Kids(p, low) + b;
            && |a| + c < |flat| && SearchInternal(p.leftmost, p.recs, k, 0) == flat[|a| + c].ptr
            && (|a| + c > 0 ==> flat[|a| + c].key <= k)
            && (|a| + c + 1 < |flat| ==> k < flat[|a| + c + 1].key)
  {
    var kids := Kids(p, low);
    var flat := a + kids + b;
    forall s, t | 0 <= s < t < |kids| ensures kids[s].ptr != kids[t].ptr && (s > 0 ==> kids[s].key < kids[t].key) {
      assert flat[|a| + s] == kids[s] && flat[|a| + t] == kids[t];
    }
    c := KidIndex(p, low, k, 0);
    assert flat[|a| + c] == kids[c];
    if c + 1 < |kids| {
      assert flat[|a| + c + 1] == kids[c + 1];
    }
  }

  /** Which kid of an internal page the scan picks: the last one not above k. */
  lemma {:induction false} KidIndex(p: Page, low: Key, k: Key, from: nat) returns (c: nat)
    requires p.level > 0 && from <= |p.recs|
    requires var kids := Kids(p, low);
             SortedFrom(kids, 1) && Distinct(kids) && (from > 0 ==> kids[from].key <= k)
    ensures var kids := Kids(p, low);
            && from <= c < |kids| && SearchInternal(p.leftmost, p.recs, k, from) == kids[c].ptr
            && (c > 0 ==> kids[c].key <= k)
            && (c + 1 < |kids| ==> k < kids[c + 1].key)
    decreases |p.recs| - from
  {
    var kids := Kids(p, low);
    assert kids[from].ptr == if from == 0 then p.leftmost else p.recs[from - 1].ptr;
    if from == |p.recs| {
      c := from;
    } else {
      assert kids[from + 1] == p.recs[from];
      assert Visible(p.leftmost, p.recs, from);
      if k < p.recs[from].key {
        c := from;
      } else {
        c := KidIndex(p, low, k, from + 1);
      }
    }
  }

  /** The first record of the page right of the covering one is above k, so no scan moves right. */
  lemma SiblingAhead(pages: seq<Page>, row: Row, l: nat, cap: nat, top: bool, k: Key)
    requires RowOk(pages, row, l, cap, top) && SortedFrom(Flatten(pages, row), FirstKey(l))
    ensures var s := Next(row, Locate(row, k));
            s.Child? && s.page < |pages| && pages[s.page].recs != [] ==> k < pages[s.page].recs[0].key
  {
    var i := Locate(row, k);
    if i + 1 < |row| {
      FirstRecord(pages, row, l, cap, top, i + 1);
    }
  }

  /** Keys of one page against the first key of the next. */
  lemma KidsOrder(a: seq<Entry>, kids: seq<Entry>, b: seq<Entry>, from: nat)
    requires SortedFrom(a + kids + b, from)
    ensures b != [] ==> forall t :: 0 <= t < |kids| && from <= |a| + t ==> kids[t].key < b[0].key
    ensures forall s, t :: 0 <= s < t < |kids| && from <= |a| + s ==> kids[s].key < kids[t].key
  {
    var flat := a + kids + b;
    assert b != [] ==> flat[|a| + |kids|] == b[0];
    assert forall t :: 0 <= t < |kids| ==> kids[t] == flat[|a| + t];
  }

  /** The records of a page lie between its own low key and that of its neighbour. */
  lemma RecordRange(pages: seq<Page>, row: Row, l: nat, cap: nat, top: bool, i: nat)
    requires RowOk(pages, row, l, cap, top) && SortedFrom(Flatten(pages, row), FirstKey(l)) && i < |row|
    ensures var recs := At(pages, row[i]).recs;
            && (forall t :: 0 <= t < |recs| && i + 1 < |row| ==> recs[t].key < row[i + 1].key)
            && (forall t :: 0 <= t < |recs| && i > 0 ==> row[i].key <= recs[t].key)
  {
    assert PageOk(pages, row, i, l, cap, top);
    hide Flatten, RowOk, SortedFrom;
    var p, kids := At(pages, row[i]), KidsOf(pages, row[i]);
    var a, b := Neighbours(pages, row, l, cap, top, i);
    KidsOrder(a, kids, b, FirstKey(l));
    forall t | 0 <= t < |p.recs| ensures p.recs[t] == kids[FirstKey(l) + t] {
    }
  }

  lemma FirstRecord(pages: seq<Page>, row: Row, l: nat, cap: nat, top: bool, i: nat)
    requires RowOk(pages, row, l, cap, top) && SortedFrom(Flatten(pages, row), FirstKey(l)) && 0 < i < |row|
    ensures row[i].ptr.Child? && row[i].ptr.page < |pages|
    ensures var recs := pages[row[i].ptr.page].recs;
            recs != [] ==> row[i].key <= recs[0].key && (l == 0 ==> row[i].key == recs[0].key)
  {
    assert PageOk(pages, row, i, l, cap, top);
    var p, kids := At(pages, row[i]), KidsOf(pages, row[i]);
    if l > 0 && p.recs != [] {
      var a, b := Neighbours(pages, row, l, cap, top, i);
      KidsOrder(a, kids, b, 1);
      assert kids[1] == p.recs[0];
    }
  }

  /** The records of a leaf lie below the next leaf. */
  lemma LeafBelow(pages: seq<Page>, row: Row, cap: nat, top: bool, i: nat)
    requires RowOk(pages, row, 0, cap, top) && SortedFrom(Flatten(pages, row), 0) && i + 1 < |row|
    ensures forall t :: 0 <= t < |At(pages, row[i]).recs| ==> At(pages, row[i]).recs[t].key < row[i + 1].key
  {
    assert PageOk(pages, row, i, 0, cap, top);
    var a, b := Neighbours(pages, row, 0, cap, top, i);
    KidsOrder(a, KidsOf(pages, row[i]), b, 0);
  }

  // ----- inserting into a page, splitting a page -----

  ghost predicate CutsAt(s: seq<Entry>, from: nat, k: Key, x: nat)
  {
    && from <= x <= |s|
    && (forall t :: from <= t < x ==> s[t].key < k)
    && (forall t :: x <= t < |s| ==> k < s[t].key)
  }

  /** A sorted sequence has one place to cut at k. */
  lemma CutUnique(s: seq<Entry>, from: nat, k: Key, x: nat, y: nat)
    requires CutsAt(s, from, k, x) && CutsAt(s, from, k, y)
    ensures x == y
  {
    var atX := if x < |s| then s[x] else Entry(k, Null);
    var atY := if y < |s| then s[y] else Entry(k, Null);
  }

  lemma CutWithout(s: seq<Entry>, from: nat, j: nat)
    requires from <= j < |s| && SortedFrom(s, from)
    ensures CutsAt(Without(s, j), from, s[j].key, j)
  {
    var r := Without(s, j);
    forall t | 0 <= t < |r| ensures r[t] == s[if t < j then t else t + 1] {
    }
  }

  lemma CutParts(a: seq<Entry>, kids: seq<Entry>, b: seq<Entry>, from: nat, k: Key, c: nat)
    requires c <= |kids| && from <= |a| + c
    requires forall t :: from <= t < |a| ==> a[t].key < k
    requires forall t :: 0 <= t < c && from <= |a| + t ==> kids[t].key < k
    requires forall t :: c <= t < |kids| ==> k < kids[t].key
    requires forall t :: 0 <= t < |b| ==> k < b[t].key
    ensures CutsAt(a + kids + b, from, k, |a| + c)
  {
  }

  /** Putting the missing entry into the kids of one page completes the row below. */
  lemma FillKids(a: seq<Entry>, kids: seq<Entry>, b: seq<Entry>, from: nat, c: nat, below: Row, j: nat)
    requires from <= j < |below| && SortedFrom(below, from)
    requires a + kids + b == Without(below, j)
    requires c <= |kids| && CutsAt(a + kids + b, from, below[j].key, |a| + c)
    ensures a + (kids[..c] + [below[j]] + kids[c..]) + b == below
  {
    CutWithout(below, from, j);
    CutUnique(a + kids + b, from, below[j].key, |a| + c, j);
    var flat := Without(below, j);
    assert flat[..j] == a + kids[..c];
    assert flat[j..] == kids[c..] + b;
    assert below == flat[..j] + [below[j]] + flat[j..];
  }

  /** The key falls where insert_key puts it. */
  lemma CutPage(a: seq<Entry>, p: Page, low: Key, b: seq<Entry>, k: Key)
    requires var flat := a + Kids(p, low) + b;
             SortedFrom(flat, FirstKey(p.level)) && forall t :: FirstKey(p.level) <= t < |flat| ==> flat[t].key != k
    requires forall t :: FirstKey(p.level) <= t < |a| ==> a[t].key < low
    requires forall t :: 0 <= t < |b| ==> k < b[t].key
    requires a != [] ==> low <= k
    ensures CutsAt(a + Kids(p, low) + b, FirstKey(p.level), k, |a| + FirstKey(p.level) + InsertPos(p.recs, k))
  {
    var from, kids := FirstKey(p.level), Kids(p, low);
    var flat, c := a + kids + b, from + InsertPos(p.recs, k);
    forall t | 0 <= t < c && from <= |a| + t ensures kids[t].key < k {
      assert kids[t] == flat[|a| + t];
      if InsertPos(p.recs, k) > 0 {
        assert kids[c - 1] == p.recs[InsertPos(p.recs, k) - 1];
        assert kids[c - 1] == flat[|a| + c - 1];
      }
    }
    forall t | c <= t < |kids| ensures k < kids[t].key {
      assert kids[t] == p.recs[t - from];
    }
    CutParts(a, kids, b, from, k, c);
  }

  lemma KidsInserted(p: Page, low: Key, key: Key, ptr: Ptr)
    ensures var c := FirstKey(p.level) + InsertPos(p.recs, key);
            && c <= |Kids(p, low)|
            && Kids(InsertKey(p, key, ptr), low) == Kids(p, low)[..c] + [Entry(key, ptr)] + Kids(p, low)[c..]
  {
  }

  function InsertKey(p: Page, key: Key, ptr: Ptr): Page
  {
    p.(recs := Inserted(p.recs, key, ptr), counter := Forward(p.counter))
  }

  lemma ReplaceKids(pages: seq<Page>, row: Row, i: nat, p: Page)
    requires i < |row| && Distinct(row) && row[i].ptr.Child? && row[i].ptr.page < |pages|
    ensures var pages' := pages[row[i].ptr.page := p];
            && Flatten(pages', row) == Flatten(pages, row[..i]) + Kids(p, row[i].key) + Flatten(pages, row[i + 1..])
            && forall j :: 0 <= j < |row| && j != i ==> At(pages', row[j]) == At(pages, row[j])
  {
    var pages' := pages[row[i].ptr.page := p];
    forall j | 0 <= j < |row| && j != i ensures At(pages', row[j]) == At(pages, row[j]) {
      assert row[j].ptr != row[i].ptr;
    }
    FlattenAt(pages', row, i);
    FlattenFrame(pages, pages', row[..i]);
    FlattenFrame(pages, pages', row[i + 1..]);
  }

  lemma SwapPage(pages: seq<Page>, row: Row, l: nat, cap: nat, top: bool, i: nat, p: Page)
    requires RowOk(pages, row, l, cap, top) && i < |row| && Fits(p, row, i, l, cap, top)
    ensures row[i].ptr.Child? && row[i].ptr.page < |pages|
    ensures RowOk(pages[row[i].ptr.page := p], row, l, cap, top)
  {
    assert PageOk(pages, row, i, l, cap, top);
    var pages' := pages[row[i].ptr.page := p];
    ReplaceKids(pages, row, i, p);
    forall t | 0 <= t < |row| ensures PageOk(pages', row, t, l, cap, top) {
      assert PageOk(pages, row, t, l, cap, top);
    }
  }

  /** A page with room takes the missing entry of the row below. */
  lemma InsertIntoRow(pages: seq<Page>, row: Row, l: nat, cap: nat, top: bool, below: Row, j: nat)
    requires RowOk(pages, row, l, cap, top)
    requires FirstKey(l) <= j < |below| && SortedFrom(below, FirstKey(l)) && Flatten(pages, row) == Without(below, j)
    requires |At(pages, row[Locate(row, below[j].key)]).recs| < cap
    ensures var e := row[Locate(row, below[j].key)];
            && e.ptr.Child? && e.ptr.page < |pages|
            && var pages' := pages[e.ptr.page := InsertKey(At(pages, e), below[j].key, below[j].ptr)];
            && RowOk(pages', row, l, cap, top)
            && Flatten(pages', row) == below
  {
    hide Flatten, SortedFrom, Distinct;
    hide Flatten, Distinct;
    var k, i := below[j].key, Locate(row, below[j].key);
    var p := At(pages, row[i]);
    var p' := InsertKey(p, k, below[j].ptr);
    assert PageOk(pages, row, i, l, cap, top);
    if i > 0 && l == 0 {
      FirstStays(p.recs, row[i].key, k, below[j].ptr);
    }
    SwapPage(pages, row, l, cap, top, i, p');
    InsertFlatten(pages, row, l, cap, top, below, j);
  }

  lemma InsertFlatten(pages: seq<Page>, row: Row, l: nat, cap: nat, top: bool, below: Row, j: nat)
    requires RowOk(pages, row, l, cap, top)
    requires FirstKey(l) <= j < |below| && SortedFrom(below, FirstKey(l)) && Flatten(pages, row) == Without(below, j)
    ensures var e := row[Locate(row, below[j].key)];
            && e.ptr.Child? && e.ptr.page < |pages|
            && Flatten(pages[e.ptr.page := InsertKey(At(pages, e), below[j].key, below[j].ptr)], row) == below
  {
    var i := Locate(row, below[j].key);
    assert PageOk(pages, row, i, l, cap, top);
    hide Flatten, SortedFrom;
    var a, b := InsertAround(pages, row, l, cap, top, below, j, i);
    ReplaceKids(pages, row, i, InsertKey(At(pages, row[i]), below[j].key, below[j].ptr));
  }

  lemma InsertAround(pages: seq<Page>, row: Row, l: nat, cap: nat, top: bool, below: Row, j: nat, i: nat)
    returns (a: seq<Entry>, b: seq<Entry>)
    requires RowOk(pages, row, l, cap, top) && FirstKey(l) <= j < |below| && i == Locate(row, below[j].key)
    requires SortedFrom(below, FirstKey(l)) && Flatten(pages, row) == Without(below, j)
    ensures a == Flatten(pages, row[..i]) && b == Flatten(pages, row[i + 1..])
    ensures a + Kids(InsertKey(At(pages, row[i]), below[j].key, below[j].ptr), row[i].key) + b == below
  {
    var k, ptr, p, low := below[j].key, below[j].ptr, At(pages, row[i]), row[i].key;
    assert p.level == l by { assert PageOk(pages, row, i, l, cap, top); }
    hide Flatten, SortedFrom, CutsAt, RowOk, Kids, InsertPos;
    WithoutSorted(below, FirstKey(l), j);
    a, b := Around(pages, row, l, cap, top, k);
    CutPage(a, p, low, b, k);
    KidsInserted(p, low, k, ptr);
    FillKids(a, Kids(p, low), b, FirstKey(l), FirstKey(l) + InsertPos(p.recs, k), below, j);
  }

  lemma FirstStays(s: seq<Entry>, low: Key, key: Key, ptr: Ptr)
    requires s != [] && s[0].key == low <= key
    ensures Inserted(s, key, ptr)[0] == s[0]
  {
  }

  lemma WithoutSorted(s: seq<Entry>, from: nat, j: nat)
    requires from <= j < |s| && SortedFrom(s, from)
    ensures SortedFrom(Without(s, j), from)
    ensures forall t :: from <= t < |Without(s, j)| ==> Without(s, j)[t].key != s[j].key
  {
    var r := Without(s, j);
    forall t | 0 <= t < |r| ensures r[t] == s[if t < j then t else t + 1] {
    }
  }

  // ----- splitting -----

  function LeftHalf(p: Page, sibling: Ptr): Page
  {
    p.(recs := p.recs[..|p.recs| / 2], sibling := sibling, counter := Bump(p.counter))
  }

  /** The new page: a leaf keeps the middle entry, an internal page turns it into its leftmost pointer. */
  function RightHalf(p: Page): Page
    requires p.recs != []
  {
    var m := |p.recs| / 2;
    if p.level == 0 then Page(0, Null, p.sibling, 0, p.recs[m..])
    else Page(p.level, p.recs[m].ptr, p.sibling, 0, p.recs[m + 1..])
  }

  function SplitKey(p: Page): Key
    requires p.recs != []
  {
    p.recs[|p.recs| / 2].key
  }

  function Insert1(row: Row, i: nat, e: Entry): Row
    requires i <= |row|
  {
    row[..i] + [e] + row[i..]
  }

  lemma KidsSplit(p: Page, low: Key, sibling: Ptr)
    requires p.recs != []
    requires p.level > 0 ==> p.leftmost != Null
    ensures Kids(p, low) == Kids(LeftHalf(p, sibling), low) + Kids(RightHalf(p), SplitKey(p))
  {
    var m := |p.recs| / 2;
    var left, right := p.recs[..m], p.recs[m + 1..];
    assert p.recs[m..] == [p.recs[m]] + right;
    assert p.recs == left + p.recs[m..];
    if p.level > 0 {
      var first := [Entry(low, p.leftmost)];
      assert [Entry(SplitKey(p), p.recs[m].ptr)] + right == p.recs[m..];
      assert first + (left + p.recs[m..]) == first + left + p.recs[m..];
    }
  }

  /** The split of a full page keeps the row below and adds one page to its own row. */
  lemma SplitRow(pages: seq<Page>, row: Row, l: nat, cap: nat, top: bool, i: nat)
    requires RowOk(pages, row, l, cap, top) && i < |row| && cap >= 3
    requires |At(pages, row[i]).recs| == cap
    requires SortedFrom(Flatten(pages, row), FirstKey(l))
    requires l > 0 ==> forall e :: e in Flatten(pages, row) ==> e.ptr != Null
    ensures row[i].ptr.Child? && row[i].ptr.page < |pages|
    ensures var p := At(pages, row[i]);
            var e := Entry(SplitKey(p), Child(|pages|));
            var row' := Insert1(row, i + 1, e);
            var pages' := pages[row[i].ptr.page := LeftHalf(p, e.ptr)] + [RightHalf(p)];
            && RowOk(pages', row', l, cap, false)
            && Flatten(pages', row') == Flatten(pages, row)
  {
    hide Flatten, SortedFrom;
    assert PageOk(pages, row, i, l, cap, top);
    var p := At(pages, row[i]);
    var e := Entry(SplitKey(p), Child(|pages|));
    var row' := Insert1(row, i + 1, e);
    var left, right := LeftHalf(p, e.ptr), RightHalf(p);
    var pages1 := pages[row[i].ptr.page := left];
    var pages' := pages1 + [right];
    assert forall j :: 0 <= j < |row| ==> row[j].ptr.Child? && row[j].ptr.page < |pages| by {
      forall j | 0 <= j < |row| ensures row[j].ptr.Child? && row[j].ptr.page < |pages| {
        assert PageOk(pages, row, j, l, cap, top);
      }
    }
    KidsSplit(p, row[i].key, e.ptr);
    SplitFlatten(pages, row, i, e, left, right);
    SplitKeyBetween(pages, row, l, cap, top, i);
    assert RowOk(pages', row', l, cap, false) by {
      SplitFits(pages, row, l, cap, top, i);
      InsertSorted(row, i + 1, e, 1);
    }
  }

  lemma InsertSorted(row: Row, j: nat, e: Entry, from: nat)
    requires from <= j <= |row| && SortedFrom(row, from) && Distinct(row)
    requires forall t :: 0 <= t < |row| ==> row[t].ptr != e.ptr
    requires j > from ==> row[j - 1].key < e.key
    requires j < |row| ==> e.key < row[j].key
    ensures SortedFrom(Insert1(row, j, e), from) && Distinct(Insert1(row, j, e))
    ensures Without(Insert1(row, j, e), j) == row
  {
    var row' := Insert1(row, j, e);
    assert Without(row', j) == row;
    forall s, t | from <= s < t < |row'| ensures row'[s].key < row'[t].key {
      Insert1At(row, j, e, s);
      Insert1At(row, j, e, t);
    }
    forall s, t | 0 <= s < t < |row'| ensures row'[s].ptr != row'[t].ptr {
      Insert1At(row, j, e, s);
      Insert1At(row, j, e, t);
    }
  }

  lemma Insert1At(row: Row, j: nat, e: Entry, t: nat)
    requires j <= |row| && t <= |row|
    ensures Insert1(row, j, e)[t] == if t < j then row[t] else if t == j then e else row[t - 1]
  {
  }

  /** The split key lies between the lowest keys of the full page and of its right neighbour. */
  lemma SplitKeyBetween(pages: seq<Page>, row: Row, l: nat, cap: nat, top: bool, i: nat)
    requires RowOk(pages, row, l, cap, top) && i < |row|
    requires |At(pages, row[i]).recs| >= 2
    requires SortedFrom(Flatten(pages, row), FirstKey(l))
    ensures i > 0 ==> row[i].key < SplitKey(At(pages, row[i]))
    ensures i + 1 < |row| ==> SplitKey(At(pages, row[i])) < row[i + 1].key
  {
    var p := At(pages, row[i]);
    var kids, c := KidsOf(pages, row[i]), FirstKey(l) + |p.recs| / 2;
    assert PageOk(pages, row, i, l, cap, top);
    assert kids[c] == p.recs[|p.recs| / 2];
    var a, b := Neighbours(pages, row, l, cap, top, i);
    KidsOrder(a, kids, b, FirstKey(l));
  }

  lemma SplitFits(pages: seq<Page>, row: Row, l: nat, cap: nat, top: bool, i: nat)
    requires RowOk(pages, row, l, cap, top) && i < |row| && cap >= 3
    requires |At(pages, row[i]).recs| == cap
    requires l > 0 ==> forall e :: e in Flatten(pages, row) ==> e.ptr != Null
    ensures row[i].ptr.Child? && row[i].ptr.page < |pages|
    ensures var p := At(pages, row[i]);
            var e := Entry(SplitKey(p), Child(|pages|));
            var row' := Insert1(row, i + 1, e);
            var pages' := pages[row[i].ptr.page := LeftHalf(p, e.ptr)] + [RightHalf(p)];
            forall t :: 0 <= t < |row'| ==> PageOk(pages', row', t, l, cap, false)
  {
    assert PageOk(pages, row, i, l, cap, top);
    var p := At(pages, row[i]);
    var e := Entry(SplitKey(p), Child(|pages|));
    var row' := Insert1(row, i + 1, e);
    var pages' := pages[row[i].ptr.page := LeftHalf(p, e.ptr)] + [RightHalf(p)];
    if l > 0 {
      FlattenAt(pages, row, i);
      var kid := KidsOf(pages, row[i])[1 + cap / 2];
      assert kid in Flatten(pages, row);
    }
    HalvesFit(p, row, l, cap, top, i, e);
    forall t | 0 <= t < |row'| ensures PageOk(pages', row', t, l, cap, false) {
      Insert1At(row, i + 1, e, t);
      if t < i || t > i + 1 { OthersFit(pages, row, l, cap, top, i, t, e, pages'); }
    }
  }

  /** The pages left and right of the two halves stay as they are. */
  lemma OthersFit(pages: seq<Page>, row: Row, l: nat, cap: nat, top: bool, i: nat, t: nat, e: Entry, pages': seq<Page>)
    requires RowOk(pages, row, l, cap, top) && i < |row| && t <= |row| && (t < i || t > i + 1)
    requires row[i].ptr.Child? && |pages'| >= |pages| && forall x :: 0 <= x < |pages| && x != row[i].ptr.page ==> pages'[x] == pages[x]
    ensures PageOk(pages', Insert1(row, i + 1, e), t, l, cap, false)
  {
    hide MinFill, Kids;
    Insert1At(row, i + 1, e, t);
    var s := if t < i then t else t - 1;
    assert PageOk(pages, row, s, l, cap, top);
    assert row[s].ptr != row[i].ptr;
    if t < i {
      Insert1At(row, i + 1, e, t + 1);
    } else {
      NextShifted(row, i + 1, e, t);
    }
  }

  lemma NextShifted(row: Row, j: nat, e: Entry, t: nat)
    requires 0 < j <= t <= |row|
    ensures Next(Insert1(row, j, e), t) == Next(row, t - 1)
  {
    if t + 1 <= |row| {
      Insert1At(row, j, e, t + 1);
    }
  }

  lemma HalvesFit(p: Page, row: Row, l: nat, cap: nat, top: bool, i: nat, e: Entry)
    requires i < |row| && Fits(p, row, i, l, cap, top) && cap >= 3 && |p.recs| == cap && e.key == SplitKey(p)
    requires l > 0 ==> p.recs[cap / 2].ptr != Null
    ensures var row' := Insert1(row, i + 1, e);
            Fits(LeftHalf(p, e.ptr), row', i, l, cap, false) && Fits(RightHalf(p), row', i + 1, l, cap, false)
  {
    hide Kids, Insert1, Next, Bump;
    var row' := Insert1(row, i + 1, e);
    BumpIs(p.counter);
    Insert1At(row, i + 1, e, i);
    Insert1At(row, i + 1, e, i + 1);
    NextInserted(row, i, e);
    NextShifted(row, i + 1, e, i + 1);
    KidsHeads(p, row[i].key, e.ptr);
  }

  lemma NextInserted(row: Row, i: nat, e: Entry)
    requires i < |row|
    ensures Next(Insert1(row, i + 1, e), i) == e.ptr
  {
  }

  lemma KidsHeads(p: Page, low: Key, sibling: Ptr)
    requires |p.recs| >= 2
    ensures Kids(p, low) != [] && Kids(LeftHalf(p, sibling), low) != [] && Kids(LeftHalf(p, sibling), low)[0] == Kids(p, low)[0]
    ensures Kids(RightHalf(p), SplitKey(p)) != [] && Kids(RightHalf(p), SplitKey(p))[0].key == SplitKey(p)
  {
  }

  lemma SplitFlatten(pages: seq<Page>, row: Row, i: nat, e: Entry, left: Page, right: Page)
    requires i < |row| && Distinct(row) && e.ptr == Child(|pages|)
    requires forall j :: 0 <= j < |row| ==> row[j].ptr.Child? && row[j].ptr.page < |pages|
    requires KidsOf(pages, row[i]) == Kids(left, row[i].key) + Kids(right, e.key)
    ensures Flatten(pages[row[i].ptr.page := left] + [right], Insert1(row, i + 1, e)) == Flatten(pages, row)
  {
    var pages' := pages[row[i].ptr.page := left] + [right];
    var row' := Insert1(row, i + 1, e);
    forall j | 0 <= j < |row| && j != i ensures At(pages', row[j]) == At(pages, row[j]) {
      assert row[j].ptr != row[i].ptr;
    }
    FlattenAt(pages, row, i);
    FlattenFrame(pages, pages', row[..i]);
    FlattenFrame(pages, pages', row[i + 1..]);
    FlattenPair(pages', row[..i], row[i], e, row[i + 1..]);
    assert row' == row[..i] + [row[i], e] + row[i + 1..];
  }

  lemma FlattenPair(pages: seq<Page>, a: Row, x: Entry, y: Entry, b: Row)
    ensures Flatten(pages, a + [x, y] + b) == Flatten(pages, a) + (KidsOf(pages, x) + KidsOf(pages, y)) + Flatten(pages, b)
  {
    FlattenAppend(pages, a + [x, y], b);
    FlattenAppend(pages, a, [x, y]);
    assert [x, y] == [x] + [y];
    FlattenAppend(pages, [x], [y]);
    FlattenOne(pages, x);
    FlattenOne(pages, y);
  }

  lemma FlattenOne(pages: seq<Page>, e: Entry)
    ensures Flatten(pages, [e]) == KidsOf(pages, e)
  {
    assert [e][1..] == [];
  }

  // ----- the whole tree -----

  const COMPLETE: int := -1

  /** The row for level l is sound and its kids are the row below, but for the hole. */
  ghost predicate LevelOk(pages: seq<Page>, rows: seq<Row>, cap: nat, l: nat, hole: int, j: nat)
    requires l + 1 < |rows|
  {
    && RowOk(pages, rows[l + 1], l, cap, l + 2 == |rows|)
    && SortedFrom(rows[l], FirstKey(l))
    && Distinct(rows[l])
    && (l > 0 ==> forall e :: e in rows[l] ==> e.ptr != Null)
    && if l == hole then FirstKey(l) <= j < |rows[l]| && Flatten(pages, rows[l + 1]) == Without(rows[l], j)
       else Flatten(pages, rows[l + 1]) == rows[l]
  }

  ghost predicate TreeOk(pages: seq<Page>, rows: seq<Row>, cap: nat, root: nat, hole: int, j: nat)
  {
    && cap >= 3
    && |rows| >= 2
    && (forall l: nat :: l < |rows| - 1 ==> LevelOk(pages, rows, cap, l, hole, j))
    && rows[|rows| - 1] != [] && rows[|rows| - 1][0].ptr == Child(root)
  }

  /** Changing a page of level l, or adding pages, leaves the other levels alone. */
  lemma OtherLevel(pages: seq<Page>, pages': seq<Page>, rows: seq<Row>, rows': seq<Row>, cap: nat, l: nat, hole: int, j: nat, hole': int, j': nat, at: nat)
    requires l + 1 < |rows| == |rows'| && LevelOk(pages, rows, cap, l, hole, j)
    requires |pages| <= |pages'| && at < |pages| && pages[at].level != l
    requires forall i :: 0 <= i < |pages| && i != at ==> pages'[i] == pages[i]
    requires rows'[l] == rows[l] && rows'[l + 1] == rows[l + 1]
    requires l == hole' ==> l == hole && j == j'
    requires l == hole ==> l == hole'
    ensures LevelOk(pages', rows', cap, l, hole', j')
  {
    var row := rows[l + 1];
    forall i | 0 <= i < |row| ensures At(pages', row[i]) == At(pages, row[i]) {
      assert PageOk(pages, row, i, l, cap, l + 2 == |rows|);
    }
    RowFrame(pages, pages', row, l, cap, l + 2 == |rows|);
  }

  /** The page of level l that covers the hole. */
  ghost predicate Covers(rows: seq<Row>, l: nat, j: nat, i: nat)
  {
    && l + 1 < |rows|
    && j < |rows[l]|
    && rows[l + 1] != []
    && i == Locate(rows[l + 1], rows[l][j].key)
  }

  /** The page has room: the hole is filled and the tree is complete. */
  lemma StoreFits(pages: seq<Page>, rows: seq<Row>, cap: nat, root: nat, l: nat, j: nat, i: nat)
    requires Covers(rows, l, j, i) && TreeOk(pages, rows, cap, root, l, j)
    requires |At(pages, rows[l + 1][i]).recs| < cap
    ensures var e := rows[l + 1][i];
            && e.ptr.Child? && e.ptr.page < |pages|
            && TreeOk(pages[e.ptr.page := InsertKey(At(pages, e), rows[l][j].key, rows[l][j].ptr)], rows, cap, root, COMPLETE, 0)
  {
    hide Flatten, SortedFrom, Distinct;
    var top := l + 2 == |rows|;
    assert LevelOk(pages, rows, cap, l, l, j);
    InsertIntoRow(pages, rows[l + 1], l, cap, top, rows[l], j);
    var e := rows[l + 1][i];
    assert PageOk(pages, rows[l + 1], i, l, cap, top);
    var pages' := pages[e.ptr.page := InsertKey(At(pages, e), rows[l][j].key, rows[l][j].ptr)];
    forall h: nat | h < |rows| - 1 ensures LevelOk(pages', rows, cap, h, COMPLETE, 0) {
      assert LevelOk(pages, rows, cap, h, l, j);
      if h != l {
        OtherLevel(pages, pages', rows, rows, cap, h, l, j, COMPLETE, 0, e.ptr.page);
      }
    }
  }

  /** Splitting a full page and inserting into the proper half. */
  function SplitPages(pages: seq<Page>, at: nat, key: Key, ptr: Ptr): seq<Page>
    requires at < |pages| && pages[at].recs != []
  {
    var p := pages[at];
    var halves := pages[at := LeftHalf(p, Child(|pages|))] + [RightHalf(p)];
    var half := if key < SplitKey(p) then at else |pages|;
    halves[half := InsertKey(halves[half], key, ptr)]
  }

  lemma LocateSplit(row: Row, i: nat, e: Entry, k: Key)
    requires i < |row| && SortedFrom(row, 1) && i == Locate(row, k)
    requires SortedFrom(Insert1(row, i + 1, e), 1)
    ensures Locate(Insert1(row, i + 1, e), k) == if k < e.key then i else i + 1
  {
    var row' := Insert1(row, i + 1, e);
    assert row'[i] == row[i] && row'[i + 1] == e && (i + 2 < |row'| ==> row'[i + 2] == row[i + 1]);
    LocateUnique(row', k, if k < e.key then i else i + 1);
  }

  lemma SplitInsert(pages: seq<Page>, row: Row, l: nat, cap: nat, top: bool, below: Row, j: nat, i: nat)
    requires RowOk(pages, row, l, cap, top) && cap >= 3
    requires FirstKey(l) <= j < |below| && SortedFrom(below, FirstKey(l)) && Flatten(pages, row) == Without(below, j)
    requires l > 0 ==> forall e :: e in below ==> e.ptr != Null
    requires i == Locate(row, below[j].key)
    requires |At(pages, row[i]).recs| == cap
    ensures row[i].ptr.Child? && row[i].ptr.page < |pages|
    ensures var e := Entry(SplitKey(At(pages, row[i])), Child(|pages|));
            var pages' := SplitPages(pages, row[i].ptr.page, below[j].key, below[j].ptr);
            var row' := Insert1(row, i + 1, e);
            && RowOk(pages', row', l, cap, false)
            && Flatten(pages', row') == below
  {
    hide Flatten, Distinct, SortedFrom, CutsAt;
    var e := Entry(SplitKey(At(pages, row[i])), Child(|pages|));
    WithoutSorted(below, FirstKey(l), j);
    assert forall x :: x in Without(below, j) ==> x in below;
    SplitRow(pages, row, l, cap, top, i);
    LocateSplit(row, i, e, below[j].key);
    InsertHalf(pages, row, l, cap, below, j, i);
  }

  lemma InsertHalf(pages: seq<Page>, row: Row, l: nat, cap: nat, below: Row, j: nat, i: nat)
    requires i < |row| && row[i].ptr.Child? && row[i].ptr.page < |pages|
    requires j < |below| && cap >= 3 && |At(pages, row[i]).recs| == cap
    requires var p := At(pages, row[i]);
             var e := Entry(SplitKey(p), Child(|pages|));
             var row' := Insert1(row, i + 1, e);
             var halves := pages[row[i].ptr.page := LeftHalf(p, e.ptr)] + [RightHalf(p)];
             && RowOk(halves, row', l, cap, false)
             && FirstKey(l) <= j && SortedFrom(below, FirstKey(l)) && Flatten(halves, row') == Without(below, j)
             && Locate(row', below[j].key) == if below[j].key < e.key then i else i + 1
    ensures var e := Entry(SplitKey(At(pages, row[i])), Child(|pages|));
            var pages' := SplitPages(pages, row[i].ptr.page, below[j].key, below[j].ptr);
            var row' := Insert1(row, i + 1, e);
            && RowOk(pages', row', l, cap, false)
            && Flatten(pages', row') == below
  {
    var p := At(pages, row[i]);
    var e := Entry(SplitKey(p), Child(|pages|));
    var halves := pages[row[i].ptr.page := LeftHalf(p, e.ptr)] + [RightHalf(p)];
    var row' := Insert1(row, i + 1, e);
    assert row'[i] == row[i] && row'[i + 1] == e;
    InsertIntoRow(halves, row', l, cap, false, below, j);
  }

  /** A page that is not the root: the hole moves one level up. */
  lemma StoreSplits(pages: seq<Page>, rows: seq<Row>, cap: nat, root: nat, l: nat, j: nat, i: nat)
    requires Covers(rows, l, j, i) && l + 2 < |rows| && TreeOk(pages, rows, cap, root, l, j)
    requires |At(pages, rows[l + 1][i]).recs| == cap
    ensures var e := rows[l + 1][i];
            && e.ptr.Child? && e.ptr.page < |pages|
            && var up := Entry(SplitKey(At(pages, e)), Child(|pages|));
            && TreeOk(SplitPages(pages, e.ptr.page, rows[l][j].key, rows[l][j].ptr),
                      rows[l + 1 := Insert1(rows[l + 1], i + 1, up)], cap, root, l + 1, i + 1)
  {
    hide Flatten, Distinct, SortedFrom;
    assert LevelOk(pages, rows, cap, l, l, j);
    SplitInsert(pages, rows[l + 1], l, cap, false, rows[l], j, i);
    var e := rows[l + 1][i];
    assert PageOk(pages, rows[l + 1], i, l, cap, false);
    var up := Entry(SplitKey(At(pages, e)), Child(|pages|));
    SplitPagesFrame(pages, e.ptr.page, rows[l][j].key, rows[l][j].ptr);
    RaiseHole(pages, SplitPages(pages, e.ptr.page, rows[l][j].key, rows[l][j].ptr), rows, cap, root, l, j, i + 1, up, e.ptr.page);
  }

  lemma SplitPagesFrame(pages: seq<Page>, at: nat, key: Key, ptr: Ptr)
    requires at < |pages| && pages[at].recs != []
    ensures |SplitPages(pages, at, key, ptr)| == |pages| + 1
    ensures forall i :: 0 <= i < |pages| && i != at ==> SplitPages(pages, at, key, ptr)[i] == pages[i]
  {
  }

  lemma RaiseHole(pages: seq<Page>, pages': seq<Page>, rows: seq<Row>, cap: nat, root: nat, l: nat, j: nat, c: nat, up: Entry, at: nat)
    requires l + 2 < |rows| && TreeOk(pages, rows, cap, root, l, j)
    requires |pages| <= |pages'| && at < |pages| && pages[at].level == l
    requires forall i :: 0 <= i < |pages| && i != at ==> pages'[i] == pages[i]
    requires 1 <= c <= |rows[l + 1]| && up.ptr != Null
    requires RowOk(pages', Insert1(rows[l + 1], c, up), l, cap, false)
    requires Flatten(pages', Insert1(rows[l + 1], c, up)) == rows[l]
    ensures TreeOk(pages', rows[l + 1 := Insert1(rows[l + 1], c, up)], cap, root, l + 1, c)
  {
    hide RowOk, LevelOk, SortedFrom, Distinct, Insert1, Flatten;
    var row' := Insert1(rows[l + 1], c, up);
    var rows' := rows[l + 1 := row'];
    var hole := l + 1;
    assert LevelOk(pages, rows, cap, l, l, j);
    SplitLevel(pages, pages', rows, rows', cap, l, j, hole, c);
    forall h: nat | h < |rows'| - 1 ensures LevelOk(pages', rows', cap, h, hole, c) {
      assert LevelOk(pages, rows, cap, h, l, j);
      if h != l {
        RaiseLevel(pages, pages', rows, rows', cap, l, j, c, up, at, h);
      }
    }
  }

  lemma RaiseLevel(pages: seq<Page>, pages': seq<Page>, rows: seq<Row>, rows': seq<Row>, cap: nat, l: nat, j: nat, c: nat, up: Entry, at: nat, h: nat)
    requires l + 2 < |rows| && h + 1 < |rows| && h != l && LevelOk(pages, rows, cap, h, l, j)
    requires |pages| <= |pages'| && at < |pages| && pages[at].level == l
    requires forall i :: 0 <= i < |pages| && i != at ==> pages'[i] == pages[i]
    requires 1 <= c <= |rows[l + 1]| && rows' == rows[l + 1 := Insert1(rows[l + 1], c, up)] && up.ptr != Null
    requires SortedFrom(rows'[l + 1], 1) && Distinct(rows'[l + 1])
    ensures LevelOk(pages', rows', cap, h, l + 1, c)
  {
    hide RowOk, LevelOk, SortedFrom, Distinct, Insert1, Flatten;
    if h == l + 1 {
      UpperLevel(pages, pages', rows, rows', cap, h, c, up, at, l, j);
    } else {
      OtherLevel(pages, pages', rows, rows', cap, h, l, j, l + 1, c, at);
    }
  }

  lemma SplitLevel(pages: seq<Page>, pages': seq<Page>, rows: seq<Row>, rows': seq<Row>, cap: nat, l: nat, j: nat, hole: nat, c: nat)
    requires l + 2 < |rows| == |rows'| && rows'[l] == rows[l] && hole == l + 1
    requires LevelOk(pages, rows, cap, l, l, j)
    requires RowOk(pages', rows'[l + 1], l, cap, false) && Flatten(pages', rows'[l + 1]) == rows[l]
    ensures LevelOk(pages', rows', cap, l, hole, c)
    ensures SortedFrom(rows'[l + 1], 1) && Distinct(rows'[l + 1])
  {
  }

  lemma UpperLevel(pages: seq<Page>, pages': seq<Page>, rows: seq<Row>, rows': seq<Row>, cap: nat, h: nat, c: nat, up: Entry, at: nat, l: nat, j: nat)
    requires h + 1 < |rows| && LevelOk(pages, rows, cap, h, l, j) && h == l + 1
    requires |pages| <= |pages'| && at < |pages| && pages[at].level != h
    requires forall i :: 0 <= i < |pages| && i != at ==> pages'[i] == pages[i]
    requires 1 <= c <= |rows[h]| && rows' == rows[h := Insert1(rows[h], c, up)] && up.ptr != Null
    requires SortedFrom(rows'[h], 1) && Distinct(rows'[h])
    ensures LevelOk(pages', rows', cap, h, h, c)
  {
    var row := rows[h + 1];
    forall i | 0 <= i < |row| ensures At(pages', row[i]) == At(pages, row[i]) {
      assert PageOk(pages, row, i, h, cap, h + 2 == |rows|);
    }
    RowFrame(pages, pages', row, h, cap, h + 2 == |rows|);
    assert Without(rows'[h], c) == rows[h];
  }

  /** The old root has been split, and no page is above it and its sibling yet. */
  ghost predicate RootHalved(pages: seq<Page>, rows: seq<Row>, cap: nat, root: nat)
  {
    && cap >= 3 && |rows| >= 2
    && (forall h: nat :: h < |rows| - 2 ==> LevelOk(pages, rows, cap, h, COMPLETE, 0))
    && HalvedLevel(pages, rows[|rows| - 1], rows[|rows| - 2], |rows| - 2, cap)
    && rows[|rows| - 1][0].ptr == Child(root)
  }

  ghost predicate HalvedLevel(pages: seq<Page>, row: Row, below: Row, l: nat, cap: nat)
  {
    && |row| == 2 && RowOk(pages, row, l, cap, false) && row[1].ptr != Null
    && SortedFrom(below, FirstKey(l)) && Distinct(below) && (l > 0 ==> forall e :: e in below ==> e.ptr != Null)
    && Flatten(pages, row) == below
  }

  /** A full root that is split takes the missing entry. */
  lemma RootSplits(pages: seq<Page>, rows: seq<Row>, cap: nat, root: nat, l: nat, j: nat)
    requires l + 2 == |rows| && j < |rows[l]| && TreeOk(pages, rows, cap, root, l, j)
    requires root < |pages| && |pages[root].recs| == cap
    ensures rows[l + 1] != []
    ensures var up := Entry(SplitKey(pages[root]), Child(|pages|));
            RootHalved(SplitPages(pages, root, rows[l][j].key, rows[l][j].ptr), rows[l + 1 := [rows[l + 1][0], up]], cap, root)
  {
    hide Flatten, Distinct, SortedFrom;
    assert LevelOk(pages, rows, cap, l, l, j);
    SplitInsert(pages, rows[l + 1], l, cap, true, rows[l], j, 0);
    assert PageOk(pages, rows[l + 1], 0, l, cap, true);
    var low := rows[l + 1][0];
    var up := Entry(SplitKey(pages[root]), Child(|pages|));
    var pages' := SplitPages(pages, root, rows[l][j].key, rows[l][j].ptr);
    assert Insert1(rows[l + 1], 1, up) == [low, up];
    SplitPagesFrame(pages, root, rows[l][j].key, rows[l][j].ptr);
    var rows' := rows[l + 1 := [low, up]];
    forall h: nat | h < l ensures LevelOk(pages', rows', cap, h, COMPLETE, 0) {
      assert LevelOk(pages, rows, cap, h, l, j);
      OtherLevel(pages, pages', rows, rows', cap, h, l, j, COMPLETE, 0, root);
    }
  }

  /** A new root above the two completes the tree. */
  lemma GrowRoot(pages: seq<Page>, rows: seq<Row>, cap: nat, root: nat)
    requires RootHalved(pages, rows, cap, root)
    ensures var l, low, up := |rows| - 2, rows[|rows| - 1][0], rows[|rows| - 1][1];
            TreeOk(pages + [Page(l + 1, Child(root), Null, 0, [up])], rows + [[Entry(low.key, Child(|pages|))]],
                   cap, |pages|, COMPLETE, 0)
  {
    hide LevelOk, RowOk, Flatten, SortedFrom, Distinct;
    var l, low, up := |rows| - 2, rows[|rows| - 1][0], rows[|rows| - 1][1];
    var newRoot := Page(l + 1, Child(root), Null, 0, [up]);
    var pages', e := pages + [newRoot], Entry(low.key, Child(|pages|));
    var rows' := rows + [[e]];
    forall h: nat | h < |rows'| - 1 ensures LevelOk(pages', rows', cap, h, COMPLETE, 0) {
      if h < l {
        assert LevelOk(pages, rows, cap, h, COMPLETE, 0);
        LowerLevel(pages, newRoot, rows, rows', cap, h);
      } else if h == l {
        OldRootLevel(pages, newRoot, rows, rows', cap);
      } else {
        NewRootLevel(pages, newRoot, rows, rows', cap, root);
      }
    }
  }

  lemma OldRootLevel(pages: seq<Page>, newRoot: Page, rows: seq<Row>, rows': seq<Row>, cap: nat)
    requires |rows| >= 2 && HalvedLevel(pages, rows[|rows| - 1], rows[|rows| - 2], |rows| - 2, cap)
    requires |rows'| == |rows| + 1 && rows'[|rows| - 2] == rows[|rows| - 2] && rows'[|rows| - 1] == rows[|rows| - 1]
    ensures LevelOk(pages + [newRoot], rows', cap, |rows| - 2, COMPLETE, 0)
  {
    var row, l := rows[|rows| - 1], |rows| - 2;
    forall i | 0 <= i < |row| ensures At(pages + [newRoot], row[i]) == At(pages, row[i]) {
      assert PageOk(pages, row, i, l, cap, false);
    }
    RowFrame(pages, pages + [newRoot], row, l, cap, false);
  }

  lemma NewRootLevel(pages: seq<Page>, newRoot: Page, rows: seq<Row>, rows': seq<Row>, cap: nat, root: nat)
    requires |rows| >= 2 && cap >= 3 && HalvedLevel(pages, rows[|rows| - 1], rows[|rows| - 2], |rows| - 2, cap)
    requires rows[|rows| - 1][0].ptr == Child(root) && newRoot == Page(|rows| - 1, Child(root), Null, 0, [rows[|rows| - 1][1]])
    requires rows' == rows + [[Entry(rows[|rows| - 1][0].key, Child(|pages|))]]
    ensures LevelOk(pages + [newRoot], rows', cap, |rows| - 1, COMPLETE, 0)
  {
    var row, l := rows[|rows| - 1], |rows| - 2;
    var pages', e := pages + [newRoot], Entry(row[0].key, Child(|pages|));
    assert rows'[l + 1] == row && rows'[l + 2] == [e] && row == [row[0], row[1]];
    FlattenOne(pages', e);
    assert Flatten(pages', [e]) == row;
    assert PageOk(pages', [e], 0, l + 1, cap, true);
    RootPtrs(pages, row, l, cap);
  }

  lemma RootPtrs(pages: seq<Page>, row: Row, l: nat, cap: nat)
    requires RowOk(pages, row, l, cap, false)
    ensures SortedFrom(row, 1) && Distinct(row) && forall e :: e in row ==> e.ptr != Null
  {
    forall i | 0 <= i < |row| ensures row[i].ptr != Null { assert PageOk(pages, row, i, l, cap, false); }
  }

  lemma LowerLevel(pages: seq<Page>, newRoot: Page, rows: seq<Row>, rows': seq<Row>, cap: nat, h: nat)
    requires h + 2 < |rows| && |rows| + 1 == |rows'| && LevelOk(pages, rows, cap, h, COMPLETE, 0)
    requires rows'[h] == rows[h] && rows'[h + 1] == rows[h + 1]
    ensures LevelOk(pages + [newRoot], rows', cap, h, COMPLETE, 0)
  {
    var row := rows[h + 1];
    forall i | 0 <= i < |row| ensures At(pages + [newRoot], row[i]) == At(pages, row[i]) {
      assert PageOk(pages, row, i, h, cap, false);
    }
    RowFrame(pages, pages + [newRoot], row, h, cap, false);
  }
}
