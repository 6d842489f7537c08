/**
The operations of obj/btree.cc on the arena, proved against the row of records: insert is sorted
insertion, search is lookup, and a range scan is a filter.
*/
module BTree {
  import opened Descent
  import opened PageData
  import opened Rows

  /** The pointer stored with a key, or Null. */
  function Lookup(records: Row, key: Key): Ptr
  {
    if records == [] then Null
    else if records[0].key == key then records[0].ptr
    else Lookup(records[1..], key)
  }

  /** The pointers of the keys strictly between lo and hi, in order. */
  function Between(records: Row, lo: Key, hi: Key): seq<Ptr>
  {
    if records == [] then []
    else (if lo < records[0].key < hi then [records[0].ptr] else []) + Between(records[1..], lo, hi)
  }

  /** The pointer to the i-th page of a row, NULL behind the last. */
  ghost function PtrAt(row: Row, i: nat): Ptr
  {
    if i < |row| then row[i].ptr else Null
  }

  lemma PtrAtIs(row: Row, i: nat)
    ensures i < |row| ==> PtrAt(row, i) == row[i].ptr
    ensures PtrAt(row, i) != Null ==> i < |row|
  {
  }

  /** Some key is past the end of the range. */
  ghost predicate Beyond(recs: Row, lo: Key, hi: Key)
  {
    exists e :: e in recs && lo < e.key && hi <= e.key
  }

  class BTree {
    const cap: nat  // cardinality - 1, the most entries a page takes
    var pages: seq<Page>
    var root: nat
    var height: nat
    ghost var rows: seq<Row>

    ghost predicate Shape(hole: int, j: nat)
      reads this
    {
      && TreeOk(pages, rows, cap, root, hole, j)
      && |rows| == height + 1
      && (forall e :: e in rows[0] ==> e.ptr.Value?)
    }

    ghost predicate Valid()
      reads this
    {
      Shape(COMPLETE, 0)
    }

    /** The root has been split and has no page above it yet. */
    ghost predicate HalvedRoot()
      reads this
    {
      RootHalved(pages, rows, cap, root) && |rows| == height + 1 && forall e :: e in rows[0] ==> e.ptr.Value?
    }

    /** New pages may wait for their parents, on any level, or the root for a new root. */
    ghost predicate CanSearch()
      reads this
    {
      Searchable(pages, rows, cap, root) && |rows| == height + 1 && Distinct(rows[0]) && forall e :: e in rows[0] ==> e.ptr.Value?
    }

    /** A split that its parent has not been told of, on any level, leaves the tree fit for searches ... */
    lemma WaitingCanSearch(hole: int, j: nat)
      requires Shape(hole, j) && hole != 0
      ensures CanSearch()
    {
      HoleSearchable(pages, rows, cap, root, hole, j);
      assert LevelOk(pages, rows, cap, 0, hole, j);
    }

    /** ... and so does a split root before the new one. */
    lemma HalvedCanSearch()
      requires HalvedRoot()
      ensures CanSearch()
    {
      HalvedSearchable(pages, rows, cap, root);
      if |rows| > 2 { assert LevelOk(pages, rows, cap, 0, COMPLETE, 0); }
    }

    /** Every record, in key order. */
    ghost function Records(): Row
      requires rows != []
      reads this
    {
      rows[0]
    }

    constructor (cardinality: nat)
      requires cardinality >= 4
      ensures Valid() && Records() == [] && cap == cardinality - 1
    {
      cap := cardinality - 1;
      pages := [Page(0, Null, Null, 0, [])];
      root := 0;
      height := 1;
      rows := [[], [Entry(0, Child(0))]];
      new;
      FlattenOne(pages, Entry(0, Child(0)));
      assert PageOk(pages, rows[1], 0, 0, cap, true);
      assert LevelOk(pages, rows, cap, 0, COMPLETE, 0);
    }

    /** One step down is a step to the page that covers the key. */
    lemma Down(l: nat, key: Key, hole: int, j: nat)
      requires Shape(hole, j) && 0 < l < height && hole < l
      ensures rows[l] != [] && rows[l + 1] != []
      ensures var e := rows[l + 1][Locate(rows[l + 1], key)];
              && e.ptr.Child? && e.ptr.page < |pages| && pages[e.ptr.page].level == l
              && LinearSearch(pages, e.ptr.page, key) == rows[l][Locate(rows[l], key)].ptr
      ensures var below := rows[l][Locate(rows[l], key)];
              below.ptr.Child? && below.ptr.page < |pages| && pages[below.ptr.page].level == l - 1
              && (pages[below.ptr.page].leftmost == Null <==> l == 1)
    {
      assert LevelOk(pages, rows, cap, l, hole, j);
      assert LevelOk(pages, rows, cap, l - 1, hole, j);
      var row, i := rows[l + 1], Locate(rows[l + 1], key);
      assert PageOk(pages, row, i, l, cap, l + 2 == |rows|);
      Descend(pages, row, l, cap, l + 2 == |rows|, key);
      SiblingAhead(pages, row, l, cap, l + 2 == |rows|, key);
      assert PageOk(pages, rows[l], Locate(rows[l], key), l - 1, cap, false);
    }

    /** A leaf left of the covering one sends the search to its sibling. */
    lemma LeafLeft(key: Key, i: nat)
      requires CanSearch() && rows[1] != [] && i < Locate(rows[1], key)
      ensures rows[1][i].ptr.Child? && rows[1][i].ptr.page < |pages|
      ensures var at := rows[1][i].ptr.page;
              pages[at].sibling.Child? && LinearSearch(pages, at, key) == pages[at].sibling == rows[1][i + 1].ptr
    {
      assert Leads(pages, rows[1], rows[0], 0, cap);
      var row, top := rows[1], |rows[1]| == 1;
      assert PageOk(pages, row, i, 0, cap, top) && PageOk(pages, row, i + 1, 0, cap, top);
      FirstRecord(pages, row, 0, cap, top, i + 1);
      LeafBelow(pages, row, cap, top, i);
      assert i + 1 < Locate(row, key) ==> row[i + 1].key < row[Locate(row, key)].key;
      SearchMisses(pages[row[i].ptr.page].recs, key, 0);
    }

    /** The covering leaf answers. */
    lemma LeafCovers(key: Key)
      requires CanSearch() && rows[1] != []
      ensures var e := rows[1][Locate(rows[1], key)];
              && e.ptr.Child? && e.ptr.page < |pages|
              && LinearSearch(pages, e.ptr.page, key) == Lookup(rows[0], key)
              && (LinearSearch(pages, e.ptr.page, key) == pages[e.ptr.page].sibling ==> LinearSearch(pages, e.ptr.page, key) == Null)
    {
      assert Leads(pages, rows[1], rows[0], 0, cap);
      var row, top, i := rows[1], |rows[1]| == 1, Locate(rows[1], key);
      assert PageOk(pages, row, i, 0, cap, top);
      SiblingAhead(pages, row, 0, cap, top, key);
      var a, b := Around(pages, row, 0, cap, top, key);
      LeafVisible(a, At(pages, row[i]).recs, b);
      LookupInLeaf(a, At(pages, row[i]).recs, b, key);
      assert i + 1 < |row| ==> PageOk(pages, row, i + 1, 0, cap, top);
    }

    /** The page at position i of a row. */
    lemma PageOfRow(l: nat, i: nat)
      requires CanSearch() && l < height && i < |rows[l + 1]|
      ensures rows[l + 1][i].ptr.Child? && rows[l + 1][i].ptr.page < |pages|
      ensures pages[rows[l + 1][i].ptr.page].leftmost == Null <==> l == 0
    {
      hide Leads;
      assert Leads(pages, rows[l + 1], rows[l], l, cap);
      PageAt(pages, rows[l + 1], rows[l], l, cap, i);
    }

    /** One turn of the loop of btree_search. */
    lemma SearchTurn(key: Key, l: nat, i: nat) returns (aside: bool, j: nat)
      requires CanSearch() && 0 < l < height && rows[l + 1] != [] && i <= Locate(rows[l + 1], key)
      ensures rows[l + 1][i].ptr.Child? && rows[l + 1][i].ptr.page < |pages|
      ensures aside ==> i < Locate(rows[l + 1], key) && LinearSearch(pages, rows[l + 1][i].ptr.page, key) == rows[l + 1][i + 1].ptr
      ensures !aside ==> j < |rows[l]| && j <= Locate(rows[l], key) && LinearSearch(pages, rows[l + 1][i].ptr.page, key) == rows[l][j].ptr
    {
      hide Leads;
      assert Leads(pages, rows[l + 1], rows[l], l, cap);
      aside, j := Turn(pages, rows[l + 1], rows[l], l, cap, key, i);
    }

    /** btree_search, at any moment: in a complete tree, or while splits have not reached all their parents. */
    method Search(key: Key) returns (r: Ptr)
      requires CanSearch()
      ensures r == Lookup(rows[0], key)
    {
      hide *;
      var p: nat := root;
      TopRow();
      ghost var l: nat, i: nat := height - 1, 0;
      PageOfRow(l, i);
      while pages[p].leftmost != Null
        invariant l < height && rows[l + 1] != [] && i <= Locate(rows[l + 1], key) && rows[l + 1][i].ptr == Child(p) && p < |pages|
        invariant pages[p].leftmost == Null <==> l == 0
        decreases l, |rows[l + 1]| - i
      {
        ghost var aside, j := SearchTurn(key, l, i);
        if aside {
          i := i + 1;
        } else {
          l, i := l - 1, j;
        }
        PageOfRow(l, i);
        p := LinearSearch(pages, p, key).page;
      }
      r := SearchLeaves(p, key, i);
    }

    lemma TopRow()
      requires CanSearch()
      ensures height >= 1 && |rows| == height + 1 && rows[height] != [] && rows[height][0].ptr == Child(root)
    {
    }

    /** The loop at the end of btree_search: leaves are followed to the right. */
    method SearchLeaves(start: nat, key: Key, ghost from: nat) returns (t: Ptr)
      requires CanSearch() && rows[1] != []
      requires from <= Locate(rows[1], key) && rows[1][from].ptr == Child(start)
      ensures t == Lookup(rows[0], key)
    {
      hide *;
      TopRow();
      ghost var i: nat := from;
      var p: nat := start;
      LeafCovers(key);
      if i < Locate(rows[1], key) { LeafLeft(key, i); }
      t := LinearSearch(pages, p, key);
      while t == pages[p].sibling
        invariant i <= Locate(rows[1], key) && p < |pages| && rows[1][i].ptr == Child(p)
        invariant t == LinearSearch(pages, p, key)
        decreases |rows[1]| - i
      {
        if t == Null {
          if i < Locate(rows[1], key) { LeafLeft(key, i); }
          return;
        }
        LeafLeft(key, i);
        p := t.page;
        i := i + 1;
        if i < Locate(rows[1], key) { LeafLeft(key, i); }
        t := LinearSearch(pages, p, key);
      }
      if i < Locate(rows[1], key) { LeafLeft(key, i); }
    }

    /** btree_insert */
    method Insert(key: Key, right: Ptr)
      requires Valid() && right.Value?
      requires forall e :: e in Records() ==> e.key != key && e.ptr != right
      modifies this
      ensures Valid() && Records() == Inserted(old(Records()), key, right)
    {
      var p: nat := root;
      ghost var l: nat := height - 1;
      assert LevelOk(pages, rows, cap, l, COMPLETE, 0);
      assert PageOk(pages, rows[height], 0, l, cap, true);
      hide RowOk, LevelOk, Flatten, SortedFrom, Distinct;
      while pages[p].leftmost != Null
        invariant l < height && p < |pages| && pages[p].level == l
        invariant pages[p].leftmost == Null <==> l == 0
        invariant rows[l + 1] != [] && rows[l + 1][Locate(rows[l + 1], key)].ptr == Child(p)
        modifies {}
        decreases l
      {
        Down(l, key, COMPLETE, 0);
        p := LinearSearch(pages, p, key).page;
        l := l - 1;
      }
      ghost var j := InsertPos(rows[0], key);
      OpenHole(pages, rows, cap, root, key, right);
      rows := rows[0 := Inserted(rows[0], key, right)];
      Store(p, key, right, 0, j, Locate(rows[1], key));
    }

    /** page::store at level l; the entry (key, right) is the hole at position j of row l. */
    method Store(p: nat, key: Key, right: Ptr, ghost l: nat, ghost j: nat, ghost i: nat)
      requires l < height && Shape(l, j) && j < |rows[l]| && rows[l][j] == Entry(key, right)
      requires rows[l + 1] != [] && i <= Locate(rows[l + 1], key) && rows[l + 1][i].ptr == Child(p)
      requires l > 0 ==> i == Locate(rows[l + 1], key)
      modifies this
      ensures Valid() && Records() == old(rows[0])
      decreases height - l, 0, 1 + |rows[l + 1]| - i
    {
      hide RowOk, Flatten, SortedFrom, Distinct, Inserted;
      StoreStep(l, j, i);
      var s := pages[p].sibling;
      if s != Null && key > pages[s.page].recs[0].key {
        Store(s.page, key, right, l, j, i + 1);
        return;
      }
      if |pages[p].recs| < cap {
        StoreFits(pages, rows, cap, root, l, j, i);
        pages := pages[p := InsertKey(pages[p], key, right)];
        return;
      }
      StoreFull(p, key, right, l, j, i);
    }

    /** The overflow branch of page::store: split, then tell the parent or grow a new root. */
    method StoreFull(p: nat, key: Key, right: Ptr, ghost l: nat, ghost j: nat, ghost i: nat)
      requires l < height && Shape(l, j) && j < |rows[l]| && rows[l][j] == Entry(key, right)
      requires rows[l + 1] != [] && i == Locate(rows[l + 1], key) && rows[l + 1][i].ptr == Child(p)
      requires p < |pages| && |pages[p].recs| == cap && pages[p].level == l
      requires p == root <==> l + 1 == height
      modifies this
      ensures Valid() && Records() == old(rows[0])
      decreases height - l, 0, 0
    {
      var sibling := |pages|;
      var splitKey := SplitKey(pages[p]);
      var level := pages[p].level;
      var isRoot := root == p;
      if isRoot {
        RootSplits(pages, rows, cap, root, l, j);
      } else {
        StoreSplits(pages, rows, cap, root, l, j, i);
      }
      SplitPage(p, key, right);
      if isRoot {
        rows := rows[l + 1 := [rows[l + 1][0], Entry(splitKey, Child(sibling))]];
        NewRoot(p, splitKey, sibling);
      } else {
        rows := rows[l + 1 := Insert1(rows[l + 1], i + 1, Entry(splitKey, Child(sibling)))];
        InsertInternal(splitKey, sibling, level + 1, i + 1);
      }
    }

    /** The body of page::store for a full page, up to the update of the parent. */
    method SplitPage(p: nat, key: Key, right: Ptr)
      requires p < |pages| && pages[p].recs != []
      modifies this`pages
      ensures pages == SplitPages(old(pages), p, key, right)
    {
      var sibling := |pages|;
      var splitKey := SplitKey(pages[p]);
      pages := pages + [RightHalf(pages[p])];
      pages := pages[p := LeftHalf(pages[p], Child(sibling))];
      if key < splitKey {
        pages := pages[p := InsertKey(pages[p], key, right)];
      } else {
        pages := pages[sibling := InsertKey(pages[sibling], key, right)];
      }
    }

    /** getNewPage with two children, and setNewRoot: the tree is complete, with the records it had. */
    method NewRoot(p: nat, splitKey: Key, sibling: nat)
      requires HalvedRoot() && p == root && rows[height][1] == Entry(splitKey, Child(sibling))
      modifies this
      ensures Valid() && Records() == old(rows[0])
    {
      GrowRoot(pages, rows, cap, root);
      assert |rows| == height + 1;
      OldRootPage();
      hide TreeOk, RootHalved;
      pages := pages + [Page(pages[p].level + 1, Child(p), Null, 0, [Entry(splitKey, Child(sibling))])];
      root := |pages| - 1;
      height := height + 1;
      rows := rows + [[Entry(rows[height - 1][0].key, Child(root))]];
    }

    lemma OldRootPage()
      requires HalvedRoot()
      ensures height >= 1 && |rows[height]| == 2 && root < |pages| && pages[root].level == height - 1
    {
      assert PageOk(pages, rows[height], 0, height - 1, cap, false);
    }

    /** What a writer finds at the page it was sent to. */
    lemma StoreStep(l: nat, j: nat, i: nat)
      requires l < height && Shape(l, j) && j < |rows[l]|
      requires rows[l + 1] != [] && i <= Locate(rows[l + 1], rows[l][j].key)
      requires l > 0 ==> i == Locate(rows[l + 1], rows[l][j].key)
      ensures rows[l + 1][i].ptr.Child? && rows[l + 1][i].ptr.page < |pages|
      ensures var p := rows[l + 1][i].ptr.page;
              var s := pages[p].sibling;
              && pages[p].level == l && |pages[p].recs| <= cap
              && s == Next(rows[l + 1], i)
              && (s != Null ==> s.Child? && s.page < |pages| && pages[s.page].recs != [])
              && (p == root <==> l + 1 == height)
              && (s != Null && rows[l][j].key > pages[s.page].recs[0].key <==> i < Locate(rows[l + 1], rows[l][j].key))
    {
      var row, top, k := rows[l + 1], l + 2 == |rows|, rows[l][j].key;
      assert LevelOk(pages, rows, cap, l, l, j);
      WithoutSorted(rows[l], FirstKey(l), j);
      assert PageOk(pages, row, i, l, cap, top);
      assert LevelOk(pages, rows, cap, height - 1, l, j);
      assert PageOk(pages, rows[height], 0, height - 1, cap, true);
      if i < Locate(row, k) {
        StoreLeft(row, cap, top, k, i);
      } else {
        SiblingAhead(pages, row, l, cap, top, k);
        if i + 1 < |row| {
          assert PageOk(pages, row, i + 1, l, cap, top);
        }
      }
    }

    /** A leaf left of the covering one hands the key to its sibling. */
    lemma StoreLeft(row: Row, cap: nat, top: bool, k: Key, i: nat)
      requires RowOk(pages, row, 0, cap, top) && SortedFrom(Flatten(pages, row), 0)
      requires forall t :: 0 <= t < |Flatten(pages, row)| ==> Flatten(pages, row)[t].key != k
      requires i < Locate(row, k)
      ensures row[i + 1].ptr.Child? && row[i + 1].ptr.page < |pages|
      ensures var recs := pages[row[i + 1].ptr.page].recs; recs != [] && k > recs[0].key
    {
      assert PageOk(pages, row, i + 1, 0, cap, top);
      FirstRecord(pages, row, 0, cap, top, i + 1);
      assert i + 1 < Locate(row, k) ==> row[i + 1].key < row[Locate(row, k)].key;
      var recs := pages[row[i + 1].ptr.page].recs;
      FlattenAt(pages, row, i + 1);
      assert Flatten(pages, row)[|Flatten(pages, row[..i + 1])|] == recs[0];
    }

    /** btree_insert_internal */
    method InsertInternal(key: Key, right: nat, level: nat, ghost j: nat)
      requires 0 < level < height && Shape(level, j) && j < |rows[level]| && rows[level][j] == Entry(key, Child(right))
      modifies this
      ensures Valid() && Records() == old(rows[0])
      decreases height - level, 1
    {
      var p: nat := root;
      ghost var l: nat := height - 1;
      assert LevelOk(pages, rows, cap, l, level, j);
      assert PageOk(pages, rows[height], 0, l, cap, true);
      hide RowOk, LevelOk, Flatten, SortedFrom, Distinct;
      while pages[p].level > level
        invariant level <= l < height && p < |pages| && pages[p].level == l
        invariant rows[l + 1] != [] && rows[l + 1][Locate(rows[l + 1], key)].ptr == Child(p)
        modifies {}
        decreases l
      {
        Down(l, key, level, j);
        p := LinearSearch(pages, p, key).page;
        l := l - 1;
      }
      Store(p, key, Child(right), level, j, Locate(rows[level + 1], key));
    }

    /** btree_search_range: descend to the leaf that covers lo, then scan leaves to the right. */
    method SearchRange(lo: Key, hi: Key) returns (buf: seq<Ptr>)
      requires Valid()
      ensures buf == Between(Records(), lo, hi)
    {
      var p: nat := root;
      ghost var l: nat := height - 1;
      assert LevelOk(pages, rows, cap, l, COMPLETE, 0);
      assert PageOk(pages, rows[height], 0, l, cap, true);
      hide RowOk, LevelOk, Flatten, SortedFrom, Distinct;
      while pages[p].leftmost != Null
        invariant l < height && p < |pages| && pages[p].level == l
        invariant pages[p].leftmost == Null <==> l == 0
        invariant rows[l + 1] != [] && rows[l + 1][Locate(rows[l + 1], lo)].ptr == Child(p)
        decreases l
      {
        Down(l, lo, COMPLETE, 0);
        p := LinearSearch(pages, p, lo).page;
        l := l - 1;
      }
      ghost var last;
      buf, last := ScanLeaves(p, lo, hi);
    }

    /**
    page::linear_search_range, left to right (every counter is even).  The last leaf it reads is the first one
    with a key beyond the range, or the last of all.
    */
    method ScanLeaves(start: nat, lo: Key, hi: Key) returns (buf: seq<Ptr>, ghost last: nat)
      requires Valid() && rows[1] != [] && rows[1][Locate(rows[1], lo)].ptr == Child(start)
      ensures buf == Between(Records(), lo, hi)
      ensures Locate(rows[1], lo) <= last < |rows[1]|
      ensures forall t :: Locate(rows[1], lo) <= t < last ==> !Beyond(KidsOf(pages, rows[1][t]), lo, hi)
      ensures last + 1 < |rows[1]| ==> Beyond(KidsOf(pages, rows[1][last]), lo, hi)
    {
      hide *;
      buf := [];
      var current := Child(start);
      NothingRead(lo, hi);
      ghost var row, from: nat := rows[1], Locate(rows[1], lo);
      ghost var i: nat := from;
      last := i;
      while current != Null
        invariant from <= i <= |row| && (i == |row| ==> i > from) && current == PtrAt(row, i)
        invariant last == (if i > from then i - 1 else i)
        invariant buf == ReadSoFar(i, lo, hi)
        invariant forall t :: from <= t < i ==> !Beyond(KidsOf(pages, row[t]), lo, hi)
        decreases |row| - i
      {
        PtrAtIs(row, i);
        last := i;
        LeafAt(i);
        var p: nat := current.page;
        var stopped;
        ghost var before := buf;
        buf, stopped := ScanLeaf(p, lo, hi, buf);
        if stopped {
          StopsHere(i, lo, hi);
          return;
        }
        GoesOn(i, lo, hi);
        current := pages[p].sibling;
        i := i + 1;
      }
      EndOfScan(i, lo, hi);
    }

    /** What a scan that starts at the first leaf would have written before leaf i. */
    ghost function ReadSoFar(i: nat, lo: Key, hi: Key): seq<Ptr>
      requires |rows| > 1 && i <= |rows[1]|
      reads this
    {
      Between(Flatten(pages, rows[1][..i]), lo, hi)
    }

    lemma NothingRead(lo: Key, hi: Key)
      requires Valid() && rows[1] != []
      ensures |rows| > 1 && ReadSoFar(Locate(rows[1], lo), lo, hi) == [] && Locate(rows[1], lo) < |rows[1]|
      ensures PtrAt(rows[1], Locate(rows[1], lo)) == rows[1][Locate(rows[1], lo)].ptr
    {
      StartOfScan(lo, hi);
    }

    lemma StopsHere(i: nat, lo: Key, hi: Key)
      requires Valid() && i < |rows[1]| && Beyond(KidsOf(pages, rows[1][i]), lo, hi)
      ensures ReadSoFar(i, lo, hi) + Between(KidsOf(pages, rows[1][i]), lo, hi) == Between(Records(), lo, hi)
    {
      LeafAt(i);
      var before, recs, after := Flatten(pages, rows[1][..i]), KidsOf(pages, rows[1][i]), Flatten(pages, rows[1][i + 1..]);
      BetweenAppend(before, recs, lo, hi);
      hide Valid;
      BetweenBeyond(before + recs, after, lo, hi);
    }

    lemma GoesOn(i: nat, lo: Key, hi: Key)
      requires Valid() && i < |rows[1]|
      ensures ReadSoFar(i, lo, hi) + Between(KidsOf(pages, rows[1][i]), lo, hi) == ReadSoFar(i + 1, lo, hi)
      ensures rows[1][i].ptr.Child? && rows[1][i].ptr.page < |pages|
      ensures pages[rows[1][i].ptr.page].sibling == PtrAt(rows[1], i + 1)
    {
      LeafAt(i);
      BetweenAppend(Flatten(pages, rows[1][..i]), KidsOf(pages, rows[1][i]), lo, hi);
      hide Valid;
    }

    lemma EndOfScan(i: nat, lo: Key, hi: Key)
      requires Valid() && i <= |rows[1]| && PtrAt(rows[1], i) == Null
      ensures i == |rows[1]| && ReadSoFar(i, lo, hi) == Between(Records(), lo, hi)
    {
      if i < |rows[1]| { LeafAt(i); }
      assert rows[1][..|rows[1]|] == rows[1];
      assert LevelOk(pages, rows, cap, 0, COMPLETE, 0);
    }

    /** One leaf of the scan; stops at the first key that is neither below hi nor at or below lo. */
    method ScanLeaf(p: nat, lo: Key, hi: Key, before: seq<Ptr>) returns (buf: seq<Ptr>, stopped: bool)
      requires p < |pages| && SortedFrom(pages[p].recs, 0)
      requires forall i :: 0 <= i < |pages[p].recs| ==> Visible(Null, pages[p].recs, i)
      ensures buf == before + Between(pages[p].recs, lo, hi)
      ensures stopped <==> Beyond(pages[p].recs, lo, hi)
    {
      buf := before;
      stopped := false;
      var recs := pages[p].recs;
      var i := 0;
      assert recs[..0] == [];
      while i < |recs|
        invariant 0 <= i <= |recs|
        invariant buf == before + Between(recs[..i], lo, hi)
        invariant forall t :: 0 <= t < i ==> !(lo < recs[t].key && hi <= recs[t].key)
      {
        BetweenStep(recs, i, lo, hi);
        if recs[i].key > lo {
          if recs[i].key < hi {
            if Visible(Null, recs, i) {
              buf := buf + [recs[i].ptr];
            }
          } else {
            BetweenStops(recs, i, lo, hi);
            stopped := true;
            assert Beyond(recs, lo, hi);
            return;
          }
        }
        i := i + 1;
      }
      assert recs[..i] == recs;
    }

    lemma LeafAt(i: nat)
      requires Valid() && i < |rows[1]|
      ensures rows[1][i].ptr.Child? && rows[1][i].ptr.page < |pages|
      ensures var p, row := pages[rows[1][i].ptr.page], rows[1];
              && p.sibling == Next(row, i) && KidsOf(pages, row[i]) == p.recs
              && SortedFrom(p.recs, 0)
              && (forall t :: 0 <= t < |p.recs| ==> Visible(Null, p.recs, t))
              && Flatten(pages, row[..i + 1]) == Flatten(pages, row[..i]) + p.recs
              && Records() == Flatten(pages, row[..i]) + p.recs + Flatten(pages, row[i + 1..])
              && var after := Flatten(pages, row[i + 1..]);
              forall e, t :: e in p.recs && 0 <= t < |after| ==> e.key < after[t].key
    {
      var row := rows[1];
      assert LevelOk(pages, rows, cap, 0, COMPLETE, 0);
      assert PageOk(pages, row, i, 0, cap, 2 == |rows|);
      var recs := KidsOf(pages, row[i]);
      FlattenAt(pages, row, i);
      var a, b := Flatten(pages, row[..i]), Flatten(pages, row[i + 1..]);
      LeafVisible(a, recs, b);
      assert row[..i + 1] == row[..i] + [row[i]];
      FlattenAppend(pages, row[..i], [row[i]]);
      FlattenOne(pages, row[i]);
      LeafOrder(a, recs, b);
    }

    /** What every reachable tree looks like to a reader who walks it by pointers. */
    lemma PageShape(l: nat, i: nat)
      requires Valid() && l < height && i < |rows[l + 1]|
      ensures rows[l + 1][i].ptr.Child? && rows[l + 1][i].ptr.page < |pages|
      ensures var p := pages[rows[l + 1][i].ptr.page];
              && p.level == l
              && p.counter % 2 == 0
              && p.sibling == Next(rows[l + 1], i)
              && |p.recs| <= cap
              && (l + 1 < height ==> |p.recs| >= MinFill(cap))
              && (l + 1 == height > 1 ==> |p.recs| >= 1)
              && (forall t :: 0 <= t < |p.recs| && i + 1 < |rows[l + 1]| ==> p.recs[t].key < rows[l + 1][i + 1].key)
              && (forall t :: 0 <= t < |p.recs| && i > 0 ==> rows[l + 1][i].key <= p.recs[t].key)
    {
      var row, top := rows[l + 1], l + 2 == |rows|;
      assert LevelOk(pages, rows, cap, l, COMPLETE, 0);
      assert PageOk(pages, row, i, l, cap, top);
      RecordRange(pages, row, l, cap, top, i);
    }

    /** The records under a page lie between its key in the row and that of its right neighbour. */
    lemma SubtreeRange(l: nat, i: nat, e: Entry)
      requires Valid() && l < height && i < |rows[l + 1]| && e in Under(pages, [rows[l + 1][i]], l)
      ensures e in Records()
      ensures i > 0 ==> rows[l + 1][i].key <= e.key
      ensures i + 1 < |rows[l + 1]| ==> e.key < rows[l + 1][i + 1].key
    {
      assert rows[l + 1][i..i + 1] == [rows[l + 1][i]];
      var u, v := Stretch(l, i, i + 1);
      hide Valid, Under;
    }

    /** What lies under a stretch of a row is a stretch of the records. */
    lemma {:induction false} Stretch(l: nat, x: nat, y: nat) returns (u: nat, v: nat)
      requires Valid() && l < height && x < y <= |rows[l + 1]|
      ensures u <= v <= |Records()| && Under(pages, rows[l + 1][x..y], l) == Records()[u..v]
      ensures x > 0 ==> forall t :: u <= t < v ==> rows[l + 1][x].key <= Records()[t].key
      ensures y < |rows[l + 1]| ==> forall t :: u <= t < v ==> Records()[t].key < rows[l + 1][y].key
    {
      hide RowOk, Distinct, Flatten;
      assert LevelOk(pages, rows, cap, l, COMPLETE, 0);
      u, v := StretchBelow(pages, rows[l + 1], l, cap, l + 2 == |rows|, x, y);
      if l > 0 {
        u, v := Stretch(l - 1, u, v);
      }
    }

    /** The separators of an internal page bound what lies under its pointers. */
    lemma Separates(l: nat, i: nat, t: nat, e: Entry)
      requires Valid() && 0 < l < height && i < |rows[l + 1]|
      requires var p := At(pages, rows[l + 1][i]); t < |p.recs| && e in Under(pages, [p.recs[t]], l - 1)
      ensures var p := At(pages, rows[l + 1][i]); p.recs[t].key <= e.key && (t + 1 < |p.recs| ==> e.key < p.recs[t + 1].key)
    {
      var row, kids := rows[l + 1], KidsOf(pages, rows[l + 1][i]);
      assert LevelOk(pages, rows, cap, l, COMPLETE, 0);
      assert PageOk(pages, row, i, l, cap, l + 2 == |rows|);
      FlattenAt(pages, row, i);
      var at := |Flatten(pages, row[..i])| + t + 1;
      assert rows[l][at] == kids[t + 1] == At(pages, row[i]).recs[t];
      assert t + 1 < |At(pages, row[i]).recs| ==> rows[l][at + 1] == kids[t + 2] == At(pages, row[i]).recs[t + 1];
      hide Valid, Flatten, RowOk;
      SubtreeRange(l - 1, at, e);
    }

    /** A tree of height h >= 2 holds at least 2 f (f+1)^(h-2) records, where f is the least fill of a page. */
    lemma HeightBound()
      requires Valid() && height >= 2
      ensures |Records()| >= 2 * MinFill(cap) * Raise(MinFill(cap) + 1, height - 2)
    {
      var f, n := MinFill(cap), Raise(MinFill(cap) + 1, height - 2);
      assert LevelOk(pages, rows, cap, 0, COMPLETE, 0);
      RowCount(pages, rows[1], 0, cap);
      assert |Records()| >= f * |rows[1]|;
      LevelCount(height - 1);
      assert height - (height - 1) == 1 && height - 1 - 1 == height - 2;
      hide *;
      Scaled(f, n, |rows[1]|, |Records()|);
    }

    /** The pages of the source hold at most five entries, and all but the root at least two. */
    lemma FivePerPage(l: nat, i: nat)
      requires Valid() && cap == 5 && l < height && i < |rows[l + 1]|
      ensures rows[l + 1][i].ptr.Child? && rows[l + 1][i].ptr.page < |pages|
      ensures |pages[rows[l + 1][i].ptr.page].recs| <= 5
      ensures l + 1 < height ==> |pages[rows[l + 1][i].ptr.page].recs| >= 2
      ensures height == 2 ==> |Records()| >= 4
      ensures height == 8 ==> |Records()| >= 2916
    {
      PageShape(l, i);
      if height >= 2 { HeightBound(); }
      hide Valid;
      RaiseThree();
    }

    /** Counting pages from the root down: k levels below the root's own row. */
    lemma {:induction false} LevelCount(k: nat)
      requires Valid() && 1 <= k < height
      ensures |rows[height - k]| >= 2 * Raise(MinFill(cap) + 1, k - 1)
    {
      var f, l := MinFill(cap), height - k;
      assert LevelOk(pages, rows, cap, l, COMPLETE, 0);
      if k == 1 {
        assert PageOk(pages, rows[l + 1], 0, l, cap, true);
        FlattenAt(pages, rows[l + 1], 0);
      } else {
        LevelCount(k - 1);
        RowCount(pages, rows[l + 1], l, cap);
        RaiseStep(f + 1, k - 2, |rows[l + 1]|, |rows[l]|);
      }
    }

    lemma StartOfScan(lo: Key, hi: Key)
      requires Valid() && rows[1] != []
      ensures Between(Flatten(pages, rows[1][..Locate(rows[1], lo)]), lo, hi) == []
    {
      assert LevelOk(pages, rows, cap, 0, COMPLETE, 0);
      var a, b := Around(pages, rows[1], 0, cap, 2 == |rows|, lo);
      BetweenNone(a, lo, hi);
    }
  }

  /** The records under the entries of a row of pages of level l. */
  function Under(pages: seq<Page>, row: Row, l: nat): Row
    decreases l
  {
    if l == 0 then Flatten(pages, row) else Under(pages, Flatten(pages, row), l - 1)
  }

  /** The kids of a stretch of a row are a stretch of the row below ... */
  lemma StretchCut(pages: seq<Page>, row: Row, x: nat, y: nat)
    requires x <= y <= |row|
    ensures |Flatten(pages, row[..x])| + |Flatten(pages, row[x..y])| == |Flatten(pages, row[..y])| <= |Flatten(pages, row)|
    ensures Flatten(pages, row) == Flatten(pages, row[..x]) + Flatten(pages, row[x..])
    ensures Flatten(pages, row[x..y]) == Flatten(pages, row)[|Flatten(pages, row[..x])|..|Flatten(pages, row[..y])|]
  {
    hide Flatten;
    assert row == row[..x] + row[x..] && row == row[..y] + row[y..] && row[..y] == row[..x] + row[x..y];
    FlattenAppend(pages, row[..x], row[x..]);
    FlattenAppend(pages, row[..y], row[y..]);
    FlattenAppend(pages, row[..x], row[x..y]);
  }

  /** ... which begins with the key of the page it came from. */
  lemma StretchHead(pages: seq<Page>, row: Row, l: nat, cap: nat, top: bool, x: nat)
    requires RowOk(pages, row, l, cap, top) && 0 < x < |row|
    ensures var u := |Flatten(pages, row[..x])|;
            (l > 0 ==> u > 0) && u < |Flatten(pages, row)| && Flatten(pages, row)[u].key == row[x].key
  {
    hide Distinct, SortedFrom;
    StretchCut(pages, row, x, x);
    assert PageOk(pages, row, x, l, cap, top);
    FlattenHead(pages, row[x..]);
    if l > 0 {
      assert PageOk(pages, row, 0, l, cap, top);
      FlattenHead(pages, row[..x]);
    }
  }

  lemma StretchBelow(pages: seq<Page>, row: Row, l: nat, cap: nat, top: bool, x: nat, y: nat) returns (u: nat, v: nat)
    requires RowOk(pages, row, l, cap, top) && x < y <= |row| && SortedFrom(Flatten(pages, row), FirstKey(l))
    ensures var below := Flatten(pages, row);
            && u <= v <= |below| && (l > 0 ==> u < v) && Flatten(pages, row[x..y]) == below[u..v]
            && (x > 0 ==> (l > 0 ==> u > 0) && u < |below| && below[u].key == row[x].key)
            && (y < |row| ==> v < |below| && below[v].key == row[y].key)
  {
    hide Distinct, SortedFrom, Flatten;
    u, v := |Flatten(pages, row[..x])|, |Flatten(pages, row[..y])|;
    StretchCut(pages, row, x, y);
    if x > 0 { StretchHead(pages, row, l, cap, top, x); }
    if y < |row| { StretchHead(pages, row, l, cap, top, y); }
    if l > 0 { KidsInStretch(pages, row, l, cap, top, x, y); }
  }

  lemma KidsInStretch(pages: seq<Page>, row: Row, l: nat, cap: nat, top: bool, x: nat, y: nat)
    requires RowOk(pages, row, l, cap, top) && x < y <= |row| && l > 0
    ensures Flatten(pages, row[x..y]) != []
  {
    hide Distinct, SortedFrom;
    assert PageOk(pages, row, x, l, cap, top);
    FlattenHead(pages, row[x..y]);
  }

  function Raise(b: nat, n: nat): nat
  {
    if n == 0 then 1 else b * Raise(b, n - 1)
  }

  lemma RaiseThree()
    ensures Raise(3, 0) == 1 && Raise(3, 1) == 3 && Raise(3, 6) == 729
  {
    assert Raise(3, 2) == 9;
    assert Raise(3, 4) == 81;
  }

  lemma RaiseStep(b: nat, n: nat, x: nat, y: nat)
    requires x >= 2 * Raise(b, n) && y >= b * x
    ensures y >= 2 * Raise(b, n + 1)
  {
    ProductMonotone(2 * Raise(b, n), x, b);
    assert b * (2 * Raise(b, n)) == 2 * (b * Raise(b, n));
  }

  lemma ProductMonotone(x: nat, y: nat, c: nat)
    requires x <= y
    ensures c * x <= c * y
  {
  }

  lemma Scaled(f: nat, n: nat, x: nat, y: nat)
    requires x >= 2 * n && y >= f * x
    ensures y >= 2 * f * n
  {
    ProductMonotone(2 * n, x, f);
    assert f * (2 * n) == 2 * f * n;
  }

  lemma RowCount(pages: seq<Page>, row: Row, l: nat, cap: nat)
    requires RowOk(pages, row, l, cap, false)
    ensures |Flatten(pages, row)| >= (FirstKey(l) + MinFill(cap)) * |row|
  {
    forall i | 0 <= i < |row| ensures |KidsOf(pages, row[i])| >= FirstKey(l) + MinFill(cap) {
      assert PageOk(pages, row, i, l, cap, false);
    }
    FlattenCount(pages, row, FirstKey(l) + MinFill(cap));
  }

  lemma {:induction false} FlattenCount(pages: seq<Page>, row: Row, n: nat)
    requires forall i :: 0 <= i < |row| ==> |KidsOf(pages, row[i])| >= n
    ensures |Flatten(pages, row)| >= n * |row|
  {
    if row != [] {
      FlattenCount(pages, row[1..], n);
      assert n * |row| == n + n * |row[1..]|;
    }
  }

  lemma LeafOrder(a: Row, recs: Row, b: Row)
    requires SortedFrom(a + recs + b, 0)
    ensures SortedFrom(recs, 0)
    ensures forall e, t :: e in recs && 0 <= t < |b| ==> e.key < b[t].key
  {
    var flat := a + recs + b;
    assert forall s :: 0 <= s < |recs| ==> recs[s] == flat[|a| + s];
    assert forall t :: 0 <= t < |b| ==> b[t] == flat[|a| + |recs| + t];
  }

  lemma {:induction false} BetweenAppend(a: Row, b: Row, lo: Key, hi: Key)
    ensures Between(a + b, lo, hi) == Between(a, lo, hi) + Between(b, lo, hi)
  {
    if a == [] {
      assert a + b == b;
    } else {
      assert (a + b)[1..] == a[1..] + b;
      BetweenAppend(a[1..], b, lo, hi);
    }
  }

  lemma {:induction false} BetweenNone(a: Row, lo: Key, hi: Key)
    requires forall t :: 0 <= t < |a| ==> !(lo < a[t].key < hi)
    ensures Between(a, lo, hi) == []
  {
    if a != [] {
      BetweenNone(a[1..], lo, hi);
    }
  }

  lemma BetweenStep(recs: Row, i: nat, lo: Key, hi: Key)
    requires i < |recs|
    ensures Between(recs[..i + 1], lo, hi) == Between(recs[..i], lo, hi) + if lo < recs[i].key < hi then [recs[i].ptr] else []
  {
    assert recs[..i + 1] == recs[..i] + [recs[i]];
    BetweenAppend(recs[..i], [recs[i]], lo, hi);
    assert Between([], lo, hi) == [];
    assert [recs[i]][1..] == [];
  }

  lemma BetweenStops(recs: Row, i: nat, lo: Key, hi: Key)
    requires i < |recs| && SortedFrom(recs, 0) && hi <= recs[i].key
    ensures Between(recs, lo, hi) == Between(recs[..i], lo, hi) && recs[i] in recs
  {
    assert recs == recs[..i] + recs[i..];
    BetweenBeyond(recs[..i], recs[i..], lo, hi);
  }

  lemma BetweenBeyond(a: Row, b: Row, lo: Key, hi: Key)
    requires forall t :: 0 <= t < |b| ==> hi <= b[t].key
    ensures Between(a + b, lo, hi) == Between(a, lo, hi)
  {
    BetweenAppend(a, b, lo, hi);
    BetweenNone(b, lo, hi);
  }

  /** A fresh record enters the row of records before any page holds it. */
  lemma OpenHole(pages: seq<Page>, rows: seq<Row>, cap: nat, root: nat, key: Key, right: Ptr)
    requires TreeOk(pages, rows, cap, root, COMPLETE, 0)
    requires forall e :: e in rows[0] ==> e.key != key && e.ptr != right
    ensures TreeOk(pages, rows[0 := Inserted(rows[0], key, right)], cap, root, 0, InsertPos(rows[0], key))
    ensures forall e :: e in Inserted(rows[0], key, right) ==> e in rows[0] || e == Entry(key, right)
    ensures Inserted(rows[0], key, right)[InsertPos(rows[0], key)] == Entry(key, right)
  {
    hide RowOk, LevelOk, Flatten, SortedFrom, Distinct, Inserted, InsertPos, Without;
    var j := InsertPos(rows[0], key);
    var rows' := rows[0 := Inserted(rows[0], key, right)];
    assert LevelOk(pages, rows, cap, 0, COMPLETE, 0);
    NewRecord(pages, rows, cap, key, right);
    forall h: nat | h < |rows'| - 1 ensures LevelOk(pages, rows', cap, h, 0, j) {
      assert LevelOk(pages, rows, cap, h, COMPLETE, 0);
      if h > 0 {
        LevelSame(pages, rows, rows', cap, h, j);
      }
    }
  }

  lemma NewRecord(pages: seq<Page>, rows: seq<Row>, cap: nat, key: Key, right: Ptr)
    requires 2 <= |rows| && LevelOk(pages, rows, cap, 0, COMPLETE, 0)
    requires forall e :: e in rows[0] ==> e.key != key && e.ptr != right
    ensures var row, j := Inserted(rows[0], key, right), InsertPos(rows[0], key);
            && (forall e :: e in row ==> e in rows[0] || e == Entry(key, right))
            && j < |row| && row[j] == Entry(key, right)
            && LevelOk(pages, rows[0 := row], cap, 0, 0, j)
  {
    FreshEntry(rows[0], key, right);
    InsertedMembers(rows[0], key, right);
    hide RowOk, Flatten, SortedFrom, Distinct, Inserted, InsertPos, Without;
    LevelZero(pages, rows, rows[0 := Inserted(rows[0], key, right)], cap, InsertPos(rows[0], key));
  }

  lemma LevelZero(pages: seq<Page>, rows: seq<Row>, rows': seq<Row>, cap: nat, j: nat)
    requires 2 <= |rows'| == |rows| && rows'[1] == rows[1] && LevelOk(pages, rows, cap, 0, COMPLETE, 0)
    requires j < |rows'[0]| && SortedFrom(rows'[0], 0) && Distinct(rows'[0]) && Without(rows'[0], j) == rows[0]
    ensures LevelOk(pages, rows', cap, 0, 0, j)
  {
  }

  lemma LevelSame(pages: seq<Page>, rows: seq<Row>, rows': seq<Row>, cap: nat, h: nat, j: nat)
    requires 0 < h < |rows| - 1 && |rows'| == |rows| && rows'[h] == rows[h] && rows'[h + 1] == rows[h + 1]
    requires LevelOk(pages, rows, cap, h, COMPLETE, 0)
    ensures LevelOk(pages, rows', cap, h, 0, j)
  {
    hide Distinct, SortedFrom;
  }

  lemma FreshEntry(row: Row, key: Key, ptr: Ptr)
    requires SortedFrom(row, 0) && Distinct(row)
    requires forall e :: e in row ==> e.key != key && e.ptr != ptr
    ensures var row', j := Inserted(row, key, ptr), InsertPos(row, key);
            && SortedFrom(row', 0) && Distinct(row')
            && j < |row'| && Without(row', j) == row && row'[j] == Entry(key, ptr)
  {
    var j := InsertPos(row, key);
    forall t | 0 <= t < |row| ensures row[t].key != key && row[t].ptr != ptr {
      assert row[t] in row;
    }
    InsertSorted(row, j, Entry(key, ptr), 0);
  }

  lemma {:induction false} SearchMisses(recs: seq<Entry>, key: Key, from: nat)
    requires from <= |recs| && forall i :: from <= i < |recs| ==> recs[i].key != key
    ensures SearchLeaf(recs, key, from) == Null
    decreases |recs| - from
  {
    if from < |recs| {
      SearchMisses(recs, key, from + 1);
    }
  }

  // ----- what the row of records means -----

  /** Insertion changes the answer for its own key only. */
  lemma LookupInserted(records: Row, key: Key, ptr: Ptr, k: Key)
    requires forall t :: 0 <= t < |records| ==> records[t].key != key
    ensures Lookup(Inserted(records, key, ptr), k) == if k == key then ptr else Lookup(records, k)
  {
    var p := InsertPos(records, key);
    LookupAround(records[..p], Entry(key, ptr), records[p..], k);
    assert records == records[..p] + records[p..];
  }

  lemma {:induction false} LookupAround(a: Row, e: Entry, b: Row, k: Key)
    requires forall t :: 0 <= t < |a| ==> a[t].key != e.key
    ensures Lookup(a + [e] + b, k) == if k == e.key then e.ptr else Lookup(a + b, k)
  {
    if a == [] {
      assert a + b == b && (a + [e] + b)[1..] == b;
    } else {
      assert (a + [e] + b)[1..] == a[1..] + [e] + b && (a + b)[1..] == a[1..] + b;
      LookupAround(a[1..], e, b, k);
    }
  }

  /** The records after a run of inserts, first one first. */
  function AfterRun(run: seq<Entry>): Row
  {
    if run == [] then [] else
      var last := run[|run| - 1];
      Inserted(AfterRun(run[..|run| - 1]), last.key, last.ptr)
  }

  ghost predicate FreshRun(run: seq<Entry>)
  {
    && (forall i :: 0 <= i < |run| ==> run[i].ptr.Value?)
    && (forall i, j :: 0 <= i < j < |run| ==> run[i].key != run[j].key && run[i].ptr != run[j].ptr)
  }

  lemma {:induction false} RunMembers(run: seq<Entry>, e: Entry)
    ensures e in AfterRun(run) <==> e in run
  {
    if run != [] {
      var n := |run| - 1;
      RunMembers(run[..n], e);
      InsertedMembers(AfterRun(run[..n]), run[n].key, run[n].ptr);
      assert run == run[..n] + [run[n]];
    }
  }

  lemma {:induction false} RunSorted(run: seq<Entry>)
    requires FreshRun(run)
    ensures SortedFrom(AfterRun(run), 0) && Distinct(AfterRun(run))
  {
    if run != [] {
      var n := |run| - 1;
      RunSorted(run[..n]);
      forall e | e in AfterRun(run[..n]) ensures e.key != run[n].key && e.ptr != run[n].ptr {
        RunMembers(run[..n], e);
      }
      FreshEntry(AfterRun(run[..n]), run[n].key, run[n].ptr);
    }
  }

  /** After any run of inserts of distinct keys, each key finds its own pointer ... */
  lemma {:induction false} RunFinds(run: seq<Entry>, i: nat)
    requires FreshRun(run) && i < |run|
    ensures Lookup(AfterRun(run), run[i].key) == run[i].ptr
  {
    var n := |run| - 1;
    var front := LastIsNew(run);
    LookupInserted(front, run[n].key, run[n].ptr, run[i].key);
    if i < n {
      RunFinds(run[..n], i);
    }
  }

  /** ... and no other key finds one. */
  lemma {:induction false} RunMisses(run: seq<Entry>, k: Key)
    requires FreshRun(run) && forall i :: 0 <= i < |run| ==> run[i].key != k
    ensures Lookup(AfterRun(run), k) == Null
  {
    if run != [] {
      var n := |run| - 1;
      var front := LastIsNew(run);
      LookupInserted(front, run[n].key, run[n].ptr, k);
      RunMisses(run[..n], k);
    }
  }

  lemma LastIsNew(run: seq<Entry>) returns (front: Row)
    requires run != [] && FreshRun(run)
    ensures front == AfterRun(run[..|run| - 1])
    ensures forall t :: 0 <= t < |front| ==> front[t].key != run[|run| - 1].key
  {
    var n := |run| - 1;
    front := AfterRun(run[..n]);
    forall t | 0 <= t < |front| ensures front[t].key != run[n].key {
      RunMembers(run[..n], front[t]);
    }
  }

  lemma InsertedMembers(row: Row, key: Key, ptr: Ptr)
    ensures forall e :: e in Inserted(row, key, ptr) <==> e in row || e == Entry(key, ptr)
  {
    var p := InsertPos(row, key);
    assert row == row[..p] + row[p..];
  }

  /** A pointer is reported by a range scan exactly when its key lies strictly inside the range. */
  lemma {:induction false} BetweenMembers(records: Row, lo: Key, hi: Key, ptr: Ptr)
    ensures ptr in Between(records, lo, hi) <==> exists e :: e in records && e.ptr == ptr && lo < e.key < hi
  {
    if records != [] {
      BetweenMembers(records[1..], lo, hi, ptr);
      assert records == [records[0]] + records[1..];
      assert records[0] in records;
    }
  }

  /** The reported pointers come in ascending key order, each once. */
  lemma {:induction false} BetweenAscends(records: Row, lo: Key, hi: Key, i: nat, j: nat) returns (x: nat, y: nat)
    requires i < j < |Between(records, lo, hi)|
    ensures x < y < |records| && Between(records, lo, hi)[i] == records[x].ptr && Between(records, lo, hi)[j] == records[y].ptr
  {
    var first := if lo < records[0].key < hi then 1 else 0;
    if i < first {
      x := 0;
      y := BetweenIndex(records[1..], lo, hi, j - first);
      y := y + 1;
    } else {
      x, y := BetweenAscends(records[1..], lo, hi, i - first, j - first);
      x, y := x + 1, y + 1;
    }
  }

  lemma {:induction false} BetweenIndex(records: Row, lo: Key, hi: Key, i: nat) returns (x: nat)
    requires i < |Between(records, lo, hi)|
    ensures x < |records| && Between(records, lo, hi)[i] == records[x].ptr && lo < records[x].key < hi
  {
    var first := if lo < records[0].key < hi then 1 else 0;
    if i < first {
      x := 0;
    } else {
      x := BetweenIndex(records[1..], lo, hi, i - first);
      x := x + 1;
    }
  }

  /** A run of inserts, from the constructor on. */
  method InsertRun(run: seq<Entry>, cardinality: nat) returns (t: BTree)
    requires FreshRun(run) && cardinality >= 4
    ensures fresh(t) && t.Valid() && t.Records() == AfterRun(run)
  {
    t := new BTree(cardinality);
    assert run[..0] == [];
    for n := 0 to |run|
      invariant fresh(t) && t.Valid() && t.Records() == AfterRun(run[..n])
    {
      NextOfRun(run, n);
      t.Insert(run[n].key, run[n].ptr);
    }
    assert run[..|run|] == run;
  }

  lemma NextOfRun(run: seq<Entry>, n: nat)
    requires FreshRun(run) && n < |run|
    ensures run[n].ptr.Value? && forall e :: e in AfterRun(run[..n]) ==> e.key != run[n].key && e.ptr != run[n].ptr
    ensures AfterRun(run[..n + 1]) == Inserted(AfterRun(run[..n]), run[n].key, run[n].ptr)
  {
    forall e | e in AfterRun(run[..n]) ensures e.key != run[n].key && e.ptr != run[n].ptr {
      RunMembers(run[..n], e);
    }
    assert run[..n + 1][..n] == run[..n];
  }

  /** After any run of inserts of distinct keys btree_search returns the pointer put in with the key, and NULL for any other key. */
  method FindAfterRun(run: seq<Entry>, cardinality: nat, key: Key) returns (r: Ptr)
    requires FreshRun(run) && cardinality >= 4
    ensures forall i :: 0 <= i < |run| && run[i].key == key ==> r == run[i].ptr
    ensures (forall i :: 0 <= i < |run| ==> run[i].key != key) ==> r == Null
  {
    var t := InsertRun(run, cardinality);
    t.WaitingCanSearch(COMPLETE, 0);
    r := t.Search(key);
    hide *;
    forall i: nat | i < |run| && run[i].key == key ensures r == run[i].ptr { RunFinds(run, i); }
    if forall i :: 0 <= i < |run| ==> run[i].key != key { RunMisses(run, key); }
  }

  /** Two pointers of the run, the first with the smaller key. */
  ghost predicate Ascend(run: seq<Entry>, p: Ptr, q: Ptr)
  {
    exists d, e :: d in run && e in run && d.ptr == p && e.ptr == q && d.key < e.key
  }

  /** And btree_search_range writes the pointers of the keys strictly between the bounds, each once, in ascending key order. */
  method ScanAfterRun(run: seq<Entry>, cardinality: nat, lo: Key, hi: Key) returns (buf: seq<Ptr>)
    requires FreshRun(run) && cardinality >= 4
    ensures buf == Between(AfterRun(run), lo, hi)
    ensures forall p :: p in buf <==> exists e :: e in run && e.ptr == p && lo < e.key < hi
    ensures forall i, j :: 0 <= i < j < |buf| ==> Ascend(run, buf[i], buf[j])
  {
    var t := InsertRun(run, cardinality);
    buf := t.SearchRange(lo, hi);
    hide *;
    forall p ensures p in buf <==> exists e :: e in run && e.ptr == p && lo < e.key < hi { ReportedOfRun(run, lo, hi, p); }
    forall i: nat, j: nat | i < j < |buf| ensures Ascend(run, buf[i], buf[j]) { AscendOfRun(run, lo, hi, i, j); }
  }

  lemma ReportedOfRun(run: seq<Entry>, lo: Key, hi: Key, p: Ptr)
    ensures p in Between(AfterRun(run), lo, hi) <==> exists e :: e in run && e.ptr == p && lo < e.key < hi
  {
    BetweenMembers(AfterRun(run), lo, hi, p);
    forall e ensures e in AfterRun(run) <==> e in run { RunMembers(run, e); }
    hide AfterRun, Between;
  }

  lemma AscendOfRun(run: seq<Entry>, lo: Key, hi: Key, i: nat, j: nat)
    requires FreshRun(run) && i < j < |Between(AfterRun(run), lo, hi)|
    ensures Ascend(run, Between(AfterRun(run), lo, hi)[i], Between(AfterRun(run), lo, hi)[j])
  {
    RunSorted(run);
    var row := AfterRun(run);
    var x, y := BetweenAscends(row, lo, hi, i, j);
    RunMembers(run, row[x]);
    RunMembers(run, row[y]);
    hide AfterRun, Between, FreshRun, Distinct;
  }

  lemma {:induction false} LookupSkips(a: Row, b: Row, key: Key)
    requires forall t :: 0 <= t < |a| ==> a[t].key != key
    ensures Lookup(a + b, key) == Lookup(b, key)
  {
    if a == [] {
      assert a + b == b;
    } else {
      assert (a + b)[1..] == a[1..] + b;
      LookupSkips(a[1..], b, key);
    }
  }

  /** In a sorted leaf of distinct pointers every slot is visible, so the scan is a lookup. */
  lemma {:induction false} SearchIsLookup(recs: seq<Entry>, key: Key, from: nat)
    requires from <= |recs| && forall i :: 0 <= i < |recs| ==> recs[i].ptr.Value? && Visible(Null, recs, i)
    ensures SearchLeaf(recs, key, from) == Lookup(recs[from..], key)
    ensures SearchLeaf(recs, key, from) == Null || SearchLeaf(recs, key, from).Value?
    decreases |recs| - from
  {
    if from < |recs| {
      assert recs[from..][1..] == recs[from + 1..];
      SearchIsLookup(recs, key, from + 1);
    }
  }

  /** The leaf that holds every record with the key answers for the whole row. */
  lemma LookupInLeaf(a: Row, recs: seq<Entry>, b: Row, key: Key)
    requires forall t :: 0 <= t < |recs| ==> recs[t].ptr.Value? && Visible(Null, recs, t)
    requires forall t :: 0 <= t < |a| ==> a[t].key != key
    requires forall t :: 0 <= t < |b| ==> b[t].key != key
    ensures SearchLeaf(recs, key, 0) == Lookup(a + recs + b, key)
    ensures SearchLeaf(recs, key, 0) == Null || SearchLeaf(recs, key, 0).Value?
  {
    SearchIsLookup(recs, key, 0);
    assert recs[0..] == recs;
    LookupStops(recs, b, key);
    LookupSkips(a, recs + b, key);
    assert a + recs + b == a + (recs + b);
  }

  lemma LeafVisible(a: Row, recs: seq<Entry>, b: Row)
    requires Distinct(a + recs + b)
    requires forall e :: e in a + recs + b ==> e.ptr.Value?
    ensures forall t :: 0 <= t < |recs| ==> recs[t].ptr.Value? && Visible(Null, recs, t)
  {
    var flat := a + recs + b;
    forall t | 0 <= t < |recs| ensures recs[t].ptr.Value? && Visible(Null, recs, t) {
      assert flat[|a| + t] == recs[t] && (t > 0 ==> flat[|a| + t - 1] == recs[t - 1]);
      assert recs[t] in flat;
    }
  }

  lemma {:induction false} LookupStops(a: Row, b: Row, key: Key)
    requires forall t :: 0 <= t < |b| ==> b[t].key != key
    ensures Lookup(a + b, key) == Lookup(a, key)
  {
    if a == [] {
      assert a + b == b && b + [] == b;
      LookupSkips(b, [], key);
    } else {
      assert (a + b)[1..] == a[1..] + b;
      LookupStops(a[1..], b, key);
    }
  }
}
