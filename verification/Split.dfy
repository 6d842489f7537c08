/**
A page split (the overflow branch of page::store in obj/btree.h), store by store: the sibling is filled,
linked, the old page is cut at slot m, and the new key goes into one of the two, all while searches
start at the old page and follow the link.  The parent does not know the sibling yet.
*/
module Split {
  import opened PageData
  import opened P = Page

  /** What a search that starts at the old page can reach: its slots, the link, the sibling's slots. */
  datatype Frame = Frame(left: Shot, leftmost: Ptr, linked: bool, right: Shot, rightmost: Ptr)

  // ----- the scans of linear_search on raw slots -----

  /** A leaf scan from slot i on, left to right. */
  function LeafScan(s: Shot, key: Key, i: nat): Ptr
    requires |s.keys| == |s.ptrs|
    decreases |s.ptrs| - i
  {
    if i >= |s.ptrs| || (i > 0 && s.ptrs[i] == Null) then Null
    else if s.keys[i] == key && s.ptrs[i] != LeftOf(s, Null, i) then s.ptrs[i]
    else LeafScan(s, key, i + 1)
  }

  /** The scan of an internal page from slot i on. */
  function InternalScan(s: Shot, leftmost: Ptr, key: Key, i: nat): Ptr
    requires |s.keys| == |s.ptrs|
    decreases |s.ptrs| - i
  {
    if i >= |s.ptrs| || (i > 0 && s.ptrs[i] == Null) then
      if i == 0 || i > |s.ptrs| || s.ptrs[i - 1] == Null then leftmost else s.ptrs[i - 1]
    else if key < s.keys[i] && LeftOf(s, leftmost, i) != s.ptrs[i] then LeftOf(s, leftmost, i)
    else InternalScan(s, leftmost, key, i + 1)
  }

  /** A leaf search from the old page: a miss follows the link if the key is not below the sibling's first. */
  function Find(f: Frame, key: Key): Ptr
    requires |f.left.keys| == |f.left.ptrs| && |f.right.keys| == |f.right.ptrs| > 0
  {
    var r := LeafScan(f.left, key, 0);
    if r != Null then r
    else if f.linked && key >= f.right.keys[0] then LeafScan(f.right, key, 0)
    else Null
  }

  /** An internal search from the old page: the link is tried first. */
  function Child(f: Frame, key: Key): Ptr
    requires |f.left.keys| == |f.left.ptrs| && |f.right.keys| == |f.right.ptrs| > 0
  {
    if f.linked && key >= f.right.keys[0] then InternalScan(f.right, f.rightmost, key, 0)
    else InternalScan(f.left, f.leftmost, key, 0)
  }

  // ----- the same scans on the list of entries -----

  function First(v: seq<Entry>, key: Key): Ptr
  {
    if v == [] then Null else if v[0].key == key then v[0].ptr else First(v[1..], key)
  }

  function Route(v: seq<Entry>, left: Ptr, key: Key): Ptr
  {
    if v == [] || key < v[0].key then left else Route(v[1..], v[0].ptr, key)
  }

  lemma ViewStep(s: Shot, i: nat)
    requires |s.keys| == |s.ptrs| && 0 < i < |s.ptrs| && s.ptrs[i] != Null
    ensures s.ptrs[i] == s.ptrs[i - 1] ==> ViewFrom(s, i) == ViewFrom(s, i + 1)
    ensures s.ptrs[i] != s.ptrs[i - 1] ==>
              ViewFrom(s, i) != [] && ViewFrom(s, i)[0] == Entry(s.keys[i], s.ptrs[i]) && ViewFrom(s, i)[1..] == ViewFrom(s, i + 1)
  {
  }

  lemma {:induction false} LeafScanFrom(s: Shot, key: Key, i: nat)
    requires |s.keys| == |s.ptrs| && i > 0
    ensures LeafScan(s, key, i) == First(ViewFrom(s, i), key)
    decreases |s.ptrs| - i
  {
    if i < |s.ptrs| && s.ptrs[i] != Null {
      LeafScanFrom(s, key, i + 1);
      ViewStep(s, i);
    }
  }

  /** A raw leaf scan answers from the visible entries. */
  lemma LeafScanIs(s: Shot, key: Key)
    requires |s.keys| == |s.ptrs| > 0
    ensures LeafScan(s, key, 0) == First(View(s, Null), key)
  {
    LeafScanFrom(s, key, 1);
    if s.ptrs[0] != Null {
      assert View(s, Null) == [Entry(s.keys[0], s.ptrs[0])] + ViewFrom(s, 1);
      assert View(s, Null)[1..] == ViewFrom(s, 1);
    } else {
      assert View(s, Null) == ViewFrom(s, 1);
    }
  }

  lemma {:induction false} InternalScanFrom(s: Shot, leftmost: Ptr, key: Key, i: nat)
    requires |s.keys| == |s.ptrs| && 0 < i <= |s.ptrs| && s.ptrs[i - 1] != Null
    ensures InternalScan(s, leftmost, key, i) == Route(ViewFrom(s, i), s.ptrs[i - 1], key)
    decreases |s.ptrs| - i
  {
    if i < |s.ptrs| && s.ptrs[i] != Null {
      InternalScanFrom(s, leftmost, key, i + 1);
      ViewStep(s, i);
    }
  }

  /** A raw internal scan routes by the visible entries. */
  lemma InternalScanIs(s: Shot, leftmost: Ptr, key: Key)
    requires |s.keys| == |s.ptrs| > 1 && leftmost != Null && s.ptrs[0] != Null
    ensures InternalScan(s, leftmost, key, 0) == Route(View(s, leftmost), leftmost, key)
  {
    InternalScanFrom(s, leftmost, key, 1);
    if s.ptrs[0] != leftmost {
      assert View(s, leftmost) == [Entry(s.keys[0], s.ptrs[0])] + ViewFrom(s, 1);
      assert View(s, leftmost)[1..] == ViewFrom(s, 1);
    } else {
      assert View(s, leftmost) == ViewFrom(s, 1);
    }
  }

  // ----- lists that are cut in two -----

  /** First distinguishes presence from absence. */
  lemma {:induction false} FirstIs(v: seq<Entry>, key: Key)
    requires SortedFrom(v, 0)
    ensures forall x :: 0 <= x < |v| && v[x].key == key ==> First(v, key) == v[x].ptr
    ensures (forall x :: 0 <= x < |v| ==> v[x].key != key) ==> First(v, key) == Null
  {
    if v != [] && v[0].key != key {
      FirstIs(v[1..], key);
      assert forall x :: 0 < x < |v| ==> v[x] == v[1..][x - 1];
    }
  }

  /** In sorted entries, Route ends at the last key that is not larger. */
  lemma {:induction false} RouteIs(v: seq<Entry>, left: Ptr, key: Key, x: nat)
    requires SortedFrom(v, 0) && x <= |v|
    requires (x > 0 ==> v[x - 1].key <= key) && (x < |v| ==> key < v[x].key)
    ensures Route(v, left, key) == if x == 0 then left else v[x - 1].ptr
    decreases |v|
  {
    if x > 0 {
      assert v[0].key <= v[x - 1].key;
      RouteIs(v[1..], v[0].ptr, key, x - 1);
    }
  }

  /** How many of the sorted keys are not larger. */
  function Rank(v: seq<Entry>, key: Key): (x: nat)
    ensures x <= |v| && (x > 0 ==> v[x - 1].key <= key) && (x < |v| ==> key < v[x].key)
  {
    if v == [] || v[|v| - 1].key <= key then |v|
    else var x := Rank(v[..|v| - 1], key); x
  }

  /** The entries a reader of the frame can see on the two pages, the new key apart. */
  ghost predicate Shows(f: Frame, l: seq<Entry>, r: seq<Entry>)
  {
    && |f.left.keys| == |f.left.ptrs| > 1 && View(f.left, f.leftmost) == l
    && |f.right.keys| == |f.right.ptrs| > 1 && (f.linked ==> View(f.right, f.rightmost) == r)
  }

  lemma SortedPart(v: seq<Entry>, a: nat, b: nat)
    requires SortedFrom(v, 0) && a <= b <= |v|
    ensures SortedFrom(v[a..b], 0)
  {
  }

  /** An insertion among sorted entries is an insertion into the part that surrounds it. */
  lemma InsertedPart(e: seq<Entry>, key: Key, ptr: Ptr, a: nat, b: nat)
    requires SortedFrom(e, 0) && a <= b <= |e| && (forall x :: 0 <= x < |e| ==> e[x].key != key)
    requires (a > 0 ==> e[a - 1].key < key) && (b < |e| ==> key < e[b].key)
    ensures Inserted(e, key, ptr) == e[..a] + Inserted(e[a..b], key, ptr) + e[b..]
  {
    hide *;
    PosPart(e, key, a, b);
    InsertedIs(e, key, ptr);
    InsertedIs(e[a..b], key, ptr);
    Spliced(e, Entry(key, ptr), a, b, InsertPos(e[a..b], key));
  }

  lemma InsertedIs(e: seq<Entry>, key: Key, ptr: Ptr)
    ensures Inserted(e, key, ptr) == e[..InsertPos(e, key)] + [Entry(key, ptr)] + e[InsertPos(e, key)..]
  {
  }

  lemma Spliced(e: seq<Entry>, n: Entry, a: nat, b: nat, q: nat)
    requires a <= b <= |e| && q <= b - a
    ensures e[..a + q] + [n] + e[a + q..] == e[..a] + (e[a..b][..q] + [n] + e[a..b][q..]) + e[b..]
  {
    assert e[..a + q] == e[..a] + e[a..b][..q];
    assert e[a + q..] == e[a..b][q..] + e[b..];
  }

  /** The insertion position does not depend on entries that are certainly on one side of it. */
  lemma {:induction false} PosPart(e: seq<Entry>, key: Key, a: nat, b: nat)
    requires SortedFrom(e, 0) && a <= b <= |e| && (forall x :: 0 <= x < |e| ==> e[x].key != key)
    requires (a > 0 ==> e[a - 1].key < key) && (b < |e| ==> key < e[b].key)
    ensures InsertPos(e[a..b], key) + a == InsertPos(e, key)
  {
    hide InsertPos, SortedFrom;
    var p, q := InsertPos(e, key), InsertPos(e[a..b], key);
    PartAt(e, a, b, q);
    PosUnique(e, key, p, a + q);
  }

  lemma PartAt(e: seq<Entry>, a: nat, b: nat, q: nat)
    requires a <= b <= |e| && q <= b - a
    ensures q > 0 ==> e[a..b][q - 1] == e[a + q - 1]
    ensures q < b - a ==> e[a..b][q] == e[a + q]
  {
  }

  /** Only one position has smaller keys on its left and larger ones on its right. */
  lemma PosUnique(e: seq<Entry>, key: Key, p: nat, q: nat)
    requires SortedFrom(e, 0) && p <= |e| && q <= |e|
    requires (p > 0 ==> e[p - 1].key <= key) && (p < |e| ==> key < e[p].key)
    requires (q > 0 ==> e[q - 1].key <= key) && (q < |e| ==> key < e[q].key)
    ensures p == q
  {
  }

  /** A leaf cut in two answers as the whole. */
  lemma CutFirst(e: seq<Entry>, m: nat, k: Key)
    requires SortedFrom(e, 0) && Proper(Null, e) && m < |e|
    ensures First(e, k) == if First(e[..m], k) != Null then First(e[..m], k) else if k >= e[m].key then First(e[m..], k) else Null
    ensures First(e, k) == Null ==> First(e[m..], k) == Null
  {
    SortedPart(e, 0, m);
    SortedPart(e, m, |e|);
    assert e[0..m] == e[..m] && e[m..|e|] == e[m..];
    FirstIs(e, k);
    FirstIs(e[..m], k);
    FirstIs(e[m..], k);
    hide First;
    if x: nat :| x < |e| && e[x].key == k {
      if x < m { assert e[..m][x] == e[x]; } else { assert e[m..][x - m] == e[x]; }
    }
  }

  lemma RankSide(e: seq<Entry>, k: Key, m: nat)
    requires SortedFrom(e, 0) && m < |e|
    ensures k < e[m].key <==> Rank(e, k) <= m
  {
    var x := Rank(e, k);
    hide Rank;
    if x < m { assert e[x].key < e[m].key; }
    if x > m + 1 { assert e[m].key < e[x - 1].key; }
  }

  /** An internal page cut in two around entry m routes as the whole, but for keys between m and the sibling's first. */
  lemma CutRoute(e: seq<Entry>, leftmost: Ptr, m: nat, k: Key)
    requires SortedFrom(e, 0) && m < |e|
    ensures k < e[m].key ==> Route(e[..m], leftmost, k) == Route(e, leftmost, k)
    ensures k >= e[m].key ==> Route(e[m + 1..], e[m].ptr, k) == Route(e, leftmost, k)
    ensures k >= e[m].key ==> Route(e[..m], leftmost, k) == if m == 0 then leftmost else e[m - 1].ptr
  {
    var x := Rank(e, k);
    RankSide(e, k, m);
    RouteIs(e, leftmost, k, x);
    hide *;
    RouteLeft(e, leftmost, k, m, if k < e[m].key then x else m);
    if k >= e[m].key { RouteRight(e, k, m, x); }
  }

  lemma RouteLeft(e: seq<Entry>, leftmost: Ptr, k: Key, m: nat, x: nat)
    requires SortedFrom(e, 0) && x <= m < |e| && (x > 0 ==> e[x - 1].key <= k || (x == m && e[m].key <= k)) && (x < m ==> k < e[x].key)
    ensures Route(e[..m], leftmost, k) == if x == 0 then leftmost else e[x - 1].ptr
  {
    SortedPart(e, 0, m);
    assert e[0..m] == e[..m];
    assert m > 0 ==> e[m - 1].key < e[m].key;
    RouteIs(e[..m], leftmost, k, x);
  }

  lemma RouteRight(e: seq<Entry>, k: Key, m: nat, x: nat)
    requires SortedFrom(e, 0) && m < x <= |e| && e[x - 1].key <= k && (x < |e| ==> k < e[x].key)
    ensures Route(e[m + 1..], e[m].ptr, k) == e[x - 1].ptr
  {
    SortedPart(e, m + 1, |e|);
    assert e[m + 1..|e|] == e[m + 1..];
    RouteIs(e[m + 1..], e[m].ptr, k, x - m - 1);
  }

  // ----- what a reader is told -----

  /** Where the sibling's entries start: an internal split moves entry m's pointer out of the list. */
  function Start(leftmost: Ptr, m: nat): nat
  {
    if leftmost == Null then m else m + 1
  }

  /** The pages of the frame are e, or its two parts once the old page is cut. */
  ghost predicate FrameOf(f: Frame, e: seq<Entry>, m: nat, whole: bool)
  {
    && SortedFrom(e, 0) && Proper(f.leftmost, e) && 0 < m && Start(f.leftmost, m) < |e|
    && Shows(f, if whole then e else e[..m], e[Start(f.leftmost, m)..])
    && (!whole ==> f.linked)
    && (f.linked ==> f.rightmost == if f.leftmost == Null then Null else e[m].ptr)
    && (f.linked ==> if f.leftmost == Null then f.right.keys[0] == e[m].key
                     else e[m].key < f.right.keys[0] <= e[m + 1].key && f.right.ptrs[0] != Null)
    && (f.leftmost != Null ==> f.left.ptrs[0] != Null)
  }

  /** The keys that an internal page which has been cut cannot send on: they are not below the split key,
      and below the first key that the sibling shows. */
  ghost predicate Stranded(f: Frame, e: seq<Entry>, m: nat, k: Key)
    requires |f.left.keys| == |f.left.ptrs| && |f.right.keys| == |f.right.ptrs| > 0 && m < |e|
  {
    (f.left.keys == [] || View(f.left, f.leftmost) != e) && e[m].key <= k < f.right.keys[0]
  }

  /** Every search from the old page ends as the list e says; but an internal one, for the stranded keys and
      for no others, ends one child to the left of it. */
  ghost predicate ReadsAs(f: Frame, e: seq<Entry>, m: nat)
    requires |f.left.keys| == |f.left.ptrs| && |f.right.keys| == |f.right.ptrs| > 0 && 0 < m < |e|
  {
    if f.leftmost == Null then forall k: Key :: Find(f, k) == First(e, k)
    else forall k: Key :: ChildReads(f, e, m, k)
  }

  ghost predicate ChildReads(f: Frame, e: seq<Entry>, m: nat, k: Key)
    requires |f.left.keys| == |f.left.ptrs| && |f.right.keys| == |f.right.ptrs| > 0 && 0 < m < |e|
  {
    && (Child(f, k) == Route(e, f.leftmost, k) <==> !Stranded(f, e, m, k))
    && (Stranded(f, e, m, k) ==> Child(f, k) == e[m - 1].ptr && Route(e, f.leftmost, k) == e[m].ptr)
  }

  lemma LeafFrameReads(f: Frame, e: seq<Entry>, m: nat, whole: bool, k: Key)
    requires FrameOf(f, e, m, whole) && f.leftmost == Null
    ensures Find(f, k) == First(e, k)
  {
    LeafScanIs(f.left, k);
    if f.linked { LeafScanIs(f.right, k); }
    CutFirst(e, m, k);
    hide LeafScan, First, View, SortedFrom, Proper;
  }

  lemma InternalFrameReads(f: Frame, e: seq<Entry>, m: nat, whole: bool, k: Key)
    requires FrameOf(f, e, m, whole) && f.leftmost != Null
    ensures |f.left.keys| == |f.left.ptrs| && |f.right.keys| == |f.right.ptrs| > 0 && ChildReads(f, e, m, k)
  {
    hide InternalScan, Route, View, SortedFrom, Proper, Shows, FrameOf, Child;
    InternalFrameIs(f, e, m, whole, k);
    CutRoute(e, f.leftmost, m, k);
    if e[m].key <= k < e[m + 1].key { RouteIs(e, f.leftmost, k, m + 1); }
  }

  /** What a search of such a frame goes by. */
  lemma InternalFrameIs(f: Frame, e: seq<Entry>, m: nat, whole: bool, k: Key)
    requires FrameOf(f, e, m, whole) && f.leftmost != Null
    ensures SortedFrom(e, 0) && Proper(f.leftmost, e) && 0 < m && m + 1 < |e| && e[m].ptr != e[m - 1].ptr && |e[..m]| < |e|
    ensures |f.left.keys| == |f.left.ptrs| > 0 && |f.right.keys| == |f.right.ptrs| > 0 && (!whole ==> f.linked)
    ensures View(f.left, f.leftmost) == if whole then e else e[..m]
    ensures f.linked ==> e[m].key < f.right.keys[0] <= e[m + 1].key
    ensures Child(f, k) == if f.linked && k >= f.right.keys[0] then Route(e[m + 1..], e[m].ptr, k) else Route(if whole then e else e[..m], f.leftmost, k)
  {
    InternalScanIs(f.left, f.leftmost, k);
    if f.linked { InternalScanIs(f.right, f.rightmost, k); }
    hide InternalScan, Route, View, SortedFrom, Proper;
    assert Proper(f.leftmost, e);
    ProperNext(f.leftmost, e, m);
  }

  lemma ProperNext(leftmost: Ptr, e: seq<Entry>, m: nat)
    requires Proper(leftmost, e) && 0 < m < |e|
    ensures e[m].ptr != e[m - 1].ptr
  {
  }

  /** Every state of the split reads as one list of entries. */
  lemma FrameReads(f: Frame, e: seq<Entry>, m: nat, whole: bool)
    requires FrameOf(f, e, m, whole)
    ensures |f.left.keys| == |f.left.ptrs| && |f.right.keys| == |f.right.ptrs| > 0 && ReadsAs(f, e, m)
    ensures |f.left.keys| > 0 && (View(f.left, f.leftmost) == e <==> whole)
  {
    hide Find, Child, First, Route;
    if f.leftmost == Null {
      forall k: Key ensures Find(f, k) == First(e, k) { LeafFrameReads(f, e, m, whole, k); }
    } else {
      hide ChildReads;
      forall k: Key ensures ChildReads(f, e, m, k) { InternalFrameReads(f, e, m, whole, k); }
    }
    assert |e[..m]| < |e|;
  }

  // ----- the stores of a split -----

  lemma InsertedLeft(e: seq<Entry>, m: nat, key: Key, ptr: Ptr)
    requires SortedFrom(e, 0) && m < |e| && (forall x :: 0 <= x < |e| ==> e[x].key != key) && key < e[m].key
    ensures Inserted(e, key, ptr) == Inserted(e[..m], key, ptr) + e[m..] && |Inserted(e[..m], key, ptr)| == m + 1
  {
    InsertedPart(e, key, ptr, 0, m);
    assert e[0..m] == e[..m] && |Inserted(e[..m], key, ptr)| == m + 1;
    hide *;
    Padded(e[..0], Inserted(e[..m], key, ptr), e[m..]);
  }

  lemma Padded(a: seq<Entry>, b: seq<Entry>, c: seq<Entry>)
    ensures a == [] ==> a + b + c == b + c
    ensures c == [] ==> a + b + c == a + b
  {
  }

  lemma InsertedRight(e: seq<Entry>, h: nat, key: Key, ptr: Ptr)
    requires SortedFrom(e, 0) && h < |e| && (forall x :: 0 <= x < |e| ==> e[x].key != key) && (h > 0 ==> e[h - 1].key < key)
    ensures Inserted(e, key, ptr) == e[..h] + Inserted(e[h..], key, ptr)
  {
    InsertedPart(e, key, ptr, h, |e|);
    assert e[h..|e|] == e[h..];
    hide *;
    Padded(e[..h], Inserted(e[h..], key, ptr), e[|e|..]);
  }

  /** The new key goes to the old page when it is below the split key ... */
  lemma PartsLeft(e: seq<Entry>, m: nat, h: nat, key: Key, ptr: Ptr)
    requires SortedFrom(e, 0) && m <= h < |e| && forall x :: 0 <= x < |e| ==> e[x].key != key
    requires key < e[m].key
    ensures var e' := Inserted(e, key, ptr);
            |e'| == |e| + 1 && e'[..m + 1] == Inserted(e[..m], key, ptr) && e'[m + 1] == e[m] && e'[h + 1] == e[h] && e'[h + 1..] == e[h..]
  {
    hide *;
    InsertedLeft(e, m, key, ptr);
    HalvesJoined(Inserted(e[..m], key, ptr), e[m..], h - m);
    TailsOf(e, m, h);
  }

  lemma TailsOf(e: seq<Entry>, m: nat, h: nat)
    requires m <= h < |e|
    ensures |e[m..]| == |e| - m && e[m..][h - m..] == e[h..] && e[m..][0] == e[m] && e[m..][h - m] == e[h]
  {
  }

  /** ... and otherwise to the sibling. */
  lemma PartsRight(e: seq<Entry>, m: nat, h: nat, key: Key, ptr: Ptr)
    requires SortedFrom(e, 0) && m <= h <= m + 1 && h < |e| && forall x :: 0 <= x < |e| ==> e[x].key != key
    requires key > e[m].key
    ensures var e' := Inserted(e, key, ptr);
            |e'| == |e| + 1 && e'[..m] == e[..m] && e'[h..] == Inserted(e[h..], key, ptr) && e'[m] == e[m]
  {
    assert h == m && h > 0 ==> e[m - 1].key < e[m].key;
    InsertedRight(e, h, key, ptr);
    if h == m { FirstEntryStays(e[h..], key, ptr); }
    hide *;
    HalvesJoined(e[..h], Inserted(e[h..], key, ptr), 0);
    assert e[..h][..m] == e[..m];
  }

  lemma FirstEntryStays(v: seq<Entry>, key: Key, ptr: Ptr)
    requires v != [] && SortedFrom(v, 0) && v[0].key < key
    ensures Inserted(v, key, ptr)[0] == v[0]
  {
    hide InsertPos;
    var p := InsertPos(v, key);
    assert v[0].key < key && p > 0;
    assert v[..p][0] == v[0];
  }

  lemma HalvesJoined(a: seq<Entry>, b: seq<Entry>, i: nat)
    requires i <= |b|
    ensures (a + b)[..|a|] == a && (a + b)[|a| + i..] == b[i..]
    ensures forall x :: 0 <= x < |b| ==> (a + b)[|a| + x] == b[x]
  {
  }

  lemma ProperPart(leftmost: Ptr, e: seq<Entry>, a: nat, b: nat)
    requires Proper(leftmost, e) && a <= b <= |e|
    ensures Proper(leftmost, e[a..b]) && Proper(Null, e[a..b])
    ensures 0 < a ==> Proper(e[a - 1].ptr, e[a..b])
  {
  }

  /** The first slot of the sibling while the new key goes into it. */
  lemma FirstSlot(w: Insertion, r: seq<Entry>, t: nat, s: Shot)
    requires InsertionOk(w, r) && r != [] && IsAt(w, t, s) && Proper(w.leftmost, r)
    ensures |s.keys| == |s.ptrs| > 1
    ensures s.keys[0] == r[0].key || (w.p == 0 && s.keys[0] == w.key)
    ensures t >= PublishTime(w) ==> s.keys[0] == Inserted(r, w.key, w.ptr)[0].key
    ensures w.leftmost != Null ==> s.ptrs[0] != Null
  {
    PlainSlots(w.before, w.leftmost, r);
    InsertedAt(r, w.key, w.ptr);
    assert s.keys[0] == KeyAt(w, t, 0) && s.ptrs[0] == PtrAt(w, t, 0);
  }

  function Rightmost(leftmost: Ptr, e: seq<Entry>, m: nat): Ptr
    requires m < |e|
  {
    if leftmost == Null then Null else e[m].ptr
  }

  /** What holds between the pages once the old one is cut and before the new key is stored. */
  ghost predicate Halved(left: Shot, right: Shot, leftmost: Ptr, e: seq<Entry>, m: nat)
  {
    && SortedFrom(e, 0) && Proper(leftmost, e) && 0 < m && Start(leftmost, m) < |e|
    && Rep(left, leftmost, e[..m], NONE)
    && Rep(right, Rightmost(leftmost, e, m), e[Start(leftmost, m)..], NONE)
  }

  /** The new entry is fit for the pages. */
  ghost predicate Fresh(leftmost: Ptr, e: seq<Entry>, key: Key, ptr: Ptr)
  {
    && SortedFrom(e, 0) && (forall x :: 0 <= x < |e| ==> e[x].key != key)
    && Proper(leftmost, e) && Proper(leftmost, Inserted(e, key, ptr))
  }

  lemma HalvesProper(leftmost: Ptr, e: seq<Entry>, m: nat)
    requires Proper(leftmost, e) && SortedFrom(e, 0) && Start(leftmost, m) < |e|
    ensures Proper(leftmost, e[..m]) && Proper(Rightmost(leftmost, e, m), e[Start(leftmost, m)..])
    ensures SortedFrom(e[..m], 0) && SortedFrom(e[Start(leftmost, m)..], 0)
  {
    ProperPart(leftmost, e, 0, m);
    ProperPart(leftmost, e, Start(leftmost, m), |e|);
    assert e[0..m] == e[..m] && e[Start(leftmost, m)..|e|] == e[Start(leftmost, m)..];
  }

  /** What the two pages show before the last insertion. */
  lemma HalvedViews(left: Shot, right: Shot, leftmost: Ptr, e: seq<Entry>, m: nat)
    requires Halved(left, right, leftmost, e, m)
    ensures |left.keys| == |left.ptrs| > 1 && View(left, leftmost) == e[..m] && (leftmost != Null ==> left.ptrs[0] != Null)
    ensures |right.keys| == |right.ptrs| > 1 && View(right, Rightmost(leftmost, e, m)) == e[Start(leftmost, m)..]
    ensures right.keys[0] == e[Start(leftmost, m)].key && right.ptrs[0] != Null
  {
    HalvesProper(leftmost, e, m);
    RepView(left, leftmost, e[..m], NONE);
    RepView(right, Rightmost(leftmost, e, m), e[Start(leftmost, m)..], NONE);
    PlainSlots(left, leftmost, e[..m]);
    PlainSlots(right, Rightmost(leftmost, e, m), e[Start(leftmost, m)..]);
  }

  lemma FrameIntro(f: Frame, e: seq<Entry>, m: nat, l: seq<Entry>)
    requires SortedFrom(e, 0) && Proper(f.leftmost, e) && 0 < m && Start(f.leftmost, m) < |e| && f.linked
    requires l == e || l == e[..m]
    requires Shows(f, l, e[Start(f.leftmost, m)..]) && f.rightmost == Rightmost(f.leftmost, e, m)
    requires f.right.keys[0] == e[Start(f.leftmost, m)].key || (f.leftmost != Null && e[m].key < f.right.keys[0] < e[m + 1].key)
    requires f.leftmost != Null ==> f.left.ptrs[0] != Null && f.right.ptrs[0] != Null
    ensures FrameOf(f, e, m, l == e)
  {
    assert |e[..m]| < |e|;
  }

  /** Linked and not yet cut, or cut, with the new key in neither page. */
  lemma StillFrame(left: Shot, right: Shot, leftmost: Ptr, e: seq<Entry>, m: nat, l: seq<Entry>)
    requires SortedFrom(e, 0) && Proper(leftmost, e) && 0 < m && Start(leftmost, m) < |e| && (l == e || l == e[..m])
    requires Rep(left, leftmost, l, NONE) && Rep(right, Rightmost(leftmost, e, m), e[Start(leftmost, m)..], NONE)
    ensures FrameOf(Frame(left, leftmost, true, right, Rightmost(leftmost, e, m)), e, m, l == e)
  {
    HalvesProper(leftmost, e, m);
    RepView(left, leftmost, l, NONE);
    RepView(right, Rightmost(leftmost, e, m), e[Start(leftmost, m)..], NONE);
    PlainSlots(left, leftmost, l);
    PlainSlots(right, Rightmost(leftmost, e, m), e[Start(leftmost, m)..]);
    FrameIntro(Frame(left, leftmost, true, right, Rightmost(leftmost, e, m)), e, m, l);
  }

  /** After t stores of the last insertion, into the sibling. */
  lemma RightFrame(left: Shot, right: Shot, leftmost: Ptr, e: seq<Entry>, m: nat, w: Insertion, t: nat, s: Shot)
    requires Halved(left, right, leftmost, e, m) && Fresh(leftmost, e, w.key, w.ptr) && w.key > e[m].key
    requires w.before == right && w.leftmost == Rightmost(leftmost, e, m)
    requires InsertionOk(w, e[Start(leftmost, m)..]) && t <= Stores(w) && IsAt(w, t, s)
    ensures FrameOf(Frame(left, leftmost, true, s, w.leftmost), if t < PublishTime(w) then e else Inserted(e, w.key, w.ptr), m, false)
  {
    var h := Start(leftmost, m);
    var f := Frame(left, leftmost, true, s, w.leftmost);
    HalvedViews(left, right, leftmost, e, m);
    HalvesProper(leftmost, e, m);
    InsertAtomic(w, e[h..], t, s);
    FirstSlot(w, e[h..], t, s);
    PartsRight(e, m, h, w.key, w.ptr);
    InsertedSorted(e, w.key, w.ptr);
    InsertedAt(e[h..], w.key, w.ptr);
    assert e[h..][0] == e[h] && (h > m ==> e[m].key < e[h].key) && (w.p == 0 ==> w.key < e[h].key);
    var e' := Inserted(e, w.key, w.ptr);
    assert e'[h] == e'[h..][0] && (h > m ==> e'[m].key < e'[h].key);
    if t < PublishTime(w) {
      RightBefore(f, e, m, w.key, s);
    } else {
      hide InsertionOk, Rep, IsAt, InsertPos, Inserted, PublishTime, View, Proper, SortedFrom, Halved, FrameOf;
      FrameIntro(f, e', m, e[..m]);
    }
  }

  lemma RightBefore(f: Frame, e: seq<Entry>, m: nat, key: Key, s: Shot)
    requires SortedFrom(e, 0) && Proper(f.leftmost, e) && 0 < m && Start(f.leftmost, m) < |e| && f.linked && f.right == s && e[m].key < key
    requires |f.left.keys| == |f.left.ptrs| > 1 && View(f.left, f.leftmost) == e[..m]
    requires |s.keys| == |s.ptrs| > 1 && View(s, f.rightmost) == e[Start(f.leftmost, m)..]
    requires f.rightmost == Rightmost(f.leftmost, e, m)
    requires s.keys[0] == e[Start(f.leftmost, m)].key || (s.keys[0] == key < e[Start(f.leftmost, m)].key)
    requires f.leftmost != Null ==> f.left.ptrs[0] != Null && s.ptrs[0] != Null
    ensures FrameOf(f, e, m, false)
  {
    FrameIntro(f, e, m, e[..m]);
  }

  lemma HalvedIs(left: Shot, right: Shot, leftmost: Ptr, e: seq<Entry>, m: nat)
    requires Halved(left, right, leftmost, e, m)
    ensures SortedFrom(e, 0) && Proper(leftmost, e) && 0 < m && m <= Start(leftmost, m) < |e|
  {
    hide Proper, Rep, SortedFrom;
  }

  lemma PlaceIs(w: Insertion, e: seq<Entry>)
    requires InsertionOk(w, e)
    ensures w.p <= w.n == |e|
  {
    hide Rep, Proper;
  }

  lemma FreshIs(leftmost: Ptr, e: seq<Entry>, key: Key, ptr: Ptr)
    requires Fresh(leftmost, e, key, ptr)
    ensures (forall x :: 0 <= x < |e| ==> e[x].key != key) && Proper(leftmost, Inserted(e, key, ptr))
  {
    hide Proper, Inserted, SortedFrom;
  }

  /** The place of the cut when the new entry lies before it. */
  lemma OneFurther(e: seq<Entry>, e': seq<Entry>, leftmost: Ptr, m: nat)
    requires m <= Start(leftmost, m) < |e| && |e'| == |e| + 1 && e'[m + 1] == e[m]
    ensures Start(leftmost, m + 1) == Start(leftmost, m) + 1 && Rightmost(leftmost, e', m + 1) == Rightmost(leftmost, e, m)
  {
  }

  /** The old page, cut, with the first part of the entries, and the sibling with the second. */
  lemma CutFrame(s: Shot, right: Shot, leftmost: Ptr, r: Ptr, e: seq<Entry>, m: nat)
    requires SortedFrom(e, 0) && Proper(leftmost, e) && 0 < m && Start(leftmost, m) < |e| && r == Rightmost(leftmost, e, m)
    requires |s.keys| == |s.ptrs| > 1 && View(s, leftmost) == e[..m] && (leftmost != Null ==> s.ptrs[0] != Null)
    requires |right.keys| == |right.ptrs| > 1 && View(right, r) == e[Start(leftmost, m)..]
    requires right.keys[0] == e[Start(leftmost, m)].key && (leftmost != Null ==> right.ptrs[0] != Null)
    ensures FrameOf(Frame(s, leftmost, true, right, r), e, m, false)
  {
    hide View, Proper, SortedFrom, FrameOf;
    FrameIntro(Frame(s, leftmost, true, right, r), e, m, e[..m]);
  }

  /** After t stores of the last insertion, into the old page. */
  lemma LeftFrame(left: Shot, right: Shot, leftmost: Ptr, e: seq<Entry>, m: nat, w: Insertion, t: nat, s: Shot)
    requires Halved(left, right, leftmost, e, m) && Fresh(leftmost, e, w.key, w.ptr) && w.key < e[m].key
    requires w.before == left && w.leftmost == leftmost
    requires InsertionOk(w, e[..m]) && t <= Stores(w) && IsAt(w, t, s)
    ensures var f := Frame(s, leftmost, true, right, Rightmost(leftmost, e, m));
            if t < PublishTime(w) then FrameOf(f, e, m, false) else FrameOf(f, Inserted(e, w.key, w.ptr), m + 1, false)
  {
    hide *;
    var h := Start(leftmost, m);
    HalvedIs(left, right, leftmost, e, m);
    var r := Rightmost(leftmost, e, m);
    FreshIs(leftmost, e, w.key, w.ptr);
    HalvedViews(left, right, leftmost, e, m);
    HalvesProper(leftmost, e, m);
    PlaceIs(w, e[..m]);
    InsertAtomic(w, e[..m], t, s);
    FirstSlot(w, e[..m], t, s);
    if t < PublishTime(w) {
      CutFrame(s, right, leftmost, r, e, m);
    } else {
      PartsLeft(e, m, h, w.key, w.ptr);
      InsertedSorted(e, w.key, w.ptr);
      OneFurther(e, Inserted(e, w.key, w.ptr), leftmost, m);
      CutFrame(s, right, leftmost, r, Inserted(e, w.key, w.ptr), m + 1);
    }
  }

  // ----- the split itself -----

  /** The states a split goes through read as the old entries or as the new ones. */
  ghost predicate SplitTrace(trace: seq<Frame>, e: seq<Entry>, e': seq<Entry>, m: nat, m': nat)
  {
    && 0 < m < |e| && 0 < m' < |e'|
    && forall t :: 0 <= t < |trace| ==>
         && |trace[t].left.keys| == |trace[t].left.ptrs| && |trace[t].right.keys| == |trace[t].right.ptrs| > 0
         && (ReadsAs(trace[t], e, m) || ReadsAs(trace[t], e', m'))
  }

  /** Copy the entries from slot `from` on to the new, still unlinked page. */
  method Migrate(left: Page, right: Page, from: nat, numEntries: nat, ghost e: seq<Entry>) returns (count: nat)
    requires left.Holds(e) && SortedFrom(e, 0) && from < |e| == numEntries
    requires right.Holds([]) && right.leftmost == Null && right.counter == 0 && right.cardinality == left.cardinality
    requires right.keys != left.keys && right.ptrs != left.ptrs && right != left
    modifies right.keys, right.ptrs, right`counter, right`lastIndex
    ensures right.Holds(e[from..]) && right.counter == 0 && right.lastIndex == |e| - from - 1
    ensures count == |e| - from
  {
    hide *;
    assert e[from..from] == [];
    count := 0;
    var i := from;
    while i < numEntries
      invariant from <= i <= |e| && count == i - from
      invariant right.Holds(e[from..i]) && right.counter == 0
      invariant i > from ==> right.lastIndex == i - from - 1
      modifies right.keys, right.ptrs, right`counter, right`lastIndex
    {
      count := MigrateOne(left, right, from, i, e, count);
      i := i + 1;
    }
    assert e[from..i] == e[from..];
  }

  method MigrateOne(left: Page, right: Page, ghost from: nat, i: nat, ghost e: seq<Entry>, count: nat) returns (count': nat)
    requires left.Holds(e) && SortedFrom(e, 0) && from <= i < |e| && count == i - from
    requires right.Holds(e[from..i]) && right.leftmost == Null && right.counter == 0 && right.cardinality == left.cardinality
    requires right.keys != left.keys && right.ptrs != left.ptrs && right != left
    modifies right.keys, right.ptrs, right`counter, right`lastIndex
    ensures right.Holds(e[from..i + 1]) && right.counter == 0 && right.lastIndex == count && count' == count + 1
  {
    left.SlotsAre(e);
    MigrateReady(left.leftmost, e, from, i);
    assert count < right.cardinality - 1;
    ghost var w, trace;
    hide *;
    count', w, trace := right.InsertKey(left.keys[i], left.ptrs[i], count, e[from..i]);
    EvenStays();
  }

  lemma EvenStays()
    ensures Forward(0) == 0
  {
  }

  /** Migration appends. */
  lemma MigrateReady(leftmost: Ptr, e: seq<Entry>, from: nat, i: nat)
    requires SortedFrom(e, 0) && Proper(leftmost, e) && from <= i < |e|
    ensures Inserted(e[from..i], e[i].key, e[i].ptr) == e[from..i + 1]
    ensures Proper(Null, e[from..i + 1])
  {
    var v := e[from..i];
    assert InsertPos(v, e[i].key) == |v|;
    assert e[from..i + 1] == v + [e[i]];
  }

  /** The cut: the counter turns, slot m becomes the end of the page. */
  method CutAt(left: Page, m: nat, ghost e: seq<Entry>)
    requires left.Holds(e) && 0 < m < |e|
    modifies left.ptrs, left`counter, left`lastIndex
    ensures left.Holds(e[..m]) && left.counter == Bump(old(left.counter)) && left.lastIndex == m - 1
  {
    left.SlotsAre(e);
    left.counter := Bump(left.counter);
    left.ptrs[m] := Null;
    left.lastIndex := m - 1;
    ProperPart(left.leftmost, e, 0, m);
    assert e[0..m] == e[..m];
    CutRep(left.Now(), left.leftmost, e, m);
  }

  lemma CutRep(s: Shot, leftmost: Ptr, e: seq<Entry>, m: nat)
    requires |s.keys| == |s.ptrs| >= 2 && 0 < m < |e| < |s.ptrs| && s.ptrs[m] == Null
    requires forall x :: 0 <= x < m ==> s.keys[x] == e[x].key && s.ptrs[x] == e[x].ptr
    ensures Rep(s, leftmost, e[..m], NONE)
  {
  }

  /** A page may split: it is full, its entries are in order, and the new one is fit for it. */
  ghost predicate MaySplit(left: Page, key: Key, ptr: Ptr, e: seq<Entry>)
    reads left`leftmost, left.keys, left.ptrs
  {
    left.Holds(e) && |e| == left.cardinality - 1 >= 3 && Fresh(left.leftmost, e, key, ptr)
  }

  /** Where entry m of the old list is in the new one. */
  function MovedTo(e: seq<Entry>, m: nat, key: Key): nat
    requires m < |e|
  {
    if key < e[m].key then m + 1 else m
  }

  /** The states up to the cut: the sibling unlinked, linked, and the old page cut. */
  function BeforeStore(leftmost: Ptr, whole: Shot, cut: Shot, built: Shot, e: seq<Entry>, m: nat): seq<Frame>
    requires m < |e|
  {
    var rm := Rightmost(leftmost, e, m);
    [Frame(whole, leftmost, false, built, rm), Frame(whole, leftmost, true, built, rm), Frame(cut, leftmost, true, built, rm)]
  }

  lemma SplitStart(leftmost: Ptr, whole: Shot, cut: Shot, built: Shot, e: seq<Entry>, m: nat, key: Key, ptr: Ptr)
    requires Fresh(leftmost, e, key, ptr) && |e| >= 3 && m == |e| / 2
    requires Rep(whole, leftmost, e, NONE) && Rep(cut, leftmost, e[..m], NONE)
    requires Rep(built, Rightmost(leftmost, e, m), e[Start(leftmost, m)..], NONE)
    ensures Halved(cut, built, leftmost, e, m)
    ensures SplitTrace(BeforeStore(leftmost, whole, cut, built, e, m), e, Inserted(e, key, ptr), m, MovedTo(e, m, key))
  {
    hide *;
    FreshGives(leftmost, e, key, ptr, m);
    StillFrame(whole, built, leftmost, e, m, e);
    StillFrame(cut, built, leftmost, e, m, e[..m]);
    HalvedIntro(cut, built, leftmost, e, m);
    assert |e[..m]| < |e|;
    var rm := Rightmost(leftmost, e, m);
    FrameReads(Frame(whole, leftmost, true, built, rm), e, m, true);
    FrameReads(Frame(cut, leftmost, true, built, rm), e, m, false);
    Unlinked(Frame(whole, leftmost, true, built, rm), e, m);
    FrameReads(Frame(whole, leftmost, false, built, rm), e, m, true);
    StartTrace(leftmost, whole, cut, built, e, Inserted(e, key, ptr), m, MovedTo(e, m, key));
  }

  lemma FreshGives(leftmost: Ptr, e: seq<Entry>, key: Key, ptr: Ptr, m: nat)
    requires Fresh(leftmost, e, key, ptr) && |e| >= 3 && m == |e| / 2
    ensures SortedFrom(e, 0) && Proper(leftmost, e) && 0 < m && Start(leftmost, m) < |e|
    ensures m < |e| && 0 < MovedTo(e, m, key) < |Inserted(e, key, ptr)|
  {
    hide Proper, SortedFrom, InsertPos;
  }

  lemma HalvedIntro(left: Shot, right: Shot, leftmost: Ptr, e: seq<Entry>, m: nat)
    requires SortedFrom(e, 0) && Proper(leftmost, e) && 0 < m && Start(leftmost, m) < |e|
    requires Rep(left, leftmost, e[..m], NONE)
    requires Rep(right, Rightmost(leftmost, e, m), e[Start(leftmost, m)..], NONE)
    ensures Halved(left, right, leftmost, e, m)
  {
    hide Rep;
  }

  lemma Unlinked(f: Frame, e: seq<Entry>, m: nat)
    requires FrameOf(f, e, m, true)
    ensures FrameOf(f.(linked := false), e, m, true)
  {
    hide View;
  }

  lemma StartTrace(leftmost: Ptr, whole: Shot, cut: Shot, built: Shot, e: seq<Entry>, e': seq<Entry>, m: nat, m': nat)
    requires 0 < m < |e| && 0 < m' < |e'| && |whole.keys| == |whole.ptrs| && |cut.keys| == |cut.ptrs| && |built.keys| == |built.ptrs| > 0
    requires var rm := Rightmost(leftmost, e, m);
             ReadsAs(Frame(whole, leftmost, false, built, rm), e, m) && ReadsAs(Frame(whole, leftmost, true, built, rm), e, m)
             && ReadsAs(Frame(cut, leftmost, true, built, rm), e, m)
    ensures SplitTrace(BeforeStore(leftmost, whole, cut, built, e, m), e, e', m, m')
  {
    hide ReadsAs;
  }

  /** All frames read as the old entries or as the new ones, the last as the new ones. */
  ghost predicate Settles(frames: seq<Frame>, e: seq<Entry>, m: nat, key: Key, ptr: Ptr)
  {
    && 0 < m < |e| && 0 < MovedTo(e, m, key) < |Inserted(e, key, ptr)| && frames != []
    && SplitTrace(frames, e, Inserted(e, key, ptr), m, MovedTo(e, m, key))
    && ReadsAs(frames[|frames| - 1], Inserted(e, key, ptr), MovedTo(e, m, key))
  }

  lemma SettlesIntro(frames: seq<Frame>, e: seq<Entry>, m: nat, key: Key, ptr: Ptr, m': nat)
    requires 0 < m < |e| && frames != [] && m' == MovedTo(e, m, key)
    requires SplitTrace(frames, e, Inserted(e, key, ptr), m, m') && ReadsAs(frames[|frames| - 1], Inserted(e, key, ptr), m')
    ensures Settles(frames, e, m, key, ptr)
  {
    hide ReadsAs;
  }

  /** The states while the slots of the old page, or of the sibling, go through the given ones. */
  function LeftStates(shots: seq<Shot>, leftmost: Ptr, right: Shot, rightmost: Ptr): (frames: seq<Frame>)
    ensures |frames| == |shots| && forall t :: 0 <= t < |shots| ==> frames[t] == Frame(shots[t], leftmost, true, right, rightmost)
  {
    seq(|shots|, t requires 0 <= t < |shots| => Frame(shots[t], leftmost, true, right, rightmost))
  }

  function RightStates(left: Shot, leftmost: Ptr, shots: seq<Shot>, rightmost: Ptr): (frames: seq<Frame>)
    ensures |frames| == |shots| && forall t :: 0 <= t < |shots| ==> frames[t] == Frame(left, leftmost, true, shots[t], rightmost)
  {
    seq(|shots|, t requires 0 <= t < |shots| => Frame(left, leftmost, true, shots[t], rightmost))
  }

  /** The states of the last insertion, and the final one, which reads as the new entries. */
  lemma RightFrames(left: Shot, right: Shot, leftmost: Ptr, e: seq<Entry>, m: nat, w: Insertion, shots: seq<Shot>)
    requires Halved(left, right, leftmost, e, m) && Fresh(leftmost, e, w.key, w.ptr) && w.key > e[m].key
    requires w.before == right && w.leftmost == Rightmost(leftmost, e, m)
    requires InsertionOk(w, e[Start(leftmost, m)..]) && |shots| == Stores(w) + 1 && Follows(w, shots)
    ensures Settles(RightStates(left, leftmost, shots, w.leftmost), e, m, w.key, w.ptr)
  {
    var e' := Inserted(e, w.key, w.ptr);
    var frames := RightStates(left, leftmost, shots, w.leftmost);
    TimesAndSizes(w, e, m);
    hide *;
    forall t | 0 <= t < |frames|
      ensures var f := frames[t];
              |f.left.keys| == |f.left.ptrs| && |f.right.keys| == |f.right.ptrs| > 0
              && (if t < PublishTime(w) then ReadsAs(f, e, m) else ReadsAs(f, e', m))
    {
      RightFrameReads(left, right, leftmost, e, m, w, shots, t);
    }
    TraceIntro(frames, e, e', m, m);
    MovedSide(e, m, w.key);
    SettlesIntro(frames, e, m, w.key, w.ptr, m);
  }

  lemma RightFrameReads(left: Shot, right: Shot, leftmost: Ptr, e: seq<Entry>, m: nat, w: Insertion, shots: seq<Shot>, t: nat)
    requires Halved(left, right, leftmost, e, m) && Fresh(leftmost, e, w.key, w.ptr) && w.key > e[m].key
    requires w.before == right && w.leftmost == Rightmost(leftmost, e, m)
    requires InsertionOk(w, e[Start(leftmost, m)..]) && t < |shots| == Stores(w) + 1 && Follows(w, shots)
    ensures var f := Frame(left, leftmost, true, shots[t], w.leftmost);
            |f.left.keys| == |f.left.ptrs| && |f.right.keys| == |f.right.ptrs| > 0 && m < |e|
            && (if t < PublishTime(w) then ReadsAs(f, e, m) else ReadsAs(f, Inserted(e, w.key, w.ptr), m))
  {
    assert IsAt(w, t, shots[t]);
    RightFrame(left, right, leftmost, e, m, w, t, shots[t]);
    hide Halved, Fresh, InsertionOk, InsertPos, Rep, View, ReadsAs;
    if t < PublishTime(w) {
      FrameReads(Frame(left, leftmost, true, shots[t], w.leftmost), e, m, false);
    } else {
      FrameReads(Frame(left, leftmost, true, shots[t], w.leftmost), Inserted(e, w.key, w.ptr), m, false);
    }
  }

  lemma LeftFrames(left: Shot, right: Shot, leftmost: Ptr, e: seq<Entry>, m: nat, w: Insertion, shots: seq<Shot>)
    requires Halved(left, right, leftmost, e, m) && Fresh(leftmost, e, w.key, w.ptr) && w.key < e[m].key
    requires w.before == left && w.leftmost == leftmost
    requires InsertionOk(w, e[..m]) && |shots| == Stores(w) + 1 && Follows(w, shots)
    ensures Settles(LeftStates(shots, leftmost, right, Rightmost(leftmost, e, m)), e, m, w.key, w.ptr)
  {
    var e' := Inserted(e, w.key, w.ptr);
    var frames := LeftStates(shots, leftmost, right, Rightmost(leftmost, e, m));
    TimesAndSizes(w, e, m);
    hide *;
    forall t | 0 <= t < |frames|
      ensures var f := frames[t];
              |f.left.keys| == |f.left.ptrs| && |f.right.keys| == |f.right.ptrs| > 0
              && (if t < PublishTime(w) then ReadsAs(f, e, m) else ReadsAs(f, e', m + 1))
    {
      LeftFrameReads(left, right, leftmost, e, m, w, shots, t);
    }
    TraceIntro(frames, e, e', m, m + 1);
    MovedSide(e, m, w.key);
    SettlesIntro(frames, e, m, w.key, w.ptr, m + 1);
  }

  lemma LeftFrameReads(left: Shot, right: Shot, leftmost: Ptr, e: seq<Entry>, m: nat, w: Insertion, shots: seq<Shot>, t: nat)
    requires Halved(left, right, leftmost, e, m) && Fresh(leftmost, e, w.key, w.ptr) && w.key < e[m].key
    requires w.before == left && w.leftmost == leftmost
    requires InsertionOk(w, e[..m]) && t < |shots| == Stores(w) + 1 && Follows(w, shots)
    ensures var f := Frame(shots[t], leftmost, true, right, Rightmost(leftmost, e, m));
            |f.left.keys| == |f.left.ptrs| && |f.right.keys| == |f.right.ptrs| > 0 && m < |e|
            && (if t < PublishTime(w) then ReadsAs(f, e, m) else ReadsAs(f, Inserted(e, w.key, w.ptr), m + 1))
  {
    assert IsAt(w, t, shots[t]);
    LeftFrame(left, right, leftmost, e, m, w, t, shots[t]);
    hide Halved, Fresh, InsertionOk, InsertPos, Rep, View, ReadsAs;
    if t < PublishTime(w) {
      FrameReads(Frame(shots[t], leftmost, true, right, Rightmost(leftmost, e, m)), e, m, false);
    } else {
      FrameReads(Frame(shots[t], leftmost, true, right, Rightmost(leftmost, e, m)), Inserted(e, w.key, w.ptr), m + 1, false);
    }
  }

  lemma MovedSide(e: seq<Entry>, m: nat, key: Key)
    requires m < |e|
    ensures key < e[m].key ==> MovedTo(e, m, key) == m + 1
    ensures key >= e[m].key ==> MovedTo(e, m, key) == m
  {
  }

  lemma TimesAndSizes(w: Insertion, e: seq<Entry>, m: nat)
    requires w.p <= w.n && m < |e|
    ensures PublishTime(w) <= Stores(w) && |Inserted(e, w.key, w.ptr)| == |e| + 1
  {
  }

  lemma TraceIntro(frames: seq<Frame>, e: seq<Entry>, e': seq<Entry>, m: nat, m': nat)
    requires 0 < m < |e| && 0 < m' < |e'|
    requires forall t :: 0 <= t < |frames| ==>
      && |frames[t].left.keys| == |frames[t].left.ptrs| && |frames[t].right.keys| == |frames[t].right.ptrs| > 0
      && (ReadsAs(frames[t], e, m) || ReadsAs(frames[t], e', m'))
    ensures SplitTrace(frames, e, e', m, m')
  {
    hide ReadsAs;
  }

  lemma TraceJoin(a: seq<Frame>, b: seq<Frame>, e: seq<Entry>, m: nat, key: Key, ptr: Ptr)
    requires 0 < m < |e| && 0 < MovedTo(e, m, key) < |Inserted(e, key, ptr)| && a != []
    requires SplitTrace(a, e, Inserted(e, key, ptr), m, MovedTo(e, m, key)) && Settles(b, e, m, key, ptr)
    ensures Settles(a + b, e, m, key, ptr) && (a + b)[0] == a[0]
  {
    hide ReadsAs, Inserted;
  }

  /** The new sibling: entries m.. of a leaf, or m + 1.. of an internal page with entry m's pointer to their left. */
  method BuildSibling(left: Page, m: nat, numEntries: nat, ghost e: seq<Entry>) returns (right: Page, count: nat)
    requires left.Holds(e) && SortedFrom(e, 0) && 0 < m && m + 1 < |e| == numEntries
    ensures fresh(right) && fresh(right.keys) && fresh(right.ptrs) && right.cardinality == left.cardinality
    ensures right.leftmost == Rightmost(left.leftmost, e, m) && right.counter == 0
    ensures right.Holds(e[Start(left.leftmost, m)..]) && right.lastIndex == count - 1
    ensures count == |e| - Start(left.leftmost, m)
  {
    hide *;
    left.SlotsAre(e);
    WideEnough(left, e);
    right := new Page(left.cardinality);
    StartIs(left.leftmost, e, m);
    ghost var lm := left.leftmost;
    if left.leftmost == Null {
      count := Migrate(left, right, m, numEntries, e);
    } else {
      count := Migrate(left, right, m + 1, numEntries, e);
      SetLeftmost(right, left.ptrs[m], e, m, lm);
    }
  }

  lemma WideEnough(left: Page, e: seq<Entry>)
    requires left.Holds(e)
    ensures left.cardinality >= 2
  {
  }

  lemma StartIs(leftmost: Ptr, e: seq<Entry>, m: nat)
    requires m < |e|
    ensures Start(leftmost, m) == (if leftmost == Null then m else m + 1)
    ensures Rightmost(leftmost, e, m) == (if leftmost == Null then Null else e[m].ptr)
  {
  }

  /** Entry m of an internal page becomes the leftmost pointer of the sibling. */
  method SetLeftmost(right: Page, ptr: Ptr, ghost e: seq<Entry>, ghost m: nat, ghost leftmost: Ptr)
    requires m + 1 < |e| && right.Holds(e[m + 1..]) && ptr == e[m].ptr && Proper(leftmost, e)
    modifies right`leftmost
    ensures right.Holds(e[m + 1..]) && right.leftmost == ptr
  {
    ghost var r := e[m + 1..];
    ProperPart(leftmost, e, m + 1, |e|);
    assert e[m + 1..|e|] == r;
    LeftmostFree(right.Now(), right.leftmost, ptr, r);
    right.leftmost := ptr;
  }

  lemma LeftmostFree(s: Shot, leftmost: Ptr, leftmost': Ptr, e: seq<Entry>)
    requires Rep(s, leftmost, e, NONE)
    ensures Rep(s, leftmost', e, NONE)
  {
  }

  /** The two pages are cut and linked, and the new entry may go into one of them. */
  ghost predicate CutAndLinked(left: Page, right: Page, e: seq<Entry>, m: nat, key: Key, ptr: Ptr)
    reads left`leftmost, left.keys, left.ptrs, right`leftmost, right.keys, right.ptrs
  {
    && 0 < m && Start(left.leftmost, m) < |e| && m < |e| < left.cardinality == right.cardinality
    && left.Holds(e[..m]) && right.Holds(e[Start(left.leftmost, m)..]) && right.leftmost == Rightmost(left.leftmost, e, m)
    && Halved(left.Now(), right.Now(), left.leftmost, e, m) && Fresh(left.leftmost, e, key, ptr)
    && right.keys != left.keys && right.ptrs != left.ptrs && right != left
  }

  lemma CutGives(left: Page, right: Page, e: seq<Entry>, m: nat, key: Key, ptr: Ptr)
    requires CutAndLinked(left, right, e, m, key, ptr)
    ensures 0 < m < |e| < left.cardinality == right.cardinality && Start(left.leftmost, m) < |e|
    ensures left.Holds(e[..m]) && right.Holds(e[Start(left.leftmost, m)..]) && right.leftmost == Rightmost(left.leftmost, e, m)
    ensures Halved(left.Now(), right.Now(), left.leftmost, e, m) && Fresh(left.leftmost, e, key, ptr)
    ensures right.keys != left.keys && right.ptrs != left.ptrs && right != left
    ensures |e[..m]| == m && |e[Start(left.leftmost, m)..]| < |e|
  {
  }

  /** The entries of the two pages after a split. */
  function SplitParts(leftmost: Ptr, e: seq<Entry>, m: nat, key: Key, ptr: Ptr): (seq<Entry>, seq<Entry>)
    requires m < |e| && Start(leftmost, m) <= |e|
  {
    var l, r := e[..m], e[Start(leftmost, m)..];
    if key < e[m].key then (Inserted(l, key, ptr), r) else (l, Inserted(r, key, ptr))
  }

  lemma PartSizes(leftmost: Ptr, e: seq<Entry>, m: nat, key: Key, ptr: Ptr)
    requires m < |e| && Start(leftmost, m) <= |e|
    ensures var parts := SplitParts(leftmost, e, m, key, ptr);
            var moved := |e| - Start(leftmost, m);
            if key < e[m].key then |parts.0| == m + 1 && |parts.1| == moved else |parts.0| == m && |parts.1| == moved + 1
  {
    hide InsertPos;
  }

  /** Where the entries are once the split is over. */
  ghost predicate Divided(left: Page, right: Page, e: seq<Entry>, m: nat, key: Key, ptr: Ptr)
    reads left`leftmost, left.keys, left.ptrs, right`leftmost, right.keys, right.ptrs
  {
    && 0 < m < |e| && Start(left.leftmost, m) < |e| && right.leftmost == Rightmost(left.leftmost, e, m)
    && var parts := SplitParts(left.leftmost, e, m, key, ptr);
       left.Holds(parts.0) && right.Holds(parts.1)
  }

  lemma DividedIntro(left: Page, right: Page, e: seq<Entry>, m: nat, key: Key, ptr: Ptr)
    requires 0 < m < |e| && Start(left.leftmost, m) < |e| && right.leftmost == Rightmost(left.leftmost, e, m)
    requires key < e[m].key ==> left.Holds(Inserted(e[..m], key, ptr)) && right.Holds(e[Start(left.leftmost, m)..])
    requires key >= e[m].key ==> left.Holds(e[..m]) && right.Holds(Inserted(e[Start(left.leftmost, m)..], key, ptr))
    ensures Divided(left, right, e, m, key, ptr)
  {
    hide Page.Holds;
  }

  method StoreLeft(left: Page, right: Page, m: nat, key: Key, ptr: Ptr, ghost e: seq<Entry>) returns (ghost frames: seq<Frame>)
    requires CutAndLinked(left, right, e, m, key, ptr) && key < e[m].key
    modifies left.keys, left.ptrs, left`counter, left`lastIndex
    ensures Divided(left, right, e, m, key, ptr) && left.counter == Forward(old(left.counter)) && left.lastIndex == m
    ensures Settles(frames, e, m, key, ptr)
  {
    ghost var w, shots;
    ghost var l, r, lm := left.Now(), right.Now(), left.leftmost;
    CutGives(left, right, e, m, key, ptr);
    hide *;
    NewFits(lm, e, m, key, ptr);
    var n;
    n, w, shots := left.InsertKey(key, ptr, m, e[..m]);
    LeftFrames(l, r, lm, e, m, w, shots);
    frames := LeftStates(shots, lm, r, Rightmost(lm, e, m));
    DividedIntro(left, right, e, m, key, ptr);
  }

  method StoreRight(left: Page, right: Page, ghost m: nat, count: nat, key: Key, ptr: Ptr, ghost e: seq<Entry>) returns (ghost frames: seq<Frame>)
    requires CutAndLinked(left, right, e, m, key, ptr) && key > e[m].key && count == |e| - Start(left.leftmost, m)
    modifies right.keys, right.ptrs, right`counter, right`lastIndex
    ensures Divided(left, right, e, m, key, ptr) && right.counter == Forward(old(right.counter)) && right.lastIndex == count
    ensures Settles(frames, e, m, key, ptr)
  {
    ghost var w, shots;
    ghost var l, r, lm := left.Now(), right.Now(), left.leftmost;
    CutGives(left, right, e, m, key, ptr);
    ghost var h := Start(lm, m);
    assert |e[h..]| == count;
    hide *;
    NewFits(lm, e, m, key, ptr);
    var n;
    n, w, shots := right.InsertKey(key, ptr, count, e[h..]);
    RightFrames(l, r, lm, e, m, w, shots);
    frames := RightStates(l, lm, shots, w.leftmost);
    DividedIntro(left, right, e, m, key, ptr);
  }

  lemma NewFits(leftmost: Ptr, e: seq<Entry>, m: nat, key: Key, ptr: Ptr)
    requires Fresh(leftmost, e, key, ptr) && 0 < m && Start(leftmost, m) < |e|
    ensures key != e[m].key && m < |e| && m <= Start(leftmost, m) <= m + 1
    ensures key < e[m].key ==> Proper(leftmost, Inserted(e[..m], key, ptr))
    ensures key > e[m].key ==> Proper(Rightmost(leftmost, e, m), Inserted(e[Start(leftmost, m)..], key, ptr))
    ensures MovedTo(e, m, key) == if key < e[m].key then m + 1 else m
  {
    var h := Start(leftmost, m);
    var e' := Inserted(e, key, ptr);
    if key < e[m].key {
      PartsLeft(e, m, h, key, ptr);
      ProperPart(leftmost, e', 0, m + 1);
      assert e'[0..m + 1] == e'[..m + 1];
    } else {
      PartsRight(e, m, h, key, ptr);
      ProperPart(leftmost, e', h, |e'|);
      assert e'[h..|e'|] == e'[h..];
    }
  }

  /** Everything before the last insertion. */
  method CutPage(left: Page, key: Key, ptr: Ptr, ghost e: seq<Entry>)
    returns (right: Page, splitKey: Key, m: nat, count: nat, ghost trace: seq<Frame>)
    requires MaySplit(left, key, ptr, e) && left.lastIndex == |e| - 1
    modifies left.ptrs, left`counter, left`lastIndex
    ensures fresh(right) && fresh(right.keys) && fresh(right.ptrs)
    ensures CutAndLinked(left, right, e, m, key, ptr) && m == |e| / 2 && splitKey == e[m].key
    ensures count == |e| - Start(left.leftmost, m)
    ensures Bumped(old(left.counter), left.counter)
    ensures Forward(left.counter) == left.counter && right.counter == 0
    ensures left.lastIndex == m - 1 && right.lastIndex == count - 1
    ensures SplitTrace(trace, e, Inserted(e, key, ptr), m, MovedTo(e, m, key)) && trace != []
    ensures trace[0].left == old(left.Now()) && !trace[0].linked
  {
    SplitReady(left, key, ptr, e);
    hide *;
    left.HoldsFilled(e);
    var numEntries := left.Count(e);
    left.SlotsAre(e);
    m := numEntries / 2;
    splitKey := left.keys[m];
    ghost var whole := left.Now();
    FreshGives(left.leftmost, e, key, ptr, m);
    HoldsRep(left, e);
    right, count := BuildSibling(left, m, numEntries, e);
    ghost var built := right.Now();
    HoldsRep(right, e[Start(left.leftmost, m)..]);
    BumpIs(left.counter);
    CutAt(left, m, e);
    ghost var cut := left.Now();
    HoldsRep(left, e[..m]);
    SplitStart(left.leftmost, whole, cut, built, e, m, key, ptr);
    CutIntro(left, right, e, m, key, ptr);
    trace := BeforeStore(left.leftmost, whole, cut, built, e, m);
    BeforeStoreFirst(left.leftmost, whole, cut, built, e, m);
  }

  lemma SplitReady(left: Page, key: Key, ptr: Ptr, e: seq<Entry>)
    requires MaySplit(left, key, ptr, e)
    ensures left.Holds(e) && 3 <= |e| < left.cardinality && Fresh(left.leftmost, e, key, ptr) && SortedFrom(e, 0)
  {
  }

  lemma HoldsRep(page: Page, e: seq<Entry>)
    requires page.Holds(e)
    ensures Rep(page.Now(), page.leftmost, e, NONE)
  {
  }

  lemma BeforeStoreFirst(leftmost: Ptr, whole: Shot, cut: Shot, built: Shot, e: seq<Entry>, m: nat)
    requires m < |e|
    ensures var b := BeforeStore(leftmost, whole, cut, built, e, m); b != [] && b[0].left == whole && !b[0].linked
  {
  }

  lemma CutIntro(left: Page, right: Page, e: seq<Entry>, m: nat, key: Key, ptr: Ptr)
    requires 0 < m && Start(left.leftmost, m) < |e| && m < |e| < left.cardinality == right.cardinality
    requires left.Holds(e[..m]) && right.Holds(e[Start(left.leftmost, m)..]) && right.leftmost == Rightmost(left.leftmost, e, m)
    requires Halved(left.Now(), right.Now(), left.leftmost, e, m) && Fresh(left.leftmost, e, key, ptr)
    requires right.keys != left.keys && right.ptrs != left.ptrs && right != left
    ensures CutAndLinked(left, right, e, m, key, ptr)
  {
    hide Page.Holds, Halved, Fresh;
  }

  lemma NewKey(left: Page, right: Page, e: seq<Entry>, m: nat, key: Key, ptr: Ptr)
    requires CutAndLinked(left, right, e, m, key, ptr)
    ensures m < |e| && key != e[m].key
  {
  }

  /** The last step: the new key goes into the page that covers it. */
  method StoreNew(left: Page, right: Page, m: nat, count: nat, splitKey: Key, key: Key, ptr: Ptr, ghost e: seq<Entry>) returns (ghost frames: seq<Frame>)
    requires CutAndLinked(left, right, e, m, key, ptr) && splitKey == e[m].key && count == |e| - Start(left.leftmost, m)
    requires Forward(left.counter) == left.counter && Forward(right.counter) == right.counter
    requires left.lastIndex == m - 1 && right.lastIndex == count - 1
    modifies left.keys, left.ptrs, left`counter, left`lastIndex, right.keys, right.ptrs, right`counter, right`lastIndex
    ensures Divided(left, right, e, m, key, ptr) && Settles(frames, e, m, key, ptr)
    ensures left.counter == old(left.counter) && right.counter == old(right.counter)
    ensures if key < splitKey then left.lastIndex == m && right.lastIndex == count - 1
            else left.lastIndex == m - 1 && right.lastIndex == count
  {
    NewKey(left, right, e, m, key, ptr);
    hide *;
    if key < splitKey {
      frames := StoreLeft(left, right, m, key, ptr, e);
    } else {
      frames := StoreRight(left, right, m, count, key, ptr, e);
    }
  }

  /** The overflow branch of store: between any two of its stores a search reads the old entries or the new ones. */
  method SplitPage(left: Page, key: Key, ptr: Ptr, ghost e: seq<Entry>) returns (right: Page, splitKey: Key, ghost m: nat, ghost trace: seq<Frame>)
    requires MaySplit(left, key, ptr, e) && left.lastIndex == |e| - 1
    modifies left.keys, left.ptrs, left`counter, left`lastIndex
    ensures fresh(right) && fresh(right.keys) && fresh(right.ptrs)
    ensures m == |e| / 2 && Divided(left, right, e, m, key, ptr) && splitKey == e[m].key
    ensures Bumped(old(left.counter), left.counter) && right.counter == 0
    ensures var parts := SplitParts(left.leftmost, e, m, key, ptr);
            left.lastIndex == |parts.0| - 1 && right.lastIndex == |parts.1| - 1
    ensures Settles(trace, e, m, key, ptr) && trace != [] && trace[0].left == old(left.Now()) && !trace[0].linked
  {
    hide *;
    var mid, count;
    right, splitKey, mid, count, trace := CutPage(left, key, ptr, e);
    m := mid;
    EvenStays();
    CutGives(left, right, e, m, key, ptr);
    ghost var frames := StoreNew(left, right, mid, count, splitKey, key, ptr, e);
    PartSizes(left.leftmost, e, m, key, ptr);
    SettlesGive(frames, e, m, key, ptr);
    TraceJoin(trace, frames, e, m, key, ptr);
    trace := trace + frames;
  }

  lemma SettlesGive(frames: seq<Frame>, e: seq<Entry>, m: nat, key: Key, ptr: Ptr)
    requires Settles(frames, e, m, key, ptr)
    ensures 0 < m < |e| && 0 < MovedTo(e, m, key) < |Inserted(e, key, ptr)| && frames != []
    ensures SplitTrace(frames, e, Inserted(e, key, ptr), m, MovedTo(e, m, key))
    ensures ReadsAs(frames[|frames| - 1], Inserted(e, key, ptr), MovedTo(e, m, key))
  {
  }

  /** A split, and then the number of entries that count finds from last_index on both pages. */
  method SplitAndCount(left: Page, key: Key, ptr: Ptr, ghost e: seq<Entry>) returns (right: Page, l: nat, r: nat)
    requires MaySplit(left, key, ptr, e) && left.lastIndex == |e| - 1
    modifies left.keys, left.ptrs, left`counter, left`lastIndex
    ensures Divided(left, right, e, |e| / 2, key, ptr)
    ensures l + r == |e| + (if left.leftmost == Null then 1 else 0)
    ensures l == |e| / 2 + (if key < e[|e| / 2].key then 1 else 0)
    ensures left.counter % 2 == 0 && left.counter != old(left.counter)
    ensures left.counter == (old(left.counter) + 2 - old(left.counter) % 2) % 256
  {
    hide *;
    var splitKey;
    ghost var m, trace;
    ghost var c := left.counter;
    right, splitKey, m, trace := SplitPage(left, key, ptr, e);
    DividedGives(left, right, e, m, key, ptr);
    ghost var parts := SplitParts(left.leftmost, e, m, key, ptr);
    left.HoldsFilled(parts.0);
    l := left.Count(parts.0);
    right.HoldsFilled(parts.1);
    r := right.Count(parts.1);
    BumpedGives(c, left.counter);
  }

  lemma BumpedGives(before: nat, after: nat)
    requires Bumped(before, after)
    ensures after % 2 == 0 && after != before && after == (before + 2 - before % 2) % 256
  {
  }

  lemma DividedGives(left: Page, right: Page, e: seq<Entry>, m: nat, key: Key, ptr: Ptr)
    requires Divided(left, right, e, m, key, ptr) && m == |e| / 2
    ensures m < |e| && Start(left.leftmost, m) <= |e|
    ensures var parts := SplitParts(left.leftmost, e, m, key, ptr);
            left.Holds(parts.0) && right.Holds(parts.1)
            && |parts.0| + |parts.1| == |e| + (if left.leftmost == Null then 1 else 0)
            && |parts.0| == m + (if key < e[m].key then 1 else 0)
  {
    hide Page.Holds, InsertPos;
  }
}
