/**
One page of the FAST-FAIR tree as it lies in memory (class page of obj/btree.h): two slot arrays that
are shifted one word at a time while readers scan them.  Each operation records the slots after
every store it makes, so that a contract can speak of the states a reader may catch.
*/
module Page {
  import opened PageData

  /** The slots at one moment. */
  datatype Shot = Shot(keys: seq<Key>, ptrs: seq<Ptr>)

  const NONE: int := -1

  // ----- what a reader sees -----

  /** The visible slots from i on, up to the first NULL pointer. */
  function ViewFrom(s: Shot, i: nat): seq<Entry>
    requires 0 < i && |s.keys| == |s.ptrs|
    decreases |s.ptrs| - i
  {
    if i >= |s.ptrs| || s.ptrs[i] == Null then []
    else (if s.ptrs[i] != s.ptrs[i - 1] then [Entry(s.keys[i], s.ptrs[i])] else []) + ViewFrom(s, i + 1)
  }

  /** Slot 0 is compared with the leftmost pointer; the scan never stops there. */
  function View(s: Shot, leftmost: Ptr): seq<Entry>
    requires |s.keys| == |s.ptrs| > 0
  {
    (if s.ptrs[0] != leftmost && s.ptrs[0] != Null then [Entry(s.keys[0], s.ptrs[0])] else []) + ViewFrom(s, 1)
  }

  /** The slot of the x-th entry when slot g repeats its left neighbour's pointer. */
  function Slot(g: int, x: nat): nat
  {
    if 0 <= g <= x then x + 1 else x
  }

  /** The slots hold e, but for one slot g that repeats the pointer on its left (or NONE). */
  ghost predicate Rep(s: Shot, leftmost: Ptr, e: seq<Entry>, g: int)
  {
    && |s.keys| == |s.ptrs| >= 2
    && NONE <= g <= |e|
    && Slot(g, |e|) < |s.ptrs| && s.ptrs[Slot(g, |e|)] == Null
    && (forall x :: 0 <= x < |e| ==> s.keys[Slot(g, x)] == e[x].key && s.ptrs[Slot(g, x)] == e[x].ptr)
    && (g > 0 ==> s.ptrs[g] == s.ptrs[g - 1])
    && (g == 0 ==> s.ptrs[0] == leftmost)
    && (g == NONE && e == [] ==> s.ptrs[1] == Null)
  }

  /** Entries whose slots all are visible. */
  ghost predicate Proper(leftmost: Ptr, e: seq<Entry>)
  {
    && (forall x :: 0 <= x < |e| ==> e[x].ptr != Null && e[x].ptr != leftmost)
    && (forall x, y :: 0 <= x < y < |e| ==> e[x].ptr != e[y].ptr)
  }

  lemma {:induction false} ViewFromIs(s: Shot, leftmost: Ptr, e: seq<Entry>, g: int, i: nat)
    requires Rep(s, leftmost, e, g) && Proper(leftmost, e)
    requires 0 < i <= Slot(g, |e|)
    ensures ViewFrom(s, i) == e[if 0 <= g < i then i - 1 else i..]
    decreases |s.ptrs| - i
  {
    var x := if 0 <= g < i then i - 1 else i;
    if i < Slot(g, |e|) {
      ViewFromIs(s, leftmost, e, g, i + 1);
      if i != g {
        assert Slot(g, x) == i && e[x..] == [e[x]] + e[x + 1..];
        assert i - 1 != g ==> Slot(g, x - 1) == i - 1;
        assert i - 1 == g > 0 ==> Slot(g, x - 1) == i - 2;
      }
    }
  }

  /** A page in either condition shows a reader exactly e. */
  lemma RepView(s: Shot, leftmost: Ptr, e: seq<Entry>, g: int)
    requires Rep(s, leftmost, e, g) && Proper(leftmost, e)
    ensures View(s, leftmost) == e
  {
    if Slot(g, |e|) > 0 {
      ViewFromIs(s, leftmost, e, g, 1);
      assert g != 0 ==> Slot(g, 0) == 0;
      assert e == [] || e == [e[0]] + e[1..];
    } else {
      assert e == [];
    }
  }

  /** What ends the loops of readers: a NULL behind the n entries, or one slot further while one is hidden, and
      none before it but in slot 0, which no loop tests. */
  ghost predicate Ends(s: Shot, n: nat)
  {
    exists k :: n <= k <= n + 1 && 0 < k < |s.ptrs| && EndsAt(s, k)
  }

  predicate EndsAt(s: Shot, k: nat)
    requires k < |s.ptrs|
  {
    s.ptrs[k] == Null && forall x :: 0 < x < k ==> s.ptrs[x] != Null
  }

  lemma RepEnds(s: Shot, leftmost: Ptr, e: seq<Entry>, g: int)
    requires Rep(s, leftmost, e, g) && Proper(leftmost, e)
    ensures Ends(s, |e|)
  {
    var k := if e == [] then 1 else Slot(g, |e|);
    forall x | 0 < x < k ensures s.ptrs[x] != Null {
      var y := if x == g then x - 1 else x;
      if y > 0 || g != 0 { assert s.ptrs[Slot(g, if 0 <= g < y then y - 1 else y)] == s.ptrs[y]; }
    }
    assert EndsAt(s, k);
  }

  // ----- insert_key, store by store -----

  /** One call of insert_key: the slots before it, the entry count and the position it picks. */
  datatype Insertion = Insertion(before: Shot, leftmost: Ptr, n: nat, p: nat, key: Key, ptr: Ptr)

  ghost predicate InsertionOk(w: Insertion, e: seq<Entry>)
  {
    && Rep(w.before, w.leftmost, e, NONE)
    && w.n == |e| && w.n + 1 < |w.before.ptrs|
    && w.p == InsertPos(e, w.key)
    && Proper(w.leftmost, Inserted(e, w.key, w.ptr))
  }

  /** The number of stores. */
  function Stores(w: Insertion): nat
    requires w.p <= w.n
  {
    if w.n == 0 then 3 else 2 * (w.n - w.p) + 4
  }

  /** The store that first hides slot x behind its left neighbour. */
  function HideTime(w: Insertion, x: nat): nat
    requires x <= w.n
  {
    2 * (w.n - x) + 2
  }

  function KeyTime(w: Insertion, x: nat): nat
    requires x <= w.n
  {
    if w.n == 0 then 1 else 2 * (w.n - x) + 3
  }

  /** The store that publishes the new entry. */
  function PublishTime(w: Insertion): nat
    requires w.p <= w.n
  {
    if w.n == 0 then 2 else 2 * (w.n - w.p) + 4
  }

  function LeftOf(s: Shot, leftmost: Ptr, x: nat): Ptr
    requires x <= |s.ptrs|
  {
    if x == 0 then leftmost else s.ptrs[x - 1]
  }

  /** The key in slot x after t stores. */
  function KeyAt(w: Insertion, t: nat, x: nat): Key
    requires w.p <= w.n && x < |w.before.keys|
  {
    if w.p <= x <= w.n && t >= KeyTime(w, x) then (if x == w.p then w.key else w.before.keys[x - 1])
    else w.before.keys[x]
  }

  /** The pointer in slot x after t stores. */
  function PtrAt(w: Insertion, t: nat, x: nat): Ptr
    requires w.p <= w.n && x < |w.before.ptrs|
  {
    if x == w.p && t >= PublishTime(w) then w.ptr
    else if w.p <= x <= w.n && w.n > 0 && t >= HideTime(w, x) then LeftOf(w.before, w.leftmost, x)
    else if x == w.n + 1 && w.n > 0 && t >= 1 then Null
    else w.before.ptrs[x]
  }

  ghost predicate IsAt(w: Insertion, t: nat, s: Shot)
    requires w.p <= w.n
  {
    && |s.keys| == |s.ptrs| == |w.before.keys| == |w.before.ptrs|
    && (forall x :: 0 <= x < |s.keys| ==> s.keys[x] == KeyAt(w, t, x))
    && (forall x :: 0 <= x < |s.ptrs| ==> s.ptrs[x] == PtrAt(w, t, x))
  }

  /** The slot that is hidden after t stores. */
  function GapAt(w: Insertion, t: nat): int
  {
    if t < 2 || w.n == 0 then NONE else w.n - (t - 2) / 2
  }

  lemma PlainSlots(s: Shot, leftmost: Ptr, e: seq<Entry>)
    requires Rep(s, leftmost, e, NONE)
    ensures |e| < |s.ptrs| && s.ptrs[|e|] == Null
    ensures forall x :: 0 <= x < |e| ==> s.keys[x] == e[x].key && s.ptrs[x] == e[x].ptr
  {
    assert forall x :: 0 <= x <= |e| ==> Slot(NONE, x) == x;
  }

  /** Before the publishing store the page holds the old entries ... */
  lemma UnpublishedState(w: Insertion, e: seq<Entry>, t: nat, s: Shot)
    requires InsertionOk(w, e) && t < PublishTime(w) && IsAt(w, t, s)
    ensures Rep(s, w.leftmost, e, GapAt(w, t))
  {
    hide Proper, KeyAt, PtrAt, GapAt, Inserted, HideTime, KeyTime, PublishTime, InsertionOk, InsertPos;
    InsertionIs(w, e);
    PlainSlots(w.before, w.leftmost, e);
    GapRange(w, t);
    var g := GapAt(w, t);
    if g != NONE { GapPtr(w, t); }
    forall x | 0 <= x < |e| ensures s.keys[Slot(g, x)] == e[x].key && s.ptrs[Slot(g, x)] == e[x].ptr {
      UnpublishedSlot(w, t, Slot(g, x));
    }
    UnpublishedSlot(w, t, Slot(g, w.n));
    if g > 0 {
      UnpublishedSlot(w, t, g - 1);
    }
    if w.n == 0 {
      UnpublishedSlot(w, t, 0);
      assert s.ptrs[1] == PtrAt(w, t, 1);
      EmptySlot(w, t);
    }
  }

  lemma InsertionIs(w: Insertion, e: seq<Entry>)
    requires InsertionOk(w, e)
    ensures Rep(w.before, w.leftmost, e, NONE) && w.p <= w.n == |e| && w.n + 1 < |w.before.keys| == |w.before.ptrs|
    ensures e == [] ==> w.before.ptrs[1] == Null
  {
    hide Proper, Inserted;
  }

  lemma GapPtr(w: Insertion, t: nat)
    requires w.p <= w.n && t < PublishTime(w) && w.n < |w.before.ptrs| && GapAt(w, t) != NONE
    ensures PtrAt(w, t, GapAt(w, t)) == LeftOf(w.before, w.leftmost, GapAt(w, t))
  {
    GapRange(w, t);
  }

  lemma EmptySlot(w: Insertion, t: nat)
    requires w.n == w.p == 0 && 1 < |w.before.ptrs|
    ensures PtrAt(w, t, 1) == w.before.ptrs[1]
  {
  }

  lemma GapRange(w: Insertion, t: nat)
    requires w.p <= w.n && t < PublishTime(w)
    ensures var g := GapAt(w, t);
            g != NONE ==> w.p <= g <= w.n && w.n > 0 && HideTime(w, g) <= t <= KeyTime(w, g)
    ensures GapAt(w, t) == NONE && w.n > 0 ==> t < 2
  {
  }

  /** A slot left of the gap is as before; a slot right of it has its left neighbour's old entry. */
  lemma UnpublishedSlot(w: Insertion, t: nat, y: nat)
    requires w.p <= w.n && t < PublishTime(w) && w.n + 1 < |w.before.keys| == |w.before.ptrs|
    requires y <= w.n + 1 && y != GapAt(w, t) && w.before.ptrs[w.n] == Null
    requires y == w.n + 1 ==> GapAt(w, t) != NONE
    ensures var from := if 0 <= GapAt(w, t) < y then y - 1 else y;
            PtrAt(w, t, y) == w.before.ptrs[from] && (y <= w.n && w.n > 0 ==> KeyAt(w, t, y) == w.before.keys[from])
  {
    GapRange(w, t);
  }

  /** ... and from it on the new ones. */
  lemma PublishedState(w: Insertion, e: seq<Entry>, t: nat, s: Shot)
    requires InsertionOk(w, e) && t >= PublishTime(w) && IsAt(w, t, s)
    ensures Rep(s, w.leftmost, Inserted(e, w.key, w.ptr), NONE)
  {
    PlainSlots(w.before, w.leftmost, e);
    var e' := Inserted(e, w.key, w.ptr);
    assert |e'| == w.n + 1;
    forall x | 0 <= x < |e'| ensures s.keys[x] == e'[x].key && s.ptrs[x] == e'[x].ptr {
      PublishedSlot(w, e, t, x);
      assert s.keys[x] == KeyAt(w, t, x) && s.ptrs[x] == PtrAt(w, t, x);
    }
    PublishedSlot(w, e, t, w.n + 1);
    assert s.ptrs[w.n + 1] == PtrAt(w, t, w.n + 1);
    hide Proper, KeyAt, PtrAt, Inserted, InsertionOk, IsAt;
    assert forall x :: 0 <= x <= |e'| ==> Slot(NONE, x) == x;
  }

  lemma PublishedSlot(w: Insertion, e: seq<Entry>, t: nat, x: nat)
    requires InsertionOk(w, e) && t >= PublishTime(w) && x <= w.n + 1
    requires |w.before.keys| == |w.before.ptrs|
    ensures x == w.n + 1 ==> PtrAt(w, t, x) == Null
    ensures x <= w.n ==> KeyAt(w, t, x) == Inserted(e, w.key, w.ptr)[x].key && PtrAt(w, t, x) == Inserted(e, w.key, w.ptr)[x].ptr
  {
    PlainSlots(w.before, w.leftmost, e);
    hide Proper;
  }

  lemma InsertedAt(v: seq<Entry>, key: Key, ptr: Ptr)
    ensures var v', p := Inserted(v, key, ptr), InsertPos(v, key);
            |v'| == |v| + 1 && v'[p] == Entry(key, ptr)
            && (forall x :: 0 <= x < p ==> v'[x] == v[x]) && (forall x :: p <= x < |v| ==> v'[x + 1] == v[x])
            && (forall x :: p < x < |v'| ==> v'[x] == v[x - 1])
  {
    hide InsertPos;
  }

  lemma InsertedSorted(v: seq<Entry>, key: Key, ptr: Ptr)
    requires SortedFrom(v, 0) && forall x :: 0 <= x < |v| ==> v[x].key != key
    ensures SortedFrom(Inserted(v, key, ptr), 0)
  {
    InsertedAt(v, key, ptr);
    var v', p := Inserted(v, key, ptr), InsertPos(v, key);
    hide InsertPos, Inserted;
    forall i, j | 0 <= i < j < |v'| ensures v'[i].key < v'[j].key {
      if i < p { assert v'[i] == v[i]; }
      if p < j { assert v'[j] == v[j - 1]; }
      if i < p == j && i < p - 1 { assert v[i].key < v[p - 1].key; }
      if p < i { assert v'[i] == v[i - 1]; }
    }
  }

  /** Every single store of insert_key leaves a page that reads as the old entries or as the new ones, with a
      NULL at their end, and in key order if the old ones were and the key is new. */
  lemma InsertAtomic(w: Insertion, e: seq<Entry>, t: nat, s: Shot)
    requires InsertionOk(w, e) && Proper(w.leftmost, e) && t <= Stores(w) && IsAt(w, t, s)
    ensures View(s, w.leftmost) == if t < PublishTime(w) then e else Inserted(e, w.key, w.ptr)
    ensures Ends(s, |View(s, w.leftmost)|)
    ensures SortedFrom(e, 0) && (forall x :: 0 <= x < |e| ==> e[x].key != w.key) ==> SortedFrom(View(s, w.leftmost), 0)
  {
    if t < PublishTime(w) {
      UnpublishedState(w, e, t, s);
      RepView(s, w.leftmost, e, GapAt(w, t));
      RepEnds(s, w.leftmost, e, GapAt(w, t));
    } else {
      var e' := Inserted(e, w.key, w.ptr);
      PublishedState(w, e, t, s);
      RepView(s, w.leftmost, e', NONE);
      RepEnds(s, w.leftmost, e', NONE);
      if SortedFrom(e, 0) && forall x :: 0 <= x < |e| ==> e[x].key != w.key { InsertedSorted(e, w.key, w.ptr); }
    }
    hide *;
  }

  /** The three kinds of store, at their times. */
  lemma HideStore(w: Insertion, t: nat, s: Shot, x: nat)
    requires w.n > 0 && w.p <= x <= w.n && w.n + 1 < |w.before.ptrs| && IsAt(w, t, s) && t + 1 == HideTime(w, x)
    ensures LeftOf(s, w.leftmost, x) == LeftOf(w.before, w.leftmost, x)
    ensures IsAt(w, t + 1, Shot(s.keys, s.ptrs[x := LeftOf(s, w.leftmost, x)]))
  {
    if x > 0 {
      assert s.ptrs[x - 1] == PtrAt(w, t, x - 1);
    }
    var s' := Shot(s.keys, s.ptrs[x := LeftOf(s, w.leftmost, x)]);
    forall y | 0 <= y < |s'.ptrs| ensures s'.ptrs[y] == PtrAt(w, t + 1, y) && s'.keys[y] == KeyAt(w, t + 1, y) {
      assert s.ptrs[y] == PtrAt(w, t, y) && s.keys[y] == KeyAt(w, t, y);
    }
  }

  lemma KeyStore(w: Insertion, t: nat, s: Shot, x: nat)
    requires w.p <= x <= w.n && w.n + 1 < |w.before.ptrs| && IsAt(w, t, s) && t + 1 == KeyTime(w, x)
    ensures x > w.p ==> s.keys[x - 1] == w.before.keys[x - 1]
    ensures IsAt(w, t + 1, Shot(s.keys[x := if x == w.p then w.key else w.before.keys[x - 1]], s.ptrs))
  {
    if x > w.p {
      assert s.keys[x - 1] == KeyAt(w, t, x - 1);
    }
    var s' := Shot(s.keys[x := if x == w.p then w.key else w.before.keys[x - 1]], s.ptrs);
    forall y | 0 <= y < |s'.ptrs| ensures s'.ptrs[y] == PtrAt(w, t + 1, y) && s'.keys[y] == KeyAt(w, t + 1, y) {
      assert s.ptrs[y] == PtrAt(w, t, y) && s.keys[y] == KeyAt(w, t, y);
    }
  }

  lemma PublishStore(w: Insertion, t: nat, s: Shot)
    requires w.p <= w.n && w.n + 1 < |w.before.ptrs| && IsAt(w, t, s) && t + 1 == PublishTime(w)
    ensures IsAt(w, t + 1, Shot(s.keys, s.ptrs[w.p := w.ptr]))
  {
    var s' := Shot(s.keys, s.ptrs[w.p := w.ptr]);
    forall y | 0 <= y < |s'.ptrs| ensures s'.ptrs[y] == PtrAt(w, t + 1, y) && s'.keys[y] == KeyAt(w, t + 1, y) {
      assert s.ptrs[y] == PtrAt(w, t, y) && s.keys[y] == KeyAt(w, t, y);
    }
  }

  ghost predicate Follows(w: Insertion, trace: seq<Shot>)
    requires w.p <= w.n
  {
    forall t :: 0 <= t < |trace| ==> IsAt(w, t, trace[t])
  }

  // ----- remove_key, store by store -----

  function Removed(e: seq<Entry>, q: nat): seq<Entry>
    requires q < |e|
  {
    e[..q] + e[q + 1..]
  }

  lemma RemovedProper(leftmost: Ptr, e: seq<Entry>, q: nat)
    requires Proper(leftmost, e) && q < |e|
    ensures Proper(leftmost, Removed(e, q))
  {
  }

  /** The first store of remove_key hides the entry; this alone takes it off the page. */
  lemma HideEntry(s: Shot, leftmost: Ptr, e: seq<Entry>, q: nat)
    requires Rep(s, leftmost, e, NONE) && q < |e|
    ensures Rep(Shot(s.keys, s.ptrs[q := LeftOf(s, leftmost, q)]), leftmost, Removed(e, q), q)
  {
    PlainSlots(s, leftmost, e);
  }

  /** The key of a hidden slot does not matter. */
  lemma GapKey(s: Shot, leftmost: Ptr, e: seq<Entry>, g: nat, key: Key)
    requires Rep(s, leftmost, e, g)
    ensures Rep(Shot(s.keys[g := key], s.ptrs), leftmost, e, g)
  {
  }

  /** Copying the right neighbour's pointer moves the hidden slot one to the right, or off the end. */
  lemma GapMoves(s: Shot, leftmost: Ptr, e: seq<Entry>, g: nat)
    requires Rep(s, leftmost, e, g) && g + 1 < |s.ptrs| && s.keys[g] == s.keys[g + 1]
    ensures Rep(Shot(s.keys, s.ptrs[g := s.ptrs[g + 1]]), leftmost, e, if g == |e| then NONE else g + 1)
  {
    var s' := Shot(s.keys, s.ptrs[g := s.ptrs[g + 1]]);
    if g < |e| {
      assert Slot(g, g) == g + 1;
      forall x | 0 <= x < |e| ensures s'.keys[Slot(g + 1, x)] == e[x].key && s'.ptrs[Slot(g + 1, x)] == e[x].ptr {
        assert s.keys[Slot(g, x)] == e[x].key;
      }
    } else {
      forall x | 0 <= x < |e| ensures s'.keys[Slot(NONE, x)] == e[x].key && s'.ptrs[Slot(NONE, x)] == e[x].ptr {
        assert s.keys[Slot(g, x)] == e[x].key;
      }
    }
  }

  /** Readers see e, and then a NULL. */
  ghost predicate Reads(s: Shot, leftmost: Ptr, e: seq<Entry>)
  {
    |s.keys| == |s.ptrs| > 0 && View(s, leftmost) == e && Ends(s, |e|)
  }

  lemma RepReads(s: Shot, leftmost: Ptr, e: seq<Entry>, g: int)
    requires Rep(s, leftmost, e, g) && Proper(leftmost, e)
    ensures Reads(s, leftmost, e)
  {
    RepView(s, leftmost, e, g);
    RepEnds(s, leftmost, e, g);
  }

  lemma RemovedSorted(e: seq<Entry>, q: nat)
    requires q < |e| && SortedFrom(e, 0)
    ensures SortedFrom(Removed(e, q), 0)
  {
  }

  /** The states a removal leaves behind: the old page, then nothing but pages without the entry. */
  ghost predicate RemovalTrace(trace: seq<Shot>, leftmost: Ptr, e: seq<Entry>, q: nat)
    requires q < |e|
  {
    && |trace| > 0 && Reads(trace[0], leftmost, e)
    && forall t :: 0 < t < |trace| ==> Reads(trace[t], leftmost, Removed(e, q))
  }

  lemma RemovalStep(trace: seq<Shot>, leftmost: Ptr, e: seq<Entry>, q: nat, s: Shot, g: int)
    requires q < |e| && RemovalTrace(trace, leftmost, e, q) && Proper(leftmost, e)
    requires Rep(s, leftmost, Removed(e, q), g)
    ensures RemovalTrace(trace + [s], leftmost, e, q)
  {
    RemovedProper(leftmost, e, q);
    RepReads(s, leftmost, Removed(e, q), g);
    hide Reads;
  }

  /** In sorted entries a leaf search finds a key exactly when its slot is visible. */
  lemma {:induction false} KeyAnswersFrom(e: seq<Entry>, x: nat, from: nat)
    requires SortedFrom(e, 0) && from <= x < |e|
    ensures SearchLeaf(e, e[x].key, from) == if Visible(Null, e, x) then e[x].ptr else Null
    decreases |e| - from
  {
    if from < x {
      KeyAnswersFrom(e, x, from + 1);
    } else {
      NoKeyAnswersFrom(e, e[x].key, x + 1);
    }
  }

  lemma {:induction false} NoKeyAnswersFrom(e: seq<Entry>, key: Key, from: nat)
    requires from <= |e| && forall x :: from <= x < |e| ==> e[x].key != key
    ensures SearchLeaf(e, key, from) == Null
    decreases |e| - from
  {
    if from < |e| { NoKeyAnswersFrom(e, key, from + 1); }
  }

  /** A search finds the entry with the key if and only if its pointer differs from its left neighbour's. */
  lemma LeafAnswers(e: seq<Entry>, key: Key)
    requires SortedFrom(e, 0)
    ensures forall x :: 0 <= x < |e| && e[x].key == key ==> SearchLeaf(e, key, 0) == if Visible(Null, e, x) then e[x].ptr else Null
    ensures (forall x :: 0 <= x < |e| ==> e[x].key != key) ==> SearchLeaf(e, key, 0) == Null
  {
    forall x: nat | x < |e| && e[x].key == key ensures SearchLeaf(e, key, 0) == if Visible(Null, e, x) then e[x].ptr else Null {
      KeyAnswersFrom(e, x, 0);
    }
    if forall x :: 0 <= x < |e| ==> e[x].key != key { NoKeyAnswersFrom(e, key, 0); }
  }

  lemma ProperVisible(leftmost: Ptr, e: seq<Entry>)
    requires Proper(leftmost, e)
    ensures forall x :: 0 <= x < |e| ==> Visible(leftmost, e, x)
  {
  }

  /** An entry can be found exactly when its pointer differs from its left neighbour's, or for the first from NULL. */
  lemma EqualPointersHide(e: seq<Entry>, x: nat)
    requires SortedFrom(e, 0) && x < |e| && forall y :: 0 <= y < |e| ==> e[y].ptr != Null
    ensures SearchLeaf(e, e[x].key, 0) == e[x].ptr <==> x == 0 || e[x].ptr != e[x - 1].ptr
    ensures SearchLeaf(e, e[x].key, 0) == e[x].ptr || SearchLeaf(e, e[x].key, 0) == Null
  {
    KeyAnswersFrom(e, x, 0);
  }

  /** Such a page: insert_key puts the same pointer in twice, and the second key is not found. */
  lemma HiddenEntry(key: Key, next: Key, ptr: Ptr)
    requires key < next && ptr != Null
    ensures var e := Inserted([Entry(key, ptr)], next, ptr); |e| == 2 && e[1] == Entry(next, ptr) && SearchLeaf(e, next, 0) == Null
  {
    assert InsertPos([Entry(key, ptr)], next) == 1;
    KeyAnswersFrom(Inserted([Entry(key, ptr)], next, ptr), 1, 0);
  }

  /** An internal search ends left of the first visible slot with a larger key. */
  lemma {:induction false} InternalAnswersFrom(leftmost: Ptr, e: seq<Entry>, key: Key, from: nat, x: nat)
    requires from <= x <= |e|
    requires forall y :: from <= y < x ==> e[y].key <= key || !Visible(leftmost, e, y)
    requires x < |e| ==> key < e[x].key && Visible(leftmost, e, x)
    ensures SearchInternal(leftmost, e, key, from) == if x == 0 then leftmost else e[x - 1].ptr
    decreases |e| - from
  {
    if from < x {
      InternalAnswersFrom(leftmost, e, key, from + 1, x);
    }
  }

  /** From the right it ends at the last visible slot whose key is not larger: behind it come copies of its pointer. */
  lemma {:induction false} FromTheRight(leftmost: Ptr, e: seq<Entry>, key: Key, p: nat)
    requires p <= |e|
    requires forall y :: 0 <= y < p ==> e[y].key <= key || !Visible(leftmost, e, y)
    requires forall y :: p <= y < |e| ==> key < e[y].key || !Visible(leftmost, e, y)
    ensures SearchInternal(leftmost, e, key, 0) == if p == 0 then leftmost else e[p - 1].ptr
    decreases |e| - p
  {
    if p == |e| || Visible(leftmost, e, p) {
      InternalAnswersFrom(leftmost, e, key, 0, p);
    } else {
      FromTheRight(leftmost, e, key, p + 1);
    }
  }

  lemma InternalAnswers(leftmost: Ptr, e: seq<Entry>, key: Key, x: nat)
    requires Proper(leftmost, e) && SortedFrom(e, 0) && x <= |e|
    requires x > 0 ==> e[x - 1].key <= key
    requires x < |e| ==> key < e[x].key
    ensures SearchInternal(leftmost, e, key, 0) == if x == 0 then leftmost else e[x - 1].ptr
  {
    assert forall y :: 0 <= y < x - 1 ==> e[y].key < e[x - 1].key;
    InternalAnswersFrom(leftmost, e, key, 0, x);
  }

  class Page {
    const cardinality: nat
    const keys: array<Key>
    const ptrs: array<Ptr>
    var leftmost: Ptr
    var counter: nat
    var lastIndex: int

    predicate Wf()
    {
      keys.Length == ptrs.Length == cardinality >= 2
    }

    function Now(): Shot
      reads keys, ptrs
    {
      Shot(keys[..], ptrs[..])
    }

    /** The page holds exactly e, left to right. */
    ghost predicate Holds(e: seq<Entry>)
      reads `leftmost, keys, ptrs
    {
      Wf() && Rep(Now(), leftmost, e, NONE) && Proper(leftmost, e)
    }

    /** The page holds exactly e, whose pointers may be those of their left neighbours. */
    ghost predicate Filled(e: seq<Entry>)
      reads `leftmost, keys, ptrs
    {
      Wf() && Rep(Now(), leftmost, e, NONE) && forall x :: 0 <= x < |e| ==> e[x].ptr != Null
    }

    lemma HoldsFilled(e: seq<Entry>)
      requires Holds(e)
      ensures Filled(e)
    {
    }

    constructor (cardinality: nat)
      requires cardinality >= 2
      ensures fresh(keys) && fresh(ptrs) && Holds([]) && leftmost == Null && counter == 0 && lastIndex == -1
      ensures this.cardinality == cardinality
    {
      this.cardinality := cardinality;
      keys := new Key[cardinality](_ => 0);
      ptrs := new Ptr[cardinality](_ => Null);
      leftmost := Null;
      counter := 0;
      lastIndex := -1;
    }

    /** t stores of the insertion are done and recorded. */
    ghost predicate Done(w: Insertion, trace: seq<Shot>, t: nat)
      requires w.p <= w.n
      reads keys, ptrs
    {
      |trace| == t + 1 && Follows(w, trace) && trace[t] == Now()
    }

    /** One turn of the shifting loop: slot x takes the entry on its left. */
    method ShiftSlot(x: nat, ghost w: Insertion, ghost trace: seq<Shot>) returns (ghost trace': seq<Shot>)
      requires Wf() && w.p < x <= w.n && w.n + 1 < |w.before.ptrs| && |w.before.ptrs| == cardinality
      requires Done(w, trace, HideTime(w, x) - 1)
      modifies keys, ptrs
      ensures Done(w, trace', KeyTime(w, x))
    {
      ghost var t: nat := HideTime(w, x) - 1;
      assert IsAt(w, t, trace[t]);
      hide IsAt, KeyAt, PtrAt;
      HideStore(w, t, trace[t], x);
      KeyStore(w, t + 1, Shot(trace[t].keys, trace[t].ptrs[x := LeftOf(trace[t], w.leftmost, x)]), x);
      ptrs[x] := ptrs[x - 1];
      trace' := trace + [Now()];
      keys[x] := keys[x - 1];
      trace' := trace' + [Now()];
    }

    /** The last three stores: hide slot p, write the key, publish the pointer. */
    method Place(p: nat, key: Key, ptr: Ptr, ghost w: Insertion, ghost trace: seq<Shot>) returns (ghost trace': seq<Shot>)
      requires Wf() && w.n > 0 && w.p == p <= w.n && w.n + 1 < |w.before.ptrs| && |w.before.ptrs| == cardinality
      requires w.key == key && w.ptr == ptr && w.leftmost == leftmost
      requires Done(w, trace, HideTime(w, p) - 1)
      modifies keys, ptrs
      ensures Done(w, trace', PublishTime(w))
    {
      ghost var t: nat := HideTime(w, p) - 1;
      assert IsAt(w, t, trace[t]);
      hide IsAt, KeyAt, PtrAt;
      HideStore(w, t, trace[t], p);
      ghost var s1 := Shot(trace[t].keys, trace[t].ptrs[p := LeftOf(trace[t], leftmost, p)]);
      KeyStore(w, t + 1, s1, p);
      PublishStore(w, t + 2, Shot(s1.keys[p := key], s1.ptrs));
      ptrs[p] := if p == 0 then leftmost else ptrs[p - 1];
      trace' := trace + [Now()];
      keys[p] := key;
      trace' := trace' + [Now()];
      ptrs[p] := ptr;
      trace' := trace' + [Now()];
    }

    /** insert_key: shifts the larger entries right and publishes the new one with its last pointer store. */
    method InsertKey(key: Key, ptr: Ptr, numEntries: nat, ghost e: seq<Entry>)
      returns (count: nat, ghost w: Insertion, ghost trace: seq<Shot>)
      requires Holds(e) && numEntries == |e| < cardinality - 1
      requires Proper(leftmost, Inserted(e, key, ptr))
      modifies keys, ptrs, this`counter, this`lastIndex
      ensures Holds(Inserted(e, key, ptr)) && count == numEntries + 1
      ensures counter == Forward(old(counter)) && TurnedForward(old(counter), counter)
      ensures lastIndex == numEntries
      ensures w == Insertion(old(Now()), leftmost, |e|, InsertPos(e, key), key, ptr) && InsertionOk(w, e)
      ensures |trace| == Stores(w) + 1 && Follows(w, trace) && trace[Stores(w)] == Now()
    {
      w := Insertion(Now(), leftmost, |e|, InsertPos(e, key), key, ptr);
      StartInsert(w, e);
      hide *;
      ForwardIs(counter);
      counter := Forward(counter);
      trace := InsertSlots(key, ptr, numEntries, w);
      lastIndex, count := numEntries, numEntries + 1;
      FinishInsert(w, e, trace);
    }

    /** The slots are about to go through insertion w. */
    ghost predicate Ready(w: Insertion)
      reads `leftmost, keys, ptrs
    {
      && Wf() && w.n < cardinality - 1 && w.p <= w.n
      && w.before == Now() && w.leftmost == leftmost
      && ptrs[w.n] == Null && (w.n == 0 ==> ptrs[1] == Null)
      && (forall x :: w.p <= x < w.n ==> w.key < keys[x])
      && (w.p > 0 ==> keys[w.p - 1] <= w.key)
    }

    lemma StartInsert(w: Insertion, e: seq<Entry>)
      requires Holds(e) && |e| < cardinality - 1 && Proper(leftmost, Inserted(e, w.key, w.ptr))
      requires w == Insertion(Now(), leftmost, |e|, InsertPos(e, w.key), w.key, w.ptr)
      ensures InsertionOk(w, e) && Ready(w)
    {
      PlainSlots(w.before, w.leftmost, e);
    }

    lemma FinishInsert(w: Insertion, e: seq<Entry>, trace: seq<Shot>)
      requires InsertionOk(w, e) && Done(w, trace, Stores(w)) && leftmost == w.leftmost && Wf()
      ensures Holds(Inserted(e, w.key, w.ptr))
      ensures |trace| == Stores(w) + 1 && Follows(w, trace) && trace[Stores(w)] == Now()
    {
      assert IsAt(w, Stores(w), trace[Stores(w)]);
      PublishedState(w, e, Stores(w), Now());
    }

    /** The first store: the NULL at the end is doubled. */
    method Lengthen(numEntries: nat, ghost w: Insertion) returns (ghost trace: seq<Shot>)
      requires Ready(w) && w.n == numEntries > 0
      modifies ptrs
      ensures Done(w, trace, 1)
    {
      trace := [Now()];
      ptrs[numEntries + 1] := ptrs[numEntries];
      trace := trace + [Now()];
    }

    /** The slot stores of insert_key, on an empty page or by the loop from right to left. */
    method InsertSlots(key: Key, ptr: Ptr, numEntries: nat, ghost w: Insertion) returns (ghost trace: seq<Shot>)
      requires Ready(w) && w.n == numEntries && w.key == key && w.ptr == ptr
      modifies keys, ptrs
      ensures Done(w, trace, Stores(w))
    {
      if numEntries == 0 {
        trace := InsertFirst(key, ptr, w);
        return;
      }
      hide IsAt, Follows, Done;
      trace := Lengthen(numEntries, w);
      var i: int := numEntries - 1;
      var inserted := false;
      while i >= 0 && !inserted
        invariant w.p - 1 <= i < numEntries
        invariant if inserted then i + 1 == w.p && Done(w, trace, Stores(w)) else Done(w, trace, HideTime(w, i + 1) - 1)
        decreases i + 1, !inserted
      {
        KeyUntouched(w, trace, i);
        if key < keys[i] {
          trace := ShiftSlot(i + 1, w, trace);
          i := i - 1;
        } else {
          trace := Place(i + 1, key, ptr, w, trace);
          inserted := true;
        }
      }
      if !inserted {
        trace := Place(0, key, ptr, w, trace);
      }
    }

    lemma KeyUntouched(w: Insertion, trace: seq<Shot>, i: nat)
      requires Wf() && w.p <= i + 1 && i < w.n && w.n + 1 < |w.before.ptrs| == |w.before.keys|
      requires Done(w, trace, HideTime(w, i + 1) - 1)
      ensures keys.Length > i && keys[i] == w.before.keys[i]
    {
      var t: nat := HideTime(w, i + 1) - 1;
      assert IsAt(w, t, trace[t]);
      assert trace[t].keys[i] == KeyAt(w, t, i);
    }

    /** insert_key on an empty page. */
    method InsertFirst(key: Key, ptr: Ptr, ghost w: Insertion) returns (ghost trace: seq<Shot>)
      requires Wf() && w == Insertion(Now(), leftmost, 0, 0, key, ptr) && ptrs[1] == Null
      modifies keys, ptrs
      ensures Done(w, trace, Stores(w))
    {
      KeyStore(w, 0, Now(), 0);
      PublishStore(w, 1, Shot(w.before.keys[0 := key], w.before.ptrs));
      trace := [Now()];
      keys[0] := key;
      trace := trace + [Now()];
      ptrs[0] := ptr;
      trace := trace + [Now()];
      ptrs[1] := Null;
      trace := trace + [Now()];
    }

    /** Take the entry out of slot i and close the gap by one slot. */
    method CloseGap(i: nat, ghost e: seq<Entry>, ghost q: nat, ghost trace: seq<Shot>) returns (ghost trace': seq<Shot>)
      requires Wf() && q <= i < |e| < cardinality && Proper(leftmost, e) && ptrs[|e|] == Null
      requires RemovalTrace(trace, leftmost, e, q) && Rep(Now(), leftmost, Removed(e, q), i)
      modifies keys, ptrs
      ensures RemovalTrace(trace', leftmost, e, q) && |trace'| == |trace| + 2
      ensures trace'[0] == trace[0] && trace'[|trace'| - 1] == Now()
      ensures Rep(Now(), leftmost, Removed(e, q), if i + 1 == |e| then NONE else i + 1) && ptrs[|e|] == Null
    {
      ghost var s := Now();
      GapKey(s, leftmost, Removed(e, q), i, keys[i + 1]);
      ghost var s1 := Shot(s.keys[i := s.keys[i + 1]], s.ptrs);
      GapMoves(s1, leftmost, Removed(e, q), i);
      keys[i] := keys[i + 1];
      assert Now() == s1;
      RemovalStep(trace, leftmost, e, q, s1, i);
      trace' := trace + [Now()];
      ptrs[i] := ptrs[i + 1];
      ghost var s2 := Shot(s1.keys, s1.ptrs[i := s1.ptrs[i + 1]]);
      assert Now() == s2;
      RemovalStep(trace', leftmost, e, q, s2, if i + 1 == |e| then NONE else i + 1);
      trace' := trace' + [Now()];
    }

    /** Hide the entry in slot i behind its left neighbour. */
    method HideSlot(i: nat, ghost e: seq<Entry>) returns (ghost trace: seq<Shot>)
      requires Holds(e) && i < |e|
      modifies ptrs
      ensures RemovalTrace(trace, leftmost, e, i) && |trace| == 2 && trace[0] == old(Now()) && trace[1] == Now()
      ensures Rep(Now(), leftmost, Removed(e, i), i) && ptrs[|e|] == Null
    {
      PlainSlots(Now(), leftmost, e);
      HideEntry(Now(), leftmost, e, i);
      ghost var s := Now();
      RepReads(s, leftmost, e, NONE);
      ptrs[i] := if i == 0 then leftmost else ptrs[i - 1];
      assert Now() == Shot(s.keys, s.ptrs[i := LeftOf(s, leftmost, i)]);
      trace := [s];
      RemovalStep(trace, leftmost, e, i, Now(), i);
      trace := trace + [Now()];
    }

    /** Slots 0..i are searched or shifted: the loop of remove_key at its head. */
    ghost predicate Removing(e: seq<Entry>, key: Key, i: nat, shift: bool, q: nat, trace: seq<Shot>, start: Shot)
      reads `leftmost, keys, ptrs
    {
      && Wf() && i <= |e| < cardinality && Proper(leftmost, e) && ptrs[|e|] == Null
      && |trace| > 0 && trace[0] == start && trace[|trace| - 1] == Now()
      && if shift then
           && q < i && e[q].key == key && |trace| == 2 * (i - q) + 2 && RemovalTrace(trace, leftmost, e, q)
           && Rep(Now(), leftmost, Removed(e, q), if i == |e| then NONE else i)
         else
           && Rep(Now(), leftmost, e, NONE) && |trace| == 1 && forall x :: 0 <= x < i ==> e[x].key != key
    }

    /** The loop of remove_key stops exactly at the end of the entries. */
    lemma SlotTaken(e: seq<Entry>, key: Key, i: nat, shift: bool, q: nat, trace: seq<Shot>, start: Shot)
      requires Removing(e, key, i, shift, q, trace, start)
      ensures i < ptrs.Length && (ptrs[i] != Null <==> i < |e|)
      ensures !shift && i < |e| ==> keys[i] == e[i].key
    {
      if i < |e| {
        if shift {
          assert Slot(i, i - 1) == i - 1 && Now().ptrs[i - 1] == Removed(e, q)[i - 1].ptr;
          RemovedProper(leftmost, e, q);
        } else {
          PlainSlots(Now(), leftmost, e);
          assert Now().ptrs[i] == e[i].ptr && Now().keys[i] == e[i].key;
        }
      }
    }

    lemma RemoveDone(e: seq<Entry>, key: Key, i: nat, shift: bool, q: nat, trace: seq<Shot>, start: Shot)
      requires Removing(e, key, i, shift, q, trace, start) && i == |e|
      ensures shift ==> q < |e| && e[q].key == key && Holds(Removed(e, q)) && |trace| == 2 * (|e| - q) + 2
      ensures shift ==> RemovalTrace(trace, leftmost, e, q)
      ensures !shift ==> trace == [start] && Now() == start && forall x :: 0 <= x < |e| ==> e[x].key != key
    {
      if shift {
        RemovedProper(leftmost, e, q);
      }
    }

    /** One turn of the loop. */
    method RemoveTurn(key: Key, i: nat, shift: bool, ghost q: nat, ghost e: seq<Entry>, ghost trace: seq<Shot>, ghost start: Shot)
      returns (shift': bool, ghost q': nat, ghost trace': seq<Shot>)
      requires Removing(e, key, i, shift, q, trace, start) && i < |e|
      modifies keys, ptrs
      ensures Removing(e, key, i + 1, shift', q', trace', start)
    {
      hide *;
      SlotTaken(e, key, i, shift, q, trace, start);
      RemovingGives(e, key, i, shift, q, trace, start);
      shift', q', trace' := shift, q, trace;
      if !shift && keys[i] == key {
        trace' := HideSlot(i, e);
        shift', q' := true, i;
      }
      if shift' {
        trace' := CloseGap(i, e, q', trace');
        GapClosed(e, key, i, q', trace', start);
      } else {
        NotFoundYet(e, key, i, q, trace, start);
      }
    }

    lemma RemovingGives(e: seq<Entry>, key: Key, i: nat, shift: bool, q: nat, trace: seq<Shot>, start: Shot)
      requires Removing(e, key, i, shift, q, trace, start) && i < |e|
      ensures Wf() && keys.Length == ptrs.Length == cardinality > |e| && Proper(leftmost, e) && ptrs[|e|] == Null
      ensures |trace| > 0 && trace[0] == start && trace[|trace| - 1] == Now()
      ensures shift ==> q < i && e[q].key == key && |trace| == 2 * (i - q) + 2 && RemovalTrace(trace, leftmost, e, q)
      ensures shift ==> Rep(Now(), leftmost, Removed(e, q), i)
      ensures !shift ==> Holds(e) && |trace| == 1 && forall x :: 0 <= x < i ==> e[x].key != key
    {
      hide Rep, Proper, RemovalTrace;
    }

    lemma GapClosed(e: seq<Entry>, key: Key, i: nat, q: nat, trace: seq<Shot>, start: Shot)
      requires Wf() && q <= i < |e| < cardinality && Proper(leftmost, e) && ptrs[|e|] == Null && e[q].key == key
      requires |trace| == 2 * (i + 1 - q) + 2 && trace[0] == start && trace[|trace| - 1] == Now() && RemovalTrace(trace, leftmost, e, q)
      requires Rep(Now(), leftmost, Removed(e, q), if i + 1 == |e| then NONE else i + 1)
      ensures Removing(e, key, i + 1, true, q, trace, start)
    {
      hide Rep, Proper, RemovalTrace;
    }

    lemma NotFoundYet(e: seq<Entry>, key: Key, i: nat, q: nat, trace: seq<Shot>, start: Shot)
      requires Removing(e, key, i, false, q, trace, start) && i < |e| && e[i].key != key
      ensures Removing(e, key, i + 1, false, q, trace, start)
    {
      hide Rep, Proper, RemovalTrace;
    }

    /** The loop of remove_key. */
    method RemoveSlots(key: Key, ghost e: seq<Entry>) returns (shift: bool, ghost q: nat, ghost trace: seq<Shot>)
      requires Holds(e)
      modifies keys, ptrs
      ensures shift ==> q < |e| && e[q].key == key && Holds(Removed(e, q)) && |trace| == 2 * (|e| - q) + 2
      ensures shift ==> RemovalTrace(trace, leftmost, e, q)
      ensures !shift ==> Now() == old(Now()) && forall x :: 0 <= x < |e| ==> e[x].key != key
      ensures |trace| > 0 && trace[0] == old(Now()) && trace[|trace| - 1] == Now()
    {
      ghost var start := Now();
      shift, q, trace := false, 0, [start];
      PlainSlots(start, leftmost, e);
      var i := 0;
      assert Removing(e, key, i, shift, q, trace, start);
      hide *;
      SlotTaken(e, key, i, shift, q, trace, start);
      while ptrs[i] != Null
        invariant Removing(e, key, i, shift, q, trace, start)
        invariant i < ptrs.Length && (ptrs[i] != Null <==> i < |e|) && i <= |e|
        decreases |e| - i
      {
        shift, q, trace := RemoveTurn(key, i, shift, q, e, trace, start);
        i := i + 1;
        SlotTaken(e, key, i, shift, q, trace, start);
      }
      RemoveDone(e, key, i, shift, q, trace, start);
    }

    /** remove_key: readers lose the entry with the first store and see no other change. */
    method RemoveKey(key: Key, ghost e: seq<Entry>) returns (shift: bool, ghost q: nat, ghost trace: seq<Shot>)
      requires Holds(e)
      modifies keys, ptrs, this`counter, this`lastIndex
      ensures counter == Backward(old(counter)) && TurnedBackward(old(counter), counter)
      ensures shift ==> q < |e| && e[q].key == key && Holds(Removed(e, q)) && lastIndex == old(lastIndex) - 1
      ensures shift ==> RemovalTrace(trace, leftmost, e, q) && |trace| == 2 * (|e| - q) + 2
      ensures shift && SortedFrom(e, 0) ==> SortedFrom(Removed(e, q), 0)
      ensures !shift ==> forall x :: 0 <= x < |e| ==> e[x].key != key
      ensures !shift ==> Now() == old(Now()) && lastIndex == old(lastIndex)
      ensures |trace| > 0 && trace[0] == old(Now()) && trace[|trace| - 1] == Now()
    {
      hide *;
      BackwardIs(counter);
      counter := Backward(counter);
      shift, q, trace := RemoveSlots(key, e);
      if shift {
        lastIndex := lastIndex - 1;
        if SortedFrom(e, 0) { RemovedSorted(e, q); }
      }
    }

    /** count: the scan starts from the last_index hint, in the direction of the counter. */
    method Count(ghost e: seq<Entry>) returns (count: nat)
      requires Filled(e) && -1 <= lastIndex < |e|
      ensures count == |e|
    {
      SlotsFilled(e);
      var c := lastIndex + 1;
      while c >= 0 && ptrs[c] != Null
        invariant -1 <= c <= |e| && (counter % 2 == 0 ==> c >= 0)
        decreases if counter % 2 == 0 then |e| - c else c + 1
      {
        c := if counter % 2 == 0 then c + 1 else c - 1;
      }
      if c < 0 {
        c := 0;
        while ptrs[c] != Null
          invariant 0 <= c <= |e|
          decreases |e| - c
        {
          c := c + 1;
        }
      }
      count := c;
    }

    /** The leaf branch of linear_search, in the direction of the counter. */
    method SearchLeafSlots(key: Key, ghost e: seq<Entry>) returns (r: Ptr)
      requires Filled(e) && leftmost == Null && SortedFrom(e, 0) && -1 <= lastIndex < |e|
      ensures r == SearchLeaf(e, key, 0)
    {
      SlotsFilled(e);
      LeafAnswers(e, key);
      hide SortedFrom, SearchLeaf, Rep;
      r := Null;
      if counter % 2 == 0 {
        if keys[0] == key && ptrs[0] != Null {
          return ptrs[0];
        }
        var i := 1;
        while ptrs[i] != Null
          invariant 1 <= i && (i <= |e| || (e == [] && i == 1))
          invariant forall x :: 0 <= x < |e| && x < i ==> e[x].key != key || !Visible(Null, e, x)
          decreases |e| - i
        {
          if keys[i] == key && ptrs[i - 1] != ptrs[i] {
            return ptrs[i];
          }
          i := i + 1;
        }
      } else {
        var i: int := Count(e);
        i := i - 1;
        while i > 0
          invariant -1 <= i < |e| && (e != [] ==> i >= 0)
          invariant forall x :: i < x < |e| ==> e[x].key != key || !Visible(Null, e, x)
        {
          if keys[i] == key && ptrs[i - 1] != ptrs[i] && ptrs[i] != Null {
            return ptrs[i];
          }
          i := i - 1;
        }
        if keys[0] == key && ptrs[0] != Null {
          r := ptrs[0];
        }
      }
    }

    /** The slots of such a page. */
    lemma SlotsFilled(e: seq<Entry>)
      requires Filled(e)
      ensures |e| < ptrs.Length == keys.Length && ptrs[|e|] == Null && (e == [] ==> ptrs[1] == Null)
      ensures forall x :: 0 <= x < |e| ==> keys[x] == e[x].key && ptrs[x] == e[x].ptr != Null
    {
      PlainSlots(Now(), leftmost, e);
      assert forall x :: 0 <= x < |e| ==> keys[x] == Now().keys[x] && ptrs[x] == Now().ptrs[x];
    }

    /** The slots, and that neighbours differ. */
    lemma SlotsAre(e: seq<Entry>)
      requires Holds(e)
      ensures |e| < ptrs.Length == keys.Length && ptrs[|e|] == Null && (e == [] ==> ptrs[1] == Null)
      ensures forall x :: 0 <= x < |e| ==> keys[x] == e[x].key && ptrs[x] == e[x].ptr
      ensures Proper(leftmost, e)
    {
      PlainSlots(Now(), leftmost, e);
      assert forall x :: 0 <= x < |e| ==> keys[x] == Now().keys[x] && ptrs[x] == Now().ptrs[x];
    }

    /** The internal branch of linear_search, in the direction of the counter. */
    method SearchInternalSlots(key: Key, ghost e: seq<Entry>) returns (r: Ptr)
      requires Filled(e) && leftmost != Null && SortedFrom(e, 0) && -1 <= lastIndex < |e|
      ensures r == SearchInternal(leftmost, e, key, 0)
    {
      if counter % 2 == 0 {
        r := InternalForward(key, e);
      } else {
        r := InternalBackward(key, e);
      }
    }

    method InternalForward(key: Key, ghost e: seq<Entry>) returns (r: Ptr)
      requires Filled(e) && leftmost != Null
      ensures r == SearchInternal(leftmost, e, key, 0)
    {
      SlotsFilled(e);
      hide SearchInternal, Filled;
      if key < keys[0] && leftmost != ptrs[0] {
        InternalAnswersFrom(leftmost, e, key, 0, 0);
        return leftmost;
      }
      var i := 1;
      while ptrs[i] != Null
        invariant 1 <= i && (i <= |e| || (e == [] && i == 1))
        invariant forall x :: 0 <= x < |e| && x < i ==> e[x].key <= key || !Visible(leftmost, e, x)
        decreases |e| - i
      {
        if key < keys[i] && ptrs[i - 1] != ptrs[i] {
          InternalAnswersFrom(leftmost, e, key, 0, i);
          return ptrs[i - 1];
        }
        i := i + 1;
      }
      InternalAnswersFrom(leftmost, e, key, 0, |e|);
      r := if ptrs[i - 1] != Null then ptrs[i - 1] else leftmost;
    }

    method InternalBackward(key: Key, ghost e: seq<Entry>) returns (r: Ptr)
      requires Filled(e) && SortedFrom(e, 0) && -1 <= lastIndex < |e|
      ensures r == SearchInternal(leftmost, e, key, 0)
    {
      SlotsFilled(e);
      hide SearchInternal;
      var i: int := Count(e);
      hide Filled;
      i := i - 1;
      while i >= 0
        invariant -1 <= i < |e|
        invariant forall x :: i < x < |e| ==> key < e[x].key || !Visible(leftmost, e, x)
      {
        if key >= keys[i] && (if i == 0 then leftmost else ptrs[i - 1]) != ptrs[i] {
          FromTheRight(leftmost, e, key, i + 1);
          return ptrs[i];
        }
        i := i - 1;
      }
      FromTheRight(leftmost, e, key, 0);
      r := leftmost;
    }
  }
}
