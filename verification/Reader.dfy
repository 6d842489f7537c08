/**
The lock-free leaf scan of linear_search (obj/btree.h), run while a writer is in the middle of one
insert_key on the same page.  Every load happens at some moment of the writer's store sequence, no
earlier than the load before it; nothing else is assumed about the interleaving.
*/
module Reader {
  import opened PageData
  import opened Page

  /** Neither the scan nor the writer finds its own key twice, and the page is a leaf. */
  ghost predicate Scene(w: Insertion, e: seq<Entry>)
  {
    && InsertionOk(w, e) && w.leftmost == Null && SortedFrom(e, 0) && Proper(Null, e)
    && forall x :: 0 <= x < |e| ==> e[x].key != w.key
  }

  /** The times at which slot i, read as the scan reads it, holds the entry of the sought key. */
  ghost predicate Behind(w: Insertion, e: seq<Entry>, key: Key, i: nat, t: nat)
    requires w.p <= w.n
  {
    forall q :: 0 <= q < |e| && e[q].key == key ==> i <= q || (i == q + 1 && w.p <= q < w.n && t >= HideTime(w, q))
  }

  /** What the scan of slot i reads: its key, its pointer, the pointer on its left, its key again. */
  datatype Look = Look(k: Key, left: Ptr, ptr: Ptr, again: Key)

  /** The loads of one slot at times t1 <= ta, tb <= t4. */
  ghost predicate Sees(w: Insertion, i: nat, t1: nat, ta: nat, tb: nat, t4: nat, l: Look)
    requires w.p <= w.n && i < |w.before.ptrs| == |w.before.keys|
  {
    && t1 <= ta <= t4 && t1 <= tb <= t4
    && l.k == KeyAt(w, t1, i) && l.again == KeyAt(w, t4, i)
    && l.ptr == PtrAt(w, tb, i) && l.left == (if i == 0 then Null else PtrAt(w, ta, i - 1))
  }

  predicate Accepts(key: Key, l: Look)
  {
    l.k == key && l.left != l.ptr && l.again == key
  }

  /** A slot left of the inserted one never changes. */
  lemma StillSlot(w: Insertion, e: seq<Entry>, i: nat, t: nat)
    requires Scene(w, e) && i < w.p
    ensures KeyAt(w, t, i) == e[i].key && PtrAt(w, t, i) == e[i].ptr
  {
    PlainSlots(w.before, w.leftmost, e);
  }

  /** A slot from the inserted one on: its own entry, then the one on its left, then (slot p) the new one. */
  lemma MovingSlot(w: Insertion, e: seq<Entry>, i: nat, t: nat)
    requires Scene(w, e) && w.p <= i <= w.n && w.n > 0
    ensures KeyAt(w, t, i) == if t < KeyTime(w, i) then w.before.keys[i] else if i == w.p then w.key else e[i - 1].key
    ensures i < w.n ==> w.before.keys[i] == e[i].key
    ensures PtrAt(w, t, i) ==
            if i == w.p && t >= PublishTime(w) then w.ptr
            else if t >= HideTime(w, i) then (if i == 0 then Null else e[i - 1].ptr)
            else if i < w.n then e[i].ptr else Null
  {
    BeforeSlots(w, e, i);
    hide Scene;
  }

  lemma BeforeSlots(w: Insertion, e: seq<Entry>, i: nat)
    requires Scene(w, e) && w.p <= i <= w.n
    ensures w.n == |e| && w.n + 1 < |w.before.keys| == |w.before.ptrs| && w.leftmost == Null
    ensures i < w.n ==> w.before.keys[i] == e[i].key && w.before.ptrs[i] == e[i].ptr
    ensures i > 0 ==> w.before.keys[i - 1] == e[i - 1].key && w.before.ptrs[i - 1] == e[i - 1].ptr
    ensures i == w.n ==> w.before.ptrs[i] == Null
  {
    PlainSlots(w.before, w.leftmost, e);
  }

  /** The scan has got to slot i: it is in use, or the writer has begun to use it. */
  ghost predicate Reached(w: Insertion, i: nat, t: nat)
  {
    i < w.n || i == w.n == 0 || (i == w.n && t >= 2)
  }

  /** The pointer that may come with the key: its own while the key is old, the new one while it is new. */
  ghost predicate Owns(w: Insertion, e: seq<Entry>, key: Key, ptr: Ptr)
  {
    if key == w.key then ptr == w.ptr else exists q :: 0 <= q < |e| && e[q].key == key && ptr == e[q].ptr
  }

  /** An accepted slot yields the pointer of the sought key and of no other. */
  lemma Accepted(w: Insertion, e: seq<Entry>, key: Key, i: nat, t1: nat, ta: nat, tb: nat, t4: nat, l: Look)
    requires Scene(w, e) && i <= w.n && |w.before.keys| == |w.before.ptrs| && Sees(w, i, t1, ta, tb, t4, l)
    requires Reached(w, i, t1) && Accepts(key, l)
    ensures Owns(w, e, key, l.ptr)
  {
    if w.n == 0 {
      assert l.ptr != Null;
    } else if i < w.p {
      StillSlot(w, e, i, t1);
      StillSlot(w, e, i, tb);
      assert e[i].key == key && l.ptr == e[i].ptr;
    } else {
      MovingSlot(w, e, i, t1);
      MovingSlot(w, e, i, t4);
      MovingSlot(w, e, i, tb);
      if i > 0 {
        if i == w.p { StillSlot(w, e, i - 1, ta); } else { MovingSlot(w, e, i - 1, ta); }
      }
    }
  }

  lemma NewPtrFresh(w: Insertion, e: seq<Entry>, x: nat)
    requires Scene(w, e) && x < |e|
    ensures w.ptr != e[x].ptr && w.ptr != Null
  {
    var e' := Inserted(e, w.key, w.ptr);
    assert e'[w.p].ptr == w.ptr;
    assert e'[if x < w.p then x else x + 1] == e[x];
  }

  /** An entry left of the insertion is accepted where it stands. */
  lemma StillAccepted(w: Insertion, e: seq<Entry>, i: nat, t1: nat, ta: nat, tb: nat, t4: nat, l: Look)
    requires Scene(w, e) && i < w.p && |w.before.keys| == |w.before.ptrs| && Sees(w, i, t1, ta, tb, t4, l)
    ensures Accepts(e[i].key, l)
  {
    StillSlot(w, e, i, t1);
    StillSlot(w, e, i, tb);
    StillSlot(w, e, i, t4);
    if i > 0 { StillSlot(w, e, i - 1, ta); }
  }

  /** A moving entry is accepted in its old slot until that slot is hidden ... */
  lemma EarlyAccepted(w: Insertion, e: seq<Entry>, i: nat, t1: nat, ta: nat, tb: nat, t4: nat, l: Look)
    requires Scene(w, e) && w.p <= i < w.n && |w.before.keys| == |w.before.ptrs| && Sees(w, i, t1, ta, tb, t4, l)
    requires t4 < HideTime(w, i)
    ensures Accepts(e[i].key, l)
  {
    MovingSlot(w, e, i, t1);
    MovingSlot(w, e, i, tb);
    MovingSlot(w, e, i, t4);
    if i > w.p { MovingSlot(w, e, i - 1, ta); } else if i > 0 { StillSlot(w, e, i - 1, ta); }
    NewPtrFresh(w, e, i);
  }

  /** ... and in its new slot from that moment on. */
  lemma LateAccepted(w: Insertion, e: seq<Entry>, q: nat, t1: nat, ta: nat, tb: nat, t4: nat, l: Look)
    requires Scene(w, e) && w.p <= q < w.n && |w.before.keys| == |w.before.ptrs| && Sees(w, q + 1, t1, ta, tb, t4, l)
    requires t1 >= HideTime(w, q)
    ensures Accepts(e[q].key, l)
  {
    MovingSlot(w, e, q + 1, t1);
    MovingSlot(w, e, q + 1, tb);
    MovingSlot(w, e, q + 1, t4);
    MovingSlot(w, e, q, ta);
    NewPtrFresh(w, e, q);
  }

  /** The new entry is accepted by a scan that comes to its slot after the publishing store. */
  lemma NewAccepted(w: Insertion, e: seq<Entry>, t1: nat, ta: nat, tb: nat, t4: nat, l: Look)
    requires Scene(w, e) && |w.before.keys| == |w.before.ptrs| && Sees(w, w.p, t1, ta, tb, t4, l)
    requires t1 >= PublishTime(w)
    ensures Accepts(w.key, l)
  {
    if w.p > 0 {
      StillSlot(w, e, w.p - 1, ta);
      NewPtrFresh(w, e, w.p - 1);
    }
    assert Inserted(e, w.key, w.ptr)[w.p].ptr == w.ptr;
  }

  /** A rejected slot was not the last chance to see a key that was there before. */
  lemma Rejected(w: Insertion, e: seq<Entry>, key: Key, i: nat, t1: nat, ta: nat, tb: nat, t4: nat, l: Look)
    requires Scene(w, e) && i <= w.n && |w.before.keys| == |w.before.ptrs| && Sees(w, i, t1, ta, tb, t4, l)
    requires Behind(w, e, key, i, t1) && !Accepts(key, l)
    ensures Behind(w, e, key, i + 1, t4)
    ensures key == w.key && i == w.p ==> t1 < PublishTime(w)
  {
    if key == w.key && i == w.p && t1 >= PublishTime(w) {
      NewAccepted(w, e, t1, ta, tb, t4, l);
    }
    hide *;
    forall q | 0 <= q < |e| && e[q].key == key ensures i + 1 <= q || (i == q && w.p <= q < w.n && t4 >= HideTime(w, q)) {
      RejectedOne(w, e, key, i, t1, ta, tb, t4, l, q);
    }
    BehindIs(w, e, key, i + 1, t4);
  }

  lemma BehindIs(w: Insertion, e: seq<Entry>, key: Key, i: nat, t: nat)
    requires w.p <= w.n
    requires forall q :: 0 <= q < |e| && e[q].key == key ==> i <= q || (i == q + 1 && w.p <= q < w.n && t >= HideTime(w, q))
    ensures Behind(w, e, key, i, t)
  {
  }

  lemma RejectedOne(w: Insertion, e: seq<Entry>, key: Key, i: nat, t1: nat, ta: nat, tb: nat, t4: nat, l: Look, q: nat)
    requires Scene(w, e) && i <= w.n && |w.before.keys| == |w.before.ptrs| && Sees(w, i, t1, ta, tb, t4, l)
    requires Behind(w, e, key, i, t1) && !Accepts(key, l) && q < |e| && e[q].key == key
    ensures i + 1 <= q || (i == q && w.p <= q < w.n && t4 >= HideTime(w, q))
  {
    assert w.n == |e|;
    hide Scene, Accepts;
    if i == q + 1 {
      LateAccepted(w, e, q, t1, ta, tb, t4, l);
    } else if i == q < w.p {
      StillAccepted(w, e, i, t1, ta, tb, t4, l);
    } else if i == q && t4 < HideTime(w, q) {
      EarlyAccepted(w, e, i, t1, ta, tb, t4, l);
    }
  }

  lemma BehindLater(w: Insertion, e: seq<Entry>, key: Key, i: nat, t: nat, t': nat)
    requires w.p <= w.n && Behind(w, e, key, i, t) && t <= t'
    ensures Behind(w, e, key, i, t')
  {
  }

  lemma SceneShape(w: Insertion, e: seq<Entry>)
    requires Scene(w, e)
    ensures w.p <= w.n == |e| && w.n + 1 < |w.before.keys| == |w.before.ptrs| && Proper(Null, e) && SortedFrom(e, 0)
  {
  }

  /** The pointer the scan compares slot i's with; slot 0 of a leaf is compared with NULL. */
  function LeftAt(w: Insertion, t: nat, i: nat): Ptr
    requires w.p <= w.n && i <= |w.before.ptrs|
  {
    if i == 0 then Null else PtrAt(w, t, i - 1)
  }

  lemma There(w: Insertion, e: seq<Entry>, key: Key, i: nat, t1: nat, ta: nat, tb: nat, t4: nat)
    requires Scene(w, e) && i <= w.n && i < |w.before.keys| == |w.before.ptrs| && w.p <= w.n && Reached(w, i, t1)
    requires t1 <= ta <= t4 && t1 <= tb <= t4
    requires KeyAt(w, t1, i) == KeyAt(w, t4, i) == key && LeftAt(w, ta, i) != PtrAt(w, tb, i)
    ensures Owns(w, e, key, PtrAt(w, tb, i))
  {
    Accepted(w, e, key, i, t1, ta, tb, t4, Look(KeyAt(w, t1, i), LeftAt(w, ta, i), PtrAt(w, tb, i), KeyAt(w, t4, i)));
  }

  lemma NotThere(w: Insertion, e: seq<Entry>, key: Key, i: nat, t1: nat, ta: nat, tb: nat, t4: nat)
    requires Scene(w, e) && i <= w.n && i < |w.before.keys| == |w.before.ptrs| && w.p <= w.n && Behind(w, e, key, i, t1)
    requires t1 <= ta <= t4 && t1 <= tb <= t4
    requires KeyAt(w, t1, i) != key || LeftAt(w, ta, i) == PtrAt(w, tb, i) || KeyAt(w, t4, i) != key
    ensures Behind(w, e, key, i + 1, t4) && (key == w.key && i == w.p ==> t1 < PublishTime(w))
  {
    Rejected(w, e, key, i, t1, ta, tb, t4, Look(KeyAt(w, t1, i), LeftAt(w, ta, i), PtrAt(w, tb, i), KeyAt(w, t4, i)));
  }

  lemma StillReached(w: Insertion, i: nat, t: nat, t': nat)
    requires Reached(w, i, t) && t <= t'
    ensures Reached(w, i, t')
  {
  }

  /** The body of the scan for one slot.  The two pointer loads of the comparison come in either order. */
  method ReadSlot(w: Insertion, ghost e: seq<Entry>, key: Key, i: nat, t: nat) returns (found: bool, ret: Ptr, t': nat)
    requires Scene(w, e) && i <= w.n && Reached(w, i, t) && Behind(w, e, key, i, t)
    ensures t' >= t
    ensures found ==> Owns(w, e, key, ret)
    ensures !found ==> Behind(w, e, key, i + 1, t') && (key == w.key && i == w.p ==> t < PublishTime(w))
  {
    SceneShape(w, e);
    hide *;
    found, ret := false, Null;
    var t1: nat :| t <= t1;
    BehindLater(w, e, key, i, t, t1);
    StillReached(w, i, t, t1);
    if KeyAt(w, t1, i) != key {
      t' := t1;
      NotThere(w, e, key, i, t1, t', t', t');
      return;
    }
    var ta: nat, tb: nat :| t1 <= ta && t1 <= tb;
    var left, ptr := LeftAt(w, ta, i), PtrAt(w, tb, i);
    if left == ptr {
      t' := if ta <= tb then tb else ta;
      NotThere(w, e, key, i, t1, ta, tb, t');
      return;
    }
    t' :| ta <= t' && tb <= t';
    if KeyAt(w, t', i) == key {
      There(w, e, key, i, t1, ta, tb, t');
      return true, ptr, t';
    }
    NotThere(w, e, key, i, t1, ta, tb, t');
  }

  /** Where the loop test stands: slot i is still in use, or the scan has missed nothing. */
  lemma LoopTest(w: Insertion, e: seq<Entry>, key: Key, i: nat, t: nat)
    requires Scene(w, e) && 1 <= i <= w.n + 1 && i < |w.before.ptrs| && (i == w.n + 1 && w.n > 0 ==> t >= 2)
    requires Behind(w, e, key, i, t)
    ensures PtrAt(w, t, i) != Null ==> i <= w.n && Reached(w, i, t)
    ensures PtrAt(w, t, i) == Null ==> i >= w.n && (forall q :: 0 <= q < |e| ==> e[q].key != key)
    ensures PtrAt(w, t, i) == Null && t >= PublishTime(w) ==> i > w.p
  {
    SceneShape(w, e);
    PlainSlots(w.before, w.leftmost, e);
    if 0 < w.n && i <= w.n {
      if i < w.p { StillSlot(w, e, i, t); } else { MovingSlot(w, e, i, t); NewPtrFresh(w, e, i - 1); }
    }
  }

  /** What a scan under way has learned. */
  ghost predicate Scanning(w: Insertion, e: seq<Entry>, key: Key, start: nat, i: nat, t: nat)
  {
    && Scene(w, e) && i <= w.n + 1 && Behind(w, e, key, i, t) && start <= t
    && (i == w.n + 1 && w.n > 0 ==> t >= 2)
    && (key == w.key && start >= PublishTime(w) ==> i <= w.p)
  }

  /** What the result of a scan must be. */
  ghost predicate Answer(w: Insertion, e: seq<Entry>, key: Key, start: nat, ret: Ptr)
    requires w.p <= w.n
  {
    if key != w.key then ret == SearchLeaf(e, key, 0)
    else (ret == Null && start < PublishTime(w)) || ret == w.ptr
  }

  lemma Found(w: Insertion, e: seq<Entry>, key: Key, start: nat, ret: Ptr)
    requires Scene(w, e) && Owns(w, e, key, ret)
    ensures Answer(w, e, key, start, ret)
  {
    ProperVisible(Null, e);
    LeafAnswers(e, key);
  }

  lemma NotFound(w: Insertion, e: seq<Entry>, key: Key, start: nat, i: nat, t: nat)
    requires 1 <= i < |w.before.ptrs| && Scanning(w, e, key, start, i, t) && PtrAt(w, t, i) == Null
    ensures Answer(w, e, key, start, Null)
  {
    LoopTest(w, e, key, i, t);
    ProperVisible(Null, e);
    LeafAnswers(e, key);
  }

  lemma ScanOn(w: Insertion, e: seq<Entry>, key: Key, start: nat, i: nat, t: nat, t': nat, t'': nat)
    requires Scanning(w, e, key, start, i, t) && i <= w.n && Reached(w, i, t) && t <= t' <= t''
    requires Behind(w, e, key, i + 1, t') && (key == w.key && i == w.p ==> t < PublishTime(w))
    ensures Scanning(w, e, key, start, i + 1, t'')
  {
    BehindLater(w, e, key, i + 1, t', t'');
    hide Scene, Behind, PublishTime;
  }

  /** linear_search on a leaf, forward, against a writer in mid-insertion: never a miss, never a wrong pointer. */
  method Scan(w: Insertion, ghost e: seq<Entry>, key: Key, start: nat) returns (ret: Ptr)
    requires Scene(w, e)
    ensures Answer(w, e, key, start, ret)
  {
    SceneShape(w, e);
    var t := start;
    assert Scanning(w, e, key, start, 0, t) && Reached(w, 0, t);
    hide Scene, Scanning, Answer, Owns, PtrAt, PublishTime, Reached, Behind, SortedFrom, Proper;
    ScanningGives(w, e, key, start, 0, t);
    var found, ptr, t1 := ReadSlot(w, e, key, 0, t);
    if found {
      Found(w, e, key, start, ptr);
      return ptr;
    }
    var i := 1;
    var t2: nat :| t1 <= t2;
    ScanOn(w, e, key, start, 0, t, t1, t2);
    t := t2;
    while PtrAt(w, t, i) != Null
      invariant 1 <= i <= w.n + 1 && Scanning(w, e, key, start, i, t)
      decreases w.n + 1 - i
    {
      ScanningGives(w, e, key, start, i, t);
      found, ptr, t1 := ReadSlot(w, e, key, i, t);
      if found {
        Found(w, e, key, start, ptr);
        return ptr;
      }
      t2 :| t1 <= t2;
      ScanOn(w, e, key, start, i, t, t1, t2);
      i, t := i + 1, t2;
    }
    NotFound(w, e, key, start, i, t);
    ret := Null;
  }

  lemma ScanningGives(w: Insertion, e: seq<Entry>, key: Key, start: nat, i: nat, t: nat)
    requires Scanning(w, e, key, start, i, t) && i < |w.before.ptrs|
    ensures Behind(w, e, key, i, t)
    ensures (if i == 0 then w.n > 0 || i == w.n else PtrAt(w, t, i) != Null) ==> i <= w.n && Reached(w, i, t)
  {
    if i > 0 { LoopTest(w, e, key, i, t); }
  }
}
