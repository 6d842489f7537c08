/**
One partition of the two-choice hash index (obj/hashtable.h): buckets of four slots, a signature and an
offset each.  The two 64-bit hashes of a key stay uninterpreted; no signature is zero and no two keys
share one.
*/
module HashTable {
  type Key = int

  const SLOTS: nat := 4

  /** A successful insert, and the slot it took: the rank-th in the order in which the code looks. */
  datatype Put = Put(key: Key, h1: nat, h2: nat, value: nat, rank: nat)

  /** The rank-th slot of a pair of buckets: slot 0 of the first, slot 0 of the second, slot 1 of the first ... */
  function Seat(b1: nat, b2: nat, rank: nat): nat
  {
    SLOTS * (if rank % 2 == 0 then b1 else b2) + rank / 2
  }

  /** Slot by slot, the first bucket before the second, four slots in each. */
  lemma SeatIs(b1: nat, b2: nat, i: nat)
    requires i < 4
    ensures Seat(b1, b2, 2 * i) == 4 * b1 + i && Seat(b1, b2, 2 * i + 1) == 4 * b2 + i
  {
  }

  function SeatOf(p: Put, n: nat): nat
    requires n > 0
  {
    Seat(p.h1 % n, p.h2 % n, p.rank)
  }

  /** The two hashes are functions of the key, and no two keys collide in any of them. */
  predicate Compatible(key: Key, h1: nat, h2: nat, p: Put)
  {
    if p.key == key then p.h1 == h1 && p.h2 == h2
    else p.h1 != h1 && p.h1 != h2 && p.h2 != h1 && p.h2 != h2
  }

  /** The insert that put the key in first, if any did. */
  function First(log: seq<Put>, key: Key): (i: nat)
    ensures i <= |log| && (i < |log| ==> log[i].key == key) && forall j :: 0 <= j < i ==> log[j].key != key
  {
    if log == [] then 0
    else
      var i := First(log[..|log| - 1], key);
      if i < |log| - 1 || log[|log| - 1].key == key then i else |log|
  }

  lemma FirstIs(log: seq<Put>, key: Key, m: nat)
    requires m < |log| && log[m].key == key && forall j :: 0 <= j < m ==> log[j].key != key
    ensures First(log, key) == m
  {
  }

  // ----- what holds of the slots -----

  /** The put sits where its hashes say, behind slots that are all taken. */
  ghost predicate Seated(sig: seq<nat>, addr: seq<nat>, n: nat, p: Put)
    requires n > 0
  {
    && |sig| == |addr| == SLOTS * n && p.rank < 2 * SLOTS && p.h1 != 0 && p.h2 != 0
    && (p.h1 % n == p.h2 % n ==> p.rank % 2 == 0)
    && SeatOf(p, n) < |sig|
    && sig[SeatOf(p, n)] == (if p.rank % 2 == 0 then p.h1 else p.h2) && addr[SeatOf(p, n)] == p.value
    && TakenBefore(sig, p.h1 % n, p.h2 % n, p.rank)
  }

  predicate Taken(sig: seq<nat>, b1: nat, b2: nat, r: nat)
  {
    Seat(b1, b2, r) < |sig| && sig[Seat(b1, b2, r)] != 0
  }

  /** In every bucket the used slots come first. */
  ghost predicate Prefix(sig: seq<nat>, n: nat)
  {
    |sig| == SLOTS * n && forall x :: 0 <= x < |sig| && x % SLOTS != SLOTS - 1 && sig[x] == 0 ==> sig[x + 1] == 0
  }

  ghost predicate Sound(sig: seq<nat>, addr: seq<nat>, n: nat, log: seq<Put>)
  {
    && n > 0 && |sig| == |addr| == SLOTS * n && Prefix(sig, n)
    && (forall m :: 0 <= m < |log| ==> Seated(sig, addr, n, log[m]))
    && (forall x :: 0 <= x < |sig| && sig[x] != 0 ==> exists m :: 0 <= m < |log| && SeatOf(log[m], n) == x)
    && (forall l, m :: 0 <= l < m < |log| ==> Ordered(log[l], log[m], n))
  }

  /** An earlier and a later put: different slots, no collision, and the same key is found first where it was put first. */
  ghost predicate Ordered(p: Put, q: Put, n: nat)
    requires n > 0
  {
    SeatOf(p, n) != SeatOf(q, n) && Compatible(p.key, p.h1, p.h2, q) && (p.key == q.key ==> p.rank < q.rank)
  }

  /** Different ranks of a pair of different buckets are different slots. */
  lemma SeatApart(b1: nat, b2: nat, r: nat, s: nat)
    requires r < 2 * SLOTS && s < 2 * SLOTS && Seat(b1, b2, r) == Seat(b1, b2, s)
    ensures r / 2 == s / 2 && (b1 != b2 ==> r == s)
  {
  }

  /** The first k slots that the code looks at are taken. */
  ghost predicate TakenBefore(sig: seq<nat>, b1: nat, b2: nat, k: nat)
  {
    forall r :: 0 <= r < k ==> Taken(sig, b1, b2, r)
  }

  /** Both buckets of the key are full. */
  ghost predicate Full(sig: seq<nat>, b1: nat, b2: nat)
  {
    TakenBefore(sig, b1, b2, 2 * SLOTS)
  }

  /** The slots with the new put in them. */
  function SigWith(sig: seq<nat>, n: nat, p: Put): seq<nat>
    requires n > 0 && SeatOf(p, n) < |sig|
  {
    sig[SeatOf(p, n) := if p.rank % 2 == 0 then p.h1 else p.h2]
  }

  /** The put fits: it goes to the first free slot of its two buckets. */
  ghost predicate Fits(sig: seq<nat>, n: nat, log: seq<Put>, p: Put)
    requires n > 0
  {
    && p.h1 != 0 && p.h2 != 0 && p.rank < 2 * SLOTS && (p.h1 % n == p.h2 % n ==> p.rank % 2 == 0)
    && (forall m :: 0 <= m < |log| ==> Compatible(p.key, p.h1, p.h2, log[m]))
    && TakenBefore(sig, p.h1 % n, p.h2 % n, p.rank)
    && SeatOf(p, n) < |sig| && sig[SeatOf(p, n)] == 0
  }

  lemma StillSeated(sig: seq<nat>, addr: seq<nat>, n: nat, p: Put, q: Put)
    requires n > 0 && Seated(sig, addr, n, q) && SeatOf(p, n) < |sig| && sig[SeatOf(p, n)] == 0 && p.h1 != 0 && p.h2 != 0
    ensures Seated(SigWith(sig, n, p), addr[SeatOf(p, n) := p.value], n, q) && SeatOf(q, n) != SeatOf(p, n)
  {
    TakenStays(sig, n, p);
  }

  lemma NowSeated(sig: seq<nat>, addr: seq<nat>, n: nat, log: seq<Put>, p: Put)
    requires n > 0 && |sig| == |addr| == SLOTS * n && Fits(sig, n, log, p)
    ensures Seated(SigWith(sig, n, p), addr[SeatOf(p, n) := p.value], n, p)
  {
    TakenStays(sig, n, p);
  }

  lemma TakenStays(sig: seq<nat>, n: nat, p: Put)
    requires n > 0 && SeatOf(p, n) < |sig| && p.h1 != 0 && p.h2 != 0
    ensures forall b1: nat, b2: nat, r: nat :: Taken(sig, b1, b2, r) ==> Taken(SigWith(sig, n, p), b1, b2, r)
  {
    hide Seat, SeatOf;
  }

  lemma NowOrdered(sig: seq<nat>, addr: seq<nat>, n: nat, log: seq<Put>, p: Put, m: nat)
    requires n > 0 && Fits(sig, n, log, p) && m < |log| && Seated(sig, addr, n, log[m])
    ensures Ordered(log[m], p, n)
  {
    hide Seat;
    assert !Taken(sig, p.h1 % n, p.h2 % n, p.rank);
  }

  lemma StillPrefix(sig: seq<nat>, n: nat, x: nat, v: nat)
    requires Prefix(sig, n) && x < |sig| && v != 0 && (x % SLOTS > 0 ==> sig[x - 1] != 0)
    ensures Prefix(sig[x := v], n)
  {
  }

  /** The slot before the chosen one, in the same bucket, is taken: the code looked there first. */
  lemma SlotBefore(sig: seq<nat>, n: nat, log: seq<Put>, p: Put)
    requires n > 0 && |sig| == SLOTS * n && Fits(sig, n, log, p) && SeatOf(p, n) % SLOTS > 0
    ensures sig[SeatOf(p, n) - 1] != 0
  {
    var b1, b2 := p.h1 % n, p.h2 % n;
    SeatMod(b1, b2, p.rank);
    assert p.rank >= 2;
    assert Taken(sig, b1, b2, p.rank - 2);
    assert Seat(b1, b2, p.rank - 2) == Seat(b1, b2, p.rank) - 1;
  }

  lemma SeatMod(b1: nat, b2: nat, r: nat)
    requires r < 2 * SLOTS
    ensures Seat(b1, b2, r) % SLOTS == r / 2
  {
  }

  /** The first free slot takes the new put and keeps everything as it should be. */
  lemma PutSound(sig: seq<nat>, addr: seq<nat>, n: nat, log: seq<Put>, p: Put)
    requires Sound(sig, addr, n, log) && Fits(sig, n, log, p)
    ensures Sound(SigWith(sig, n, p), addr[SeatOf(p, n) := p.value], n, log + [p])
  {
    var sig', addr', log' := SigWith(sig, n, p), addr[SeatOf(p, n) := p.value], log + [p];
    var at := SeatOf(p, n);
    if at % SLOTS > 0 { SlotBefore(sig, n, log, p); }
    StillPrefix(sig, n, at, sig'[at]);
    NowSeated(sig, addr, n, log, p);
    forall m | 0 <= m < |log| ensures Seated(sig', addr', n, log[m]) { StillSeated(sig, addr, n, p, log[m]); }
    forall m | 0 <= m < |log| ensures Ordered(log[m], p, n) { NowOrdered(sig, addr, n, log, p, m); }
    forall x | 0 <= x < |sig'| && sig'[x] != 0 ensures exists m :: 0 <= m < |log'| && SeatOf(log'[m], n) == x {
      if x == at {
        assert log'[|log|] == p;
      } else {
        var m :| 0 <= m < |log| && SeatOf(log[m], n) == x;
        assert log'[m] == log[m];
      }
    }
    hide Seated, Ordered, Prefix, SeatOf;
  }

  // ----- looking for a free slot -----

  lemma SoundShape(sig: seq<nat>, addr: seq<nat>, n: nat, log: seq<Put>)
    requires Sound(sig, addr, n, log)
    ensures n > 0 && |sig| == |addr| == SLOTS * n
  {
  }

  lemma SeatAt(n: nat, b1: nat, b2: nat, i: nat)
    requires i < SLOTS && b1 < n && b2 < n
    ensures Seat(b1, b2, 2 * i) == SLOTS * b1 + i < SLOTS * n && Seat(b1, b2, 2 * i + 1) == SLOTS * b2 + i < SLOTS * n
  {
  }

  lemma NoneTaken(sig: seq<nat>, b1: nat, b2: nat)
    ensures TakenBefore(sig, b1, b2, 0)
  {
  }

  lemma NextTaken(sig: seq<nat>, b1: nat, b2: nat, k: nat)
    requires TakenBefore(sig, b1, b2, k) && Seat(b1, b2, k) < |sig| && sig[Seat(b1, b2, k)] != 0
    ensures TakenBefore(sig, b1, b2, k + 1)
  {
  }

  lemma IsFull(sig: seq<nat>, b1: nat, b2: nat)
    requires TakenBefore(sig, b1, b2, 2 * SLOTS)
    ensures Full(sig, b1, b2)
  {
  }

  lemma FoundFree(sig: seq<nat>, n: nat, log: seq<Put>, p: Put)
    requires n > 0 && p.rank < 2 * SLOTS && TakenBefore(sig, p.h1 % n, p.h2 % n, p.rank) && Admitted(log, p.key, p.h1, p.h2)
    requires Seat(p.h1 % n, p.h2 % n, p.rank) < |sig| && sig[Seat(p.h1 % n, p.h2 % n, p.rank)] == 0
    requires p.h1 % n == p.h2 % n ==> p.rank % 2 == 0
    ensures Fits(sig, n, log, p) && !Full(sig, p.h1 % n, p.h2 % n)
  {
    hide Seat;
    assert !Taken(sig, p.h1 % n, p.h2 % n, p.rank);
  }

  // ----- looking up -----

  /** The key was never put in a slot of a smaller rank. */
  ghost predicate NoneBelow(log: seq<Put>, key: Key, r: nat)
  {
    forall m :: 0 <= m < |log| && log[m].key == key ==> log[m].rank >= r
  }

  /** The key may be put or looked up: no zero signature, no collision with what is in the table. */
  ghost predicate Admitted(log: seq<Put>, key: Key, h1: nat, h2: nat)
  {
    h1 != 0 && h2 != 0 && forall m :: 0 <= m < |log| ==> Compatible(key, h1, h2, log[m])
  }

  lemma NoneBelowZero(log: seq<Put>, key: Key)
    ensures NoneBelow(log, key, 0)
  {
  }

  /** A slot of the right bucket with the right signature was taken by the key. */
  lemma Hit(sig: seq<nat>, addr: seq<nat>, n: nat, log: seq<Put>, key: Key, h1: nat, h2: nat, r: nat) returns (m: nat)
    requires Sound(sig, addr, n, log) && Admitted(log, key, h1, h2) && r < 2 * SLOTS
    requires Seat(h1 % n, h2 % n, r) < |sig| && sig[Seat(h1 % n, h2 % n, r)] == (if r % 2 == 0 then h1 else h2)
    requires NoneBelow(log, key, r)
    ensures m < |log| && log[m].key == key && log[m].rank == r && log[m].value == addr[Seat(h1 % n, h2 % n, r)]
  {
    var x := Seat(h1 % n, h2 % n, r);
    m :| 0 <= m < |log| && SeatOf(log[m], n) == x;
    assert Seated(sig, addr, n, log[m]) && Compatible(key, h1, h2, log[m]);
    SeatApart(h1 % n, h2 % n, r, log[m].rank);
    hide Seat, Sound;
  }

  /** Any other signature there: the key was not put in that slot. */
  lemma Miss(sig: seq<nat>, addr: seq<nat>, n: nat, log: seq<Put>, key: Key, h1: nat, h2: nat, r: nat)
    requires Sound(sig, addr, n, log) && Admitted(log, key, h1, h2) && r < 2 * SLOTS
    requires Seat(h1 % n, h2 % n, r) < |sig| && sig[Seat(h1 % n, h2 % n, r)] != (if r % 2 == 0 then h1 else h2)
    requires NoneBelow(log, key, r)
    ensures NoneBelow(log, key, r + 1)
  {
    forall m | 0 <= m < |log| && log[m].key == key ensures log[m].rank >= r + 1 {
      assert Seated(sig, addr, n, log[m]) && Compatible(key, h1, h2, log[m]);
    }
  }

  /** Where the key is found first is where it was put first. */
  lemma FoundFirst(sig: seq<nat>, addr: seq<nat>, n: nat, log: seq<Put>, key: Key, m: nat)
    requires Sound(sig, addr, n, log) && m < |log| && log[m].key == key && NoneBelow(log, key, log[m].rank)
    ensures First(log, key) == m
  {
    forall j | 0 <= j < m ensures log[j].key != key { assert Ordered(log[j], log[m], n); }
    FirstIs(log, key, m);
  }

  lemma NotFound(sig: seq<nat>, addr: seq<nat>, n: nat, log: seq<Put>, key: Key)
    requires Sound(sig, addr, n, log) && NoneBelow(log, key, 2 * SLOTS)
    ensures First(log, key) == |log|
  {
    forall m | 0 <= m < |log| ensures log[m].rank < 2 * SLOTS { assert Seated(sig, addr, n, log[m]); }
  }

  // ----- the table -----

  class Table {
    const n: nat
    const sig: array<nat>
    const addr: array<nat>
    /** The successful inserts, in order. */
    ghost var log: seq<Put>

    ghost predicate Valid()
      reads this, sig, addr
    {
      sig != addr && Sound(sig[..], addr[..], n, log)
    }

    lemma ValidIs()
      requires Valid()
      ensures sig != addr && Sound(sig[..], addr[..], n, log)
    {
    }

    constructor (numBucket: nat)
      requires numBucket > 0
      ensures Valid() && fresh(sig) && fresh(addr) && log == [] && n == numBucket
    {
      n := numBucket;
      sig := new nat[SLOTS * numBucket](_ => 0);
      addr := new nat[SLOTS * numBucket](_ => 0);
      log := [];
    }

    /** insert: fails exactly when both buckets are full, and then changes nothing. */
    method Insert(key: Key, h1: nat, h2: nat, value: nat) returns (flag: bool)
      requires Valid() && Admitted(log, key, h1, h2)
      modifies this, sig, addr
      ensures Valid()
      ensures flag <==> !old(Full(sig[..], h1 % n, h2 % n))
      ensures flag ==> |log| > 0 && log == old(log) + [Put(key, h1, h2, value, log[|log| - 1].rank)]
      ensures !flag ==> log == old(log) && sig[..] == old(sig[..]) && addr[..] == old(addr[..])
    {
      hide *;
      ValidIs();
      SoundShape(sig[..], addr[..], n, log);
      var b1, b2 := h1 % n, h2 % n;
      var same := b1 == b2;
      var i := 0;
      NoneTaken(sig[..], b1, b2);
      ghost var s, a := sig[..], addr[..];
      while i < SLOTS
        invariant i <= SLOTS && TakenBefore(s, b1, b2, 2 * i)
        invariant Valid() && log == old(log) && sig[..] == s && addr[..] == a
      {
        SeatAt(n, b1, b2, i);
        if sig[SLOTS * b1 + i] == 0 {
          FoundFree(s, n, log, Put(key, h1, h2, value, 2 * i));
          Place(Put(key, h1, h2, value, 2 * i));
          return true;
        }
        NextTaken(s, b1, b2, 2 * i);
        if !same && sig[SLOTS * b2 + i] == 0 {
          FoundFree(s, n, log, Put(key, h1, h2, value, 2 * i + 1));
          Place(Put(key, h1, h2, value, 2 * i + 1));
          return true;
        }
        NextTaken(s, b1, b2, 2 * i + 1);
        i := i + 1;
      }
      IsFull(s, b1, b2);
      flag := false;
    }

    /** search: the value of the key's earliest successful insert, 0 if there was none. */
    method Search(key: Key, h1: nat, h2: nat) returns (value: nat)
      requires Valid() && Admitted(log, key, h1, h2)
      ensures value == if First(log, key) < |log| then log[First(log, key)].value else 0
    {
      hide *;
      ValidIs();
      SoundShape(sig[..], addr[..], n, log);
      var b1, b2 := h1 % n, h2 % n;
      value := 0;
      var i := 0;
      NoneBelowZero(log, key);
      while i < SLOTS
        invariant i <= SLOTS && value == 0 && NoneBelow(log, key, 2 * i)
      {
        SeatAt(n, b1, b2, i);
        if sig[SLOTS * b1 + i] == h1 {
          ghost var m := Hit(sig[..], addr[..], n, log, key, h1, h2, 2 * i);
          FoundFirst(sig[..], addr[..], n, log, key, m);
          return addr[SLOTS * b1 + i];
        }
        Miss(sig[..], addr[..], n, log, key, h1, h2, 2 * i);
        if sig[SLOTS * b2 + i] == h2 {
          ghost var m := Hit(sig[..], addr[..], n, log, key, h1, h2, 2 * i + 1);
          FoundFirst(sig[..], addr[..], n, log, key, m);
          return addr[SLOTS * b2 + i];
        }
        Miss(sig[..], addr[..], n, log, key, h1, h2, 2 * i + 1);
        i := i + 1;
      }
      NotFound(sig[..], addr[..], n, log, key);
    }

    /** Write the offset, then the signature, of a slot. */
    method Place(p: Put)
      requires Valid() && Fits(sig[..], n, log, p)
      modifies this, sig, addr
      ensures Valid() && log == old(log) + [p]
    {
      hide *;
      ValidIs();
      PutSound(sig[..], addr[..], n, log, p);
      InRange(sig[..], addr[..], log, p);
      var at := SeatOf(p, n);
      WriteSlot(at, p.value, if p.rank % 2 == 0 then p.h1 else p.h2);
      log := log + [p];
      NowValid(old(sig[..]), old(addr[..]), old(log), p);
    }

    lemma InRange(s: seq<nat>, a: seq<nat>, l: seq<Put>, p: Put)
      requires Sound(s, a, n, l) && Fits(s, n, l, p)
      ensures n > 0 && SeatOf(p, n) < |s| == |a|
    {
    }

    lemma NowValid(s: seq<nat>, a: seq<nat>, l: seq<Put>, p: Put)
      requires n > 0 && SeatOf(p, n) < |s| == |a| && Sound(SigWith(s, n, p), a[SeatOf(p, n) := p.value], n, l + [p])
      requires sig != addr && sig[..] == s[SeatOf(p, n) := if p.rank % 2 == 0 then p.h1 else p.h2] && addr[..] == a[SeatOf(p, n) := p.value] && log == l + [p]
      ensures Valid()
    {
      hide Sound;
    }

    method WriteSlot(at: nat, value: nat, signature: nat)
      requires sig != addr && at < sig.Length && at < addr.Length
      modifies sig, addr
      ensures sig[..] == old(sig[..])[at := signature] && addr[..] == old(addr[..])[at := value]
    {
      addr[at] := value;
      sig[at] := signature;
    }
  }

  /** The keys below k have been put with hashes of their own. */
  ghost predicate OwnHashes(log: seq<Put>, k: nat)
  {
    forall m :: 0 <= m < |log| ==> 0 < log[m].key < k && log[m].h1 == 2 * log[m].key - 1 && log[m].h2 == 2 * log[m].key
  }

  lemma OwnHashesMore(log: seq<Put>, k: nat, p: Put)
    requires k > 0 && OwnHashes(log, k)
    ensures Admitted(log, k, 2 * k - 1, 2 * k) && OwnHashes(log, k + 1)
    ensures p.key == k && p.h1 == 2 * k - 1 && p.h2 == 2 * k ==> OwnHashes(log + [p], k + 1)
  {
  }

  /** Five keys do not fit into one bucket: the index refuses one of them, though none was put before. */
  method FiveKeys() returns (t: Table, refused: bool)
    ensures t.Valid() && t.n == 1 && refused
  {
    hide *;
    t := new Table(1);
    refused := false;
    NoneOwn();
    for k := 1 to 6
      invariant t.Valid() && t.n == 1 && OwnHashes(t.log, k) && (!refused ==> |t.log| == k - 1) && fresh(t) && fresh(t.sig) && fresh(t.addr)
    {
      ghost var log := t.log;
      OwnHashesMore(log, k, Put(k, 2 * k - 1, 2 * k, 0, 0));
      var ok := t.Insert(k, 2 * k - 1, 2 * k, 0);
      if ok {
        OwnHashesMore(log, k, t.log[|t.log| - 1]);
      } else {
        refused := true;
      }
    }
    FourSeats(t);
  }

  lemma NoneOwn()
    ensures OwnHashes([], 1) && SLOTS == 4
  {
  }

  /** A table of one bucket holds four puts at most. */
  lemma FourSeats(t: Table)
    requires t.Valid() && t.n == 1
    ensures |t.log| <= SLOTS
  {
    hide Table.Valid, SeatOf;
    if |t.log| > SLOTS {
      SeatsDiffer(t, 0, 1); SeatsDiffer(t, 0, 2); SeatsDiffer(t, 0, 3); SeatsDiffer(t, 0, 4);
      SeatsDiffer(t, 1, 2); SeatsDiffer(t, 1, 3); SeatsDiffer(t, 1, 4);
      SeatsDiffer(t, 2, 3); SeatsDiffer(t, 2, 4);
      SeatsDiffer(t, 3, 4);
    }
  }

  lemma SeatsDiffer(t: Table, l: nat, m: nat)
    requires t.Valid() && t.n == 1 && l < m < |t.log|
    ensures SeatOf(t.log[l], 1) != SeatOf(t.log[m], 1) && SeatOf(t.log[l], 1) < SLOTS && SeatOf(t.log[m], 1) < SLOTS
  {
    assert Seated(t.sig[..], t.addr[..], 1, t.log[l]) && Seated(t.sig[..], t.addr[..], 1, t.log[m]);
    assert Ordered(t.log[l], t.log[m], 1);
    hide SeatOf, Seat, Prefix;
  }
}
