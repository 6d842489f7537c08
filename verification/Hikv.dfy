/**
A partition of the store (obj/hikv.h): the log in persistent memory is the truth, the hash index finds a
record by its key.  A record is named by its number in the log; its offset is 320 times that.  Keys are
64 bytes, compared by memcmp; the number whose digits they are stands for them.
*/
module Hikv {
  import opened HashTable
  import opened Ntstore
  import P = Plog

  datatype Record = Record(key: Key, value: seq<Byte>)

  // ----- keys -----

  function Power256(n: nat): nat
  {
    if n == 0 then 1 else 256 * Power256(n - 1)
  }

  /** The bytes as the digits of a number, the first one the most significant. */
  function KeyNumber(b: seq<Byte>): nat
  {
    if b == [] then 0 else b[0] * Power256(|b| - 1) + KeyNumber(b[1..])
  }

  /** memcmp of two keys of one length: the first byte that differs decides. */
  predicate Below(a: seq<Byte>, b: seq<Byte>)
    requires |a| == |b|
  {
    a != [] && (a[0] < b[0] || (a[0] == b[0] && Below(a[1..], b[1..])))
  }

  lemma {:induction false} KeyBound(b: seq<Byte>)
    ensures KeyNumber(b) < Power256(|b|)
  {
    if b != [] {
      KeyBound(b[1..]);
      LeadingDigit(b[0], Power256(|b| - 1), KeyNumber(b[1..]), 255, Power256(|b| - 1), 0);
    }
  }

  /** A larger leading digit makes a larger number. */
  lemma LeadingDigit(x: nat, p: nat, r: nat, y: nat, q: nat, t: nat)
    requires r < p == q
    ensures x <= y ==> x * p + r < (y + 1) * q + t
  {
    if x <= y {
      assert (y + 1) * q == y * q + q;
      assert x * p <= y * p;
    }
  }

  /** Keys are in the order of their numbers, and different keys have different numbers. */
  lemma {:induction false} KeyOrder(a: seq<Byte>, b: seq<Byte>)
    requires |a| == |b|
    ensures Below(a, b) <==> KeyNumber(a) < KeyNumber(b)
    ensures KeyNumber(a) == KeyNumber(b) <==> a == b
  {
    if a != [] {
      var p := Power256(|a| - 1);
      KeyBound(a[1..]);
      KeyBound(b[1..]);
      KeyOrder(a[1..], b[1..]);
      if a[0] < b[0] { LeadingDigit(a[0], p, KeyNumber(a[1..]), b[0] - 1, p, KeyNumber(b[1..])); }
      if b[0] < a[0] { LeadingDigit(b[0], p, KeyNumber(b[1..]), a[0] - 1, p, KeyNumber(a[1..])); }
      assert a == [a[0]] + a[1..] && b == [b[0]] + b[1..];
    }
  }

  // ----- records -----

  /** A record of the log, from its bytes. */
  function RecordOf(v: seq<Byte>): Record
    requires |v| == P.ITEM
  {
    Record(KeyNumber(v[..P.KEY_LENGTH]), v[P.KEY_LENGTH..])
  }

  /** The records of the log, from their bytes. */
  function RecordsOf(recs: seq<seq<Byte>>): (log: seq<Record>)
    ensures |log| == |recs| && forall i :: 0 <= i < |recs| && |recs[i]| == P.ITEM ==> log[i] == RecordOf(recs[i])
  {
    seq(|recs|, i requires 0 <= i < |recs| => if |recs[i]| == P.ITEM then RecordOf(recs[i]) else Record(0, []))
  }

  lemma RecordsMore(recs: seq<seq<Byte>>, v: seq<Byte>)
    requires |v| == P.ITEM
    ensures RecordsOf(recs + [v]) == RecordsOf(recs) + [RecordOf(v)]
  {
  }

  // ----- the index and the log -----

  /** Of the records whose key went into the hash index, i is the first with this key. */
  ghost predicate Earliest(log: seq<Record>, stored: seq<bool>, key: Key, i: nat)
  {
    && |stored| == |log| && i < |log| && stored[i] && log[i].key == key
    && forall j :: 0 <= j < i && stored[j] ==> log[j].key != key
  }

  /** The hash index was given the offsets of the stored records, in order. */
  ghost predicate Agrees(log: seq<Record>, stored: seq<bool>, puts: seq<Put>)
  {
    && |stored| == |log|
    && (forall m :: 0 <= m < |puts| ==> PutOf(log, stored, puts[m]))
    && (forall l, m :: 0 <= l < m < |puts| ==> puts[l].value < puts[m].value)
    && (forall i :: 0 <= i < |log| && stored[i] ==> HasPut(puts, i))
    && (log != [] ==> stored[0])
  }

  ghost predicate PutOf(log: seq<Record>, stored: seq<bool>, p: Put)
    requires |stored| == |log|
  {
    p.value % P.ITEM == 0 && p.value / P.ITEM < |log| && stored[p.value / P.ITEM] && log[p.value / P.ITEM].key == p.key
  }

  lemma PutsNeedRecords(log: seq<Record>, stored: seq<bool>, puts: seq<Put>)
    requires Agrees(log, stored, puts) && puts != []
    ensures log != []
  {
    assert PutOf(log, stored, puts[0]);
  }

  /** An earlier put still names its record when the log grows. */
  lemma StillPutOf(log: seq<Record>, stored: seq<bool>, p: Put, r: Record, ok: bool)
    requires |stored| == |log| && PutOf(log, stored, p)
    ensures PutOf(log + [r], stored + [ok], p) && p.value < P.ITEM * |log|
  {
  }

  lemma NowPutOf(log: seq<Record>, stored: seq<bool>, r: Record, p: Put)
    requires |stored| == |log| && p.key == r.key && p.value == P.ITEM * |log|
    ensures PutOf(log + [r], stored + [true], p)
  {
  }

  ghost predicate HasPut(puts: seq<Put>, i: nat)
  {
    exists m :: 0 <= m < |puts| && puts[m].value == P.ITEM * i
  }

  lemma StillHasPut(puts: seq<Put>, p: Put, i: nat)
    requires HasPut(puts, i)
    ensures HasPut(puts + [p], i)
  {
    var m :| 0 <= m < |puts| && puts[m].value == P.ITEM * i;
    assert (puts + [p])[m] == puts[m];
  }

  lemma NowHasPut(puts: seq<Put>, p: Put, i: nat)
    requires p.value == P.ITEM * i
    ensures HasPut(puts + [p], i)
  {
    assert (puts + [p])[|puts|] == p;
  }

  lemma StoredNow(log: seq<Record>, stored: seq<bool>, puts: seq<Put>, r: Record, p: Put)
    requires Agrees(log, stored, puts) && p.key == r.key && p.value == P.ITEM * |log|
    ensures Agrees(log + [r], stored + [true], puts + [p])
  {
    NowPutOf(log, stored, r, p);
    NowHasPut(puts, p, |log|);
    forall m | 0 <= m < |puts| ensures puts[m].value < p.value && PutOf(log + [r], stored + [true], puts[m]) {
      StillPutOf(log, stored, puts[m], r, true);
    }
    forall i: nat | i < |log| && stored[i] ensures HasPut(puts + [p], i) { StillHasPut(puts, p, i); }
    hide PutOf, HasPut;
  }

  lemma Refused(log: seq<Record>, stored: seq<bool>, puts: seq<Put>, r: Record)
    requires Agrees(log, stored, puts) && log != []
    ensures Agrees(log + [r], stored + [false], puts)
  {
    forall m | 0 <= m < |puts| ensures PutOf(log + [r], stored + [false], puts[m]) {
      StillPutOf(log, stored, puts[m], r, false);
    }
    hide PutOf, HasPut;
  }

  lemma OffsetOf(i: nat)
    ensures (P.ITEM * i) % P.ITEM == 0 && (P.ITEM * i) / P.ITEM == i
  {
  }

  /** What the hash index finds is the key's earliest stored record. */
  lemma FoundIsEarliest(log: seq<Record>, stored: seq<bool>, puts: seq<Put>, key: Key)
    requires Agrees(log, stored, puts) && First(puts, key) < |puts|
    ensures puts[First(puts, key)].value % P.ITEM == 0 && Earliest(log, stored, key, puts[First(puts, key)].value / P.ITEM)
  {
    hide First;
    var f := First(puts, key);
    assert PutOf(log, stored, puts[f]);
    forall j | 0 <= j < puts[f].value / P.ITEM && stored[j] ensures log[j].key != key {
      var m := PutFor(log, stored, puts, j);
      BeforeIs(puts[f].value, j);
      assert m < f;
    }
  }

  /** The put of a stored record. */
  lemma PutFor(log: seq<Record>, stored: seq<bool>, puts: seq<Put>, i: nat) returns (m: nat)
    requires Agrees(log, stored, puts) && i < |log| && stored[i]
    ensures m < |puts| && puts[m].value == P.ITEM * i && puts[m].key == log[i].key
  {
    assert HasPut(puts, i);
    m :| 0 <= m < |puts| && puts[m].value == P.ITEM * i;
    OffsetOf(i);
    assert PutOf(log, stored, puts[m]);
  }

  lemma BeforeIs(value: nat, j: nat)
    requires value % P.ITEM == 0 && j < value / P.ITEM
    ensures P.ITEM * j < value
  {
  }

  lemma NoneIsEarliest(log: seq<Record>, stored: seq<bool>, puts: seq<Put>, key: Key)
    requires Agrees(log, stored, puts) && First(puts, key) == |puts|
    ensures forall i :: !Earliest(log, stored, key, i)
  {
    hide First;
    forall i: nat | i < |log| && stored[i] ensures log[i].key != key {
      var m := PutFor(log, stored, puts, i);
    }
  }

  lemma ItemFields(m: seq<Byte>, key: nat, value: nat)
    requires key + P.KEY_LENGTH <= |m| && value + P.VALUE_LENGTH <= |m|
    ensures RecordOf(P.Item(m, key, value)) == Record(KeyNumber(m[key..key + P.KEY_LENGTH]), m[value..value + P.VALUE_LENGTH])
  {
    hide KeyNumber;
    assert P.Item(m, key, value)[..P.KEY_LENGTH] == m[key..key + P.KEY_LENGTH];
    assert P.Item(m, key, value)[P.KEY_LENGTH..] == m[value..value + P.VALUE_LENGTH];
  }

  lemma SliceSame(m: seq<Byte>, m': seq<Byte>, lo: nat, hi: nat)
    requires lo <= hi <= |m| == |m'| && forall x :: lo <= x < hi ==> m'[x] == m[x]
    ensures m'[lo..hi] == m[lo..hi]
  {
  }

  lemma EarliestIs(log: seq<Record>, stored: seq<bool>, key: Key, i: nat)
    requires Earliest(log, stored, key, i)
    ensures i < |log| == |stored| && log[i].key == key
    ensures (log[0].key == key && stored[0]) ==> i == 0
  {
  }

  lemma FirstIsStored(log: seq<Record>, stored: seq<bool>, puts: seq<Put>)
    requires Agrees(log, stored, puts) && log != []
    ensures |stored| == |log| && stored[0]
  {
  }

  lemma OffsetIs(addr: nat)
    requires addr % P.ITEM == 0
    ensures addr == P.ITEM * (addr / P.ITEM) && (addr == 0 <==> addr / P.ITEM == 0)
  {
  }

  class Partition {
    const ht: Table
    const plog: P.Plog
    /** Which records the hash index took. */
    ghost var stored: seq<bool>

    /** The records appended so far. */
    ghost function Log(): (log: seq<Record>)
      reads plog
      ensures |log| == |plog.recs|
    {
      RecordsOf(plog.recs)
    }

    ghost predicate Separate()
    {
      var of: set<object> := {ht, ht.sig, ht.addr};
      this !in of && plog !in of && plog.mem !in of && plog.mem.bytes !in of
      && plog.mem.bytes as object != plog && plog.mem.bytes as object != plog.mem && plog.mem as object != plog
      && this as object !in {plog, plog.mem, plog.mem.bytes}
    }

    ghost predicate Valid()
      reads this, ht, ht.sig, ht.addr, plog, plog.mem, plog.mem.bytes
    {
      Separate() && ht.Valid() && plog.Valid() && Agrees(Log(), stored, ht.log)
    }

    /** The key at an address of memory. */
    function KeyIn(at: nat): Key
      requires at + P.KEY_LENGTH <= plog.mem.bytes.Length
      reads plog.mem.bytes
    {
      KeyNumber(plog.mem.bytes[at..at + P.KEY_LENGTH])
    }

    constructor (numBucket: nat, p: P.Plog)
      requires numBucket > 0 && p.Valid() && p.recs == []
      requires p.mem.bytes as object != p && p.mem.bytes as object != p.mem && p.mem as object != p
      ensures Valid() && fresh(ht) && fresh(ht.sig) && fresh(ht.addr) && plog == p && Log() == []
    {
      ht := new Table(numBucket);
      plog := p;
      stored := [];
    }

    /**
    insert, of a key and a value at two addresses outside of the log: the record is appended in any case.  The
    index refuses it exactly when the key's two buckets are full.  The record's address is the task for the
    tree.
    */
    method Insert(key: nat, value: nat, h1: nat, h2: nat) returns (res: bool, task: nat)
      requires Valid() && plog.start + plog.cur + P.ITEM <= plog.mem.bytes.Length
      requires key + P.KEY_LENGTH <= plog.mem.bytes.Length && value + P.VALUE_LENGTH <= plog.mem.bytes.Length
      requires key + P.KEY_LENGTH <= plog.start + plog.cur || plog.start + plog.cur + P.ITEM <= key
      requires value + P.VALUE_LENGTH <= plog.start + plog.cur || plog.start + plog.cur + P.ITEM <= value
      requires Admitted(ht.log, KeyIn(key), h1, h2)
      modifies this, ht, ht.sig, ht.addr, plog, plog.mem, plog.mem.bytes
      ensures Valid()
      ensures Log() == old(Log()) + [Record(old(KeyIn(key)), old(plog.mem.bytes[value..value + P.VALUE_LENGTH]))]
      ensures stored == old(stored) + [res] && task == plog.start + P.ITEM * |old(Log())|
      ensures res <==> !old(Full(ht.sig[..], h1 % ht.n, h2 % ht.n))
      ensures !res ==> ht.sig[..] == old(ht.sig[..]) && ht.addr[..] == old(ht.addr[..]) && ht.log == old(ht.log)
      ensures res ==> |ht.log| == |old(ht.log)| + 1
                      && ht.log == old(ht.log) + [Put(old(KeyIn(key)), h1, h2, P.ITEM * |old(Log())|, ht.log[|old(ht.log)|].rank)]
      ensures forall x :: 0 <= x < plog.mem.bytes.Length && !(task <= x < task + P.ITEM) ==> plog.mem.bytes[x] == old(plog.mem.bytes[x])
      ensures plog.cur == old(plog.cur) + P.ITEM
    {
      hide *;
      ValidIs();
      P.Lengths();
      ghost var puts, log, m := ht.log, Log(), plog.mem.bytes[..];
      ghost var r := RecordOf(P.Item(m, key, value));
      if log == [] { NothingFull(h1, h2); }
      LogIs();
      KeyInIs(key);
      ItemFields(m, key, value);
      task := plog.Append(key, value);
      SliceSame(m, plog.mem.bytes[..], key, key + P.KEY_LENGTH);
      KeyInIs(key);
      RecordsMore(old(plog.recs), P.Item(m, key, value));
      LogIs();
      var k := KeyIn(key);
      res := ht.Insert(k, h1, h2, task - plog.start);
      if res {
        StoredNow(log, stored, puts, r, ht.log[|ht.log| - 1]);
      } else {
        Refused(log, stored, puts, r);
      }
      stored := stored + [res];
      NowValid();
    }

    lemma ValidIs()
      requires Valid()
      ensures ht.Valid() && plog.Valid() && Agrees(Log(), stored, ht.log) && ht.n > 0 && Separate()
      ensures plog.mem.bytes as object != ht.sig && plog.mem.bytes as object != ht.addr
      ensures ht.sig as object !in {this, plog, plog.mem} && ht.addr as object !in {this, plog, plog.mem}
      ensures plog.mem.bytes as object !in {this, ht, plog, plog.mem}
    {
    }

    lemma NowValid()
      requires Separate() && ht.Valid() && plog.Valid() && Agrees(Log(), stored, ht.log)
      ensures Valid()
    {
    }

    lemma LogIs()
      ensures Log() == RecordsOf(plog.recs) && |Log()| == |plog.recs|
    {
    }

    lemma KeyInIs(at: nat)
      requires at + P.KEY_LENGTH <= plog.mem.bytes.Length
      ensures KeyIn(at) == KeyNumber(plog.mem.bytes[..][at..at + P.KEY_LENGTH])
    {
      assert plog.mem.bytes[..][at..at + P.KEY_LENGTH] == plog.mem.bytes[at..at + P.KEY_LENGTH];
    }

    lemma NothingPut()
      requires Valid() && Log() == []
      ensures ht.log == []
    {
      if ht.log != [] { PutsNeedRecords(Log(), stored, ht.log); }
    }

    /** An empty index is not full. */
    lemma NothingFull(h1: nat, h2: nat)
      requires Valid() && Log() == []
      ensures !Full(ht.sig[..], h1 % ht.n, h2 % ht.n)
    {
      if ht.log != [] { PutsNeedRecords(Log(), stored, ht.log); }
      EmptyNotFull(ht.sig[..], ht.addr[..], ht.n, h1 % ht.n, h2 % ht.n);
    }

    /**
    search, of a key at some address: the value bytes of the key's earliest stored record, unless that is the
    first record of all, whose offset 0 is taken for an absent key.
    */
    method Search(key: nat, h1: nat, h2: nat) returns (found: bool, value: seq<Byte>)
      requires Valid() && key + P.KEY_LENGTH <= plog.mem.bytes.Length && Admitted(ht.log, KeyIn(key), h1, h2)
      ensures found <==> (exists i: nat :: Earliest(Log(), stored, KeyIn(key), i)) && Log()[0].key != KeyIn(key)
      ensures found ==> exists i: nat :: Earliest(Log(), stored, KeyIn(key), i) && value == Log()[i].value
                          && value == plog.mem.bytes[plog.start + P.ITEM * i + P.KEY_LENGTH..plog.start + P.ITEM * i + P.ITEM]
    {
      hide *;
      ValidIs();
      P.Lengths();
      var k := KeyIn(key);
      var addr := ht.Search(k, h1, h2);
      found, value := false, [];
      ghost var i := 0;
      if First(ht.log, k) < |ht.log| {
        FoundIsEarliest(Log(), stored, ht.log, k);
        i := addr / P.ITEM;
        EarliestIs(Log(), stored, k, i);
        FirstIsStored(Log(), stored, ht.log);
        ItemAt(i);
        ItemAt(0);
        OffsetIs(addr);
      } else {
        NoneIsEarliest(Log(), stored, ht.log, k);
      }
      if addr != 0 {
        var item := addr + plog.start;
        KeyInIs(key);
        KeyInIs(item);
        KeyOrder(plog.mem.Load(item, P.KEY_LENGTH), plog.mem.Load(key, P.KEY_LENGTH));
        if plog.mem.Load(item, P.KEY_LENGTH) == plog.mem.Load(key, P.KEY_LENGTH) {
          found, value := true, plog.mem.Load(item + P.KEY_LENGTH, P.VALUE_LENGTH);
        }
      }
    }

    /** The bytes of the i-th record. */
    lemma ItemAt(i: nat)
      requires Valid() && i < |Log()|
      ensures plog.start + P.ITEM * i + P.ITEM <= plog.mem.bytes.Length
      ensures Log()[i].key == KeyIn(plog.start + P.ITEM * i)
      ensures Log()[i].value == plog.mem.bytes[plog.start + P.ITEM * i + P.KEY_LENGTH..plog.start + P.ITEM * i + P.ITEM]
    {
      var at, v := plog.start + P.ITEM * i, plog.recs[i];
      assert P.Holds(plog.mem.bytes[..], plog.start, i, v);
      assert plog.mem.bytes[at..at + P.ITEM] == v;
      assert plog.mem.bytes[at..at + P.KEY_LENGTH] == v[..P.KEY_LENGTH];
      assert plog.mem.bytes[at + P.KEY_LENGTH..at + P.ITEM] == v[P.KEY_LENGTH..];
    }
  }

  lemma EmptyNotFull(sig: seq<nat>, addr: seq<nat>, n: nat, b1: nat, b2: nat)
    requires Sound(sig, addr, n, []) && b1 < n && b2 < n
    ensures !Full(sig, b1, b2)
  {
    assert !Taken(sig, b1, b2, 0);
  }

  lemma AdmittedFirst(key: Key, h1: nat, h2: nat, log: seq<Put>, value: nat, rank: nat)
    requires h1 != 0 && h2 != 0 && log == [] + [Put(key, h1, h2, value, rank)]
    ensures Admitted([], key, h1, h2) && Admitted(log, key, h1, h2)
  {
  }

  /** The first record of a partition, stored and not found. */
  method FirstIsHidden() returns (res: bool, found: bool)
    ensures res && !found
  {
    hide *;
    P.Lengths();
    var mem := new Memory(4096);
    WordIs();
    var p := new P.Plog(mem, 0, 4, 1);
    p.ValidIs();
    var part := new Partition(1, p);
    part.ValidIs();
    part.LogIs();
    part.NothingFull(1, 2);
    part.NothingPut();
    ghost var k, m := part.KeyIn(2048), mem.bytes[..];
    part.KeyInIs(2048);
    AdmittedFirst(k, 1, 2, [] + [Put(k, 1, 2, 0, 0)], 0, 0);
    var task, value;
    res, task := part.Insert(2048, 3072, 1, 2);
    SliceSame(m, mem.bytes[..], 2048, 2048 + P.KEY_LENGTH);
    part.KeyInIs(2048);
    AdmittedFirst(k, 1, 2, part.ht.log, 0, part.ht.log[0].rank);
    found, value := part.Search(2048, 1, 2);
  }

  lemma WordIs()
    ensures WORD == 0x1_0000_0000_0000_0000
  {
  }
}
