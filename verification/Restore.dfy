/**
After a restart the tree is rebuilt from the hash index (obj/hikv.h): every used slot of a partition
names a record, and the record's key goes into the tree.  What comes back is what the index had taken;
a record it had refused stays in the log and is no longer found by a range scan.
*/
module Restore {
  import BT = BTree
  import Hikv
  import HT = HashTable
  import P = Plog
  import opened PageData

  /** The tree's entry for a put of a partition whose log starts at `start`. */
  function EntryOf(start: nat, p: HT.Put): Entry
  {
    Entry(p.key, Value(start + p.value))
  }

  /** The put of the slots before x that gave this entry. */
  ghost predicate FromSlot(start: nat, n: nat, puts: seq<HT.Put>, x: nat, e: Entry)
    requires n > 0
  {
    exists m :: 0 <= m < |puts| && HT.SeatOf(puts[m], n) < x && e == EntryOf(start, puts[m])
  }

  /** The slots before x have been put into the tree. */
  ghost predicate UpTo(records: seq<Entry>, before: seq<Entry>, start: nat, n: nat, puts: seq<HT.Put>, x: nat)
    requires n > 0
  {
    forall e :: e in records <==> e in before || FromSlot(start, n, puts, x, e)
  }

  /** The stored keys are new to the tree, and to each other. */
  ghost predicate NewKeys(records: seq<Entry>, start: nat, puts: seq<HT.Put>)
  {
    && (forall e, m :: e in records && 0 <= m < |puts| ==> e.key != puts[m].key && e.ptr != Value(start + puts[m].value))
    && (forall l, m :: 0 <= l < m < |puts| ==> puts[l].key != puts[m].key && puts[l].value != puts[m].value)
  }

  /** The entry of the i-th record. */
  function RecordEntry(start: nat, log: seq<Hikv.Record>, i: nat): Entry
    requires i < |log|
  {
    Entry(log[i].key, Value(start + P.ITEM * i))
  }

  lemma NothingYet(records: seq<Entry>, start: nat, n: nat, puts: seq<HT.Put>)
    requires n > 0
    ensures UpTo(records, records, start, n, puts, 0)
  {
  }

  /** An unused slot adds nothing. */
  lemma SkipSlot(sig: seq<nat>, addr: seq<nat>, records: seq<Entry>, before: seq<Entry>, start: nat, n: nat, puts: seq<HT.Put>, x: nat)
    requires HT.Sound(sig, addr, n, puts) && x < |sig| && sig[x] == 0 && UpTo(records, before, start, n, puts, x)
    ensures UpTo(records, before, start, n, puts, x + 1)
  {
    forall m | 0 <= m < |puts| ensures HT.SeatOf(puts[m], n) != x {
      assert HT.Seated(sig, addr, n, puts[m]);
    }
    hide HT.SeatOf, HT.Sound;
    forall e ensures FromSlot(start, n, puts, x + 1, e) <==> FromSlot(start, n, puts, x, e) {
    }
  }

  /** A used slot belongs to one put, which is new to the tree ... */
  lemma SlotIsNew(sig: seq<nat>, addr: seq<nat>, records: seq<Entry>, before: seq<Entry>, start: nat, n: nat, puts: seq<HT.Put>, x: nat)
      returns (m: nat)
    requires HT.Sound(sig, addr, n, puts) && x < |sig| && sig[x] != 0 && UpTo(records, before, start, n, puts, x)
    requires NewKeys(before, start, puts)
    ensures m < |puts| && HT.SeatOf(puts[m], n) == x && addr[x] == puts[m].value
    ensures forall e :: e in records ==> e.key != puts[m].key && e.ptr != Value(start + puts[m].value)
  {
    m :| 0 <= m < |puts| && HT.SeatOf(puts[m], n) == x;
    assert HT.Seated(sig, addr, n, puts[m]);
    hide HT.SeatOf, HT.Sound, HT.Seated;
    forall e | e in records ensures e.key != puts[m].key && e.ptr != Value(start + puts[m].value) {
      if e !in before {
        var l :| 0 <= l < |puts| && HT.SeatOf(puts[l], n) < x && e == EntryOf(start, puts[l]);
        assert l != m;
      }
    }
  }

  /** ... and adds its entry. */
  lemma TakeSlot(sig: seq<nat>, addr: seq<nat>, records: seq<Entry>, before: seq<Entry>, start: nat, n: nat, puts: seq<HT.Put>, x: nat, m: nat)
    requires HT.Sound(sig, addr, n, puts) && x < |sig| && m < |puts| && HT.SeatOf(puts[m], n) == x
    requires UpTo(records, before, start, n, puts, x)
    ensures UpTo(Inserted(records, puts[m].key, Value(start + puts[m].value)), before, start, n, puts, x + 1)
  {
    BT.InsertedMembers(records, puts[m].key, Value(start + puts[m].value));
    forall l | 0 <= l < |puts| && l != m ensures HT.SeatOf(puts[l], n) != x {
      if l < m { assert HT.Ordered(puts[l], puts[m], n); } else { assert HT.Ordered(puts[m], puts[l], n); }
    }
    hide HT.SeatOf, HT.Sound, Inserted;
    forall e ensures FromSlot(start, n, puts, x + 1, e) <==> FromSlot(start, n, puts, x, e) || e == EntryOf(start, puts[m]) {
    }
  }

  /** The entry of a stored record. */
  ghost predicate FromRecord(start: nat, log: seq<Hikv.Record>, stored: seq<bool>, e: Entry)
    requires |stored| == |log|
  {
    exists i: nat :: i < |log| && stored[i] && e == RecordEntry(start, log, i)
  }

  lemma PutNamesRecord(log: seq<Hikv.Record>, stored: seq<bool>, start: nat, p: HT.Put)
    requires |stored| == |log| && Hikv.PutOf(log, stored, p)
    ensures FromRecord(start, log, stored, EntryOf(start, p))
  {
    assert EntryOf(start, p) == RecordEntry(start, log, p.value / P.ITEM);
  }

  lemma RecordHasPut(log: seq<Hikv.Record>, stored: seq<bool>, start: nat, puts: seq<HT.Put>, i: nat) returns (m: nat)
    requires Hikv.Agrees(log, stored, puts) && i < |log| && stored[i]
    ensures m < |puts| && RecordEntry(start, log, i) == EntryOf(start, puts[m])
  {
    assert Hikv.HasPut(puts, i);
    m :| 0 <= m < |puts| && puts[m].value == P.ITEM * i;
    Hikv.OffsetOf(i);
    assert Hikv.PutOf(log, stored, puts[m]);
  }

  lemma SeatInside(sig: seq<nat>, addr: seq<nat>, n: nat, puts: seq<HT.Put>, m: nat)
    requires HT.Sound(sig, addr, n, puts) && m < |puts|
    ensures HT.SeatOf(puts[m], n) < |sig|
  {
    assert HT.Seated(sig, addr, n, puts[m]);
  }

  /** All slots together are all stored records. */
  lemma AllSlots(sig: seq<nat>, addr: seq<nat>, log: seq<Hikv.Record>, stored: seq<bool>, start: nat, n: nat, puts: seq<HT.Put>, e: Entry)
    requires HT.Sound(sig, addr, n, puts) && Hikv.Agrees(log, stored, puts)
    ensures n > 0 && |stored| == |log| && (FromSlot(start, n, puts, |sig|, e) <==> FromRecord(start, log, stored, e))
  {
    hide HT.Sound, HT.SeatOf, Hikv.PutOf, RecordEntry;
    HT.SoundShape(sig, addr, n, puts);
    if FromSlot(start, n, puts, |sig|, e) {
      var m :| 0 <= m < |puts| && HT.SeatOf(puts[m], n) < |sig| && e == EntryOf(start, puts[m]);
      PutNamesRecord(log, stored, start, puts[m]);
    }
    if FromRecord(start, log, stored, e) {
      var i: nat :| i < |log| && stored[i] && e == RecordEntry(start, log, i);
      var m := RecordHasPut(log, stored, start, puts, i);
      SeatInside(sig, addr, n, puts, m);
    }
  }

  lemma AllRestored(records: seq<Entry>, before: seq<Entry>, sig: seq<nat>, addr: seq<nat>, log: seq<Hikv.Record>, stored: seq<bool>,
                    start: nat, n: nat, puts: seq<HT.Put>)
    requires HT.Sound(sig, addr, n, puts) && Hikv.Agrees(log, stored, puts) && n > 0 && UpTo(records, before, start, n, puts, |sig|)
    ensures Restored(records, before, start, log, stored)
  {
    hide HT.Sound, FromSlot, FromRecord;
    forall e ensures FromSlot(start, n, puts, |sig|, e) <==> FromRecord(start, log, stored, e) {
      AllSlots(sig, addr, log, stored, start, n, puts, e);
    }
  }

  /** The tree has what it had before, and the stored records. */
  ghost predicate Restored(records: seq<Entry>, before: seq<Entry>, start: nat, log: seq<Hikv.Record>, stored: seq<bool>)
  {
    |stored| == |log| && forall e :: e in records <==> e in before || FromRecord(start, log, stored, e)
  }

  lemma PartIs(part: Hikv.Partition)
    requires part.Valid()
    ensures part.ht.sig != part.ht.addr && HT.Sound(part.ht.sig[..], part.ht.addr[..], part.ht.n, part.ht.log)
    ensures Hikv.Agrees(part.Log(), part.stored, part.ht.log) && part.ht.Valid()
    ensures part.ht.n > 0 && part.ht.sig.Length == part.ht.addr.Length == HT.SLOTS * part.ht.n
  {
    HT.SoundShape(part.ht.sig[..], part.ht.addr[..], part.ht.n, part.ht.log);
    hide HT.Sound;
  }

  /** The tree is sound and has the slots before x. */
  ghost predicate TreeUpTo(bt: BT.BTree, before: seq<Entry>, start: nat, n: nat, puts: seq<HT.Put>, x: nat)
    requires n > 0
    reads bt
  {
    bt.Valid() && UpTo(bt.Records(), before, start, n, puts, x)
  }

  lemma TreeIs(bt: BT.BTree, before: seq<Entry>, start: nat, n: nat, puts: seq<HT.Put>, x: nat)
    requires n > 0 && TreeUpTo(bt, before, start, n, puts, x)
    ensures bt.Valid() && bt.rows != [] && UpTo(bt.Records(), before, start, n, puts, x)
  {
    hide UpTo;
  }

  lemma TreeStarts(bt: BT.BTree, start: nat, n: nat, puts: seq<HT.Put>)
    requires bt.Valid() && n > 0
    ensures bt.rows != [] && TreeUpTo(bt, bt.Records(), start, n, puts, 0)
  {
    NothingYet(bt.Records(), start, n, puts);
    hide UpTo;
  }

  lemma FourSlots()
    ensures HT.SLOTS == 4
  {
  }

  /** bt_restore_by_ht_ptn */
  method RestorePartition(part: Hikv.Partition, bt: BT.BTree)
    requires part.Valid() && bt.Valid() && part.plog.start > 0
    requires NewKeys(bt.Records(), part.plog.start, part.ht.log)
    modifies bt
    ensures bt.Valid()
    ensures Restored(bt.Records(), old(bt.Records()), part.plog.start, part.Log(), part.stored)
  {
    hide *;
    PartIs(part);
    FourSlots();
    ghost var start := part.plog.start;
    TreeStarts(bt, start, part.ht.n, part.ht.log);
    ghost var before := bt.Records();
    var j := 0;
    while j < part.ht.n
      invariant j <= part.ht.n && part.Valid() && TreeUpTo(bt, before, start, part.ht.n, part.ht.log, 4 * j)
    {
      var k := 0;
      while k < HT.SLOTS
        invariant k <= 4 && part.Valid() && TreeUpTo(bt, before, start, part.ht.n, part.ht.log, 4 * j + k)
      {
        RestoreSlot(part, bt, HT.SLOTS * j + k, before);
        k := k + 1;
      }
      j := j + 1;
    }
    TreeIs(bt, before, start, part.ht.n, part.ht.log, 4 * j);
    AllRestored(bt.Records(), before, part.ht.sig[..], part.ht.addr[..], part.Log(), part.stored, start, part.ht.n, part.ht.log);
  }

  /** The body of its loops. */
  method RestoreSlot(part: Hikv.Partition, bt: BT.BTree, x: nat, ghost before: seq<Entry>)
    requires part.Valid() && part.plog.start > 0 && x < part.ht.sig.Length && x < part.ht.addr.Length && part.ht.n > 0
    requires TreeUpTo(bt, before, part.plog.start, part.ht.n, part.ht.log, x) && NewKeys(before, part.plog.start, part.ht.log)
    modifies bt
    ensures TreeUpTo(bt, before, part.plog.start, part.ht.n, part.ht.log, x + 1)
  {
    hide *;
    PartIs(part);
    ghost var sig, addr, puts, n, start := part.ht.sig[..], part.ht.addr[..], part.ht.log, part.ht.n, part.plog.start;
    TreeIs(bt, before, start, n, puts, x);
    if part.ht.sig[x] != 0 {
      ghost var m := SlotIsNew(sig, addr, bt.Records(), before, start, n, puts, x);
      PutIs(part.Log(), part.stored, puts, m);
      var at := part.ht.addr[x] + part.plog.start;
      P.Lengths();
      part.ItemAt(puts[m].value / P.ITEM);
      if at != 0 {
        var key := part.KeyIn(at);
        TakeSlot(sig, addr, bt.Records(), before, start, n, puts, x, m);
        bt.Insert(key, Value(at));
      }
    } else {
      SkipSlot(sig, addr, bt.Records(), before, start, n, puts, x);
    }
    TreeHas(bt, before, start, n, puts, x + 1);
  }

  /** The record that a put names. */
  lemma PutIs(log: seq<Hikv.Record>, stored: seq<bool>, puts: seq<HT.Put>, m: nat)
    requires Hikv.Agrees(log, stored, puts) && m < |puts|
    ensures var i := puts[m].value / P.ITEM; puts[m].value == P.ITEM * i && i < |log| && log[i].key == puts[m].key
  {
    assert Hikv.PutOf(log, stored, puts[m]);
  }

  lemma TreeHas(bt: BT.BTree, before: seq<Entry>, start: nat, n: nat, puts: seq<HT.Put>, x: nat)
    requires n > 0 && bt.Valid() && UpTo(bt.Records(), before, start, n, puts, x)
    ensures TreeUpTo(bt, before, start, n, puts, x)
  {
  }
}
