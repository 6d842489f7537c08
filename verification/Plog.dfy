/**
One partition of the append log (obj/plog.h) as bytes of persistent memory: records of 320 bytes, a
64-byte key and a 256-byte value, each copied in by nvmem_memcpy.
*/
module Plog {
  import opened Ntstore

  const KEY_LENGTH: nat := 64
  const VALUE_LENGTH: nat := 256
  const ITEM: nat := 320

  lemma Lengths()
    ensures KEY_LENGTH == 64 && VALUE_LENGTH == 256 && ITEM == 320 == KEY_LENGTH + VALUE_LENGTH
  {
  }

  /** The bytes given to a partition: one and a half times its share of the records. */
  function Space(numKv: nat, numPartition: nat): nat
    requires numPartition > 0
  {
    (numKv / numPartition) * ITEM * 3 / 2
  }

  /** Exactly that: one and a half times 320 bytes for every record of the share. */
  lemma SpaceIs(numKv: nat, numPartition: nat)
    requires numPartition > 0
    ensures Space(numKv, numPartition) == 480 * (numKv / numPartition)
  {
    assert (numKv / numPartition) * ITEM * 3 == 2 * (480 * (numKv / numPartition));
  }

  /** The constructor's alignment moves an address up to the next multiple of 16, and no further. */
  function Aligned(raw: nat): (start: nat)
    ensures start % 16 == 0 && raw <= start < raw + 16
  {
    if raw % 16 != 0 then raw + 16 - (raw + 16) % 16 else raw
  }

  /** However the memory was aligned, a partition has room for its whole share of the records. */
  lemma ShareFits(raw: nat, numKv: nat, numPartition: nat, n: nat)
    requires numPartition > 0 && n <= numKv / numPartition
    ensures n > 0 ==> Aligned(raw) + ITEM * n <= raw + Space(numKv, numPartition)
  {
    SpaceIs(numKv, numPartition);
  }

  /** The n-th record holds the bytes v. */
  ghost predicate Holds(m: seq<Byte>, start: nat, n: nat, v: seq<Byte>)
  {
    |v| == ITEM && start + ITEM * n + ITEM <= |m| && forall k :: 0 <= k < ITEM ==> m[start + ITEM * n + k] == v[k]
  }

  /** The records that were appended are all there. */
  ghost predicate AllHeld(m: seq<Byte>, start: nat, recs: seq<seq<Byte>>)
  {
    forall n :: 0 <= n < |recs| ==> Holds(m, start, n, recs[n])
  }

  /** No byte below `limit` has changed from `start` on. */
  ghost predicate SameUpTo(m: seq<Byte>, m': seq<Byte>, start: nat, limit: nat)
  {
    |m'| == |m| && forall x :: start <= x < limit && x < |m| ==> m'[x] == m[x]
  }

  lemma StillHeld(m: seq<Byte>, m': seq<Byte>, start: nat, recs: seq<seq<Byte>>)
    requires AllHeld(m, start, recs) && SameUpTo(m, m', start, start + ITEM * |recs|)
    ensures AllHeld(m', start, recs)
  {
    forall n | 0 <= n < |recs| ensures Holds(m', start, n, recs[n]) {
      assert Holds(m, start, n, recs[n]);
      assert ITEM * n + ITEM <= ITEM * |recs|;
    }
  }

  lemma OneMore(m: seq<Byte>, start: nat, recs: seq<seq<Byte>>, v: seq<Byte>)
    requires AllHeld(m, start, recs) && Holds(m, start, |recs|, v)
    ensures AllHeld(m, start, recs + [v])
  {
    forall n | 0 <= n < |recs + [v]| ensures Holds(m, start, n, (recs + [v])[n]) {
    }
  }

  /** The record made of the bytes at two addresses. */
  function Item(m: seq<Byte>, key: nat, value: nat): (v: seq<Byte>)
    requires key + KEY_LENGTH <= |m| && value + VALUE_LENGTH <= |m|
    ensures |v| == ITEM
  {
    m[key..key + KEY_LENGTH] + m[value..value + VALUE_LENGTH]
  }

  /** The bytes v were written at an address, and no others. */
  ghost predicate WithItem(m: seq<Byte>, m': seq<Byte>, at: nat, v: seq<Byte>)
  {
    |m'| == |m| && |v| == ITEM && forall x :: 0 <= x < |m| ==> m'[x] == if at <= x < at + ITEM then v[x - at] else m[x]
  }

  lemma MovesAll(dest: nat, len: nat)
    requires len > 0
    ensures Moved(dest, len) == len
  {
  }

  /** Two copies, one behind the other, from buffers that lie elsewhere. */
  lemma TwoCopies(m: seq<Byte>, at: nat, key: nat, value: nat)
    requires at + ITEM <= |m| && key + KEY_LENGTH <= |m| && value + VALUE_LENGTH <= |m|
    requires value + VALUE_LENGTH <= at || at + ITEM <= value
    ensures WithItem(m, Copied(Copied(m, at, key, KEY_LENGTH), at + KEY_LENGTH, value, VALUE_LENGTH), at, Item(m, key, value))
  {
  }

  lemma Appended(m: seq<Byte>, m': seq<Byte>, start: nat, recs: seq<seq<Byte>>, v: seq<Byte>)
    requires AllHeld(m, start, recs) && WithItem(m, m', start + ITEM * |recs|, v) && start + ITEM * |recs| + ITEM <= |m|
    ensures AllHeld(m', start, recs + [v])
  {
    assert SameUpTo(m, m', start, start + ITEM * |recs|);
    StillHeld(m, m', start, recs);
    OneMore(m', start, recs, v);
  }

  /** A record begins on a multiple of 16, as the streaming stores want it. */
  lemma ItemAligned(start: nat, n: nat)
    requires start % 16 == 0
    ensures (start + ITEM * n) % 16 == 0
  {
    assert start + ITEM * n == 16 * (start / 16 + 20 * n);
  }

  class Plog {
    const mem: Memory
    const start: nat
    const end: nat
    var cur: nat
    /** The records appended so far. */
    ghost var recs: seq<seq<Byte>>

    ghost predicate Valid()
      reads this, mem, mem.bytes
    {
      start % 16 == 0 && cur == ITEM * |recs| && mem.bytes.Length <= WORD && AllHeld(mem.bytes[..], start, recs)
    }

    constructor (memory: Memory, raw: nat, numKv: nat, numPartition: nat)
      requires numPartition > 0 && memory.bytes.Length <= WORD
      ensures Valid() && recs == [] && mem == memory
      ensures start == Aligned(raw) && end == raw + 480 * (numKv / numPartition) && Room() >= numKv / numPartition
    {
      mem := memory;
      start := Aligned(raw);
      end := raw + Space(numKv, numPartition);
      cur := 0;
      recs := [];
      new;
      var share := numKv / numPartition;
      SpaceIs(numKv, numPartition);
      ShareFits(raw, numKv, numPartition, share);
      if share > 0 { RoomIs(share - 1); }
    }

    /** The records that the partition has room for. */
    ghost function Room(): nat
    {
      if end < start then 0 else (end - start) / ITEM
    }

    /**
    append, of a key and a value; the value is not where the record goes.  Whether the partition has room is
    not looked at: the record is written behind the last one in any case, and beyond the end exactly when
    there was no room.
    */
    method Append(key: nat, value: nat) returns (addr: nat)
      requires Valid() && start + cur + ITEM <= mem.bytes.Length
      requires value + VALUE_LENGTH <= start + cur || start + cur + ITEM <= value
      requires key + KEY_LENGTH <= mem.bytes.Length && value + VALUE_LENGTH <= mem.bytes.Length
      modifies this, mem, mem.bytes
      ensures Valid()
      ensures recs == old(recs) + [Item(old(mem.bytes[..]), key, value)] && addr == start + ITEM * |old(recs)|
      ensures forall x :: 0 <= x < mem.bytes.Length && !(addr <= x < addr + ITEM) ==> mem.bytes[x] == old(mem.bytes[x])
      ensures addr + ITEM <= end <==> |old(recs)| < Room()
      ensures cur == old(cur) + ITEM
    {
      hide *;
      Lengths();
      ValidIs();
      addr := start + cur;
      ItemAligned(start, |recs|);
      assert addr % 16 == 0;
      ghost var m := mem.bytes[..];
      TwoCopies(m, addr, key, value);
      MovesAll(addr, KEY_LENGTH);
      MovesAll(addr + KEY_LENGTH, VALUE_LENGTH);
      mem.NvmemMemcpy(addr, key, KEY_LENGTH);
      mem.NvmemMemcpy(addr + KEY_LENGTH, value, VALUE_LENGTH);
      cur := cur + ITEM;
      Appended(m, mem.bytes[..], start, recs, Item(m, key, value));
      recs := recs + [Item(m, key, value)];
      NowValid();
      Elsewhere(m, mem.bytes[..], addr, Item(m, key, value));
      RoomIs(|old(recs)|);
    }

    lemma RoomIs(n: nat)
      ensures start + ITEM * n + ITEM <= end <==> n < Room()
    {
      if end >= start {
        var d := end - start;
        assert d == ITEM * (d / ITEM) + d % ITEM;
      }
    }

    lemma ValidIs()
      requires Valid()
      ensures start % 16 == 0 && cur == ITEM * |recs| && mem.bytes.Length <= WORD && AllHeld(mem.bytes[..], start, recs)
    {
    }

    lemma NowValid()
      requires start % 16 == 0 && cur == ITEM * |recs| && mem.bytes.Length <= WORD && AllHeld(mem.bytes[..], start, recs)
      ensures Valid()
    {
    }
  }

  lemma Elsewhere(m: seq<Byte>, m': seq<Byte>, at: nat, v: seq<Byte>)
    requires WithItem(m, m', at, v)
    ensures forall x :: 0 <= x < |m'| && !(at <= x < at + ITEM) ==> m'[x] == m[x]
  {
  }
}
