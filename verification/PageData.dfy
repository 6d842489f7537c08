/**
What one page of the FAST-FAIR tree holds, as values.  Keys are 64-byte strings compared by memcmp,
a total order, so integers stand for them.  A `char *` slot holds NULL, the address of a page or
the address of a log record; the two kinds of address never coincide.
*/
module PageData {
  type Key = int

  datatype Ptr = Null | Child(page: nat) | Value(record: nat)

  datatype Entry = Entry(key: Key, ptr: Ptr)

  /** Keys strictly increase from index `from` on. */
  ghost predicate SortedFrom(s: seq<Entry>, from: nat)
  {
    forall i, j :: from <= i < j < |s| ==> s[i].key < s[j].key
  }

  /** insert_key walks down from the right while the new key is smaller. */
  function InsertPos(s: seq<Entry>, key: Key): (p: nat)
    ensures p <= |s|
    ensures forall i :: p <= i < |s| ==> key < s[i].key
    ensures p > 0 ==> s[p - 1].key <= key
  {
    if s == [] || s[|s| - 1].key <= key then |s| else InsertPos(s[..|s| - 1], key)
  }

  function Inserted(s: seq<Entry>, key: Key, ptr: Ptr): seq<Entry>
  {
    var p := InsertPos(s, key);
    s[..p] + [Entry(key, ptr)] + s[p..]
  }

  /** A slot is visible to readers when its pointer differs from its left neighbour's. */
  predicate Visible(leftmost: Ptr, s: seq<Entry>, i: nat)
    requires i < |s|
  {
    s[i].ptr != if i == 0 then leftmost else s[i - 1].ptr
  }

  /** The scan of a leaf: the pointer of the first visible slot with the key. */
  function SearchLeaf(s: seq<Entry>, key: Key, from: nat): Ptr
    requires from <= |s|
    decreases |s| - from
  {
    if from == |s| then Null
    else if s[from].key == key && Visible(Null, s, from) then s[from].ptr
    else SearchLeaf(s, key, from + 1)
  }

  /** The scan of an internal page: the pointer left of the first visible slot with a larger key. */
  function SearchInternal(leftmost: Ptr, s: seq<Entry>, key: Key, from: nat): Ptr
    requires from <= |s|
    decreases |s| - from
  {
    if from == |s| then if from == 0 then leftmost else s[from - 1].ptr
    else if key < s[from].key && Visible(leftmost, s, from) then if from == 0 then leftmost else s[from - 1].ptr
    else SearchInternal(leftmost, s, key, from + 1)
  }

  /** insert_key leaves an even (left to right) counter alone and makes an odd one even. */
  function Forward(counter: nat): nat
  {
    if counter % 2 == 0 then counter else (counter + 1) % 256
  }

  /** remove_key leaves an odd (right to left) counter alone and makes an even one odd. */
  function Backward(counter: nat): nat
  {
    if counter % 2 == 0 then (counter + 1) % 256 else counter
  }

  /** The counter after a split: a different even value, in 8 bits. */
  function Bump(counter: nat): nat
  {
    if counter % 2 == 0 then (counter + 2) % 256 else (counter + 1) % 256
  }

  /** Only an odd counter moves, one step in 8 bits, and the result is even. */
  predicate TurnedForward(before: nat, after: nat)
  {
    after % 2 == 0 && (after == before || after == (before + 1) % 256) && (after == before <==> before % 2 == 0)
  }

  /** Only an even counter moves, one step in 8 bits, and the result is odd. */
  predicate TurnedBackward(before: nat, after: nat)
  {
    after % 2 == 1 && (after == before || after == (before + 1) % 256) && (after == before <==> before % 2 == 1)
  }

  /** The result is even and new to a reader that saw the old value: two steps on from an even one, one from an odd one. */
  predicate Bumped(before: nat, after: nat)
  {
    after % 2 == 0 && after != before && after == (before + 2 - before % 2) % 256
  }

  lemma ForwardIs(c: nat)
    ensures TurnedForward(c, Forward(c))
  {
    EvenMod(c + c % 2);
  }

  lemma BackwardIs(c: nat)
    ensures TurnedBackward(c, Backward(c))
  {
    var q := (c + 1) / 256;
    assert (c + 1) % 256 == c + 1 - 2 * (128 * q);
  }

  lemma BumpIs(c: nat)
    ensures Bumped(c, Bump(c)) && Forward(Bump(c)) == Bump(c)
  {
    EvenMod(c + 2 - c % 2);
  }

  lemma EvenMod(a: nat)
    requires a % 2 == 0
    ensures (a % 256) % 2 == 0
  {
    var q, h := a / 256, a / 2;
    assert a % 256 == 2 * (h - 128 * q);
  }
}
