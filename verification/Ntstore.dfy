/**
The persistent copy of ntstore/ntstore.c: memmove with non-temporal stores for whole cache lines and
ordinary stores, flushed afterwards, for the rest.  Memory is an array of bytes; an address is an
index.  Two ghost sets follow each byte on its way to the persistence domain.
*/
module Ntstore {
  type Byte = x: int | 0 <= x < 256

  /** Addresses are of this width. */
  const WORD: nat := 0x1_0000_0000_0000_0000

  /** m after n bytes have been copied from src to dest, all at once. */
  function Copied(m: seq<Byte>, dest: nat, src: nat, n: nat): (r: seq<Byte>)
    requires dest + n <= |m| && src + n <= |m|
    ensures |r| == |m| && forall i :: 0 <= i < |m| ==> r[i] == if dest <= i < dest + n then m[src + (i - dest)] else m[i]
  {
    seq(|m|, i requires 0 <= i < |m| => if dest <= i < dest + n then m[src + (i - dest)] else m[i])
  }

  /** m with v at address a. */
  function Written(m: seq<Byte>, a: nat, v: seq<Byte>): (r: seq<Byte>)
    requires a + |v| <= |m|
    ensures |r| == |m|
  {
    m[..a] + v + m[a + |v|..]
  }

  lemma WrittenAt(m: seq<Byte>, a: nat, v: seq<Byte>, i: nat)
    requires a + |v| <= |m| && i < |m|
    ensures Written(m, a, v)[i] == if a <= i < a + |v| then v[i - a] else m[i]
  {
  }

  /** One store of a piece of the source. */
  lemma OnePiece(m: seq<Byte>, dest: nat, src: nat, n: nat)
    requires dest + n <= |m| && src + n <= |m|
    ensures Written(m, dest, m[src..src + n]) == Copied(m, dest, src, n)
  {
  }

  /** After n bytes, a piece that begins at offset o <= n and ends at o + w >= n; it was loaded before any store. */
  lemma NextPiece(m: seq<Byte>, dest: nat, src: nat, n: nat, o: nat, w: nat)
    requires o <= n <= o + w && dest + o + w <= |m| && src + o + w <= |m|
    ensures Written(Copied(m, dest, src, n), dest + o, m[src + o..src + o + w]) == Copied(m, dest, src, o + w)
  {
    var c, v := Copied(m, dest, src, n), m[src + o..src + o + w];
    var r, t := Written(c, dest + o, v), Copied(m, dest, src, o + w);
    forall i: nat | i < |m| ensures r[i] == t[i] {
      WrittenAt(c, dest + o, v, i);
    }
  }

  /** On a cache line boundary. */
  predicate AtLine(x: int)
  {
    x % 64 == 0
  }

  lemma AtLineOn(x: int, n: int)
    requires AtLine(x) && n % 16 == 0
    ensures (x + n) % 16 == 0 && (x - n) % 16 == 0 && (n % 64 == 0 ==> AtLine(x + n) && AtLine(x - n))
  {
    var a, b, c := x / 64, n / 16, n / 64;
    Multiple(4 * a + b, 16);
    Multiple(4 * a - b, 16);
    Multiple(a + c, 64);
    Multiple(a - c, 64);
  }

  lemma Multiple(q: int, d: int)
    requires d == 16 || d == 64
    ensures (d * q) % d == 0
  {
  }

  lemma LineStart(x: nat)
    ensures AtLine(x - x % 64) && (x % 64 == 0 ==> AtLine(x)) && AtLine(x + (64 - x % 64))
  {
  }

  /** A power of two that ends or begins at a line is aligned to itself. */
  lemma AtLineTail(x: int, n: int)
    requires AtLine(x)
    ensures n == 32 || n == 16 ==> x % 16 == 0 && (x - n) % 16 == 0
    ensures n == 8 ==> x % 8 == 0 && (x - n) % 8 == 0
    ensures n == 4 ==> x % 4 == 0 && (x - n) % 4 == 0
  {
    var q := x / 64;
    assert x == 64 * q;
    if n == 32 || n == 16 { By16(4 * q, n / 16); }
    if n == 8 { By8(8 * q, 1); }
    if n == 4 { By4(16 * q, 1); }
  }

  lemma By16(a: int, b: int)
    ensures (16 * a) % 16 == 0 && (16 * a - 16 * b) % 16 == 0
  {
    assert 16 * a - 16 * b == 16 * (a - b);
  }

  lemma By8(a: int, b: int)
    ensures (8 * a) % 8 == 0 && (8 * a - 8 * b) % 8 == 0
  {
    assert 8 * a - 8 * b == 8 * (a - b);
  }

  lemma By4(a: int, b: int)
    ensures (4 * a) % 4 == 0 && (4 * a - 4 * b) % 4 == 0
  {
    assert 4 * a - 4 * b == 4 * (a - b);
  }

  /** Going up is safe when the source is not overwritten before it is read: it lies above or clear of dest. */
  lemma CopyUp(m: seq<Byte>, dest: nat, src: nat, k: nat, n: nat, len: nat)
    requires dest + len <= |m| && src + len <= |m| && k + n <= len && (dest <= src || src + len <= dest)
    ensures Copied(Copied(m, dest, src, k), dest + k, src + k, n) == Copied(m, dest, src, k + n)
  {
  }

  /** Going down is safe when dest lies above the source. */
  lemma CopyDown(m: seq<Byte>, dest: nat, src: nat, r: nat, n: nat, len: nat)
    requires dest + len <= |m| && src + len <= |m| && n <= r <= len && src <= dest
    ensures Copied(Copied(m, dest + r, src + r, len - r), dest + r - n, src + r - n, n) == Copied(m, dest + r - n, src + r - n, len - r + n)
  {
  }

  /** The direction test of nvmem_memcpy, an unsigned difference, tells the two cases apart. */
  lemma Direction(dest: nat, src: nat, len: nat)
    requires dest + len <= WORD && src + len <= WORD && dest < WORD && src < WORD
    ensures (dest - src) % WORD >= len <==> dest < src || src + len <= dest
  {
    if dest < src {
      assert (dest - src) % WORD == dest - src + WORD;
    } else {
      assert (dest - src) % WORD == dest - src;
    }
  }

  /** A copy of nothing to an unaligned address still moves a byte. */
  function Moved(dest: nat, len: nat): nat
  {
    if len == 0 && dest % 64 != 0 then 1 else len
  }

  /** The small copy moves at least a byte. */
  function Most(len: nat): nat
  {
    if len == 0 then 1 else len
  }

  class Memory {
    const bytes: array<Byte>
    /** Written by an ordinary store and not flushed since. */
    ghost var dirty: set<int>
    /** Written by a streaming store, or flushed after the last ordinary one: the next fence makes it durable. */
    ghost var safe: set<int>

    constructor (size: nat)
      ensures bytes.Length == size && fresh(bytes) && dirty == {} && safe == {}
    {
      bytes := new Byte[size](_ => 0);
      dirty, safe := {}, {};
    }

    /** Every byte of the range has been written and will survive the next fence. */
    ghost predicate Kept(a: nat, n: nat)
      reads `safe
    {
      forall x :: a <= x < a + n ==> x in safe
    }

    function Load(a: nat, n: nat): (v: seq<Byte>)
      requires a + n <= bytes.Length
      reads bytes
      ensures |v| == n && v == bytes[..][a..a + n]
    {
      bytes[a..a + n]
    }

    /** An ordinary store. */
    method Store(a: nat, v: seq<Byte>)
      requires a + |v| <= bytes.Length
      modifies bytes, this
      ensures bytes[..] == Written(old(bytes[..]), a, v)
      ensures forall x :: x in dirty <==> x in old(dirty) || a <= x < a + |v|
      ensures forall x :: x in safe <==> x in old(safe) && !(a <= x < a + |v|)
    {
      forall i | a <= i < a + |v| {
        bytes[i] := v[i - a];
      }
      dirty, safe := dirty + Range(a, |v|), safe - Range(a, |v|);
    }

    /** A streaming store: the address has to be a multiple of the width. */
    method Stream(a: nat, v: seq<Byte>)
      requires a + |v| <= bytes.Length && (|v| == 4 || |v| == 8 || |v| == 16) && a % |v| == 0
      modifies bytes, this
      ensures bytes[..] == Written(old(bytes[..]), a, v)
      ensures forall x :: x in dirty <==> x in old(dirty) && !(a <= x < a + |v|)
      ensures forall x :: x in safe <==> x in old(safe) || a <= x < a + |v|
    {
      forall i | a <= i < a + |v| {
        bytes[i] := v[i - a];
      }
      dirty, safe := dirty - Range(a, |v|), safe + Range(a, |v|);
    }

    /** clflushopt of the line at a. */
    method FlushLine(a: nat)
      requires a % 64 == 0
      modifies this
      ensures dirty == old(dirty) - Range(a, 64) && safe == old(safe) + (old(dirty) * Range(a, 64))
    {
      dirty, safe := dirty - Range(a, 64), safe + (dirty * Range(a, 64));
    }

    /** flushopt: every line that meets the range. */
    method FlushOpt(addr: nat, len: nat)
      modifies this
      ensures forall x :: x in old(safe) ==> x in safe
      ensures forall x :: addr <= x < addr + len && x in old(dirty) ==> x in safe
    {
      var p := addr - addr % 64;
      while p < addr + len
        invariant p % 64 == 0 && addr - addr % 64 <= p
        invariant forall x :: x in old(safe) ==> x in safe
        invariant forall x :: addr <= x < p && x in old(dirty) ==> x in safe
        invariant forall x :: p <= x && x in old(dirty) ==> x in dirty
        decreases addr + len - p
      {
        FlushLine(p);
        p := p + 64;
      }
    }

    /** What an ordinary copy leaves: the bytes of the range, to be flushed, and all else as it was. */
    ghost predicate Stored(m: seq<Byte>, kept: set<int>, dest: nat, src: nat, n: nat)
      reads this, bytes
    {
      && dest + n <= |m| && src + n <= |m| && bytes[..] == Copied(m, dest, src, n)
      && (forall x :: dest <= x < dest + n ==> x in dirty)
      && (forall x :: x in kept && !(dest <= x < dest + n) ==> x in safe)
    }

    /** The first store of a small copy. */
    method FirstPiece(dest: nat, src: nat, v: seq<Byte>)
      requires dest + |v| <= bytes.Length && src + |v| <= bytes.Length && v == bytes[..][src..src + |v|]
      modifies bytes, this
      ensures Stored(old(bytes[..]), old(safe), dest, src, |v|)
    {
      hide Copied, Written;
      OnePiece(bytes[..], dest, src, |v|);
      Store(dest, v);
    }

    /** A further store, of a piece loaded before the first: it begins where, or before, the last one ended. */
    method MorePiece(dest: nat, src: nat, n: nat, o: nat, v: seq<Byte>, ghost m: seq<Byte>, ghost kept: set<int>)
      requires Stored(m, kept, dest, src, n) && o <= n <= o + |v| && |m| == bytes.Length
      requires dest + o + |v| <= |m| && src + o + |v| <= |m| && v == m[src + o..src + o + |v|]
      modifies bytes, this
      ensures Stored(m, kept, dest, src, o + |v|)
    {
      hide Copied, Written;
      NextPiece(m, dest, src, n, o, |v|);
      Store(dest + o, v);
    }

    /** Two loads, then two stores, of w bytes each; they may overlap. */
    method TwoPieces(dest: nat, src: nat, len: nat, w: nat)
      requires dest + len <= bytes.Length && src + len <= bytes.Length && w <= len <= 2 * w
      modifies bytes, this
      ensures Stored(old(bytes[..]), old(safe), dest, src, len)
    {
      hide *;
      ghost var m, kept := bytes[..], safe;
      var x0 := Load(src, w);
      var x1 := Load(src + len - w, w);
      FirstPiece(dest, src, x0);
      MorePiece(dest, src, w, len - w, x1, m, kept);
    }

    /** 33 to 48 bytes. */
    method ThreePieces(dest: nat, src: nat, len: nat)
      requires dest + len <= bytes.Length && src + len <= bytes.Length && 32 <= len <= 48
      modifies bytes, this
      ensures Stored(old(bytes[..]), old(safe), dest, src, len)
    {
      hide *;
      ghost var m, kept := bytes[..], safe;
      var x0 := Load(src, 16);
      var x1 := Load(src + 16, 16);
      var x2 := Load(src + len - 16, 16);
      FirstPiece(dest, src, x0);
      MorePiece(dest, src, 16, 16, x1, m, kept);
      MorePiece(dest, src, 32, len - 16, x2, m, kept);
    }

    /** 49 to 64 bytes. */
    method FourPieces(dest: nat, src: nat, len: nat)
      requires dest + len <= bytes.Length && src + len <= bytes.Length && 48 <= len <= 64
      modifies bytes, this
      ensures Stored(old(bytes[..]), old(safe), dest, src, len)
    {
      hide *;
      ghost var m, kept := bytes[..], safe;
      var x0 := Load(src, 16);
      var x1 := Load(src + 16, 16);
      var x2 := Load(src + 32, 16);
      var x3 := Load(src + len - 16, 16);
      FirstPiece(dest, src, x0);
      MorePiece(dest, src, 16, 16, x1, m, kept);
      MorePiece(dest, src, 32, 32, x2, m, kept);
      MorePiece(dest, src, 48, len - 16, x3, m, kept);
    }

    /** memmove_small_sse2_noflush: everything is loaded before anything is stored. */
    method SmallNoFlush(dest: nat, src: nat, len: nat)
      requires len <= 64 && dest + Most(len) <= bytes.Length && src + Most(len) <= bytes.Length
      modifies bytes, this
      ensures Stored(old(bytes[..]), old(safe), dest, src, Most(len))
    {
      if len > 48 {
        FourPieces(dest, src, len);
      } else if len > 32 {
        ThreePieces(dest, src, len);
      } else if len > 16 {
        TwoPieces(dest, src, len, 16);
      } else if len > 8 {
        TwoPieces(dest, src, len, 8);
      } else if len > 4 {
        TwoPieces(dest, src, len, 4);
      } else if len > 2 {
        TwoPieces(dest, src, len, 2);
      } else if len == 2 {
        var d := Load(src, 2);
        FirstPiece(dest, src, d);
      } else {
        var d := Load(src, 1);
        FirstPiece(dest, src, d);
      }
    }

    /** The range is copied and safe, and what was safe elsewhere still is. */
    ghost predicate Persisted(m: seq<Byte>, kept: set<int>, dest: nat, src: nat, n: nat)
      reads this, bytes
    {
      && dest + n <= |m| && src + n <= |m| && bytes[..] == Copied(m, dest, src, n)
      && Kept(dest, n)
      && (forall x :: x in kept && !(dest <= x < dest + n) ==> x in safe)
    }

    /** memmove_small_sse2. */
    method Small(dest: nat, src: nat, len: nat)
      requires 0 < len <= 64 && dest + len <= bytes.Length && src + len <= bytes.Length
      modifies bytes, this
      ensures Persisted(old(bytes[..]), old(safe), dest, src, len)
    {
      SmallNoFlush(dest, src, len);
      FlushOpt(dest, len);
    }

    /** memmove_movnt4x64b down to memmove_movnt1x16b: all registers are loaded, then streamed one by one. */
    method Movnt(dest: nat, src: nat, n: nat)
      requires n % 16 == 0 && dest % 16 == 0 && dest + n <= bytes.Length && src + n <= bytes.Length
      modifies bytes, this
      ensures Persisted(old(bytes[..]), old(safe), dest, src, n)
    {
      hide *;
      ghost var m, kept := bytes[..], safe;
      var xmm := Load(src, n);
      var i := 0;
      StreamStart(dest, src);
      while i < n
        invariant i <= n && i % 16 == 0 && Persisted(m, kept, dest, src, i)
      {
        StreamPiece(dest, src, i, xmm[i..i + 16], m, kept);
        i := i + 16;
      }
    }

    lemma StreamStart(dest: nat, src: nat)
      requires dest <= bytes.Length && src <= bytes.Length
      ensures Persisted(bytes[..], safe, dest, src, 0)
    {
    }

    /** A further streaming store, of a piece loaded before the first. */
    method StreamPiece(dest: nat, src: nat, n: nat, v: seq<Byte>, ghost m: seq<Byte>, ghost kept: set<int>)
      requires Persisted(m, kept, dest, src, n) && (|v| == 4 || |v| == 8 || |v| == 16) && |m| == bytes.Length && (dest + n) % |v| == 0
      requires dest + n + |v| <= |m| && src + n + |v| <= |m| && v == m[src + n..src + n + |v|]
      modifies bytes, this
      ensures Persisted(m, kept, dest, src, n + |v|)
    {
      hide Copied, Written;
      NextPiece(m, dest, src, n, n, |v|);
      Stream(dest + n, v);
    }

    /** memmove_movnt1x8b and memmove_movnt1x4b. */
    method MovntWord(dest: nat, src: nat, w: nat)
      requires (w == 4 || w == 8) && dest % w == 0 && dest + w <= bytes.Length && src + w <= bytes.Length
      modifies bytes, this
      ensures Persisted(old(bytes[..]), old(safe), dest, src, w)
    {
      hide *;
      ghost var m, kept := bytes[..], safe;
      StreamStart(dest, src);
      var d := Load(src, w);
      StreamPiece(dest, src, 0, d, m, kept);
    }

    /** The last len bytes of a copy, less than a line; dest is aligned to len if len is a power of two. */
    method Tail(dest: nat, src: nat, len: nat)
      requires 0 < len < 64 && dest + len <= bytes.Length && src + len <= bytes.Length
      requires (len == 32 || len == 16 ==> dest % 16 == 0) && (len == 8 ==> dest % 8 == 0) && (len == 4 ==> dest % 4 == 0)
      modifies bytes, this
      ensures Persisted(old(bytes[..]), old(safe), dest, src, len)
    {
      if len == 32 || len == 16 {
        Movnt(dest, src, len);
      } else if len == 8 || len == 4 {
        MovntWord(dest, src, len);
      } else {
        Small(dest, src, len);
      }
    }

    /** Of a copy of len bytes out of the memory m the first k are done, going up. */
    ghost predicate Up(m: seq<Byte>, dest: nat, src: nat, k: nat, len: nat)
      reads this, bytes
    {
      && |m| == bytes.Length && dest + len <= |m| && src + len <= |m| && k <= len && (dest <= src || src + len <= dest)
      && bytes[..] == Copied(m, dest, src, k) && Kept(dest, k)
    }

    /** ... the last len - r are done, going down. */
    ghost predicate Down(m: seq<Byte>, dest: nat, src: nat, r: nat, len: nat)
      reads this, bytes
    {
      && |m| == bytes.Length && dest + len <= |m| && src + len <= |m| && r <= len && src <= dest
      && bytes[..] == Copied(m, dest + r, src + r, len - r) && Kept(dest + r, len - r)
    }

    /** Everything of the range is in the set. */
    static ghost predicate AllIn(kept: set<int>, a: nat, n: nat)
    {
      forall x :: a <= x < a + n ==> x in kept
    }

    lemma UpOn(m: seq<Byte>, m1: seq<Byte>, kept: set<int>, dest: nat, src: nat, k: nat, n: nat, len: nat)
      requires |m| == bytes.Length && dest + len <= |m| && src + len <= |m| && (dest <= src || src + len <= dest) && k + n <= len
      requires m1 == Copied(m, dest, src, k) && AllIn(kept, dest, k) && Persisted(m1, kept, dest + k, src + k, n)
      ensures Up(m, dest, src, k + n, len)
    {
      hide Copied;
      CopyUp(m, dest, src, k, n, len);
    }

    lemma DownOn(m: seq<Byte>, m1: seq<Byte>, kept: set<int>, dest: nat, src: nat, r: nat, n: nat, len: nat)
      requires |m| == bytes.Length && dest + len <= |m| && src + len <= |m| && src <= dest && n <= r <= len
      requires m1 == Copied(m, dest + r, src + r, len - r) && AllIn(kept, dest + r, len - r)
      requires Persisted(m1, kept, dest + r - n, src + r - n, n)
      ensures Down(m, dest, src, r - n, len)
    {
      hide Copied;
      CopyDown(m, dest, src, r, n, len);
    }

    lemma UpStart(dest: nat, src: nat, len: nat)
      requires dest + len <= bytes.Length && src + len <= bytes.Length && (dest <= src || src + len <= dest)
      ensures Up(bytes[..], dest, src, 0, len)
    {
    }

    lemma DownStart(dest: nat, src: nat, len: nat)
      requires dest + len <= bytes.Length && src + len <= bytes.Length && src <= dest
      ensures Down(bytes[..], dest, src, len, len)
    {
    }

    lemma UpIs(m: seq<Byte>, dest: nat, src: nat, k: nat, len: nat)
      requires Up(m, dest, src, k, len)
      ensures |m| == bytes.Length && dest + len <= |m| && src + len <= |m| && (dest <= src || src + len <= dest) && k <= len
      ensures bytes[..] == Copied(m, dest, src, k) && AllIn(safe, dest, k)
    {
    }

    lemma DownIs(m: seq<Byte>, dest: nat, src: nat, r: nat, len: nat)
      requires Down(m, dest, src, r, len)
      ensures |m| == bytes.Length && dest + len <= |m| && src + len <= |m| && src <= dest && r <= len
      ensures bytes[..] == Copied(m, dest + r, src + r, len - r) && AllIn(safe, dest + r, len - r)
    {
    }

    /** n bytes of whole registers, going up. */
    method UpBlock(dest: nat, src: nat, k: nat, n: nat, ghost m: seq<Byte>, ghost len: nat)
      requires Up(m, dest, src, k, len) && k + n <= len && n % 16 == 0 && AtLine(dest + k)
      modifies bytes, this
      ensures Up(m, dest, src, k + n, len)
    {
      hide *;
      UpIs(m, dest, src, k, len);
      ghost var m1, kept := bytes[..], safe;
      AtLineOn(dest + k, 0);
      Movnt(dest + k, src + k, n);
      UpOn(m, m1, kept, dest, src, k, n, len);
    }

    method UpTail(dest: nat, src: nat, k: nat, len: nat, ghost m: seq<Byte>)
      requires Up(m, dest, src, k, len) && k < len && len - k < 64 && AtLine(dest + k)
      modifies bytes, this
      ensures Up(m, dest, src, len, len)
    {
      hide *;
      UpIs(m, dest, src, k, len);
      ghost var m1, kept := bytes[..], safe;
      AtLineTail(dest + k, len - k);
      Tail(dest + k, src + k, len - k);
      UpOn(m, m1, kept, dest, src, k, len - k, len);
    }

    /** The bytes before the first line boundary. */
    method UpHead(dest: nat, src: nat, len: nat, ghost m: seq<Byte>) returns (k: nat)
      requires Up(m, dest, src, 0, len) && 0 < len
      modifies bytes, this
      ensures k <= len && Up(m, dest, src, k, len) && (k == len || AtLine(dest + k))
    {
      hide *;
      UpIs(m, dest, src, 0, len);
      ghost var m1, kept := bytes[..], safe;
      k := dest % 64;
      LineStart(dest);
      if k > 0 {
        k := 64 - k;
        if k > len {
          k := len;
        }
        Small(dest, src, k);
        UpOn(m, m1, kept, dest, src, 0, k, len);
      }
    }

    /** memmove_movnt_sse_fw. */
    method Forward(dest: nat, src: nat, len: nat)
      requires 0 < len && dest + len <= bytes.Length && src + len <= bytes.Length && (dest <= src || src + len <= dest)
      modifies bytes, this
      ensures Up(old(bytes[..]), dest, src, len, len)
    {
      hide *;
      ghost var m := bytes[..];
      UpStart(dest, src, len);
      var k: nat := UpHead(dest, src, len, m);
      while len - k >= 256
        invariant k <= len && Up(m, dest, src, k, len) && (k == len || AtLine(dest + k))
      {
        AtLineOn(dest + k, 256);
        UpBlock(dest, src, k, 256, m, len);
        k := k + 256;
      }
      if len - k >= 128 {
        AtLineOn(dest + k, 128);
        UpBlock(dest, src, k, 128, m, len);
        k := k + 128;
      }
      if len - k >= 64 {
        AtLineOn(dest + k, 64);
        UpBlock(dest, src, k, 64, m, len);
        k := k + 64;
      }
      if k < len {
        UpTail(dest, src, k, len, m);
      }
    }

    /** n bytes of whole registers, going down. */
    method DownBlock(dest: nat, src: nat, r: nat, n: nat, ghost m: seq<Byte>, ghost len: nat)
      requires Down(m, dest, src, r, len) && n <= r && n % 16 == 0 && AtLine(dest + r)
      modifies bytes, this
      ensures Down(m, dest, src, r - n, len)
    {
      hide *;
      DownIs(m, dest, src, r, len);
      ghost var m1, kept := bytes[..], safe;
      AtLineOn(dest + r, n);
      Movnt(dest + r - n, src + r - n, n);
      DownOn(m, m1, kept, dest, src, r, n, len);
    }

    method DownTail(dest: nat, src: nat, r: nat, ghost m: seq<Byte>, ghost len: nat)
      requires Down(m, dest, src, r, len) && 0 < r < 64 && AtLine(dest + r)
      modifies bytes, this
      ensures Down(m, dest, src, 0, len)
    {
      hide *;
      DownIs(m, dest, src, r, len);
      ghost var m1, kept := bytes[..], safe;
      AtLineTail(dest + r, r);
      Tail(dest, src, r);
      DownOn(m, m1, kept, dest, src, r, r, len);
    }

    /** The bytes after the last line boundary. */
    method DownHead(dest: nat, src: nat, len: nat, ghost m: seq<Byte>) returns (r: nat)
      requires Down(m, dest, src, len, len) && 0 < len
      modifies bytes, this
      ensures r <= len && Down(m, dest, src, r, len) && (r == 0 || AtLine(dest + r))
    {
      hide *;
      DownIs(m, dest, src, len, len);
      ghost var m1, kept := bytes[..], safe;
      r := len;
      var cnt := (dest + len) % 64;
      LineStart(dest + len);
      if cnt > 0 {
        if cnt > len {
          cnt := len;
        }
        r := len - cnt;
        Small(dest + r, src + r, cnt);
        DownOn(m, m1, kept, dest, src, len, cnt, len);
      }
    }

    /** memmove_movnt_sse_bw. */
    method Backward(dest: nat, src: nat, len: nat)
      requires 0 < len && dest + len <= bytes.Length && src + len <= bytes.Length && src <= dest
      modifies bytes, this
      ensures Down(old(bytes[..]), dest, src, 0, len)
    {
      hide *;
      ghost var m := bytes[..];
      DownStart(dest, src, len);
      var r: nat := DownHead(dest, src, len, m);
      while r >= 256
        invariant r <= len && Down(m, dest, src, r, len) && (r == 0 || AtLine(dest + r))
      {
        AtLineOn(dest + r, 256);
        DownBlock(dest, src, r, 256, m, len);
        r := r - 256;
      }
      if r >= 128 {
        AtLineOn(dest + r, 128);
        DownBlock(dest, src, r, 128, m, len);
        r := r - 128;
      }
      if r >= 64 {
        AtLineOn(dest + r, 64);
        DownBlock(dest, src, r, 64, m, len);
        r := r - 64;
      }
      if r > 0 {
        DownTail(dest, src, r, m, len);
      }
    }

    /** nvmem_memcpy: dest becomes what src was, overlapping or not, nothing else changes, and all of it is durable. */
    method NvmemMemcpy(dest: nat, src: nat, len: nat)
      requires dest + Moved(dest, len) <= bytes.Length <= WORD && src + Moved(dest, len) <= bytes.Length && dest < WORD && src < WORD
      modifies bytes, this
      ensures bytes[..] == Copied(old(bytes[..]), dest, src, Moved(dest, len))
      ensures Kept(dest, len)
      ensures bytes[..] == Copied(old(bytes[..]), dest, src, len)
              <==> len > 0 || dest % 64 == 0 || old(bytes[dest]) == old(bytes[src])
    {
      MovesLen(bytes[..], dest, src, len);
      safe, dirty := {}, {};
      Direction(dest, src, len);
      if (dest - src) % WORD >= len {
        if len == 0 {
          NothingForward(dest, src);
        } else {
          Forward(dest, src, len);
        }
      } else {
        Backward(dest, src, len);
      }
    }

    /** memmove_movnt_sse_fw with len == 0: the head, if dest is not on a line boundary, is a copy of no bytes. */
    method NothingForward(dest: nat, src: nat)
      requires dest + Moved(dest, 0) <= bytes.Length && src + Moved(dest, 0) <= bytes.Length
      modifies bytes, this
      ensures bytes[..] == Copied(old(bytes[..]), dest, src, Moved(dest, 0))
    {
      if dest % 64 > 0 {
        SmallNoFlush(dest, src, 0);
        FlushOpt(dest, 0);
      }
    }
  }

  function Range(a: nat, n: nat): (r: set<int>)
    ensures forall x :: x in r <==> a <= x < a + n
  {
    if n == 0 then {} else Range(a, n - 1) + {a + n - 1}
  }

  /** Exactly len bytes are copied if and only if there are any, or dest begins a line, or the stray byte was the same. */
  lemma MovesLen(m: seq<Byte>, dest: nat, src: nat, len: nat)
    requires dest + Moved(dest, len) <= |m| && src + Moved(dest, len) <= |m|
    ensures Copied(m, dest, src, Moved(dest, len)) == Copied(m, dest, src, len) <==> len > 0 || dest % 64 == 0 || m[dest] == m[src]
  {
    if Moved(dest, len) != len {
      var a, b := Copied(m, dest, src, 1), Copied(m, dest, src, 0);
      assert a[dest] == m[src] && b[dest] == m[dest];
      if m[dest] == m[src] { assert a == b; }
    }
  }

  /** A copy of no bytes that overwrites one. */
  method StrayByte() returns (m: Memory)
    ensures fresh(m) && m.bytes[..] == [5, 5]
  {
    m := new Memory(2);
    m.Store(0, [5, 7]);
    m.NvmemMemcpy(1, 0, 0);
  }
}
