/**
The lazily split table of tbb/concurrent_hash_map.h.  Growing the table only adds unsplit buckets; a
bucket is split off its parent (its index without the highest bit) when somebody first needs it.
One critical section on a bucket is one step here.
*/
module HashMap {
  import opened Bits

  type Key = int

  /** The hash is a function of the key; it is computed again from the key whenever the code needs it. */
  datatype Node = Node(key: Key, hash: nat, value: int)

  /** node_list == rehash_req, or a list. */
  datatype Bucket = Pending | Ready(nodes: seq<Node>)

  datatype Option<T> = None | Some(value: T)

  // ----- where a hash belongs -----

  /** The bucket has been split off for good: it is not being filled by anybody either. */
  predicate Done(bs: seq<Bucket>, busy: set<nat>, x: nat)
    requires x < |bs|
  {
    bs[x].Ready? && x !in busy
  }

  /** The first finished bucket on the way from x down to bucket 0 or 1. */
  function Home(bs: seq<Bucket>, busy: set<nat>, x: nat): (h: nat)
    requires x < |bs|
    ensures h <= x && (h <= 1 || Done(bs, busy, h))
  {
    if x <= 1 || Done(bs, busy, x) then x else Home(bs, busy, ClearTop(x))
  }

  /** The lowest two buckets are finished, and a finished bucket's parent is. */
  ghost predicate Closed(bs: seq<Bucket>, busy: set<nat>)
  {
    && 2 <= |bs| && Done(bs, busy, 0) && Done(bs, busy, 1)
    && forall x :: 1 < x < |bs| && Done(bs, busy, x) ==> Done(bs, busy, ClearTop(x))
  }

  /** A finished bucket's ancestors are finished. */
  lemma {:induction false} Ancestors(bs: seq<Bucket>, busy: set<nat>, x: nat, j: nat)
    requires Closed(bs, busy) && x < |bs| && Done(bs, busy, x)
    ensures Done(bs, busy, Low(x, j))
    decreases x
  {
    if x >= Pow2(j) && x > 1 {
      Ancestors(bs, busy, ClearTop(x), j);
    }
  }

  /** Unfinished buckets on the way do not matter. */
  lemma {:induction false} HomeSkips(bs: seq<Bucket>, busy: set<nat>, x: nat, j: nat)
    requires Closed(bs, busy) && x < |bs| && !Done(bs, busy, Low(x, j))
    ensures Home(bs, busy, x) == Home(bs, busy, Low(x, j))
    decreases x
  {
    if x >= Pow2(j) {
      if Done(bs, busy, x) { Ancestors(bs, busy, x, j); }
      HomeSkips(bs, busy, ClearTop(x), j);
    }
  }

  /** The home is not below a finished bucket of the way. */
  lemma {:induction false} HomeStops(bs: seq<Bucket>, busy: set<nat>, x: nat, j: nat)
    requires x < |bs| && Done(bs, busy, Low(x, j))
    ensures Home(bs, busy, x) >= Low(x, j)
    decreases x
  {
    if x >= Pow2(j) && x > 1 && !Done(bs, busy, x) {
      HomeStops(bs, busy, ClearTop(x), j);
    }
  }

  // ----- the contents -----

  function Of(b: Bucket): multiset<Node>
  {
    match b case Pending => multiset{} case Ready(l) => multiset(l)
  }

  function All(bs: seq<Bucket>): multiset<Node>
  {
    if bs == [] then multiset{}
    else All(bs[..|bs| - 1]) + Of(bs[|bs| - 1])
  }

  lemma {:induction false} AllUpdate(bs: seq<Bucket>, x: nat, b: Bucket)
    requires x < |bs|
    ensures All(bs[x := b]) + Of(bs[x]) == All(bs) + Of(b)
    decreases |bs|
  {
    var n := |bs| - 1;
    var front, bs' := bs[..n], bs[x := b];
    assert All(bs) == All(front) + Of(bs[n]) && All(bs') == All(bs'[..n]) + Of(bs'[n]);
    if x == n {
      assert bs'[..n] == front;
      hide All;
      Shuffle(All(front), Of(b), Of(bs[x]));
    } else {
      assert bs'[..n] == front[x := b];
      AllUpdate(front, x, b);
      hide All;
      Shuffle2(All(front[x := b]), All(front), Of(bs[x]), Of(b), Of(bs[n]));
    }
  }

  lemma Shuffle(a: multiset<Node>, b: multiset<Node>, c: multiset<Node>)
    ensures (a + b) + c == (a + c) + b
  {
  }

  lemma Shuffle2(a: multiset<Node>, b: multiset<Node>, p: multiset<Node>, q: multiset<Node>, r: multiset<Node>)
    requires a + p == b + q
    ensures (a + r) + p == (b + r) + q
  {
    forall x ensures a[x] + p[x] == b[x] + q[x] {
      assert (a + p)[x] == (b + q)[x];
    }
  }

  lemma {:induction false} AllMember(bs: seq<Bucket>, x: nat, n: Node)
    requires x < |bs| && bs[x].Ready? && n in bs[x].nodes
    ensures n in All(bs)
    decreases |bs|
  {
    if x == |bs| - 1 {
      assert n in multiset(bs[x].nodes);
    } else {
      AllMember(bs[..|bs| - 1], x, n);
    }
  }

  lemma {:induction false} AllWhere(bs: seq<Bucket>, n: Node) returns (x: nat)
    requires n in All(bs)
    ensures x < |bs| && bs[x].Ready? && n in bs[x].nodes
    decreases |bs|
  {
    var l := |bs| - 1;
    if n in All(bs[..l]) {
      x := AllWhere(bs[..l], n);
    } else {
      x := l;
    }
  }

  /** Every node is in the first finished bucket on the way from its hash. */
  ghost predicate Placed(bs: seq<Bucket>, busy: set<nat>, k: nat)
  {
    && |bs| == Pow2(k)
    && forall x, i :: 0 <= x < |bs| && bs[x].Ready? && 0 <= i < |bs[x].nodes| ==> Home(bs, busy, Low(bs[x].nodes[i].hash, k)) == x
  }

  /** Each key once. */
  ghost predicate Unique(all: multiset<Node>)
  {
    && (forall n <- all :: all[n] == 1)
    && (forall m, n :: m in all && n in all && m.key == n.key ==> m == n)
  }

  /** The mask under which bucket h is one of the highest: all bits up to h's highest. */
  function Width(h: nat): nat
    requires h > 0
  {
    Log2(h) + 1
  }

  lemma WidthFits(h: nat, k: nat)
    requires 0 < h < Pow2(k)
    ensures Width(h) <= k && Low(h, Width(h)) == h && h < Pow2(Width(h)) && Pow2(Width(h) - 1) <= h
  {
    if Log2(h) >= k { Pow2Grows(k, Log2(h)); }
  }

  /** Finishing h takes to it exactly the hashes whose low bits are h. */
  lemma {:induction false} Refine(bs: seq<Bucket>, bs': seq<Bucket>, busy: set<nat>, busy': set<nat>, h: nat, x: nat)
    requires Closed(bs, busy) && |bs'| == |bs| && 1 < h < |bs| && x < |bs|
    requires !Done(bs, busy, h) && Done(bs', busy', h)
    requires forall y :: 0 <= y < |bs| && y != h ==> Done(bs', busy', y) == Done(bs, busy, y)
    ensures Home(bs', busy', x) == if Low(x, Width(h)) == h then h else Home(bs, busy, x)
    decreases x
  {
    WidthFits(h, Width(h));
    if x == h {
    } else if x <= 1 {
      if x == 1 { Pow2Grows(1, Width(h)); }
    } else if Done(bs, busy, x) {
      if Low(x, Width(h)) == h { Ancestors(bs, busy, x, Width(h)); }
    } else {
      Refine(bs, bs', busy, busy', h, ClearTop(x));
      if x < Pow2(Width(h)) {
        BelowTop(x, Width(h));
      }
    }
  }

  /** Without its highest bit a number of j bits has less than j. */
  lemma BelowTop(x: nat, j: nat)
    requires 0 < x < Pow2(j) && j > 0
    ensures ClearTop(x) < Pow2(j - 1)
  {
    if Log2(x) > j - 1 { Pow2Grows(j, Log2(x)); } else { Pow2Grows(Log2(x), j - 1); }
  }

  lemma SplitClosed(bs: seq<Bucket>, bs': seq<Bucket>, busy: set<nat>, busy': set<nat>, h: nat)
    requires Closed(bs, busy) && |bs'| == |bs| && 1 < h < |bs| && Done(bs, busy, ClearTop(h)) && Done(bs', busy', h)
    requires forall y :: 0 <= y < |bs| && y != h ==> Done(bs', busy', y) == Done(bs, busy, y)
    ensures Closed(bs', busy')
  {
  }

  /** The two lists after a split. */
  function Relinked(bs: seq<Bucket>, h: nat, kept: seq<Node>, moved: seq<Node>): seq<Bucket>
    requires 0 < h < |bs|
  {
    bs[ClearTop(h) := Ready(kept)][h := Ready(moved)]
  }

  /** rehash_bucket takes the right nodes: with the moves, every node is home again. */
  lemma SplitPlaced(bs: seq<Bucket>, busy: set<nat>, k: nat, h: nat, kept: seq<Node>, moved: seq<Node>)
    requires Placed(bs, busy + {h}, k) && Closed(bs, busy + {h}) && 1 < h < |bs| && h !in busy
    requires bs[ClearTop(h)].Ready? && Done(bs, busy + {h}, ClearTop(h)) && bs[h] == Ready([])
    requires forall i :: 0 <= i < |kept| ==> kept[i] in bs[ClearTop(h)].nodes && Low(kept[i].hash, Width(h)) != h
    requires forall i :: 0 <= i < |moved| ==> moved[i] in bs[ClearTop(h)].nodes && Low(moved[i].hash, Width(h)) == h
    ensures Placed(Relinked(bs, h, kept, moved), busy, k)
  {
    var p := ClearTop(h);
    var bs' := bs[p := Ready(kept)][h := Ready(moved)];
    WidthFits(h, k);
    forall x, i | 0 <= x < |bs'| && bs'[x].Ready? && 0 <= i < |bs'[x].nodes|
      ensures Home(bs', busy, Low(bs'[x].nodes[i].hash, k)) == x
    {
      var c := Low(bs'[x].nodes[i].hash, k);
      LowLow(bs'[x].nodes[i].hash, Width(h), k);
      Refine(bs, bs', busy + {h}, busy, h, c);
      if x != p && x != h {
        assert Home(bs, busy + {h}, c) == x;
        if Low(c, Width(h)) == h {
          HomeSkips(bs, busy + {h}, c, Width(h));
        }
      } else {
        InOld(bs, busy + {h}, k, p, bs'[x].nodes[i]);
      }
    }
  }

  lemma InOld(bs: seq<Bucket>, busy: set<nat>, k: nat, p: nat, n: Node)
    requires Placed(bs, busy, k) && p < |bs| && bs[p].Ready? && n in bs[p].nodes
    ensures Home(bs, busy, Low(n.hash, k)) == p
  {
    var i :| 0 <= i < |bs[p].nodes| && bs[p].nodes[i] == n;
  }

  // ----- the table -----

  /** Between two steps, while the buckets in `busy` are being filled by rehash_bucket. */
  ghost predicate Sound(bs: seq<Bucket>, busy: set<nat>, k: nat)
  {
    && k > 0 && Closed(bs, busy) && Placed(bs, busy, k) && Unique(All(bs))
    && forall b <- busy :: 1 < b < |bs| && bs[b] == Ready([])
  }

  /** The same nodes, nothing unsplit again, nothing touched above h. */
  ghost predicate Rearranged(bs: seq<Bucket>, bs': seq<Bucket>, h: nat)
  {
    && |bs'| == |bs| && All(bs') == All(bs)
    && (forall x :: 0 <= x < |bs| && bs[x].Ready? ==> bs'[x].Ready?)
    && (forall x :: h < x < |bs| ==> bs'[x] == bs[x])
  }

  lemma RearrangedTwice(a: seq<Bucket>, b: seq<Bucket>, c: seq<Bucket>, h: nat, p: nat)
    requires Rearranged(a, b, h) && Rearranged(b, c, p) && p <= h
    ensures Rearranged(a, c, h) && |a| == |b| == |c|
  {
    hide All;
  }

  lemma Marked(bs: seq<Bucket>, busy: set<nat>, k: nat, h: nat)
    requires Sound(bs, busy, k) && 1 < h < |bs| && bs[h].Pending?
    ensures Sound(bs[h := Ready([])], busy + {h}, k) && All(bs[h := Ready([])]) == All(bs)
    ensures forall x :: 0 <= x < |bs| ==> (Done(bs[h := Ready([])], busy + {h}, x) <==> Done(bs, busy, x))
  {
    MarkedAll(bs, h);
    MarkedPlaced(bs, busy, k, h);
    MarkedClosed(bs, busy, h);
    hide All, Unique, Placed, Home, Closed, Done;
  }

  lemma MarkedAll(bs: seq<Bucket>, h: nat)
    requires h < |bs| && bs[h].Pending?
    ensures All(bs[h := Ready([])]) == All(bs)
  {
    AllUpdate(bs, h, Ready([]));
    NothingAdded(All(bs[h := Ready([])]), All(bs), Of(bs[h]), Of(Ready([])));
  }

  lemma NothingAdded(a: multiset<Node>, b: multiset<Node>, p: multiset<Node>, q: multiset<Node>)
    requires a + p == b + q && p == multiset{} && q == multiset{}
    ensures a == b
  {
    forall x ensures a[x] == b[x] {
      assert (a + p)[x] == (b + q)[x];
    }
  }

  lemma MarkedClosed(bs: seq<Bucket>, busy: set<nat>, h: nat)
    requires Closed(bs, busy) && 1 < h < |bs| && bs[h].Pending?
    ensures Closed(bs[h := Ready([])], busy + {h})
    ensures forall x :: 0 <= x < |bs| ==> (Done(bs[h := Ready([])], busy + {h}, x) <==> Done(bs, busy, x))
  {
  }

  lemma MarkedPlaced(bs: seq<Bucket>, busy: set<nat>, k: nat, h: nat)
    requires Placed(bs, busy, k) && h < |bs| && bs[h].Pending?
    ensures Placed(bs[h := Ready([])], busy + {h}, k)
  {
    var bs' := bs[h := Ready([])];
    forall x: nat | x < |bs| ensures Home(bs', busy + {h}, x) == Home(bs, busy, x) {
      SameHome(bs, bs', busy, busy + {h}, x);
    }
    hide Home;
    assert forall x :: 0 <= x < |bs| && x != h ==> bs'[x] == bs[x];
  }

  lemma {:induction false} SameHome(bs: seq<Bucket>, bs': seq<Bucket>, busy: set<nat>, busy': set<nat>, x: nat)
    requires x < |bs| == |bs'| && forall y :: 0 <= y < |bs| ==> (Done(bs', busy', y) <==> Done(bs, busy, y))
    ensures Home(bs', busy', x) == Home(bs, busy, x)
    decreases x
  {
    if x > 1 && !Done(bs, busy, x) { SameHome(bs, bs', busy, busy', ClearTop(x)); }
  }

  /** The loop over the parent's list: what goes to bucket h, and what stays. */
  method Partition(l: seq<Node>, h: nat) returns (kept: seq<Node>, moved: seq<Node>)
    requires h > 0
    ensures multiset(kept) + multiset(moved) == multiset(l)
    ensures forall i :: 0 <= i < |kept| ==> kept[i] in l && Low(kept[i].hash, Width(h)) != h
    ensures forall i :: 0 <= i < |moved| ==> moved[i] in l && Low(moved[i].hash, Width(h)) == h
  {
    hide *;
    kept, moved := l, [];
    var p := 0;
    DividedStart(l, h);
    while p < |kept|
      invariant p <= |kept| && Divided(l, kept, moved, h, p)
      decreases |kept| - p
    {
      DividedOn(l, kept, moved, h, p);
      if Low(kept[p].hash, Width(h)) == h {
        kept, moved := kept[..p] + kept[p + 1..], [kept[p]] + moved;
      } else {
        p := p + 1;
      }
    }
    DividedAll(l, kept, moved, h);
  }

  /** What the loop over l has done so far: the first p kept nodes and all moved ones are decided. */
  ghost predicate Divided(l: seq<Node>, kept: seq<Node>, moved: seq<Node>, h: nat, p: nat)
    requires h > 0
  {
    && p <= |kept| && multiset(kept) + multiset(moved) == multiset(l)
    && (forall i :: 0 <= i < |kept| ==> kept[i] in l)
    && (forall i :: 0 <= i < p ==> Low(kept[i].hash, Width(h)) != h)
    && (forall i :: 0 <= i < |moved| ==> moved[i] in l && Low(moved[i].hash, Width(h)) == h)
  }

  lemma DividedOn(l: seq<Node>, kept: seq<Node>, moved: seq<Node>, h: nat, p: nat)
    requires h > 0 && Divided(l, kept, moved, h, p) && p < |kept|
    ensures Low(kept[p].hash, Width(h)) != h ==> Divided(l, kept, moved, h, p + 1)
    ensures Low(kept[p].hash, Width(h)) == h ==> Divided(l, kept[..p] + kept[p + 1..], [kept[p]] + moved, h, p)
  {
    Unlink(kept, p, moved);
    hide Low, Width;
  }

  lemma DividedStart(l: seq<Node>, h: nat)
    requires h > 0
    ensures Divided(l, l, [], h, 0)
  {
    assert multiset(l) + multiset([]) == multiset(l);
  }

  lemma DividedAll(l: seq<Node>, kept: seq<Node>, moved: seq<Node>, h: nat)
    requires h > 0 && Divided(l, kept, moved, h, |kept|)
    ensures multiset(kept) + multiset(moved) == multiset(l)
    ensures forall i :: 0 <= i < |kept| ==> kept[i] in l && Low(kept[i].hash, Width(h)) != h
    ensures forall i :: 0 <= i < |moved| ==> moved[i] in l && Low(moved[i].hash, Width(h)) == h
  {
    hide Low, Width;
  }

  lemma Unlink(l: seq<Node>, p: nat, m: seq<Node>)
    requires p < |l|
    ensures multiset(l[..p] + l[p + 1..]) + multiset([l[p]] + m) == multiset(l) + multiset(m)
  {
    assert l == l[..p] + [l[p]] + l[p + 1..];
  }

  /** The bucket next above Low(h, i) on the way to h decides whether the hash has moved up. */
  lemma NextIs(bs: seq<Bucket>, busy: set<nat>, k: nat, h: nat, i: nat)
    requires Closed(bs, busy) && |bs| == Pow2(k) && i < k && HasBit(h, i) && Low(h, i) < |bs| && Done(bs, busy, Low(h, i))
    ensures Low(h, i + 1) < |bs| && Low(h, i) < Low(h, i + 1)
    ensures !Done(bs, busy, Low(h, i + 1)) ==> Home(bs, busy, Low(h, k)) == Low(h, i)
    ensures Done(bs, busy, Low(h, i + 1)) ==> Home(bs, busy, Low(h, k)) > Low(h, i)
  {
    LowStep(h, i);
    Pow2Grows(i + 1, k);
    LowLow(h, i + 1, k);
    var next := Low(h, i + 1);
    hide Closed, Low, HasBit;
    if Done(bs, busy, next) {
      HomeStops(bs, busy, Low(h, k), i + 1);
    } else {
      HomeSkips(bs, busy, Low(h, k), i + 1);
      AboveHome(bs, busy, next);
    }
  }

  lemma AboveHome(bs: seq<Bucket>, busy: set<nat>, x: nat)
    requires Closed(bs, busy) && 0 < x < |bs| && !Done(bs, busy, x) && Done(bs, busy, ClearTop(x))
    ensures Home(bs, busy, x) == ClearTop(x)
  {
  }

  /** h & m for a full mask m. */
  function And(h: nat, m: nat): (r: nat)
    ensures r <= m
  {
    Low(h, Log2(m + 1))
  }

  /** Buckets from this index on are beyond the 32-bit masks. */
  const WIDE: nat := 0x1_0000_0000

  /** 1u << n: a shift of a 32-bit word, undefined from 32 on. */
  function Shift32(n: nat): Option<nat>
  {
    if n < 32 then Some(Pow2(n)) else None
  }

  /** The index of the parent bucket as the source computes it: h & ((1u << Log2(h)) - 1). */
  function Parent(h: nat): Option<nat>
    requires h > 0
  {
    match Shift32(Log2(h))
    case Some(bit) => (assert bit > 0; Some(And(h, bit - 1)))
    case None => None
  }

  /** It is the index without its highest bit exactly for indices below 2^32; for others the shift is undefined. */
  lemma ParentIs(h: nat)
    requires h > 0
    ensures Parent(h) == Some(ClearTop(h)) <==> h < WIDE
    ensures Parent(h) == None <==> h >= WIDE
  {
    var l := Log2(h);
    Wide();
    if l < 32 {
      Pow2Grows(l, 31);
      AndClearsTop(h);
    } else {
      Pow2Grows(32, l);
    }
  }

  lemma Wide()
    ensures Pow2(32) == WIDE && 2 * Pow2(31) == WIDE
  {
    assert Pow2(8) == 0x100;
    Pow2Sum(8, 8);
    Pow2Sum(16, 16);
  }

  lemma AndClearsTop(h: nat)
    requires h > 0
    ensures And(h, Pow2(Log2(h)) - 1) == ClearTop(h)
  {
    hide *;
    BelowTopIs(h, Log2(h));
    MaskIs(h, Log2(h));
  }

  lemma BelowTopIs(h: nat, l: nat)
    requires h > 0 && l == Log2(h)
    ensures Low(h, l) == ClearTop(h)
  {
    assert Low(h, l) == Low(ClearTop(h), l);
  }

  lemma MaskIs(h: nat, l: nat)
    ensures Pow2(l) > 0 && And(h, Pow2(l) - 1) == Low(h, l)
  {
    hide Low;
    Log2Is(Pow2(l), l);
  }

  /** search_bucket. */
  method SearchBucket(l: seq<Node>, key: Key) returns (found: bool, i: nat)
    ensures found ==> i < |l| && l[i].key == key
    ensures !found ==> forall j :: 0 <= j < |l| ==> l[j].key != key
  {
    i := 0;
    while i < |l| && l[i].key != key
      invariant i <= |l| && forall j :: 0 <= j < i ==> l[j].key != key
    {
      i := i + 1;
    }
    found := i < |l|;
  }

  /** The hash handed to an operation is the one every node with the key was stored under. */
  ghost predicate Agrees(all: multiset<Node>, key: Key, h: nat)
  {
    forall n <- all :: n.key == key ==> n.hash == h
  }

  /** The segments of the first block are allocated together. */
  const FIRST_BLOCK: nat := 8

  /** The mask after growing once. */
  function NextMask(m: nat): nat
  {
    var k := Log2(m + 1);
    Pow2(if k >= FIRST_BLOCK then k + 1 else FIRST_BLOCK) - 1
  }

  lemma AddedUnique(all: multiset<Node>, n: Node)
    requires Unique(all) && forall m <- all :: m.key != n.key
    ensures Unique(all + multiset{n})
  {
  }

  function Linked(bs: seq<Bucket>, b: nat, n: Node): seq<Bucket>
    requires b < |bs| && bs[b].Ready?
  {
    bs[b := Ready([n] + bs[b].nodes)]
  }

  function Unlinked(bs: seq<Bucket>, b: nat, i: nat): seq<Bucket>
    requires b < |bs| && bs[b].Ready? && i < |bs[b].nodes|
  {
    bs[b := Ready(bs[b].nodes[..i] + bs[b].nodes[i + 1..])]
  }

  lemma AddedPlaced(bs: seq<Bucket>, k: nat, b: nat, n: Node)
    requires Placed(bs, {}, k) && b < |bs| && bs[b].Ready? && Low(n.hash, k) < |bs| && Home(bs, {}, Low(n.hash, k)) == b
    ensures Placed(Linked(bs, b, n), {}, k)
  {
    var bs' := Linked(bs, b, n);
    forall x, i | 0 <= x < |bs'| && bs'[x].Ready? && 0 <= i < |bs'[x].nodes|
      ensures Home(bs', {}, Low(bs'[x].nodes[i].hash, k)) == x
    {
      SameHome(bs, bs', {}, {}, Low(bs'[x].nodes[i].hash, k));
      assert x == b && i > 0 ==> bs'[x].nodes[i] == bs[b].nodes[i - 1];
    }
  }

  lemma Added(bs: seq<Bucket>, k: nat, b: nat, n: Node)
    requires Sound(bs, {}, k) && b < |bs| && bs[b].Ready? && Low(n.hash, k) < |bs| && Home(bs, {}, Low(n.hash, k)) == b
    requires forall m <- All(bs) :: m.key != n.key
    ensures var bs' := Linked(bs, b, n);
            Sound(bs', {}, k) && All(bs') == All(bs) + multiset{n}
  {
    AddedPlaced(bs, k, b, n);
    Relisted(bs, {}, b, [n] + bs[b].nodes);
    AddedContents(bs, b, n);
    AddedUnique(All(bs), n);
    hide Placed, Unique, All, Home, Closed;
  }

  lemma AddedContents(bs: seq<Bucket>, b: nat, n: Node)
    requires b < |bs| && bs[b].Ready?
    ensures All(Linked(bs, b, n)) == All(bs) + multiset{n}
  {
    var l, l' := bs[b].nodes, [n] + bs[b].nodes;
    AllUpdate(bs, b, Ready(l'));
    assert multiset(l') == multiset{n} + multiset(l);
    hide All;
    AddedAll(All(bs[b := Ready(l')]), All(bs), multiset(l), multiset(l'), n);
  }

  /** A new list in a finished bucket leaves the shape alone. */
  lemma Relisted(bs: seq<Bucket>, busy: set<nat>, b: nat, l: seq<Node>)
    requires Closed(bs, busy) && b < |bs| && bs[b].Ready?
    ensures Closed(bs[b := Ready(l)], busy)
  {
  }

  lemma AddedAll(a: multiset<Node>, b: multiset<Node>, l: multiset<Node>, l': multiset<Node>, n: Node)
    requires a + l == b + l' && l' == multiset{n} + l
    ensures a == b + multiset{n}
  {
    forall x ensures a[x] == b[x] + multiset{n}[x] {
      assert (a + l)[x] == (b + l')[x];
    }
  }

  lemma RemovedPlaced(bs: seq<Bucket>, k: nat, b: nat, i: nat)
    requires Placed(bs, {}, k) && b < |bs| && bs[b].Ready? && i < |bs[b].nodes|
    ensures Placed(Unlinked(bs, b, i), {}, k)
  {
    var bs' := Unlinked(bs, b, i);
    forall x, j | 0 <= x < |bs'| && bs'[x].Ready? && 0 <= j < |bs'[x].nodes|
      ensures Home(bs', {}, Low(bs'[x].nodes[j].hash, k)) == x
    {
      SameHome(bs, bs', {}, {}, Low(bs'[x].nodes[j].hash, k));
      assert x == b ==> bs'[x].nodes[j] == bs[b].nodes[if j < i then j else j + 1];
    }
  }

  lemma Removed(bs: seq<Bucket>, k: nat, b: nat, i: nat)
    requires Sound(bs, {}, k) && b < |bs| && bs[b].Ready? && i < |bs[b].nodes|
    ensures var bs' := Unlinked(bs, b, i);
            Sound(bs', {}, k) && All(bs') == All(bs) - multiset{bs[b].nodes[i]}
    ensures bs[b].nodes[i] in All(bs)
  {
    var l, n := bs[b].nodes, bs[b].nodes[i];
    AllMember(bs, b, n);
    RemovedPlaced(bs, k, b, i);
    Relisted(bs, {}, b, l[..i] + l[i + 1..]);
    RemovedContents(bs, b, i);
    RemovedUnique(All(bs), All(Unlinked(bs, b, i)), n);
    hide Placed, All, Home, Closed, Unique;
  }

  lemma RemovedUnique(all: multiset<Node>, rest: multiset<Node>, n: Node)
    requires Unique(all) && all == rest + multiset{n}
    ensures Unique(rest) && rest == all - multiset{n}
  {
    forall m | m in rest ensures rest[m] == 1 {
      assert all[m] == rest[m] + multiset{n}[m];
    }
  }

  lemma RemovedContents(bs: seq<Bucket>, b: nat, i: nat)
    requires b < |bs| && bs[b].Ready? && i < |bs[b].nodes|
    ensures All(bs) == All(Unlinked(bs, b, i)) + multiset{bs[b].nodes[i]}
  {
    var l, n := bs[b].nodes, bs[b].nodes[i];
    var l' := l[..i] + l[i + 1..];
    AllUpdate(bs, b, Ready(l'));
    WithoutOne(l, i);
    hide All;
    AddedAll(All(bs), All(Unlinked(bs, b, i)), multiset(l'), multiset(l), n);
  }

  lemma WithoutOne(l: seq<Node>, i: nat)
    requires i < |l|
    ensures multiset(l) == multiset{l[i]} + multiset(l[..i] + l[i + 1..])
  {
    assert l == l[..i] + [l[i]] + l[i + 1..];
  }

  /** Unsplit buckets hold nothing. */
  lemma {:induction false} AllGrown(bs: seq<Bucket>, more: seq<Bucket>)
    requires forall i :: 0 <= i < |more| ==> Of(more[i]) == multiset{}
    ensures All(bs + more) == All(bs)
    decreases |more|
  {
    if more == [] {
      assert bs + more == bs;
    } else {
      var n := |more| - 1;
      var l := bs + more;
      assert l[..|l| - 1] == bs + more[..n];
      assert All(l) == All(l[..|l| - 1]) + Of(more[n]);
      hide All;
      AllGrown(bs, more[..n]);
    }
  }

  /** While the new buckets are unsplit, a longer hash finds the bucket the shorter one found. */
  lemma {:induction false} HomeGrown(bs: seq<Bucket>, bs': seq<Bucket>, k: nat, x: nat)
    requires |bs| == Pow2(k) && k > 0 && bs <= bs' && x < |bs'|
    requires forall y :: |bs| <= y < |bs'| ==> bs'[y].Pending?
    ensures Home(bs', {}, x) == Home(bs, {}, Low(x, k))
    decreases x
  {
    if x < |bs| {
      HomePrefix(bs, bs', x);
    } else {
      assert x > 1 by { Pow2Grows(1, k); }
      HomeGrown(bs, bs', k, ClearTop(x));
    }
  }

  lemma {:induction false} HomePrefix(bs: seq<Bucket>, bs': seq<Bucket>, x: nat)
    requires bs <= bs' && x < |bs|
    ensures Home(bs', {}, x) == Home(bs, {}, x)
    decreases x
  {
    if x > 1 && !Done(bs, {}, x) { HomePrefix(bs, bs', ClearTop(x)); }
  }

  lemma GrownPlaced(bs: seq<Bucket>, more: seq<Bucket>, k: nat, k': nat)
    requires Placed(bs, {}, k) && 0 < k <= k' && |bs + more| == Pow2(k') && forall i :: 0 <= i < |more| ==> more[i].Pending?
    ensures Placed(bs + more, {}, k')
  {
    var bs' := bs + more;
    forall x, i | 0 <= x < |bs'| && bs'[x].Ready? && 0 <= i < |bs'[x].nodes|
      ensures Home(bs', {}, Low(bs'[x].nodes[i].hash, k')) == x
    {
      var h := bs'[x].nodes[i].hash;
      LowLow(h, k, k');
      HomeGrown(bs, bs', k, Low(h, k'));
      assert bs'[x] == bs[x];
    }
  }

  lemma GrownClosed(bs: seq<Bucket>, more: seq<Bucket>)
    requires Closed(bs, {}) && forall i :: 0 <= i < |more| ==> more[i].Pending?
    ensures Closed(bs + more, {})
  {
    var bs' := bs + more;
    assert forall x :: 0 <= x < |bs| ==> bs'[x] == bs[x];
  }

  lemma Grown(bs: seq<Bucket>, more: seq<Bucket>, k: nat, k': nat)
    requires Sound(bs, {}, k) && k <= k' && |bs + more| == Pow2(k') && forall i :: 0 <= i < |more| ==> more[i].Pending?
    ensures Sound(bs + more, {}, k') && All(bs + more) == All(bs)
  {
    GrownPlaced(bs, more, k, k');
    GrownClosed(bs, more);
    AllGrown(bs, more);
    hide Placed, Closed, All, Unique;
  }

  function Unsplit(n: nat): (bs: seq<Bucket>)
    ensures |bs| == n && forall i :: 0 <= i < n ==> bs[i].Pending?
  {
    seq(n, _ => Pending)
  }

  /** A sound table for this mask with these nodes in it. */
  ghost predicate Fit(bs: seq<Bucket>, mask: nat, all: multiset<Node>)
  {
    |bs| == mask + 1 && Sound(bs, {}, Log2(mask + 1)) && All(bs) == all
  }

  lemma FitLinked(bs: seq<Bucket>, mask: nat, all: multiset<Node>, b: nat, n: Node)
    requires Fit(bs, mask, all) && b < |bs| && bs[b].Ready? && And(n.hash, mask) < |bs| && Home(bs, {}, And(n.hash, mask)) == b
    requires forall m <- all :: m.key != n.key
    ensures Fit(Linked(bs, b, n), mask, all + multiset{n})
  {
    Added(bs, Log2(mask + 1), b, n);
    hide Sound, All, Home;
  }

  lemma FitUnlinked(bs: seq<Bucket>, mask: nat, all: multiset<Node>, b: nat, i: nat)
    requires Fit(bs, mask, all) && b < |bs| && bs[b].Ready? && i < |bs[b].nodes|
    ensures bs[b].nodes[i] in all && Fit(Unlinked(bs, b, i), mask, all - multiset{bs[b].nodes[i]})
  {
    Removed(bs, Log2(mask + 1), b, i);
    hide Sound, All;
  }

  /** The table after growing once: more buckets, none of them split. */
  lemma FitGrown(bs: seq<Bucket>, mask: nat, all: multiset<Node>)
    requires Fit(bs, mask, all)
    ensures NextMask(mask) > mask && Fit(bs + Unsplit(NextMask(mask) - mask), NextMask(mask), all)
  {
    hide *;
    FitGives(bs, mask, all);
    NextMaskIs(mask);
    GrownFit(bs, Unsplit(NextMask(mask) - mask), mask, NextMask(mask), all);
  }

  /** The first growth ends with 256 buckets, and every later one doubles their number. */
  lemma NextMaskValue(m: nat)
    requires m + 1 == Pow2(Log2(m + 1))
    ensures NextMask(m) == if m < 255 then 255 else 2 * m + 1
  {
    var k := Log2(m + 1);
    assert Pow2(8) == 256;
    assert NextMask(m) == Pow2(if k >= 8 then k + 1 else 8) - 1;
    if k < 8 { Pow2Grows(k, 8); } else { Pow2Grows(8, k); }
  }

  lemma NextMaskIs(m: nat)
    requires m + 1 == Pow2(Log2(m + 1))
    ensures NextMask(m) == if m < 255 then 255 else 2 * m + 1
    ensures NextMask(m) > m && NextMask(m) + 1 == Pow2(Log2(NextMask(m) + 1)) && Log2(m + 1) <= Log2(NextMask(m) + 1)
  {
    var k := Log2(m + 1);
    var k' := if k >= FIRST_BLOCK then k + 1 else FIRST_BLOCK;
    assert NextMask(m) + 1 == Pow2(k');
    NextMaskValue(m);
    hide *;
    Pow2Grows(k, k');
    Log2Is(Pow2(k'), k');
    Pow2Grows(k, k' - 1);
  }

  lemma GrownFit(bs: seq<Bucket>, more: seq<Bucket>, mask: nat, mask': nat, all: multiset<Node>)
    requires Fit(bs, mask, all) && |bs + more| == mask' + 1 == Pow2(Log2(mask' + 1)) && Log2(mask + 1) <= Log2(mask' + 1)
    requires forall i :: 0 <= i < |more| ==> more[i].Pending?
    ensures Fit(bs + more, mask', all)
  {
    hide Sound, All, Pow2, Log2;
    Grown(bs, more, Log2(mask + 1), Log2(mask' + 1));
  }

  /** The same buckets, and unsplit ones after them. */
  ghost predicate Lengthened(bs: seq<Bucket>, bs': seq<Bucket>)
  {
    |bs| <= |bs'| && (forall x :: 0 <= x < |bs| ==> bs'[x] == bs[x]) && forall x :: |bs| <= x < |bs'| ==> bs'[x].Pending?
  }

  lemma LongerIs(bs: seq<Bucket>, more: seq<Bucket>)
    requires forall i :: 0 <= i < |more| ==> more[i].Pending?
    ensures Lengthened(bs, bs + more)
  {
  }

  // ----- segments -----

  /** segment_index_of. */
  function SegmentOf(index: nat): nat
  {
    if index == 0 then 0 else Log2(index)
  }

  /** segment_base: segment 0 begins at bucket 0, segment k at 2^k. */
  function SegmentBase(k: nat): nat
  {
    if k == 0 then 0 else Pow2(k)
  }

  /** The number of buckets of segment k; segment 0 has two. */
  function SegmentSize(k: nat): nat
  {
    if k == 0 then 2 else Pow2(k)
  }

  /** get_bucket: every index is one slot of one segment ... */
  lemma SlotOf(index: nat)
    ensures SegmentBase(SegmentOf(index)) <= index < SegmentBase(SegmentOf(index)) + SegmentSize(SegmentOf(index))
  {
  }

  /** ... and every slot is one index. */
  lemma IndexOf(k: nat, offset: nat)
    requires offset < SegmentSize(k)
    ensures SegmentOf(SegmentBase(k) + offset) == k
  {
    if k > 0 {
      Log2Is(Pow2(k) + offset, k);
    }
  }

  /** A table with mask 2^(k+1) - 1 consists of the segments 0 to k. */
  lemma SegmentsBelow(index: nat, k: nat)
    ensures index < Pow2(k + 1) <==> SegmentOf(index) <= k
  {
    if index > 0 {
      if Log2(index) <= k { Pow2Grows(Log2(index), k); } else { Pow2Grows(k + 1, Log2(index)); }
    }
  }

  // ----- serial rehashing -----

  /** The way from x down leads through unsplit buckets to y. */
  predicate Reach(bs: seq<Bucket>, x: nat, y: nat)
    requires x < |bs|
  {
    x == y || (x > 1 && x > y && bs[x].Pending? && Reach(bs, ClearTop(x), y))
  }

  lemma {:induction false} ReachLow(bs: seq<Bucket>, x: nat, y: nat)
    requires x < |bs| && Reach(bs, x, y) && x != y
    ensures x >= Pow2(SegmentOf(y) + 1) && Low(x, SegmentOf(y) + 1) == y
    decreases x
  {
    var s := SegmentOf(y);
    if ClearTop(x) == y {
      TopAbove(x, y);
    } else {
      ReachLow(bs, ClearTop(x), y);
    }
  }

  lemma TopAbove(x: nat, y: nat)
    requires x > 1 && ClearTop(x) == y
    ensures x >= Pow2(SegmentOf(y) + 1) && y < Pow2(SegmentOf(y) + 1)
  {
    var s, t := SegmentOf(y), Log2(x);
    assert x == y + Pow2(t) && y < Pow2(t);
    if t <= s { Pow2Grows(t, s); } else { Pow2Grows(s + 1, t); }
  }

  /** Below a child c = y + 2^t, the way to y leads through c. */
  lemma {:induction false} ReachThrough(bs: seq<Bucket>, x: nat, y: nat, t: nat)
    requires x < |bs| && y < Pow2(t) && t > 0 && y + Pow2(t) < |bs| && Low(x, t + 1) == y + Pow2(t)
    ensures x >= y + Pow2(t) && (Reach(bs, x, y) <==> Reach(bs, x, y + Pow2(t)) && bs[y + Pow2(t)].Pending?)
    decreases x
  {
    var c := y + Pow2(t);
    Log2Is(c, t);
    Pow2Grows(1, t);
    if x != c {
      assert x >= Pow2(t + 1);
      ReachThrough(bs, ClearTop(x), y, t);
      if x == 1 { assert false; }
    }
  }

  /** Only the buckets on the way matter. */
  lemma {:induction false} ReachSame(bs: seq<Bucket>, bs': seq<Bucket>, x: nat, c: nat, j: nat)
    requires x < |bs| == |bs'| && c < Pow2(j) && Low(x, j) == c
    requires forall z :: 0 <= z < |bs| && Low(z, j) == c && z != c ==> bs'[z] == bs[z]
    ensures Reach(bs', x, c) == Reach(bs, x, c)
    decreases x
  {
    if x != c {
      assert x >= Pow2(j);
      ReachSame(bs, bs', ClearTop(x), c, j);
    }
  }

  /** The unsplit buckets below y have been marked, as far as segment s. */
  ghost predicate MarkedTo(bs: seq<Bucket>, bs': seq<Bucket>, y: nat, s: nat)
  {
    |bs'| == |bs| && forall x :: 0 <= x < |bs| ==> MarkedAt(bs, bs', y, s, x)
  }

  predicate MarkedAt(bs: seq<Bucket>, bs': seq<Bucket>, y: nat, s: nat, x: nat)
    requires x < |bs| == |bs'|
  {
    bs'[x] == if x != y && Reach(bs, x, y) && Low(x, s + 1) != y then Ready([]) else bs[x]
  }

  ghost predicate MarkedAllBelow(bs: seq<Bucket>, bs': seq<Bucket>, y: nat)
  {
    && |bs'| == |bs|
    && forall x :: 0 <= x < |bs| ==> bs'[x] == if x != y && Reach(bs, x, y) then Ready([]) else bs[x]
  }

  lemma MarkStart(bs: seq<Bucket>, y: nat)
    ensures MarkedTo(bs, bs, y, SegmentOf(y))
  {
    forall x: nat | x < |bs| ensures MarkedAt(bs, bs, y, SegmentOf(y), x) {
      if x != y && Reach(bs, x, y) { ReachLow(bs, x, y); }
    }
  }

  lemma MarkEnd(bs: seq<Bucket>, bs': seq<Bucket>, y: nat, s: nat)
    requires MarkedTo(bs, bs', y, s) && |bs| <= Pow2(s + 1)
    ensures MarkedAllBelow(bs, bs', y)
  {
    forall x: nat | x < |bs| ensures bs'[x] == if x != y && Reach(bs, x, y) then Ready([]) else bs[x] {
      assert MarkedAt(bs, bs', y, s, x) && Low(x, s + 1) == x;
    }
  }

  /** Segment t adds the child y + 2^t and everything below it. */
  lemma MarkStep(bs: seq<Bucket>, cur: seq<Bucket>, next: seq<Bucket>, y: nat, t: nat)
    requires t > 0 && y < Pow2(t) && y + Pow2(t) < |bs| && MarkedTo(bs, cur, y, t - 1)
    requires cur[y + Pow2(t)].Ready? ==> next == cur
    requires cur[y + Pow2(t)].Pending? ==> MarkedAllBelow(cur[y + Pow2(t) := Ready([])], next, y + Pow2(t))
    ensures MarkedTo(bs, next, y, t)
  {
    assert |next| == |bs|;
    hide MarkedAt, Low, MarkedAllBelow;
    forall x: nat | x < |bs| ensures MarkedAt(bs, next, y, t, x) {
      MarkStepAt(bs, cur, next, y, t, x);
    }
  }

  lemma MarkStepAt(bs: seq<Bucket>, cur: seq<Bucket>, next: seq<Bucket>, y: nat, t: nat, x: nat)
    requires t > 0 && y < Pow2(t) && y + Pow2(t) < |bs| && MarkedTo(bs, cur, y, t - 1) && x < |bs|
    requires cur[y + Pow2(t)].Ready? ==> next == cur
    requires cur[y + Pow2(t)].Pending? ==> MarkedAllBelow(cur[y + Pow2(t) := Ready([])], next, y + Pow2(t))
    ensures |next| == |bs| && MarkedAt(bs, next, y, t, x)
  {
    hide Reach, Low;
    assert MarkedAt(bs, cur, y, t - 1, x) && MarkedAt(bs, cur, y, t - 1, y + Pow2(t));
    var c := y + Pow2(t);
    BitCases(x, y, t);
    BitCases(c, y, t);
    assert cur[c] == bs[c];
    if Low(x, t + 1) == c {
      MarkOn(bs, cur, next, y, t, x, c);
    } else {
      MarkOff(cur, next, y, t, x, c);
    }
  }

  lemma BitCases(x: nat, y: nat, t: nat)
    requires y < Pow2(t)
    ensures Low(x, t + 1) == y + Pow2(t) ==> Low(x, t) == y && x != y
    ensures Low(x, t + 1) != y + Pow2(t) ==> (Low(x, t) == y <==> Low(x, t + 1) == y)
    ensures x == y + Pow2(t) ==> Low(x, t + 1) == x
  {
    LowStep(x, t);
  }

  lemma MarkOn(bs: seq<Bucket>, cur: seq<Bucket>, next: seq<Bucket>, y: nat, t: nat, x: nat, c: nat)
    requires t > 0 && y < Pow2(t) && c == y + Pow2(t) < |bs| && MarkedTo(bs, cur, y, t - 1) && x < |bs| && Low(x, t + 1) == c
    requires cur[c] == bs[c] && (cur[c].Ready? ==> next == cur)
    requires cur[c].Pending? ==> MarkedAllBelow(cur[c := Ready([])], next, c)
    ensures next[x] == if Reach(bs, x, y) then Ready([]) else bs[x]
  {
    hide Low, MarkedAt;
    ReachThrough(bs, x, y, t);
    SameBelow(bs, cur, y, t);
    assert cur[x] == bs[x];
    if cur[c].Pending? {
      assert Low(c, t + 1) == c by { Log2Is(c, t); }
      ReachSame(bs, cur[c := Ready([])], x, c, t + 1);
    }
  }

  lemma MarkOff(cur: seq<Bucket>, next: seq<Bucket>, y: nat, t: nat, x: nat, c: nat)
    requires c == y + Pow2(t) < |cur| && y < Pow2(t) && x < |cur| && Low(x, t + 1) != c && x != c
    requires cur[c].Ready? ==> next == cur
    requires cur[c].Pending? ==> MarkedAllBelow(cur[c := Ready([])], next, c)
    ensures next[x] == cur[x]
  {
    if cur[c].Pending? && Reach(cur[c := Ready([])], x, c) {
      ReachLow(cur[c := Ready([])], x, c);
      Log2Is(c, t);
    }
  }

  lemma SameBelow(bs: seq<Bucket>, cur: seq<Bucket>, y: nat, t: nat)
    requires t > 0 && y < Pow2(t) && y + Pow2(t) < |bs| && MarkedTo(bs, cur, y, t - 1)
    ensures forall z :: 0 <= z < |bs| && Low(z, t + 1) == y + Pow2(t) ==> cur[z] == bs[z]
  {
    forall z: nat | z < |bs| && Low(z, t + 1) == y + Pow2(t) ensures cur[z] == bs[z] {
      assert MarkedAt(bs, cur, y, t - 1, z);
      LowStep(z, t);
    }
  }

  /** Home and Reach describe the same way. */
  lemma {:induction false} HomeReached(bs: seq<Bucket>, x: nat, h: nat)
    requires Closed(bs, {}) && x < |bs| && h < |bs| && bs[h].Ready?
    ensures Home(bs, {}, x) == h <==> Reach(bs, x, h)
    decreases x
  {
    if x > 1 && bs[x].Pending? {
      HomeReached(bs, ClearTop(x), h);
      if Reach(bs, ClearTop(x), h) { ReachBelow(bs, ClearTop(x), h); }
    }
  }

  lemma {:induction false} ReachOn(bs: seq<Bucket>, x: nat, y: nat)
    requires x < |bs| && Reach(bs, x, y) && y > 1 && bs[y].Pending?
    ensures Reach(bs, x, ClearTop(y))
    decreases x
  {
    if x != y { ReachOn(bs, ClearTop(x), y); ReachBelow(bs, ClearTop(x), y); }
  }

  lemma {:induction false} ReachBelow(bs: seq<Bucket>, x: nat, h: nat)
    requires x < |bs| && Reach(bs, x, h)
    ensures h <= x
  {
  }

  /** Marking everything below h leaves the other homes alone and gives every bucket below h to itself. */
  lemma {:induction false} HomeMarked(bs: seq<Bucket>, bs': seq<Bucket>, h: nat, x: nat)
    requires Closed(bs, {}) && h < |bs| && bs[h].Ready? && MarkedAllBelow(bs, bs', h) && x < |bs|
    ensures Home(bs', {}, x) == if Home(bs, {}, x) == h then x else Home(bs, {}, x)
    decreases x
  {
    HomeReached(bs, x, h);
    if x > 1 && bs[x].Pending? {
      HomeMarked(bs, bs', h, ClearTop(x));
      HomeReached(bs, ClearTop(x), h);
    }
  }

  lemma ClosedMarked(bs: seq<Bucket>, bs': seq<Bucket>, h: nat)
    requires Closed(bs, {}) && h < |bs| && bs[h].Ready? && MarkedAllBelow(bs, bs', h)
    ensures Closed(bs', {})
  {
    forall x: nat | 1 < x < |bs'| && bs'[x].Ready? ensures bs'[ClearTop(x)].Ready? {
      if bs[x].Pending? {
        assert Reach(bs, ClearTop(x), h);
      }
    }
  }

  lemma {:induction false} AllMarked(bs: seq<Bucket>, bs': seq<Bucket>)
    requires |bs'| == |bs| && forall x :: 0 <= x < |bs| ==> bs'[x] == bs[x] || (bs[x].Pending? && bs'[x] == Ready([]))
    ensures All(bs') == All(bs)
    decreases |bs|
  {
    if bs != [] {
      AllMarked(bs[..|bs| - 1], bs'[..|bs| - 1]);
      assert Of(bs'[|bs| - 1]) == Of(bs[|bs| - 1]);
    }
  }

  // While the list of h is gone through: the first i of its nodes stay; the others still have to find their own buckets.

  ghost predicate Sorting(bs: seq<Bucket>, k: nat, h: nat, i: nat)
  {
    && Closed(bs, {}) && |bs| == Pow2(k) && h < |bs| && bs[h].Ready? && i <= |bs[h].nodes|
    && forall x, j :: 0 <= x < |bs| && bs[x].Ready? && 0 <= j < |bs[x].nodes| ==> SortedAt(bs, k, h, i, x, j)
  }

  ghost predicate SortedAt(bs: seq<Bucket>, k: nat, h: nat, i: nat, x: nat, j: nat)
    requires x < |bs| == Pow2(k) && bs[x].Ready? && j < |bs[x].nodes|
  {
    var c := Low(bs[x].nodes[j].hash, k);
    if x == h && j >= i then Home(bs, {}, c) == c else Home(bs, {}, c) == x
  }

  lemma SortStart(bs: seq<Bucket>, bs': seq<Bucket>, k: nat, h: nat)
    requires Closed(bs, {}) && Placed(bs, {}, k) && h < |bs| && bs[h].Ready? && MarkedAllBelow(bs, bs', h)
    ensures Sorting(bs', k, h, 0) && All(bs') == All(bs)
  {
    ClosedMarked(bs, bs', h);
    AllMarked(bs, bs');
    assert bs'[h] == bs[h];
    forall x: nat, j: nat | x < |bs'| && bs'[x].Ready? && j < |bs'[x].nodes| ensures SortedAt(bs', k, h, 0, x, j) {
      assert bs[x] == bs'[x];
      HomeMarked(bs, bs', h, Low(bs[x].nodes[j].hash, k));
    }
  }

  lemma SortEnd(bs: seq<Bucket>, k: nat, h: nat)
    requires h < |bs| && bs[h].Ready? && Sorting(bs, k, h, |bs[h].nodes|)
    ensures Closed(bs, {}) && Placed(bs, {}, k)
  {
    forall x, j | 0 <= x < |bs| && bs[x].Ready? && 0 <= j < |bs[x].nodes|
      ensures Home(bs, {}, Low(bs[x].nodes[j].hash, k)) == x
    {
      assert SortedAt(bs, k, h, |bs[h].nodes|, x, j);
    }
  }

  /** Every node is where it belongs; as many buckets are split as before. */
  ghost predicate Resorted(bs: seq<Bucket>, bs': seq<Bucket>, k: nat)
  {
    && |bs'| == |bs| && Closed(bs', {}) && Placed(bs', {}, k) && All(bs') == All(bs)
    && forall x :: 0 <= x < |bs| ==> bs'[x].Ready? == bs[x].Ready?
  }

  lemma FitGives(bs: seq<Bucket>, mask: nat, all: multiset<Node>)
    requires Fit(bs, mask, all)
    ensures |bs| == mask + 1 == Pow2(Log2(mask + 1)) && Closed(bs, {}) && Placed(bs, {}, Log2(mask + 1)) && All(bs) == all
  {
    hide All, Closed, Unique;
  }

  lemma MarkedKeeps(bs: seq<Bucket>, bs': seq<Bucket>, h: nat, b: nat)
    requires MarkedAllBelow(bs, bs', h) && h < b < |bs| && Reach(bs, b, h)
    ensures |bs'| == |bs| && bs'[b].Ready? && forall x :: 0 <= x < |bs| && bs[x].Ready? ==> bs'[x].Ready?
  {
  }

  lemma FitAgain(bs: seq<Bucket>, bs1: seq<Bucket>, bs': seq<Bucket>, mask: nat, all: multiset<Node>)
    requires Fit(bs, mask, all) && All(bs1) == All(bs) && |bs1| == |bs| && Resorted(bs1, bs', Log2(mask + 1))
    ensures Fit(bs', mask, all) && |bs'| == |bs| && forall x :: 0 <= x < |bs| ==> bs'[x].Ready? == bs1[x].Ready?
  {
    hide All, Closed, Placed, Unique;
  }

  lemma SortStays(bs: seq<Bucket>, k: nat, h: nat, i: nat)
    requires Sorting(bs, k, h, i) && i < |bs[h].nodes| && Low(bs[h].nodes[i].hash, k) == h
    ensures Sorting(bs, k, h, i + 1)
  {
    var i' := i + 1;
    forall x: nat, j: nat | x < |bs| && bs[x].Ready? && j < |bs[x].nodes| ensures SortedAt(bs, k, h, i', x, j) {
      assert SortedAt(bs, k, h, i, x, j);
    }
  }

  /** The i-th node of h goes to its own bucket. */
  lemma SortMoves(bs: seq<Bucket>, k: nat, h: nat, i: nat)
    requires Sorting(bs, k, h, i) && i < |bs[h].nodes| && Low(bs[h].nodes[i].hash, k) != h
    ensures var c := Low(bs[h].nodes[i].hash, k);
            c < |bs| && bs[c].Ready? && Sorting(Linked(Unlinked(bs, h, i), c, bs[h].nodes[i]), k, h, i)
            && All(Linked(Unlinked(bs, h, i), c, bs[h].nodes[i])) == All(bs)
  {
    var n := bs[h].nodes[i];
    var c := Low(n.hash, k);
    assert SortedAt(bs, k, h, i, h, i);
    assert bs[c].Ready?;
    var bs1 := Unlinked(bs, h, i);
    var bs' := Linked(bs1, c, n);
    RemovedContents(bs, h, i);
    AddedContents(bs1, c, n);
    Relisted(bs, {}, h, bs1[h].nodes);
    Relisted(bs1, {}, c, bs'[c].nodes);
    forall x: nat, j: nat | x < |bs'| && bs'[x].Ready? && j < |bs'[x].nodes| ensures SortedAt(bs', k, h, i, x, j) {
      SortMovesAt(bs, k, h, i, x, j);
    }
  }

  lemma SortMovesAt(bs: seq<Bucket>, k: nat, h: nat, i: nat, x: nat, j: nat)
    requires Sorting(bs, k, h, i) && i < |bs[h].nodes|
    requires var c := Low(bs[h].nodes[i].hash, k); c != h && c < |bs| && bs[c].Ready?
    requires var bs' := Linked(Unlinked(bs, h, i), Low(bs[h].nodes[i].hash, k), bs[h].nodes[i]);
             x < |bs'| && bs'[x].Ready? && j < |bs'[x].nodes|
    ensures SortedAt(Linked(Unlinked(bs, h, i), Low(bs[h].nodes[i].hash, k), bs[h].nodes[i]), k, h, i, x, j)
  {
    var c := Low(bs[h].nodes[i].hash, k);
    var bs' := Linked(Unlinked(bs, h, i), c, bs[h].nodes[i]);
    SameHome(bs, bs', {}, {}, Low(bs'[x].nodes[j].hash, k));
    if x == h {
      assert SortedAt(bs, k, h, i, h, if j < i then j else j + 1);
    } else if x == c {
      if j == 0 { assert SortedAt(bs, k, h, i, h, i); } else { assert SortedAt(bs, k, h, i, c, j - 1); }
    } else {
      assert SortedAt(bs, k, h, i, x, j);
    }
  }

  /** When the upper half is split, everything is. */
  lemma AllSplit(bs: seq<Bucket>, k: nat)
    requires Closed(bs, {}) && k > 0 && |bs| == Pow2(k) && forall x :: Pow2(k - 1) <= x < |bs| ==> bs[x].Ready?
    ensures forall x :: 0 <= x < |bs| ==> bs[x].Ready?
  {
    forall x: nat | x < Pow2(k - 1) ensures bs[x].Ready? {
      Log2Is(x + Pow2(k - 1), k - 1);
      assert bs[x + Pow2(k - 1)].Ready?;
      if x + Pow2(k - 1) > 1 {
        assert Done(bs, {}, ClearTop(x + Pow2(k - 1)));
      }
    }
  }

  /** In a fully split table every node is in bucket hash & mask. */
  ghost predicate FullySplit(bs: seq<Bucket>, mask: nat)
  {
    && AllReady(bs)
    && forall x, i :: 0 <= x < |bs| && 0 <= i < |bs[x].nodes| ==> And(bs[x].nodes[i].hash, mask) == x
  }

  lemma SplitOut(bs: seq<Bucket>, mask: nat, all: multiset<Node>)
    requires Fit(bs, mask, all) && forall x :: Pow2(Log2(mask + 1) - 1) <= x < |bs| ==> bs[x].Ready?
    ensures FullySplit(bs, mask)
  {
    AllSplit(bs, Log2(mask + 1));
    forall x, i | 0 <= x < |bs| && 0 <= i < |bs[x].nodes| ensures And(bs[x].nodes[i].hash, mask) == x {
      assert Home(bs, {}, Low(bs[x].nodes[i].hash, Log2(mask + 1))) == x;
    }
  }

  predicate AllReady(bs: seq<Bucket>)
  {
    forall x :: 0 <= x < |bs| ==> bs[x].Ready?
  }

  function Blank(n: nat): (bs: seq<Bucket>)
    ensures |bs| == n && forall i :: 0 <= i < n ==> bs[i] == Ready([])
  {
    seq(n, _ => Ready([]))
  }

  lemma {:induction false} NoNodes(bs: seq<Bucket>)
    requires forall x :: 0 <= x < |bs| ==> bs[x] == Ready([])
    ensures All(bs) == multiset{}
    decreases |bs|
  {
    if bs != [] { NoNodes(bs[..|bs| - 1]); }
  }

  lemma {:induction false} NoneListed(bs: seq<Bucket>)
    requires forall x :: 0 <= x < |bs| && bs[x].Ready? ==> bs[x].nodes == []
    ensures All(bs) == multiset{}
    decreases |bs|
  {
    if bs != [] { NoneListed(bs[..|bs| - 1]); }
  }

  /** Buckets that begin empty and split are sound in an empty table exactly when everything below them is split. */
  lemma InitialShape(bs: seq<Bucket>, k: nat, k': nat)
    requires Closed(bs, {}) && |bs| == Pow2(k) && k < k'
    ensures Pow2(k) <= Pow2(k')
    ensures Closed(bs + Blank(Pow2(k') - Pow2(k)), {}) <==> AllReady(bs)
  {
    hide Pow2, Log2;
    Pow2Grows(k, k');
    var bs' := bs + Blank(Pow2(k') - Pow2(k));
    assert forall x :: 0 <= x < |bs| ==> bs'[x] == bs[x];
    if Closed(bs', {}) {
      BelowNew(bs, bs', k);
    } else {
      ClosedIfReady(bs, bs');
    }
  }

  lemma ClosedIfReady(bs: seq<Bucket>, bs': seq<Bucket>)
    requires 2 <= |bs| <= |bs'| && (forall x :: 0 <= x < |bs| ==> bs'[x] == bs[x]) && forall x :: |bs| <= x < |bs'| ==> bs'[x].Ready?
    ensures AllReady(bs) ==> Closed(bs', {})
  {
  }

  lemma BelowNew(bs: seq<Bucket>, bs': seq<Bucket>, k: nat)
    requires |bs| == Pow2(k) && 2 * |bs| <= |bs'| && Closed(bs', {})
    requires (forall x :: 0 <= x < |bs| ==> bs'[x] == bs[x]) && forall x :: |bs| <= x < |bs'| ==> bs'[x].Ready?
    ensures AllReady(bs)
  {
    hide Pow2, Log2;
    forall x: nat | x < |bs| ensures bs[x].Ready? { ParentOfNew(bs, bs', k, x); }
  }

  /** A table that grew once and was emptied before its buckets were split is such a case. */
  lemma InitialGap()
    ensures Pow2(8) >= 2 && Pow2(9) >= Pow2(8)
    ensures var bs := Blank(2) + Unsplit(Pow2(8) - 2); Closed(bs, {}) && !Closed(bs + Blank(Pow2(9) - Pow2(8)), {})
  {
    Pow2Grows(2, 8);
    var bs := Blank(2) + Unsplit(Pow2(8) - 2);
    assert bs[2].Pending?;
    hide Pow2;
    InitialShape(bs, 8, 9);
  }

  lemma ParentOfNew(bs: seq<Bucket>, bs': seq<Bucket>, k: nat, x: nat)
    requires |bs| == Pow2(k) && x < |bs| && 2 * |bs| <= |bs'| && Closed(bs', {}) && bs'[x] == bs[x] && bs'[x + |bs|].Ready?
    ensures bs[x].Ready?
  {
    Log2Is(x + Pow2(k), k);
    assert Done(bs', {}, x + |bs|);
    if x + |bs| > 1 { assert Done(bs', {}, ClearTop(x + |bs|)); }
  }

  lemma FitInitial(bs: seq<Bucket>, mask: nat)
    requires Fit(bs, mask, multiset{}) && AllReady(bs)
    ensures NextMask(mask) > mask && Fit(bs + Blank(NextMask(mask) - mask), NextMask(mask), multiset{})
    ensures AllReady(bs + Blank(NextMask(mask) - mask))
  {
    FitGrown(bs, mask, multiset{});
    var bs' := bs + Blank(NextMask(mask) - mask);
    forall x: nat | x < |bs| ensures bs[x] == Ready([]) {
      if bs[x].nodes != [] { AllMember(bs, x, bs[x].nodes[0]); }
    }
    NoNodes(bs');
    hide All;
    EmptyFit(bs', NextMask(mask));
  }

  lemma EmptyFit(bs: seq<Bucket>, mask: nat)
    requires |bs| == mask + 1 == Pow2(Log2(mask + 1)) && Log2(mask + 1) > 0 && All(bs) == multiset{}
    requires forall x :: 0 <= x < |bs| ==> bs[x] == Ready([])
    ensures Fit(bs, mask, multiset{})
  {
    Pow2Grows(1, Log2(mask + 1));
    hide All;
  }

  class Table {
    var mask: nat
    var buckets: seq<Bucket>
    var size: nat

    /** Two embedded buckets, both split. */
    constructor ()
      ensures Valid() && Contents() == multiset{} && mask == 1 && size == 0
    {
      mask, buckets, size := 1, Blank(2), 0;
      new;
      NoNodes(buckets);
    }

    ghost function Lg(): nat
      reads `mask
    {
      Log2(mask + 1)
    }

    ghost predicate Filling(busy: set<nat>)
      reads `mask, `buckets, `size
    {
      |buckets| == mask + 1 && Sound(buckets, busy, Lg()) && size == |All(buckets)|
    }

    ghost predicate Valid()
      reads `mask, `buckets, `size
    {
      Filling({})
    }

    ghost function Contents(): multiset<Node>
      reads `buckets
    {
      All(buckets)
    }

    /** The table is sound and holds these nodes. */
    ghost predicate Holds(all: multiset<Node>)
      reads `mask, `buckets, `size
    {
      Valid() && Contents() == all
    }

    /** rehash_bucket: splits bucket h off its parent, which is split off its own first. */
    method RehashBucket(h: nat, ghost busy: set<nat>)
      requires Filling(busy) && 1 < h < |buckets| && h < WIDE && buckets[h].Pending? && forall b <- busy :: h < b
      modifies `buckets
      ensures Filling(busy) && Done(buckets, busy, h) && Rearranged(old(buckets), buckets, h)
      decreases h
    {
      hide *;
      ghost var bs := buckets;
      MarkedInv(h, busy);
      Mark(h, busy);
      ParentIs(h);
      var p := Parent(h).value;
      ParentInRange(h, busy);
      if buckets[p].Pending? {
        ghost var bs1 := buckets;
        RehashBucket(p, busy + {h});
        RearrangedTwice(bs, bs1, buckets, h, p);
      }
      ghost var bs2 := buckets;
      Split(h, busy);
      RearrangedTwice(bs, bs2, buckets, h, h);
    }

    /** Mark the bucket as split; its list is empty so far. */
    method Mark(h: nat, ghost busy: set<nat>)
      requires Filling(busy) && 1 < h < |buckets| && buckets[h].Pending?
      modifies `buckets
      ensures Filling(busy + {h}) && Rearranged(old(buckets), buckets, h) && |buckets| == old(|buckets|)
    {
      MarkedInv(h, busy);
      buckets := buckets[h := Ready([])];
    }

    lemma MarkedInv(h: nat, busy: set<nat>)
      requires Filling(busy) && 1 < h < |buckets| && buckets[h].Pending?
      ensures Sound(buckets[h := Ready([])], busy + {h}, Lg()) && Rearranged(buckets, buckets[h := Ready([])], h)
    {
      Marked(buckets, busy, Lg(), h);
      hide Sound, All;
    }

    lemma ParentInRange(h: nat, busy: set<nat>)
      requires Filling(busy + {h}) && 1 < h < |buckets| && forall b <- busy :: h < b
      ensures ClearTop(h) < h && h !in busy && forall b <- busy + {h} :: ClearTop(h) < b
      ensures buckets[ClearTop(h)].Pending? ==> 1 < ClearTop(h)
      ensures buckets[ClearTop(h)].Ready? ==> Done(buckets, busy + {h}, ClearTop(h))
    {
      hide Placed, Unique, All, Pow2, Log2, ClearTop, Low, Home;
    }

    /** The second half of rehash_bucket: the parent is finished, its list is gone through. */
    method Split(h: nat, ghost busy: set<nat>)
      requires Filling(busy + {h}) && 1 < h < |buckets| && h !in busy && Done(buckets, busy + {h}, ClearTop(h))
      modifies `buckets
      ensures Filling(busy) && Done(buckets, busy, h) && Rearranged(old(buckets), buckets, h)
    {
      hide *;
      ghost var bs := buckets;
      var kept, moved := Divide(h, busy);
      buckets := Relinked(buckets, h, kept, moved);
      SizeKept(bs, busy, h);
    }

    /** The loop of rehash_bucket. */
    method Divide(h: nat, ghost busy: set<nat>) returns (kept: seq<Node>, moved: seq<Node>)
      requires Filling(busy + {h}) && 1 < h < |buckets| && h !in busy && Done(buckets, busy + {h}, ClearTop(h))
      ensures var bs' := Relinked(buckets, h, kept, moved);
              Sound(bs', busy, Lg()) && Done(bs', busy, h) && Rearranged(buckets, bs', h)
      ensures size == |All(buckets)| && |buckets| == mask + 1
    {
      InLists(h, busy);
      kept, moved := Partition(buckets[ClearTop(h)].nodes, h);
      SplitInv(h, busy, kept, moved);
    }

    lemma SplitInv(h: nat, busy: set<nat>, kept: seq<Node>, moved: seq<Node>)
      requires Filling(busy + {h}) && 1 < h < |buckets| && h !in busy && Done(buckets, busy + {h}, ClearTop(h))
      requires multiset(kept) + multiset(moved) == multiset(buckets[ClearTop(h)].nodes)
      requires forall i :: 0 <= i < |kept| ==> kept[i] in buckets[ClearTop(h)].nodes && Low(kept[i].hash, Width(h)) != h
      requires forall i :: 0 <= i < |moved| ==> moved[i] in buckets[ClearTop(h)].nodes && Low(moved[i].hash, Width(h)) == h
      ensures var bs' := Relinked(buckets, h, kept, moved);
              Sound(bs', busy, Lg()) && Done(bs', busy, h) && Rearranged(buckets, bs', h)
      ensures size == |All(buckets)| && |buckets| == mask + 1
    {
      SplitSound(buckets, busy, Lg(), h, kept, moved);
      SplitSame(buckets, h, kept, moved);
      hide Sound, All, Relinked;
    }

    static lemma SplitSame(bs: seq<Bucket>, h: nat, kept: seq<Node>, moved: seq<Node>)
      requires 0 < h < |bs| && All(Relinked(bs, h, kept, moved)) == All(bs)
      ensures Rearranged(bs, Relinked(bs, h, kept, moved), h)
    {
      hide All;
    }

    lemma SizeKept(bs: seq<Bucket>, busy: set<nat>, h: nat)
      requires Sound(buckets, busy, Lg()) && Rearranged(bs, buckets, h) && size == |All(bs)| && |bs| == mask + 1
      ensures Filling(busy)
    {
      hide Sound, All;
    }

    lemma InLists(h: nat, busy: set<nat>)
      requires 1 < h < |buckets| && Done(buckets, busy + {h}, ClearTop(h))
      ensures buckets[ClearTop(h)].Ready? && ClearTop(h) < h
    {
    }

    /** A mask some thread may have read earlier: all bits below some position, at most the present one's. */
    ghost predicate OldMask(m: nat)
      reads `mask
    {
      m + 1 == Pow2(Log2(m + 1)) && 0 < Log2(m + 1) <= Lg() && m <= mask
    }

    /** check_rehashing_collision: may a bucket above the one chosen with the old mask hold the hash now? */
    method CheckCollision(h: nat, mOld: nat, ghost busy: set<nat>) returns (race: bool)
      requires Filling(busy) && OldMask(mOld) && Done(buckets, busy, And(h, mOld))
      ensures !race ==> Home(buckets, busy, And(h, mask)) == And(h, mOld)
      ensures race && busy == {} ==> Home(buckets, busy, And(h, mask)) > And(h, mOld)
    {
      hide *;
      AndIs(h, mOld);
      AndIs(h, mask);
      OldMaskIs(mOld, busy);
      if And(h, mOld) == And(h, mask) {
        HomeOfDone(And(h, mOld), busy);
        return false;
      }
      var i := Log2(mOld + 1);
      ghost var a := i;
      while !HasBit(h, i)
        invariant a <= i < Lg() && Low(h, i) == Low(h, a)
        decreases Lg() - i
      {
        LowStep(h, i);
        i := i + 1;
      }
      NextBucket(h, a, i, busy);
      race := buckets[Low(h, i + 1)].Ready?;
    }

    lemma OldMaskIs(m: nat, busy: set<nat>)
      requires OldMask(m) && Filling(busy)
      ensures m <= mask && |buckets| == mask + 1
      ensures 0 < Log2(m + 1) <= Lg() && Lg() == Log2(mask + 1)
    {
    }

    lemma HomeOfDone(x: nat, busy: set<nat>)
      requires x < |buckets| && Done(buckets, busy, x)
      ensures Home(buckets, busy, x) == x
    {
    }

    lemma NextBucket(h: nat, a: nat, i: nat, busy: set<nat>)
      requires Filling(busy) && 0 < a <= i < Lg() && Low(h, i) == Low(h, a) && HasBit(h, i) && Low(h, a) < |buckets| && Done(buckets, busy, Low(h, a))
      ensures Low(h, i + 1) < |buckets| && Low(h, Lg()) < |buckets|
      ensures buckets[Low(h, i + 1)].Pending? ==> Home(buckets, busy, Low(h, Lg())) == Low(h, a)
      ensures busy == {} && buckets[Low(h, i + 1)].Ready? ==> Home(buckets, busy, Low(h, Lg())) > Low(h, a)
    {
      Pow2Grows(i + 1, Lg());
      NextIs(buckets, busy, Lg(), h, i);
    }

    /** check_mask_race. */
    method CheckMaskRace(h: nat, m: nat, ghost busy: set<nat>) returns (race: bool, m': nat)
      requires Filling(busy) && OldMask(m) && Done(buckets, busy, And(h, m))
      ensures m' == mask && (race ==> m != mask) && (!race ==> Home(buckets, busy, And(h, mask)) == And(h, m))
      ensures race && busy == {} ==> Home(buckets, busy, And(h, mask)) > And(h, m)
    {
      race, m' := false, mask;
      if m != mask {
        race := CheckCollision(h, m, busy);
      }
    }

    /** bucket_accessor::acquire: the bucket is finished when its lock is held. */
    method Acquire(b: nat)
      requires Valid() && b < |buckets| && b < WIDE
      modifies `buckets
      ensures Kept(old(buckets)) && Done(buckets, {}, b)
    {
      LowestDone();
      if buckets[b].Pending? {
        RehashBucket(b, {});
        assert Rearranged(old(buckets), buckets, b);
      }
    }

    lemma LowestDone()
      requires Valid()
      ensures |buckets| == mask + 1 && Contents() == All(buckets) && forall b :: 0 <= b < |buckets| && buckets[b].Pending? ==> 1 < b
    {
    }

    /** The key is not where its hash belongs, so it is nowhere. */
    lemma Absent(key: Key, h: nat, b: nat)
      requires Valid() && Agrees(Contents(), key, h) && b < |buckets| && buckets[b].Ready?
      requires And(h, mask) < |buckets| && Home(buckets, {}, And(h, mask)) == b
      requires forall j :: 0 <= j < |buckets[b].nodes| ==> buckets[b].nodes[j].key != key
      ensures forall n <- Contents() :: n.key != key
    {
      forall n <- Contents() ensures n.key != key {
        if n.key == key {
          var x := AllWhere(buckets, n);
          InOld(buckets, {}, Lg(), x, n);
        }
      }
    }

    /** What a search under the mask m has told: the node is in b, or it is nowhere and belongs into b, or the mask is stale. */
    ghost predicate Searched(key: Key, h: nat, found: bool, race: bool, b: nat, i: nat)
      reads `buckets, `mask
    {
      && b < |buckets| && buckets[b].Ready?
      && (found ==> !race && i < |buckets[b].nodes| && buckets[b].nodes[i].key == key)
      && (!found && !race ==> And(h, mask) < |buckets| && Home(buckets, {}, And(h, mask)) == b && forall n <- Contents() :: n.key != key)
    }

    /** One turn of the retry loop that lookup and erase share. */
    method Try(key: Key, h: nat, m: nat) returns (found: bool, race: bool, b: nat, i: nat, m': nat)
      requires Valid() && mask < WIDE && OldMask(m) && Agrees(Contents(), key, h)
      modifies `buckets
      ensures Kept(old(buckets))
      ensures Searched(key, h, found, race, b, i) && (!found ==> m' == mask) && (race ==> m < mask)
    {
      hide *;
      LowestDone();
      AndInRange(h, m);
      b := And(h, m);
      ghost var bs := buckets;
      Acquire(b);
      AcquireGives(bs, b, key, h);
      found, i := SearchBucket(buckets[b].nodes, key);
      race, m' := false, m;
      if !found {
        race, m' := CheckMaskRace(h, m, {});
        LowestDone();
        if !race {
          AndInRange(h, mask);
          Absent(key, h, b);
        }
      }
      SearchedIntro(key, h, found, race, b, i);
    }

    lemma AndInRange(h: nat, m: nat)
      ensures And(h, m) <= m
      ensures OldMask(m) ==> m <= mask
    {
    }

    lemma AcquireGives(bs: seq<Bucket>, b: nat, key: Key, h: nat)
      requires Kept(bs) && b < |buckets| && Done(buckets, {}, b) && Agrees(All(bs), key, h)
      ensures Valid() && buckets[b].Ready? && Agrees(Contents(), key, h)
    {
    }

    lemma SearchedIntro(key: Key, h: nat, found: bool, race: bool, b: nat, i: nat)
      requires b < |buckets| && buckets[b].Ready? && (found ==> !race && i < |buckets[b].nodes| && buckets[b].nodes[i].key == key)
      requires !found && !race ==> And(h, mask) < |buckets| && Home(buckets, {}, And(h, mask)) == b && forall n <- Contents() :: n.key != key
      ensures Searched(key, h, found, race, b, i)
    {
    }

    /** The retry loop: the mask read earlier may be out of date. */
    method Locate(key: Key, h: nat, m0: nat) returns (found: bool, b: nat, i: nat, m: nat)
      requires Valid() && mask < WIDE && OldMask(m0) && Agrees(Contents(), key, h)
      modifies `buckets
      ensures Kept(old(buckets)) && Searched(key, h, found, false, b, i) && (!found ==> m == mask)
    {
      var race;
      found, race, b, i, m := Try(key, h, m0);
      while race
        invariant Kept(old(buckets)) && Searched(key, h, found, race, b, i) && (!found ==> m == mask)
        decreases race
      {
        KeptAgrees(old(buckets), key, h);
        CurrentMask();
        found, race, b, i, m := Try(key, h, m);
      }
    }

    /** The same table, some buckets split perhaps. */
    ghost predicate Kept(bs: seq<Bucket>)
      reads `mask, `buckets, `size
    {
      Valid() && All(buckets) == All(bs) && |buckets| == |bs|
    }

    lemma KeptAgrees(bs: seq<Bucket>, key: Key, h: nat)
      requires Kept(bs) && Agrees(All(bs), key, h)
      ensures Valid() && Agrees(Contents(), key, h)
    {
    }

    lemma CurrentMask()
      requires Valid()
      ensures OldMask(mask)
    {
      Log2Is(mask + 1, Lg());
    }

    /** find: present or not, whatever mask the search began with. */
    method Find(key: Key, h: nat, m0: nat) returns (r: Option<Node>)
      requires Valid() && mask < WIDE && OldMask(m0) && Agrees(Contents(), key, h)
      modifies `buckets
      ensures Kept(old(buckets))
      ensures match r case Some(n) => n in Contents() && n.key == key case None => forall n <- Contents() :: n.key != key
    {
      var found, b, i, m := Locate(key, h, m0);
      if found {
        AllMember(buckets, b, buckets[b].nodes[i]);
        return Some(buckets[b].nodes[i]);
      }
      return None;
    }

    /** insert: adds the node unless the key is there, and grows the table when it is as full as its mask. */
    method Insert(key: Key, h: nat, value: int, m0: nat) returns (inserted: bool)
      requires Valid() && mask < WIDE && OldMask(m0) && Agrees(Contents(), key, h)
      modifies this
      ensures Valid()
      ensures inserted <==> forall n <- old(Contents()) :: n.key != key
      ensures Contents() == old(Contents()) + if inserted then multiset{Node(key, h, value)} else multiset{}
      ensures mask == if inserted && |old(Contents())| + 1 >= old(mask)
                      then (if old(mask) < 255 then 255 else 2 * old(mask) + 1) else old(mask)
    {
      var found, b, i, m := Locate(key, h, m0);
      if found {
        AllMember(buckets, b, buckets[b].nodes[i]);
        assert buckets[b].nodes[i].key == key;
        assert Contents() + multiset{} == Contents();
        return false;
      }
      InsertNode(b, Node(key, h, value), m);
      return true;
    }

    /** insert_new_node, and the growth it asks for. */
    method InsertNode(b: nat, n: Node, m: nat)
      requires Valid() && m == mask && b < |buckets| && buckets[b].Ready?
      requires And(n.hash, mask) < |buckets| && Home(buckets, {}, And(n.hash, mask)) == b && forall m <- Contents() :: m.key != n.key
      modifies this
      ensures Holds(old(Contents()) + multiset{n})
      ensures mask == if |old(Contents())| + 1 >= old(mask)
                      then (if old(mask) < 255 then 255 else 2 * old(mask) + 1) else old(mask)
    {
      hide *;
      ghost var all := Contents() + multiset{n};
      Shape();
      FitLinked(buckets, mask, Contents(), b, n);
      OneMore(Contents(), n);
      size := size + 1;
      buckets := Linked(buckets, b, n);
      Reshaped(all);
      if size >= m {
        HoldsIs(all);
        EnableSegment();
      }
    }

    /** The first node of a new table brings the first block of segments with it. */
    static method FirstInsert(key: Key, h: nat, value: int) returns (t: Table)
      ensures fresh(t) && t.Valid() && t.mask == 255 && |t.buckets| == 256 && t.Contents() == multiset{Node(key, h, value)}
    {
      t := new Table();
      Wide();
      t.CurrentMask();
      var inserted := t.Insert(key, h, value, 1);
    }

    /** erase: unlinks the node with the key, if there is one. */
    method Erase(key: Key, h: nat, m0: nat) returns (erased: bool)
      requires Valid() && mask < WIDE && OldMask(m0) && Agrees(Contents(), key, h)
      modifies `buckets, `size
      ensures Valid()
      ensures erased ==> exists n :: n in old(Contents()) && n.key == key && Contents() == old(Contents()) - multiset{n}
      ensures !erased ==> Contents() == old(Contents()) && forall n <- Contents() :: n.key != key
    {
      var found, b, i, m := Locate(key, h, m0);
      if !found {
        return false;
      }
      AllMember(buckets, b, buckets[b].nodes[i]);
      assert buckets[b].nodes[i].key == key;
      RemoveNode(b, i);
      return true;
    }

    /** Unlink the i-th node of a bucket. */
    method RemoveNode(b: nat, i: nat)
      requires Valid() && b < |buckets| && buckets[b].Ready? && i < |buckets[b].nodes|
      modifies `buckets, `size
      ensures Holds(old(Contents()) - multiset{old(buckets[b].nodes[i])})
    {
      hide *;
      ghost var all := Contents() - multiset{buckets[b].nodes[i]};
      Shape();
      FitUnlinked(buckets, mask, Contents(), b, i);
      OneMore(Contents(), buckets[b].nodes[i]);
      size := size - 1;
      buckets := Unlinked(buckets, b, i);
      Reshaped(all);
    }

    static lemma OneMore(all: multiset<Node>, n: Node)
      ensures |all + multiset{n}| == |all| + 1
      ensures n in all ==> |all - multiset{n}| == |all| - 1
    {
    }

    /** enable_segment for the first segment that is missing: segments 1 to 7 at once, then one at a time. */
    method EnableSegment()
      requires Valid()
      modifies `mask, `buckets
      ensures Holds(old(Contents())) && Lengthened(old(buckets), buckets)
      ensures mask == if old(mask) < 255 then 255 else 2 * old(mask) + 1
    {
      hide *;
      Shape();
      ghost var all := Contents();
      FitGrown(buckets, mask, all);
      FitGives(buckets, mask, all);
      NextMaskIs(mask);
      LongerIs(buckets, Unsplit(NextMask(mask) - mask));
      buckets := buckets + Unsplit(NextMask(mask) - mask);
      mask := NextMask(mask);
      Reshaped(all);
    }

    lemma HoldsIs(all: multiset<Node>)
      requires Holds(all)
      ensures Valid() && Contents() == all && size == |all|
    {
    }

    lemma Reshaped(all: multiset<Node>)
      requires Fit(buckets, mask, all) && size == |all|
      ensures Holds(all)
    {
      hide Sound, All;
    }

    lemma Shape()
      requires Valid()
      ensures Fit(buckets, mask, Contents()) && size == |Contents()| && |buckets| == mask + 1 && Holds(Contents())
    {
    }

    /** mark_rehashed_levels: marks the unsplit buckets below y as split, segment by segment. */
    method MarkLevels(y: nat, ghost k: nat)
      requires |buckets| == mask + 1 == Pow2(k) && y < |buckets|
      modifies `buckets
      ensures MarkedAllBelow(old(buckets), buckets, y)
      decreases |buckets| - y
    {
      hide *;
      ghost var bs := buckets;
      var s := SegmentOf(y);
      MarkStart(bs, y);
      SegmentTop(y);
      while Pow2(s + 1) <= mask
        invariant MarkedTo(bs, buckets, y, s) && |buckets| == |bs| && y < Pow2(s + 1)
        decreases |bs| - Pow2(s + 1)
      {
        s := s + 1;
        NextSegment(mask, y, s, k);
        MarkChild(y, s, k, bs);
      }
      MarkEnd(bs, buckets, y, s);
    }

    /** One turn of the loop: the child in segment s and what is below it. */
    method MarkChild(y: nat, s: nat, ghost k: nat, ghost bs: seq<Bucket>)
      requires |buckets| == mask + 1 == Pow2(k) == |bs| && s > 0 && y < Pow2(s) && y + Pow2(s) <= mask
      requires MarkedTo(bs, buckets, y, s - 1)
      modifies `buckets
      ensures MarkedTo(bs, buckets, y, s) && |buckets| == |bs|
      decreases |buckets| - y - 1, 1
    {
      var c := y + Pow2(s);
      ghost var cur := buckets;
      if buckets[c].Pending? {
        buckets := buckets[c := Ready([])];
        MarkLevels(c, k);
      }
      hide MarkedTo, MarkedAllBelow;
      MarkStep(bs, cur, buckets, y, s);
    }

    static lemma SegmentTop(y: nat)
      ensures y < Pow2(SegmentOf(y) + 1)
    {
    }

    static lemma NextSegment(mask: nat, y: nat, s: nat, k: nat)
      requires mask + 1 == Pow2(k) && Pow2(s) <= mask && s > 0 && y < Pow2(s)
      ensures y + Pow2(s) <= mask && y < Pow2(s + 1) && Pow2(s) < Pow2(s + 1)
    {
      if k <= s { Pow2Grows(k, s); } else { Pow2Grows(s + 1, k); }
    }

    /** The loop of rehash over the list of a bucket: each node that belongs elsewhere now goes there. */
    method SortList(h: nat, ghost k: nat)
      requires |buckets| == mask + 1 && k == Log2(mask + 1) && Sorting(buckets, k, h, 0)
      modifies `buckets
      ensures Resorted(old(buckets), buckets, k)
    {
      var p: nat := 0;
      ghost var bs := buckets;
      while p < |buckets[h].nodes|
        invariant |buckets| == |bs| && h < |buckets| && buckets[h].Ready? && Sorting(buckets, k, h, p) && All(buckets) == All(bs)
        invariant forall x :: 0 <= x < |buckets| ==> buckets[x].Ready? == bs[x].Ready?
        decreases |buckets[h].nodes| - p
      {
        p := SortTurn(h, p, k);
      }
      SortEnd(buckets, k, h);
    }

    method SortTurn(h: nat, p: nat, ghost k: nat) returns (p': nat)
      requires |buckets| == mask + 1 && k == Log2(mask + 1) && h < |buckets| && buckets[h].Ready? && p < |buckets[h].nodes| && Sorting(buckets, k, h, p)
      modifies `buckets
      ensures |buckets| == old(|buckets|) && buckets[h].Ready? && Sorting(buckets, k, h, p') && All(buckets) == old(All(buckets))
      ensures |buckets[h].nodes| - p' == old(|buckets[h].nodes|) - p - 1
      ensures forall x :: 0 <= x < |buckets| ==> buckets[x].Ready? == old(buckets[x].Ready?)
    {
      hide *;
      var n := buckets[h].nodes[p];
      var c := And(n.hash, mask);
      AndIs(n.hash, mask);
      if c != h {
        SortMoves(buckets, k, h, p);
        MovesOut(buckets, h, p, c, n);
        buckets := Unlinked(buckets, h, p);
        buckets := Linked(buckets, c, n);
        p' := p;
      } else {
        SortStays(buckets, k, h, p);
        p' := p + 1;
      }
    }

    static lemma AndIs(h: nat, m: nat)
      ensures And(h, m) == Low(h, Log2(m + 1))
    {
    }

    static lemma MovesOut(bs: seq<Bucket>, h: nat, p: nat, c: nat, n: Node)
      requires h < |bs| && bs[h].Ready? && p < |bs[h].nodes| && c < |bs| && bs[c].Ready? && c != h
      ensures |Unlinked(bs, h, p)| == |bs| && Unlinked(bs, h, p)[c].Ready?
      ensures var bs' := Linked(Unlinked(bs, h, p), c, n);
              |bs'| == |bs| && bs'[h].Ready? && |bs'[h].nodes| == |bs[h].nodes| - 1
              && forall x :: 0 <= x < |bs| ==> bs'[x].Ready? == bs[x].Ready?
    {
    }

    /** The first split bucket on the way down from an unsplit one. */
    method FindRoot(b: nat) returns (h: nat)
      requires Valid() && b < WIDE && b < |buckets| && buckets[b].Pending?
      ensures h < b && buckets[h].Ready? && Reach(buckets, b, h)
    {
      ParentIs(b);
      h := Parent(b).value;
      LowestDone();
      while buckets[h].Pending?
        invariant h < b && (Reach(buckets, b, h))
        decreases h
      {
        LowestDone();
        ReachOn(buckets, b, h);
        ParentIs(h);
        h := Parent(h).value;
      }
    }

    /** The body of rehash for one bucket that is not split yet. */
    method RehashOne(b: nat)
      requires Valid() && b < WIDE && b < |buckets| && buckets[b].Pending?
      modifies `buckets
      ensures Holds(old(Contents())) && |buckets| == old(|buckets|) && buckets[b].Ready?
      ensures forall x :: 0 <= x < |buckets| && old(buckets[x].Ready?) ==> buckets[x].Ready?
    {
      hide *;
      ghost var bs, all := buckets, Contents();
      var h := MarkRoot(b);
      ghost var bs1 := buckets;
      Shape0(bs, all);
      SortList(h, Log2(mask + 1));
      FitAgain(bs, bs1, buckets, mask, all);
      Reshaped(all);
    }

    lemma Shape0(bs: seq<Bucket>, all: multiset<Node>)
      requires Fit(bs, mask, all)
      ensures |bs| == mask + 1
    {
    }

    /** Find the split bucket that holds b's nodes, and mark all below it. */
    method MarkRoot(b: nat) returns (h: nat)
      requires Valid() && b < WIDE && b < |buckets| && buckets[b].Pending?
      modifies `buckets
      ensures Fit(old(buckets), mask, old(Contents())) && size == |old(Contents())|
      ensures Sorting(buckets, Log2(mask + 1), h, 0) && All(buckets) == All(old(buckets)) && |buckets| == |old(buckets)|
      ensures buckets[b].Ready? && forall x :: 0 <= x < |buckets| && old(buckets[x].Ready?) ==> buckets[x].Ready?
    {
      hide *;
      Shape();
      ghost var bs, k, all := buckets, Log2(mask + 1), Contents();
      FitGives(bs, mask, all);
      h := FindRoot(b);
      MarkLevels(h, k);
      SortStart(bs, buckets, k, h);
      MarkedKeeps(bs, buckets, h, b);
    }

    /** The last segment's buckets are split. */
    ghost predicate LastSplit()
      reads `mask, `buckets
    {
      |buckets| == mask + 1 && forall x :: (mask + 1) / 2 <= x <= mask ==> buckets[x].Ready?
    }

    /** The loop of rehash: every bucket of the last segment gets split, if it is not yet. */
    method SplitAllBuckets()
      requires (Valid() || LastSplit()) && mask < WIDE
      modifies `buckets
      ensures old(Valid()) ==> Holds(old(Contents())) && FullySplit(buckets, mask)
      ensures !old(Valid()) ==> buckets == old(buckets)
    {
      hide *;
      ghost var valid, all, bs := Valid(), Contents(), buckets;
      if valid { Shape(); } else { LastShape(); }
      var b := (mask + 1) / 2;
      ghost var half := b;
      while b <= mask
        invariant half <= b <= mask + 1 && |buckets| == mask + 1
        invariant valid ==> Holds(all) && forall x :: half <= x < b ==> buckets[x].Ready?
        invariant !valid ==> buckets == bs && forall x :: half <= x <= mask ==> buckets[x].Ready?
      {
        if valid { HoldsIs(all); }
        if buckets[b].Pending? {
          RehashOne(b);
        }
        b := b + 1;
      }
      if valid {
        HoldsIs(all);
        Shape();
        Halves();
        SplitOut(buckets, mask, all);
      }
    }

    lemma LastShape()
      requires LastSplit()
      ensures |buckets| == mask + 1 && forall x :: (mask + 1) / 2 <= x <= mask ==> buckets[x].Ready?
    {
    }

    lemma Halves()
      requires Valid()
      ensures (mask + 1) / 2 == Pow2(Log2(mask + 1) - 1)
    {
    }

    /** enable_segment for an empty table: the new buckets begin split. */
    method EnableInitial()
      requires |buckets| == mask + 1 == Pow2(Log2(mask + 1))
      modifies `mask, `buckets
      ensures mask == NextMask(old(mask)) > old(mask) && buckets == old(buckets) + Blank(mask - old(mask))
      ensures mask == if old(mask) < 255 then 255 else 2 * old(mask) + 1
    {
      NextMaskIs(mask);
      buckets := buckets + Blank(NextMask(mask) - mask);
      mask := NextMask(mask);
    }

    /** The table is empty and has some unsplit buckets, and more that began split. */
    ghost predicate Gap(bs: seq<Bucket>)
      reads `mask, `buckets, `size
    {
      && size == 0 && bs != [] && Fit(bs, |bs| - 1, multiset{}) && !AllReady(bs)
      && |bs| <= |buckets| == mask + 1 == Pow2(Log2(mask + 1)) && buckets == bs + Blank(|buckets| - |bs|)
    }

    lemma GapStarts()
      requires Valid() && size == 0 && !AllReady(buckets)
      ensures Gap(buckets)
    {
      assert buckets == buckets + Blank(0);
      FitGives(buckets, mask, Contents());
      hide Sound, All, AllReady;
    }

    lemma GapGrows(bs: seq<Bucket>, m: nat, before: seq<Bucket>)
      requires size == 0 && bs != [] && Fit(bs, |bs| - 1, multiset{}) && !AllReady(bs)
      requires |bs| <= |before| == m + 1 == Pow2(Log2(m + 1)) && before == bs + Blank(|before| - |bs|)
      requires mask == NextMask(m) > m && buckets == before + Blank(mask - m)
      ensures Gap(bs)
    {
      hide Fit, AllReady, Log2, Pow2, NextMask;
      NextMaskIs(m);
      BlankMore(bs, |before| - |bs|, mask - m);
    }

    static lemma BlankMore(bs: seq<Bucket>, m: nat, n: nat)
      ensures bs + Blank(m) + Blank(n) == bs + Blank(m + n)
    {
    }

    lemma GapIs(bs: seq<Bucket>)
      requires Gap(bs)
      ensures size == 0 && |buckets| == mask + 1 == Pow2(Log2(mask + 1)) && bs != [] && Fit(bs, |bs| - 1, multiset{}) && !AllReady(bs)
      ensures |bs| <= |buckets| && buckets == bs + Blank(|buckets| - |bs|)
    {
      hide Fit, AllReady;
    }

    /** Grown over such a gap, the table is not sound, and the loop of rehash does not see it. */
    lemma GapSpoils(bs: seq<Bucket>)
      requires Gap(bs) && |bs| < |buckets|
      ensures !Valid() && LastSplit() && Contents() == multiset{}
    {
      hide *;
      GapIs(bs);
      var k, k' := Log2(|bs|), Log2(mask + 1);
      FitGives(bs, |bs| - 1, multiset{});
      if k' <= k { Pow2Grows(k', k); }
      InitialShape(bs, k, k');
      ValidClosed();
      Pow2Grows(k, k');
      LastBlank(bs);
      EmptyBuckets(bs);
    }

    lemma ValidClosed()
      ensures Valid() ==> Closed(buckets, {})
    {
      hide Closed, Placed, Unique, All;
    }

    lemma LastBlank(bs: seq<Bucket>)
      requires |buckets| == mask + 1 && 2 * |bs| <= |buckets| && buckets == bs + Blank(|buckets| - |bs|)
      ensures LastSplit()
    {
    }

    lemma EmptyBuckets(bs: seq<Bucket>)
      requires bs != [] && Fit(bs, |bs| - 1, multiset{}) && |bs| <= |buckets| && buckets == bs + Blank(|buckets| - |bs|)
      ensures Contents() == multiset{}
    {
      FitGives(bs, |bs| - 1, multiset{});
      forall x: nat | x < |buckets| && buckets[x].Ready? ensures buckets[x].nodes == [] {
        if x < |bs| && bs[x].nodes != [] { AllMember(bs, x, bs[x].nodes[0]); }
      }
      NoneListed(buckets);
    }

    lemma NextNarrow(sz: nat)
      requires mask + 1 == Pow2(Log2(mask + 1)) && mask + 1 < sz <= WIDE
      ensures NextMask(mask) < WIDE
    {
      var k := Log2(mask + 1);
      Wide();
      if k >= 32 { Pow2Grows(32, k); }
      if k >= FIRST_BLOCK { Pow2Grows(k + 1, 32); } else { Pow2Grows(FIRST_BLOCK, 32); }
    }

    lemma EmptyIsInitial()
      requires Valid() && size == 0
      ensures Holds(multiset{})
    {
      hide Sound, All;
    }

    lemma BlankFits(before: seq<Bucket>, m: nat)
      requires Fit(before, m, multiset{}) && AllReady(before) && mask == NextMask(m) > m && buckets == before + Blank(mask - m) && size == 0
      ensures Holds(multiset{}) && AllReady(buckets)
    {
      FitInitial(before, m);
      hide Fit, AllReady;
      Reshaped(multiset{});
    }

    /**
    rehash: makes room for sz buckets and puts every node into bucket hash & mask.  It fails to exactly when
    it has to enlarge an empty table that still has unsplit buckets; then there are no nodes to lose, but the
    table is not sound any more.
    */
    method Rehash(sz: nat)
      requires Valid() && mask < WIDE && sz <= WIDE
      modifies `mask, `buckets
      ensures Contents() == old(Contents()) && mask + 1 >= sz && mask >= old(mask)
      ensures mask == old(mask) || mask == 255 || (mask + 1) / 2 < sz
      ensures Valid() <==> old(size > 0 || sz <= mask + 1 || AllReady(buckets))
      ensures Valid() ==> FullySplit(buckets, mask)
    {
      hide *;
      ghost var all, bs, m0 := Contents(), buckets, mask;
      ghost var good := size > 0 || sz <= mask + 1 || AllReady(buckets);
      Shape();
      FitGives(buckets, mask, all);
      if !good { GapStarts(); }
      var isInitial := size == 0;
      if isInitial { EmptyIsInitial(); }
      while sz > mask + 1
        invariant m0 <= mask < WIDE && size == old(size)
        invariant mask == m0 || mask == 255 || (mask + 1) / 2 < sz
        invariant good ==> Holds(all) && (isInitial ==> all == multiset{} && (sz > mask + 1 ==> AllReady(buckets)))
        invariant !good ==> Gap(bs) && isInitial && (sz > mask + 1 || mask > m0)
        decreases sz - mask
        modifies `mask, `buckets
      {
        if good { HoldsIs(all); Shape(); FitGives(buckets, mask, all); } else { GapIs(bs); }
        NextMaskIs(mask);
        NextNarrow(sz);
        if isInitial {
          ghost var before, m := buckets, mask;
          EnableInitial();
          if good { BlankFits(before, m); } else { GapGrows(bs, m, before); }
        } else {
          EnableSegment();
        }
      }
      if good { HoldsIs(all); } else { GapIs(bs); GapSpoils(bs); }
      SplitAllBuckets();
      if good { HoldsIs(all); } else { GapIs(bs); GapSpoils(bs); }
    }
  }

  lemma SplitSound(bs: seq<Bucket>, busy: set<nat>, k: nat, h: nat, kept: seq<Node>, moved: seq<Node>)
    requires Sound(bs, busy + {h}, k) && 1 < h < |bs| && h !in busy && Done(bs, busy + {h}, ClearTop(h))
    requires multiset(kept) + multiset(moved) == multiset(bs[ClearTop(h)].nodes)
    requires forall i :: 0 <= i < |kept| ==> kept[i] in bs[ClearTop(h)].nodes && Low(kept[i].hash, Width(h)) != h
    requires forall i :: 0 <= i < |moved| ==> moved[i] in bs[ClearTop(h)].nodes && Low(moved[i].hash, Width(h)) == h
    ensures var bs' := Relinked(bs, h, kept, moved);
            Sound(bs', busy, k) && All(bs') == All(bs) && Done(bs', busy, h)
  {
    SplitPlaced(bs, busy, k, h, kept, moved);
    SplitShape(bs, busy, h, kept, moved);
    SplitContents(bs, ClearTop(h), h, kept, moved);
    hide All, Unique, Placed, Home, Closed;
  }

  lemma SplitShape(bs: seq<Bucket>, busy: set<nat>, h: nat, kept: seq<Node>, moved: seq<Node>)
    requires Closed(bs, busy + {h}) && 1 < h < |bs| && h !in busy && Done(bs, busy + {h}, ClearTop(h))
    requires forall b <- busy :: 1 < b < |bs| && bs[b] == Ready([])
    ensures var bs' := Relinked(bs, h, kept, moved);
            Closed(bs', busy) && Done(bs', busy, h) && forall b <- busy :: 1 < b < |bs| && bs'[b] == Ready([])
  {
    SplitClosed(bs, Relinked(bs, h, kept, moved), busy + {h}, busy, h);
  }

  lemma SplitContents(bs: seq<Bucket>, p: nat, h: nat, kept: seq<Node>, moved: seq<Node>)
    requires p < h < |bs| && bs[p].Ready? && bs[h] == Ready([]) && multiset(kept) + multiset(moved) == multiset(bs[p].nodes)
    ensures All(bs[p := Ready(kept)][h := Ready(moved)]) == All(bs)
  {
    var bs1 := bs[p := Ready(kept)];
    AllUpdate(bs, p, Ready(kept));
    AllUpdate(bs1, h, Ready(moved));
    var nothing: seq<Node> := [];
    assert Of(bs1[h]) == multiset(nothing) == multiset{};
    hide All;
    SplitAll(All(bs), All(bs1), All(bs1[h := Ready(moved)]), multiset(kept), multiset(moved), Of(bs[p]));
  }

  lemma SplitAll(a: multiset<Node>, b: multiset<Node>, c: multiset<Node>, kept: multiset<Node>, moved: multiset<Node>, l: multiset<Node>)
    requires b + l == a + kept && c + multiset{} == b + moved && kept + moved == l
    ensures c == a
  {
    forall x ensures c[x] == a[x] {
      assert (b + l)[x] == (a + kept)[x] && (c + multiset{})[x] == (b + moved)[x] && (kept + moved)[x] == l[x];
    }
  }
}
