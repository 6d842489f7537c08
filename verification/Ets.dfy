/**
The per-thread table of tbb/enumerable_thread_specific.h: a chain of open-addressed arrays of growing
size, searched and filled by any number of threads at once.  One step of the machine is one access to
shared memory by one thread.
*/
module Ets {
  import opened Bits

  const NULL: int := -1
  const EMPTY: int := -1

  // ----- sizes -----

  function Shift(h: nat, d: nat): nat
    requires d > 0
  {
    h / d
  }

  lemma ShiftBound(h: nat, d: nat, k: nat)
    requires 0 < d && h < k * d
    ensures Shift(h, d) < k
  {
    var q := h / d;
    assert h == q * d + h % d;
    assert (q - k) * d == q * d - k * d;
  }

  /** array::start: the top lg bits of a hash of `width` bits. */
  function Start(hash: nat, lg: nat, width: nat): nat
    requires lg <= width
  {
    Shift(hash, Pow2(width - lg))
  }

  lemma StartInRange(hash: nat, lg: nat, width: nat)
    requires lg <= width && hash < Pow2(width)
    ensures Start(hash, lg, width) < Pow2(lg)
  {
    Pow2Sum(lg, width - lg);
    hide Pow2;
    ShiftBound(hash, Pow2(width - lg), Pow2(lg));
  }

  /** The quotient by the size of the lower part: what the shift leaves are the top lg bits. */
  lemma StartIsTop(hash: nat, lg: nat, width: nat)
    requires lg <= width
    ensures Start(hash, lg, width) * Pow2(width - lg) <= hash < Start(hash, lg, width) * Pow2(width - lg) + Pow2(width - lg)
  {
    var d := Pow2(width - lg);
    assert hash == (hash / d) * d + hash % d;
  }

  /** The loop that picks the size of a new array. */
  function GrowTo(c: nat, s: nat): nat
    requires s >= 1
    decreases if c > Pow2(s - 1) then c - Pow2(s - 1) else 0
  {
    if c > Pow2(s - 1) then GrowTo(c, s + 1) else s
  }

  /** It stops at the first size with room for c, within the word width. */
  lemma {:induction false} GrowsEnough(c: nat, s: nat, width: nat)
    requires 1 <= s < width && c <= Pow2(width - 2)
    ensures s <= GrowTo(c, s) < width && c <= Pow2(GrowTo(c, s) - 1)
    ensures c > Pow2(s - 1) ==> GrowTo(c, s) > s
    decreases width - s
  {
    if c > Pow2(s - 1) {
      GrowsEnough(c, s + 1, width);
    }
  }

  // ----- the table -----

  /** A slot's key is a thread, or EMPTY. */
  datatype Slot = Slot(key: int, ptr: nat)

  datatype Arr = Arr(lg: nat, next: int, slots: seq<Slot>)

  /** Where a thread is in table_lookup. */
  datatype Pc =
    | Out
    | ReadRoot
    | Chain(r: int)                                // the array loop, at r
    | Probe(r: int, n: nat)                        // after n slots of r
    | Found(r: int, i: nat)                        // its key is in slot i of r
    | Create
    | Count(found: nat)
    | Check(found: nat)                            // has its number, about to read the root
    | Swap(found: nat, lg: nat, r: int)            // has an array of its own, about to put it on top of r
    | ReadTop(found: nat, exists': bool)           // the label insert
    | Claim(found: nat, exists': bool, ir: int, n: nat)     // looking for an empty slot, after n slots
    | Try(found: nat, exists': bool, ir: int, n: nat)       // has seen slot n empty
    | SetPtr(found: nat, exists': bool, ir: int, i: nat)    // slot i is its own

  /** num, local and home are bookkeeping: the thread's count value, the local made for it, the last array it is in. */
  datatype Thread = Thread(pc: Pc, hash: nat, num: nat, local: nat, home: int)

  datatype Answer = Answer(thread: nat, ptr: nat, existed: bool)

  datatype State = State(arrs: seq<Arr>, root: int, count: nat, made: nat, threads: seq<Thread>, counted: set<nat>,
                         answers: seq<Answer>, width: nat)

  /** The n-th slot of a cyclic probe. */
  function Pos(a: Arr, hash: nat, n: nat, width: nat): nat
    requires a.lg <= width && |a.slots| > 0
  {
    (Start(hash, a.lg, width) + n) % |a.slots|
  }

  /** A probe begins at start and goes from slot to slot, from the last one to slot 0. */
  lemma PosNext(a: Arr, hash: nat, n: nat, width: nat)
    requires a.lg <= width && |a.slots| == Pow2(a.lg) && hash < Pow2(width)
    ensures Pos(a, hash, 0, width) == Start(hash, a.lg, width)
    ensures Pos(a, hash, n + 1, width) == if Pos(a, hash, n, width) + 1 == |a.slots| then 0 else Pos(a, hash, n, width) + 1
  {
    StartInRange(hash, a.lg, width);
    var start := Start(hash, a.lg, width);
    hide Start;
    SmallMod(start, |a.slots|);
    NextMod(start + n, |a.slots|);
  }

  lemma NextMod(x: nat, size: nat)
    requires size > 0
    ensures (x + 1) % size == if x % size + 1 == size then 0 else x % size + 1
  {
    var q, y := x / size, if x % size + 1 == size then 0 else x % size + 1;
    var p := (x + 1) / size;
    if x % size + 1 == size {
      assert x + 1 == (q + 1) * size;
      assert (p - q - 1) * size == y - (x + 1) % size;
      NotBetween(p - q - 1, size, y - (x + 1) % size);
    } else {
      assert (p - q) * size == y - (x + 1) % size;
      NotBetween(p - q, size, y - (x + 1) % size);
    }
  }

  predicate IsArr(s: State, r: int)
  {
    0 <= r < |s.arrs| && s.arrs[r].lg <= s.width && |s.arrs[r].slots| > 0
  }

  function SlotAt(s: State, t: nat, r: int, n: nat): nat
    requires t < |s.threads| && IsArr(s, r)
  {
    Pos(s.arrs[r], s.threads[t].hash, n, s.width)
  }

  function Go(s: State, t: nat, pc: Pc): State
    requires t < |s.threads|
  {
    s.(threads := s.threads[t := s.threads[t].(pc := pc)])
  }

  /** A new array holds nothing. */
  function Blank(lg: nat, next: int): Arr
  {
    Arr(lg, next, seq(Pow2(lg), _ => Slot(EMPTY, 0)))
  }

  /** One access to shared memory by thread t. */
  predicate Step(s: State, s': State, t: nat)
  {
    && t < |s.threads|
    && var me := s.threads[t];
    match me.pc
    case Out => s' == Go(s, t, ReadRoot)
    case ReadRoot => s' == Go(s, t, Chain(s.root))
    case Chain(r) =>
      if r == NULL then s' == Go(s, t, Create) else s' == Go(s, t, Probe(r, 0))
    case Probe(r, n) =>
      && IsArr(s, r)
      && var k := s.arrs[r].slots[SlotAt(s, t, r, n)].key;
      if k == EMPTY then s' == Go(s, t, Chain(s.arrs[r].next))
      else if k == t then s' == Go(s, t, Found(r, SlotAt(s, t, r, n)))
      else s' == Go(s, t, Probe(r, n + 1))
    case Found(r, i) =>
      && IsArr(s, r) && i < |s.arrs[r].slots|
      && var p := s.arrs[r].slots[i].ptr;
      if r == s.root then s' == Go(s, t, Out).(answers := s.answers + [Answer(t, p, true)])
      else s' == Go(s, t, ReadTop(p, true))
    case Create =>
      s' == s.(made := s.made + 1, threads := s.threads[t := me.(pc := Count(s.made + 1), local := s.made + 1)])
    case Count(f) =>
      s' == s.(count := s.count + 1, counted := s.counted + {t}, threads := s.threads[t := me.(pc := Check(f), num := s.count + 1)])
    case Check(f) =>
      if s.root == NULL then s' == Go(s, t, Swap(f, GrowTo(me.num, 2), NULL))
      else
        && IsArr(s, s.root)
        && if me.num > |s.arrs[s.root].slots| / 2 then s.arrs[s.root].lg > 0 && s' == Go(s, t, Swap(f, GrowTo(me.num, s.arrs[s.root].lg), s.root))
           else s' == Go(s, t, ReadTop(f, false))
    case Swap(f, lg, r) =>
      if s.root == r then s' == Go(s, t, ReadTop(f, false)).(arrs := s.arrs + [Blank(lg, r)], root := |s.arrs|)
      else
        && IsArr(s, s.root)
        && if s.arrs[s.root].lg >= lg then s' == Go(s, t, ReadTop(f, false)) else s' == Go(s, t, Swap(f, lg, s.root))
    case ReadTop(f, e) => s' == Go(s, t, Claim(f, e, s.root, 0))
    case Claim(f, e, ir, n) =>
      && IsArr(s, ir)
      && if s.arrs[ir].slots[SlotAt(s, t, ir, n)].key == EMPTY then s' == Go(s, t, Try(f, e, ir, n)) else s' == Go(s, t, Claim(f, e, ir, n + 1))
    case Try(f, e, ir, n) =>
      && IsArr(s, ir)
      && var i := SlotAt(s, t, ir, n);
      if s.arrs[ir].slots[i].key == EMPTY then
        s' == s.(arrs := s.arrs[ir := s.arrs[ir].(slots := s.arrs[ir].slots[i := s.arrs[ir].slots[i].(key := t)])],
                 threads := s.threads[t := me.(pc := SetPtr(f, e, ir, i), home := ir)])
      else s' == Go(s, t, Claim(f, e, ir, n + 1))
    case SetPtr(f, e, ir, i) =>
      && IsArr(s, ir) && i < |s.arrs[ir].slots|
      && s' == Go(s, t, Out).(arrs := s.arrs[ir := s.arrs[ir].(slots := s.arrs[ir].slots[i := s.arrs[ir].slots[i].(ptr := f)])],
                              answers := s.answers + [Answer(t, f, e)])
  }

  ghost predicate Init(s: State)
  {
    && s.arrs == [] && s.root == NULL && s.count == 0 && s.made == 0 && s.counted == {} && s.answers == []
    && s.width >= 4 && |s.threads| <= Pow2(s.width - 2)
    && forall t :: 0 <= t < |s.threads| ==> s.threads[t].pc == Out && s.threads[t].hash < Pow2(s.width)
                                            && s.threads[t].num == 0 && s.threads[t].local == 0 && s.threads[t].home == NULL
  }

  // ----- the invariant -----

  /** The first n slots of the probe are taken. */
  ghost predicate Visited(a: Arr, hash: nat, n: nat, width: nat)
    requires a.lg <= width && |a.slots| > 0
  {
    forall m: nat :: m < n ==> a.slots[Pos(a, hash, m, width)].key != EMPTY
  }

  /** ... and none of them by t. */
  ghost predicate Missed(a: Arr, hash: nat, n: nat, width: nat, t: nat)
    requires a.lg <= width && |a.slots| > 0
  {
    forall m: nat :: m < n ==> a.slots[Pos(a, hash, m, width)].key != EMPTY && a.slots[Pos(a, hash, m, width)].key != t
  }

  /** Slot j lies on the probe, and all slots before it are taken. */
  ghost predicate Landed(a: Arr, hash: nat, j: nat, width: nat)
    requires a.lg <= width && |a.slots| > 0
  {
    exists n: nat :: n < |a.slots| && Pos(a, hash, n, width) == j && Visited(a, hash, n, width)
  }

  /** Newer arrays lie on top of older, smaller ones. */
  ghost predicate Arrays(arrs: seq<Arr>, root: int, width: nat)
  {
    && root == |arrs| - 1
    && (forall r :: 0 <= r < |arrs| ==> arrs[r].next == r - 1 && 2 <= arrs[r].lg < width && |arrs[r].slots| == Pow2(arrs[r].lg))
    && (forall q, r :: 0 <= q < r < |arrs| ==> arrs[q].lg < arrs[r].lg)
  }

  function Half(a: Arr): nat
  {
    if a.lg == 0 then 0 else Pow2(a.lg - 1)
  }

  /** A taken slot belongs to a thread that had room for its number here and holds that thread's local. */
  ghost predicate KeyOk(arrs: seq<Arr>, threads: seq<Thread>, width: nat, r: nat, j: nat)
    requires r < |arrs| && j < |arrs[r].slots| && arrs[r].lg <= width
  {
    var k := arrs[r].slots[j].key;
    && 0 <= k < |threads| && 1 <= threads[k].num <= Half(arrs[r]) && r <= threads[k].home
    && (arrs[r].slots[j].ptr == threads[k].local || (threads[k].pc.SetPtr? && threads[k].pc.ir == r && threads[k].pc.i == j))
    && Landed(arrs[r], threads[k].hash, j, width)
  }

  ghost predicate Keys(arrs: seq<Arr>, threads: seq<Thread>, width: nat)
  {
    && (forall r :: 0 <= r < |arrs| ==> arrs[r].lg <= width)
    && (forall r, j :: 0 <= r < |arrs| && 0 <= j < |arrs[r].slots| && arrs[r].slots[j].key != EMPTY ==> KeyOk(arrs, threads, width, r, j))
    && (forall r, i, j :: 0 <= r < |arrs| && 0 <= i < j < |arrs[r].slots| && arrs[r].slots[i].key != EMPTY ==>
          arrs[r].slots[i].key != arrs[r].slots[j].key)
  }

  ghost predicate HasKey(a: Arr, t: nat)
  {
    exists j :: 0 <= j < |a.slots| && a.slots[j].key == t
  }

  /** Either the thread has its number, its local and a place in the table, or none of them. */
  predicate Settled(th: Thread)
  {
    (th.num > 0 && th.local > 0 && th.home >= 0) || (th.num == 0 && th.local == 0 && th.home == NULL)
  }

  ghost predicate PcOk(arrs: seq<Arr>, root: int, width: nat, t: nat, th: Thread)
    requires Arrays(arrs, root, width)
  {
    && NULL <= th.home < |arrs| && th.hash < Pow2(width)
    && (th.home >= 0 ==> HasKey(arrs[th.home], t))
    && match th.pc
       case Out => Settled(th)
       case ReadRoot => Settled(th)
       case Chain(r) => Settled(th) && th.home <= r < |arrs|
       case Probe(r, n) => Settled(th) && 0 <= r < |arrs| && th.home <= r && n < |arrs[r].slots| && Missed(arrs[r], th.hash, n, width, t)
       case Found(r, i) => Settled(th) && 0 <= r == th.home && i < |arrs[r].slots| && arrs[r].slots[i].key == t
       case Create => th.num == 0 && th.local == 0 && th.home == NULL
       case Count(f) => th.num == 0 && th.local == f > 0 && th.home == NULL
       case Check(f) => th.num > 0 && th.local == f > 0 && th.home == NULL
       case Swap(f, lg, r) =>
         && th.num > 0 && th.local == f > 0 && th.home == NULL && 2 <= lg < width && th.num <= Pow2(lg - 1)
         && NULL <= r < |arrs| && (r >= 0 ==> arrs[r].lg < lg)
       case ReadTop(f, e) => th.num > 0 && th.local == f > 0 && th.home < root && th.num <= Half(arrs[root])
       case Claim(f, e, ir, n) => Claiming(arrs, width, th, f, ir, n)
       case Try(f, e, ir, n) => Claiming(arrs, width, th, f, ir, n)
       case SetPtr(f, e, ir, i) => th.num > 0 && th.local == f > 0 && 0 <= ir == th.home && i < |arrs[ir].slots| && arrs[ir].slots[i].key == t
  }

  /** Looking for room in ir, which has enough and does not hold the thread yet. */
  ghost predicate Claiming(arrs: seq<Arr>, width: nat, th: Thread, f: nat, ir: int, n: nat)
    requires forall r :: 0 <= r < |arrs| ==> arrs[r].lg <= width && |arrs[r].slots| > 0
  {
    && th.num > 0 && th.local == f > 0 && th.home < ir && 0 <= ir < |arrs| && th.num <= Half(arrs[ir])
    && n < |arrs[ir].slots| && Visited(arrs[ir], th.hash, n, width)
  }

  ghost predicate Threads(arrs: seq<Arr>, root: int, width: nat, threads: seq<Thread>)
  {
    Arrays(arrs, root, width) && forall t :: 0 <= t < |threads| ==> PcOk(arrs, root, width, t, threads[t])
  }

  /** Numbers and locals are given out once each. */
  ghost predicate Numbers(threads: seq<Thread>, counted: set<nat>, count: nat, made: nat, width: nat)
  {
    && width >= 4 && |threads| <= Pow2(width - 2)
    && (forall t :: t in counted ==> t < |threads|) && |counted| == count
    && (forall t :: 0 <= t < |threads| ==>
         threads[t].num <= count && threads[t].local <= made && (t in counted <==> threads[t].num > 0))
    && (forall t, u :: 0 <= t < u < |threads| ==>
         (threads[t].num > 0 ==> threads[t].num != threads[u].num) && (threads[t].local > 0 ==> threads[t].local != threads[u].local))
  }

  ghost predicate Answered(answers: seq<Answer>, t: nat)
  {
    exists i :: 0 <= i < |answers| && answers[i].thread == t
  }

  /** Whether the thread has been answered before, as far as its own variables tell. */
  predicate Knows(th: Thread)
  {
    match th.pc
    case ReadTop(_, e) => e
    case Claim(_, e, _, _) => e
    case Try(_, e, _, _) => e
    case SetPtr(_, e, _, _) => e
    case _ => th.home >= 0
  }

  /** Every answer was the caller's own local, new the first time only. */
  ghost predicate Answers(answers: seq<Answer>, threads: seq<Thread>)
  {
    && (forall i :: 0 <= i < |answers| ==>
         && answers[i].thread < |threads| && answers[i].ptr == threads[answers[i].thread].local > 0
         && (answers[i].existed <==> Answered(answers[..i], answers[i].thread)))
    && (forall t :: 0 <= t < |threads| ==> (Answered(answers, t) <==> Knows(threads[t])))
  }

  ghost predicate Inv(s: State)
  {
    && Keys(s.arrs, s.threads, s.width)
    && Threads(s.arrs, s.root, s.width, s.threads)
    && Numbers(s.threads, s.counted, s.count, s.made, s.width)
    && Answers(s.answers, s.threads)
  }

  lemma InitInv(s: State)
    requires Init(s)
    ensures Inv(s)
  {
  }

  // ----- an array is at most half full -----

  function UpTo(h: nat): (r: set<int>)
    ensures |r| == h && forall x :: x in r <==> 1 <= x <= h
  {
    if h == 0 then {} else UpTo(h - 1) + {h}
  }

  lemma {:induction false} SubsetSize<T>(a: set<T>, b: set<T>)
    requires a <= b
    ensures |a| <= |b|
    decreases |a|
  {
    if a != {} {
      var x :| x in a;
      SubsetSize(a - {x}, b - {x});
    }
  }

  lemma {:induction false} DistinctSize(f: seq<int>)
    requires forall i, j :: 0 <= i < j < |f| ==> f[i] != f[j]
    ensures |set x | x in f| == |f|
  {
    if f != [] {
      var g := f[..|f| - 1];
      DistinctSize(g);
      assert (set x | x in f) == (set x | x in g) + {f[|f| - 1]};
    } else {
      assert (set x | x in f) == {};
    }
  }

  /** Different numbers from 1 to h: there are at most h of them. */
  lemma AtMost(f: seq<int>, h: nat)
    requires forall i, j :: 0 <= i < j < |f| ==> f[i] != f[j]
    requires forall i :: 0 <= i < |f| ==> 1 <= f[i] <= h
    ensures |f| <= h
  {
    DistinctSize(f);
    SubsetSize((set x | x in f), UpTo(h));
  }

  lemma ModApart(a: nat, m: nat, n: nat, size: nat)
    requires m < n < size
    ensures (a + m) % size != (a + n) % size
  {
    var q, p := (a + m) / size, (a + n) / size;
    assert (p - q) * size == n - m + (a + m) % size - (a + n) % size;
    NoMultiple(p - q, size, n - m);
  }

  lemma NoMultiple(k: int, size: nat, d: int)
    requires 0 < d < size
    ensures k * size != d
  {
    if k * size == d { NotBetween(k, size, d); }
  }

  /** A probe meets at most half of the slots before it meets an empty one. */
  lemma ProbeEnds(arrs: seq<Arr>, threads: seq<Thread>, counted: set<nat>, count: nat, made: nat, width: nat, r: nat, hash: nat, n: nat)
    requires Keys(arrs, threads, width) && Numbers(threads, counted, count, made, width)
    requires r < |arrs| && |arrs[r].slots| > 0 && n <= |arrs[r].slots| && Visited(arrs[r], hash, n, width)
    ensures n <= Half(arrs[r])
  {
    var a := arrs[r];
    var f := seq(n, m requires 0 <= m < n => NumAt(a, threads, hash, width, m));
    forall i, j | 0 <= i < j < n ensures f[i] != f[j] {
      ModApart(Start(hash, a.lg, width), i, j, |a.slots|);
      KeyHere(arrs, threads, width, r, hash, i);
      KeyHere(arrs, threads, width, r, hash, j);
    }
    forall i | 0 <= i < n ensures 1 <= f[i] <= Half(a) {
      KeyHere(arrs, threads, width, r, hash, i);
    }
    AtMost(f, Half(a));
  }

  function NumAt(a: Arr, threads: seq<Thread>, hash: nat, width: nat, m: nat): int
    requires a.lg <= width && |a.slots| > 0
  {
    var k := a.slots[Pos(a, hash, m, width)].key;
    if 0 <= k < |threads| then threads[k].num else 0
  }

  lemma KeyHere(arrs: seq<Arr>, threads: seq<Thread>, width: nat, r: nat, hash: nat, m: nat)
    requires Keys(arrs, threads, width) && r < |arrs| && |arrs[r].slots| > 0
    requires arrs[r].slots[Pos(arrs[r], hash, m, width)].key != EMPTY
    ensures 0 <= arrs[r].slots[Pos(arrs[r], hash, m, width)].key < |threads|
    ensures 1 <= NumAt(arrs[r], threads, hash, width, m) <= Half(arrs[r])
  {
    assert KeyOk(arrs, threads, width, r, Pos(arrs[r], hash, m, width));
  }

  // ----- steps that only move a thread along -----

  lemma GoKeys(arrs: seq<Arr>, threads: seq<Thread>, width: nat, t: nat, pc: Pc)
    requires Keys(arrs, threads, width) && t < |threads| && !threads[t].pc.SetPtr?
    ensures Keys(arrs, threads[t := threads[t].(pc := pc)], width)
  {
    var threads' := threads[t := threads[t].(pc := pc)];
    forall r, j | 0 <= r < |arrs| && 0 <= j < |arrs[r].slots| && arrs[r].slots[j].key != EMPTY
      ensures KeyOk(arrs, threads', width, r, j)
    {
      assert KeyOk(arrs, threads, width, r, j);
    }
  }

  lemma GoAnswers(answers: seq<Answer>, threads: seq<Thread>, t: nat, pc: Pc)
    requires Answers(answers, threads) && t < |threads| && Knows(threads[t]) == Knows(threads[t].(pc := pc))
    ensures Answers(answers, threads[t := threads[t].(pc := pc)])
  {
    hide Answered;
  }

  /** A thread that goes on without writing keeps the invariant if its new place is sound. */
  lemma GoInv(s: State, t: nat, pc: Pc)
    requires Inv(s) && t < |s.threads| && !s.threads[t].pc.SetPtr?
    requires PcOk(s.arrs, s.root, s.width, t, s.threads[t].(pc := pc)) && Knows(s.threads[t]) == Knows(s.threads[t].(pc := pc))
    ensures Inv(Go(s, t, pc))
  {
    GoKeys(s.arrs, s.threads, s.width, t, pc);
    GoAnswers(s.answers, s.threads, t, pc);
    hide Keys, Answers, PcOk;
  }

  lemma ArrSize(arrs: seq<Arr>, root: int, width: nat, r: nat)
    requires Arrays(arrs, root, width) && r < |arrs|
    ensures |arrs[r].slots| == 2 * Half(arrs[r]) && Half(arrs[r]) > 0
  {
  }

  lemma VisitNext(a: Arr, hash: nat, n: nat, width: nat)
    requires a.lg <= width && |a.slots| > 0 && Visited(a, hash, n, width) && a.slots[Pos(a, hash, n, width)].key != EMPTY
    ensures Visited(a, hash, n + 1, width)
  {
  }

  /** There is room for one more step of a probe that has seen no empty slot. */
  lemma OneMore(s: State, r: nat, hash: nat, n: nat)
    requires Inv(s) && r < |s.arrs| && s.arrs[r].lg <= s.width && |s.arrs[r].slots| > 0 && n < |s.arrs[r].slots|
    requires Visited(s.arrs[r], hash, n, s.width) && s.arrs[r].slots[Pos(s.arrs[r], hash, n, s.width)].key != EMPTY
    ensures n + 1 < |s.arrs[r].slots| && Visited(s.arrs[r], hash, n + 1, s.width)
  {
    VisitNext(s.arrs[r], hash, n, s.width);
    ArrSize(s.arrs, s.root, s.width, r);
    hide Visited, Keys, Numbers, Threads, Answers, Arrays;
    ProbeEnds(s.arrs, s.threads, s.counted, s.count, s.made, s.width, r, hash, n + 1);
  }

  /** Where an empty slot ends the search of an array, the thread is not in it. */
  lemma NotHere(arrs: seq<Arr>, threads: seq<Thread>, width: nat, r: nat, n: nat, t: nat)
    requires Keys(arrs, threads, width) && r < |arrs| && arrs[r].lg <= width && |arrs[r].slots| > 0 && t < |threads|
    requires Missed(arrs[r], threads[t].hash, n, width, t) && arrs[r].slots[Pos(arrs[r], threads[t].hash, n, width)].key == EMPTY
    ensures !HasKey(arrs[r], t)
  {
    var a := arrs[r];
    forall j | 0 <= j < |a.slots| ensures a.slots[j].key != t {
      if a.slots[j].key != EMPTY {
        NotHereAt(arrs, threads, width, r, n, t, j);
      }
    }
  }

  lemma NotHereAt(arrs: seq<Arr>, threads: seq<Thread>, width: nat, r: nat, n: nat, t: nat, j: nat)
    requires Keys(arrs, threads, width) && r < |arrs| && arrs[r].lg <= width && |arrs[r].slots| > 0 && t < |threads|
    requires Missed(arrs[r], threads[t].hash, n, width, t) && arrs[r].slots[Pos(arrs[r], threads[t].hash, n, width)].key == EMPTY
    requires j < |arrs[r].slots| && arrs[r].slots[j].key != EMPTY
    ensures arrs[r].slots[j].key != t
  {
    var a, k := arrs[r], arrs[r].slots[j].key;
    assert KeyOk(arrs, threads, width, r, j);
    var h := threads[k].hash;
    var m: nat :| m < |a.slots| && Pos(a, h, m, width) == j && Visited(a, h, m, width);
    assert k == t ==> m >= n;
  }

  lemma MissedVisited(a: Arr, hash: nat, n: nat, width: nat, t: nat)
    requires a.lg <= width && |a.slots| > 0 && Missed(a, hash, n, width, t)
    ensures Visited(a, hash, n, width)
  {
  }

  lemma MyPlace(s: State, t: nat)
    requires Inv(s) && t < |s.threads|
    ensures Arrays(s.arrs, s.root, s.width) && PcOk(s.arrs, s.root, s.width, t, s.threads[t])
  {
  }

  lemma ProbeInv(s: State, s': State, t: nat)
    requires Inv(s) && t < |s.threads| && s.threads[t].pc.Probe? && Step(s, s', t)
    ensures Inv(s')
  {
    hide Inv;
    var r, n := s.threads[t].pc.r, s.threads[t].pc.n;
    var k := s.arrs[r].slots[SlotAt(s, t, r, n)].key;
    var pc := if k == EMPTY then Chain(s.arrs[r].next) else if k == t then Found(r, SlotAt(s, t, r, n)) else Probe(r, n + 1);
    assert s' == Go(s, t, pc);
    if k == EMPTY {
      ProbeEmpty(s, t, r, n);
    } else if k == t {
      ProbeHit(s, t, r, n);
    } else {
      ProbeOn(s, t, r, n);
    }
    hide *;
    GoInv(s, t, pc);
  }

  lemma ProbeEmpty(s: State, t: nat, r: int, n: nat)
    requires Inv(s) && t < |s.threads| && s.threads[t].pc == Probe(r, n) && IsArr(s, r) && s.arrs[r].slots[SlotAt(s, t, r, n)].key == EMPTY
    ensures Arrays(s.arrs, s.root, s.width) && PcOk(s.arrs, s.root, s.width, t, s.threads[t].(pc := Chain(s.arrs[r].next)))
    ensures Knows(s.threads[t]) == Knows(s.threads[t].(pc := Chain(s.arrs[r].next)))
  {
    MyPlace(s, t);
    NotHere(s.arrs, s.threads, s.width, r, n, t);
    assert s.arrs[r].next == r - 1;
    hide Keys, Threads, Numbers, Answers, Missed, HasKey, Inv;
  }

  lemma ProbeHit(s: State, t: nat, r: int, n: nat)
    requires Inv(s) && t < |s.threads| && s.threads[t].pc == Probe(r, n) && IsArr(s, r) && s.arrs[r].slots[SlotAt(s, t, r, n)].key == t
    ensures Arrays(s.arrs, s.root, s.width) && PcOk(s.arrs, s.root, s.width, t, s.threads[t].(pc := Found(r, SlotAt(s, t, r, n))))
    ensures Knows(s.threads[t]) == Knows(s.threads[t].(pc := Found(r, SlotAt(s, t, r, n))))
  {
    MyPlace(s, t);
    assert KeyOk(s.arrs, s.threads, s.width, r, SlotAt(s, t, r, n));
    hide Keys, Threads, Numbers, Answers, Missed, HasKey, Inv, Landed;
  }

  lemma ProbeOn(s: State, t: nat, r: int, n: nat)
    requires Inv(s) && t < |s.threads| && s.threads[t].pc == Probe(r, n) && IsArr(s, r)
    requires s.arrs[r].slots[SlotAt(s, t, r, n)].key != EMPTY && s.arrs[r].slots[SlotAt(s, t, r, n)].key != t
    ensures Arrays(s.arrs, s.root, s.width) && PcOk(s.arrs, s.root, s.width, t, s.threads[t].(pc := Probe(r, n + 1)))
    ensures Knows(s.threads[t]) == Knows(s.threads[t].(pc := Probe(r, n + 1)))
  {
    MyPlace(s, t);
    var h := s.threads[t].hash;
    hide Inv, HasKey;
    MissedVisited(s.arrs[r], h, n, s.width, t);
    MissNext(s.arrs[r], h, n, s.width, t);
    hide Missed, Visited;
    OneMore(s, r, h, n);
  }

  lemma MissNext(a: Arr, hash: nat, n: nat, width: nat, t: nat)
    requires a.lg <= width && |a.slots| > 0 && Missed(a, hash, n, width, t)
    requires a.slots[Pos(a, hash, n, width)].key != EMPTY && a.slots[Pos(a, hash, n, width)].key != t
    ensures Missed(a, hash, n + 1, width, t)
  {
  }

  lemma ClaimOn(s: State, t: nat, f: nat, e: bool, ir: int, n: nat)
    requires Inv(s) && t < |s.threads| && (s.threads[t].pc == Claim(f, e, ir, n) || s.threads[t].pc == Try(f, e, ir, n)) && IsArr(s, ir)
    requires s.arrs[ir].slots[SlotAt(s, t, ir, n)].key != EMPTY
    ensures Arrays(s.arrs, s.root, s.width) && PcOk(s.arrs, s.root, s.width, t, s.threads[t].(pc := Claim(f, e, ir, n + 1)))
    ensures Knows(s.threads[t]) == Knows(s.threads[t].(pc := Claim(f, e, ir, n + 1)))
  {
    MyPlace(s, t);
    hide Inv, HasKey, Visited;
    OneMore(s, ir, s.threads[t].hash, n);
  }

  lemma ClaimInv(s: State, s': State, t: nat)
    requires Inv(s) && t < |s.threads| && s.threads[t].pc.Claim? && Step(s, s', t)
    ensures Inv(s')
  {
    hide Inv;
    var f, e, ir, n := s.threads[t].pc.found, s.threads[t].pc.exists', s.threads[t].pc.ir, s.threads[t].pc.n;
    var empty := s.arrs[ir].slots[SlotAt(s, t, ir, n)].key == EMPTY;
    var pc := if empty then Try(f, e, ir, n) else Claim(f, e, ir, n + 1);
    assert s' == Go(s, t, pc);
    if empty {
      ClaimSees(s, t, f, e, ir, n);
    } else {
      ClaimOn(s, t, f, e, ir, n);
    }
    hide *;
    GoInv(s, t, pc);
  }

  lemma ClaimSees(s: State, t: nat, f: nat, e: bool, ir: int, n: nat)
    requires Inv(s) && t < |s.threads| && s.threads[t].pc == Claim(f, e, ir, n)
    ensures Arrays(s.arrs, s.root, s.width) && PcOk(s.arrs, s.root, s.width, t, s.threads[t].(pc := Try(f, e, ir, n)))
    ensures Knows(s.threads[t]) == Knows(s.threads[t].(pc := Try(f, e, ir, n)))
  {
    MyPlace(s, t);
    hide Inv, HasKey, Visited;
  }

  /** The steps before a thread writes anything. */
  lemma SearchInv(s: State, s': State, t: nat)
    requires Inv(s) && t < |s.threads| && Step(s, s', t)
    requires s.threads[t].pc.Out? || s.threads[t].pc.ReadRoot? || s.threads[t].pc.Chain? || s.threads[t].pc.ReadTop?
    ensures Inv(s')
  {
    MyPlace(s, t);
    hide Keys, Threads, Numbers, Answers, HasKey, Inv;
    match s.threads[t].pc
    case Out => GoInv(s, t, ReadRoot);
    case ReadRoot => GoInv(s, t, Chain(s.root));
    case Chain(r) =>
      if r == NULL { GoInv(s, t, Create); } else { GoInv(s, t, Probe(r, 0)); }
    case ReadTop(f, e) => GoInv(s, t, Claim(f, e, s.root, 0));
    case _ =>
  }

  // ----- steps that write -----

  lemma HalfGrows(a: Arr, b: Arr)
    requires a.lg <= b.lg
    ensures Half(a) <= Half(b)
  {
    if a.lg > 0 { Pow2Grows(a.lg - 1, b.lg - 1); }
  }

  lemma AppendAnswer(answers: seq<Answer>, threads: seq<Thread>, t: nat, e: bool, pc: Pc)
    requires Answers(answers, threads) && t < |threads| && threads[t].local > 0
    requires Knows(threads[t]) == e && Knows(threads[t].(pc := pc))
    ensures Answers(answers + [Answer(t, threads[t].local, e)], threads[t := threads[t].(pc := pc)])
  {
    var answers', threads' := answers + [Answer(t, threads[t].local, e)], threads[t := threads[t].(pc := pc)];
    forall i | 0 <= i < |answers'|
      ensures answers'[i].ptr == threads'[answers'[i].thread].local > 0
      ensures answers'[i].existed <==> Answered(answers'[..i], answers'[i].thread)
    {
      assert answers'[..i] == answers[..i];
      assert answers[..|answers|] == answers;
    }
    forall u | 0 <= u < |threads'| ensures Answered(answers', u) <==> Knows(threads'[u]) {
      AnsweredMore(answers, answers'[|answers|], u);
    }
  }

  lemma AnsweredMore(answers: seq<Answer>, a: Answer, u: nat)
    ensures Answered(answers + [a], u) <==> Answered(answers, u) || a.thread == u
  {
    if Answered(answers, u) {
      var i :| 0 <= i < |answers| && answers[i].thread == u;
      assert (answers + [a])[i].thread == u;
    }
    assert (answers + [a])[|answers|] == a;
  }

  /** A thread in no array may change as it likes. */
  lemma KeysOther(arrs: seq<Arr>, threads: seq<Thread>, width: nat, t: nat, th: Thread)
    requires Keys(arrs, threads, width) && t < |threads| && threads[t].home == NULL
    ensures Keys(arrs, threads[t := th], width)
  {
    var threads' := threads[t := th];
    forall r, j | 0 <= r < |arrs| && 0 <= j < |arrs[r].slots| && arrs[r].slots[j].key != EMPTY
      ensures KeyOk(arrs, threads', width, r, j)
    {
      assert KeyOk(arrs, threads, width, r, j);
      assert arrs[r].slots[j].key != t;
    }
  }

  lemma FoundInv(s: State, s': State, t: nat)
    requires Inv(s) && t < |s.threads| && s.threads[t].pc.Found? && Step(s, s', t)
    ensures Inv(s')
  {
    MyPlace(s, t);
    var me := s.threads[t];
    var r, i := me.pc.r, me.pc.i;
    assert KeyOk(s.arrs, s.threads, s.width, r, i);
    hide Keys, Threads, Numbers, Answers, HasKey, Landed;
    if r == s.root {
      FoundHere(s, t);
    } else {
      HalfGrows(s.arrs[r], s.arrs[s.root]);
      hide Inv;
      GoInv(s, t, ReadTop(s.arrs[r].slots[i].ptr, true));
    }
  }

  lemma FoundHere(s: State, t: nat)
    requires Inv(s) && t < |s.threads| && s.threads[t].pc.Found? && s.threads[t].local > 0 && s.threads[t].home >= 0
    ensures Inv(Go(s, t, Out).(answers := s.answers + [Answer(t, s.threads[t].local, true)]))
  {
    hide Keys, Answers, HasKey, Answered;
    MyPlace(s, t);
    AppendAnswer(s.answers, s.threads, t, true, Out);
    GoKeys(s.arrs, s.threads, s.width, t, Out);
  }

  lemma CreateInv(s: State, s': State, t: nat)
    requires Inv(s) && t < |s.threads| && s.threads[t].pc.Create? && Step(s, s', t)
    ensures Inv(s')
  {
    MyPlace(s, t);
    KeysOther(s.arrs, s.threads, s.width, t, s'.threads[t]);
    assert !Answered(s.answers, t);
    assert forall i :: 0 <= i < |s.answers| ==> s.answers[i].thread != t;
    hide Keys, HasKey, Answered;
  }

  lemma CountInv(s: State, s': State, t: nat)
    requires Inv(s) && t < |s.threads| && s.threads[t].pc.Count? && Step(s, s', t)
    ensures Inv(s')
  {
    hide Keys, HasKey, Answers, Numbers, Threads, PcOk;
    MyPlace(s, t);
    CountPlace(s, s', t);
    KeysOther(s.arrs, s.threads, s.width, t, s'.threads[t]);
    ThreadsUpdate(s.arrs, s.root, s.width, s.threads, t, s'.threads[t]);
    CountNumbers(s.threads, s.counted, s.count, s.made, s.width, t, s'.threads[t]);
    ClaimAnswers(s.answers, s.threads, t, s'.threads[t]);
  }

  lemma CountPlace(s: State, s': State, t: nat)
    requires t < |s.threads| && s.threads[t].pc.Count? && Step(s, s', t) && Arrays(s.arrs, s.root, s.width)
    requires PcOk(s.arrs, s.root, s.width, t, s.threads[t])
    ensures t < |s'.threads| && PcOk(s.arrs, s.root, s.width, t, s'.threads[t])
    ensures s.threads[t].home == NULL && s.threads[t].num == 0
  {
    hide Arrays, HasKey;
  }

  lemma ThreadsUpdate(arrs: seq<Arr>, root: int, width: nat, threads: seq<Thread>, t: nat, th: Thread)
    requires Threads(arrs, root, width, threads) && t < |threads| && PcOk(arrs, root, width, t, th)
    ensures Threads(arrs, root, width, threads[t := th])
  {
    hide PcOk, Arrays;
  }

  lemma CountNumbers(threads: seq<Thread>, counted: set<nat>, count: nat, made: nat, width: nat, t: nat, th: Thread)
    requires Numbers(threads, counted, count, made, width) && t < |threads| && threads[t].num == 0
    requires th.num == count + 1 && th.local == threads[t].local
    ensures Numbers(threads[t := th], counted + {t}, count + 1, made, width)
  {
    assert t !in counted;
  }

  function Below(n: nat): (r: set<nat>)
    ensures |r| == n && forall x: nat :: x in r <==> x < n
  {
    if n == 0 then {} else Below(n - 1) + {n - 1}
  }

  /** No more threads have a number than there are threads. */
  lemma CountFits(threads: seq<Thread>, counted: set<nat>, count: nat, made: nat, width: nat, t: nat)
    requires Numbers(threads, counted, count, made, width) && t < |threads|
    ensures threads[t].num <= Pow2(width - 2)
  {
    SubsetSize(counted, Below(|threads|));
  }

  lemma CheckInv(s: State, s': State, t: nat)
    requires Inv(s) && t < |s.threads| && s.threads[t].pc.Check? && Step(s, s', t)
    ensures Inv(s')
  {
    MyPlace(s, t);
    var me := s.threads[t];
    CountFits(s.threads, s.counted, s.count, s.made, s.width, t);
    var lg := if s.root == NULL then 2 else s.arrs[s.root].lg;
    assert 2 <= lg < s.width;
    if s.root != NULL { ArrSize(s.arrs, s.root, s.width, s.root); }
    GrowsEnough(me.num, lg, s.width);
    hide Keys, Threads, Numbers, Answers, HasKey, Inv;
    if s.root == NULL || me.num > |s.arrs[s.root].slots| / 2 {
      GoInv(s, t, Swap(me.pc.found, GrowTo(me.num, lg), s.root));
    } else {
      GoInv(s, t, ReadTop(me.pc.found, false));
    }
  }

  lemma SwapFailsInv(s: State, s': State, t: nat)
    requires Inv(s) && t < |s.threads| && s.threads[t].pc.Swap? && s.root != s.threads[t].pc.r && Step(s, s', t)
    ensures Inv(s')
  {
    MyPlace(s, t);
    var me := s.threads[t];
    var top := s.arrs[s.root];
    if top.lg >= me.pc.lg { Pow2Grows(me.pc.lg - 1, top.lg - 1); }
    hide Keys, Threads, Numbers, Answers, HasKey, Inv;
    if top.lg >= me.pc.lg {
      GoInv(s, t, ReadTop(me.pc.found, false));
    } else {
      GoInv(s, t, Swap(me.pc.found, me.pc.lg, s.root));
    }
  }

  // ----- a new array -----

  lemma PushArrays(arrs: seq<Arr>, root: int, width: nat, lg: nat)
    requires Arrays(arrs, root, width) && 2 <= lg < width && (root >= 0 ==> arrs[root].lg < lg)
    ensures Arrays(arrs + [Blank(lg, root)], |arrs|, width)
  {
    var arrs' := arrs + [Blank(lg, root)];
    assert forall r :: 0 <= r < |arrs| ==> arrs'[r] == arrs[r];
    forall q, r | 0 <= q < r < |arrs'| ensures arrs'[q].lg < arrs'[r].lg {
      assert r == |arrs| && q < root ==> arrs[q].lg < arrs[root].lg;
    }
  }

  lemma PushKeys(arrs: seq<Arr>, threads: seq<Thread>, width: nat, lg: nat, next: int)
    requires Keys(arrs, threads, width) && lg <= width
    ensures Keys(arrs + [Blank(lg, next)], threads, width)
  {
    var arrs' := arrs + [Blank(lg, next)];
    assert forall r :: 0 <= r < |arrs| ==> arrs'[r] == arrs[r];
    forall r, j | 0 <= r < |arrs'| && 0 <= j < |arrs'[r].slots| && arrs'[r].slots[j].key != EMPTY
      ensures KeyOk(arrs', threads, width, r, j)
    {
      assert r < |arrs| && KeyOk(arrs, threads, width, r, j);
    }
  }

  lemma PushPcOk(arrs: seq<Arr>, root: int, width: nat, lg: nat, t: nat, th: Thread)
    requires Arrays(arrs, root, width) && PcOk(arrs, root, width, t, th) && 2 <= lg < width && (root >= 0 ==> arrs[root].lg < lg)
    ensures Arrays(arrs + [Blank(lg, root)], |arrs|, width)
    ensures PcOk(arrs + [Blank(lg, root)], |arrs|, width, t, th)
  {
    var arrs' := arrs + [Blank(lg, root)];
    PushArrays(arrs, root, width, lg);
    assert forall r :: 0 <= r < |arrs| ==> arrs'[r] == arrs[r];
    if th.pc.ReadTop? { HalfGrows(arrs[root], arrs'[|arrs|]); }
    hide HasKey, Arrays, Visited, Missed;
  }

  lemma PushThreads(arrs: seq<Arr>, root: int, width: nat, lg: nat, threads: seq<Thread>)
    requires Threads(arrs, root, width, threads) && 2 <= lg < width && (root >= 0 ==> arrs[root].lg < lg)
    ensures Threads(arrs + [Blank(lg, root)], |arrs|, width, threads)
  {
    PushArrays(arrs, root, width, lg);
    forall t | 0 <= t < |threads| ensures PcOk(arrs + [Blank(lg, root)], |arrs|, width, t, threads[t]) {
      PushPcOk(arrs, root, width, lg, t, threads[t]);
    }
  }

  lemma SwapInv(s: State, s': State, t: nat)
    requires Inv(s) && t < |s.threads| && s.threads[t].pc.Swap? && s.root == s.threads[t].pc.r && Step(s, s', t)
    ensures Inv(s')
  {
    MyPlace(s, t);
    var me := s.threads[t];
    var f, lg := me.pc.found, me.pc.lg;
    PushArrays(s.arrs, s.root, s.width, lg);
    PushThreads(s.arrs, s.root, s.width, lg, s.threads);
    PushKeys(s.arrs, s.threads, s.width, lg, s.root);
    var s1 := s.(arrs := s.arrs + [Blank(lg, s.root)], root := |s.arrs|);
    assert Inv(s1) by { hide Keys, Threads, Numbers, Answers; }
    assert s' == Go(s1, t, ReadTop(f, false));
    assert Half(s1.arrs[s1.root]) == Pow2(lg - 1);
    MyPlace(s1, t);
    hide Keys, Threads, Numbers, Answers, HasKey, Inv;
    GoInv(s1, t, ReadTop(f, false));
  }

  // ----- a claimed slot -----

  function Claimed(a: Arr, i: nat, t: nat): Arr
    requires i < |a.slots|
  {
    a.(slots := a.slots[i := a.slots[i].(key := t)])
  }

  lemma ClaimedProbes(a: Arr, i: nat, t: nat, u: nat, hash: nat, n: nat, width: nat)
    requires a.lg <= width && i < |a.slots| && a.slots[i].key == EMPTY
    ensures forall m: nat :: Pos(Claimed(a, i, t), hash, m, width) == Pos(a, hash, m, width)
    ensures Visited(a, hash, n, width) ==> Visited(Claimed(a, i, t), hash, n, width)
    ensures u != t && Missed(a, hash, n, width, u) ==> Missed(Claimed(a, i, t), hash, n, width, u)
  {
    var b := Claimed(a, i, t);
    assert |b.slots| == |a.slots| && b.lg == a.lg;
    forall m: nat ensures Pos(b, hash, m, width) == Pos(a, hash, m, width)
      ensures a.slots[Pos(a, hash, m, width)].key != EMPTY ==> b.slots[Pos(b, hash, m, width)] == a.slots[Pos(a, hash, m, width)]
    {
    }
    if Visited(a, hash, n, width) {
      assert forall m: nat :: m < n ==> a.slots[Pos(a, hash, m, width)].key != EMPTY;
    }
  }

  lemma ClaimedLanded(a: Arr, i: nat, t: nat, hash: nat, j: nat, width: nat)
    requires a.lg <= width && i < |a.slots| && a.slots[i].key == EMPTY && Landed(a, hash, j, width)
    ensures Landed(Claimed(a, i, t), hash, j, width)
  {
    var n: nat :| n < |a.slots| && Pos(a, hash, n, width) == j && Visited(a, hash, n, width);
    ClaimedProbes(a, i, t, t, hash, n, width);
  }

  /** The thread with its new slot. */
  function Claimer(th: Thread, f: nat, e: bool, ir: nat, i: nat): Thread
  {
    th.(pc := SetPtr(f, e, ir, i), home := ir)
  }

  lemma ClaimKeyOk(arrs: seq<Arr>, threads: seq<Thread>, width: nat, t: nat, f: nat, e: bool, ir: nat, i: nat, r: nat, j: nat)
    requires Keys(arrs, threads, width) && t < |threads| && ir < |arrs| && i < |arrs[ir].slots| && arrs[ir].slots[i].key == EMPTY
    requires threads[t].home < ir && !threads[t].pc.SetPtr?
    requires 1 <= threads[t].num <= Half(arrs[ir]) && Landed(arrs[ir], threads[t].hash, i, width)
    requires r < |arrs| && j < |arrs[r].slots|
    ensures var arrs', threads' := arrs[ir := Claimed(arrs[ir], i, t)], threads[t := Claimer(threads[t], f, e, ir, i)];
            arrs'[r].slots[j].key != EMPTY ==> KeyOk(arrs', threads', width, r, j)
  {
    var arrs', threads' := arrs[ir := Claimed(arrs[ir], i, t)], threads[t := Claimer(threads[t], f, e, ir, i)];
    if r == ir && j == i {
      ClaimedLanded(arrs[ir], i, t, threads[t].hash, i, width);
    } else if arrs[r].slots[j].key != EMPTY {
      assert KeyOk(arrs, threads, width, r, j);
      if r == ir { ClaimedLanded(arrs[ir], i, t, threads[arrs[r].slots[j].key].hash, j, width); }
    }
    hide Landed, Half;
  }

  lemma ClaimKeys(arrs: seq<Arr>, threads: seq<Thread>, width: nat, t: nat, f: nat, e: bool, ir: nat, i: nat)
    requires Keys(arrs, threads, width) && t < |threads| && ir < |arrs| && i < |arrs[ir].slots| && arrs[ir].slots[i].key == EMPTY
    requires threads[t].home < ir && !threads[t].pc.SetPtr?
    requires 1 <= threads[t].num <= Half(arrs[ir]) && Landed(arrs[ir], threads[t].hash, i, width)
    ensures Keys(arrs[ir := Claimed(arrs[ir], i, t)], threads[t := Claimer(threads[t], f, e, ir, i)], width)
  {
    var arrs', threads' := arrs[ir := Claimed(arrs[ir], i, t)], threads[t := Claimer(threads[t], f, e, ir, i)];
    assert forall r :: 0 <= r < |arrs| ==> |arrs'[r].slots| == |arrs[r].slots| && arrs'[r].lg == arrs[r].lg;
    forall r, j | 0 <= r < |arrs'| && 0 <= j < |arrs'[r].slots| && arrs'[r].slots[j].key != EMPTY
      ensures KeyOk(arrs', threads', width, r, j)
    {
      ClaimKeyOk(arrs, threads, width, t, f, e, ir, i, r, j);
    }
    assert forall j :: 0 <= j < |arrs[ir].slots| && arrs[ir].slots[j].key != EMPTY ==> KeyOk(arrs, threads, width, ir, j);
    assert forall j :: 0 <= j < |arrs[ir].slots| ==> arrs[ir].slots[j].key != t;
    hide KeyOk, Landed;
  }

  lemma ClaimPcOk(arrs: seq<Arr>, root: int, width: nat, ir: nat, i: nat, t: nat, u: nat, th: Thread)
    requires Arrays(arrs, root, width) && PcOk(arrs, root, width, u, th) && u != t
    requires ir < |arrs| && i < |arrs[ir].slots| && arrs[ir].slots[i].key == EMPTY
    ensures Arrays(arrs[ir := Claimed(arrs[ir], i, t)], root, width)
    ensures PcOk(arrs[ir := Claimed(arrs[ir], i, t)], root, width, u, th)
  {
    var arrs' := arrs[ir := Claimed(arrs[ir], i, t)];
    assert forall r :: 0 <= r < |arrs| && r != ir ==> arrs'[r] == arrs[r];
    var n := if th.pc.Probe? || th.pc.Claim? || th.pc.Try? then th.pc.n else 0;
    ClaimedProbes(arrs[ir], i, t, u, th.hash, n, width);
    if th.home == ir {
      var j :| 0 <= j < |arrs[ir].slots| && arrs[ir].slots[j].key == u;
      assert arrs'[ir].slots[j].key == u;
    }
    assert Half(arrs'[ir]) == Half(arrs[ir]);
    hide Visited, Missed, Half;
  }

  lemma ClaimThreads(arrs: seq<Arr>, root: int, width: nat, threads: seq<Thread>, t: nat, f: nat, e: bool, ir: nat, i: nat)
    requires Threads(arrs, root, width, threads) && t < |threads| && ir < |arrs| && i < |arrs[ir].slots| && arrs[ir].slots[i].key == EMPTY
    requires threads[t].num > 0 && threads[t].local == f > 0
    ensures Threads(arrs[ir := Claimed(arrs[ir], i, t)], root, width, threads[t := Claimer(threads[t], f, e, ir, i)])
  {
    var arrs', threads' := arrs[ir := Claimed(arrs[ir], i, t)], threads[t := Claimer(threads[t], f, e, ir, i)];
    assert Arrays(arrs', root, width);
    assert arrs'[ir].slots[i].key == t;
    forall u | 0 <= u < |threads'| ensures PcOk(arrs', root, width, u, threads'[u]) {
      if u != t {
        ClaimPcOk(arrs, root, width, ir, i, t, u, threads[u]);
      } else {
        assert HasKey(arrs'[ir], t);
      }
    }
  }

  lemma ClaimAnswers(answers: seq<Answer>, threads: seq<Thread>, t: nat, th: Thread)
    requires Answers(answers, threads) && t < |threads| && Knows(threads[t]) == Knows(th) && th.local == threads[t].local
    ensures Answers(answers, threads[t := th])
  {
    hide Answered;
  }

  lemma ClaimNumbers(threads: seq<Thread>, counted: set<nat>, count: nat, made: nat, width: nat, t: nat, th: Thread)
    requires Numbers(threads, counted, count, made, width) && t < |threads| && th.num == threads[t].num && th.local == threads[t].local
    ensures Numbers(threads[t := th], counted, count, made, width)
  {
  }

  lemma TryInv(s: State, s': State, t: nat)
    requires Inv(s) && t < |s.threads| && s.threads[t].pc.Try? && Step(s, s', t)
    ensures Inv(s')
  {
    hide Inv;
    var f, e, ir, n := s.threads[t].pc.found, s.threads[t].pc.exists', s.threads[t].pc.ir, s.threads[t].pc.n;
    if s.arrs[ir].slots[SlotAt(s, t, ir, n)].key == EMPTY {
      ClaimedInv(s, t, f, e, ir, n);
    } else {
      TryFails(s, t, f, e, ir, n);
    }
  }

  lemma TryFails(s: State, t: nat, f: nat, e: bool, ir: int, n: nat)
    requires Inv(s) && t < |s.threads| && s.threads[t].pc == Try(f, e, ir, n) && IsArr(s, ir)
    requires s.arrs[ir].slots[SlotAt(s, t, ir, n)].key != EMPTY
    ensures Inv(Go(s, t, Claim(f, e, ir, n + 1)))
  {
    ClaimOn(s, t, f, e, ir, n);
    hide *;
    GoInv(s, t, Claim(f, e, ir, n + 1));
  }

  lemma ClaimedInv(s: State, t: nat, f: nat, e: bool, ir: int, n: nat)
    requires Inv(s) && t < |s.threads| && s.threads[t].pc == Try(f, e, ir, n) && IsArr(s, ir)
    requires s.arrs[ir].slots[SlotAt(s, t, ir, n)].key == EMPTY
    ensures var i := SlotAt(s, t, ir, n);
            Inv(s.(arrs := s.arrs[ir := Claimed(s.arrs[ir], i, t)], threads := s.threads[t := Claimer(s.threads[t], f, e, ir, i)]))
  {
    var i := SlotAt(s, t, ir, n);
    var me := s.threads[t];
    MyPlace(s, t);
    assert Landed(s.arrs[ir], me.hash, i, s.width);
    hide Keys, Threads, Numbers, Answers, Landed, Visited, HasKey, Arrays;
    ClaimKeys(s.arrs, s.threads, s.width, t, f, e, ir, i);
    ClaimThreads(s.arrs, s.root, s.width, s.threads, t, f, e, ir, i);
    ClaimAnswers(s.answers, s.threads, t, Claimer(me, f, e, ir, i));
    ClaimNumbers(s.threads, s.counted, s.count, s.made, s.width, t, Claimer(me, f, e, ir, i));
  }

  function Filled(a: Arr, i: nat, f: nat): Arr
    requires i < |a.slots|
  {
    a.(slots := a.slots[i := a.slots[i].(ptr := f)])
  }

  /** Pointers do not matter to probes. */
  lemma FilledProbes(a: Arr, i: nat, f: nat, hash: nat, n: nat, width: nat, u: nat)
    requires a.lg <= width && i < |a.slots|
    ensures forall m: nat :: Pos(Filled(a, i, f), hash, m, width) == Pos(a, hash, m, width)
    ensures Visited(a, hash, n, width) ==> Visited(Filled(a, i, f), hash, n, width)
    ensures Missed(a, hash, n, width, u) ==> Missed(Filled(a, i, f), hash, n, width, u)
  {
    var b := Filled(a, i, f);
    assert |b.slots| == |a.slots| && b.lg == a.lg;
    assert forall j :: 0 <= j < |a.slots| ==> b.slots[j].key == a.slots[j].key;
    forall m: nat ensures Pos(b, hash, m, width) == Pos(a, hash, m, width) {
    }
  }

  lemma FillKeyOk(arrs: seq<Arr>, threads: seq<Thread>, width: nat, t: nat, ir: nat, i: nat, r: nat, j: nat)
    requires Keys(arrs, threads, width) && t < |threads| && ir < |arrs| && i < |arrs[ir].slots|
    requires threads[t].pc.SetPtr? && threads[t].pc.ir == ir && threads[t].pc.i == i && arrs[ir].slots[i].key == t
    requires r < |arrs| && j < |arrs[r].slots| && arrs[r].slots[j].key != EMPTY
    ensures KeyOk(arrs[ir := Filled(arrs[ir], i, threads[t].local)], threads[t := threads[t].(pc := Out)], width, r, j)
  {
    var k := arrs[r].slots[j].key;
    assert KeyOk(arrs, threads, width, r, j);
    if r == ir {
      var n: nat :| n < |arrs[r].slots| && Pos(arrs[r], threads[k].hash, n, width) == j && Visited(arrs[r], threads[k].hash, n, width);
      FilledProbes(arrs[ir], i, threads[t].local, threads[k].hash, n, width, t);
    }
    hide Visited, Half;
  }

  lemma FillKeys(arrs: seq<Arr>, threads: seq<Thread>, width: nat, t: nat, ir: nat, i: nat)
    requires Keys(arrs, threads, width) && t < |threads| && ir < |arrs| && i < |arrs[ir].slots|
    requires threads[t].pc.SetPtr? && threads[t].pc.ir == ir && threads[t].pc.i == i && arrs[ir].slots[i].key == t
    ensures Keys(arrs[ir := Filled(arrs[ir], i, threads[t].local)], threads[t := threads[t].(pc := Out)], width)
  {
    var arrs', threads' := arrs[ir := Filled(arrs[ir], i, threads[t].local)], threads[t := threads[t].(pc := Out)];
    assert forall r :: 0 <= r < |arrs| ==> |arrs'[r].slots| == |arrs[r].slots| && arrs'[r].lg == arrs[r].lg;
    assert forall r, j :: 0 <= r < |arrs| && 0 <= j < |arrs[r].slots| ==> arrs'[r].slots[j].key == arrs[r].slots[j].key;
    forall r, j | 0 <= r < |arrs'| && 0 <= j < |arrs'[r].slots| && arrs'[r].slots[j].key != EMPTY
      ensures KeyOk(arrs', threads', width, r, j)
    {
      FillKeyOk(arrs, threads, width, t, ir, i, r, j);
    }
    hide KeyOk;
  }

  lemma FillPcOk(arrs: seq<Arr>, root: int, width: nat, ir: nat, i: nat, f: nat, u: nat, th: Thread)
    requires Arrays(arrs, root, width) && PcOk(arrs, root, width, u, th)
    requires ir < |arrs| && i < |arrs[ir].slots|
    ensures Arrays(arrs[ir := Filled(arrs[ir], i, f)], root, width)
    ensures PcOk(arrs[ir := Filled(arrs[ir], i, f)], root, width, u, th)
  {
    var arrs' := arrs[ir := Filled(arrs[ir], i, f)];
    assert forall r :: 0 <= r < |arrs| && r != ir ==> arrs'[r] == arrs[r];
    assert forall j :: 0 <= j < |arrs[ir].slots| ==> arrs'[ir].slots[j].key == arrs[ir].slots[j].key;
    var n := if th.pc.Probe? || th.pc.Claim? || th.pc.Try? then th.pc.n else 0;
    FilledProbes(arrs[ir], i, f, th.hash, n, width, u);
    if th.home == ir {
      var j :| 0 <= j < |arrs[ir].slots| && arrs[ir].slots[j].key == u;
      assert arrs'[ir].slots[j].key == u;
    }
    assert Half(arrs'[ir]) == Half(arrs[ir]);
    hide Visited, Missed, Half;
  }

  lemma SetPtrInv(s: State, s': State, t: nat)
    requires Inv(s) && t < |s.threads| && s.threads[t].pc.SetPtr? && Step(s, s', t)
    ensures Inv(s')
  {
    MyPlace(s, t);
    var me := s.threads[t];
    var f, e, ir, i := me.pc.found, me.pc.exists', me.pc.ir, me.pc.i;
    FillKeys(s.arrs, s.threads, s.width, t, ir, i);
    AppendAnswer(s.answers, s.threads, t, e, Out);
    ClaimNumbers(s.threads, s.counted, s.count, s.made, s.width, t, me.(pc := Out));
    forall u | 0 <= u < |s.threads| ensures Arrays(s'.arrs, s.root, s.width) && PcOk(s'.arrs, s.root, s.width, u, s.threads[u]) {
      MyPlace(s, u);
      FillPcOk(s.arrs, s.root, s.width, ir, i, f, u, s.threads[u]);
    }
    SettledOut(s'.arrs, s.root, s.width, s.threads, t);
    hide Keys, Threads, Numbers, Answers, PcOk;
  }

  lemma SettledOut(arrs: seq<Arr>, root: int, width: nat, threads: seq<Thread>, t: nat)
    requires t < |threads| && threads[t].pc.SetPtr? && Arrays(arrs, root, width)
    requires forall u :: 0 <= u < |threads| ==> PcOk(arrs, root, width, u, threads[u])
    ensures Threads(arrs, root, width, threads[t := threads[t].(pc := Out)])
  {
    var threads' := threads[t := threads[t].(pc := Out)];
    assert PcOk(arrs, root, width, t, threads[t]);
    forall u | 0 <= u < |threads| ensures PcOk(arrs, root, width, u, threads'[u]) {
      assert u != t ==> threads'[u] == threads[u];
    }
  }

  /** Every step of every thread keeps the invariant. */
  lemma StepInv(s: State, s': State, t: nat)
    requires Inv(s) && Step(s, s', t)
    ensures Inv(s')
  {
    hide Inv;
    match s.threads[t].pc
    case Probe(_, _) => ProbeInv(s, s', t);
    case Claim(_, _, _, _) => ClaimInv(s, s', t);
    case Found(_, _) => FoundInv(s, s', t);
    case Create => CreateInv(s, s', t);
    case Count(_) => CountInv(s, s', t);
    case Check(_) => CheckInv(s, s', t);
    case Swap(_, _, r) => if s.root == r { SwapInv(s, s', t); } else { SwapFailsInv(s, s', t); }
    case Try(_, _, _, _) => TryInv(s, s', t);
    case SetPtr(_, _, _, _) => SetPtrInv(s, s', t);
    case _ => SearchInv(s, s', t);
  }

  // ----- what holds in every run -----

  /** At most half of the array's slots are taken. */
  ghost predicate HalfFull(a: Arr)
  {
    2 * |set j | 0 <= j < |a.slots| && a.slots[j].key != EMPTY| <= |a.slots|
  }

  ghost predicate Safe(s: State)
  {
    // no array is more than half full, each is strictly smaller than the one on top of it
    && (forall r :: 0 <= r < |s.arrs| ==> HalfFull(s.arrs[r]))
    && (forall q, r :: 0 <= q < r < |s.arrs| ==> |s.arrs[q].slots| < |s.arrs[r].slots|)
    // every probe is within its first half turn
    && (forall t :: 0 <= t < |s.threads| ==>
         match s.threads[t].pc
         case Probe(r, n) => 0 <= r < |s.arrs| && 2 * n <= |s.arrs[r].slots|
         case Claim(_, _, ir, n) => 0 <= ir < |s.arrs| && 2 * n <= |s.arrs[ir].slots|
         case _ => true)
    // a thread makes a local only if it has none
    && (forall t :: 0 <= t < |s.threads| && s.threads[t].pc.Create? ==> s.threads[t].local == 0)
    // all answers to one thread are its local, answers to different threads differ, and only the first says it is new
    && (forall i :: 0 <= i < |s.answers| ==> s.answers[i].thread < |s.threads| && s.answers[i].ptr == s.threads[s.answers[i].thread].local > 0)
    && (forall i, j :: 0 <= i < |s.answers| && 0 <= j < |s.answers| ==>
         (s.answers[i].ptr == s.answers[j].ptr <==> s.answers[i].thread == s.answers[j].thread))
    && (forall i :: 0 <= i < |s.answers| ==> (s.answers[i].existed <==> Answered(s.answers[..i], s.answers[i].thread)))
  }

  ghost function Taken(a: Arr): set<int>
  {
    set j | 0 <= j < |a.slots| && a.slots[j].key != EMPTY
  }

  function OwnerNum(a: Arr, threads: seq<Thread>, j: int): int
  {
    if 0 <= j < |a.slots| && 0 <= a.slots[j].key < |threads| then threads[a.slots[j].key].num else 0
  }

  lemma Member<T>(a: set<T>) returns (x: T)
    requires a != {}
    ensures x in a
  {
    x :| x in a;
  }

  lemma {:induction false} ImageSize(a: Arr, threads: seq<Thread>, js: set<int>)
    requires forall i, j :: i in js && j in js && i != j ==> OwnerNum(a, threads, i) != OwnerNum(a, threads, j)
    ensures |set j | j in js :: OwnerNum(a, threads, j)| == |js|
    decreases |js|
  {
    var image := set j | j in js :: OwnerNum(a, threads, j);
    if js == {} {
      assert image == {};
    } else {
      var x := Member(js);
      ImageSize(a, threads, js - {x});
      assert image == (set j | j in js - {x} :: OwnerNum(a, threads, j)) + {OwnerNum(a, threads, x)};
    }
  }

  /** Taken slots have different owners, whose numbers fit in half the array. */
  lemma AtMostHalf(s: State, r: nat)
    requires Inv(s) && r < |s.arrs|
    ensures HalfFull(s.arrs[r])
  {
    var a := s.arrs[r];
    var js := Taken(a);
    forall j | j in js ensures 1 <= OwnerNum(a, s.threads, j) <= Half(a) {
      assert KeyOk(s.arrs, s.threads, s.width, r, j);
    }
    forall i, j | i in js && j in js && i != j ensures OwnerNum(a, s.threads, i) != OwnerNum(a, s.threads, j) {
      OwnersDiffer(s, r, i, j);
    }
    ImageSize(a, s.threads, js);
    SubsetSize((set j | j in js :: OwnerNum(a, s.threads, j)), UpTo(Half(a)));
    ArrSize(s.arrs, s.root, s.width, r);
    assert js == set j | 0 <= j < |a.slots| && a.slots[j].key != EMPTY;
  }

  lemma OwnersDiffer(s: State, r: nat, i: int, j: int)
    requires Inv(s) && r < |s.arrs| && i in Taken(s.arrs[r]) && j in Taken(s.arrs[r]) && i != j
    ensures OwnerNum(s.arrs[r], s.threads, i) != OwnerNum(s.arrs[r], s.threads, j)
  {
    assert KeyOk(s.arrs, s.threads, s.width, r, i) && KeyOk(s.arrs, s.threads, s.width, r, j);
    hide Threads, Answers, Landed;
  }

  lemma Smaller(s: State, q: nat, r: nat)
    requires Inv(s) && q < r < |s.arrs|
    ensures |s.arrs[q].slots| < |s.arrs[r].slots|
  {
    Pow2Grows(s.arrs[q].lg, s.arrs[r].lg - 1);
  }

  lemma ProbeShort(s: State, t: nat)
    requires Inv(s) && t < |s.threads|
    ensures match s.threads[t].pc
            case Probe(r, n) => 0 <= r < |s.arrs| && 2 * n <= |s.arrs[r].slots|
            case Claim(_, _, ir, n) => 0 <= ir < |s.arrs| && 2 * n <= |s.arrs[ir].slots|
            case _ => true
    ensures s.threads[t].pc.Create? ==> s.threads[t].local == 0
  {
    MyPlace(s, t);
    var me := s.threads[t];
    if me.pc.Probe? {
      MissedVisited(s.arrs[me.pc.r], me.hash, me.pc.n, s.width, t);
      ArrSize(s.arrs, s.root, s.width, me.pc.r);
      ProbeEnds(s.arrs, s.threads, s.counted, s.count, s.made, s.width, me.pc.r, me.hash, me.pc.n);
    } else if me.pc.Claim? {
      ArrSize(s.arrs, s.root, s.width, me.pc.ir);
      ProbeEnds(s.arrs, s.threads, s.counted, s.count, s.made, s.width, me.pc.ir, me.hash, me.pc.n);
    }
    hide Keys, Numbers, Answers, Threads;
  }

  lemma OwnAnswers(s: State, i: nat, j: nat)
    requires Inv(s) && i < |s.answers| && j < |s.answers|
    ensures s.answers[i].ptr == s.answers[j].ptr <==> s.answers[i].thread == s.answers[j].thread
  {
    hide Answered, Keys, Threads;
  }

  lemma InvSafe(s: State)
    requires Inv(s)
    ensures Safe(s)
  {
    hide Inv, HalfFull;
    forall r | 0 <= r < |s.arrs| ensures HalfFull(s.arrs[r]) { AtMostHalf(s, r); }
    forall q, r | 0 <= q < r < |s.arrs| ensures |s.arrs[q].slots| < |s.arrs[r].slots| { Smaller(s, q, r); }
    forall t | 0 <= t < |s.threads|
      ensures match s.threads[t].pc
              case Probe(r, n) => 0 <= r < |s.arrs| && 2 * n <= |s.arrs[r].slots|
              case Claim(_, _, ir, n) => 0 <= ir < |s.arrs| && 2 * n <= |s.arrs[ir].slots|
              case _ => true
      ensures s.threads[t].pc.Create? ==> s.threads[t].local == 0
    {
      ProbeShort(s, t);
    }
    forall i, j | 0 <= i < |s.answers| && 0 <= j < |s.answers|
      ensures s.answers[i].ptr == s.answers[j].ptr <==> s.answers[i].thread == s.answers[j].thread
    {
      OwnAnswers(s, i, j);
    }
    AnswersOnly(s);
  }

  lemma AnswersOnly(s: State)
    requires Inv(s)
    ensures forall i :: 0 <= i < |s.answers| ==> s.answers[i].thread < |s.threads| && s.answers[i].ptr == s.threads[s.answers[i].thread].local > 0
    ensures forall i :: 0 <= i < |s.answers| ==> (s.answers[i].existed <==> Answered(s.answers[..i], s.answers[i].thread))
  {
    hide Answered;
  }

  ghost predicate Next(s: State, s': State)
  {
    exists t :: Step(s, s', t)
  }

  /** A run of any number of threads, interleaved in any way. */
  ghost predicate Run(r: seq<State>)
  {
    r != [] && Init(r[0]) && forall i :: 0 <= i < |r| - 1 ==> Next(r[i], r[i + 1])
  }

  lemma RunFront(r: seq<State>)
    requires Run(r) && |r| > 1
    ensures Run(r[..|r| - 1])
  {
    var front := r[..|r| - 1];
    assert forall i :: 0 <= i < |front| ==> front[i] == r[i];
    hide Step;
  }

  lemma RunLast(r: seq<State>) returns (t: nat)
    requires Run(r) && |r| > 1
    ensures Step(r[|r| - 2], r[|r| - 1], t)
  {
    hide Step;
    assert Next(r[|r| - 2], r[|r| - 2 + 1]);
    t :| Step(r[|r| - 2], r[|r| - 1], t);
  }

  lemma RunBegins(r: seq<State>)
    requires Run(r)
    ensures r != [] && (|r| == 1 ==> Init(r[0]))
  {
    hide Init;
  }

  lemma {:induction false} RunInv(r: seq<State>)
    requires Run(r)
    ensures r != [] && Inv(r[|r| - 1])
  {
    hide *;
    RunBegins(r);
    if |r| == 1 {
      InitInv(r[0]);
    } else {
      var front := r[..|r| - 1];
      RunFront(r);
      RunInv(front);
      assert front[|front| - 1] == r[|r| - 2];
      var t := RunLast(r);
      StepInv(r[|r| - 2], r[|r| - 1], t);
    }
  }

  lemma RunPrefix(r: seq<State>, i: nat)
    requires Run(r) && i < |r|
    ensures Run(r[..i + 1])
  {
    hide Step, Init;
    var front := r[..i + 1];
    assert forall j :: 0 <= j < |front| ==> front[j] == r[j];
  }

  /** Every state of every run is safe. */
  lemma RunSafe(r: seq<State>, i: nat)
    requires Run(r) && i < |r|
    ensures Safe(r[i])
  {
    hide *;
    RunPrefix(r, i);
    assert r[..i + 1][i] == r[i];
    RunInv(r[..i + 1]);
    InvSafe(r[i]);
  }

  lemma SearchMoves(s: State, t: nat) returns (s': State)
    requires Inv(s) && t < |s.threads| && (s.threads[t].pc.Out? || s.threads[t].pc.ReadRoot? || s.threads[t].pc.Chain? || s.threads[t].pc.Probe? || s.threads[t].pc.Found?)
    ensures Step(s, s', t)
  {
    hide Inv, HasKey, Visited, Missed, Settled, Pow2, Half;
    MyPlace(s, t);
    var me := s.threads[t];
    match me.pc
    case Out => s' := Go(s, t, ReadRoot);
    case ReadRoot => s' := Go(s, t, Chain(s.root));
    case Chain(r) => s' := Go(s, t, if r == NULL then Create else Probe(r, 0));
    case Probe(r, n) =>
      var k := s.arrs[r].slots[SlotAt(s, t, r, n)].key;
      s' := Go(s, t, if k == EMPTY then Chain(s.arrs[r].next) else if k == t then Found(r, SlotAt(s, t, r, n)) else Probe(r, n + 1));
    case Found(r, i) =>
      var p := s.arrs[r].slots[i].ptr;
      s' := if r == s.root then Go(s, t, Out).(answers := s.answers + [Answer(t, p, true)]) else Go(s, t, ReadTop(p, true));
    case _ =>
  }

  lemma GrowMoves(s: State, t: nat) returns (s': State)
    requires Inv(s) && t < |s.threads| && (s.threads[t].pc.Create? || s.threads[t].pc.Count? || s.threads[t].pc.Check? || s.threads[t].pc.Swap?)
    ensures Step(s, s', t)
  {
    hide Inv, HasKey, Visited, Missed, Settled, Pow2, Half;
    MyPlace(s, t);
    var me := s.threads[t];
    match me.pc
    case Create => s' := s.(made := s.made + 1, threads := s.threads[t := me.(pc := Count(s.made + 1), local := s.made + 1)]);
    case Count(f) =>
      s' := s.(count := s.count + 1, counted := s.counted + {t}, threads := s.threads[t := me.(pc := Check(f), num := s.count + 1)]);
    case Check(f) =>
      s' := Go(s, t, if s.root == NULL then Swap(f, GrowTo(me.num, 2), NULL)
                     else if me.num > |s.arrs[s.root].slots| / 2 then Swap(f, GrowTo(me.num, s.arrs[s.root].lg), s.root)
                     else ReadTop(f, false));
    case Swap(f, lg, r) =>
      s' := if s.root == r then Go(s, t, ReadTop(f, false)).(arrs := s.arrs + [Blank(lg, r)], root := |s.arrs|)
            else if s.arrs[s.root].lg >= lg then Go(s, t, ReadTop(f, false)) else Go(s, t, Swap(f, lg, s.root));
    case _ =>
  }

  lemma InsertMoves(s: State, t: nat) returns (s': State)
    requires Inv(s) && t < |s.threads| && (s.threads[t].pc.ReadTop? || s.threads[t].pc.Claim?)
    ensures Step(s, s', t)
  {
    hide Inv, HasKey, Visited, Missed, Settled, Pow2, Half;
    MyPlace(s, t);
    var me := s.threads[t];
    match me.pc
    case ReadTop(f, e) => s' := Go(s, t, Claim(f, e, s.root, 0));
    case Claim(f, e, ir, n) =>
      s' := Go(s, t, if s.arrs[ir].slots[SlotAt(s, t, ir, n)].key == EMPTY then Try(f, e, ir, n) else Claim(f, e, ir, n + 1));
    case _ =>
  }

  lemma StoreMoves(s: State, t: nat) returns (s': State)
    requires Inv(s) && t < |s.threads| && (s.threads[t].pc.Try? || s.threads[t].pc.SetPtr?)
    ensures Step(s, s', t)
  {
    hide Inv, HasKey, Visited, Missed, Settled, Pow2, Half;
    MyPlace(s, t);
    var me := s.threads[t];
    match me.pc
    case Try(f, e, ir, n) =>
      var i := SlotAt(s, t, ir, n);
      s' := if s.arrs[ir].slots[i].key == EMPTY then
              s.(arrs := s.arrs[ir := s.arrs[ir].(slots := s.arrs[ir].slots[i := s.arrs[ir].slots[i].(key := t)])],
                 threads := s.threads[t := me.(pc := SetPtr(f, e, ir, i), home := ir)])
            else Go(s, t, Claim(f, e, ir, n + 1));
    case SetPtr(f, e, ir, i) =>
      s' := Go(s, t, Out).(arrs := s.arrs[ir := s.arrs[ir].(slots := s.arrs[ir].slots[i := s.arrs[ir].slots[i].(ptr := f)])],
                           answers := s.answers + [Answer(t, f, e)]);
    case _ =>
  }

  /** Every thread always has a next step: no access of the code is out of bounds. */
  lemma Moves(s: State, t: nat) returns (s': State)
    requires Inv(s) && t < |s.threads|
    ensures Step(s, s', t)
  {
    hide Inv, Step;
    match s.threads[t].pc
    case Create => s' := GrowMoves(s, t);
    case Count(_) => s' := GrowMoves(s, t);
    case Check(_) => s' := GrowMoves(s, t);
    case Swap(_, _, _) => s' := GrowMoves(s, t);
    case ReadTop(_, _) => s' := InsertMoves(s, t);
    case Claim(_, _, _, _) => s' := InsertMoves(s, t);
    case Try(_, _, _, _) => s' := StoreMoves(s, t);
    case SetPtr(_, _, _, _) => s' := StoreMoves(s, t);
    case _ => s' := SearchMoves(s, t);
  }

  // ----- every call gets its answer -----

  /** The array r has the thread's key in a slot, and its local there. */
  ghost predicate Kept(arrs: seq<Arr>, r: int, t: nat, local: nat)
  {
    0 <= r < |arrs| && exists j :: 0 <= j < |arrs[r].slots| && arrs[r].slots[j] == Slot(t, local)
  }

  /** A thread that returns has appended one answer, its own local, new if and only if it was never answered before. */
  ghost predicate Returns(s: State, s': State, t: nat)
  {
    && t < |s'.threads| && s'.threads[t].pc == Out
    && s'.answers == s.answers + [Answer(t, s'.threads[t].local, Answered(s.answers, t))]
    && Kept(s'.arrs, s'.threads[t].home, t, s'.threads[t].local)
  }

  lemma FoundReturns(s: State, s': State, t: nat)
    requires Inv(s) && Step(s, s', t) && s.threads[t].pc.Found?
    ensures if s'.threads[t].pc == Out then Returns(s, s', t) && s'.threads[t].home == s'.root else s'.answers == s.answers
  {
    MyPlace(s, t);
    var me := s.threads[t];
    var r, i := me.pc.r, me.pc.i;
    assert KeyOk(s.arrs, s.threads, s.width, r, i);
    assert Answered(s.answers, t) <==> Knows(me);
    hide Keys, Threads, Numbers, HasKey, Landed, Answered, Inv;
    assert s.arrs[r].slots[i] == Slot(t, me.local);
  }

  lemma SetPtrReturns(s: State, s': State, t: nat)
    requires Inv(s) && Step(s, s', t) && s.threads[t].pc.SetPtr?
    ensures Returns(s, s', t) && s'.threads[t].home == s.threads[t].pc.ir && s'.root == s.root
  {
    MyPlace(s, t);
    var me := s.threads[t];
    assert Answered(s.answers, t) <==> Knows(me);
    hide Keys, Threads, Numbers, HasKey, Landed, Answered, Inv, Arrays;
    assert s'.arrs[me.pc.ir].slots[me.pc.i] == Slot(t, me.local);
  }

  lemma OthersQuiet(s: State, s': State, t: nat)
    requires Step(s, s', t) && !s.threads[t].pc.Found? && !s.threads[t].pc.SetPtr?
    ensures t < |s'.threads| && s'.threads[t].pc != Out && s'.answers == s.answers
  {
  }

  /** Of all steps of all threads only a return adds to the answers, and every return adds one. */
  lemma StepReturns(s: State, s': State, t: nat)
    requires Inv(s) && Step(s, s', t)
    ensures t < |s'.threads| && (if s'.threads[t].pc == Out then Returns(s, s', t) else s'.answers == s.answers)
  {
    StepSame(s, s', t);
    hide *;
    if s.threads[t].pc.Found? {
      FoundReturns(s, s', t);
    } else if s.threads[t].pc.SetPtr? {
      SetPtrReturns(s, s', t);
      ReturnedOut(s, s', t);
    } else {
      OthersQuiet(s, s', t);
    }
  }

  lemma StepSame(s: State, s': State, t: nat)
    requires Step(s, s', t)
    ensures t < |s.threads| == |s'.threads| && forall u :: 0 <= u < |s.threads| && u != t ==> s'.threads[u] == s.threads[u]
  {
  }

  lemma ReturnedOut(s: State, s': State, t: nat)
    requires Returns(s, s', t)
    ensures t < |s'.threads| && s'.threads[t].pc == Out
  {
  }

  /** In every run. */
  lemma RunReturns(r: seq<State>, i: nat, t: nat)
    requires Run(r) && i + 1 < |r| && Step(r[i], r[i + 1], t)
    ensures var s, s' := r[i], r[i + 1];
            t < |s'.threads| && if s'.threads[t].pc == Out then Returns(s, s', t) else s'.answers == s.answers
  {
    hide *;
    RunPrefix(r, i);
    assert r[..i + 1][i] == r[i];
    RunInv(r[..i + 1]);
    StepReturns(r[i], r[i + 1], t);
  }

  // ----- a thread that runs alone -----

  /** All steps are by thread t. */
  ghost predicate Alone(r: seq<State>, t: nat)
  {
    r != [] && forall i :: 0 <= i < |r| - 1 ==> Step(r[i], r[i + 1], t)
  }

  /** The parts of table_lookup still ahead. */
  function Phase(pc: Pc): nat
  {
    match pc
    case Out => 0
    case ReadRoot => 10
    case Chain(_) => 9
    case Probe(_, _) => 9
    case Found(_, _) => 8
    case Create => 7
    case Count(_) => 6
    case Check(_) => 5
    case Swap(_, _, _) => 4
    case ReadTop(_, _) => 3
    case Claim(_, _, _, _) => 2
    case Try(_, _, _, _) => 2
    case SetPtr(_, _, _, _) => 1
  }

  /** The rounds left of the loop it is in: arrays, attempts to swap, or slots. */
  function Rounds(s: State, t: nat): nat
    requires t < |s.threads|
  {
    match s.threads[t].pc
    case Chain(r) => if r >= 0 then 2 * r + 2 else 0
    case Probe(r, _) => if r >= 0 then 2 * r + 1 else 0
    case Swap(_, _, r) => if r == s.root then 0 else 1
    case Claim(_, _, ir, n) => 2 * Ahead(s, ir, n) + 1
    case Try(_, _, ir, n) => 2 * Ahead(s, ir, n)
    case _ => 0
  }

  function Ahead(s: State, r: int, n: nat): nat
  {
    if 0 <= r < |s.arrs| && n < |s.arrs[r].slots| then |s.arrs[r].slots| - n else 0
  }

  function SlotsLeft(s: State, t: nat): nat
    requires t < |s.threads|
  {
    match s.threads[t].pc
    case Probe(r, n) => Ahead(s, r, n)
    case _ => 0
  }

  /** A step on the way to the answer. */
  ghost predicate Nearer(s: State, s': State, t: nat)
    requires t < |s.threads| && t < |s'.threads|
  {
    var p, p' := Phase(s.threads[t].pc), Phase(s'.threads[t].pc);
    p' < p || (p' == p && (Rounds(s', t) < Rounds(s, t) || (Rounds(s', t) == Rounds(s, t) && SlotsLeft(s', t) < SlotsLeft(s, t))))
  }

  lemma Straight(s: State, s': State, t: nat)
    requires t < |s.threads| == |s'.threads|
    requires Step(s, s', t) && s.threads[t].pc != Out
    requires var pc := s.threads[t].pc; !pc.Chain? && !pc.Probe? && !pc.Swap? && !pc.Claim? && !pc.Try?
    ensures Phase(s'.threads[t].pc) < Phase(s.threads[t].pc)
  {
    hide GrowTo;
  }

  lemma ChainNearer(s: State, s': State, t: nat)
    requires t < |s.threads| == |s'.threads|
    requires Inv(s) && Step(s, s', t) && s.threads[t].pc.Chain?
    ensures Nearer(s, s', t)
  {
    MyPlace(s, t);
    hide Inv, HasKey, Pow2;
  }

  lemma ProbeNearer(s: State, s': State, t: nat)
    requires t < |s.threads| == |s'.threads|
    requires Inv(s) && Step(s, s', t) && s.threads[t].pc.Probe?
    ensures Nearer(s, s', t)
  {
    MyPlace(s, t);
    hide Inv, HasKey, Missed, Pow2, Pos;
  }

  lemma SwapNearer(s: State, s': State, t: nat)
    requires t < |s.threads| == |s'.threads|
    requires Step(s, s', t) && s.threads[t].pc.Swap?
    ensures Nearer(s, s', t)
  {
    hide Blank;
  }

  lemma ClaimNearer(s: State, s': State, t: nat)
    requires t < |s.threads| == |s'.threads|
    requires Inv(s) && Step(s, s', t) && s.threads[t].pc.Claim?
    ensures Nearer(s, s', t)
  {
    ClaimPlace(s, t);
    hide Inv, Pos;
  }

  lemma TryNearer(s: State, s': State, t: nat)
    requires t < |s.threads| == |s'.threads|
    requires Inv(s) && Step(s, s', t) && s.threads[t].pc.Try?
    ensures Nearer(s, s', t)
  {
    ClaimPlace(s, t);
    hide Inv, Pos;
  }

  lemma ClaimPlace(s: State, t: nat)
    requires Inv(s) && t < |s.threads|
    ensures match s.threads[t].pc
            case Claim(_, _, ir, n) => 0 <= ir < |s.arrs| && n < |s.arrs[ir].slots|
            case Try(_, _, ir, n) => 0 <= ir < |s.arrs| && n < |s.arrs[ir].slots|
            case _ => true
  {
    MyPlace(s, t);
    hide Inv, HasKey, Visited, Pow2, Pos, Half, Arrays;
  }

  lemma Approaches(s: State, s': State, t: nat)
    requires t < |s.threads| == |s'.threads|
    requires Inv(s) && Step(s, s', t) && s.threads[t].pc != Out
    ensures Nearer(s, s', t)
  {
    hide *;
    match s.threads[t].pc
    case Chain(_) => ChainNearer(s, s', t);
    case Probe(_, _) => ProbeNearer(s, s', t);
    case Swap(_, _, _) => SwapNearer(s, s', t);
    case Claim(_, _, _, _) => ClaimNearer(s, s', t);
    case Try(_, _, _, _) => TryNearer(s, s', t);
    case _ =>
      Straight(s, s', t);
      PhaseNearer(s, s', t);
  }

  lemma PhaseNearer(s: State, s': State, t: nat)
    requires t < |s.threads| == |s'.threads| && Phase(s'.threads[t].pc) < Phase(s.threads[t].pc)
    ensures Nearer(s, s', t)
  {
  }

  /** The array a thread is about to take a slot of is the root. */
  predicate AtTop(s: State, t: nat)
    requires t < |s.threads|
  {
    match s.threads[t].pc
    case Claim(_, _, ir, _) => ir == s.root
    case Try(_, _, ir, _) => ir == s.root
    case SetPtr(_, _, ir, _) => ir == s.root
    case _ => true
  }

  lemma StaysAtTop(s: State, s': State, t: nat)
    requires Step(s, s', t) && AtTop(s, t)
    ensures t < |s'.threads| && AtTop(s', t)
  {
    hide Pos, GrowTo, Blank;
  }

  lemma TopReturn(s: State, s': State, t: nat)
    requires t < |s.threads| == |s'.threads|
    requires Inv(s) && Step(s, s', t) && AtTop(s, t) && s'.threads[t].pc == Out
    ensures s'.threads[t].home == s'.root
  {
    hide *;
    if s.threads[t].pc.Found? {
      FoundReturns(s, s', t);
    } else if s.threads[t].pc.SetPtr? {
      SetPtrReturns(s, s', t);
      TopArray(s, t);
    } else {
      OthersQuiet(s, s', t);
    }
  }

  lemma TopArray(s: State, t: nat)
    requires t < |s.threads| && AtTop(s, t) && s.threads[t].pc.SetPtr?
    ensures s.threads[t].pc.ir == s.root
  {
  }

  lemma AloneMore(s: State, r: seq<State>, t: nat)
    requires Alone(r, t) && Step(s, r[0], t)
    ensures Alone([s] + r, t)
  {
    hide Step;
    var q := [s] + r;
    forall i | 0 <= i < |q| - 1 ensures Step(q[i], q[i + 1], t) {
      assert q[i + 1] == r[i];
      assert i > 0 ==> q[i] == r[i - 1] && r[i - 1 + 1] == r[i];
    }
  }

  lemma AloneStart(s: State, s': State, t: nat)
    requires Step(s, s', t)
    ensures Alone([s, s'], t)
  {
    hide Step;
  }

  /** What the thread's own steps lead to: one more answer, its own. */
  ghost predicate ComesOut(s: State, s': State, t: nat)
  {
    && t < |s.threads| == |s'.threads| && s'.threads[t].pc == Out && s'.threads[t].local > 0
    && s'.answers == s.answers + [Answer(t, s'.threads[t].local, Answered(s.answers, t))]
    && (AtTop(s, t) ==> Kept(s'.arrs, s'.root, t, s'.threads[t].local))
  }

  lemma LastStep(s: State, s': State, t: nat)
    requires t < |s.threads| == |s'.threads|
    requires Inv(s) && Inv(s') && Step(s, s', t) && s'.threads[t].pc == Out
    ensures ComesOut(s, s', t)
  {
    hide *;
    StepSame(s, s', t);
    StepReturns(s, s', t);
    ReturnsGive(s, s', t);
    OutHasLocal(s', t, |s.answers|);
    if AtTop(s, t) { TopReturn(s, s', t); }
    ComesOutIntro(s, s', t);
  }

  lemma ReturnsGive(s: State, s': State, t: nat)
    requires Returns(s, s', t)
    ensures t < |s'.threads| && s'.answers == s.answers + [Answer(t, s'.threads[t].local, Answered(s.answers, t))]
    ensures Kept(s'.arrs, s'.threads[t].home, t, s'.threads[t].local)
  {
  }

  lemma OutHasLocal(s: State, t: nat, i: nat)
    requires Inv(s) && i < |s.answers| && s.answers[i].thread == t
    ensures t < |s.threads| && s.threads[t].local > 0
  {
    hide Keys, Threads, Numbers, Answered;
  }

  lemma ComesOutIntro(s: State, s': State, t: nat)
    requires t < |s.threads| == |s'.threads| && s'.threads[t].pc == Out && s'.threads[t].local > 0
    requires s'.answers == s.answers + [Answer(t, s'.threads[t].local, Answered(s.answers, t))]
    requires AtTop(s, t) ==> Kept(s'.arrs, s'.root, t, s'.threads[t].local)
    ensures ComesOut(s, s', t)
  {
    hide Answered, Kept, AtTop;
  }

  lemma ComesOutBefore(s: State, s1: State, s': State, t: nat)
    requires ComesOut(s1, s', t) && s1.answers == s.answers && t < |s.threads| == |s1.threads|
    requires AtTop(s, t) ==> AtTop(s1, t)
    ensures ComesOut(s, s', t)
  {
    hide Answered, Kept, AtTop;
  }

  /** From every reachable state a thread inside that runs alone comes out, with one more answer. */
  lemma {:induction false} FinishesAlone(s: State, t: nat) returns (r: seq<State>)
    requires Inv(s) && t < |s.threads| && s.threads[t].pc != Out
    ensures Alone(r, t) && r[0] == s && ComesOut(s, r[|r| - 1], t)
    decreases Phase(s.threads[t].pc), Rounds(s, t), SlotsLeft(s, t)
  {
    hide *;
    var s' := Moves(s, t);
    StepInv(s, s', t);
    StepSame(s, s', t);
    StepReturns(s, s', t);
    AloneStart(s, s', t);
    if s'.threads[t].pc == Out {
      LastStep(s, s', t);
      r := [s, s'];
    } else {
      Approaches(s, s', t);
      NearerIs(s, s', t);
      if AtTop(s, t) { StaysAtTop(s, s', t); }
      var q := FinishesAlone(s', t);
      AloneSome(q, t);
      AloneMore(s, q, t);
      r := [s] + q;
      ComesOutBefore(s, s', q[|q| - 1], t);
    }
  }

  lemma NearerIs(s: State, s': State, t: nat)
    requires t < |s.threads| && t < |s'.threads| && Nearer(s, s', t)
    ensures var p, p' := Phase(s.threads[t].pc), Phase(s'.threads[t].pc);
            p' < p || (p' == p && (Rounds(s', t) < Rounds(s, t) || (Rounds(s', t) == Rounds(s, t) && SlotsLeft(s', t) < SlotsLeft(s, t))))
  {
  }

  /** A whole call of table_lookup without interference: one answer, and the thread's slot is in the top array. */
  lemma CallAlone(r: seq<State>, t: nat) returns (q: seq<State>)
    requires Run(r) && t < |r[|r| - 1].threads| && r[|r| - 1].threads[t].pc == Out
    ensures Alone(q, t) && q[0] == r[|r| - 1] && |q| > 1
    ensures var s, s' := q[0], q[|q| - 1];
            && t < |s'.threads| && s'.threads[t].pc == Out && Kept(s'.arrs, s'.root, t, s'.threads[t].local)
            && s'.answers == s.answers + [Answer(t, s'.threads[t].local, Answered(s.answers, t))]
  {
    hide *;
    RunInv(r);
    var s := r[|r| - 1];
    var s1 := Moves(s, t);
    StepInv(s, s1, t);
    Comes(s, s1, t);
    var p := FinishesAlone(s1, t);
    AloneSome(p, t);
    AloneMore(s, p, t);
    q := [s] + p;
    ComesOutGives(s1, p[|p| - 1], t);
  }

  lemma Comes(s: State, s': State, t: nat)
    requires Step(s, s', t) && s.threads[t].pc == Out
    ensures t < |s.threads| == |s'.threads| && s'.threads[t].pc == ReadRoot && s'.answers == s.answers && AtTop(s', t)
  {
  }

  lemma ComesOutGives(s: State, s': State, t: nat)
    requires ComesOut(s, s', t) && AtTop(s, t)
    ensures t < |s'.threads| && s'.threads[t].pc == Out && Kept(s'.arrs, s'.root, t, s'.threads[t].local)
    ensures s'.answers == s.answers + [Answer(t, s'.threads[t].local, Answered(s.answers, t))]
  {
  }

  lemma AloneSome(r: seq<State>, t: nat)
    requires Alone(r, t)
    ensures |r| >= 1
  {
  }

  // ----- how much larger an array is than the one below it -----

  /** An array that is about to be put on top has no more than the size its thread needs. */
  ghost predicate Tight(s: State)
  {
    forall t :: 0 <= t < |s.threads| ==> FitsTightly(s.threads[t])
  }

  predicate FitsTightly(th: Thread)
  {
    th.pc.Swap? ==> th.pc.lg >= 2 && (th.pc.lg > 2 ==> th.num > Pow2(th.pc.lg - 2))
  }

  /** The loop stops as soon as there is room. */
  lemma {:induction false} GrowsNoMore(c: nat, s: nat)
    requires s >= 1
    ensures GrowTo(c, s) >= s && (GrowTo(c, s) > s ==> c > Pow2(GrowTo(c, s) - 2))
    decreases if c > Pow2(s - 1) then c - Pow2(s - 1) else 0
  {
    if c > Pow2(s - 1) { GrowsNoMore(c, s + 1); }
  }

  lemma StepTight(s: State, s': State, t: nat)
    requires Inv(s) && Tight(s) && Step(s, s', t)
    ensures Tight(s')
  {
    hide Inv, FitsTightly;
    OthersStay(s, s', t);
    OwnTight(s, s', t);
  }

  lemma OthersStay(s: State, s': State, t: nat)
    requires Step(s, s', t)
    ensures t < |s.threads| == |s'.threads| && forall u :: 0 <= u < |s.threads| && u != t ==> s'.threads[u] == s.threads[u]
  {
    hide IsArr, SlotAt, Pow2, GrowTo, Blank;
  }

  lemma OwnTight(s: State, s': State, t: nat)
    requires Inv(s) && Tight(s) && Step(s, s', t)
    ensures t < |s'.threads| && FitsTightly(s'.threads[t])
  {
    hide *;
    OthersStay(s, s', t);
    if s.threads[t].pc.Check? { CheckTight(s, s', t); } else { SwapTight(s, s', t); }
  }

  lemma SwapTight(s: State, s': State, t: nat)
    requires Tight(s) && Step(s, s', t) && !s.threads[t].pc.Check?
    ensures t < |s'.threads| && FitsTightly(s'.threads[t])
  {
    hide IsArr, SlotAt, Pow2, GrowTo, Blank;
  }

  lemma CheckTight(s: State, s': State, t: nat)
    requires Inv(s) && Step(s, s', t) && s.threads[t].pc.Check?
    ensures t < |s'.threads| && FitsTightly(s'.threads[t])
  {
    hide Inv, Pow2, GrowTo;
    MyPlace(s, t);
    var lg := if s.root == NULL then 2 else s.arrs[s.root].lg;
    GrowsNoMore(s.threads[t].num, lg);
    if s.root != NULL { RootNeedsMore(s, t, lg); }
  }

  lemma RootNeedsMore(s: State, t: nat, lg: nat)
    requires Inv(s) && t < |s.threads| && 0 <= s.root < |s.arrs| && lg == s.arrs[s.root].lg
    ensures lg >= 2 && (s.threads[t].num > |s.arrs[s.root].slots| / 2 ==> GrowTo(s.threads[t].num, lg) > lg)
  {
    ArrSize(s.arrs, s.root, s.width, s.root);
    assert |s.arrs[s.root].slots| / 2 == Pow2(lg - 1);
    if s.threads[t].num > Pow2(lg - 1) { GrowsNoMore(s.threads[t].num, lg + 1); }
    hide Inv;
  }

  lemma {:induction false} RunTight(r: seq<State>)
    requires Run(r)
    ensures Inv(r[|r| - 1]) && Tight(r[|r| - 1])
  {
    hide *;
    RunInv(r);
    RunStarts(r);
    if |r| > 1 {
      var front := r[..|r| - 1];
      RunFront(r);
      RunTight(front);
      assert front[|front| - 1] == r[|r| - 2];
      var t := RunLast(r);
      StepTight(r[|r| - 2], r[|r| - 1], t);
    }
  }

  lemma RunStarts(r: seq<State>)
    requires Run(r)
    ensures r != [] && (|r| == 1 ==> Tight(r[0]))
  {
  }

  /** A new array is exactly twice as large as the one below it if and only if its thread's number fits in that one. */
  lemma DoublesExactly(r: seq<State>, i: nat, t: nat)
    requires Run(r) && i + 1 < |r| && Step(r[i], r[i + 1], t)
    requires r[i].root != NULL && |r[i + 1].arrs| > |r[i].arrs|
    ensures 0 <= r[i].root < |r[i].arrs| && 0 <= r[i + 1].root < |r[i + 1].arrs| && t < |r[i].threads|
    ensures |r[i + 1].arrs[r[i + 1].root].slots| == 2 * |r[i].arrs[r[i].root].slots|
            <==> r[i].threads[t].num <= |r[i].arrs[r[i].root].slots|
  {
    hide *;
    RunPrefix(r, i);
    assert r[..i + 1][i] == r[i];
    RunTight(r[..i + 1]);
    Installed(r[i], r[i + 1], t);
  }

  lemma Installed(s: State, s': State, t: nat)
    requires Inv(s) && Tight(s) && Step(s, s', t) && s.root != NULL && |s'.arrs| > |s.arrs|
    ensures 0 <= s.root < |s.arrs| && 0 <= s'.root < |s'.arrs| && t < |s.threads|
    ensures |s'.arrs[s'.root].slots| == 2 * |s.arrs[s.root].slots| <==> s.threads[t].num <= |s.arrs[s.root].slots|
  {
    hide *;
    Installing(s, s', t);
    MyPlace(s, t);
    SwapPlace(s.arrs, s.root, s.width, t, s.threads[t]);
    SizesDouble(s.arrs[s.root].lg, s.threads[t].pc.lg, s.threads[t].num);
  }

  /** The step that puts an array on top. */
  lemma Installing(s: State, s': State, t: nat)
    requires Tight(s) && Step(s, s', t) && |s'.arrs| > |s.arrs|
    ensures t < |s.threads| && s.threads[t].pc.Swap? && s.threads[t].pc.r == s.root && FitsTightly(s.threads[t])
    ensures s'.root == |s.arrs| == |s'.arrs| - 1 && |s'.arrs[s'.root].slots| == Pow2(s.threads[t].pc.lg)
    ensures s.threads[t].pc.lg > 2 ==> s.threads[t].num > Pow2(s.threads[t].pc.lg - 2)
  {
    hide SlotAt, Pow2, GrowTo;
  }

  lemma SwapPlace(arrs: seq<Arr>, root: int, width: nat, t: nat, th: Thread)
    requires Arrays(arrs, root, width) && PcOk(arrs, root, width, t, th) && th.pc.Swap? && th.pc.r == root != NULL
    ensures 0 <= root < |arrs| && 2 <= arrs[root].lg < th.pc.lg && th.num <= Pow2(th.pc.lg - 1) && |arrs[root].slots| == Pow2(arrs[root].lg)
  {
    hide HasKey, Pow2;
  }

  lemma SizesDouble(below: nat, lg: nat, num: nat)
    requires 2 <= below < lg && Pow2(lg - 2) < num <= Pow2(lg - 1)
    ensures Pow2(lg) == 2 * Pow2(below) <==> num <= Pow2(below)
  {
    if lg == below + 1 {
    } else {
      Pow2Grows(below, lg - 2);
    }
  }

  /** A run with one more step. */
  lemma Onward(r: seq<State>, s': State, t: nat)
    requires Run(r) && Step(r[|r| - 1], s', t)
    ensures Run(r + [s'])
  {
    var r' := r + [s'];
    forall i | 0 <= i < |r'| - 1 ensures Next(r'[i], r'[i + 1]) {
      if i < |r| - 1 { assert Next(r[i], r[i + 1]); }
    }
  }

  /** A thread comes in before there is any array, and gets its number. */
  lemma Enter(r: seq<State>, t: nat) returns (r': seq<State>)
    requires Run(r) && t < |r[|r| - 1].threads| && r[|r| - 1].root == NULL && r[|r| - 1].threads[t].pc == Out
    ensures Run(r')
    ensures var s := r[|r| - 1];
            r'[|r'| - 1] == s.(made := s.made + 1, count := s.count + 1, counted := s.counted + {t},
              threads := s.threads[t := s.threads[t].(pc := Check(s.made + 1), local := s.made + 1, num := s.count + 1)])
  {
    var s := r[|r| - 1];
    hide Run;
    var s1 := Go(s, t, ReadRoot);
    Onward(r, s1, t);
    var s2 := Go(s1, t, Chain(NULL));
    Onward(r + [s1], s2, t);
    var s3 := Go(s2, t, Create);
    Onward(r + [s1] + [s2], s3, t);
    var s4 := s3.(made := s.made + 1, threads := s3.threads[t := s3.threads[t].(pc := Count(s.made + 1), local := s.made + 1)]);
    Onward(r + [s1] + [s2] + [s3], s4, t);
    var s5 := s4.(count := s.count + 1, counted := s.counted + {t},
                  threads := s4.threads[t := s4.threads[t].(pc := Check(s.made + 1), num := s.count + 1)]);
    Onward(r + [s1] + [s2] + [s3] + [s4], s5, t);
    r' := r + [s1] + [s2] + [s3] + [s4] + [s5];
  }

  /** The first array, and the next one above it, by threads that have their numbers. */
  lemma InstallTwo(r: seq<State>, t: nat, u: nat) returns (r': seq<State>)
    requires Run(r)
    requires var s := r[|r| - 1];
             && t < |s.threads| && u < |s.threads| && t != u && s.root == NULL && s.arrs == [] && s.width >= 5
             && s.threads[t].pc.Check? && s.threads[t].num == 1 && s.threads[u].pc.Check? && s.threads[u].num == 5
    ensures Run(r') && |r'| >= 2
    ensures var a, b := r'[|r'| - 2], r'[|r'| - 1];
            && a.root == 0 && b.root == 1 && |a.arrs| == 1 && |b.arrs| == 2
            && |a.arrs[0].slots| == 4 && |b.arrs[1].slots| == 16
  {
    var s := r[|r| - 1];
    hide Run;
    var f, g := s.threads[t].pc.found, s.threads[u].pc.found;
    Sizes();
    var s1 := Go(s, t, Swap(f, GrowTo(1, 2), NULL));
    Onward(r, s1, t);
    var s2 := Go(s1, t, ReadTop(f, false)).(arrs := [Blank(2, NULL)], root := 0);
    assert s1.arrs + [Blank(2, NULL)] == [Blank(2, NULL)];
    Onward(r + [s1], s2, t);
    var s3 := Go(s2, u, Swap(g, GrowTo(5, 2), 0));
    Onward(r + [s1] + [s2], s3, u);
    var s4 := Go(s3, u, ReadTop(g, false)).(arrs := s3.arrs + [Blank(4, 0)], root := 1);
    Onward(r + [s1] + [s2] + [s3], s4, u);
    r' := r + [s1] + [s2] + [s3] + [s4];
  }

  lemma Sizes()
    ensures GrowTo(1, 2) == 2 && GrowTo(5, 2) == 4 && Pow2(2) == 4 && Pow2(4) == 16
  {
    assert Pow2(1) == 2 && Pow2(2) == 4 && Pow2(3) == 8;
    assert GrowTo(5, 4) == 4 && GrowTo(5, 3) == GrowTo(5, 4);
  }

  /** Five threads, the first and the fifth of which install the first two arrays: of 4 slots and of 16. */
  lemma Jumps() returns (r: seq<State>)
    ensures Run(r) && |r| >= 2
    ensures var a, b := r[|r| - 2], r[|r| - 1];
            && a.root == 0 && b.root == 1 && |a.arrs| == 1 && |b.arrs| == 2
            && |a.arrs[0].slots| == 4 && |b.arrs[1].slots| == 16
  {
    var th := Thread(Out, 0, 0, 0, NULL);
    var s := State([], NULL, 0, 0, [th, th, th, th, th], {}, [], 5);
    assert Pow2(3) == 8;
    r := [s];
    assert Run(r);
    hide Run;
    r := Enter(r, 0);
    r := Enter(r, 1);
    r := Enter(r, 2);
    r := Enter(r, 3);
    r := Enter(r, 4);
    r := InstallTwo(r, 0, 4);
  }
}
