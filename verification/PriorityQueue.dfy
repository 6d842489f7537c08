/**
The batch handler of tbb/concurrent_priority_queue.h.  `data` is a binary heap up to `mark`, followed by
pushed elements that are not in the heap yet.  A batch of pushes and pops is run by one thread; every
operation of it was submitted before the batch began, so any order of them is a fair one.
*/
module PriorityQueue {
  /** Elements are compared by priority only. */
  datatype Elem = Elem(prio: int, id: int)

  datatype Op = Push(elem: Elem) | Pop

  datatype Status = Wait | Pushed | Popped(elem: Elem) | Failed

  predicate Less(a: Elem, b: Elem)
  {
    a.prio < b.prio
  }

  // ----- the sequential queue -----

  /** One operation of a sequential history: which operation of the batch, and what it moved. */
  datatype Event = Pushing(op: nat, elem: Elem) | Popping(op: nat, elem: Elem) | Failing(op: nat)

  function Apply(q: multiset<Elem>, v: Event): multiset<Elem>
  {
    match v
    case Pushing(_, e) => q + multiset{e}
    case Popping(_, e) => q - multiset{e}
    case Failing(_) => q
  }

  ghost predicate IsMax(q: multiset<Elem>, e: Elem)
  {
    e in q && forall x <- q :: !Less(e, x)
  }

  /** A pop takes an element that none exceeds; it fails only on an empty queue. */
  ghost predicate Allowed(q: multiset<Elem>, v: Event)
  {
    match v
    case Pushing(_, _) => true
    case Popping(_, e) => IsMax(q, e)
    case Failing(_) => q == multiset{}
  }

  ghost predicate Legal(q: multiset<Elem>, h: seq<Event>)
  {
    h == [] || (Legal(q, h[..|h| - 1]) && Allowed(After(q, h[..|h| - 1]), h[|h| - 1]))
  }

  function After(q: multiset<Elem>, h: seq<Event>): multiset<Elem>
  {
    if h == [] then q else Apply(After(q, h[..|h| - 1]), h[|h| - 1])
  }

  lemma Extend(q: multiset<Elem>, h: seq<Event>, v: Event)
    ensures After(q, h + [v]) == Apply(After(q, h), v)
    ensures Legal(q, h) && Allowed(After(q, h), v) ==> Legal(q, h + [v])
  {
    assert (h + [v])[..|h|] == h;
  }

  lemma Retract(q: multiset<Elem>, h: seq<Event>)
    requires Legal(q, h) && h != []
    ensures Legal(q, h[..|h| - 1]) && Allowed(After(q, h[..|h| - 1]), h[|h| - 1])
    ensures After(q, h) == Apply(After(q, h[..|h| - 1]), h[|h| - 1])
  {
  }

  /** Histories of batches that follow one another form one history. */
  lemma {:induction false} Chain(q: multiset<Elem>, h: seq<Event>, h': seq<Event>)
    requires Legal(q, h) && Legal(After(q, h), h')
    ensures Legal(q, h + h') && After(q, h + h') == After(After(q, h), h')
  {
    if h' == [] {
      assert h + h' == h;
    } else {
      var front, last := h'[..|h'| - 1], h'[|h'| - 1];
      hide Apply, Allowed, Legal, After;
      Retract(After(q, h), h');
      Chain(q, h, front);
      Extend(q, h + front, last);
      Regroup(h, h');
    }
  }

  lemma Regroup(h: seq<Event>, h': seq<Event>)
    requires h' != []
    ensures h + h' == h + h'[..|h'| - 1] + [h'[|h'| - 1]]
  {
  }

  function PushedBy(h: seq<Event>): multiset<Elem>
  {
    if h == [] then multiset{}
    else
      var rest := PushedBy(h[..|h| - 1]);
      match h[|h| - 1] case Pushing(_, e) => rest + multiset{e} case _ => rest
  }

  function PoppedBy(h: seq<Event>): multiset<Elem>
  {
    if h == [] then multiset{}
    else
      var rest := PoppedBy(h[..|h| - 1]);
      match h[|h| - 1] case Popping(_, e) => rest + multiset{e} case _ => rest
  }

  /** No element is lost or made up. */
  lemma {:induction false} Conserved(q: multiset<Elem>, h: seq<Event>)
    requires Legal(q, h)
    ensures After(q, h) + PoppedBy(h) == q + PushedBy(h)
  {
    if h != [] {
      Conserved(q, h[..|h| - 1]);
      ConservedStep(After(q, h[..|h| - 1]), PoppedBy(h[..|h| - 1]), q, PushedBy(h[..|h| - 1]), h[|h| - 1]);
    }
  }

  lemma ConservedStep(a: multiset<Elem>, out: multiset<Elem>, q: multiset<Elem>, into: multiset<Elem>, v: Event)
    requires a + out == q + into && Allowed(a, v)
    ensures v.Pushing? ==> Apply(a, v) + out == q + (into + multiset{v.elem})
    ensures v.Popping? ==> Apply(a, v) + (out + multiset{v.elem}) == q + into
  {
    forall x ensures a[x] + out[x] == q[x] + into[x] {
      assert (a + out)[x] == (q + into)[x];
    }
  }

  // ----- heaps -----

  function Parent(k: nat): nat
    requires k > 0
  {
    (k - 1) / 2
  }

  ghost predicate IsHeap(d: seq<Elem>, m: nat)
  {
    m <= |d| && forall k :: 0 < k < m ==> !Less(d[Parent(k)], d[k])
  }

  /** What counts is the priority, and a maximum is an element of the highest one. */
  lemma MaxPriority(q: multiset<Elem>, e: Elem)
    ensures IsMax(q, e) <==> e in q && forall x <- q :: x.prio <= e.prio
  {
  }

  lemma {:induction false} BelowTop(d: seq<Elem>, m: nat, k: nat)
    requires IsHeap(d, m) && k < m
    ensures !Less(d[0], d[k])
  {
    if k > 0 {
      BelowTop(d, m, Parent(k));
    }
  }

  lemma TopIsMax(d: seq<Elem>, m: nat)
    requires IsHeap(d, m) && m > 0
    ensures IsMax(multiset(d[..m]), d[0])
  {
    forall x <- multiset(d[..m]) ensures !Less(d[0], x) {
      var k :| 0 <= k < m && d[..m][k] == x;
      BelowTop(d, m, k);
    }
    assert d[..m][0] == d[0];
  }

  /** Overwriting one place exchanges one element. */
  lemma Exchange<T>(d: seq<T>, i: nat, e: T)
    requires i < |d|
    ensures multiset(d[i := e]) + multiset{d[i]} == multiset(d) + multiset{e}
  {
    assert d == d[..i] + [d[i]] + d[i + 1..];
    assert d[i := e] == d[..i] + [e] + d[i + 1..];
  }

  lemma Cancel<T>(a: multiset<T>, b: multiset<T>, e: T)
    requires a + multiset{e} == b + multiset{e}
    ensures a == b
  {
    assert a == a + multiset{e} - multiset{e};
    assert b == b + multiset{e} - multiset{e};
  }

  /** Sequences with the same elements and the same tail have the same elements before it. */
  lemma SamePrefix(a: seq<Elem>, b: seq<Elem>, n: nat)
    requires n <= |a| == |b| && multiset(a) == multiset(b) && a[n..] == b[n..]
    ensures multiset(a[..n]) == multiset(b[..n])
  {
    assert a == a[..n] + a[n..] && b == b[..n] + b[n..];
    forall x ensures multiset(a[..n])[x] == multiset(b[..n])[x] {
      assert multiset(a)[x] == multiset(a[..n])[x] + multiset(a[n..])[x];
      assert multiset(b)[x] == multiset(b[..n])[x] + multiset(b[n..])[x];
    }
  }

  // ----- a batch and its history -----

  function OpsOf(h: seq<Event>): (s: seq<nat>)
    ensures |s| == |h| && forall j :: 0 <= j < |h| ==> s[j] == h[j].op
  {
    seq(|h|, j requires 0 <= j < |h| => h[j].op)
  }

  /** The operations 0..n, each once. */
  function Range(n: nat): (r: multiset<nat>)
    ensures forall i: nat :: r[i] == if i < n then 1 else 0
  {
    if n == 0 then multiset{} else Range(n - 1) + multiset{n - 1}
  }

  /** The event tells what the operation asked for and what its caller was told. */
  predicate Fits(ops: seq<Op>, results: seq<Status>, v: Event)
  {
    && v.op < |ops| == |results|
    && match v
       case Pushing(i, e) => ops[i] == Push(e) && results[i] == Pushed
       case Popping(i, e) => ops[i] == Pop && results[i] == Popped(e)
       case Failing(i) => ops[i] == Pop && results[i] == Failed
  }

  /** The history has every operation of the batch exactly once, with its real outcome. */
  ghost predicate Serves(ops: seq<Op>, results: seq<Status>, h: seq<Event>)
  {
    multiset(OpsOf(h)) == Range(|ops|) && forall j :: 0 <= j < |h| ==> Fits(ops, results, h[j])
  }

  /** Of the first n operations each is in the history, or its element waits beyond the mark, or it is a postponed pop. */
  ghost predicate Booked(ops: seq<Op>, results: seq<Status>, n: nat, pops: seq<nat>, h: seq<Event>, own: seq<nat>)
  {
    && |results| == |ops| && n <= |ops|
    && multiset(OpsOf(h)) + multiset(own) + multiset(pops) == Range(n)
    && (forall j :: 0 <= j < |h| ==> Fits(ops, results, h[j]))
    && (forall k :: 0 <= k < |own| ==> own[k] < |ops| && ops[own[k]].Push? && results[own[k]] == Pushed)
    && (forall k :: 0 <= k < |pops| ==> pops[k] < |ops| && ops[pops[k]].Pop?)
  }

  /** The heap is the sequential queue after the history, and the waiting elements are the ones being pushed. */
  ghost predicate Reflects(q: multiset<Elem>, ops: seq<Op>, d: seq<Elem>, m: nat, h: seq<Event>, own: seq<nat>)
  {
    && IsHeap(d, m) && |own| == |d| - m
    && (forall k :: 0 <= k < |own| ==> own[k] < |ops| && ops[own[k]] == Push(d[m + k]))
    && Legal(q, h) && After(q, h) == multiset(d[..m])
  }

  lemma OpsOfSnoc(h: seq<Event>, v: Event)
    ensures OpsOf(h + [v]) == OpsOf(h) + [v.op]
  {
  }

  /** An operation accounted for in one place is in no other. */
  lemma Apart(h: seq<Event>, own: seq<nat>, pops: seq<nat>, n: nat, i: nat)
    requires multiset(OpsOf(h)) + multiset(own) + multiset(pops) == Range(n)
    requires i >= n || i in pops
    ensures i !in own && forall j :: 0 <= j < |h| ==> h[j].op != i
  {
    var all := multiset(OpsOf(h)) + multiset(own) + multiset(pops);
    assert all[i] == multiset(OpsOf(h))[i] + multiset(own)[i] + multiset(pops)[i] <= 1;
    assert i in pops ==> i in multiset(pops);
    assert i in own ==> i in multiset(own);
    assert forall j :: 0 <= j < |h| && h[j].op == i ==> OpsOf(h)[j] in multiset(OpsOf(h));
  }

  /** A push is told of its success and waits. */
  lemma BookPush(ops: seq<Op>, results: seq<Status>, n: nat, pops: seq<nat>, h: seq<Event>, own: seq<nat>)
    requires Booked(ops, results, n, pops, h, own) && n < |ops| && ops[n].Push?
    ensures Booked(ops, results[n := Pushed], n + 1, pops, h, own + [n])
  {
    Apart(h, own, pops, n, n);
  }

  /** A pop is postponed. */
  lemma BookLater(ops: seq<Op>, results: seq<Status>, n: nat, pops: seq<nat>, h: seq<Event>, own: seq<nat>)
    requires Booked(ops, results, n, pops, h, own) && n < |ops| && ops[n].Pop?
    ensures Booked(ops, results, n + 1, [n] + pops, h, own)
  {
  }

  /** Moving a waiting push, a postponed pop, or one of each into the history keeps the books. */
  lemma CountMoves(n: nat, h: seq<Event>, own: seq<nat>, pops: seq<nat>, v: Event, w: Event)
    requires multiset(OpsOf(h)) + multiset(own) + multiset(pops) == Range(n)
    ensures own != [] && v.op == own[|own| - 1] ==>
              multiset(OpsOf(h + [v])) + multiset(own[..|own| - 1]) + multiset(pops) == Range(n)
    ensures pops != [] && w.op == pops[0] ==> multiset(OpsOf(h + [w])) + multiset(own) + multiset(pops[1..]) == Range(n)
  {
    OpsOfSnoc(h, v);
    OpsOfSnoc(h, w);
    if own != [] { assert own == own[..|own| - 1] + [own[|own| - 1]]; }
    if pops != [] { assert pops == [pops[0]] + pops[1..]; }
  }

  lemma FitsSnoc(ops: seq<Op>, results: seq<Status>, h: seq<Event>, v: Event)
    requires (forall j :: 0 <= j < |h| ==> Fits(ops, results, h[j])) && Fits(ops, results, v)
    ensures forall j :: 0 <= j < |h + [v]| ==> Fits(ops, results, (h + [v])[j])
  {
  }

  /** The last waiting push takes its place in the history. */
  lemma BookPushed(ops: seq<Op>, results: seq<Status>, n: nat, pops: seq<nat>, h: seq<Event>, own: seq<nat>, e: Elem)
    requires Booked(ops, results, n, pops, h, own) && own != []
    requires ops[own[|own| - 1]] == Push(e)
    ensures Booked(ops, results, n, pops, h + [Pushing(own[|own| - 1], e)], own[..|own| - 1])
  {
    var v := Pushing(own[|own| - 1], e);
    CountMoves(n, h, own, pops, v, v);
    FitsSnoc(ops, results, h, v);
    hide OpsOf, Range, Fits;
  }

  /** The first postponed pop takes its place in the history, with its result. */
  lemma BookPop(ops: seq<Op>, results: seq<Status>, n: nat, pops: seq<nat>, h: seq<Event>, own: seq<nat>, w: Event, st: Status)
    requires Booked(ops, results, n, pops, h, own) && pops != [] && w.op == pops[0]
    requires (w.Failing? && st == Failed) || (w.Popping? && st == Popped(w.elem))
    ensures pops[0] < |results| && Booked(ops, results[pops[0] := st], n, pops[1..], h + [w], own)
  {
    CountMoves(n, h, own, pops, w, w);
    Apart(h, own, pops, n, pops[0]);
    var results' := results[pops[0] := st];
    FitsSnoc(ops, results', h, w);
    hide OpsOf, Range, Fits;
  }

  // ----- the first pass on values -----

  /** The elements, the results so far, and the postponed pops, last one first. */
  datatype Pass = Pass(data: seq<Elem>, results: seq<Status>, pops: seq<nat>)

  predicate Beats(d: seq<Elem>, m: nat)
  {
    m < |d| && Less(d[0], d[|d| - 1])
  }

  lemma NoBeat(d: seq<Elem>, m: nat)
    ensures d == [] ==> !Beats(d, m)
  {
  }

  function Turn(s: Pass, n: nat, op: Op, m: nat): Pass
    requires n < |s.results|
  {
    match op
    case Push(e) => Pass(s.data + [e], s.results[n := Pushed], s.pops)
    case Pop =>
      if Beats(s.data, m) then Pass(s.data[..|s.data| - 1], s.results[n := Popped(s.data[|s.data| - 1])], s.pops)
      else s.(pops := [n] + s.pops)
  }

  lemma TurnIs(s: Pass, n: nat, op: Op, m: nat)
    requires n < |s.results|
    ensures op.Push? ==> Turn(s, n, op, m) == Pass(s.data + [op.elem], s.results[n := Pushed], s.pops)
    ensures op.Pop? && !Beats(s.data, m) ==> Turn(s, n, op, m) == s.(pops := [n] + s.pops)
    ensures op.Pop? && Beats(s.data, m) ==>
              s.data != [] && Turn(s, n, op, m) == Pass(s.data[..|s.data| - 1], s.results[n := Popped(s.data[|s.data| - 1])], s.pops)
  {
  }

  /** What the first pass makes of a heap d and the first n operations. */
  function Passed(ops: seq<Op>, n: nat, d: seq<Elem>): (s: Pass)
    requires n <= |ops|
    ensures |s.results| == |ops|
  {
    if n == 0 then Pass(d, seq(|ops|, _ => Wait), []) else Turn(Passed(ops, n - 1, d), n - 1, ops[n - 1], |d|)
  }

  /** How a pop of the first n operations stands. */
  ghost predicate PopOk(ops: seq<Op>, d: seq<Elem>, s: Pass, i: nat)
    requires i < |s.results|
  {
    || (i in s.pops && s.results[i] == Wait)
    || (i !in s.pops && s.results[i].Popped? && PushedBefore(ops, i, s.results[i].elem)
        && (d != [] ==> Less(d[0], s.results[i].elem)))
  }

  ghost predicate FirstOk(ops: seq<Op>, n: nat, d: seq<Elem>, s: Pass)
  {
    && n <= |ops| == |s.results| && d <= s.data
    && (forall k :: |d| <= k < |s.data| ==> PushedBefore(ops, n, s.data[k]))
    && (forall i :: 0 <= i < n && ops[i].Push? ==> s.results[i] == Pushed)
    && (forall i :: 0 <= i < n && ops[i].Pop? ==> PopOk(ops, d, s, i))
    && (forall i :: n <= i < |ops| ==> s.results[i] == Wait)
    && (forall k :: 0 <= k < |s.pops| ==> s.pops[k] < n && ops[s.pops[k]].Pop?)
    && (forall j, k :: 0 <= j < k < |s.pops| ==> s.pops[j] > s.pops[k])
  }

  lemma MoreBefore(ops: seq<Op>, n: nat, e: Elem)
    requires PushedBefore(ops, n, e)
    ensures PushedBefore(ops, n + 1, e)
  {
  }

  lemma PushOk(ops: seq<Op>, n: nat, d: seq<Elem>, s: Pass)
    requires FirstOk(ops, n, d, s) && n < |ops| && ops[n].Push?
    ensures FirstOk(ops, n + 1, d, Turn(s, n, ops[n], |d|))
  {
    var s' := Turn(s, n, ops[n], |d|);
    assert PushedBefore(ops, n + 1, ops[n].elem);
    forall k | |d| <= k < |s'.data| ensures PushedBefore(ops, n + 1, s'.data[k]) {
      if k < |s.data| { MoreBefore(ops, n, s.data[k]); }
    }
    forall i | 0 <= i < n && ops[i].Pop? ensures PopOk(ops, d, s', i) { assert PopOk(ops, d, s, i); }
    hide PopOk, PushedBefore;
  }

  lemma BeatOk(ops: seq<Op>, n: nat, d: seq<Elem>, s: Pass)
    requires FirstOk(ops, n, d, s) && n < |ops| && ops[n].Pop? && Beats(s.data, |d|)
    ensures FirstOk(ops, n + 1, d, Turn(s, n, ops[n], |d|))
  {
    var s' := Turn(s, n, ops[n], |d|);
    forall k | |d| <= k < |s'.data| ensures PushedBefore(ops, n + 1, s'.data[k]) {
      assert s'.data[k] == s.data[k];
      MoreBefore(ops, n, s.data[k]);
    }
    assert PushedBefore(ops, n, s.data[|s.data| - 1]);
    assert d != [] ==> d[0] == s.data[0];
    assert n !in s'.pops;
    assert PopOk(ops, d, s', n);
    forall i | 0 <= i < n && ops[i].Pop? ensures PopOk(ops, d, s', i) { assert PopOk(ops, d, s, i); }
    hide PopOk, PushedBefore, Less;
  }

  lemma LaterOk(ops: seq<Op>, n: nat, d: seq<Elem>, s: Pass)
    requires FirstOk(ops, n, d, s) && n < |ops| && ops[n].Pop? && !Beats(s.data, |d|)
    ensures FirstOk(ops, n + 1, d, Turn(s, n, ops[n], |d|))
  {
    var s' := Turn(s, n, ops[n], |d|);
    forall k | |d| <= k < |s'.data| ensures PushedBefore(ops, n + 1, s'.data[k]) { MoreBefore(ops, n, s.data[k]); }
    assert s'.pops[0] == n;
    forall i | 0 <= i < n && ops[i].Pop? ensures PopOk(ops, d, s', i) {
      assert PopOk(ops, d, s, i);
      assert i in s'.pops <==> i in s.pops;
    }
    hide PopOk, PushedBefore, Beats;
  }

  /**
  The first pass answers every push, and a pop only with an element that the same batch pushed before it and
  that beats the top of the old heap; the other pops wait, the latest first, and the old heap is as it was.
  */
  lemma {:induction false} FirstAnswers(ops: seq<Op>, n: nat, d: seq<Elem>)
    requires n <= |ops|
    ensures FirstOk(ops, n, d, Passed(ops, n, d))
  {
    if n > 0 {
      FirstAnswers(ops, n - 1, d);
      var s := Passed(ops, n - 1, d);
      hide FirstOk, Turn, Beats;
      if ops[n - 1].Push? { PushOk(ops, n - 1, d, s); }
      else if Beats(s.data, |d|) { BeatOk(ops, n - 1, d, s); }
      else { LaterOk(ops, n - 1, d, s); }
    }
  }

  lemma PassedStep(ops: seq<Op>, n: nat, d: seq<Elem>)
    requires n < |ops|
    ensures Passed(ops, n + 1, d) == Turn(Passed(ops, n, d), n, ops[n], |d|)
  {
  }

  /** One of the first n operations pushes the element. */
  ghost predicate PushedBefore(ops: seq<Op>, n: nat, e: Elem)
  {
    exists j :: 0 <= j < n && j < |ops| && ops[j] == Push(e)
  }

  // ----- the class -----

  class Queue {
    var data: seq<Elem>
    var mark: nat
    var mySize: nat

    ghost predicate Valid()
      reads this
    {
      mark == |data| == mySize && IsHeap(data, mark)
    }

    constructor ()
      ensures Valid() && data == []
    {
      data, mark, mySize := [], 0, 0;
    }

    /** The heap holds all but `place`, whose home is the hole at cur. */
    static ghost predicate Rising(d: seq<Elem>, m: nat, cur: nat, place: Elem)
    {
      && cur <= m < |d|
      && (forall k :: 0 < k <= m && k != cur && Parent(k) != cur ==> !Less(d[Parent(k)], d[k]))
      && (forall k :: 0 < k <= m && Parent(k) == cur ==> !Less(place, d[k]))
      && (cur > 0 ==> forall k :: 0 < k <= m && Parent(k) == cur ==> !Less(d[Parent(cur)], d[k]))
    }

    /** Where a rise that began with d0 stands. */
    static ghost predicate RiseInv(d0: seq<Elem>, d: seq<Elem>, m: nat, cur: nat, place: Elem)
    {
      && Rising(d, m, cur, place) && |d| == |d0|
      && multiset(d[cur := place]) == multiset(d0) && d[m + 1..] == d0[m + 1..]
    }

    /** Move data[mark] up to its place. */
    method SiftUp()
      requires 0 < mark < |data| && IsHeap(data, mark)
      modifies `data
      ensures Risen(old(data), data, mark)
    {
      ghost var d0 := data;
      var cur := mark;
      var place := data[mark];
      assert data[cur := place] == data;
      assert RiseInv(d0, data, mark, cur, place);
      hide *;
      while cur > 0 && Less(data[Parent(cur)], place)
        invariant cur < |data| && RiseInv(d0, data, mark, cur, place)
        decreases cur
      {
        RiseStep(d0, data, mark, cur, place);
        var parent := Parent(cur);
        data := data[cur := data[parent]];
        cur := parent;
      }
      RiseEnd(d0, data, mark, cur, place);
      data := data[cur := place];
    }

    static lemma RiseHeap(d: seq<Elem>, m: nat, cur: nat, place: Elem)
      requires Rising(d, m, cur, place) && (cur > 0 ==> !Less(d[Parent(cur)], place))
      ensures IsHeap(d[cur := place], m + 1)
    {
    }

    static lemma RiseRest(d0: seq<Elem>, d: seq<Elem>, m: nat, cur: nat, place: Elem)
      requires cur <= m < |d| == |d0| && multiset(d[cur := place]) == multiset(d0) && d[m + 1..] == d0[m + 1..]
      ensures multiset(d[cur := place][..m + 1]) == multiset(d0[..m + 1])
    {
      var d' := d[cur := place];
      assert d'[m + 1..] == d[m + 1..];
      SamePrefix(d', d0, m + 1);
    }

    static lemma RiseEnd(d0: seq<Elem>, d: seq<Elem>, m: nat, cur: nat, place: Elem)
      requires RiseInv(d0, d, m, cur, place) && (cur > 0 ==> cur < |d| && !Less(d[Parent(cur)], place))
      ensures Risen(d0, d[cur := place], m)
    {
      RiseHeap(d, m, cur, place);
      RiseRest(d0, d, m, cur, place);
      assert d[cur := place][m + 1..] == d[m + 1..];
    }

    static ghost predicate Risen(d0: seq<Elem>, d: seq<Elem>, m: nat)
    {
      && |d| == |d0| && m < |d| && IsHeap(d, m + 1)
      && multiset(d[..m + 1]) == multiset(d0[..m + 1]) && d[m + 1..] == d0[m + 1..]
    }

    static lemma RiseStep(d0: seq<Elem>, d: seq<Elem>, m: nat, cur: nat, place: Elem)
      requires RiseInv(d0, d, m, cur, place) && 0 < cur < |d| && Less(d[Parent(cur)], place)
      ensures Parent(cur) < cur && RiseInv(d0, d[cur := d[Parent(cur)]], m, Parent(cur), place)
    {
      var p := Parent(cur);
      var d' := d[cur := d[p]];
      assert d'[p := place] == d[cur := place][cur := d[p]][p := place];
      Exchange(d[cur := place], cur, d[p]);
      Exchange(d', p, place);
      assert d'[m + 1..] == d[m + 1..];
      assert multiset(d'[p := place]) + multiset{d[p]} == multiset(d[cur := place]) + multiset{d[p]};
      Cancel(multiset(d'[p := place]), multiset(d[cur := place]), d[p]);
    }

    /** heapify: the elements beyond mark go into the heap one by one. */
    method Heapify()
      requires mark <= |data| && IsHeap(data, mark)
      modifies `data, `mark
      ensures mark == |data| == old(|data|) && IsHeap(data, mark) && multiset(data) == multiset(old(data))
    {
      if mark == 0 && |data| > 0 {
        mark := 1;
      }
      while mark < |data|
        invariant mark <= |data| == old(|data|) && IsHeap(data, mark) && multiset(data) == multiset(old(data))
        invariant |data| > 0 ==> mark > 0
        decreases |data| - mark
      {
        ghost var d := data;
        SiftUp();
        RisenSame(d, data, mark);
        mark := mark + 1;
      }
    }

    static lemma RisenSame(d0: seq<Elem>, d: seq<Elem>, m: nat)
      requires Risen(d0, d, m)
      ensures multiset(d) == multiset(d0)
    {
      assert d == d[..m + 1] + d[m + 1..] && d0 == d0[..m + 1] + d0[m + 1..];
      hide IsHeap;
    }

    /** The size of the heap once the top is taken out. */
    static function Kept(d: seq<Elem>, m: nat): nat
      requires 0 < |d| && m <= |d|
    {
      if m < |d| then m else |d| - 1
    }

    /** d is a heap of n places but for the element at cur, which may be too small. */
    static ghost predicate Falling(d: seq<Elem>, n: nat, cur: nat)
    {
      && cur < n <= |d|
      && (forall k :: 0 < k < n && Parent(k) != cur ==> !Less(d[Parent(k)], d[k]))
      && (cur > 0 ==> forall k :: 0 < k < n && Parent(k) == cur ==> !Less(d[Parent(cur)], d[k]))
    }

    /** The elements of the first n places are d0's, with the top replaced by the last. */
    static ghost predicate TopReplaced(d0: seq<Elem>, d: seq<Elem>, n: nat)
    {
      n < |d0| && n <= |d| && multiset(d[..n]) + multiset{d0[0]} == multiset(d0[..n]) + multiset{d0[|d0| - 1]}
    }

    static ghost predicate SameFrom(d0: seq<Elem>, d: seq<Elem>, n: nat)
    {
      n <= |d| == |d0| && forall k :: n <= k < |d| ==> d[k] == d0[k]
    }

    /** The loop of reheap: the last element belongs into the hole at cur, unless it is back where it came from. */
    static ghost predicate Sinking(d0: seq<Elem>, d: seq<Elem>, m: nat, cur: nat)
    {
      && 0 < m <= |d0| == |d| && SameFrom(d0, d, Kept(d0, m))
      && var last, n := d0[|d0| - 1], Kept(d0, m);
      if cur < n then Falling(d[cur := last], n, cur) && TopReplaced(d0, d[cur := last], n)
      else cur == |d0| - 1 == n && IsHeap(d, n) && TopReplaced(d0, d, n)
    }

    static lemma SinkStart(d: seq<Elem>, m: nat)
      requires 0 < m <= |d| && IsHeap(d, m)
      ensures Sinking(d, d, m, 0)
    {
      var n := Kept(d, m);
      if n > 0 {
        Exchange(d[..n], 0, d[|d| - 1]);
        assert d[0 := d[|d| - 1]][..n] == d[..n][0 := d[|d| - 1]];
      } else {
        assert d[..n] == [];
      }
    }

    /** The larger child of cur. */
    static predicate LargerChild(d: seq<Elem>, m: nat, cur: nat, target: nat)
    {
      && 2 * cur + 1 <= target <= 2 * cur + 2 && target < m <= |d|
      && (target == 2 * cur + 1 && 2 * cur + 2 < m ==> !Less(d[2 * cur + 1], d[2 * cur + 2]))
      && (target == 2 * cur + 2 ==> Less(d[2 * cur + 1], d[2 * cur + 2]))
    }

    static lemma FallStep(d: seq<Elem>, n: nat, m: nat, cur: nat, target: nat, last: Elem)
      requires cur < |d| && Falling(d[cur := last], n, cur) && LargerChild(d, m, cur, target) && target < n <= m && !Less(d[target], last)
      ensures Falling(d[cur := d[target]][target := last], n, target)
    {
      var v, v' := d[cur := last], d[cur := d[target]][target := last];
      assert Parent(target) == cur;
      forall k: nat | 0 < k < n && Parent(k) != target ensures !Less(v'[Parent(k)], v'[k]) {
        FallEdge(d, n, m, cur, target, last, k);
      }
      forall k: nat | 0 < k < n && Parent(k) == target ensures !Less(v'[Parent(target)], v'[k]) {
        assert k != target && k != cur && !Less(v[target], v[k]);
      }
    }

    static lemma FallEdge(d: seq<Elem>, n: nat, m: nat, cur: nat, target: nat, last: Elem, k: nat)
      requires cur < |d| && Falling(d[cur := last], n, cur) && LargerChild(d, m, cur, target) && target < n <= m && !Less(d[target], last)
      requires 0 < k < n && Parent(k) != target
      ensures var v' := d[cur := d[target]][target := last]; !Less(v'[Parent(k)], v'[k])
    {
      var v := d[cur := last];
      if Parent(k) == cur {
        assert k == 2 * cur + 1 || k == 2 * cur + 2;
      } else if k == cur {
        assert Parent(target) == cur && !Less(v[Parent(cur)], v[target]);
      } else {
        assert !Less(v[Parent(k)], v[k]);
      }
    }

    static lemma SwapStep(d0: seq<Elem>, d: seq<Elem>, n: nat, cur: nat, target: nat, last: Elem)
      requires cur < target < n <= |d| && TopReplaced(d0, d[cur := last], n)
      ensures TopReplaced(d0, d[cur := d[target]][target := last], n)
    {
      var a, b := d[cur := last][..n], d[cur := d[target]][target := last][..n];
      assert b == a[cur := d[target]][target := last];
      Exchange(a, cur, d[target]);
      Exchange(a[cur := d[target]], target, last);
      SameAfterSwap(multiset(a), multiset(a[cur := d[target]]), multiset(b), last, d[target]);
    }

    static lemma SameAfterSwap(a: multiset<Elem>, x: multiset<Elem>, b: multiset<Elem>, e: Elem, f: Elem)
      requires x + multiset{e} == a + multiset{f} && b + multiset{f} == x + multiset{e}
      ensures a == b
    {
      Cancel(a, b, f);
    }

    /** The hole moves down to the larger child. */
    static lemma SinkStep(d0: seq<Elem>, d: seq<Elem>, m: nat, cur: nat, target: nat)
      requires Sinking(d0, d, m, cur) && LargerChild(d, m, cur, target) && !Less(d[target], d[|d| - 1])
      ensures cur < target && Sinking(d0, d[cur := d[target]], m, target)
    {
      var n, last := Kept(d0, m), d0[|d0| - 1];
      var d' := d[cur := d[target]];
      assert cur < n;
      if target < n {
        FallStep(d, n, m, cur, target, last);
        SwapStep(d0, d, n, cur, target, last);
      } else {
        assert d' == d[cur := last];
        FallEnd(d, n, m, cur, last);
      }
    }

    /** The last element may stay at cur. */
    static lemma FallEnd(d: seq<Elem>, n: nat, m: nat, cur: nat, last: Elem)
      requires cur < |d| && Falling(d[cur := last], n, cur) && n <= m <= |d|
      requires 2 * cur + 1 < n ==> !Less(last, d[2 * cur + 1])
      requires 2 * cur + 2 < n ==> !Less(last, d[2 * cur + 2])
      ensures IsHeap(d[cur := last], n)
    {
      assert forall k :: 0 < k && Parent(k) == cur ==> k == 2 * cur + 1 || k == 2 * cur + 2;
    }

    /** Both children of cur are at most the last element. */
    static predicate Settled(d: seq<Elem>, m: nat, cur: nat)
      requires m <= |d| && |d| > 0
    {
      && (2 * cur + 1 < m ==> !Less(d[|d| - 1], d[2 * cur + 1]))
      && (2 * cur + 2 < m ==> !Less(d[|d| - 1], d[2 * cur + 2]))
    }

    /** d is what reheap leaves of d0: no top, and the last element in the heap (or at the front, if there is no heap). */
    static ghost predicate Reheaped(d0: seq<Elem>, d: seq<Elem>, m: nat)
    {
      && 0 < |d0| && m <= |d0| && |d| == |d0| - 1
      && if m == 0 then d == d0[0 := d0[|d0| - 1]][..|d0| - 1]
         else IsHeap(d, Kept(d0, m)) && TopReplaced(d0, d, Kept(d0, m)) && d[Kept(d0, m)..] == d0[Kept(d0, m)..|d0| - 1]
    }

    /** The last element goes to place cur, and its own place goes away. */
    static function LastMoved(d: seq<Elem>, cur: nat): seq<Elem>
      requires cur < |d|
    {
      (if cur != |d| - 1 then d[cur := d[|d| - 1]] else d)[..|d| - 1]
    }

    static lemma SinkEnd(d0: seq<Elem>, d: seq<Elem>, m: nat, cur: nat)
      requires Sinking(d0, d, m, cur) && Settled(d, m, cur)
      ensures Reheaped(d0, LastMoved(d, cur), m)
    {
      if cur < Kept(d0, m) {
        SinkEndHole(d0, d, m, cur);
      } else {
        hide IsHeap, TopReplaced, Falling;
        CutLast(d0, d, m);
      }
    }

    static lemma SinkEndHole(d0: seq<Elem>, d: seq<Elem>, m: nat, cur: nat)
      requires Sinking(d0, d, m, cur) && Settled(d, m, cur) && cur < Kept(d0, m)
      ensures cur < |d| && Reheaped(d0, LastMoved(d, cur), m)
    {
      var e := HoleHeap(d0, d, m, cur);
      hide *;
      CutLast(d0, e, m);
    }

    static lemma HoleHeap(d0: seq<Elem>, d: seq<Elem>, m: nat, cur: nat) returns (e: seq<Elem>)
      requires Sinking(d0, d, m, cur) && Settled(d, m, cur) && cur < Kept(d0, m)
      ensures cur < |d| && 0 < m <= |d0| && e != [] && LastMoved(d, cur) == e[..|e| - 1]
      ensures SameFrom(d0, e, Kept(d0, m)) && IsHeap(e, Kept(d0, m)) && TopReplaced(d0, e, Kept(d0, m))
    {
      e := d[cur := d[|d| - 1]];
      FallEnd(d, Kept(d0, m), m, cur, d[|d| - 1]);
      hide IsHeap, TopReplaced, Falling;
    }

    static lemma CutLast(d0: seq<Elem>, e: seq<Elem>, m: nat)
      requires 0 < m <= |d0| && SameFrom(d0, e, Kept(d0, m)) && IsHeap(e, Kept(d0, m)) && TopReplaced(d0, e, Kept(d0, m))
      ensures Reheaped(d0, e[..|e| - 1], m)
    {
      var n := Kept(d0, m);
      assert e[..|e| - 1][..n] == e[..n];
      assert e[..|e| - 1][n..] == d0[n..|d0| - 1];
    }

    static lemma NoHeap(d0: seq<Elem>)
      requires 0 < |d0|
      ensures Reheaped(d0, LastMoved(d0, 0), 0)
    {
    }

    /** The loop of reheap. */
    method Sink() returns (cur: nat)
      requires 0 < |data| && mark <= |data| && IsHeap(data, mark)
      modifies `data
      ensures |data| == old(|data|) && Settled(data, mark, cur)
      ensures mark > 0 ==> Sinking(old(data), data, mark, cur)
      ensures mark == 0 ==> data == old(data) && cur == 0
    {
      ghost var d0 := data;
      if mark > 0 {
        SinkStart(data, mark);
      }
      cur := 0;
      var child := 1;
      hide Sinking, IsHeap;
      while child < mark
        invariant child == 2 * cur + 1 && |data| == |d0|
        invariant if mark > 0 then Sinking(d0, data, mark, cur) else data == d0 && cur == 0
        decreases mark - child
      {
        var target := child;
        if child + 1 < mark && Less(data[child], data[child + 1]) {
          target := child + 1;
        }
        if Less(data[target], data[|data| - 1]) { break; }
        SinkStep(d0, data, mark, cur, target);
        data := data[cur := data[target]];
        cur := target;
        child := 2 * cur + 1;
      }
    }

    /** reheap: the top is gone; the last element sinks from the root. */
    method Reheap()
      requires 0 < |data| && mark <= |data| && IsHeap(data, mark)
      modifies `data, `mark
      ensures Reheaped(old(data), data, old(mark)) && mark == Kept(old(data), old(mark))
    {
      var cur := Sink();
      if mark > 0 {
        SinkingRange(old(data), data, mark, cur);
        SinkEnd(old(data), data, mark, cur);
      } else {
        NoHeap(data);
      }
      KeptIs(data, mark);
      MoveLast(cur);
      hide *;
      if mark > |data| {
        mark := |data|;
      }
    }

    static lemma SinkingRange(d0: seq<Elem>, d: seq<Elem>, m: nat, cur: nat)
      requires Sinking(d0, d, m, cur)
      ensures cur < |d| == |d0|
    {
    }

    static lemma KeptIs(d: seq<Elem>, m: nat)
      requires 0 < |d| && m <= |d|
      ensures Kept(d, m) == if m > |d| - 1 then |d| - 1 else m
    {
    }

    /** The end of reheap. */
    method MoveLast(cur: nat)
      requires cur < |data|
      modifies `data
      ensures data == LastMoved(old(data), cur) && |data| == old(|data|) - 1
    {
      if cur != |data| - 1 {
        data := data[cur := data[|data| - 1]];
      }
      data := data[..|data| - 1];
    }

    /** The state between two operations of a batch. */
    ghost predicate InBatch(q: multiset<Elem>, ops: seq<Op>, results: seq<Status>, n: nat, pops: seq<nat>, h: seq<Event>, own: seq<nat>)
      reads this
    {
      && Booked(ops, results, n, pops, h, own) && Reflects(q, ops, data, mark, h, own) && mySize == |data|
    }

    /** A newly pushed element is higher than the top and lies at the end. */
    predicate LastBeatsTop()
      reads this
    {
      0 < |data| && mark < |data| && Less(data[0], data[|data| - 1])
    }

    /** A pop takes the last waiting element. */
    method PopLast(i: nat, results: seq<Status>, ghost q: multiset<Elem>, ghost ops: seq<Op>, ghost n: nat, ghost pops: seq<nat>,
                   ghost h: seq<Event>, ghost own: seq<nat>)
      returns (results': seq<Status>, ghost h': seq<Event>, ghost own': seq<nat>)
      requires InBatch(q, ops, results, n, pops, h, own) && pops != [] && i == pops[0] && LastBeatsTop()
      modifies `data, `mySize
      ensures InBatch(q, ops, results', n, pops[1..], h', own')
      ensures old(data) != [] && i < |results|
      ensures data == old(data)[..|old(data)| - 1] && results' == results[i := Popped(old(data)[|old(data)| - 1])]
    {
      var e := data[|data| - 1];
      LastPopped(q, ops, results, n, pops, h, own);
      h', own' := h + [Pushing(own[|own| - 1], e)] + [Popping(i, e)], own[..|own| - 1];
      hide *;
      results' := results[i := Popped(e)];
      DropLast();
      BatchIntro(q, ops, results', n, pops[1..], h', own');
    }

    method DropLast()
      requires data != [] && mySize == |data|
      modifies `data, `mySize
      ensures data == old(data)[..|old(data)| - 1] && mySize == |data| == old(|data|) - 1
    {
      mySize := mySize - 1;
      data := data[..|data| - 1];
    }

    lemma BatchIntro(q: multiset<Elem>, ops: seq<Op>, results: seq<Status>, n: nat, pops: seq<nat>, h: seq<Event>, own: seq<nat>)
      requires Booked(ops, results, n, pops, h, own) && Reflects(q, ops, data, mark, h, own) && mySize == |data|
      ensures InBatch(q, ops, results, n, pops, h, own)
    {
      hide Booked, Reflects;
    }

    lemma LastPopped(q: multiset<Elem>, ops: seq<Op>, results: seq<Status>, n: nat, pops: seq<nat>, h: seq<Event>, own: seq<nat>)
      requires InBatch(q, ops, results, n, pops, h, own) && pops != [] && LastBeatsTop()
      ensures own != [] && pops[0] < |results| && data != [] && mySize == |data|
      ensures var e, i := data[|data| - 1], pops[0];
              var h', own' := h + [Pushing(own[|own| - 1], e)] + [Popping(i, e)], own[..|own| - 1];
              Booked(ops, results[i := Popped(e)], n, pops[1..], h', own') && Reflects(q, ops, data[..|data| - 1], mark, h', own')
    {
      var e, i := data[|data| - 1], pops[0];
      ReflectPopLast(q, ops, data, mark, h, own, i);
      var o := own[|own| - 1];
      assert ops[o] == Push(e) by { assert mark + (|own| - 1) == |data| - 1; }
      hide Reflects, OpsOf, Range, Fits;
      BookPushed(ops, results, n, pops, h, own, e);
      hide Booked;
      BookPop(ops, results, n, pops, h + [Pushing(o, e)], own[..|own| - 1], Popping(i, e), Popped(e));
    }

    /** A postponed pop takes the top. */
    method PopTop(i: nat, results: seq<Status>, ghost q: multiset<Elem>, ghost ops: seq<Op>, ghost n: nat, ghost pops: seq<nat>,
                  ghost h: seq<Event>, ghost own: seq<nat>)
      returns (results': seq<Status>, ghost h': seq<Event>, ghost own': seq<nat>)
      requires InBatch(q, ops, results, n, pops, h, own) && pops != [] && i == pops[0] && |data| > 0
      modifies `data, `mark, `mySize
      ensures InBatch(q, ops, results', n, pops[1..], h', own')
      ensures i < |results| && results' == results[i := Popped(old(data)[0])]
      ensures mark == Kept(old(data), old(mark)) && Reheaped(old(data), data, old(mark))
    {
      var e := data[0];
      ghost var d, m := data, mark;
      assert IsHeap(data, mark) && i < |results|;
      results' := results[i := Popped(e)];
      mySize := mySize - 1;
      Reheap();
      if m == 0 {
        h', own' := TookFront(q, ops, results, n, pops, d, h, own);
      } else {
        h', own' := TookTop(q, ops, results, n, pops, d, m, h, own, data);
      }
    }

    /** What the books say when the top of a heap has been taken. */
    static ghost method TookTop(q: multiset<Elem>, ops: seq<Op>, results: seq<Status>, n: nat, pops: seq<nat>, d: seq<Elem>, m: nat,
                               h: seq<Event>, own: seq<nat>, d': seq<Elem>)
      returns (h': seq<Event>, own': seq<nat>)
      requires Booked(ops, results, n, pops, h, own) && Reflects(q, ops, d, m, h, own) && pops != []
      requires 0 < m <= |d| && Reheaped(d, d', m)
      ensures pops[0] < |results| && Booked(ops, results[pops[0] := Popped(d[0])], n, pops[1..], h', own')
      ensures Reflects(q, ops, d', Kept(d, m), h', own')
    {
      var i := pops[0];
      ReflectPopTop(q, ops, d, m, h, own, i, d');
      BookPop(ops, results, n, pops, h, own, Popping(i, d[0]), Popped(d[0]));
      KeptIs(d, m);
      LastOwner(q, ops, d, m, h, own);
      h', own' := h + [Popping(i, d[0])], own;
      hide *;
      if m < |d| {
        BookPushed(ops, results[i := Popped(d[0])], n, pops[1..], h', own, d[|d| - 1]);
        h', own' := h' + [Pushing(own[|own| - 1], d[|d| - 1])], own[..|own| - 1];
      }
    }

    static lemma LastOwner(q: multiset<Elem>, ops: seq<Op>, d: seq<Elem>, m: nat, h: seq<Event>, own: seq<nat>)
      requires Reflects(q, ops, d, m, h, own)
      ensures m < |d| ==> own != [] && own[|own| - 1] < |ops| && ops[own[|own| - 1]] == Push(d[|d| - 1])
    {
      assert m < |d| ==> m + (|own| - 1) == |d| - 1;
    }

    /** What the books say when, without a heap, the front has been taken: its push comes first. */
    static ghost method TookFront(q: multiset<Elem>, ops: seq<Op>, results: seq<Status>, n: nat, pops: seq<nat>, d: seq<Elem>,
                                  h: seq<Event>, own: seq<nat>)
      returns (h': seq<Event>, own': seq<nat>)
      requires Booked(ops, results, n, pops, h, own) && Reflects(q, ops, d, 0, h, own) && pops != [] && d != []
      ensures pops[0] < |results| && Booked(ops, results[pops[0] := Popped(d[0])], n, pops[1..], h', own')
      ensures Reflects(q, ops, d[0 := d[|d| - 1]][..|d| - 1], 0, h', own')
    {
      var i, z := pops[0], |d| - 1;
      SwapEnds(q, ops, results, n, pops, d, h, own);
      var d1, own1 := d[0 := d[z]][z := d[0]], own[0 := own[z]][z := own[0]];
      ReflectPopLast(q, ops, d1, 0, h, own1, i);
      assert ops[own1[z]] == Push(d1[0 + z]);
      BookPushed(ops, results, n, pops, h, own1, d[0]);
      h', own' := h + [Pushing(own1[z], d[0])], own1[..z];
      BookPop(ops, results, n, pops, h', own', Popping(i, d[0]), Popped(d[0]));
      h' := h' + [Popping(i, d[0])];
    }

    method PushOne(n: nat, e: Elem, results: seq<Status>, ghost q: multiset<Elem>, ghost ops: seq<Op>, ghost pops: seq<nat>,
                   ghost h: seq<Event>, ghost own: seq<nat>)
      returns (results': seq<Status>)
      requires InBatch(q, ops, results, n, pops, h, own) && n < |ops| && ops[n] == Push(e)
      modifies `data, `mySize
      ensures InBatch(q, ops, results', n + 1, pops, h, own + [n])
      ensures n < |results| && data == old(data) + [e] && results' == results[n := Pushed]
    {
      BookPush(ops, results, n, pops, h, own);
      ReflectPush(q, ops, data, mark, h, own, n, e);
      hide Booked, Reflects;
      data := data + [e];
      mySize := mySize + 1;
      results' := results[n := Pushed];
    }

    /** The first pass: pushes, and the pops that cost nothing. */
    method FirstPass(ops: seq<Op>, ghost q: multiset<Elem>)
      returns (results: seq<Status>, pops: seq<nat>, ghost h: seq<Event>, ghost own: seq<nat>)
      requires Valid() && q == multiset(data)
      modifies `data, `mySize
      ensures InBatch(q, ops, results, |ops|, pops, h, own)
      ensures Pass(data, results, pops) == Passed(ops, |ops|, old(data))
    {
      hide *;
      results, pops, h, own := seq(|ops|, _ => Wait), [], [], [];
      BatchBegins(q, ops, results);
      ghost var d := data;
      var n := 0;
      while n < |ops|
        invariant n <= |ops| && InBatch(q, ops, results, n, pops, h, own)
        invariant Pass(data, results, pops) == Passed(ops, n, d) && mark == |d|
        decreases |ops| - n
      {
        PassedStep(ops, n, d);
        BatchRange(q, ops, results, n, pops, h, own);
        results, pops, h, own := FirstTurn(ops, n, results, pops, q, h, own);
        n := n + 1;
      }
    }

    lemma BatchBegins(q: multiset<Elem>, ops: seq<Op>, results: seq<Status>)
      requires Valid() && q == multiset(data) && results == seq(|ops|, _ => Wait)
      ensures InBatch(q, ops, results, 0, [], [], []) && Pass(data, results, []) == Passed(ops, 0, data) && mark == |data|
    {
      assert data[..mark] == data;
    }

    /** One operation of the first pass. */
    method FirstTurn(ops: seq<Op>, n: nat, results: seq<Status>, pops: seq<nat>, ghost q: multiset<Elem>, ghost h: seq<Event>, ghost own: seq<nat>)
      returns (results': seq<Status>, pops': seq<nat>, ghost h': seq<Event>, ghost own': seq<nat>)
      requires n < |ops| && InBatch(q, ops, results, n, pops, h, own)
      modifies `data, `mySize
      ensures InBatch(q, ops, results', n + 1, pops', h', own')
      ensures n < |results| && Pass(data, results', pops') == Turn(Pass(old(data), results, pops), n, ops[n], mark)
    {
      hide *;
      BatchRange(q, ops, results, n, pops, h, own);
      results', pops', h', own' := results, pops, h, own;
      match ops[n]
      case Pop =>
        Postpone(q, ops, results, n, pops, h, own);
        var now := LastBeatsTop();
        TurnIs(Pass(data, results, pops), n, ops[n], mark);
        BeatsIs();
        if now {
          results', h', own' := PopLast(n, results, q, ops, n + 1, [n] + pops, h, own);
          assert ([n] + pops)[1..] == pops;
        } else {
          pops' := [n] + pops;
        }
      case Push(e) =>
        TurnIs(Pass(data, results, pops), n, ops[n], mark);
        results' := PushOne(n, e, results, q, ops, pops, h, own);
        own' := own + [n];
    }

    lemma BeatsIs()
      ensures LastBeatsTop() <==> Beats(data, mark)
    {
    }

    lemma BatchRange(q: multiset<Elem>, ops: seq<Op>, results: seq<Status>, n: nat, pops: seq<nat>, h: seq<Event>, own: seq<nat>)
      requires InBatch(q, ops, results, n, pops, h, own)
      ensures mark <= |data| && |results| == |ops|
      ensures data == [] ==> mark == 0
      ensures pops != [] ==> pops[0] < |results|
    {
      assert pops != [] ==> pops[0] < |ops|;
    }

    lemma Postpone(q: multiset<Elem>, ops: seq<Op>, results: seq<Status>, n: nat, pops: seq<nat>, h: seq<Event>, own: seq<nat>)
      requires InBatch(q, ops, results, n, pops, h, own) && n < |ops| && ops[n].Pop?
      ensures InBatch(q, ops, results, n + 1, [n] + pops, h, own)
    {
      BookLater(ops, results, n, pops, h, own);
    }

    lemma FailPop(q: multiset<Elem>, ops: seq<Op>, results: seq<Status>, n: nat, pops: seq<nat>, h: seq<Event>, own: seq<nat>)
      requires InBatch(q, ops, results, n, pops, h, own) && pops != [] && data == []
      ensures pops[0] < |results| && InBatch(q, ops, results[pops[0] := Failed], n, pops[1..], h + [Failing(pops[0])], own)
    {
      ReflectFail(q, ops, h, own, pops[0]);
      BookPop(ops, results, n, pops, h, own, Failing(pops[0]), Failed);
    }

    /** The second pass: the postponed pops, last one first. */
    method SecondPass(ops: seq<Op>, results0: seq<Status>, pops0: seq<nat>, ghost q: multiset<Elem>, ghost h0: seq<Event>, ghost own0: seq<nat>)
      returns (results: seq<Status>, ghost h: seq<Event>, ghost own: seq<nat>)
      requires InBatch(q, ops, results0, |ops|, pops0, h0, own0)
      modifies `data, `mark, `mySize
      ensures InBatch(q, ops, results, |ops|, [], h, own)
    {
      results, h, own := results0, h0, own0;
      var pops := pops0;
      hide InBatch;
      while pops != []
        invariant InBatch(q, ops, results, |ops|, pops, h, own)
        decreases |pops|
      {
        results, h, own := SecondTurn(ops, pops, results, q, h, own);
        pops := pops[1..];
      }
    }

    /** One postponed pop: it fails on an empty queue, takes the last element if that beats the top, and else the top. */
    method SecondTurn(ops: seq<Op>, pops: seq<nat>, results: seq<Status>, ghost q: multiset<Elem>, ghost h: seq<Event>, ghost own: seq<nat>)
      returns (results': seq<Status>, ghost h': seq<Event>, ghost own': seq<nat>)
      requires InBatch(q, ops, results, |ops|, pops, h, own) && pops != []
      modifies `data, `mark, `mySize
      ensures InBatch(q, ops, results', |ops|, pops[1..], h', own') && pops[0] < |results|
      ensures old(data) == [] ==> data == [] && results' == results[pops[0] := Failed]
      ensures Beats(old(data), old(mark)) ==>
                && data == old(data)[..|old(data)| - 1] && mark == old(mark)
                && results' == results[pops[0] := Popped(old(data)[|old(data)| - 1])]
      ensures old(data) != [] && !Beats(old(data), old(mark)) ==>
                results' == results[pops[0] := Popped(old(data)[0])] && Taken(old(data), old(mark))
    {
      hide *;
      BatchRange(q, ops, results, |ops|, pops, h, own);
      BeatsIs();
      NoBeat(data, mark);
      var i := pops[0];
      if data == [] {
        FailPop(q, ops, results, |ops|, pops, h, own);
        results', h', own' := results[i := Failed], h + [Failing(i)], own;
      } else if LastBeatsTop() {
        results', h', own' := PopLast(i, results, q, ops, |ops|, pops, h, own);
      } else {
        ghost var d, m := data, mark;
        results', h', own' := PopTop(i, results, q, ops, |ops|, pops, h, own);
        TakenIs(d, m);
      }
    }

    /** The top is gone and the last element fills its place. */
    ghost predicate Taken(d: seq<Elem>, m: nat)
      requires d != [] && m <= |d|
      reads this
    {
      mark == Kept(d, m) && Reheaped(d, data, m)
    }

    lemma TakenIs(d: seq<Elem>, m: nat)
      requires d != [] && m <= |d| && mark == Kept(d, m) && Reheaped(d, data, m)
      ensures Taken(d, m)
    {
    }

    lemma BatchEnd(q: multiset<Elem>, ops: seq<Op>, results: seq<Status>, h: seq<Event>, own: seq<nat>)
      requires InBatch(q, ops, results, |ops|, [], h, own)
      ensures mark <= |data| == mySize && |own| == |data| - mark && IsHeap(data, mark)
      ensures var h' := Flush(h, own, data[mark..]);
              Serves(ops, results, h') && Legal(q, h') && After(q, h') == multiset(data)
    {
      assert forall k :: 0 <= k < |own| ==> data[mark..][k] == data[mark + k];
      FlushAll(q, ops, results, |ops|, h, own, data[mark..]);
      Parts(data, mark);
      var h' := Flush(h, own, data[mark..]);
      hide Legal, After, IsHeap, Flush, Reflects, InBatch;
      BooksClosed(ops, results, h');
    }

    static lemma Parts(d: seq<Elem>, m: nat)
      requires m <= |d|
      ensures multiset(d) == multiset(d[..m]) + multiset(d[m..])
    {
      assert d == d[..m] + d[m..];
    }

    static lemma BooksClosed(ops: seq<Op>, results: seq<Status>, h: seq<Event>)
      requires Booked(ops, results, |ops|, [], h, [])
      ensures Serves(ops, results, h)
    {
      var none: seq<nat> := [];
      assert multiset(OpsOf(h)) + multiset(none) + multiset(none) == multiset(OpsOf(h));
      hide Fits, Range, OpsOf;
    }

    /** handle_operations: a batch is as good as some order of its operations on a sequential priority queue. */
    method HandleOperations(ops: seq<Op>) returns (results: seq<Status>, ghost h: seq<Event>)
      requires Valid()
      modifies this
      ensures Valid()
      ensures Serves(ops, results, h)
      ensures Legal(multiset(old(data)), h) && multiset(data) == After(multiset(old(data)), h)
    {
      ghost var q := multiset(data);
      var pops;
      ghost var own;
      results, pops, h, own := FirstPass(ops, q);
      results, h, own := SecondPass(ops, results, pops, q, h, own);
      BatchEnd(q, ops, results, h, own);
      h := Flush(h, own, data[mark..]);
      hide InBatch, Serves, Legal, After;
      if mark < |data| {
        Heapify();
      }
    }
  }

  lemma Last(d: seq<Elem>)
    requires d != []
    ensures d == d[..|d| - 1] + [d[|d| - 1]] && multiset(d) == multiset(d[..|d| - 1]) + multiset{d[|d| - 1]}
  {
    assert d == d[..|d| - 1] + [d[|d| - 1]];
  }

  lemma HeapPart(d: seq<Elem>, d': seq<Elem>, m: nat)
    requires IsHeap(d, m) && m <= |d'| && forall k :: 0 <= k < m ==> d'[k] == d[k]
    ensures IsHeap(d', m) && d'[..m] == d[..m]
  {
    assert forall k :: 0 < k < m ==> Parent(k) < k;
  }

  lemma ReflectPush(q: multiset<Elem>, ops: seq<Op>, d: seq<Elem>, m: nat, h: seq<Event>, own: seq<nat>, n: nat, e: Elem)
    requires Reflects(q, ops, d, m, h, own) && n < |ops| && ops[n] == Push(e)
    ensures Reflects(q, ops, d + [e], m, h, own + [n])
  {
    HeapPart(d, d + [e], m);
    hide IsHeap, Legal, After;
  }

  /** The last waiting element beats the top: its push and the pop follow one another. */
  lemma ReflectPopLast(q: multiset<Elem>, ops: seq<Op>, d: seq<Elem>, m: nat, h: seq<Event>, own: seq<nat>, i: nat)
    requires Reflects(q, ops, d, m, h, own) && m < |d| && (m > 0 ==> Less(d[0], d[|d| - 1]))
    ensures own != [] && var e := d[|d| - 1];
            Reflects(q, ops, d[..|d| - 1], m, h + [Pushing(own[|own| - 1], e)] + [Popping(i, e)], own[..|own| - 1])
  {
    var e, o := d[|d| - 1], own[|own| - 1];
    var a := multiset(d[..m]);
    if m > 0 { TopIsMax(d, m); }
    HeapPart(d, d[..|d| - 1], m);
    hide IsHeap, Legal, After;
    assert a + multiset{e} - multiset{e} == a;
    assert IsMax(a + multiset{e}, e);
    Extend(q, h, Pushing(o, e));
    Extend(q, h + [Pushing(o, e)], Popping(i, e));
  }

  /** The top leaves; if an element was waiting, the last one took its room in the heap. */
  lemma ReflectPopTop(q: multiset<Elem>, ops: seq<Op>, d: seq<Elem>, m: nat, h: seq<Event>, own: seq<nat>, i: nat, d': seq<Elem>)
    requires Reflects(q, ops, d, m, h, own) && 0 < m <= |d| && Queue.Reheaped(d, d', m)
    ensures m == |d| ==> own == [] && Reflects(q, ops, d', m - 1, h + [Popping(i, d[0])], own)
    ensures m < |d| ==> own != []
    ensures m < |d| ==> Reflects(q, ops, d', m, h + [Popping(i, d[0])] + [Pushing(own[|own| - 1], d[|d| - 1])], own[..|own| - 1])
  {
    hide *;
    if m == |d| { HeapShrinks(q, ops, d, h, own, i, d'); } else { RoomTaken(q, ops, d, m, h, own, i, d'); }
  }

  /** A pop of a maximum is a legal next event. */
  lemma PopNext(q: multiset<Elem>, h: seq<Event>, i: nat, e: Elem)
    requires Legal(q, h) && IsMax(After(q, h), e)
    ensures Legal(q, h + [Popping(i, e)]) && After(q, h + [Popping(i, e)]) == After(q, h) - multiset{e}
  {
    Extend(q, h, Popping(i, e));
    hide Legal, IsMax;
  }

  lemma ReflectsIs(q: multiset<Elem>, ops: seq<Op>, d: seq<Elem>, m: nat, h: seq<Event>, own: seq<nat>)
    requires Reflects(q, ops, d, m, h, own)
    ensures m <= |d| && IsHeap(d, m) && |own| == |d| - m && Legal(q, h) && After(q, h) == multiset(d[..m])
  {
    hide Legal, After;
  }

  lemma HeapShrinks(q: multiset<Elem>, ops: seq<Op>, d: seq<Elem>, h: seq<Event>, own: seq<nat>, i: nat, d': seq<Elem>)
    requires 0 < |d| && Reflects(q, ops, d, |d|, h, own) && Queue.Reheaped(d, d', |d|)
    ensures own == [] && Reflects(q, ops, d', |d| - 1, h + [Popping(i, d[0])], own)
  {
    hide *;
    ReflectsIs(q, ops, d, |d|, h, own);
    TopIsMax(d, |d|);
    PopNext(q, h, i, d[0]);
    TopGone(d, d');
    assert d[..|d|] == d;
    NoneWait(q, ops, d', h + [Popping(i, d[0])]);
  }

  lemma TopGone(d: seq<Elem>, d': seq<Elem>)
    requires 0 < |d| && Queue.Reheaped(d, d', |d|)
    ensures |d'| == |d| - 1 && IsHeap(d', |d'|) && multiset(d') == multiset(d) - multiset{d[0]}
  {
    var n := Queue.Kept(d, |d|);
    Last(d);
    assert d'[..n] == d';
    hide IsHeap;
    Moved(multiset(d'), multiset(d), d[0]);
  }

  lemma NoneWait(q: multiset<Elem>, ops: seq<Op>, d: seq<Elem>, h: seq<Event>)
    requires IsHeap(d, |d|) && Legal(q, h) && After(q, h) == multiset(d)
    ensures Reflects(q, ops, d, |d|, h, [])
  {
    assert d[..|d|] == d;
    hide IsHeap, Legal, After;
  }

  lemma RoomTaken(q: multiset<Elem>, ops: seq<Op>, d: seq<Elem>, m: nat, h: seq<Event>, own: seq<nat>, i: nat, d': seq<Elem>)
    requires Reflects(q, ops, d, m, h, own) && 0 < m < |d| && Queue.Reheaped(d, d', m)
    ensures own != []
    ensures Reflects(q, ops, d', m, h + [Popping(i, d[0])] + [Pushing(own[|own| - 1], d[|d| - 1])], own[..|own| - 1])
  {
    TopIsMax(d, m);
    var v, w := Popping(i, d[0]), Pushing(own[|own| - 1], d[|d| - 1]);
    PopNext(q, h, i, d[0]);
    Extend(q, h + [v], w);
    assert multiset(d'[..m]) + multiset{d[0]} == multiset(d[..m]) + multiset{d[|d| - 1]};
    MovedIn(multiset(d'[..m]), multiset(d[..m]), d[0], d[|d| - 1]);
    forall j | m <= j < |d| - 1 ensures d'[j] == d[j] {
      assert d'[m..][j - m] == d[m..|d| - 1][j - m];
    }
    hide IsHeap, Legal, After, Allowed, Queue.TopReplaced;
  }

  lemma Moved(b: multiset<Elem>, a: multiset<Elem>, e: Elem)
    requires b + multiset{e} == a
    ensures b == a - multiset{e}
  {
  }

  lemma MovedIn(b: multiset<Elem>, a: multiset<Elem>, e: Elem, f: Elem)
    requires b + multiset{e} == a + multiset{f} && e in a
    ensures b == a - multiset{e} + multiset{f}
  {
    assert a - multiset{e} + multiset{f} + multiset{e} == a + multiset{f} by {
      assert a - multiset{e} + multiset{e} == a;
    }
    Cancel(b, a - multiset{e} + multiset{f}, e);
  }

  /** Without a heap the first waiting element may change places with the last. */
  lemma SwapEnds(q: multiset<Elem>, ops: seq<Op>, results: seq<Status>, n: nat, pops: seq<nat>, d: seq<Elem>, h: seq<Event>, own: seq<nat>)
    requires Reflects(q, ops, d, 0, h, own) && Booked(ops, results, n, pops, h, own) && d != []
    ensures |own| == |d|
    ensures var z := |d| - 1; var d', own' := d[0 := d[z]][z := d[0]], own[0 := own[z]][z := own[0]];
            Reflects(q, ops, d', 0, h, own') && Booked(ops, results, n, pops, h, own')
            && d'[..z] == d[0 := d[z]][..z] && own'[..z] == own[0 := own[z]][..z]
  {
    var z := |d| - 1;
    var own' := own[0 := own[z]][z := own[0]];
    SwapCount(own, z);
    hide OpsOf, Range, Fits, Legal, After;
  }

  lemma SwapCount(own: seq<nat>, z: nat)
    requires |own| == z + 1
    ensures multiset(own[0 := own[z]][z := own[0]]) == multiset(own)
  {
    var a := own[0 := own[z]];
    Exchange(own, 0, own[z]);
    Exchange(a, z, own[0]);
    hide *;
    Cancel(multiset(a[z := own[0]]), multiset(own), own[z]);
  }

  lemma ReflectFail(q: multiset<Elem>, ops: seq<Op>, h: seq<Event>, own: seq<nat>, i: nat)
    requires Reflects(q, ops, [], 0, h, own)
    ensures Reflects(q, ops, [], 0, h + [Failing(i)], own)
  {
    Extend(q, h, Failing(i));
  }

  /** The pushes of the elements that still wait when the batch ends, last one first. */
  function Flush(h: seq<Event>, own: seq<nat>, w: seq<Elem>): seq<Event>
    requires |own| == |w|
    decreases |own|
  {
    if own == [] then h else Flush(h + [Pushing(own[|own| - 1], w[|w| - 1])], own[..|own| - 1], w[..|w| - 1])
  }

  lemma PushNext(q: multiset<Elem>, h: seq<Event>, i: nat, e: Elem)
    requires Legal(q, h)
    ensures Legal(q, h + [Pushing(i, e)]) && After(q, h + [Pushing(i, e)]) == After(q, h) + multiset{e}
  {
    Extend(q, h, Pushing(i, e));
    hide Legal;
  }

  lemma {:induction false} FlushAll(q: multiset<Elem>, ops: seq<Op>, results: seq<Status>, n: nat, h: seq<Event>, own: seq<nat>, w: seq<Elem>)
    requires Booked(ops, results, n, [], h, own) && |own| == |w| && Legal(q, h)
    requires forall k :: 0 <= k < |own| ==> ops[own[k]] == Push(w[k])
    ensures Booked(ops, results, n, [], Flush(h, own, w), []) && Legal(q, Flush(h, own, w))
    ensures After(q, Flush(h, own, w)) == After(q, h) + multiset(w)
    decreases |own|
  {
    hide Legal, After, Allowed, Booked;
    if own != [] {
      var v := Pushing(own[|own| - 1], w[|w| - 1]);
      BookPushed(ops, results, n, [], h, own, w[|w| - 1]);
      PushNext(q, h, own[|own| - 1], w[|w| - 1]);
      Last(w);
      FlushAll(q, ops, results, n, h + [v], own[..|own| - 1], w[..|w| - 1]);
    }
  }

  // ----- whole runs -----

  function Joined(hs: seq<seq<Event>>): seq<Event>
  {
    if hs == [] then [] else Joined(hs[..|hs| - 1]) + hs[|hs| - 1]
  }

  ghost predicate Served(batches: seq<seq<Op>>, results: seq<seq<Status>>, hs: seq<seq<Event>>)
  {
    |results| == |hs| <= |batches| && forall b :: 0 <= b < |hs| ==> Serves(batches[b], results[b], hs[b])
  }

  lemma ServedSnoc(batches: seq<seq<Op>>, results: seq<seq<Status>>, hs: seq<seq<Event>>, r: seq<Status>, h: seq<Event>)
    requires Served(batches, results, hs) && |hs| < |batches| && Serves(batches[|hs|], r, h)
    ensures Served(batches, results + [r], hs + [h])
  {
    hide Serves;
  }

  lemma JoinedSnoc(hs: seq<seq<Event>>, h: seq<Event>)
    ensures Joined(hs + [h]) == Joined(hs) + h
  {
    assert (hs + [h])[..|hs|] == hs;
  }

  /** Any run of batches from an empty queue is one history of a sequential priority queue. */
  method Run(batches: seq<seq<Op>>) returns (results: seq<seq<Status>>, ghost hs: seq<seq<Event>>)
    ensures |results| == |hs| == |batches| && Served(batches, results, hs)
    ensures Legal(multiset{}, Joined(hs))
  {
    var queue := new Queue();
    results, hs := [], [];
    ghost var none: multiset<Elem> := multiset{};
    assert multiset(queue.data) == none;
    assert Legal(none, Joined(hs)) && After(none, Joined(hs)) == none;
    assert Served(batches, results, hs);
    hide *;
    for n := 0 to |batches|
      invariant |results| == |hs| == n && queue.Valid() && Served(batches, results, hs)
      invariant Legal(none, Joined(hs)) && After(none, Joined(hs)) == multiset(queue.data)
    {
      ghost var h;
      var r;
      r, h := queue.HandleOperations(batches[n]);
      Chain(none, Joined(hs), h);
      JoinedSnoc(hs, h);
      ServedSnoc(batches, results, hs, r, h);
      results, hs := results + [r], hs + [h];
    }
  }
}
