/**
How the tree follows the logs (obj/hikv.h, obj/threadpool.cc): every server thread appends to its own
partition and puts the record's address into that partition's queue; every backend thread takes addresses
from its queue and puts the records into the one tree.  A step is one access by one thread, runs
interleave the steps in every way; an insert into the tree is one step.
*/
module Pipeline {
  import BT = BTree
  import P = Plog
  import opened PageData

  const QUEUE: nat := 65536

  /** A server thread: outside of an insert, with an address to queue, or past the test of the queue's size. */
  datatype Server = Idle | Holding(addr: nat) | Cleared(addr: nat)

  /** A backend thread: polling, having seen a task, or with a task in its hands. */
  datatype Backend = Polling | Saw | Working(addr: nat)

  /** A partition: the keys in its log, its server, its queue, and its backend thread if there is one. */
  datatype Part = Part(log: seq<Key>, server: Server, queue: seq<nat>, backend: Backend)

  /** `tree` is what was put into the tree, in order. */
  datatype State = State(parts: seq<Part>, tree: seq<Entry>)

  /** Where the logs begin, how long they may get, and how many partitions have a backend thread. */
  datatype Config = Config(starts: seq<nat>, room: nat, served: nat)

  datatype Kind =
    | Append(key: Key)  // plog::append, at the beginning of hikv::insert
    | Test              // add_task looks at the size of the queue
    | Push              // and pushes
    | Look              // the backend thread looks at the size of its queue
    | Pop               // and pops
    | Index             // and puts the record into the tree

  datatype Event = Event(p: nat, kind: Kind)

  // ----- the steps -----

  predicate Enabled(c: Config, p: nat, part: Part, k: Kind)
  {
    match k
    case Append(_) => part.server.Idle? && P.ITEM * (|part.log| + 1) <= c.room
    case Test => part.server.Holding?
    case Push => part.server.Cleared?
    case Look => p < c.served && part.backend.Polling?
    case Pop => p < c.served && part.backend.Saw?
    case Index => p < c.served && part.backend.Working?
  }

  function StepPart(part: Part, start: nat, k: Kind): Part
    requires k.Test? ==> part.server.Holding?
    requires k.Push? ==> part.server.Cleared?
  {
    match k
    case Append(key) => part.(log := part.log + [key], server := Holding(start + P.ITEM * |part.log|))
    case Test => if |part.queue| < QUEUE then part.(server := Cleared(part.server.addr)) else part
    case Push => part.(queue := part.queue + [part.server.addr], server := Idle)
    case Look => if |part.queue| > 0 then part.(backend := Saw) else part
    case Pop => if |part.queue| > 0 then part.(queue := part.queue[1..], backend := Working(part.queue[0]))
                else part.(backend := Polling)
    case Index => part.(backend := Polling)
  }

  /** The key of the record at an address of the log; 0 stands for what lies outside, which is never read. */
  function KeyAt(part: Part, start: nat, addr: nat): Key
  {
    if start <= addr && (addr - start) / P.ITEM < |part.log| then part.log[(addr - start) / P.ITEM] else 0
  }

  predicate CanDo(c: Config, s: State, e: Event)
  {
    |s.parts| == |c.starts| && e.p < |s.parts| && Enabled(c, e.p, s.parts[e.p], e.kind)
  }

  function Do(c: Config, s: State, e: Event): State
    requires CanDo(c, s, e)
  {
    var part, start := s.parts[e.p], c.starts[e.p];
    State(s.parts[e.p := StepPart(part, start, e.kind)],
          if e.kind.Index? then s.tree + [Entry(KeyAt(part, start, part.backend.addr), Value(part.backend.addr))] else s.tree)
  }

  predicate Init(c: Config, s: State)
  {
    |s.parts| == |c.starts| && s.tree == [] && forall p :: 0 <= p < |s.parts| ==> s.parts[p] == Part([], Idle, [], Polling)
  }

  ghost predicate Run(c: Config, s: State, es: seq<Event>, t: State)
    decreases |es|
  {
    if es == [] then s == t else CanDo(c, s, es[0]) && Run(c, Do(c, s, es[0]), es[1..], t)
  }

  // ----- what every step keeps -----

  /** The addresses on their way to the tree, the next one first. */
  function Pending(part: Part): seq<nat>
  {
    (if part.backend.Working? then [part.backend.addr] else []) + part.queue
    + if part.server.Idle? then [] else [part.server.addr]
  }

  /** How many records of the partition are in the tree. */
  function Done(part: Part): int
  {
    |part.log| - |Pending(part)|
  }

  /** The pending addresses are those of the last records of the log, in order. */
  ghost predicate InOrder(part: Part, start: nat)
  {
    Done(part) >= 0 && forall k :: 0 <= k < |Pending(part)| ==> Pending(part)[k] == start + P.ITEM * (Done(part) + k)
  }

  predicate QueueOk(c: Config, p: nat, part: Part)
  {
    && P.ITEM * |part.log| <= c.room
    && |part.queue| <= QUEUE && (part.server.Cleared? ==> |part.queue| < QUEUE)
    && (part.backend.Saw? ==> |part.queue| > 0)
    && (p >= c.served ==> part.backend.Polling? && Done(part) == 0)
  }

  /** The entry of a record of a log that begins at `start`. */
  function RecordEntry(start: nat, log: seq<Key>, i: nat): Entry
    requires i < |log|
  {
    Entry(log[i], Value(start + P.ITEM * i))
  }

  function Entries(start: nat, log: seq<Key>, n: nat): (es: seq<Entry>)
    requires n <= |log|
    ensures |es| == n && forall i :: 0 <= i < n ==> es[i] == RecordEntry(start, log, i)
  {
    seq(n, i requires 0 <= i < n => RecordEntry(start, log, i))
  }

  predicate Within(c: Config, p: nat, e: Entry)
    requires p < |c.starts|
  {
    e.ptr.Value? && c.starts[p] <= e.ptr.record < c.starts[p] + c.room
  }

  /** What of the tree came from partition p, in order. */
  function Of(c: Config, tree: seq<Entry>, p: nat): seq<Entry>
    requires p < |c.starts|
  {
    if tree == [] then []
    else Of(c, tree[..|tree| - 1], p) + if Within(c, p, tree[|tree| - 1]) then [tree[|tree| - 1]] else []
  }

  /** The allocator's regions do not overlap. */
  predicate Apart(c: Config)
  {
    forall p, q :: 0 <= p < q < |c.starts| ==> c.starts[p] + c.room <= c.starts[q] || c.starts[q] + c.room <= c.starts[p]
  }

  ghost predicate PartInv(c: Config, p: nat, part: Part, tree: seq<Entry>)
    requires p < |c.starts|
  {
    QueueOk(c, p, part) && InOrder(part, c.starts[p]) && Of(c, tree, p) == Entries(c.starts[p], part.log, Done(part))
  }

  ghost predicate Owned(c: Config, e: Entry)
  {
    exists p :: 0 <= p < |c.starts| && Within(c, p, e)
  }

  ghost predicate Inv(c: Config, s: State)
  {
    && |s.parts| == |c.starts| && Apart(c)
    && (forall p :: 0 <= p < |s.parts| ==> PartInv(c, p, s.parts[p], s.tree))
    && (forall k :: 0 <= k < |s.tree| ==> Owned(c, s.tree[k]))
  }

  lemma OfMore(c: Config, tree: seq<Entry>, e: Entry, p: nat)
    requires p < |c.starts|
    ensures Of(c, tree + [e], p) == Of(c, tree, p) + if Within(c, p, e) then [e] else []
  {
    assert (tree + [e])[..|tree|] == tree;
  }

  /** A step that leaves the tree alone keeps a partition in order. */
  lemma QuietStep(c: Config, p: nat, part: Part, k: Kind, tree: seq<Entry>)
    requires p < |c.starts| && PartInv(c, p, part, tree) && Enabled(c, p, part, k) && !k.Index?
    ensures PartInv(c, p, StepPart(part, c.starts[p], k), tree)
  {
    var part' := StepPart(part, c.starts[p], k);
    match k
    case Append(key) =>
      assert Pending(part') == Pending(part) + [c.starts[p] + P.ITEM * |part.log|];
      assert Entries(c.starts[p], part'.log, Done(part')) == Entries(c.starts[p], part.log, Done(part));
    case Test => assert Pending(part') == Pending(part);
    case Push => assert Pending(part') == Pending(part);
    case Look => assert Pending(part') == Pending(part);
    case Pop => assert Pending(part') == Pending(part);
  }

  /** The record a backend thread puts into the tree is the next one of its log. */
  lemma IndexStep(c: Config, p: nat, part: Part, tree: seq<Entry>)
    requires p < |c.starts| && PartInv(c, p, part, tree) && Enabled(c, p, part, Index)
    ensures Done(part) < |part.log| && part.backend.addr == c.starts[p] + P.ITEM * Done(part)
    ensures var e := RecordEntry(c.starts[p], part.log, Done(part));
            && e == Entry(KeyAt(part, c.starts[p], part.backend.addr), Value(part.backend.addr))
            && Within(c, p, e) && PartInv(c, p, StepPart(part, c.starts[p], Index), tree + [e])
  {
    var part' := StepPart(part, c.starts[p], Index);
    assert Pending(part)[0] == part.backend.addr;
    assert Pending(part) == [part.backend.addr] + Pending(part');
    var d := Done(part);
    assert (part.backend.addr - c.starts[p]) / P.ITEM == d;
    var e := RecordEntry(c.starts[p], part.log, d);
    assert Done(part') == d + 1;
    forall k | 0 <= k < |Pending(part')| ensures Pending(part')[k] == c.starts[p] + P.ITEM * (d + 1 + k) {
      assert Pending(part')[k] == Pending(part)[k + 1];
    }
    OfMore(c, tree, e, p);
    assert Entries(c.starts[p], part.log, d + 1) == Entries(c.starts[p], part.log, d) + [e];
  }

  lemma InitInv(c: Config, s: State)
    requires Init(c, s) && Apart(c)
    ensures Inv(c, s)
  {
  }

  lemma StepInv(c: Config, s: State, e: Event)
    requires Inv(c, s) && CanDo(c, s, e)
    ensures Inv(c, Do(c, s, e))
  {
    var t, part := Do(c, s, e), s.parts[e.p];
    if e.kind.Index? {
      IndexStep(c, e.p, part, s.tree);
      var entry := RecordEntry(c.starts[e.p], part.log, Done(part));
      hide PartInv, RecordEntry;
      forall p | 0 <= p < |t.parts| ensures PartInv(c, p, t.parts[p], t.tree) {
        if p != e.p { OtherPart(c, p, e.p, s.parts[p], s.tree, entry); }
      }
    } else {
      QuietStep(c, e.p, part, e.kind, s.tree);
      hide PartInv, StepPart;
    }
  }

  /** A record of one partition is none of another. */
  lemma OtherPart(c: Config, p: nat, q: nat, part: Part, tree: seq<Entry>, e: Entry)
    requires p < |c.starts| && q < |c.starts| && p != q && Apart(c) && PartInv(c, p, part, tree) && Within(c, q, e)
    ensures PartInv(c, p, part, tree + [e])
  {
    hide QueueOk, InOrder;
    OfMore(c, tree, e, p);
  }

  /** Whatever the interleaving. */
  lemma {:induction false} RunInv(c: Config, s: State, es: seq<Event>, t: State)
    requires Inv(c, s) && Run(c, s, es, t)
    ensures Inv(c, t)
    decreases |es|
  {
    if es != [] {
      StepInv(c, s, es[0]);
      RunInv(c, Do(c, s, es[0]), es[1..], t);
    }
  }

  // ----- what it means -----

  /** A record that is in the tree. */
  ghost predicate Indexed(c: Config, s: State, p: nat, i: nat)
    requires |s.parts| == |c.starts|
  {
    p < |s.parts| && i < |s.parts[p].log| && i < Done(s.parts[p])
  }

  function EntryAt(c: Config, s: State, p: nat, i: nat): Entry
    requires |s.parts| == |c.starts| && p < |s.parts| && i < |s.parts[p].log|
  {
    RecordEntry(c.starts[p], s.parts[p].log, i)
  }

  /**
  In every reachable state the tree holds a prefix of each log, in the log's order; the queue, never longer
  than 2^16, holds the rest, but for a record in the backend thread's hands and one in the server's.
  */
  lemma PrefixIndexed(c: Config, s: State, es: seq<Event>, t: State, p: nat) returns (n: nat, q: nat, h: nat)
    requires Init(c, s) && Apart(c) && Run(c, s, es, t) && p < |c.starts|
    ensures p < |t.parts| && |t.parts[p].queue| <= 65536
    ensures q == (if t.parts[p].backend.Working? then 1 else 0) && h == (if t.parts[p].server.Idle? then 0 else 1)
    ensures n + q + |t.parts[p].queue| + h == |t.parts[p].log|
    ensures Of(c, t.tree, p) == Entries(c.starts[p], t.parts[p].log, n)
    ensures forall k :: 0 <= k < |t.parts[p].queue| ==> t.parts[p].queue[k] == c.starts[p] + P.ITEM * (n + q + k)
  {
    InitInv(c, s);
    RunInv(c, s, es, t);
    var part := t.parts[p];
    assert PartInv(c, p, part, t.tree);
    n, q, h := Done(part), if part.backend.Working? then 1 else 0, if part.server.Idle? then 0 else 1;
    hide Inv, Of, QueueOk, PartInv, Entries;
    forall k | 0 <= k < |part.queue| ensures part.queue[k] == c.starts[p] + P.ITEM * (n + q + k) {
      assert part.queue[k] == Pending(part)[q + k];
    }
  }

  /** The server gets past the test exactly when fewer than 2^16 tasks wait; otherwise it tests again. */
  lemma TestPasses(c: Config, s: State, es: seq<Event>, t: State, p: nat)
    requires Init(c, s) && Apart(c) && Run(c, s, es, t) && CanDo(c, t, Event(p, Test))
    ensures var before, after := t.parts[p], Do(c, t, Event(p, Test)).parts[p];
            && (after.server == Cleared(before.server.addr) <==> |before.queue| < 65536)
            && (after == before <==> |before.queue| == 65536)
            && after.(server := before.server) == before
    ensures forall q :: 0 <= q < |t.parts| && q != p ==> Do(c, t, Event(p, Test)).parts[q] == t.parts[q]
    ensures Do(c, t, Event(p, Test)).tree == t.tree
  {
    InitInv(c, s);
    RunInv(c, s, es, t);
    assert PartInv(c, p, t.parts[p], t.tree);
  }

  /** A backend thread that has seen a task always gets one. */
  lemma PopFinds(c: Config, s: State, es: seq<Event>, t: State, p: nat)
    requires Init(c, s) && Apart(c) && Run(c, s, es, t) && CanDo(c, t, Event(p, Pop))
    ensures Do(c, t, Event(p, Pop)).parts[p].backend.Working?
  {
    InitInv(c, s);
    RunInv(c, s, es, t);
    assert PartInv(c, p, t.parts[p], t.tree);
  }

  /** Without a backend thread nothing of a partition is indexed, and it takes no more than 2^16 + 1 records. */
  lemma Unserved(c: Config, s: State, es: seq<Event>, t: State, p: nat)
    requires Init(c, s) && Apart(c) && Run(c, s, es, t) && c.served <= p < |c.starts|
    ensures p < |t.parts| && Of(c, t.tree, p) == [] && |t.parts[p].log| <= 65537
  {
    InitInv(c, s);
    RunInv(c, s, es, t);
    assert PartInv(c, p, t.parts[p], t.tree);
  }

  lemma {:induction false} OfMembers(c: Config, tree: seq<Entry>, p: nat, e: Entry)
    requires p < |c.starts|
    ensures e in Of(c, tree, p) <==> e in tree && Within(c, p, e)
  {
    if tree != [] {
      var n := |tree| - 1;
      OfMembers(c, tree[..n], p, e);
      assert tree == tree[..n] + [tree[n]];
    }
  }

  /** The entry of an indexed record. */
  ghost predicate InTree(c: Config, s: State, e: Entry)
    requires |s.parts| == |c.starts|
  {
    exists p: nat, i: nat :: Indexed(c, s, p, i) && e == EntryAt(c, s, p, i)
  }

  /** What the tree holds are the indexed records. */
  lemma TreeHolds(c: Config, s: State, e: Entry)
    requires Inv(c, s)
    ensures e in s.tree <==> InTree(c, s, e)
  {
    if e in s.tree {
      assert Owned(c, e);
      var p: nat :| p < |c.starts| && Within(c, p, e);
      OfMembers(c, s.tree, p, e);
      assert PartInv(c, p, s.parts[p], s.tree);
      var es := Entries(c.starts[p], s.parts[p].log, Done(s.parts[p]));
      var i :| 0 <= i < |es| && es[i] == e;
      assert Indexed(c, s, p, i) && e == EntryAt(c, s, p, i);
    }
    if p: nat, i: nat :| Indexed(c, s, p, i) && e == EntryAt(c, s, p, i) {
      assert PartInv(c, p, s.parts[p], s.tree);
      assert e == Entries(c.starts[p], s.parts[p].log, Done(s.parts[p]))[i];
      OfMembers(c, s.tree, p, e);
    }
  }

  /** A range scan reports exactly the indexed records whose keys lie strictly inside the range. */
  lemma ScanSees(c: Config, s: State, es: seq<Event>, t: State, lo: Key, hi: Key, ptr: Ptr)
    requires Init(c, s) && Apart(c) && Run(c, s, es, t)
    ensures |t.parts| == |c.starts|
    ensures ptr in BT.Between(BT.AfterRun(t.tree), lo, hi) <==> exists e :: InTree(c, t, e) && e.ptr == ptr && lo < e.key < hi
  {
    InitInv(c, s);
    RunInv(c, s, es, t);
    BT.BetweenMembers(BT.AfterRun(t.tree), lo, hi, ptr);
    InvShape(c, t);
    forall e ensures e in BT.AfterRun(t.tree) <==> InTree(c, t, e) {
      BT.RunMembers(t.tree, e);
      TreeHolds(c, t, e);
    }
    hide Inv, InTree, BT.AfterRun, BT.Between;
  }

  lemma InvShape(c: Config, s: State)
    requires Inv(c, s)
    ensures |s.parts| == |c.starts|
  {
  }

  /** all_queue_empty: it looks at the queues of the backend threads only. */
  predicate AllQueueEmpty(c: Config, s: State)
  {
    forall p :: 0 <= p < |s.parts| && p < c.served ==> s.parts[p].queue == []
  }

  /** No thread has anything to do. */
  predicate Drained(s: State)
  {
    forall p :: 0 <= p < |s.parts| ==> s.parts[p].queue == [] && s.parts[p].server.Idle? && !s.parts[p].backend.Working?
  }

  /** Empty queues are not enough: up to two records of a partition may still be missing ... */
  lemma EmptyIsNearly(c: Config, s: State, es: seq<Event>, t: State, p: nat)
    requires Init(c, s) && Apart(c) && Run(c, s, es, t) && AllQueueEmpty(c, t) && p < c.served && p < |c.starts|
    ensures p < |t.parts| && |t.parts[p].log| - 2 <= Done(t.parts[p])
    ensures Done(t.parts[p]) == |t.parts[p].log| <==> t.parts[p].server.Idle? && !t.parts[p].backend.Working?
  {
    InitInv(c, s);
    RunInv(c, s, es, t);
  }

  /** ... and this run leaves two behind. */
  lemma TwoMissing(c: Config) returns (s: State, es: seq<Event>, t: State)
    requires |c.starts| == 1 && c.served > 0 && c.room >= 2 * P.ITEM
    ensures Init(c, s) && Run(c, s, es, t) && AllQueueEmpty(c, t) && |t.parts| == 1 && |t.parts[0].log| == 2 && Done(t.parts[0]) == 0
  {
    s := State([Part([], Idle, [], Polling)], []);
    es := [];
    t := s;
    t, es := Then(c, s, es, t, Event(0, Append(1)));
    t, es := Then(c, s, es, t, Event(0, Test));
    t, es := Then(c, s, es, t, Event(0, Push));
    t, es := Then(c, s, es, t, Event(0, Look));
    t, es := Then(c, s, es, t, Event(0, Pop));
    t, es := Then(c, s, es, t, Event(0, Append(2)));
  }

  lemma Then(c: Config, s: State, es: seq<Event>, t: State, e: Event) returns (t': State, es': seq<Event>)
    requires Run(c, s, es, t) && CanDo(c, t, e)
    ensures t' == Do(c, t, e) && es' == es + [e] && Run(c, s, es', t')
  {
    t', es' := Do(c, t, e), es + [e];
    RunThen(c, s, es, t, e);
  }

  lemma {:induction false} RunThen(c: Config, s: State, es: seq<Event>, t: State, e: Event)
    requires Run(c, s, es, t) && CanDo(c, t, e)
    ensures Run(c, s, es + [e], Do(c, t, e))
    decreases |es|
  {
    if es == [] {
      assert (es + [e])[1..] == [];
    } else {
      assert (es + [e])[1..] == es[1..] + [e];
      RunThen(c, Do(c, s, es[0]), es[1..], t, e);
    }
  }

  // ----- drained -----

  /** No key was inserted twice, in whatever partition. */
  ghost predicate DistinctKeys(s: State)
  {
    forall p, i, q, j :: 0 <= p < |s.parts| && 0 <= i < |s.parts[p].log| && 0 <= q < |s.parts| && 0 <= j < |s.parts[q].log| ==>
      s.parts[p].log[i] == s.parts[q].log[j] ==> p == q && i == j
  }

  /** The records of the first n logs, one log after the other. */
  function Listed(c: Config, s: State, n: nat): seq<Entry>
    requires |s.parts| == |c.starts| && n <= |s.parts|
  {
    if n == 0 then [] else Listed(c, s, n - 1) + Entries(c.starts[n - 1], s.parts[n - 1].log, |s.parts[n - 1].log|)
  }

  lemma {:induction false} ListedMembers(c: Config, s: State, n: nat, e: Entry)
    requires |s.parts| == |c.starts| && n <= |s.parts|
    ensures e in Listed(c, s, n) <==> exists p: nat, i: nat :: p < n && i < |s.parts[p].log| && e == EntryAt(c, s, p, i)
  {
    if n > 0 {
      ListedMembers(c, s, n - 1, e);
      var es := Entries(c.starts[n - 1], s.parts[n - 1].log, |s.parts[n - 1].log|);
      if e in es {
        var i: nat :| i < |es| && es[i] == e;
        assert e == EntryAt(c, s, n - 1, i);
      }
      if p: nat, i: nat :| p < n && i < |s.parts[p].log| && e == EntryAt(c, s, p, i) {
        if p == n - 1 { assert es[i] == e; }
      }
    }
  }

  /** Two sorted rows with the same members are the same. */
  lemma {:induction false} SortedUnique(a: seq<Entry>, b: seq<Entry>)
    requires SortedFrom(a, 0) && SortedFrom(b, 0) && forall e :: e in a <==> e in b
    ensures a == b
    decreases |a|
  {
    if a != [] { AlsoNonempty(a, b); }
    if b != [] { AlsoNonempty(b, a); }
    if a != [] {
      SmallestFirst(a, b[0]);
      SmallestFirst(b, a[0]);
      SameHead(a, b);
      TailMembers(a);
      TailMembers(b);
      SortedUnique(a[1..], b[1..]);
      assert a == [a[0]] + a[1..] && b == [b[0]] + b[1..];
    }
  }

  lemma AlsoNonempty(a: seq<Entry>, b: seq<Entry>)
    requires a != [] && forall e :: e in a ==> e in b
    ensures b != [] && a[0] in b
  {
    assert a[0] in b;
  }

  lemma SmallestFirst(a: seq<Entry>, e: Entry)
    requires SortedFrom(a, 0) && e in a
    ensures a[0].key < e.key || a[0] == e
  {
    var i :| 0 <= i < |a| && a[i] == e;
  }

  lemma SameHead(a: seq<Entry>, b: seq<Entry>)
    requires a != [] && b != []
    requires (a[0].key < b[0].key || a[0] == b[0]) && (b[0].key < a[0].key || b[0] == a[0])
    ensures a[0] == b[0]
  {
  }

  lemma TailMembers(a: seq<Entry>)
    requires a != [] && SortedFrom(a, 0)
    ensures SortedFrom(a[1..], 0) && forall e :: e in a[1..] <==> e in a && e != a[0]
  {
    assert a == [a[0]] + a[1..];
  }

  /** An entry names its record: the partition by the region, the number by the offset. */
  lemma EntryNames(c: Config, s: State, p: nat, i: nat, q: nat, j: nat)
    requires Inv(c, s) && p < |s.parts| && i < |s.parts[p].log| && q < |s.parts| && j < |s.parts[q].log|
    requires EntryAt(c, s, p, i).ptr == EntryAt(c, s, q, j).ptr
    ensures p == q && i == j
  {
    assert PartInv(c, p, s.parts[p], s.tree) && PartInv(c, q, s.parts[q], s.tree);
    hide InOrder, Of, Entries, Inv;
    RoomFor(c, p, s.parts[p], i);
    RoomFor(c, q, s.parts[q], j);
  }

  lemma RoomFor(c: Config, p: nat, part: Part, i: nat)
    requires QueueOk(c, p, part) && i < |part.log|
    ensures P.ITEM * i < P.ITEM * i + P.ITEM <= c.room
  {
  }

  /** Two entries that came from partition p keep their order. */
  lemma {:induction false} OfPair(c: Config, tree: seq<Entry>, p: nat, k: nat, l: nat) returns (x: nat, y: nat)
    requires p < |c.starts| && k < l < |tree| && Within(c, p, tree[k]) && Within(c, p, tree[l])
    ensures x < y < |Of(c, tree, p)| && Of(c, tree, p)[x] == tree[k] && Of(c, tree, p)[y] == tree[l]
  {
    var n := |tree| - 1;
    if l == n {
      y := |Of(c, tree[..n], p)|;
      OfMembers(c, tree[..n], p, tree[k]);
      assert tree[..n][k] == tree[k];
      x :| 0 <= x < |Of(c, tree[..n], p)| && Of(c, tree[..n], p)[x] == tree[k];
    } else {
      x, y := OfPair(c, tree[..n], p, k, l);
    }
  }

  lemma RecordsDiffer(c: Config, s: State, p: nat, i: nat, q: nat, j: nat)
    requires Inv(c, s) && DistinctKeys(s) && p < |s.parts| && i < |s.parts[p].log| && q < |s.parts| && j < |s.parts[q].log|
    requires p != q || i != j
    ensures EntryAt(c, s, p, i).key != EntryAt(c, s, q, j).key && EntryAt(c, s, p, i).ptr != EntryAt(c, s, q, j).ptr
  {
    if EntryAt(c, s, p, i).ptr == EntryAt(c, s, q, j).ptr { EntryNames(c, s, p, i, q, j); }
    hide Inv;
  }

  /** No record is put into the tree twice. */
  lemma TwiceNever(c: Config, s: State, k: nat, l: nat)
    requires Inv(c, s) && k < l < |s.tree|
    ensures s.tree[k].ptr != s.tree[l].ptr
  {
    assert Owned(c, s.tree[k]);
    var p: nat :| p < |c.starts| && Within(c, p, s.tree[k]);
    assert PartInv(c, p, s.parts[p], s.tree);
    if Within(c, p, s.tree[l]) {
      var x, y := OfPair(c, s.tree, p, k, l);
      Offsets(c.starts[p], s.parts[p].log, Done(s.parts[p]), x, y);
    }
  }

  lemma Offsets(start: nat, log: seq<Key>, n: nat, x: nat, y: nat)
    requires x < y < n <= |log|
    ensures Entries(start, log, n)[x].ptr != Entries(start, log, n)[y].ptr
  {
  }

  lemma TreeFresh(c: Config, s: State)
    requires Inv(c, s) && DistinctKeys(s)
    ensures BT.FreshRun(s.tree)
  {
    forall k | 0 <= k < |s.tree| ensures s.tree[k].ptr.Value? { assert Owned(c, s.tree[k]); }
    InvShape(c, s);
    hide Inv, DistinctKeys, EntryAt;
    forall k, l | 0 <= k < l < |s.tree| ensures s.tree[k].key != s.tree[l].key && s.tree[k].ptr != s.tree[l].ptr {
      TwiceNever(c, s, k, l);
      TreeHolds(c, s, s.tree[k]);
      TreeHolds(c, s, s.tree[l]);
      var p: nat, i: nat :| Indexed(c, s, p, i) && s.tree[k] == EntryAt(c, s, p, i);
      var q: nat, j: nat :| Indexed(c, s, q, j) && s.tree[l] == EntryAt(c, s, q, j);
      RecordsDiffer(c, s, p, i, q, j);
    }
  }

  /** The n-th log. */
  function LogEntries(c: Config, s: State, n: nat): seq<Entry>
    requires |s.parts| == |c.starts| && n < |s.parts|
  {
    Entries(c.starts[n], s.parts[n].log, |s.parts[n].log|)
  }

  lemma LogEntriesAt(c: Config, s: State, n: nat, i: nat)
    requires |s.parts| == |c.starts| && n < |s.parts| && i < |LogEntries(c, s, n)|
    ensures i < |s.parts[n].log| && LogEntries(c, s, n)[i] == EntryAt(c, s, n, i)
  {
  }

  lemma LogFresh(c: Config, s: State, n: nat)
    requires Inv(c, s) && DistinctKeys(s) && n < |s.parts|
    ensures BT.FreshRun(LogEntries(c, s, n))
  {
    InvShape(c, s);
    var b := LogEntries(c, s, n);
    hide Inv, DistinctKeys, LogEntries;
    forall i: nat | i < |b| ensures b[i].ptr.Value? { LogEntriesAt(c, s, n, i); }
    hide EntryAt;
    forall i: nat, j: nat | i < j < |b| ensures b[i].key != b[j].key && b[i].ptr != b[j].ptr {
      LogEntriesAt(c, s, n, i);
      LogEntriesAt(c, s, n, j);
      RecordsDiffer(c, s, n, i, n, j);
    }
  }

  lemma LogsDiffer(c: Config, s: State, n: nat, i: nat, j: nat)
    requires Inv(c, s) && DistinctKeys(s) && n < |s.parts|
    requires i < |Listed(c, s, n)| && j < |LogEntries(c, s, n)|
    ensures Listed(c, s, n)[i].key != LogEntries(c, s, n)[j].key && Listed(c, s, n)[i].ptr != LogEntries(c, s, n)[j].ptr
  {
    InvShape(c, s);
    hide Inv, DistinctKeys, LogEntries, Listed, EntryAt;
    var e := Listed(c, s, n)[i];
    ListedMembers(c, s, n, e);
    var p: nat, k: nat :| p < n && k < |s.parts[p].log| && e == EntryAt(c, s, p, k);
    LogEntriesAt(c, s, n, j);
    RecordsDiffer(c, s, p, k, n, j);
  }

  lemma {:induction false} ListedFresh(c: Config, s: State, n: nat)
    requires Inv(c, s) && DistinctKeys(s) && n <= |s.parts|
    ensures BT.FreshRun(Listed(c, s, n))
  {
    hide *;
    InvShape(c, s);
    if n == 0 {
      ListedNone(c, s);
    } else {
      ListedFresh(c, s, n - 1);
      LogFresh(c, s, n - 1);
      ListedStep(c, s, n);
      var a, b := Listed(c, s, n - 1), LogEntries(c, s, n - 1);
      forall i: nat, j: nat | i < |a| && j < |b| ensures a[i].key != b[j].key && a[i].ptr != b[j].ptr {
        LogsDiffer(c, s, n - 1, i, j);
      }
      FreshTogether(a, b);
    }
  }

  lemma ListedNone(c: Config, s: State)
    requires |s.parts| == |c.starts|
    ensures BT.FreshRun(Listed(c, s, 0))
  {
  }

  lemma ListedStep(c: Config, s: State, n: nat)
    requires |s.parts| == |c.starts| && 0 < n <= |s.parts|
    ensures Listed(c, s, n) == Listed(c, s, n - 1) + LogEntries(c, s, n - 1)
  {
  }

  lemma FreshTogether(a: seq<Entry>, b: seq<Entry>)
    requires BT.FreshRun(a) && BT.FreshRun(b)
    requires forall i, j :: 0 <= i < |a| && 0 <= j < |b| ==> a[i].key != b[j].key && a[i].ptr != b[j].ptr
    ensures BT.FreshRun(a + b)
  {
  }

  /** A drained tree has every record. */
  lemma DrainedMembers(c: Config, s: State, e: Entry)
    requires Inv(c, s) && Drained(s)
    ensures e in s.tree <==> e in Listed(c, s, |s.parts|)
  {
    InvShape(c, s);
    forall p | 0 <= p < |s.parts| ensures Done(s.parts[p]) == |s.parts[p].log| {}
    TreeHolds(c, s, e);
    ListedMembers(c, s, |s.parts|, e);
    hide Inv, Listed, EntryAt, Drained, Done;
    if p: nat, i: nat :| p < |s.parts| && i < |s.parts[p].log| && e == EntryAt(c, s, p, i) {
      assert Indexed(c, s, p, i);
    }
  }

  /**
  When the queues have drained, the tree is what it would be had the logs been read into it one after the
  other: a range scan is the sorted filter of the logs.
  */
  lemma DrainedScan(c: Config, s: State, es: seq<Event>, t: State, lo: Key, hi: Key)
    requires Init(c, s) && Apart(c) && Run(c, s, es, t) && Drained(t) && DistinctKeys(t)
    ensures |t.parts| == |c.starts|
    ensures BT.AfterRun(t.tree) == BT.AfterRun(Listed(c, t, |t.parts|))
    ensures BT.Between(BT.AfterRun(t.tree), lo, hi) == BT.Between(BT.AfterRun(Listed(c, t, |t.parts|)), lo, hi)
  {
    hide *;
    InitInv(c, s);
    RunInv(c, s, es, t);
    InvShape(c, t);
    TreeFresh(c, t);
    ListedFresh(c, t, |t.parts|);
    var all := Listed(c, t, |t.parts|);
    BT.RunSorted(t.tree);
    BT.RunSorted(all);
    forall e ensures e in BT.AfterRun(t.tree) <==> e in BT.AfterRun(all) {
      BT.RunMembers(t.tree, e);
      BT.RunMembers(all, e);
      DrainedMembers(c, t, e);
    }
    SortedUnique(BT.AfterRun(t.tree), BT.AfterRun(all));
  }

  /** btree_search_range on the tree of a drained state: the sorted filter of the logs. */
  method ScanDrained(c: Config, ghost s: State, ghost es: seq<Event>, t: State, cardinality: nat, lo: Key, hi: Key) returns (buf: seq<Ptr>)
    requires Init(c, s) && Apart(c) && Run(c, s, es, t) && Drained(t) && DistinctKeys(t) && cardinality >= 4
    ensures |t.parts| == |c.starts| && buf == BT.Between(BT.AfterRun(Listed(c, t, |t.parts|)), lo, hi)
  {
    hide *;
    InitInv(c, s);
    RunInv(c, s, es, t);
    TreeFresh(c, t);
    DrainedScan(c, s, es, t, lo, hi);
    buf := BT.ScanAfterRun(t.tree, cardinality, lo, hi);
  }

  /** btree_search_range on the tree of any reachable state: exactly the indexed records inside the range. */
  method ScanNow(c: Config, ghost s: State, ghost es: seq<Event>, t: State, cardinality: nat, lo: Key, hi: Key) returns (buf: seq<Ptr>)
    requires Init(c, s) && Apart(c) && Run(c, s, es, t) && DistinctKeys(t) && cardinality >= 4
    ensures |t.parts| == |c.starts|
    ensures forall p :: p in buf <==> exists e :: InTree(c, t, e) && e.ptr == p && lo < e.key < hi
    ensures forall i, j :: 0 <= i < j < |buf| ==> BT.Ascend(t.tree, buf[i], buf[j])
  {
    hide *;
    InitInv(c, s);
    RunInv(c, s, es, t);
    InvShape(c, t);
    TreeFresh(c, t);
    buf := BT.ScanAfterRun(t.tree, cardinality, lo, hi);
    forall p ensures p in buf <==> exists e :: InTree(c, t, e) && e.ptr == p && lo < e.key < hi { ScanSees(c, s, es, t, lo, hi, p); }
  }

  // ----- progress -----

  /** The server of a partition without a backend thread never gets past a full queue. */
  lemma {:induction false} Blocked(c: Config, s: State, es: seq<Event>, t: State, p: nat)
    requires Run(c, s, es, t) && c.served <= p < |s.parts|
    requires |s.parts[p].queue| == 65536 && s.parts[p].server.Holding?
    ensures p < |t.parts| && t.parts[p] == s.parts[p]
    decreases |es|
  {
    if es != [] { Blocked(c, Do(c, s, es[0]), es[1..], t, p); }
  }

  /** A run of n inserts into a partition that nobody serves. */
  lemma {:induction false} FillQueue(c: Config, n: nat) returns (s: State, es: seq<Event>, t: State)
    requires |c.starts| == 1 && c.served == 0 && P.ITEM * n <= c.room && n <= 65536
    ensures Init(c, s) && Run(c, s, es, t) && |t.parts| == 1
    ensures |t.parts[0].log| == |t.parts[0].queue| == n && t.parts[0].server.Idle?
  {
    if n == 0 {
      s := State([Part([], Idle, [], Polling)], []);
      es, t := [], s;
    } else {
      s, es, t := FillQueue(c, n - 1);
      t, es := Then(c, s, es, t, Event(0, Append(n)));
      t, es := Then(c, s, es, t, Event(0, Test));
      t, es := Then(c, s, es, t, Event(0, Push));
    }
  }

  /** The state that Blocked speaks of is reached: 2^16 + 1 records, and the server is stuck. */
  lemma ReachesBlocked(c: Config) returns (s: State, es: seq<Event>, t: State)
    requires |c.starts| == 1 && c.served == 0 && c.room >= P.ITEM * 65537
    ensures Init(c, s) && Run(c, s, es, t) && |t.parts| == 1
    ensures |t.parts[0].log| == 65537 && |t.parts[0].queue| == 65536 && t.parts[0].server.Holding? && AllQueueEmpty(c, t)
  {
    s, es, t := FillQueue(c, 65536);
    t, es := Then(c, s, es, t, Event(0, Append(0)));
  }

  /** The steps left until the partition's records are in the tree. */
  function Left(part: Part): int
  {
    (match part.server case Holding(_) => 5 case Cleared(_) => 4 case Idle => 0) + 3 * |part.queue|
    + (match part.backend case Polling => 0 case Saw => -1 case Working(_) => 1)
  }

  function AllLeft(parts: seq<Part>): int
  {
    if parts == [] then 0 else AllLeft(parts[..|parts| - 1]) + Left(parts[|parts| - 1])
  }

  lemma {:induction false} LeftChanges(parts: seq<Part>, p: nat, part: Part)
    requires p < |parts|
    ensures AllLeft(parts[p := part]) == AllLeft(parts) - Left(parts[p]) + Left(part)
  {
    var n := |parts| - 1;
    if p == n {
      assert parts[p := part][..n] == parts[..n];
    } else {
      assert parts[p := part][..n] == parts[..n][p := part];
      LeftChanges(parts[..n], p, part);
    }
  }

  lemma {:induction false} LeftNatural(parts: seq<Part>)
    requires forall p :: 0 <= p < |parts| ==> Left(parts[p]) >= 0
    ensures AllLeft(parts) >= 0
  {
    if parts != [] { LeftNatural(parts[..|parts| - 1]); }
  }

  /** The next step of a partition that is not drained. */
  function NextKind(part: Part): Kind
  {
    if part.backend.Working? then Index
    else if part.queue != [] then (if part.backend.Saw? then Pop else Look)
    else if part.server.Holding? then Test else Push
  }

  lemma NextStep(c: Config, s: State, p: nat) returns (e: Event)
    requires Inv(c, s) && p < |s.parts| && p < c.served
    requires s.parts[p].queue != [] || !s.parts[p].server.Idle? || s.parts[p].backend.Working?
    ensures CanDo(c, s, e) && AllLeft(Do(c, s, e).parts) < AllLeft(s.parts)
    ensures forall q :: 0 <= q < |s.parts| ==> Do(c, s, e).parts[q].log == s.parts[q].log
  {
    assert PartInv(c, p, s.parts[p], s.tree);
    e := Event(p, NextKind(s.parts[p]));
    hide Inv, InOrder, AllLeft;
    LeftChanges(s.parts, p, StepPart(s.parts[p], c.starts[p], e.kind));
  }

  ghost predicate SameLogs(s: State, t: State)
  {
    |s.parts| == |t.parts| && forall q :: 0 <= q < |s.parts| ==> t.parts[q].log == s.parts[q].log
  }

  /** When every partition has a backend thread, whatever has been logged can always be drained. */
  lemma {:induction false} Drains(c: Config, s: State) returns (es: seq<Event>, t: State)
    requires Inv(c, s) && |s.parts| <= c.served
    ensures Run(c, s, es, t) && Drained(t) && SameLogs(s, t)
    decreases AllLeft(s.parts)
  {
    if Drained(s) {
      es, t := [], s;
    } else {
      var p: nat :| p < |s.parts| && !(s.parts[p].queue == [] && s.parts[p].server.Idle? && !s.parts[p].backend.Working?);
      var e := NextStep(c, s, p);
      StepInv(c, s, e);
      NaturalLeft(c, s);
      hide Inv, Do, AllLeft;
      es, t := Drains(c, Do(c, s, e));
      es := [e] + es;
    }
  }

  lemma NaturalLeft(c: Config, s: State)
    requires Inv(c, s)
    ensures AllLeft(s.parts) >= 0
  {
    forall p | 0 <= p < |s.parts| ensures Left(s.parts[p]) >= 0 { assert PartInv(c, p, s.parts[p], s.tree); }
    LeftNatural(s.parts);
  }
}
