/**
The mailbox protocol of tbb/aggregator.h: any number of threads push operations onto an atomic list; the
thread that finds the list empty waits for the handler flag, takes the whole list and runs it for
everyone.  One step of the machine is one access to shared memory by one thread; runs interleave
the steps in every way.  Operations live at addresses that may be used again as soon as
execute_impl has returned.
*/
module Aggregator {
  const NULL: nat := 0
  const NOBODY: int := -1

  /** An aggregator_operation in memory; id tells submissions apart, whatever their addresses. */
  datatype Cell = Cell(next: nat, done: bool, id: nat)

  /** Where a thread is in execute_impl, start_handle_operations or the handler's loop. */
  datatype Stage =
    | Read                          // about to read the mailbox into its operation's next
    | Swap(res: nat)                // about to compare_and_swap the mailbox against res
    | Spin                          // first in the list: watching handler_busy
    | Free                          // has seen handler_busy == 0
    | Grab                          // has set handler_busy, about to take the list
    | Walk(list: nat)               // at the head of the handler's loop
    | Apply(cur: nat, rest: nat)    // has read cur's next
    | Finish(cur: nat, rest: nat)   // has run cur's body
    | Release                       // the list is done
    | Wait                          // not first: watching its own status
    | Return                        // back from start_handle_operations

  /** A thread: outside, or inside execute_impl with its operation. */
  datatype Thread = Idle | Active(stage: Stage, addr: nat, id: nat)

  /** An operation in a list: whose it is and where. */
  datatype Item = Item(owner: nat, addr: nat, id: nat)

  /** What the code shares, and what each thread is doing; applied logs the operations that were run. */
  datatype State = State(mailbox: nat, busy: bool, mem: map<nat, Cell>, threads: seq<Thread>,
                         count: nat, applied: seq<nat>, returned: set<nat>, aux: Aux)

  /** Bookkeeping no step looks at: the operations in the mailbox (newest first) and in the handler's hands,
      the owners of both, the thread that will handle next and the one that handles now. */
  datatype Aux = Aux(pend: seq<Item>, batch: seq<Item>, waiters: set<nat>, leader: int, holder: int)

  predicate Live(s: State, t: nat)
  {
    t < |s.threads| && s.threads[t].Active?
  }

  ghost predicate InUse(threads: seq<Thread>, x: nat)
  {
    exists t :: 0 <= t < |threads| && threads[t].Active? && threads[t].addr == x
  }

  function At(threads: seq<Thread>, t: nat, stage: Stage): seq<Thread>
    requires t < |threads| && threads[t].Active?
  {
    threads[t := threads[t].(stage := stage)]
  }

  // ----- the steps -----

  /** execute_impl begins, with an operation at an address nobody is using. */
  ghost predicate Start(s: State, s': State, t: nat, x: nat)
    requires t < |s.threads|
  {
    && s.threads[t].Idle? && x != NULL && !InUse(s.threads, x)
    && s' == s.(mem := s.mem[x := Cell(NULL, false, s.count)], threads := s.threads[t := Active(Read, x, s.count)], count := s.count + 1)
  }

  /** op.my_next = res = mailbox. */
  predicate ReadBox(s: State, s': State, t: nat)
    requires Live(s, t)
  {
    var x := s.threads[t].addr;
    && s.threads[t].stage.Read? && x in s.mem
    && s' == s.(mem := s.mem[x := s.mem[x].(next := s.mailbox)], threads := At(s.threads, t, Swap(s.mailbox)))
  }

  /** mailbox.compare_and_swap(&op, res) fails: another operation came between. */
  predicate CasFails(s: State, s': State, t: nat)
    requires Live(s, t)
  {
    s.threads[t].stage.Swap? && s.mailbox != s.threads[t].stage.res && s' == s.(threads := At(s.threads, t, Read))
  }

  /** It succeeds: the operation is in the list, and the first one's thread goes on to handle the list. */
  predicate CasSucceeds(s: State, s': State, t: nat)
    requires Live(s, t)
  {
    var me := s.threads[t];
    && me.stage.Swap? && s.mailbox == me.stage.res
    && s' == s.(mailbox := me.addr, threads := At(s.threads, t, if me.stage.res == NULL then Spin else Wait),
                aux := s.aux.(pend := [Item(t, me.addr, me.id)] + s.aux.pend, waiters := s.aux.waiters + {t},
                              leader := if me.stage.res == NULL then t else s.aux.leader))
  }

  /** spin_wait_until_eq(handler_busy, 0). */
  predicate Watch(s: State, s': State, t: nat)
    requires Live(s, t)
  {
    s.threads[t].stage.Spin? && s' == if s.busy then s else s.(threads := At(s.threads, t, Free))
  }

  /** The plain store handler_busy = 1. */
  predicate SetBusy(s: State, s': State, t: nat)
    requires Live(s, t)
  {
    s.threads[t].stage.Free? && s' == s.(busy := true, threads := At(s.threads, t, Grab), aux := s.aux.(holder := t))
  }

  /** mailbox.fetch_and_store(NULL). */
  predicate Take(s: State, s': State, t: nat)
    requires Live(s, t)
  {
    && s.threads[t].stage.Grab?
    && s' == s.(mailbox := NULL, threads := At(s.threads, t, Walk(s.mailbox)),
                aux := s.aux.(pend := [], batch := s.aux.pend, leader := NOBODY))
  }

  /** The loop test, and the read of next before the operation is run. */
  predicate Advance(s: State, s': State, t: nat)
    requires Live(s, t)
  {
    && s.threads[t].stage.Walk?
    && var p := s.threads[t].stage.list;
    if p == NULL then s' == s.(threads := At(s.threads, t, Release))
    else p in s.mem && s' == s.(threads := At(s.threads, t, Apply(p, s.mem[p].next)))
  }

  /** apply_body. */
  predicate RunBody(s: State, s': State, t: nat)
    requires Live(s, t)
  {
    && s.threads[t].stage.Apply?
    && var p := s.threads[t].stage.cur;
    p in s.mem && s' == s.(applied := s.applied + [s.mem[p].id], threads := At(s.threads, t, Finish(p, s.threads[t].stage.rest)))
  }

  /** finish: the status store that lets the owner go. */
  predicate SetDone(s: State, s': State, t: nat)
    requires Live(s, t)
  {
    && s.threads[t].stage.Finish? && s.aux.batch != []
    && var p := s.threads[t].stage.cur;
    && p in s.mem
    && s' == s.(mem := s.mem[p := s.mem[p].(done := true)], threads := At(s.threads, t, Walk(s.threads[t].stage.rest)),
                aux := s.aux.(batch := s.aux.batch[1..], waiters := s.aux.waiters - {s.aux.batch[0].owner}))
  }

  /** handler_busy = 0. */
  predicate ClearBusy(s: State, s': State, t: nat)
    requires Live(s, t)
  {
    s.threads[t].stage.Release? && s' == s.(busy := false, threads := At(s.threads, t, Return), aux := s.aux.(holder := NOBODY))
  }

  /** execute_impl returns, at once after handling or when the status says so. */
  predicate Leave(s: State, s': State, t: nat)
    requires Live(s, t)
  {
    var me := s.threads[t];
    && (me.stage.Return? || (me.stage.Wait? && me.addr in s.mem && s.mem[me.addr].done))
    && s' == s.(threads := s.threads[t := Idle], returned := s.returned + {me.id})
  }

  /** One step of thread t. */
  ghost predicate Step(s: State, s': State, t: nat, x: nat)
  {
    && t < |s.threads|
    && if s.threads[t].Idle? then Start(s, s', t, x)
       else
         || ReadBox(s, s', t) || CasFails(s, s', t) || CasSucceeds(s, s', t) || Watch(s, s', t) || SetBusy(s, s', t) || Take(s, s', t)
         || Advance(s, s', t) || RunBody(s, s', t) || SetDone(s, s', t) || ClearBusy(s, s', t) || Leave(s, s', t)
  }

  ghost predicate Init(s: State)
  {
    && s.mailbox == NULL && !s.busy && (forall t :: 0 <= t < |s.threads| ==> s.threads[t].Idle?)
    && s.count == 0 && s.applied == [] && s.returned == {} && s.aux == Aux([], [], {}, NOBODY, NOBODY)
  }

  // ----- the invariant: who owns what -----

  /** Not in any list yet. */
  predicate Private(th: Thread)
  {
    th.Active? && (th.stage.Read? || th.stage.Swap?)
  }

  ghost predicate Owners(threads: seq<Thread>, mem: map<nat, Cell>, count: nat)
  {
    && (forall t :: 0 <= t < |threads| && threads[t].Active? ==>
         && threads[t].addr != NULL && threads[t].addr in mem
         && mem[threads[t].addr].id == threads[t].id < count
         && (Private(threads[t]) ==> !mem[threads[t].addr].done))
    && (forall t, u :: 0 <= t < u < |threads| && threads[t].Active? && threads[u].Active? ==>
         threads[t].addr != threads[u].addr && threads[t].id != threads[u].id)
  }

  /** The lists hold operations in progress, each once, and the waiters are their owners. */
  ghost predicate Items(threads: seq<Thread>, l: seq<Item>, waiters: set<nat>)
  {
    && (forall i :: 0 <= i < |l| ==>
         && l[i].owner in waiters && l[i].owner < |threads| && threads[l[i].owner].Active?
         && threads[l[i].owner].addr == l[i].addr && threads[l[i].owner].id == l[i].id)
    && (forall i, j :: 0 <= i < j < |l| ==> l[i].owner != l[j].owner)
    && |waiters| == |l|
  }

  /** Waiting means shared and not finished. */
  ghost predicate Waiters(threads: seq<Thread>, mem: map<nat, Cell>, waiters: set<nat>)
  {
    && (forall t :: t in waiters ==> t < |threads|)
    && (forall t :: 0 <= t < |threads| ==>
         (t in waiters <==> threads[t].Active? && !Private(threads[t]) && threads[t].addr in mem && !mem[threads[t].addr].done))
  }

  ghost predicate Base(threads: seq<Thread>, mem: map<nat, Cell>, count: nat, l: seq<Item>, waiters: set<nat>)
  {
    Owners(threads, mem, count) && Items(threads, l, waiters) && Waiters(threads, mem, waiters)
  }

  /** A change of stage, private or shared as before. */
  lemma BaseStage(threads: seq<Thread>, mem: map<nat, Cell>, count: nat, l: seq<Item>, waiters: set<nat>, t: nat, st: Stage)
    requires Base(threads, mem, count, l, waiters) && t < |threads| && threads[t].Active?
    requires Private(threads[t]) <==> Private(threads[t].(stage := st))
    ensures Base(At(threads, t, st), mem, count, l, waiters)
  {
    var threads' := At(threads, t, st);
    assert forall u :: 0 <= u < |threads| && u != t ==> threads'[u] == threads[u];
  }

  lemma BaseStart(threads: seq<Thread>, mem: map<nat, Cell>, count: nat, l: seq<Item>, waiters: set<nat>, t: nat, x: nat)
    requires Base(threads, mem, count, l, waiters) && t < |threads| && threads[t].Idle? && x != NULL && !InUse(threads, x)
    ensures Base(threads[t := Active(Read, x, count)], mem[x := Cell(NULL, false, count)], count + 1, l, waiters)
  {
    var threads', mem' := threads[t := Active(Read, x, count)], mem[x := Cell(NULL, false, count)];
    assert forall u :: 0 <= u < |threads| && u != t ==> threads'[u] == threads[u];
    assert forall u :: 0 <= u < |threads| && threads[u].Active? ==> mem'[threads[u].addr] == mem[threads[u].addr];
  }

  lemma BaseRead(threads: seq<Thread>, mem: map<nat, Cell>, count: nat, l: seq<Item>, waiters: set<nat>, t: nat, next: nat)
    requires Base(threads, mem, count, l, waiters) && t < |threads| && threads[t].Active? && threads[t].addr in mem
    ensures Base(threads, mem[threads[t].addr := mem[threads[t].addr].(next := next)], count, l, waiters)
  {
  }

  lemma BaseCas(threads: seq<Thread>, mem: map<nat, Cell>, count: nat, a: seq<Item>, b: seq<Item>, waiters: set<nat>, t: nat, st: Stage)
    requires Base(threads, mem, count, a + b, waiters) && t < |threads| && Private(threads[t])
    requires !Private(threads[t].(stage := st))
    ensures Base(At(threads, t, st), mem, count, a + ([Item(t, threads[t].addr, threads[t].id)] + b), waiters + {t})
  {
    var threads' := At(threads, t, st);
    var l := a + ([Item(t, threads[t].addr, threads[t].id)] + b);
    assert forall u :: 0 <= u < |threads| && u != t ==> threads'[u] == threads[u];
    assert t !in waiters && Items(threads', a + b, waiters);
    ItemsMiddle(threads', a, b, waiters, Item(t, threads[t].addr, threads[t].id));
  }

  lemma ItemsMiddle(threads: seq<Thread>, a: seq<Item>, b: seq<Item>, waiters: set<nat>, m: Item)
    requires Items(threads, a + b, waiters) && m.owner !in waiters && m.owner < |threads|
    requires threads[m.owner].Active? && threads[m.owner].addr == m.addr && threads[m.owner].id == m.id
    ensures Items(threads, a + ([m] + b), waiters + {m.owner})
  {
    var l, l' := a + b, a + ([m] + b);
    assert forall i :: 0 <= i < |a| ==> l'[i] == l[i];
    assert l'[|a|] == m;
    assert forall i :: |a| < i < |l'| ==> l'[i] == l[i - 1];
    forall i, j | 0 <= i < j < |l'| ensures l'[i].owner != l'[j].owner {
      assert i < |a| || i == |a| || l'[i] == l[i - 1];
      assert j < |a| || j == |a| || l'[j] == l[j - 1];
    }
  }

  lemma BaseDone(threads: seq<Thread>, mem: map<nat, Cell>, count: nat, l: seq<Item>, waiters: set<nat>)
    requires Base(threads, mem, count, l, waiters) && l != [] && l[0].addr in mem
    ensures Base(threads, mem[l[0].addr := mem[l[0].addr].(done := true)], count, l[1..], waiters - {l[0].owner})
  {
    var o := l[0].owner;
    assert threads[o].addr == l[0].addr;
    var mem' := mem[l[0].addr := mem[l[0].addr].(done := true)];
    assert forall u :: 0 <= u < |threads| && threads[u].Active? && u != o ==> mem'[threads[u].addr] == mem[threads[u].addr];
  }

  lemma BaseLeave(threads: seq<Thread>, mem: map<nat, Cell>, count: nat, l: seq<Item>, waiters: set<nat>, t: nat)
    requires Base(threads, mem, count, l, waiters) && t < |threads| && t !in waiters
    ensures Base(threads[t := Idle], mem, count, l, waiters)
  {
    var threads' := threads[t := Idle];
    assert forall u :: 0 <= u < |threads| && u != t ==> threads'[u] == threads[u];
  }

  // ----- the invariant: how the lists are linked -----

  function HeadOf(l: seq<Item>): nat
  {
    if l == [] then NULL else l[0].addr
  }

  function NextIn(l: seq<Item>, i: nat): nat
  {
    if i + 1 < |l| then l[i + 1].addr else NULL
  }

  /** The operations of the list, linked through next from `head` on. */
  ghost predicate Chain(mem: map<nat, Cell>, l: seq<Item>, head: nat)
  {
    && head == HeadOf(l)
    && forall i :: 0 <= i < |l| ==> l[i].addr in mem && mem[l[i].addr].next == NextIn(l, i)
  }

  lemma ChainStays(mem: map<nat, Cell>, mem': map<nat, Cell>, l: seq<Item>, head: nat)
    requires Chain(mem, l, head)
    requires forall i :: 0 <= i < |l| && l[i].addr in mem ==> l[i].addr in mem' && mem'[l[i].addr].next == mem[l[i].addr].next
    ensures Chain(mem', l, head)
  {
  }

  lemma ChainTail(mem: map<nat, Cell>, l: seq<Item>, head: nat)
    requires Chain(mem, l, head) && l != []
    ensures head == l[0].addr && head in mem && Chain(mem, l[1..], mem[head].next)
  {
    var r := l[1..];
    assert mem[head].next == NextIn(l, 0) == HeadOf(r);
    forall i | 0 <= i < |r| ensures r[i].addr in mem && mem[r[i].addr].next == NextIn(r, i) {
      assert r[i] == l[i + 1] && NextIn(r, i) == NextIn(l, i + 1);
    }
  }

  lemma ChainCons(mem: map<nat, Cell>, l: seq<Item>, head: nat, m: Item)
    requires Chain(mem, l, head) && m.addr in mem && mem[m.addr].next == head
    ensures Chain(mem, [m] + l, m.addr)
  {
    var l' := [m] + l;
    assert NextIn(l', 0) == HeadOf(l);
    forall i | 0 < i < |l'| ensures l'[i].addr in mem && mem[l'[i].addr].next == NextIn(l', i) {
      assert l'[i] == l[i - 1] && NextIn(l', i) == NextIn(l, i - 1);
    }
  }

  /** An address that no shared operation has is in no list. */
  lemma NotListed(threads: seq<Thread>, mem: map<nat, Cell>, count: nat, a: seq<Item>, b: seq<Item>, waiters: set<nat>, x: nat)
    requires Base(threads, mem, count, a + b, waiters)
    requires forall t :: 0 <= t < |threads| && threads[t].Active? && threads[t].addr == x ==> t !in waiters
    ensures forall i :: 0 <= i < |a| ==> a[i].addr != x
    ensures forall i :: 0 <= i < |b| ==> b[i].addr != x
  {
    var l := a + b;
    assert forall i :: 0 <= i < |a| ==> a[i] == l[i];
    assert forall i :: 0 <= i < |b| ==> b[i] == l[|a| + i];
  }

  // ----- the invariant: who does what -----

  predicate Leads(th: Thread)
  {
    th.Active? && (th.stage.Spin? || th.stage.Free? || th.stage.Grab?)
  }

  predicate Handles(th: Thread)
  {
    th.Active? && (th.stage.Grab? || th.stage.Walk? || th.stage.Apply? || th.stage.Finish? || th.stage.Release?)
  }

  /** One thread leads, the one whose operation ends the mailbox list; one thread handles, while the flag is up. */
  ghost predicate Roles(threads: seq<Thread>, busy: bool, aux: Aux)
  {
    && (forall t :: 0 <= t < |threads| ==> (Leads(threads[t]) <==> t == aux.leader) && (Handles(threads[t]) <==> t == aux.holder))
    && NOBODY <= aux.leader < |threads| && NOBODY <= aux.holder < |threads|
    && (if aux.pend == [] then aux.leader == NOBODY else aux.leader == aux.pend[|aux.pend| - 1].owner)
    && (busy <==> aux.holder != NOBODY)
    && (forall t :: 0 <= t < |threads| && threads[t].Active? && threads[t].stage.Free? ==> !busy)
  }

  /** What the handler has in its hands is the rest of the list it took, which ends with its own operation. */
  ghost predicate Holding(threads: seq<Thread>, mem: map<nat, Cell>, aux: Aux)
  {
    && (aux.holder < 0 || aux.holder >= |threads| || threads[aux.holder].Idle? ==> aux.batch == [])
    && (0 <= aux.holder < |threads| && threads[aux.holder].Active? ==>
         match threads[aux.holder].stage
         case Walk(p) => Chain(mem, aux.batch, p) && (aux.batch == [] ==> aux.holder !in aux.waiters)
         case Apply(p, q) => aux.batch != [] && p == aux.batch[0].addr && p in mem && Chain(mem, aux.batch[1..], q)
         case Finish(p, q) => aux.batch != [] && p == aux.batch[0].addr && p in mem && Chain(mem, aux.batch[1..], q)
         case Release => aux.batch == [] && aux.holder !in aux.waiters
         case _ => aux.batch == [])
    && (aux.batch != [] ==> aux.batch[|aux.batch| - 1].owner == aux.holder)
    && (forall t :: 0 <= t < |threads| && threads[t].Active? && threads[t].stage.Return? ==> t !in aux.waiters)
  }

  // ----- the invariant: what has been run -----

  /** Whose operation has been run and not been finished yet. */
  function Running(threads: seq<Thread>, aux: Aux): int
  {
    if 0 <= aux.holder < |threads| && threads[aux.holder].Active? && threads[aux.holder].stage.Finish? && aux.batch != [] then aux.batch[0].owner
    else NOBODY
  }

  ghost predicate Books(threads: seq<Thread>, mem: map<nat, Cell>, count: nat, applied: seq<nat>, returned: set<nat>, running: int)
  {
    && (forall t :: 0 <= t < |threads| && threads[t].Active? && threads[t].addr in mem ==>
         (threads[t].id in applied <==> mem[threads[t].addr].done || t == running))
    && (forall i, j :: 0 <= i < j < |applied| ==> applied[i] != applied[j])
    && (forall i :: 0 <= i < |applied| ==> applied[i] < count)
    && (forall id :: id in returned ==> id in applied)
  }

  /** A thread about to swap has its operation pointing at what it read. */
  ghost predicate Swaps(threads: seq<Thread>, mem: map<nat, Cell>)
  {
    forall t :: 0 <= t < |threads| && threads[t].Active? && threads[t].stage.Swap? && threads[t].addr in mem ==>
      mem[threads[t].addr].next == threads[t].stage.res
  }

  ghost predicate Inv(s: State)
  {
    && Swaps(s.threads, s.mem)
    && Base(s.threads, s.mem, s.count, s.aux.batch + s.aux.pend, s.aux.waiters)
    && Chain(s.mem, s.aux.pend, s.mailbox)
    && Roles(s.threads, s.busy, s.aux)
    && Holding(s.threads, s.mem, s.aux)
    && Books(s.threads, s.mem, s.count, s.applied, s.returned, Running(s.threads, s.aux))
  }

  lemma InitInv(s: State)
    requires Init(s)
    ensures Inv(s)
  {
  }

  lemma BooksStage(threads: seq<Thread>, mem: map<nat, Cell>, count: nat, applied: seq<nat>, returned: set<nat>, running: int, t: nat, st: Stage)
    requires Books(threads, mem, count, applied, returned, running) && t < |threads| && threads[t].Active?
    ensures Books(At(threads, t, st), mem, count, applied, returned, running)
  {
  }

  lemma StartInv(s: State, s': State, t: nat, x: nat)
    requires Inv(s) && t < |s.threads| && Start(s, s', t, x)
    ensures Inv(s')
  {
    BaseStart(s.threads, s.mem, s.count, s.aux.batch + s.aux.pend, s.aux.waiters, t, x);
    NotListed(s.threads, s.mem, s.count, s.aux.batch, s.aux.pend, s.aux.waiters, x);
    ChainStays(s.mem, s'.mem, s.aux.pend, s.mailbox);
    HoldingOther(s, s', t);
    BooksStart(s, s', t, x);
    hide Base, Chain, Holding, Books;
  }

  lemma BooksStart(s: State, s': State, t: nat, x: nat)
    requires Inv(s) && t < |s.threads| && Start(s, s', t, x)
    ensures Running(s.threads, s.aux) == Running(s'.threads, s.aux)
    ensures Books(s'.threads, s'.mem, s'.count, s'.applied, s'.returned, Running(s'.threads, s'.aux))
  {
    var r := Running(s.threads, s.aux);
    assert s.aux.batch != [] ==> (s.aux.batch + s.aux.pend)[0] == s.aux.batch[0];
    assert r != t;
    hide Chain, Roles;
  }

  /** What the handler holds does not depend on a thread that is not the handler and not in a list. */
  lemma HoldingOther(s: State, s': State, t: nat)
    requires Holding(s.threads, s.mem, s.aux) && t < |s.threads| && t != s.aux.holder && s'.aux == s.aux
    requires |s'.threads| == |s.threads| && forall u :: 0 <= u < |s.threads| && u != t ==> s'.threads[u] == s.threads[u]
    requires s'.threads[t].Active? && s'.threads[t].stage.Return? ==> t !in s.aux.waiters
    requires forall i :: 0 <= i < |s.aux.batch| && s.aux.batch[i].addr in s.mem ==>
      s.aux.batch[i].addr in s'.mem && s'.mem[s.aux.batch[i].addr].next == s.mem[s.aux.batch[i].addr].next
    ensures Holding(s'.threads, s'.mem, s'.aux)
  {
    if 0 <= s.aux.holder < |s.threads| && s.threads[s.aux.holder].Active? {
      match s.threads[s.aux.holder].stage
      case Walk(p) => ChainStays(s.mem, s'.mem, s.aux.batch, p);
      case Apply(p, q) => ChainStays(s.mem, s'.mem, s.aux.batch[1..], q);
      case Finish(p, q) => ChainStays(s.mem, s'.mem, s.aux.batch[1..], q);
      case _ =>
    }
  }

  lemma ReadInv(s: State, s': State, t: nat)
    requires Inv(s) && Live(s, t) && ReadBox(s, s', t)
    ensures Inv(s')
  {
    var a := s.threads[t].addr;
    BaseRead(s.threads, s.mem, s.count, s.aux.batch + s.aux.pend, s.aux.waiters, t, s.mailbox);
    BaseStage(s.threads, s'.mem, s.count, s.aux.batch + s.aux.pend, s.aux.waiters, t, Swap(s.mailbox));
    assert t !in s.aux.waiters;
    NotListed(s.threads, s.mem, s.count, s.aux.batch, s.aux.pend, s.aux.waiters, a);
    ChainStays(s.mem, s'.mem, s.aux.pend, s.mailbox);
    HoldingOther(s, s', t);
    assert Books(s.threads, s'.mem, s.count, s.applied, s.returned, Running(s.threads, s.aux));
    BooksStage(s.threads, s'.mem, s.count, s.applied, s.returned, Running(s.threads, s.aux), t, Swap(s.mailbox));
    hide Base, Chain, Holding, Books;
  }

  lemma CasFailsInv(s: State, s': State, t: nat)
    requires Inv(s) && Live(s, t) && CasFails(s, s', t)
    ensures Inv(s')
  {
    BaseStage(s.threads, s.mem, s.count, s.aux.batch + s.aux.pend, s.aux.waiters, t, Read);
    HoldingOther(s, s', t);
    BooksStage(s.threads, s.mem, s.count, s.applied, s.returned, Running(s.threads, s.aux), t, Read);
    hide Base, Chain, Holding, Books;
  }

  lemma WatchInv(s: State, s': State, t: nat)
    requires Inv(s) && Live(s, t) && Watch(s, s', t)
    ensures Inv(s')
  {
    if !s.busy {
      BaseStage(s.threads, s.mem, s.count, s.aux.batch + s.aux.pend, s.aux.waiters, t, Free);
      HoldingOther(s, s', t);
      BooksStage(s.threads, s.mem, s.count, s.applied, s.returned, Running(s.threads, s.aux), t, Free);
      hide Base, Chain, Holding, Books;
    }
  }

  lemma SetBusyInv(s: State, s': State, t: nat)
    requires Inv(s) && Live(s, t) && SetBusy(s, s', t)
    ensures Inv(s')
  {
    BaseStage(s.threads, s.mem, s.count, s.aux.batch + s.aux.pend, s.aux.waiters, t, Grab);
    BooksStage(s.threads, s.mem, s.count, s.applied, s.returned, Running(s.threads, s.aux), t, Grab);
    assert Holding(s'.threads, s'.mem, s'.aux);
    hide Base, Chain, Holding, Books;
  }

  lemma CasSucceedsInv(s: State, s': State, t: nat)
    requires Inv(s) && Live(s, t) && CasSucceeds(s, s', t)
    ensures Inv(s')
  {
    CasLists(s, s', t);
    CasHolding(s, s', t);
    CasRoles(s, s', t);
    hide Base, Chain, Holding, Books, Roles;
  }

  lemma CasLists(s: State, s': State, t: nat)
    requires Inv(s) && Live(s, t) && CasSucceeds(s, s', t)
    ensures Base(s'.threads, s'.mem, s'.count, s'.aux.batch + s'.aux.pend, s'.aux.waiters)
    ensures Chain(s'.mem, s'.aux.pend, s'.mailbox) && Swaps(s'.threads, s'.mem)
    ensures Books(s'.threads, s'.mem, s'.count, s'.applied, s'.returned, Running(s'.threads, s'.aux))
  {
    var me := s.threads[t];
    var st := if me.stage.res == NULL then Spin else Wait;
    BaseCas(s.threads, s.mem, s.count, s.aux.batch, s.aux.pend, s.aux.waiters, t, st);
    assert me.addr in s.mem && s.mem[me.addr].next == s.mailbox;
    ChainCons(s.mem, s.aux.pend, s.mailbox, Item(t, me.addr, me.id));
    BooksStage(s.threads, s.mem, s.count, s.applied, s.returned, Running(s.threads, s.aux), t, st);
    assert Running(s'.threads, s'.aux) == Running(s.threads, s.aux);
    hide Base, Chain, Holding, Books;
  }

  lemma CasRoles(s: State, s': State, t: nat)
    requires Inv(s) && Live(s, t) && CasSucceeds(s, s', t)
    ensures Roles(s'.threads, s'.busy, s'.aux)
  {
    MailboxEmpty(s);
    var l, l' := s.aux.pend, s'.aux.pend;
    assert l != [] ==> l'[|l'| - 1] == l[|l| - 1];
    hide Base, Chain, Holding, Books;
  }

  lemma MailboxEmpty(s: State)
    requires Inv(s)
    ensures s.mailbox == NULL <==> s.aux.pend == []
  {
    if s.aux.pend != [] {
      assert (s.aux.batch + s.aux.pend)[|s.aux.batch|] == s.aux.pend[0];
    }
  }

  lemma CasHolding(s: State, s': State, t: nat)
    requires Inv(s) && Live(s, t) && CasSucceeds(s, s', t)
    ensures Holding(s'.threads, s'.mem, s'.aux)
  {
    assert t != s.aux.holder;
  }

  lemma TakeInv(s: State, s': State, t: nat)
    requires Inv(s) && Live(s, t) && Take(s, s', t)
    ensures Inv(s')
  {
    TakeLists(s, s', t);
    TakeRoles(s, s', t);
    hide Base, Chain, Books, Roles, Holding;
  }

  lemma TakeLists(s: State, s': State, t: nat)
    requires Inv(s) && Live(s, t) && Take(s, s', t)
    ensures Base(s'.threads, s'.mem, s'.count, s'.aux.batch + s'.aux.pend, s'.aux.waiters)
    ensures Chain(s'.mem, s'.aux.pend, s'.mailbox) && Swaps(s'.threads, s'.mem)
    ensures Books(s'.threads, s'.mem, s'.count, s'.applied, s'.returned, Running(s'.threads, s'.aux))
  {
    BaseStage(s.threads, s.mem, s.count, s.aux.batch + s.aux.pend, s.aux.waiters, t, Walk(s.mailbox));
    BooksStage(s.threads, s.mem, s.count, s.applied, s.returned, Running(s.threads, s.aux), t, Walk(s.mailbox));
    assert s.aux.batch == [];
    assert s.aux.batch + s.aux.pend == s.aux.pend == s'.aux.batch + s'.aux.pend;
    assert Chain(s'.mem, [], NULL);
    hide Base, Chain, Books;
  }

  lemma TakeRoles(s: State, s': State, t: nat)
    requires Inv(s) && Live(s, t) && Take(s, s', t)
    ensures Roles(s'.threads, s'.busy, s'.aux) && Holding(s'.threads, s'.mem, s'.aux)
  {
    assert t == s.aux.holder == s.aux.leader;
    assert s.aux.pend != [] ==> s.aux.pend[|s.aux.pend| - 1].owner == t;
    assert s.aux.pend != [];
    hide Base, Books, Swaps, Chain;
  }

  lemma AdvanceInv(s: State, s': State, t: nat)
    requires Inv(s) && Live(s, t) && Advance(s, s', t)
    ensures Inv(s')
  {
    var st := s'.threads[t].stage;
    BaseStage(s.threads, s.mem, s.count, s.aux.batch + s.aux.pend, s.aux.waiters, t, st);
    BooksStage(s.threads, s.mem, s.count, s.applied, s.returned, Running(s.threads, s.aux), t, st);
    assert t == s.aux.holder && Chain(s.mem, s.aux.batch, s.threads[t].stage.list);
    if s.aux.batch != [] {
      ChainTail(s.mem, s.aux.batch, s.threads[t].stage.list);
      assert (s.aux.batch + s.aux.pend)[0] == s.aux.batch[0];
      assert s.aux.batch[0].addr != NULL;
    }
    assert Holding(s'.threads, s'.mem, s'.aux);
    hide Base, Chain, Holding, Books;
  }

  lemma RunBodyInv(s: State, s': State, t: nat)
    requires Inv(s) && Live(s, t) && RunBody(s, s', t)
    ensures Inv(s')
  {
    var st := s'.threads[t].stage;
    BaseStage(s.threads, s.mem, s.count, s.aux.batch + s.aux.pend, s.aux.waiters, t, st);
    assert t == s.aux.holder;
    assert Holding(s'.threads, s'.mem, s'.aux);
    RunBodyBooks(s, s', t);
    hide Base, Chain, Holding, Books;
  }

  lemma RunBodyBooks(s: State, s': State, t: nat)
    requires Inv(s) && Live(s, t) && RunBody(s, s', t)
    ensures Books(s'.threads, s'.mem, s'.count, s'.applied, s'.returned, Running(s'.threads, s'.aux))
  {
    assert t == s.aux.holder;
    var o := s.aux.batch[0];
    assert (s.aux.batch + s.aux.pend)[0] == o;
    assert o.owner in s.aux.waiters && s.mem[o.addr].id == o.id;
    assert o.id !in s.applied;
    assert Running(s'.threads, s'.aux) == o.owner;
    forall u | 0 <= u < |s.threads| && s.threads[u].Active? && s.threads[u].addr in s.mem
      ensures s'.threads[u].id in s'.applied <==> s.mem[s.threads[u].addr].done || u == o.owner
    {
      assert u != o.owner ==> s.threads[u].id != o.id;
    }
  }

  lemma SetDoneInv(s: State, s': State, t: nat)
    requires Inv(s) && Live(s, t) && SetDone(s, s', t)
    ensures Inv(s')
  {
    SetDoneLists(s, s', t);
    SetDoneBooks(s, s', t);
    SetDoneHolding(s, s', t);
    SetDoneRoles(s, s', t);
    hide Base, Chain, Holding, Books, Roles;
  }

  lemma SetDoneRoles(s: State, s': State, t: nat)
    requires Inv(s) && Live(s, t) && SetDone(s, s', t)
    ensures Roles(s'.threads, s'.busy, s'.aux)
  {
    assert t == s.aux.holder;
    hide Base, Chain, Holding, Books, Swaps;
  }

  lemma SetDoneLists(s: State, s': State, t: nat)
    requires Inv(s) && Live(s, t) && SetDone(s, s', t)
    ensures Base(s'.threads, s'.mem, s'.count, s'.aux.batch + s'.aux.pend, s'.aux.waiters)
    ensures Chain(s'.mem, s'.aux.pend, s'.mailbox) && Chain(s'.mem, s.aux.batch[1..], s.threads[t].stage.rest)
  {
    assert t == s.aux.holder && s.threads[t].stage.cur == s.aux.batch[0].addr;
    ChainStays(s.mem, s'.mem, s.aux.pend, s.mailbox);
    ChainStays(s.mem, s'.mem, s.aux.batch[1..], s.threads[t].stage.rest);
    SetDoneBase(s, s', t);
    hide Base, Chain;
  }

  lemma SetDoneBase(s: State, s': State, t: nat)
    requires Base(s.threads, s.mem, s.count, s.aux.batch + s.aux.pend, s.aux.waiters)
    requires Live(s, t) && SetDone(s, s', t) && s.threads[t].stage.cur == s.aux.batch[0].addr
    ensures Base(s'.threads, s'.mem, s'.count, s'.aux.batch + s'.aux.pend, s'.aux.waiters)
  {
    var l := s.aux.batch + s.aux.pend;
    assert l[0] == s.aux.batch[0] && l[1..] == s'.aux.batch + s'.aux.pend;
    hide Base;
    BaseDone(s.threads, s.mem, s.count, l, s.aux.waiters);
    BaseStage(s.threads, s'.mem, s.count, l[1..], s'.aux.waiters, t, s'.threads[t].stage);
  }

  lemma SetDoneBooks(s: State, s': State, t: nat)
    requires Inv(s) && Live(s, t) && SetDone(s, s', t)
    ensures Books(s'.threads, s'.mem, s'.count, s'.applied, s'.returned, Running(s'.threads, s'.aux))
  {
    var o := s.aux.batch[0];
    assert (s.aux.batch + s.aux.pend)[0] == o;
    assert t == s.aux.holder && Running(s.threads, s.aux) == o.owner && Running(s'.threads, s'.aux) == NOBODY;
    forall u | 0 <= u < |s'.threads| && s'.threads[u].Active? && s'.threads[u].addr in s'.mem
      ensures s'.threads[u].id in s'.applied <==> s'.mem[s'.threads[u].addr].done
    {
      assert s'.threads[u].addr == s.threads[u].addr;
      assert u != o.owner ==> s.threads[u].addr != o.addr;
    }
  }

  lemma SetDoneHolding(s: State, s': State, t: nat)
    requires Inv(s) && Live(s, t) && SetDone(s, s', t)
    requires Chain(s'.mem, s.aux.batch[1..], s.threads[t].stage.rest)
    ensures Holding(s'.threads, s'.mem, s'.aux)
  {
    assert t == s.aux.holder;
    var b := s.aux.batch;
    assert |b| > 1 ==> b[1..][|b| - 2] == b[|b| - 1];
    hide Base, Chain, Books;
  }

  lemma ClearBusyInv(s: State, s': State, t: nat)
    requires Inv(s) && Live(s, t) && ClearBusy(s, s', t)
    ensures Inv(s')
  {
    BaseStage(s.threads, s.mem, s.count, s.aux.batch + s.aux.pend, s.aux.waiters, t, Return);
    BooksStage(s.threads, s.mem, s.count, s.applied, s.returned, Running(s.threads, s.aux), t, Return);
    assert t == s.aux.holder && Holding(s'.threads, s'.mem, s'.aux);
    hide Base, Chain, Holding, Books;
  }

  lemma LeaveInv(s: State, s': State, t: nat)
    requires Inv(s) && Live(s, t) && Leave(s, s', t)
    ensures Inv(s')
  {
    assert t !in s.aux.waiters;
    BaseLeave(s.threads, s.mem, s.count, s.aux.batch + s.aux.pend, s.aux.waiters, t);
    HoldingOther(s, s', t);
    LeaveBooks(s, s', t);
    hide Base, Chain, Holding, Books;
  }

  lemma LeaveBooks(s: State, s': State, t: nat)
    requires Inv(s) && Live(s, t) && Leave(s, s', t)
    ensures s.threads[t].id in s.applied
    ensures Running(s'.threads, s'.aux) == Running(s.threads, s.aux)
    ensures Books(s'.threads, s'.mem, s'.count, s'.applied, s'.returned, Running(s'.threads, s'.aux))
  {
    assert t !in s.aux.waiters && s.mem[s.threads[t].addr].done;
    hide Chain;
  }

  /** Every step of every thread keeps the invariant. */
  lemma StepInv(s: State, s': State, t: nat, x: nat)
    requires Inv(s) && Step(s, s', t, x)
    ensures Inv(s')
  {
    hide Inv;
    if s.threads[t].Idle? { StartInv(s, s', t, x); }
    else if ReadBox(s, s', t) { ReadInv(s, s', t); }
    else if CasFails(s, s', t) { CasFailsInv(s, s', t); }
    else if CasSucceeds(s, s', t) { CasSucceedsInv(s, s', t); }
    else if Watch(s, s', t) { WatchInv(s, s', t); }
    else if SetBusy(s, s', t) { SetBusyInv(s, s', t); }
    else if Take(s, s', t) { TakeInv(s, s', t); }
    else if Advance(s, s', t) { AdvanceInv(s, s', t); }
    else if RunBody(s, s', t) { RunBodyInv(s, s', t); }
    else if SetDone(s, s', t) { SetDoneInv(s, s', t); }
    else if ClearBusy(s, s', t) { ClearBusyInv(s, s', t); }
    else { LeaveInv(s, s', t); }
  }

  // ----- what holds in every run -----

  /** The address belongs to an operation whose caller is still inside and has not been released. */
  ghost predicate Untouched(s: State, p: nat)
  {
    p in s.mem && !s.mem[p].done
    && exists u :: 0 <= u < |s.threads| && s.threads[u].Active? && s.threads[u].addr == p && s.threads[u].id == s.mem[p].id
  }

  ghost predicate Safe(s: State)
  {
    // one thread at a time runs handle_operations, one waits to
    && (forall t, u :: 0 <= t < |s.threads| && 0 <= u < |s.threads| && Handles(s.threads[t]) && Handles(s.threads[u]) ==> t == u)
    && (forall t, u :: 0 <= t < |s.threads| && 0 <= u < |s.threads| && Leads(s.threads[t]) && Leads(s.threads[u]) ==> t == u)
    // and between the load and the plain store of handler_busy nobody else raises it
    && (forall t :: 0 <= t < |s.threads| && s.threads[t].Active? && s.threads[t].stage.Free? ==> !s.busy)
    // no operation is run twice, and none is left out when its caller returns
    && (forall i, j :: 0 <= i < j < |s.applied| ==> s.applied[i] != s.applied[j])
    && (forall id :: id in s.returned ==> id in s.applied)
    // the handler touches only operations that are not finished, and runs only ones that were not run
    && (forall t :: 0 <= t < |s.threads| && s.threads[t].Active? ==>
         match s.threads[t].stage
         case Walk(p) => p == NULL || Untouched(s, p)
         case Apply(p, _) => Untouched(s, p) && s.mem[p].id !in s.applied
         case Finish(p, _) => Untouched(s, p) && s.mem[p].id in s.applied
         case Return => s.threads[t].addr in s.mem && s.mem[s.threads[t].addr].done
         case _ => true)
  }

  lemma BatchHead(s: State)
    requires Inv(s) && s.aux.batch != []
    ensures Untouched(s, s.aux.batch[0].addr) && s.aux.batch[0].addr != NULL
    ensures s.mem[s.aux.batch[0].addr].id in s.applied <==> Running(s.threads, s.aux) == s.aux.batch[0].owner
  {
    var o := s.aux.batch[0];
    assert (s.aux.batch + s.aux.pend)[0] == o;
    assert s.threads[o.owner].addr == o.addr && o.owner in s.aux.waiters;
    hide Chain, Roles, Holding;
  }

  lemma InvSafe(s: State)
    requires Inv(s)
    ensures Safe(s)
  {
    if s.aux.batch != [] { BatchHead(s); }
    assert forall t :: 0 <= t < |s.threads| && s.threads[t].Active? && s.threads[t].stage.Return? ==> t !in s.aux.waiters;
    hide Items, Untouched;
  }

  ghost predicate Next(s: State, s': State)
  {
    exists t, x :: Step(s, s', t, x)
  }

  /** A run of any number of threads, interleaved in any way. */
  ghost predicate Run(r: seq<State>)
  {
    r != [] && Init(r[0]) && forall i :: 0 <= i < |r| - 1 ==> Next(r[i], r[i + 1])
  }

  lemma {:induction false} RunInv(r: seq<State>)
    requires Run(r)
    ensures r != [] && Inv(r[|r| - 1])
  {
    hide *;
    RunBegins(r);
    if |r| == 1 {
      InitInv(r[0]);
    } else {
      var front := r[..|r| - 1];
      RunPrefix(r, |r| - 2);
      assert r[..|r| - 2 + 1] == front;
      RunInv(front);
      assert front[|front| - 1] == r[|r| - 2];
      var t, x := RunLast(r);
      StepInv(r[|r| - 2], r[|r| - 1], t, x);
    }
  }

  lemma RunBegins(r: seq<State>)
    requires Run(r)
    ensures r != [] && (|r| == 1 ==> Init(r[0]))
  {
    hide Init, Next;
  }

  lemma RunLast(r: seq<State>) returns (t: nat, x: nat)
    requires Run(r) && |r| > 1
    ensures Step(r[|r| - 2], r[|r| - 1], t, x)
  {
    hide Step;
    assert Next(r[|r| - 2], r[|r| - 2 + 1]);
    t, x :| Step(r[|r| - 2], r[|r| - 1], t, x);
  }

  lemma RunPrefix(r: seq<State>, i: nat)
    requires Run(r) && i < |r|
    ensures Run(r[..i + 1])
  {
    hide Next, Init;
    var front := r[..i + 1];
    assert forall j :: 0 <= j < |front| ==> front[j] == r[j];
  }

  /** Every state of every run is safe. */
  lemma RunSafe(r: seq<State>, i: nat)
    requires Run(r) && i < |r|
    ensures Safe(r[i])
  {
    hide *;
    RunPrefix(r, i);
    assert r[..i + 1][i] == r[i];
    RunInv(r[..i + 1]);
    InvSafe(r[i]);
  }

  /** Watching something that has not happened yet. */
  predicate Spinning(s: State, t: nat)
    requires Live(s, t)
  {
    || (s.threads[t].stage.Spin? && s.busy)
    || (s.threads[t].stage.Wait? && s.threads[t].addr in s.mem && !s.mem[s.threads[t].addr].done)
  }

  /** A thread that is not spinning can take its next step: no access of the code is out of bounds. */
  lemma Moves(s: State, t: nat) returns (s': State)
    requires Inv(s) && Live(s, t) && !Spinning(s, t)
    ensures Step(s, s', t, NULL) && s' != s
  {
    var me := s.threads[t];
    assert me.addr in s.mem;
    if s.aux.batch != [] { BatchHead(s); }
    assert Handles(me) ==> t == s.aux.holder;
    match me.stage
    case Read =>
      s' := s.(mem := s.mem[me.addr := s.mem[me.addr].(next := s.mailbox)], threads := At(s.threads, t, Swap(s.mailbox)));
      assert s'.threads[t].stage != me.stage && ReadBox(s, s', t);
    case Swap(res) =>
      if s.mailbox != res {
        s' := s.(threads := At(s.threads, t, Read));
        assert s'.threads[t].stage != me.stage && CasFails(s, s', t);
      } else {
        var st := if res == NULL then Spin else Wait;
        s' := s.(mailbox := me.addr, threads := At(s.threads, t, st),
                 aux := s.aux.(pend := [Item(t, me.addr, me.id)] + s.aux.pend, waiters := s.aux.waiters + {t},
                               leader := if res == NULL then t else s.aux.leader));
        assert s'.threads[t].stage != me.stage && CasSucceeds(s, s', t);
      }
    case Spin =>
      s' := s.(threads := At(s.threads, t, Free));
      assert s'.threads[t].stage != me.stage && Watch(s, s', t);
    case Free =>
      s' := s.(busy := true, threads := At(s.threads, t, Grab), aux := s.aux.(holder := t));
      assert s'.threads[t].stage != me.stage && SetBusy(s, s', t);
    case Grab =>
      s' := s.(mailbox := NULL, threads := At(s.threads, t, Walk(s.mailbox)), aux := s.aux.(pend := [], batch := s.aux.pend, leader := NOBODY));
      assert s'.threads[t].stage != me.stage && Take(s, s', t);
    case Walk(p) =>
      s' := s.(threads := At(s.threads, t, if p == NULL then Release else Apply(p, s.mem[p].next)));
      assert s'.threads[t].stage != me.stage && Advance(s, s', t);
    case Apply(p, q) =>
      s' := s.(applied := s.applied + [s.mem[p].id], threads := At(s.threads, t, Finish(p, q)));
      assert s'.threads[t].stage != me.stage && RunBody(s, s', t);
    case Finish(p, q) =>
      s' := s.(mem := s.mem[p := s.mem[p].(done := true)], threads := At(s.threads, t, Walk(q)),
               aux := s.aux.(batch := s.aux.batch[1..], waiters := s.aux.waiters - {s.aux.batch[0].owner}));
      assert s'.threads[t].stage != me.stage && SetDone(s, s', t);
    case Release =>
      s' := s.(busy := false, threads := At(s.threads, t, Return), aux := s.aux.(holder := NOBODY));
      assert s'.threads[t].stage != me.stage && ClearBusy(s, s', t);
    case _ =>
      s' := s.(threads := s.threads[t := Idle], returned := s.returned + {me.id});
      assert s'.threads[t] != me && Leave(s, s', t);
  }

  /** The thread whose turn brings t nearer to its return: the handler, else the one that waits to handle, else itself. */
  function Chosen(s: State, t: nat): int
  {
    if s.aux.holder != NOBODY then s.aux.holder else if s.aux.leader != NOBODY then s.aux.leader else t
  }

  /** While anyone is inside, somebody can move: the protocol has no deadlock. */
  lemma SomebodyMoves(s: State, t: nat) returns (u: nat)
    requires Inv(s) && Live(s, t)
    ensures Live(s, u) && !Spinning(s, u) && u == Chosen(s, t)
  {
    if s.aux.holder != NOBODY {
      u := s.aux.holder;
      assert Handles(s.threads[u]);
    } else if s.aux.leader != NOBODY {
      u := s.aux.leader;
      assert Leads(s.threads[u]);
    } else {
      u := t;
      assert s.aux.pend == [] && s.aux.batch == [];
      assert |s.aux.waiters| == 0;
      assert t !in s.aux.waiters && !Leads(s.threads[t]);
    }
  }

  // ----- every operation gets done -----

  /** The steps left to the handler and to the thread that waits to handle. */
  function Work(s: State): nat
  {
    (if 0 <= s.aux.leader < |s.threads| && s.threads[s.aux.leader].Active? then
       match s.threads[s.aux.leader].stage
       case Spin => 3 * |s.aux.pend| + 5
       case Free => 3 * |s.aux.pend| + 4
       case Grab => 3 * |s.aux.pend| + 3
       case _ => 0
     else 0)
    + (if 0 <= s.aux.holder < |s.threads| && s.threads[s.aux.holder].Active? then
         match s.threads[s.aux.holder].stage
         case Walk(_) => 3 * |s.aux.batch| + 2
         case Apply(_, _) => 3 * |s.aux.batch| + 1
         case Finish(_, _) => 3 * |s.aux.batch|
         case Release => 1
         case _ => 0
       else 0)
  }

  /** Whether the thread's operation is still to get into the list, and how many steps that takes without interference. */
  function Outside(s: State, t: nat): nat
    requires Live(s, t)
  {
    if Private(s.threads[t]) then 1 else 0
  }

  function Tries(s: State, t: nat): nat
    requires Live(s, t)
  {
    match s.threads[t].stage
    case Swap(res) => if res == s.mailbox then 1 else 3
    case Read => 2
    case _ => 0
  }

  /** A step that brings t nearer to its return. */
  ghost predicate Better(s: State, s': State, t: nat)
    requires Live(s, t)
  {
    && Live(s', t) && s'.threads[t].id == s.threads[t].id && s'.count == s.count
    && (Outside(s', t) < Outside(s, t)
        || (Outside(s', t) == Outside(s, t)
            && (Work(s') < Work(s) || (Work(s') == Work(s) && Tries(s', t) < Tries(s, t)))))
  }

  /** The roles of the thread that moves. */
  lemma MoverIs(s: State, t: nat, u: nat)
    requires Inv(s) && Live(s, t) && Live(s, u) && u == Chosen(s, t)
    ensures u == s.aux.holder <==> Handles(s.threads[u])
    ensures u == s.aux.leader <==> Leads(s.threads[u])
    ensures s.aux.leader == NOBODY || (0 <= s.aux.leader < |s.threads| && Leads(s.threads[s.aux.leader]))
    ensures s.aux.holder == NOBODY || (0 <= s.aux.holder < |s.threads| && Handles(s.threads[s.aux.holder]))
    ensures s.busy <==> s.aux.holder != NOBODY
    ensures u != s.aux.holder && u != s.aux.leader ==> u == t && s.aux.holder == s.aux.leader == NOBODY
    ensures u != s.aux.holder ==> s.aux.holder == NOBODY
  {
    hide Base, Chain, Holding, Books, Swaps;
  }

  lemma ReadBetter(s: State, s': State, t: nat, u: nat)
    requires Inv(s) && Live(s, t) && Live(s, u) && u == Chosen(s, t) && ReadBox(s, s', u)
    ensures Better(s, s', t)
  {
    MoverIs(s, t, u);
    hide Inv;
  }

  lemma CasFailsBetter(s: State, s': State, t: nat, u: nat)
    requires Inv(s) && Live(s, t) && Live(s, u) && u == Chosen(s, t) && CasFails(s, s', u)
    ensures Better(s, s', t)
  {
    MoverIs(s, t, u);
    hide Inv;
  }

  lemma CasSucceedsBetter(s: State, s': State, t: nat, u: nat)
    requires Inv(s) && Live(s, t) && Live(s, u) && u == Chosen(s, t) && CasSucceeds(s, s', u)
    ensures Better(s, s', t)
  {
    MoverIs(s, t, u);
    hide Inv, Work;
  }

  lemma WatchBetter(s: State, s': State, t: nat, u: nat)
    requires Inv(s) && Live(s, t) && Live(s, u) && u == Chosen(s, t) && Watch(s, s', u)
    ensures Better(s, s', t)
  {
    MoverIs(s, t, u);
    hide Inv;
  }

  lemma SetBusyBetter(s: State, s': State, t: nat, u: nat)
    requires Inv(s) && Live(s, t) && Live(s, u) && u == Chosen(s, t) && SetBusy(s, s', u)
    ensures Better(s, s', t)
  {
    MoverIs(s, t, u);
    hide Inv;
  }

  lemma TakeBetter(s: State, s': State, t: nat, u: nat)
    requires Inv(s) && Live(s, t) && Live(s, u) && u == Chosen(s, t) && Take(s, s', u)
    ensures Better(s, s', t)
  {
    MoverIs(s, t, u);
    hide Inv;
  }

  lemma WalkEnds(s: State, u: nat)
    requires Inv(s) && Live(s, u) && u == s.aux.holder && s.threads[u].stage.Walk?
    ensures s.threads[u].stage.list == NULL <==> s.aux.batch == []
  {
    if s.aux.batch != [] { BatchHead(s); }
    hide Base, Books, Swaps, Roles;
  }

  lemma AdvanceBetter(s: State, s': State, t: nat, u: nat)
    requires Inv(s) && Live(s, t) && Live(s, u) && u == Chosen(s, t) && Advance(s, s', u)
    ensures Better(s, s', t)
  {
    MoverIs(s, t, u);
    WalkEnds(s, u);
    hide Inv;
  }

  lemma RunBodyBetter(s: State, s': State, t: nat, u: nat)
    requires Inv(s) && Live(s, t) && Live(s, u) && u == Chosen(s, t) && RunBody(s, s', u)
    ensures Better(s, s', t)
  {
    MoverIs(s, t, u);
    hide Inv;
  }

  lemma SetDoneBetter(s: State, s': State, t: nat, u: nat)
    requires Inv(s) && Live(s, t) && Live(s, u) && u == Chosen(s, t) && SetDone(s, s', u)
    ensures Better(s, s', t)
  {
    MoverIs(s, t, u);
    hide Inv;
  }

  lemma ClearBusyBetter(s: State, s': State, t: nat, u: nat)
    requires Inv(s) && Live(s, t) && Live(s, u) && u == Chosen(s, t) && ClearBusy(s, s', u)
    ensures Better(s, s', t)
  {
    MoverIs(s, t, u);
    hide Inv;
  }

  /** The thread is back, and its operation has been run. */
  ghost predicate Back(s: State, t: nat, id: nat)
  {
    t < |s.threads| && s.threads[t].Idle? && id in s.returned && id in s.applied
  }

  lemma LeaveBack(s: State, s': State, t: nat, u: nat)
    requires Inv(s) && Live(s, t) && Live(s, u) && u == Chosen(s, t) && Leave(s, s', u)
    ensures Back(s', t, s.threads[t].id) && s'.count == s.count
  {
    MoverIs(s, t, u);
    LeaveBooks(s, s', u);
    hide Inv;
  }

  lemma ChosenStep(s: State, s': State, t: nat, u: nat)
    requires Inv(s) && Live(s, t) && Live(s, u) && u == Chosen(s, t) && Step(s, s', u, NULL)
    ensures Better(s, s', t) || (Back(s', t, s.threads[t].id) && s'.count == s.count)
  {
    hide Inv, Chosen, Better, Back, ReadBox, CasFails, CasSucceeds, Watch, SetBusy, Take, Advance, RunBody, SetDone, ClearBusy, Leave;
    if ReadBox(s, s', u) { ReadBetter(s, s', t, u); }
    else if CasFails(s, s', u) { CasFailsBetter(s, s', t, u); }
    else if CasSucceeds(s, s', u) { CasSucceedsBetter(s, s', t, u); }
    else if Watch(s, s', u) { WatchBetter(s, s', t, u); }
    else if SetBusy(s, s', u) { SetBusyBetter(s, s', t, u); }
    else if Take(s, s', u) { TakeBetter(s, s', t, u); }
    else if Advance(s, s', u) { AdvanceBetter(s, s', t, u); }
    else if RunBody(s, s', u) { RunBodyBetter(s, s', t, u); }
    else if SetDone(s, s', u) { SetDoneBetter(s, s', t, u); }
    else if ClearBusy(s, s', u) { ClearBusyBetter(s, s', t, u); }
    else { LeaveBack(s, s', t, u); }
  }

  /** A run from any state on. */
  ghost predicate Goes(q: seq<State>)
  {
    q != [] && forall i :: 0 <= i < |q| - 1 ==> Next(q[i], q[i + 1])
  }

  lemma GoesFrom(s: State, s': State, u: nat, x: nat, q: seq<State>)
    requires Step(s, s', u, x) && Goes(q) && q[0] == s'
    ensures Goes([s] + q) && ([s] + q)[|q|] == q[|q| - 1]
  {
    hide Step;
    var r := [s] + q;
    forall i | 0 <= i < |r| - 1 ensures Next(r[i], r[i + 1]) {
      assert r[i + 1] == q[i];
      assert i > 0 ==> r[i] == q[i - 1] && Next(q[i - 1], q[i - 1 + 1]);
      assert i == 0 ==> Next(r[0], r[1]);
    }
  }

  lemma BetterIs(s: State, s': State, t: nat)
    requires Live(s, t) && Better(s, s', t)
    ensures Live(s', t) && s'.threads[t].id == s.threads[t].id && s'.count == s.count
    ensures Outside(s', t) < Outside(s, t)
            || (Outside(s', t) == Outside(s, t)
                && (Work(s') < Work(s) || (Work(s') == Work(s) && Tries(s', t) < Tries(s, t))))
  {
  }

  lemma GoesSome(q: seq<State>)
    requires Goes(q)
    ensures |q| >= 1
  {
  }

  lemma GoesOne(s: State)
    ensures Goes([s])
  {
  }

  /** From every reachable state, without any new operation, a thread that is inside can come back with its operation run. */
  lemma {:induction false} Finishes(s: State, t: nat) returns (q: seq<State>)
    requires Inv(s) && Live(s, t)
    ensures Goes(q) && q[0] == s && Back(q[|q| - 1], t, s.threads[t].id) && q[|q| - 1].count == s.count
    decreases Outside(s, t), Work(s), Tries(s, t)
  {
    hide *;
    var u := SomebodyMoves(s, t);
    var s' := Moves(s, u);
    StepInv(s, s', u, NULL);
    ChosenStep(s, s', t, u);
    if Better(s, s', t) {
      BetterIs(s, s', t);
      var p := Finishes(s', t);
      GoesSome(p);
      GoesFrom(s, s', u, NULL, p);
      q := [s] + p;
    } else {
      GoesOne(s');
      GoesFrom(s, s', u, NULL, [s']);
      q := [s] + [s'];
    }
  }

  /** Above all addresses in use. */
  function Unused(threads: seq<Thread>): (x: nat)
    ensures x > NULL && forall t :: 0 <= t < |threads| && threads[t].Active? ==> threads[t].addr < x
  {
    if threads == [] then 1
    else
      var front := threads[..|threads| - 1];
      var x, th := Unused(front), threads[|threads| - 1];
      assert forall t :: 0 <= t < |front| ==> threads[t] == front[t];
      if th.Active? && th.addr >= x then th.addr + 1 else x
  }

  /** execute: a thread outside can always submit an operation, with a number never run before, at any free address ... */
  lemma Submits(s: State, t: nat, x: nat) returns (s': State)
    requires Inv(s) && t < |s.threads| && s.threads[t].Idle? && x != NULL && !InUse(s.threads, x)
    ensures Step(s, s', t, x) && s'.threads[t] == Active(Read, x, s.count) && s'.count == s.count + 1
    ensures s.count !in s.applied && s'.applied == s.applied && x in s'.mem && !s'.mem[x].done
  {
    s' := s.(mem := s.mem[x := Cell(NULL, false, s.count)], threads := s.threads[t := Active(Read, x, s.count)], count := s.count + 1);
    hide Base, Chain, Holding, Swaps, Roles;
  }

  /** ... and come back with it run. */
  lemma Executes(r: seq<State>, t: nat) returns (q: seq<State>)
    requires Run(r) && t < |r[|r| - 1].threads| && r[|r| - 1].threads[t].Idle?
    ensures Goes(q) && q[0] == r[|r| - 1]
    ensures var id := q[0].count; id !in q[0].applied && Back(q[|q| - 1], t, id) && q[|q| - 1].count == id + 1
  {
    RunInv(r);
    hide *;
    var s := r[|r| - 1];
    var x := Unused(s.threads);
    NotInUse(s.threads, x);
    var s' := Submits(s, t, x);
    StepInv(s, s', t, x);
    var p := Finishes(s', t);
    GoesSome(p);
    GoesFrom(s, s', t, x, p);
    q := [s] + p;
  }

  lemma NotInUse(threads: seq<Thread>, x: nat)
    requires forall t :: 0 <= t < |threads| && threads[t].Active? ==> threads[t].addr < x
    ensures !InUse(threads, x)
  {
  }
}
