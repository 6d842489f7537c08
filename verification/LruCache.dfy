/**
The cache of tbb/concurrent_lru_cache.h: records with reference counts, and a list of those nobody uses,
most recently released first.  Its two serial operations run one at a time, inside the aggregator; the
value of a new record is computed outside of it.
*/
module LruCache {
  type Key = nat
  type Value = int

  // ----- the recency list -----

  /** Who is in use, how often, and who is idle, most recently released first. */
  datatype Book = Book(uses: multiset<Key>, idle: seq<Key>)

  predicate Resident(b: Book, k: Key)
  {
    k in b.uses || k in b.idle
  }

  function Without(s: seq<Key>, k: Key): seq<Key>
  {
    if s == [] then [] else if s[0] == k then s[1..] else [s[0]] + Without(s[1..], k)
  }

  function Front(s: seq<Key>, n: nat): seq<Key>
  {
    if |s| <= n then s else s[..n]
  }

  /** One more use of a key. */
  function Acquired(b: Book, k: Key): Book
  {
    Book(b.uses + multiset{k}, Without(b.idle, k))
  }

  /** One use less; an idle key goes to the front of a list of h. */
  function Released(b: Book, k: Key, h: nat): Book
  {
    var uses := b.uses - multiset{k};
    Book(uses, if k in uses then b.idle else Front([k] + b.idle, h))
  }

  ghost predicate Distinct(s: seq<Key>)
  {
    forall i, j :: 0 <= i < j < |s| ==> s[i] != s[j]
  }

  ghost predicate Good(b: Book, h: nat)
  {
    |b.idle| <= h && Distinct(b.idle) && forall k :: k in b.idle ==> k !in b.uses
  }

  lemma {:induction false} WithoutMembers(s: seq<Key>, k: Key)
    requires Distinct(s)
    ensures Distinct(Without(s, k)) && |Without(s, k)| <= |s|
    ensures forall x :: x in Without(s, k) <==> x in s && x != k
  {
    if s != [] {
      assert s == [s[0]] + s[1..];
      WithoutMembers(s[1..], k);
      HeadNotInTail(s);
    }
  }

  lemma HeadNotInTail(s: seq<Key>)
    requires s != [] && Distinct(s)
    ensures s[0] !in s[1..] && Distinct(s[1..])
  {
  }

  lemma {:induction false} WithoutNone(s: seq<Key>, k: Key)
    requires k !in s
    ensures Without(s, k) == s
  {
    if s != [] { WithoutNone(s[1..], k); }
  }

  lemma AcquiredGood(b: Book, k: Key, h: nat)
    requires Good(b, h)
    ensures Good(Acquired(b, k), h)
    ensures forall x :: Resident(Acquired(b, k), x) <==> Resident(b, x) || x == k
  {
    WithoutMembers(b.idle, k);
  }

  /** A release makes nobody resident, and evicts at most the key that was released longest ago. */
  lemma ReleasedGood(b: Book, k: Key, h: nat)
    requires Good(b, h) && k in b.uses && h >= 1
    ensures Good(Released(b, k, h), h) && Resident(Released(b, k, h), k)
    ensures forall x :: Resident(b, x) && !Resident(Released(b, k, h), x) <==> b.uses[k] == 1 && |b.idle| == h && x == b.idle[h - 1]
    ensures forall x :: Resident(Released(b, k, h), x) ==> Resident(b, x)
  {
    if b.uses[k] == 1 { FrontOf(k, b.idle, h); }
    hide Front, Distinct;
  }

  lemma FrontOf(k: Key, idle: seq<Key>, h: nat)
    requires Distinct(idle) && |idle| <= h && k !in idle && h >= 1
    ensures Distinct(Front([k] + idle, h)) && |Front([k] + idle, h)| <= h && k in Front([k] + idle, h)
    ensures forall x :: x in Front([k] + idle, h) <==> x == k || (x in idle && !(|idle| == h && x == idle[h - 1]))
  {
    var all := [k] + idle;
    assert forall x :: x in all <==> x == k || x in idle;
    if |all| > h {
      assert all == all[..h] + [idle[h - 1]];
      LastOnce(all);
    }
  }

  lemma LastOnce(s: seq<Key>)
    requires s != [] && Distinct(s)
    ensures Distinct(s[..|s| - 1]) && s[|s| - 1] !in s[..|s| - 1]
  {
  }

  // ----- the records -----

  /** my_ref_counter, whether my_lru_list_iterator is set, my_value, my_is_ready. */
  datatype Record = Record(refs: nat, listed: bool, value: Value, ready: bool)

  function Members(s: seq<Key>): set<Key>
  {
    set x | x in s
  }

  lemma LastMember(s: seq<Key>)
    requires s != []
    ensures Members(s[|s| - 1..]) == {s[|s| - 1]}
  {
    assert s[|s| - 1..] == [s[|s| - 1]];
  }

  /** The payload of a record stays. */
  predicate SameValue(r: Record, s: Record)
  {
    r.value == s.value && r.ready == s.ready
  }

  /** Every record of the second map is one of the first, with the same payload. */
  ghost predicate FromBefore(before: map<Key, Record>, after: map<Key, Record>)
  {
    forall x :: x in after ==> x in before && SameValue(after[x], before[x])
  }

  /** The records and the list are what the book says. */
  ghost predicate Matches(records: map<Key, Record>, lru: seq<Key>, b: Book)
  {
    && lru == b.idle
    && (forall k :: k in records <==> Resident(b, k))
    && (forall k :: k in records ==> records[k].refs == b.uses[k] && (records[k].listed <==> k in lru))
  }

  function Uncounted(records: map<Key, Record>, k: Key): map<Key, Record>
    requires k in records && records[k].refs > 0
  {
    records[k := records[k].(refs := records[k].refs - 1)]
  }

  lemma UsedIs(records: map<Key, Record>, lru: seq<Key>, b: Book, h: nat, k: Key)
    requires Matches(records, lru, b) && Good(b, h) && k in b.uses
    ensures k in records && records[k].refs == b.uses[k] > 0 && k !in lru && |lru| <= h
    ensures forall x :: x in lru ==> x in records && records[x].refs == 0
  {
  }

  lemma StillUsed(records: map<Key, Record>, lru: seq<Key>, b: Book, h: nat, k: Key)
    requires Matches(records, lru, b) && Good(b, h) && k in b.uses && b.uses[k] > 1 && k in records && records[k].refs > 0
    ensures Matches(Uncounted(records, k), lru, Released(b, k, h)) && FromBefore(records, Uncounted(records, k))
  {
  }

  lemma NowIdle(records: map<Key, Record>, lru: seq<Key>, b: Book, h: nat, k: Key)
    requires Matches(records, lru, b) && Good(b, h) && b.uses[k] == 1 && |lru| < h && k in records && records[k].refs > 0
    ensures var records' := Uncounted(records, k);
            && Matches(records'[k := records'[k].(listed := true)], [k] + lru, Released(b, k, h))
            && FromBefore(records, records'[k := records'[k].(listed := true)])
  {
    assert [k] + b.idle == Front([k] + b.idle, h);
    assert forall x :: x in [k] + lru <==> x == k || x in lru;
  }

  lemma NowIdleEvicting(records: map<Key, Record>, lru: seq<Key>, b: Book, h: nat, k: Key)
    requires Matches(records, lru, b) && Good(b, h) && b.uses[k] == 1 && |lru| == h >= 1 && k in records && records[k].refs > 0
    ensures k != lru[h - 1]
    ensures var records' := Uncounted(records, k) - {lru[h - 1]};
            k in records' && Matches(records'[k := records'[k].(listed := true)], [k] + lru[..h - 1], Released(b, k, h))
  {
    hide FromBefore;
    var last := lru[h - 1];
    var rest := lru[..h - 1];
    assert lru == rest + [last];
    LastOnce(lru);
    assert last in lru;
    assert Front([k] + b.idle, h) == [k] + rest;
    assert forall x :: x in [k] + rest <==> x == k || x in rest;
    assert forall x :: x in lru <==> x == last || x in rest;
  }

  lemma EvictingKeeps(records: map<Key, Record>, k: Key, last: Key)
    requires k in records && records[k].refs > 0 && k != last
    ensures var records' := Uncounted(records, k) - {last};
            FromBefore(records, records'[k := records'[k].(listed := true)])
  {
  }

  /** The record of a key that is about to be used once more: a new one, or an old one, no longer listed. */
  function Recalled(records: map<Key, Record>, k: Key): Record
  {
    if k in records then records[k].(refs := records[k].refs + 1, listed := false) else Record(1, false, 0, false)
  }

  lemma NowUsed(records: map<Key, Record>, lru: seq<Key>, b: Book, h: nat, k: Key)
    requires Matches(records, lru, b) && Good(b, h)
    ensures Matches(records[k := Recalled(records, k)], Without(lru, k), Acquired(b, k))
    ensures k in records <==> Resident(b, k)
    ensures k in records && records[k].listed <==> k in lru
  {
    WithoutMembers(lru, k);
    hide Without;
    var records' := records[k := Recalled(records, k)];
    forall x ensures x in records' <==> Resident(Acquired(b, k), x) {}
    forall x | x in records' ensures records'[x].refs == Acquired(b, k).uses[x] && (records'[x].listed <==> x in Without(lru, k)) {}
  }

  class Cache {
    /** my_number_of_lru_history_items */
    const h: nat
    var records: map<Key, Record>
    var lru: seq<Key>
    ghost var book: Book

    ghost predicate Valid()
      reads this
    {
      Good(book, h) && Matches(records, lru, book)
    }

    constructor (items: nat)
      ensures Valid() && h == items && book == Book(multiset{}, [])
    {
      h, records, lru := items, map[], [];
      book := Book(multiset{}, []);
    }

    /** retrieve_serial */
    method Retrieve(k: Key) returns (isNew: bool)
      requires Valid()
      modifies this
      ensures Valid() && book == Acquired(old(book), k)
      ensures isNew <==> !Resident(old(book), k)
      ensures k in records && (isNew ==> !records[k].ready)
      ensures forall x :: x in old(records) ==> x in records && SameValue(records[x], old(records)[x])
    {
      hide Good, Matches, Without, Acquired, Resident;
      AcquiredGood(book, k, h);
      NowUsed(records, lru, book, h, k);
      isNew := false;
      if k !in records {
        WithoutNone(lru, k);
        records := records[k := Record(0, false, 0, false)];
        isNew := true;
      } else if records[k].listed {
        lru := Without(lru, k);
        records := records[k := records[k].(listed := false)];
      } else {
        WithoutNone(lru, k);
      }
      records := records[k := records[k].(refs := records[k].refs + 1)];
      assert records == old(records)[k := Recalled(old(records), k)];
      book := Acquired(book, k);
    }

    /**
    signal_end_of_usage_serial: the last user of a key makes it the most recently released; what no longer
    fits is evicted from the back.  It fails, asking an empty list for its last key, exactly when the
    history has length 0 and the last use ends.
    */
    method SignalEndOfUsage(k: Key) returns (ok: bool)
      requires Valid() && k in book.uses
      modifies this
      ensures ok <==> h >= 1 || old(book.uses[k]) > 1
      ensures ok ==> Valid() && book == Released(old(book), k, h)
      ensures ok ==> FromBefore(old(records), records)
    {
      hide Good, Matches, FromBefore, Released;
      UsedIs(records, lru, book, h, k);
      if records[k].refs > 1 {
        StillUsed(records, lru, book, h, k);
        StillGood(book, k, h);
      } else if |lru| < h {
        ReleasedGood(book, k, h);
        NowIdle(records, lru, book, h, k);
      } else if h >= 1 {
        ReleasedGood(book, k, h);
        NowIdleEvicting(records, lru, book, h, k);
        EvictingKeeps(records, k, lru[h - 1]);
        LastMember(lru);
      }
      ok := true;
      records := records[k := records[k].(refs := records[k].refs - 1)];
      if records[k].refs == 0 {
        if |lru| >= h {
          ok := Evict(1 + |lru| - h);
          if !ok { return; }
        }
        lru := [k] + lru;
        records := records[k := records[k].(listed := true)];
      }
      book := Released(book, k, h);
    }

    /** The eviction loop: false when it asks an empty list for its last key.  Nothing that is evicted has a live reference. */
    method Evict(n: nat) returns (ok: bool)
      requires forall x :: x in lru ==> x in records && records[x].refs == 0
      modifies `lru, `records
      ensures ok <==> n <= |old(lru)|
      ensures ok ==> lru == old(lru)[..|old(lru)| - n]
      ensures ok ==> records == old(records) - Members(old(lru)[|old(lru)| - n..])
    {
      var i := 0;
      while i < n
        invariant i <= n && i <= |old(lru)| && lru == old(lru)[..|old(lru)| - i]
        invariant records == old(records) - Members(old(lru)[|old(lru)| - i..])
      {
        if |lru| == 0 { return false; }
        var last := lru[|lru| - 1];
        ghost var gone := old(lru)[|old(lru)| - i..];
        assert old(lru)[|old(lru)| - (i + 1)..] == [last] + gone;
        assert last in old(lru) && old(records)[last].refs == 0;
        lru := lru[..|lru| - 1];
        records := records - {last};
        i := i + 1;
      }
      ok := true;
    }
  }

  lemma StillGood(b: Book, k: Key, h: nat)
    requires Good(b, h) && b.uses[k] > 1
    ensures Good(Released(b, k, h), h)
  {
  }

  /** A cache of history length 0, one use, and its end. */
  method NoHistory(k: Key) returns (c: Cache, ok: bool)
    ensures c.h == 0 && !ok
  {
    c := new Cache(0);
    var isNew := c.Retrieve(k);
    ok := c.SignalEndOfUsage(k);
  }

  // ----- every run of every number of users -----

  /** A use of the cache, from operator[] to the end of the handle. */
  datatype User =
    | Out
    | Computing(key: Key)  // was told to compute the value
    | Waiting(key: Key)    // watches my_is_ready
    | Using(key: Key)      // has a handle

  /** `values` has the keys that are ready; `at` remembers when a key was released last, `runs` how often
      the value function was called for a key since it became resident. */
  datatype System = System(book: Book, values: map<Key, Value>, users: seq<User>, clock: nat, at: map<Key, nat>, runs: map<Key, nat>)

  datatype Event = Get(t: nat, key: Key) | Compute(t: nat) | See(t: nat) | Release(t: nat)

  predicate CanDo(s: System, e: Event)
  {
    e.t < |s.users| &&
    match e
    case Get(t, _) => s.users[t].Out?
    case Compute(t) => s.users[t].Computing?
    case See(t) => s.users[t].Waiting?
    case Release(t) => s.users[t].Using?
  }

  function OfResidents<V>(m: map<Key, V>, b: Book): map<Key, V>
  {
    map k | k in m && Resident(b, k) :: m[k]
  }

  /** retrieve_serial and signal_end_of_usage_serial each are one step: the aggregator runs them one at a time. */
  function Do(f: Key -> Value, h: nat, s: System, e: Event): System
    requires CanDo(s, e)
  {
    match e
    case Get(t, k) =>
      s.(book := Acquired(s.book, k), users := s.users[t := if Resident(s.book, k) then Waiting(k) else Computing(k)],
         runs := if Resident(s.book, k) then s.runs else s.runs[k := 0])
    case Compute(t) =>
      var k := s.users[t].key;
      s.(values := s.values[k := f(k)], users := s.users[t := Using(k)], runs := s.runs[k := 1 + if k in s.runs then s.runs[k] else 0])
    case See(t) =>
      var k := s.users[t].key;
      if k in s.values then s.(users := s.users[t := Using(k)]) else s
    case Release(t) =>
      var k := s.users[t].key;
      var b := Released(s.book, k, h);
      System(b, OfResidents(s.values, b), s.users[t := Out], s.clock + 1, s.at[k := s.clock], OfResidents(s.runs, b))
  }

  predicate Init(s: System)
  {
    && s.book == Book(multiset{}, []) && s.values == map[] && s.at == map[] && s.runs == map[]
    && forall t :: 0 <= t < |s.users| ==> s.users[t].Out?
  }

  ghost predicate Run(f: Key -> Value, h: nat, s: System, es: seq<Event>, t: System)
    decreases |es|
  {
    if es == [] then s == t else CanDo(s, es[0]) && Run(f, h, Do(f, h, s, es[0]), es[1..], t)
  }

  /** The keys in users' hands. */
  function Held(users: seq<User>): multiset<Key>
  {
    if users == [] then multiset{} else Held(users[..|users| - 1]) + One(users[|users| - 1])
  }

  function One(u: User): multiset<Key>
  {
    if u.Out? then multiset{} else multiset{u.key}
  }

  lemma {:induction false} HeldHas(users: seq<User>, t: nat)
    requires t < |users|
    ensures One(users[t]) <= Held(users)
  {
    var n := |users| - 1;
    if t < n {
      HeldHas(users[..n], t);
      assert users[..n][t] == users[t];
    }
  }

  lemma HeldStep(users: seq<User>, n: nat)
    requires |users| == n + 1
    ensures Held(users) == Held(users[..n]) + One(users[n])
  {
  }

  lemma {:induction false} HeldChanges(users: seq<User>, t: nat, u: User)
    requires t < |users|
    ensures Held(users[t := u]) == Held(users) - One(users[t]) + One(u)
  {
    hide *;
    var n := |users| - 1;
    HeldStep(users, n);
    HeldStep(users[t := u], n);
    if t == n {
      assert users[t := u][..n] == users[..n];
      Replaced(Held(users[..n]), One(users[t]), One(u));
    } else {
      assert users[t := u][..n] == users[..n][t := u];
      HeldChanges(users[..n], t, u);
      HeldHas(users[..n], t);
      Exchanged(Held(users[..n]), One(users[n]), One(users[t]), One(u));
    }
  }

  lemma Replaced(a: multiset<Key>, x: multiset<Key>, y: multiset<Key>)
    ensures a + y == a + x - x + y
  {
  }

  lemma Exchanged(a: multiset<Key>, last: multiset<Key>, x: multiset<Key>, y: multiset<Key>)
    requires x <= a
    ensures a - x + y + last == a + last - x + y
  {
  }

  lemma HeldSame(users: seq<User>, t: nat, u: User)
    requires t < |users| && One(u) == One(users[t])
    ensures Held(users[t := u]) == Held(users)
  {
    HeldChanges(users, t, u);
    HeldHas(users, t);
    hide Held;
  }

  /** Idle keys come in the order of their last release, the latest first. */
  ghost predicate ByTime(idle: seq<Key>, at: map<Key, nat>, clock: nat)
  {
    && (forall i :: 0 <= i < |idle| ==> idle[i] in at && at[idle[i]] < clock)
    && (forall i, j :: 0 <= i < j < |idle| ==> at[idle[i]] > at[idle[j]])
  }

  /** What holds of a user. */
  predicate UserOk(s: System, t: nat)
    requires t < |s.users|
  {
    && (s.users[t].Computing? ==> s.users[t].key !in s.values)
    && (s.users[t].Using? ==> s.users[t].key in s.values)
  }

  /** What holds of a key: a resident one was computed once, or one user is about to. */
  ghost predicate KeyOk(f: Key -> Value, s: System, k: Key)
  {
    && (k in s.runs <==> Resident(s.book, k))
    && (k in s.runs ==> s.runs[k] == if k in s.values then 1 else 0)
    && (k in s.values ==> k in s.runs && s.values[k] == f(k))
    && (k in s.runs && k !in s.values ==> Busy(s.users, k))
  }

  /** Somebody computes the value of the key. */
  ghost predicate Busy(users: seq<User>, k: Key)
  {
    exists t :: 0 <= t < |users| && users[t] == Computing(k)
  }

  lemma StaysBusy(users: seq<User>, t: nat, u: User, k: Key)
    requires Busy(users, k) && t < |users| && users[t] != Computing(k)
    ensures Busy(users[t := u], k)
  {
    var v :| 0 <= v < |users| && users[v] == Computing(k);
    assert users[t := u][v] == Computing(k);
  }

  lemma NowBusy(users: seq<User>, t: nat, k: Key)
    requires t < |users|
    ensures Busy(users[t := Computing(k)], k)
  {
    assert users[t := Computing(k)][t] == Computing(k);
  }

  lemma StaysOneEach(users: seq<User>, t: nat, u: User)
    requires OneEach(users) && t < |users| && (u.Computing? ==> !Busy(users, u.key))
    ensures OneEach(users[t := u])
  {
    if u.Computing? {
      forall v | 0 <= v < |users| ensures users[v] != u {}
    }
  }

  ghost predicate OneEach(users: seq<User>)
  {
    forall t, u :: 0 <= t < |users| && 0 <= u < |users| && users[t].Computing? && users[t] == users[u] ==> t == u
  }

  ghost predicate Inv(f: Key -> Value, h: nat, s: System)
  {
    && Good(s.book, h) && s.book.uses == Held(s.users) && ByTime(s.book.idle, s.at, s.clock)
    && (forall t :: 0 <= t < |s.users| ==> UserOk(s, t))
    && (forall k :: KeyOk(f, s, k))
    && OneEach(s.users)
  }

  lemma {:induction false} WithoutByTime(idle: seq<Key>, at: map<Key, nat>, clock: nat, k: Key)
    requires ByTime(idle, at, clock)
    ensures ByTime(Without(idle, k), at, clock) && forall x :: x in Without(idle, k) ==> x in idle
  {
    if idle != [] {
      FirstByTime(idle, at, clock);
      WithoutByTime(idle[1..], at, clock, k);
      if idle[0] != k { ConsByTime(idle[0], Without(idle[1..], k), at, clock); }
      assert idle == [idle[0]] + idle[1..];
      hide ByTime;
    }
  }

  lemma FirstByTime(idle: seq<Key>, at: map<Key, nat>, clock: nat)
    requires idle != [] && ByTime(idle, at, clock)
    ensures ByTime(idle[1..], at, clock) && idle[0] in at && at[idle[0]] < clock
    ensures forall x :: x in idle[1..] ==> x in at && at[idle[0]] > at[x]
  {
    var rest := idle[1..];
    forall i | 0 <= i < |rest| ensures rest[i] == idle[i + 1] {}
  }

  lemma ConsByTime(k: Key, rest: seq<Key>, at: map<Key, nat>, clock: nat)
    requires ByTime(rest, at, clock) && k in at && at[k] < clock && forall x :: x in rest ==> x in at && at[k] > at[x]
    ensures ByTime([k] + rest, at, clock)
  {
    var all := [k] + rest;
    forall i | 0 < i < |all| ensures all[i] == rest[i - 1] && all[i] in rest {}
  }

  /** The last of the list was released before all others. */
  lemma OldestLast(idle: seq<Key>, at: map<Key, nat>, clock: nat)
    requires idle != [] && ByTime(idle, at, clock)
    ensures var x := idle[|idle| - 1]; x in at && forall y :: y in idle && y != x ==> y in at && at[y] > at[x]
  {
  }

  lemma HeldUser(f: Key -> Value, h: nat, s: System, t: nat)
    requires Inv(f, h, s) && t < |s.users| && !s.users[t].Out?
    ensures s.users[t].key in s.book.uses
  {
    HeldHas(s.users, t);
  }

  /** The parts of the invariant, for one user and one key. */
  lemma InvFor(f: Key -> Value, h: nat, s: System, t: nat, k: Key)
    requires Inv(f, h, s) && t < |s.users|
    ensures UserOk(s, t) && KeyOk(f, s, k) && OneEach(s.users)
    ensures !s.users[t].Out? ==> s.users[t].key in s.book.uses && Resident(s.book, s.users[t].key)
  {
    if !s.users[t].Out? { HeldUser(f, h, s, t); }
  }

  /** Nobody computes the value of a key that is not resident. */
  lemma NotBusy(f: Key -> Value, h: nat, s: System, k: Key)
    requires Inv(f, h, s) && !Resident(s.book, k)
    ensures !Busy(s.users, k)
  {
    forall u: nat | u < |s.users| ensures s.users[u] != Computing(k) {
      if !s.users[u].Out? { HeldUser(f, h, s, u); }
    }
  }

  lemma GetKey(f: Key -> Value, h: nat, s: System, t: nat, k: Key, x: Key)
    requires Inv(f, h, s) && CanDo(s, Get(t, k))
    ensures KeyOk(f, Do(f, h, s, Get(t, k)), x)
  {
    assert Good(s.book, h) && KeyOk(f, s, x);
    AcquiredGood(s.book, k, h);
    hide Inv, Good, Acquired, Busy, Resident, Held;
    if x in s.runs && x !in s.values { StaysBusy(s.users, t, if Resident(s.book, k) then Waiting(k) else Computing(k), x); }
    NowBusy(s.users, t, k);
  }

  lemma GetUser(f: Key -> Value, h: nat, s: System, t: nat, k: Key, v: nat)
    requires Inv(f, h, s) && CanDo(s, Get(t, k)) && v < |s.users|
    ensures UserOk(Do(f, h, s, Get(t, k)), v)
  {
    assert KeyOk(f, s, k) && UserOk(s, v);
    hide Inv, Acquired, Busy, Resident;
  }

  /** The invariant from its parts. */
  lemma InvFrom(f: Key -> Value, h: nat, s: System)
    requires Good(s.book, h) && s.book.uses == Held(s.users) && ByTime(s.book.idle, s.at, s.clock) && OneEach(s.users)
    requires (forall t :: 0 <= t < |s.users| ==> UserOk(s, t)) && forall k :: KeyOk(f, s, k)
    ensures Inv(f, h, s)
  {
  }

  lemma InvParts(f: Key -> Value, h: nat, s: System)
    requires Inv(f, h, s)
    ensures Good(s.book, h) && s.book.uses == Held(s.users) && ByTime(s.book.idle, s.at, s.clock) && OneEach(s.users)
  {
  }

  lemma GetShape(f: Key -> Value, h: nat, s: System, t: nat, k: Key)
    requires CanDo(s, Get(t, k))
    ensures t < |s.users| && s.users[t].Out?
    ensures var s', u := Do(f, h, s, Get(t, k)), if Resident(s.book, k) then Waiting(k) else Computing(k);
            && s'.book == Acquired(s.book, k) && s'.users == s.users[t := u] && s'.at == s.at && s'.clock == s.clock
            && s'.book.uses == s.book.uses - One(s.users[t]) + One(u) && s'.book.idle == Without(s.book.idle, k)
  {
  }

  lemma GetInv(f: Key -> Value, h: nat, s: System, t: nat, k: Key)
    requires Inv(f, h, s) && CanDo(s, Get(t, k))
    ensures Inv(f, h, Do(f, h, s, Get(t, k)))
  {
    hide *;
    var s' := Do(f, h, s, Get(t, k));
    var u := if Resident(s.book, k) then Waiting(k) else Computing(k);
    InvParts(f, h, s);
    GetShape(f, h, s, t, k);
    AcquiredGood(s.book, k, h);
    HeldChanges(s.users, t, u);
    WithoutByTime(s.book.idle, s.at, s.clock, k);
    if !Resident(s.book, k) { NotBusy(f, h, s, k); }
    StaysOneEach(s.users, t, u);
    forall v | 0 <= v < |s'.users| ensures UserOk(s', v) { GetUser(f, h, s, t, k, v); }
    forall x ensures KeyOk(f, s', x) { GetKey(f, h, s, t, k, x); }
    InvFrom(f, h, s');
  }

  lemma ComputeKey(f: Key -> Value, h: nat, s: System, t: nat, x: Key)
    requires Inv(f, h, s) && CanDo(s, Compute(t))
    ensures KeyOk(f, Do(f, h, s, Compute(t)), x)
  {
    hide Inv, Good, Busy, Resident, Held, OneEach;
    InvFor(f, h, s, t, x);
    InvFor(f, h, s, t, s.users[t].key);
    if x != s.users[t].key && x in s.runs && x !in s.values { StaysBusy(s.users, t, Using(s.users[t].key), x); }
  }

  lemma ComputeInv(f: Key -> Value, h: nat, s: System, t: nat)
    requires Inv(f, h, s) && CanDo(s, Compute(t))
    ensures Inv(f, h, Do(f, h, s, Compute(t)))
  {
    var s', k := Do(f, h, s, Compute(t)), s.users[t].key;
    HeldSame(s.users, t, Using(k));
    StaysOneEach(s.users, t, Using(k));
    hide Good, Held, ByTime, KeyOk, OneEach, Busy;
    forall x ensures KeyOk(f, s', x) { ComputeKey(f, h, s, t, x); }
    forall u | 0 <= u < |s'.users| ensures UserOk(s', u) { ComputeUser(f, h, s, t, u); }
    hide UserOk;
  }

  lemma ComputeUser(f: Key -> Value, h: nat, s: System, t: nat, u: nat)
    requires Inv(f, h, s) && CanDo(s, Compute(t)) && u < |s.users|
    ensures UserOk(Do(f, h, s, Compute(t)), u)
  {
    hide Inv, KeyOk, Resident;
    InvFor(f, h, s, u, 0);
  }

  lemma SeeKey(f: Key -> Value, h: nat, s: System, t: nat, x: Key)
    requires Inv(f, h, s) && CanDo(s, See(t))
    ensures KeyOk(f, Do(f, h, s, See(t)), x)
  {
    hide Inv, Good, Busy, Resident, Held, OneEach;
    InvFor(f, h, s, t, x);
    if x in s.runs && x !in s.values { StaysBusy(s.users, t, Using(s.users[t].key), x); }
  }

  lemma SeeInv(f: Key -> Value, h: nat, s: System, t: nat)
    requires Inv(f, h, s) && CanDo(s, See(t))
    ensures Inv(f, h, Do(f, h, s, See(t)))
  {
    var s', k := Do(f, h, s, See(t)), s.users[t].key;
    HeldSame(s.users, t, Using(k));
    StaysOneEach(s.users, t, Using(k));
    forall u | 0 <= u < |s'.users| ensures UserOk(s', u) { assert UserOk(s, u); }
    hide Good, Held, ByTime, KeyOk, OneEach, Busy, UserOk;
    forall x ensures KeyOk(f, s', x) { SeeKey(f, h, s, t, x); }
  }

  lemma ReleasedByTime(b: Book, k: Key, h: nat, at: map<Key, nat>, clock: nat)
    requires Good(b, h) && k in b.uses && ByTime(b.idle, at, clock)
    ensures ByTime(Released(b, k, h).idle, at[k := clock], clock + 1)
  {
    var all := [k] + b.idle;
    assert ByTime(all, at[k := clock], clock + 1);
    assert all == [k] + b.idle;
  }

  lemma ReleaseKey(f: Key -> Value, h: nat, s: System, t: nat, x: Key)
    requires Inv(f, h, s) && CanDo(s, Release(t)) && h >= 1
    ensures KeyOk(f, Do(f, h, s, Release(t)), x)
  {
    var k := s.users[t].key;
    assert Good(s.book, h);
    hide Inv, Good, Busy, Resident, Held, OneEach, Released;
    InvFor(f, h, s, t, x);
    ReleasedGood(s.book, k, h);
    if x in s.runs && x !in s.values { StaysBusy(s.users, t, Out, x); }
  }

  lemma ReleaseUser(f: Key -> Value, h: nat, s: System, t: nat, u: nat)
    requires Inv(f, h, s) && CanDo(s, Release(t)) && h >= 1 && u < |s.users|
    requires Held(s.users[t := Out]) == Released(s.book, s.users[t].key, h).uses
    ensures UserOk(Do(f, h, s, Release(t)), u)
  {
    hide Inv, KeyOk, Held, Released;
    InvFor(f, h, s, u, 0);
    if u != t && !s.users[u].Out? { HeldHas(s.users[t := Out], u); }
  }

  lemma ReleaseShape(f: Key -> Value, h: nat, s: System, t: nat)
    requires CanDo(s, Release(t))
    ensures t < |s.users| && s.users[t].Using?
    ensures var s', k := Do(f, h, s, Release(t)), s.users[t].key;
            && s'.book == Released(s.book, k, h) && s'.users == s.users[t := Out] && s'.at == s.at[k := s.clock] && s'.clock == s.clock + 1
            && s'.book.uses == s.book.uses - One(s.users[t]) + One(Out)
  {
  }

  lemma ReleaseInv(f: Key -> Value, h: nat, s: System, t: nat)
    requires Inv(f, h, s) && CanDo(s, Release(t)) && h >= 1
    ensures Inv(f, h, Do(f, h, s, Release(t)))
  {
    hide *;
    InvParts(f, h, s);
    ReleaseShape(f, h, s, t);
    var s', k := Do(f, h, s, Release(t)), s.users[t].key;
    HeldChanges(s.users, t, Out);
    HeldUser(f, h, s, t);
    StaysOneEach(s.users, t, Out);
    ReleasedGood(s.book, k, h);
    ReleasedByTime(s.book, k, h, s.at, s.clock);
    forall x ensures KeyOk(f, s', x) { ReleaseKey(f, h, s, t, x); }
    forall u | 0 <= u < |s'.users| ensures UserOk(s', u) { ReleaseUser(f, h, s, t, u); }
    InvFrom(f, h, s');
  }

  lemma StepInv(f: Key -> Value, h: nat, s: System, e: Event)
    requires Inv(f, h, s) && CanDo(s, e) && h >= 1
    ensures Inv(f, h, Do(f, h, s, e))
  {
    hide Inv, Do;
    match e
    case Get(t, k) => GetInv(f, h, s, t, k);
    case Compute(t) => ComputeInv(f, h, s, t);
    case See(t) => SeeInv(f, h, s, t);
    case Release(t) => ReleaseInv(f, h, s, t);
  }

  lemma {:induction false} NothingHeld(users: seq<User>)
    requires forall t :: 0 <= t < |users| ==> users[t].Out?
    ensures Held(users) == multiset{}
  {
    if users != [] { NothingHeld(users[..|users| - 1]); }
  }

  lemma InitInv(f: Key -> Value, h: nat, s: System)
    requires Init(s)
    ensures Inv(f, h, s)
  {
    NothingHeld(s.users);
  }

  lemma {:induction false} RunInv(f: Key -> Value, h: nat, s: System, es: seq<Event>, t: System)
    requires Inv(f, h, s) && Run(f, h, s, es, t) && h >= 1
    ensures Inv(f, h, t)
    decreases |es|
  {
    if es != [] {
      StepInv(f, h, s, es[0]);
      RunInv(f, h, Do(f, h, s, es[0]), es[1..], t);
    }
  }

  /**
  In every run: the references of a key are its users, a key is in the list exactly when it is resident
  and nobody uses it, the list is never longer than the history, and whoever has a handle finds the value
  there, computed once since the key became resident.
  */
  lemma RunSafe(f: Key -> Value, h: nat, s: System, es: seq<Event>, t: System)
    requires Init(s) && Run(f, h, s, es, t) && h >= 1
    ensures t.book.uses == Held(t.users) && |t.book.idle| <= h && Distinct(t.book.idle)
    ensures forall k :: k in t.book.idle <==> Resident(t.book, k) && t.book.uses[k] == 0
    ensures forall u :: 0 <= u < |t.users| && t.users[u].Using? ==>
              var k := t.users[u].key;
              && Resident(t.book, k) && k in t.values && t.values[k] == f(k)
              && k in t.runs && t.runs[k] == 1
  {
    InitInv(f, h, s);
    RunInv(f, h, s, es, t);
    hide Held, Run, ByTime;
    forall u | 0 <= u < |t.users| && t.users[u].Using?
      ensures var k := t.users[u].key;
              Resident(t.book, k) && k in t.values && t.values[k] == f(k) && k in t.runs && t.runs[k] == 1
    {
      assert UserOk(t, u) && KeyOk(f, t, t.users[u].key);
    }
  }

  /** Whoever waits for a value waits for exactly one other user, who can go on. */
  lemma WaitsForOne(f: Key -> Value, h: nat, s: System, es: seq<Event>, t: System, u: nat) returns (w: nat)
    requires Init(s) && Run(f, h, s, es, t) && h >= 1
    requires u < |t.users| && t.users[u].Waiting? && t.users[u].key !in t.values
    ensures w < |t.users| && t.users[w] == Computing(t.users[u].key) && CanDo(t, Compute(w))
    ensures forall v :: 0 <= v < |t.users| && t.users[v] == Computing(t.users[u].key) ==> v == w
  {
    InitInv(f, h, s);
    RunInv(f, h, s, es, t);
    HeldUser(f, h, t, u);
    assert KeyOk(f, t, t.users[u].key);
    w :| 0 <= w < |t.users| && t.users[w] == Computing(t.users[u].key);
  }

  // ----- every use gets its handle -----

  lemma {:induction false} RunThen(f: Key -> Value, h: nat, s: System, es: seq<Event>, t: System, e: Event)
    requires Run(f, h, s, es, t) && CanDo(t, e)
    ensures Run(f, h, s, es + [e], Do(f, h, t, e))
    decreases |es|
  {
    hide Do, CanDo;
    if es == [] {
      assert (es + [e])[1..] == [];
    } else {
      assert (es + [e])[1..] == es[1..] + [e];
      RunThen(f, h, Do(f, h, s, es[0]), es[1..], t, e);
    }
  }

  /** The wait of a user ends with its next look once the value is there, and goes on until then. */
  lemma SeeEnds(f: Key -> Value, h: nat, s: System, t: nat)
    requires CanDo(s, See(t))
    ensures var k := s.users[t].key;
            Do(f, h, s, See(t)) == s.(users := s.users[t := if k in s.values then Using(k) else Waiting(k)])
  {
    assert s.users[t := s.users[t]] == s.users;
  }

  lemma ComputeEnds(f: Key -> Value, h: nat, s: System, t: nat)
    requires CanDo(s, Compute(t))
    ensures var k, s' := s.users[t].key, Do(f, h, s, Compute(t));
            && s'.users == s.users[t := Using(k)] && s'.values == s.values[k := f(k)] && s'.book == s.book
  {
  }

  lemma Reachable(f: Key -> Value, h: nat, s: System, es: seq<Event>, t: System)
    requires Init(s) && Run(f, h, s, es, t) && h >= 1
    ensures Inv(f, h, t)
  {
    InitInv(f, h, s);
    RunInv(f, h, s, es, t);
  }

  lemma OneUser(s: System, t: nat)
    requires t < |s.users|
    ensures s.users[t].Computing? ==> CanDo(s, Compute(t))
    ensures s.users[t].Waiting? ==> CanDo(s, See(t))
  {
  }

  /** The only steps it takes to serve a user that is inside: its own, and that of the one it waits for. */
  ghost predicate Serves(t: System, t': System, u: nat, k: Key)
  {
    && u < |t.users| == |t'.users| && t'.users[u] == Using(k) && t'.book == t.book
    && forall v :: 0 <= v < |t.users| && v != u ==>
         t'.users[v] == t.users[v] || (t.users[v] == Computing(k) && t'.users[v] == Using(k))
  }

  /** From every reachable state a user that asked for a key comes to its handle, with the value, in at most two steps. */
  lemma Served(f: Key -> Value, h: nat, s: System, es: seq<Event>, t: System, u: nat) returns (more: seq<Event>, t': System)
    requires Init(s) && Run(f, h, s, es, t) && h >= 1 && u < |t.users| && (t.users[u].Computing? || t.users[u].Waiting?)
    ensures |more| <= 2 && Run(f, h, s, es + more, t') && Serves(t, t', u, t.users[u].key)
    ensures t.users[u].key in t'.values && t'.values[t.users[u].key] == f(t.users[u].key)
  {
    hide *;
    var k := t.users[u].key;
    OneUser(t, u);
    if t.users[u].Computing? {
      ComputeEnds(f, h, t, u);
      RunThen(f, h, s, es, t, Compute(u));
      more, t' := [Compute(u)], Do(f, h, t, Compute(u));
      ServesIntro(t, t', u, u, k);
    } else if k in t.values {
      Reachable(f, h, s, es, t);
      InvFor(f, h, t, u, k);
      ValueOf(f, t, k);
      SeeEnds(f, h, t, u);
      RunThen(f, h, s, es, t, See(u));
      more, t' := [See(u)], Do(f, h, t, See(u));
      ServesIntro(t, t', u, u, k);
    } else {
      var w := WaitsForOne(f, h, s, es, t, u);
      ComputeEnds(f, h, t, w);
      RunThen(f, h, s, es, t, Compute(w));
      var m := Do(f, h, t, Compute(w));
      OneUser(m, u);
      SeeEnds(f, h, m, u);
      RunThen(f, h, s, es + [Compute(w)], m, See(u));
      more, t' := [Compute(w), See(u)], Do(f, h, m, See(u));
      assert es + [Compute(w)] + [See(u)] == es + more;
      ServesIntro(t, t', u, w, k);
    }
  }

  lemma ValueOf(f: Key -> Value, s: System, k: Key)
    requires KeyOk(f, s, k) && k in s.values
    ensures s.values[k] == f(k)
  {
  }

  lemma ServesIntro(t: System, t': System, u: nat, w: nat, k: Key)
    requires u < |t.users| && w < |t.users| && (w == u || t.users[w] == Computing(k))
    requires t'.users == t.users[w := Using(k)][u := Using(k)] && t'.book == t.book
    ensures Serves(t, t', u, k)
  {
  }

  /** operator[]: from every reachable state a user outside can come by a handle for any key, and is counted as one more use of it. */
  lemma Obtains(f: Key -> Value, h: nat, s: System, es: seq<Event>, t: System, u: nat, k: Key) returns (more: seq<Event>, t': System)
    requires Init(s) && Run(f, h, s, es, t) && h >= 1 && u < |t.users| && t.users[u].Out?
    ensures Run(f, h, s, es + more, t') && |more| <= 3 && |t'.users| == |t.users| && t'.users[u] == Using(k)
    ensures k in t'.values && t'.values[k] == f(k) && t'.book.uses == t.book.uses + multiset{k}
  {
    var m := Do(f, h, t, Get(u, k));
    assert m.users[u] == Computing(k) || m.users[u] == Waiting(k);
    assert m.book.uses == t.book.uses + multiset{k};
    hide *;
    GetsIn(t, u, k);
    RunThen(f, h, s, es, t, Get(u, k));
    more, t' := Served(f, h, s, es + [Get(u, k)], m, u);
    assert es + [Get(u, k)] + more == es + ([Get(u, k)] + more);
    more := [Get(u, k)] + more;
    ServesGives(m, t', u, k);
  }

  lemma GetsIn(t: System, u: nat, k: Key)
    requires u < |t.users| && t.users[u].Out?
    ensures CanDo(t, Get(u, k))
  {
  }

  lemma ServesGives(t: System, t': System, u: nat, k: Key)
    requires Serves(t, t', u, k)
    ensures u < |t.users| == |t'.users| && t'.users[u] == Using(k) && t'.book == t.book
  {
  }

  /** The end of a use counts it off once; the key stays, and whoever asks for it next has the value without another call. */
  lemma FoundAgain(f: Key -> Value, h: nat, s: System, es: seq<Event>, t: System, u: nat, v: nat)
    requires Init(s) && Run(f, h, s, es, t) && h >= 1 && u < |t.users| && t.users[u].Using?
    requires v < |t.users| && (v == u || t.users[v].Out?)
    ensures var k, t1 := t.users[u].key, Do(f, h, t, Release(u));
            && t1.users == t.users[u := Out] && t1.book.uses == t.book.uses - multiset{k}
            && CanDo(t1, Get(v, k))
            && var t2 := Do(f, h, t1, Get(v, k));
               && t2.users[v] == Waiting(k) && Do(f, h, t2, See(v)).users[v] == Using(k)
               && k in t2.runs && t2.runs[k] == 1 && k in t2.values && t2.values[k] == f(k)
  {
    hide *;
    Reachable(f, h, s, es, t);
    OneRelease(t, u);
    var k, t1 := t.users[u].key, Do(f, h, t, Release(u));
    InvFor(f, h, t, u, k);
    UserHas(t, u);
    StaysResident(f, h, t, u);
    StepInv(f, h, t, Release(u));
    InvFor(f, h, t1, v, k);
    ResidentGet(f, h, t1, v, k);
    ReleasedKeeps(f, h, t, u);
    ValueOf(f, t1, k);
    RunsOnce(f, t1, k);
    var t2 := Do(f, h, t1, Get(v, k));
    OneUser(t2, v);
    SeeEnds(f, h, t2, v);
  }

  lemma OneRelease(t: System, u: nat)
    requires u < |t.users| && t.users[u].Using?
    ensures CanDo(t, Release(u))
  {
  }

  lemma UserHas(s: System, u: nat)
    requires u < |s.users| && UserOk(s, u) && s.users[u].Using?
    ensures s.users[u].key in s.values
  {
  }

  lemma StaysResident(f: Key -> Value, h: nat, t: System, u: nat)
    requires Inv(f, h, t) && h >= 1 && CanDo(t, Release(u)) && t.users[u].key in t.book.uses
    ensures var k, t1 := t.users[u].key, Do(f, h, t, Release(u));
            Resident(t1.book, k) && t1.users == t.users[u := Out] && t1.book.uses == t.book.uses - multiset{k}
  {
    ReleasedGood(t.book, t.users[u].key, h);
  }

  lemma ReleasedKeeps(f: Key -> Value, h: nat, t: System, u: nat)
    requires CanDo(t, Release(u)) && t.users[u].key in t.values && Resident(Do(f, h, t, Release(u)).book, t.users[u].key)
    ensures t.users[u].key in Do(f, h, t, Release(u)).values
  {
  }

  lemma RunsOnce(f: Key -> Value, s: System, k: Key)
    requires KeyOk(f, s, k) && k in s.values
    ensures k in s.runs && s.runs[k] == 1
  {
  }

  lemma ResidentGet(f: Key -> Value, h: nat, s: System, v: nat, k: Key)
    requires v < |s.users| && s.users[v].Out? && Resident(s.book, k)
    ensures CanDo(s, Get(v, k))
    ensures var s' := Do(f, h, s, Get(v, k)); s'.users == s.users[v := Waiting(k)] && s'.values == s.values && s'.runs == s.runs
  {
  }

  lemma EvictedWas(f: Key -> Value, h: nat, s: System, u: nat, x: Key)
    requires Inv(f, h, s) && h >= 1 && CanDo(s, Release(u))
    requires Resident(s.book, x) && !Resident(Do(f, h, s, Release(u)).book, x)
    ensures s.book.uses[x] == 0 && |s.book.idle| == h && x == s.book.idle[h - 1]
  {
    HeldUser(f, h, s, u);
    ReleasedGood(s.book, s.users[u].key, h);
    hide Inv, Released;
    assert x in s.book.idle;
  }

  /** Who is evicted: nobody in use, and of a full list the key that was released longest ago. */
  lemma EvictsOldest(f: Key -> Value, h: nat, s: System, es: seq<Event>, t: System, u: nat, x: Key)
    requires Init(s) && Run(f, h, s, es, t) && h >= 1 && CanDo(t, Release(u))
    requires Resident(t.book, x) && !Resident(Do(f, h, t, Release(u)).book, x)
    ensures t.book.uses[x] == 0 && |t.book.idle| == h && x in t.book.idle && x in t.at
    ensures forall y :: y in t.book.idle && y != x ==> y in t.at && t.at[y] > t.at[x]
  {
    hide *;
    InitInv(f, h, s);
    RunInv(f, h, s, es, t);
    InvParts(f, h, t);
    EvictedWas(f, h, t, u, x);
    OldestLast(t.book.idle, t.at, t.clock);
  }
}
