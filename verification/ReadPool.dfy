/**
 The pool of read-only connections: readers borrow a slot, wait for one, time out or return
 theirs, while the pool may be closed at any time.

 A step is one stretch under the pool's lock; steps of any number of readers interleave freely.
 Which reader holds which slot is recorded beside the pool, which itself keeps only flags and
 counts.
 */
module ReadPool {
  import opened WireFormat

  type Positive = n: nat | n >= 1 witness 1

  /** `hasKey` says whether the pool still has the 32-byte key, without which no connection opens. */
  datatype Pool = Pool(conns: seq<int>, busy: seq<bool>, next: nat, active: nat, waiters: nat, isOpen: bool, hasKey: bool)

  datatype Answer = Closing | BusyNow | Timeout | Got(slot: nat) | MustWait

  // ---- finding an idle slot ----

  /** The first idle slot in cyclic order from `next`, after the first `i` were tried. */
  function IdleFrom(busy: seq<bool>, next: nat, i: nat): Option<nat>
    decreases |busy| - i
  {
    if i >= |busy| then None
    else if !busy[(next + i) % |busy|] then Some((next + i) % |busy|)
    else IdleFrom(busy, next, i + 1)
  }

  function Idle(p: Pool): Option<nat> {
    IdleFrom(p.busy, p.next, 0)
  }

  lemma {:induction false} FoundIsIdle(busy: seq<bool>, next: nat, i: nat)
    requires IdleFrom(busy, next, i).Some?
    ensures IdleFrom(busy, next, i).value < |busy| && !busy[IdleFrom(busy, next, i).value]
    decreases |busy| - i
  {
    if busy[(next + i) % |busy|] {
      FoundIsIdle(busy, next, i + 1);
    }
  }

  lemma {:induction false} TriedIsBusy(busy: seq<bool>, next: nat, i: nat, k: nat)
    requires IdleFrom(busy, next, i).None? && i <= k < |busy|
    ensures busy[(next + k) % |busy|]
    decreases |busy| - i
  {
    if i < k {
      TriedIsBusy(busy, next, i + 1, k);
    }
  }

  /** Going round from `next` reaches every slot. */
  lemma CyclicReach(n: nat, next: nat, j: nat) returns (k: nat)
    requires j < n
    ensures k < n && (next + k) % n == j
  {
    var start := next % n;
    k := if j >= start then j - start else j + n - start;
    SameRemainder(n, next, start, k);
  }

  lemma SameRemainder(n: nat, next: nat, start: nat, k: nat)
    requires n > 0 && start == next % n && k < n
    ensures (next + k) % n == if start + k < n then start + k else start + k - n
  {
    var q, r := next / n, if start + k < n then start + k else start + k - n;
    var q' := if start + k < n then q else q + 1;
    assert next == q * n + start;
    assert next + k == q' * n + r;
    RemainderUnique(n, next + k, q', r);
  }

  lemma RemainderUnique(n: nat, x: nat, q: nat, r: nat)
    requires n > 0 && r < n && x == q * n + r
    ensures x % n == r
  {
    var d := x / n - q;
    assert x == (x / n) * n + x % n;
    assert d * n == r - x % n;
  }

  /** No slot is found exactly when all are busy. */
  lemma NoneIdleMeansAllBusy(p: Pool)
    ensures Idle(p).None? <==> forall j :: 0 <= j < |p.busy| ==> p.busy[j]
    ensures Idle(p).Some? ==> Idle(p).value < |p.busy| && !p.busy[Idle(p).value]
  {
    if Idle(p).None? {
      forall j | 0 <= j < |p.busy|
        ensures p.busy[j]
      {
        var k := CyclicReach(|p.busy|, p.next, j);
        TriedIsBusy(p.busy, p.next, 0, k);
      }
    } else {
      FoundIsIdle(p.busy, p.next, 0);
    }
  }

  // ---- the steps under the lock ----

  function Borrowed(p: Pool, slot: nat): Pool
    requires slot < |p.busy| && p.conns != []
  {
    p.(busy := p.busy[slot := true], active := p.active + 1, next := (slot + 1) % |p.conns|)
  }

  /** A reader arrives. */
  function Entering(p: Pool, mayWait: bool): (Pool, Answer) {
    if !p.isOpen || p.conns == [] || p.busy == [] then (p, Closing)
    else
      NoneIdleMeansAllBusy(p);
      var idle := Idle(p);
      if idle.Some? then (Borrowed(p, idle.value), Got(idle.value))
      else if !mayWait then (p, BusyNow)
      else (p.(waiters := p.waiters + 1), MustWait)
  }

  /** What a waiting reader waits for. */
  predicate WakeReady(p: Pool) {
    !p.isOpen || Idle(p).Some?
  }

  /** A waiting reader continues, because it may or because its time is up. */
  function Waking(p: Pool): (Pool, Answer)
    requires p.waiters > 0
  {
    var q := p.(waiters := p.waiters - 1);
    if !p.isOpen then (q, Closing)
    else if !WakeReady(p) then (q, Timeout)
    else
      NoneIdleMeansAllBusy(q);
      var idle := Idle(q);
      if idle.None? || q.conns == [] then (q, Closing) else (Borrowed(q, idle.value), Got(idle.value))
  }

  function Returned(p: Pool, slot: nat): Pool
    requires slot < |p.busy|
  {
    p.(busy := p.busy[slot := false], active := if p.active > 0 then p.active - 1 else 0)
  }

  function AllIdle(n: nat): (b: seq<bool>)
    ensures |b| == n && forall i :: 0 <= i < n ==> !b[i]
  {
    seq(n, _ => false)
  }

  /**
   `conns` are the fresh connections, or none if one of them could not be opened. The key is wiped
   in either case, so an attempt without it fails.
   */
  function Opened(p: Pool, conns: Option<seq<int>>): Pool {
    if p.isOpen then p
    else if !p.hasKey || conns.None? then p.(conns := [], busy := [], hasKey := false)
    else p.(conns := conns.value, busy := AllIdle(|conns.value|), isOpen := true, hasKey := false)
  }

  class ReadPool {
    const size: Positive
    var conns: seq<int>
    var busy: seq<bool>
    var next: nat
    var active: nat
    var waiters: nat
    var isOpen: bool
    var hasKey: bool

    function View(): Pool
      reads this
    {
      Pool(conns, busy, next, active, waiters, isOpen, hasKey)
    }

    constructor (size: int, keyLength: nat)
      ensures this.size == (if size < 1 then 1 else size) && View() == Pool([], [], 0, 0, 0, false, keyLength == 32)
    {
      this.size := if size < 1 then 1 else size;
      conns, busy, next, active, waiters, isOpen, hasKey := [], [], 0, 0, 0, false, keyLength == 32;
    }

    /** `failsAt` is the connection that cannot be opened, if it is below `size`; `first` numbers the fresh ones. */
    method Open(first: int, failsAt: nat) returns (ok: bool)
      modifies this
      ensures View() == Opened(old(View()), if failsAt < size then None else Some(seq(size, i => first + i)))
      ensures ok <==> old(isOpen) || (old(hasKey) && failsAt >= size)
    {
      if isOpen {
        return true;
      }
      conns, busy := [], [];
      for i := 0 to size
        invariant conns == seq(i, k => first + k) && busy == AllIdle(i) && failsAt >= i && (i > 0 ==> hasKey)
        invariant next == old(next) && active == old(active) && waiters == old(waiters) && !isOpen && hasKey == old(hasKey)
      {
        if failsAt == i || !hasKey {
          conns, busy := [], [];
          hasKey := false;
          return false;
        }
        conns, busy := conns + [first + i], busy + [false];
      }
      isOpen := true;
      hasKey := false;
      return true;
    }

    method FindIdle() returns (slot: Option<nat>)
      requires |conns| == |busy|
      ensures slot == Idle(View())
    {
      var i := 0;
      while i < |conns|
        invariant 0 <= i <= |conns|
        invariant IdleFrom(busy, next, i) == Idle(View())
      {
        var j := (next + i) % |conns|;
        if !busy[j] {
          return Some(j);
        }
        i := i + 1;
      }
      return None;
    }

    /** The first locked stretch of a read. */
    method Enter(mayWait: bool) returns (a: Answer)
      requires |conns| == |busy|
      modifies this
      ensures (View(), a) == Entering(old(View()), mayWait)
    {
      if !isOpen || |conns| == 0 {
        return Closing;
      }
      var slot := FindIdle();
      if slot.None? {
        if !mayWait {
          return BusyNow;
        }
        waiters := waiters + 1;
        return MustWait;
      }
      NoneIdleMeansAllBusy(View());
      Take(slot.value);
      return Got(slot.value);
    }

    /** The stretch after a wait, whether it ended in time or not. */
    method Wake() returns (a: Answer)
      requires |conns| == |busy| && waiters > 0
      modifies this
      ensures (View(), a) == Waking(old(View()))
    {
      var ready := true;
      if isOpen {
        var ignored := FindIdle();
        ready := ignored.Some?;
      }
      waiters := waiters - 1;
      if !isOpen {
        return Closing;
      }
      if !ready {
        return Timeout;
      }
      var slot := FindIdle();
      NoneIdleMeansAllBusy(View());
      if slot.None? {
        return Closing;
      }
      Take(slot.value);
      return Got(slot.value);
    }

    method Take(slot: nat)
      requires slot < |busy| == |conns|
      modifies this
      ensures View() == Borrowed(old(View()), slot)
    {
      busy := busy[slot := true];
      active := active + 1;
      next := (slot + 1) % |conns|;
    }

    method GiveBack(slot: nat)
      requires slot < |busy|
      modifies this`busy, this`active
      ensures View() == Returned(old(View()), slot)
      ensures |busy| == |old(busy)| && !busy[slot] && forall j :: 0 <= j < |busy| && j != slot ==> busy[j] == old(busy)[j]
      ensures old(active) > 0 ==> active == old(active) - 1
    {
      busy := busy[slot := false];
      if active > 0 {
        active := active - 1;
      }
    }

    /** Closing first stops lending; connections are destroyed when no reader is left. */
    method BeginClose()
      modifies this`isOpen
      ensures View() == old(View()).(isOpen := false)
    {
      isOpen := false;
    }

    method FinishClose()
      requires active == 0 && waiters == 0
      modifies this`conns, this`busy, this`hasKey
      ensures View() == old(View()).(conns := [], busy := [], hasKey := false)
    {
      conns, busy, hasKey := [], [], false;
    }
  }

  // ---- interleavings ----

  /** The pool, who holds which slot, and who waits. */
  datatype World = World(pool: Pool, holders: map<int, nat>, waiting: set<int>)

  datatype Action =
    | Enter(reader: int, mayWait: bool)
    | Wake(reader: int, timedOut: bool)
    | Return(reader: int)
    | Reopen(conns: Option<seq<int>>)
    | BeginClose
    | FinishClose

  predicate Enabled(w: World, a: Action) {
    match a
    case Enter(r, _) => r !in w.holders && r !in w.waiting
    case Wake(r, timedOut) => r in w.waiting && w.pool.waiters > 0 && (timedOut || WakeReady(w.pool))
    case Return(r) => r in w.holders && w.holders[r] < |w.pool.busy|
    case FinishClose => w.pool.active == 0 && w.pool.waiters == 0
    case Reopen(conns) => conns.Some? ==> conns.value != []
    case BeginClose => true
  }

  function Settle(w: World, reader: int, p: Pool, a: Answer): World {
    match a
    case Got(slot) => World(p, w.holders[reader := slot], w.waiting - {reader})
    case MustWait => World(p, w.holders, w.waiting + {reader})
    case _ => World(p, w.holders, w.waiting - {reader})
  }

  function Next(w: World, a: Action): World
    requires Enabled(w, a)
  {
    match a
    case Enter(r, mayWait) => var (p, answer) := Entering(w.pool, mayWait); Settle(w, r, p, answer)
    case Wake(r, _) => var (p, answer) := Waking(w.pool); Settle(w, r, p, answer)
    case Return(r) => w.(pool := Returned(w.pool, w.holders[r]), holders := w.holders - {r})
    case Reopen(conns) => w.(pool := Opened(w.pool, conns))
    case BeginClose => w.(pool := w.pool.(isOpen := false))
    case FinishClose => w.(pool := w.pool.(conns := [], busy := [], hasKey := false))
  }

  // ---- the invariant ----

  function CountBusy(busy: seq<bool>): nat {
    if busy == [] then 0 else CountBusy(busy[..|busy| - 1]) + if busy[|busy| - 1] then 1 else 0
  }

  /** Every busy slot has exactly one holder, and every holder's slot is there and busy. */
  ghost predicate Exclusive(busy: seq<bool>, holders: map<int, nat>) {
    && (forall r :: r in holders ==> holders[r] < |busy| && busy[holders[r]])
    && (forall r, q :: r in holders && q in holders && r != q ==> holders[r] != holders[q])
    && (forall j :: 0 <= j < |busy| && busy[j] ==> exists r :: r in holders && holders[r] == j)
  }

  ghost predicate Inv(w: World) {
    && |w.pool.conns| == |w.pool.busy|
    && Exclusive(w.pool.busy, w.holders)
    && w.pool.active == CountBusy(w.pool.busy) == |w.holders|
    && w.pool.waiters == |w.waiting|
    && (w.pool.hasKey ==> w.pool.conns == [] && !w.pool.isOpen)
  }

  lemma {:induction false} CountAfterSet(busy: seq<bool>, slot: nat, b: bool)
    requires slot < |busy| && busy[slot] != b
    ensures CountBusy(busy[slot := b]) == CountBusy(busy) + if b then 1 else -1
  {
    var last := |busy| - 1;
    if slot == last {
      assert busy[slot := b][..last] == busy[..last];
    } else {
      CountAfterSet(busy[..last], slot, b);
      assert busy[slot := b][..last] == busy[..last][slot := b];
    }
  }

  lemma {:induction false} CountOfIdle(busy: seq<bool>)
    requires forall i :: 0 <= i < |busy| ==> !busy[i]
    ensures CountBusy(busy) == 0
  {
    if busy != [] {
      CountOfIdle(busy[..|busy| - 1]);
    }
  }

  lemma BorrowKeepsExclusive(busy: seq<bool>, holders: map<int, nat>, reader: int, slot: nat)
    requires Exclusive(busy, holders) && reader !in holders && slot < |busy| && !busy[slot]
    ensures Exclusive(busy[slot := true], holders[reader := slot])
  {
    var busy', holders' := busy[slot := true], holders[reader := slot];
    forall j | 0 <= j < |busy'| && busy'[j]
      ensures exists r :: r in holders' && holders'[r] == j
    {
      if j == slot {
        assert holders'[reader] == j;
      } else {
        var r :| r in holders && holders[r] == j;
        assert holders'[r] == j;
      }
    }
  }

  lemma ReturnKeepsExclusive(busy: seq<bool>, holders: map<int, nat>, reader: int)
    requires Exclusive(busy, holders) && reader in holders
    ensures Exclusive(busy[holders[reader] := false], holders - {reader})
  {
    var busy', holders' := busy[holders[reader] := false], holders - {reader};
    forall j | 0 <= j < |busy'| && busy'[j]
      ensures exists r :: r in holders' && holders'[r] == j
    {
      var r :| r in holders && holders[r] == j;
      assert r in holders' && holders'[r] == j;
    }
  }

  lemma BorrowKeepsInv(w: World, reader: int, slot: nat, waiting: set<int>, waiters: nat)
    requires Inv(w) && reader !in w.holders && slot < |w.pool.busy| && !w.pool.busy[slot] && waiters == |waiting|
    ensures Inv(World(Borrowed(w.pool.(waiters := waiters), slot), w.holders[reader := slot], waiting))
  {
    BorrowKeepsExclusive(w.pool.busy, w.holders, reader, slot);
    CountAfterSet(w.pool.busy, slot, true);
    assert w.holders[reader := slot].Keys == w.holders.Keys + {reader};
  }

  lemma WaitKeepsInv(w: World, r: int)
    requires Inv(w) && r !in w.waiting
    ensures Inv(w.(pool := w.pool.(waiters := w.pool.waiters + 1), waiting := w.waiting + {r}))
  {
  }

  lemma EnterKeepsInv(w: World, r: int, mayWait: bool)
    requires Inv(w) && Enabled(w, Enter(r, mayWait))
    ensures Inv(Next(w, Enter(r, mayWait)))
  {
    assert w.waiting - {r} == w.waiting;
    match Entering(w.pool, mayWait).1
    case Got(slot) =>
      FoundIsIdle(w.pool.busy, w.pool.next, 0);
      BorrowKeepsInv(w, r, slot, w.waiting, w.pool.waiters);
    case MustWait => WaitKeepsInv(w, r);
    case _ =>
  }

  lemma WakeKeepsInv(w: World, r: int, timedOut: bool)
    requires Inv(w) && r !in w.holders && Enabled(w, Wake(r, timedOut))
    ensures Inv(Next(w, Wake(r, timedOut)))
  {
    NoneIdleMeansAllBusy(w.pool);
    assert w.waiting == w.waiting - {r} + {r};
    if Idle(w.pool).Some? {
      BorrowKeepsInv(w, r, Idle(w.pool).value, w.waiting - {r}, w.pool.waiters - 1);
    }
  }

  lemma ReturnKeepsInv(w: World, r: int)
    requires Inv(w) && Enabled(w, Return(r))
    ensures Inv(Next(w, Return(r)))
  {
    ReturnKeepsExclusive(w.pool.busy, w.holders, r);
    CountAfterSet(w.pool.busy, w.holders[r], false);
    assert w.holders.Keys == (w.holders - {r}).Keys + {r};
  }

  /** Connections are destroyed only when nobody holds or awaits one. */
  lemma FinishCloseKeepsInv(w: World)
    requires Inv(w) && Enabled(w, FinishClose)
    ensures w.holders == map[] && w.waiting == {} && Inv(Next(w, FinishClose))
  {
  }

  /**
   Opening an open pool does nothing. Opening a closed one is safe exactly while no reader holds a
   connection: a reader can hold one only after the key was used up, so the attempt fails and
   takes the reader's slot away.
   */
  lemma ReopenKeepsInv(w: World, conns: Option<seq<int>>)
    requires Inv(w) && Enabled(w, Reopen(conns))
    ensures Inv(Next(w, Reopen(conns))) <==> w.pool.isOpen || w.pool.active == 0
  {
    if !w.pool.isOpen {
      CountOfIdle(Opened(w.pool, conns).busy);
    }
  }

  predicate Distinct(w: World) {
    forall r :: r in w.waiting ==> r !in w.holders
  }

  predicate SafeReopen(w: World, a: Action) {
    a.Reopen? ==> w.pool.isOpen || w.pool.active == 0
  }

  ghost predicate Run(w: World, actions: seq<Action>, end: World)
    decreases |actions|
  {
    if actions == [] then end == w
    else Enabled(w, actions[0]) && SafeReopen(w, actions[0]) && Run(Next(w, actions[0]), actions[1..], end)
  }

  lemma StepKeepsInv(w: World, a: Action)
    requires Inv(w) && Distinct(w) && Enabled(w, a) && SafeReopen(w, a)
    ensures Inv(Next(w, a)) && Distinct(Next(w, a))
  {
    match a
    case Enter(r, mayWait) => EnterKeepsInv(w, r, mayWait);
    case Wake(r, timedOut) => WakeKeepsInv(w, r, timedOut);
    case Return(r) => ReturnKeepsInv(w, r);
    case Reopen(conns) => ReopenKeepsInv(w, conns);
    case FinishClose => FinishCloseKeepsInv(w);
    case BeginClose =>
  }

  /**
   In every interleaving each busy slot has exactly one holder, the count of active readers is
   the number of busy slots, and the slot a reader returns is there to be returned.
   */
  lemma {:induction false} RunKeepsInv(w: World, actions: seq<Action>, end: World)
    requires Inv(w) && Distinct(w) && Run(w, actions, end)
    ensures Inv(end) && Distinct(end)
    ensures forall r :: r in end.holders ==> Enabled(end, Return(r))
    decreases |actions|
  {
    if actions != [] {
      StepKeepsInv(w, actions[0]);
      RunKeepsInv(Next(w, actions[0]), actions[1..], end);
    }
  }

  /** A reader that wakes up because it may, in an open pool, always gets a slot. */
  lemma WakingSucceeds(w: World)
    requires Inv(w) && w.pool.waiters > 0 && w.pool.isOpen && WakeReady(w.pool)
    ensures Waking(w.pool).1.Got?
  {
    NoneIdleMeansAllBusy(w.pool);
  }

  /** The first opening is always safe, since nothing was lent before it. */
  lemma FirstOpenIsSafe(w: World, conns: Option<seq<int>>)
    requires Inv(w) && w.pool.hasKey
    ensures SafeReopen(w, Reopen(conns))
  {
  }

  /**
   Opening again while a closing pool still has a reader: the attempt fails for want of the key,
   and the slot the reader is going to return no longer exists.
   */
  lemma ReopenWhileReading() returns (actions: seq<Action>, reading: World, end: World)
    ensures Run(NewPool(), actions, reading) && Inv(reading) && reading.holders == map[1 := 0] && Enabled(reading, Return(1))
    ensures end == Next(reading, Reopen(Some([8]))) && !end.pool.isOpen && end.pool.busy == []
    ensures 1 in end.holders && !Enabled(end, Return(1))
  {
    var start := NewPool();
    var ready := Next(start, Reopen(Some([7])));
    assert ready.pool.busy == [false];
    var entered := Next(ready, Enter(1, false));
    assert entered.pool == Pool([7], [true], 0, 1, 0, true, false);
    reading := Next(entered, BeginClose);
    end := Next(reading, Reopen(Some([8])));
    actions := [Reopen(Some([7])), Enter(1, false), BeginClose];
    assert actions[1..] == [Enter(1, false), BeginClose] && actions[1..][1..] == [BeginClose] && actions[1..][1..][1..] == [];
    assert Run(entered, [BeginClose], reading);
    assert Run(ready, actions[1..], reading);
    RunKeepsInv(start, actions, reading);
  }

  /** A pool that was never opened. */
  function NewPool(): World {
    World(Pool([], [], 0, 0, 0, false, true), map[], {})
  }

  // ---- what a reader is told ----

  /** The slot was idle; it is lent, and the next search starts behind it. */
  predicate Lent(p: Pool, p': Pool, slot: nat) {
    && slot < |p.busy| && !p.busy[slot] && p'.busy == p.busy[slot := true]
    && p'.active == p.active + 1 && p'.conns == p.conns && p'.isOpen == p.isOpen && p'.hasKey == p.hasKey
    && |p.conns| > 0 && p'.next == (if slot == |p.conns| - 1 then 0 else slot + 1)
  }

  lemma SlotBehind(slot: nat, n: nat)
    requires slot < n
    ensures (slot + 1) % n == if slot == n - 1 then 0 else slot + 1
  {
  }

  lemma BorrowedIsLent(p: Pool, slot: nat)
    requires |p.conns| == |p.busy| && slot < |p.busy| && !p.busy[slot]
    ensures Lent(p, Borrowed(p, slot), slot)
  {
    SlotBehind(slot, |p.conns|);
  }

  /** The slot that is looked at after `j` others. */
  function SlotAt(n: nat, next: nat, j: nat): (slot: nat)
    requires n > 0
    ensures slot < n
  {
    (next + j) % n
  }

  predicate BusyAt(busy: seq<bool>, next: nat, j: nat) {
    |busy| > 0 && busy[SlotAt(|busy|, next, j)]
  }

  /** The slot found is the first idle one from `next` on, going round. */
  lemma {:induction false} FoundIsFirst(busy: seq<bool>, next: nat, i: nat) returns (k: nat)
    requires IdleFrom(busy, next, i).Some?
    ensures i <= k < |busy| && IdleFrom(busy, next, i).value == SlotAt(|busy|, next, k) && !BusyAt(busy, next, k)
    ensures forall j :: i <= j < k ==> BusyAt(busy, next, j)
    decreases |busy| - i
  {
    if BusyAt(busy, next, i) {
      k := FoundIsFirst(busy, next, i + 1);
    } else {
      k := i;
    }
  }

  predicate AllBusy(p: Pool) {
    forall j :: 0 <= j < |p.busy| ==> p.busy[j]
  }

  /** A reader that arrives gets an idle slot, and waits or is told that all are busy only if all are. */
  lemma EnterMeaning(p: Pool, mayWait: bool)
    requires |p.conns| == |p.busy|
    ensures var (p', a) := Entering(p, mayWait);
            var shut := !p.isOpen || |p.busy| == 0;
            match a
            case Closing => shut && p' == p
            case Got(slot) => !shut && Lent(p, p', slot) && p'.waiters == p.waiters
            case BusyNow => !shut && AllBusy(p) && !mayWait && p' == p
            case MustWait => !shut && AllBusy(p) && mayWait && p' == p.(waiters := p.waiters + 1)
            case Timeout => false
  {
    NoneIdleMeansAllBusy(p);
    if Idle(p).Some? {
      BorrowedIsLent(p, Idle(p).value);
    }
  }

  /** A reader that waited gets an idle slot, gives up only if all are still busy, and is one waiter less. */
  lemma WakeMeaning(p: Pool)
    requires |p.conns| == |p.busy| && p.waiters > 0
    ensures var (p', a) := Waking(p);
            p'.waiters == p.waiters - 1 &&
            match a
            case Closing => !p.isOpen && p' == p.(waiters := p.waiters - 1)
            case Got(slot) => p.isOpen && Lent(p, p', slot)
            case Timeout => p.isOpen && AllBusy(p) && p' == p.(waiters := p.waiters - 1)
            case _ => false
  {
    NoneIdleMeansAllBusy(p);
    var q := p.(waiters := p.waiters - 1);
    assert Idle(q) == Idle(p);
    if Idle(p).Some? {
      BorrowedIsLent(q, Idle(p).value);
    }
  }
}
