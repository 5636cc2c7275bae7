/**
 What every run of repository operations keeps: the order of drafts and claims, the lease of
 an outbox row, the fate of late and repeated results, and the unread counters.
 */
module ClientRuns {
  import opened WireFormat
  import opened ClientRepository

  /** Unique indexes of the outbox; every queued message is in the message table. */
  ghost predicate Sound(db: Db) {
    OutboxSorted(db.outbox) && forall r :: r in db.outbox ==> r.msgId in db.messages
  }

  // ---- what one step does to one outbox row ----

  predicate TakesEffect(r: OutRow, msgId: string, attempt: int) {
    r.msgId == msgId && r.retryCount == attempt && r.finished < attempt && r.nextRetryAt != INT64_MAX
  }

  predicate RowChange(r: OutRow, r': OutRow, op: Op) {
    || r' == r
    || (op.Claim? && ClaimArguments(op.now, op.lease, op.limit) && Due(r, op.now) && r' == LeasedRow(r, op.now + op.lease))
    || (op.Finish? && op.attempt > 0 && op.retryAt >= 0 && TakesEffect(r, op.msgId, op.attempt) &&
        r' == r.(nextRetryAt := if op.terminal then INT64_MAX else op.retryAt, finished := op.attempt))
    || (op.Cancel? && op.msgId == r.msgId && r' == r.(nextRetryAt := INT64_MAX))
  }

  lemma {:induction false} LeasedRows(outbox: seq<OutRow>, now: int, until: int, limit: nat, r': OutRow) returns (r: OutRow)
    requires r' in Leased(outbox, now, until, limit)
    ensures r in outbox && (r' == r || (Due(r, now) && r' == LeasedRow(r, until)))
  {
    if limit == 0 || r' == outbox[0] {
      r := r';
    } else if Due(outbox[0], now) {
      if r' == LeasedRow(outbox[0], until) {
        r := outbox[0];
      } else {
        r := LeasedRows(outbox[1..], now, until, limit - 1, r');
      }
    } else {
      r := LeasedRows(outbox[1..], now, until, limit, r');
    }
  }

  lemma {:induction false} EditedRows(outbox: seq<OutRow>, e: Edit, r': OutRow) returns (r: OutRow)
    requires r' in EditAll(outbox, e)
    ensures r in outbox && r' == EditRow(r, e)
  {
    if r' == EditRow(outbox[0], e) {
      r := outbox[0];
    } else {
      r := EditedRows(outbox[1..], e, r');
    }
  }

  lemma {:induction false} WithoutRows(outbox: seq<OutRow>, msgId: string, r: OutRow)
    ensures r in Without(outbox, msgId) <==> r in outbox && r.msgId != msgId
  {
    if outbox != [] {
      WithoutRows(outbox[1..], msgId, r);
    }
  }

  /** Every queued row was queued before and changed as `RowChange` says, or is a new draft. */
  lemma StepRow(db: Db, op: Op, r': OutRow) returns (r: OutRow)
    requires r' in Step(db, op).outbox
    ensures (r in db.outbox && RowChange(r, r', op)) ||
            (op.Draft? && op.msgId !in db.messages && r' == OutRow(op.msgId, r'.localOrder, 0, 0, 0, 1))
  {
    r := r';
    match op
    case Claim(now, lease, limit) =>
      if !ClaimFails(db, now, lease, limit) {
        r := LeasedRows(db.outbox, now, now + lease, limit, r');
      }
    case Finish(msgId, attempt, terminal, retryAt) =>
      if msgId != "" && attempt > 0 && retryAt >= 0 {
        r := EditedRows(db.outbox, Result(msgId, attempt, if terminal then INT64_MAX else retryAt), r');
      }
    case Cancel(msgId) =>
      r := EditedRows(db.outbox, Halt(msgId), r');
    case Merge(msgId, row, ctx) =>
      WithoutRows(db.outbox, msgId, r');
    case Ack(msgId, serverTime, seqNo, status) =>
      WithoutRows(db.outbox, msgId, r');
    case _ =>
  }

  // ---- the outbox stays ordered ----

  /** The orders and ids of the rows, which no update of a row touches. */
  function Keys(outbox: seq<OutRow>): seq<(int, string)> {
    if outbox == [] then [] else [(outbox[0].localOrder, outbox[0].msgId)] + Keys(outbox[1..])
  }

  ghost predicate KeysSorted(keys: seq<(int, string)>) {
    forall i, j :: 0 <= i < j < |keys| ==> keys[i].0 < keys[j].0 && keys[i].1 != keys[j].1
  }

  lemma {:induction false} KeysMeaning(outbox: seq<OutRow>)
    ensures |Keys(outbox)| == |outbox|
    ensures forall i :: 0 <= i < |outbox| ==> Keys(outbox)[i] == (outbox[i].localOrder, outbox[i].msgId)
  {
    if outbox != [] {
      KeysMeaning(outbox[1..]);
    }
  }

  lemma SortedKeys(outbox: seq<OutRow>)
    ensures OutboxSorted(outbox) <==> KeysSorted(Keys(outbox))
  {
    KeysMeaning(outbox);
    if KeysSorted(Keys(outbox)) {
      forall i, j | 0 <= i < j < |outbox|
        ensures outbox[i].localOrder < outbox[j].localOrder && outbox[i].msgId != outbox[j].msgId
      {
        assert Keys(outbox)[i].0 < Keys(outbox)[j].0;
      }
    }
  }

  lemma {:induction false} LeaseKeepsKeys(outbox: seq<OutRow>, now: int, until: int, limit: nat)
    ensures Keys(Leased(outbox, now, until, limit)) == Keys(outbox)
  {
    if outbox != [] && limit > 0 {
      if Due(outbox[0], now) {
        LeaseKeepsKeys(outbox[1..], now, until, limit - 1);
      } else {
        LeaseKeepsKeys(outbox[1..], now, until, limit);
      }
    }
  }

  lemma {:induction false} EditKeepsKeys(outbox: seq<OutRow>, e: Edit)
    ensures Keys(EditAll(outbox, e)) == Keys(outbox)
  {
    if outbox != [] {
      EditKeepsKeys(outbox[1..], e);
    }
  }

  lemma {:induction false} WithoutStaysSorted(outbox: seq<OutRow>, msgId: string)
    requires OutboxSorted(outbox)
    ensures OutboxSorted(Without(outbox, msgId))
  {
    if outbox != [] {
      var head, rest := outbox[0], Without(outbox[1..], msgId);
      WithoutStaysSorted(outbox[1..], msgId);
      forall j | 0 <= j < |rest|
        ensures head.localOrder < rest[j].localOrder && head.msgId != rest[j].msgId
      {
        WithoutRows(outbox[1..], msgId, rest[j]);
        var i :| 0 <= i < |outbox[1..]| && outbox[1..][i] == rest[j];
        assert outbox[i + 1] == rest[j];
      }
    }
  }

  lemma StepKeepsSorted(db: Db, op: Op)
    requires Sound(db)
    ensures OutboxSorted(Step(db, op).outbox)
  {
    SortedKeys(db.outbox);
    SortedKeys(Step(db, op).outbox);
    match op
    case Draft(msgId, row) => DraftKeepsSorted(db, msgId, row);
    case Claim(now, lease, limit) =>
      if !ClaimFails(db, now, lease, limit) {
        LeaseKeepsKeys(db.outbox, now, now + lease, limit);
      }
    case Finish(msgId, attempt, terminal, retryAt) =>
      EditKeepsKeys(db.outbox, Result(msgId, attempt, if terminal then INT64_MAX else retryAt));
    case Cancel(msgId) => EditKeepsKeys(db.outbox, Halt(msgId));
    case Merge(msgId, row, ctx) => WithoutStaysSorted(db.outbox, msgId);
    case Ack(msgId, serverTime, seqNo, status) => WithoutStaysSorted(db.outbox, msgId);
    case MarkRead(_, _) =>
  }

  lemma DraftKeepsSorted(db: Db, msgId: string, row: Row)
    requires Sound(db)
    ensures OutboxSorted(Drafted(db, msgId, row).outbox)
  {
    if !DraftFails(db, msgId, row) && msgId !in db.messages {
      var last := |db.outbox| - 1;
      forall i | 0 <= i < |db.outbox|
        ensures db.outbox[i].localOrder <= OutboxTop(db.outbox) && db.outbox[i].msgId != msgId
      {
        assert db.outbox[i] in db.outbox;
        assert i == last || db.outbox[i].localOrder < db.outbox[last].localOrder;
      }
    }
  }

  /** Every run keeps the outbox ordered by local order, one row for a message. */
  lemma StepKeepsSound(db: Db, op: Op)
    requires Sound(db)
    ensures Sound(Step(db, op))
  {
    StepKeepsSorted(db, op);
    forall r' | r' in Step(db, op).outbox
      ensures r'.msgId in Step(db, op).messages
    {
      var r := StepRow(db, op, r');
    }
  }

  lemma {:induction false} RunKeepsSound(db: Db, ops: seq<Op>)
    requires Sound(db)
    ensures Sound(Run(db, ops))
    decreases |ops|
  {
    if ops != [] {
      StepKeepsSound(db, ops[0]);
      RunKeepsSound(Step(db, ops[0]), ops[1..]);
    }
  }

  // ---- local orders ----

  ghost predicate OrdersBelow(db: Db, n: int) {
    db.lastOrder.Some? && db.lastOrder.value >= n
  }

  lemma {:induction false} LastOrderNeverFalls(db: Db, ops: seq<Op>, n: int)
    requires OrdersBelow(db, n)
    ensures OrdersBelow(Run(db, ops), n)
    decreases |ops|
  {
    if ops != [] {
      LastOrderNeverFalls(Step(db, ops[0]), ops[1..], n);
    }
  }

  /** Of two drafts, the later one has the larger local order, whatever happened in between. */
  lemma DraftOrdersIncrease(db: Db, id1: string, row1: Row, ops: seq<Op>, id2: string, row2: Row)
    requires id1 !in db.messages && !DraftFails(db, id1, row1)
    requires var mid := Run(Step(db, Draft(id1, row1)), ops); id2 !in mid.messages && !DraftFails(mid, id2, row2)
    ensures var mid := Run(Step(db, Draft(id1, row1)), ops);
            Step(mid, Draft(id2, row2)).messages[id2].localOrder > Step(db, Draft(id1, row1)).messages[id1].localOrder
  {
    LastOrderNeverFalls(Step(db, Draft(id1, row1)), ops, AllocatedOrder(db, row1.localOrder));
  }

  lemma {:induction false} PickedSorted(outbox: seq<OutRow>, now: int, limit: nat)
    requires OutboxSorted(outbox)
    ensures OutboxSorted(Picked(outbox, now, limit)) && |Picked(outbox, now, limit)| <= limit
  {
    if outbox != [] && limit > 0 {
      var head, rest := outbox[0], outbox[1..];
      if Due(head, now) {
        PickedSorted(rest, now, limit - 1);
        var picked := Picked(rest, now, limit - 1);
        forall j | 0 <= j < |picked|
          ensures head.localOrder < picked[j].localOrder && head.msgId != picked[j].msgId
        {
          PickedOfRest(rest, now, limit - 1, picked[j]);
        }
      } else {
        PickedSorted(rest, now, limit);
      }
    }
  }

  lemma {:induction false} LeftBehind(outbox: seq<OutRow>, now: int, limit: nat, r: OutRow)
    requires OutboxSorted(outbox) && r in outbox && Due(r, now) && r !in Picked(outbox, now, limit)
    ensures |Picked(outbox, now, limit)| == limit
    ensures forall j :: 0 <= j < limit ==> Picked(outbox, now, limit)[j].localOrder < r.localOrder
  {
    if limit > 0 {
      var head, rest := outbox[0], outbox[1..];
      assert r in [head] + rest;
      if Due(head, now) {
        LeftBehind(rest, now, limit - 1, r);
      } else {
        LeftBehind(rest, now, limit, r);
      }
    }
  }

  /**
   A claim takes rows only whose time has come and whose attempts are not used up, in local order,
   and passes over none: a row it could have taken comes after all it took, and is left only
   because the limit was reached.
   */
  lemma ClaimsInOrder(outbox: seq<OutRow>, now: int, limit: nat, r: OutRow)
    requires OutboxSorted(outbox) && r in outbox
    ensures OutboxSorted(Picked(outbox, now, limit)) && |Picked(outbox, now, limit)| <= limit
    ensures r in Picked(outbox, now, limit) ==> r.nextRetryAt <= now && r.retryCount < 0x7fff_ffff
    ensures r.nextRetryAt <= now && r.retryCount < 0x7fff_ffff ==>
              r in Picked(outbox, now, limit) ||
              (|Picked(outbox, now, limit)| == limit && forall j :: 0 <= j < limit ==> Picked(outbox, now, limit)[j].localOrder < r.localOrder)
  {
    PickedSorted(outbox, now, limit);
    if r in Picked(outbox, now, limit) {
      PickedOfRest(outbox, now, limit, r);
    } else if Due(r, now) {
      LeftBehind(outbox, now, limit, r);
    }
  }

  // ---- leases ----

  /** Nobody may claim `msgId` before `until`: its row, if any, is on attempt `k`. */
  ghost predicate Leasing(db: Db, msgId: string, k: int, until: int) {
    msgId in db.messages &&
    forall r :: r in db.outbox && r.msgId == msgId ==> r.retryCount == k && r.nextRetryAt >= until
  }

  /** Claims before the lease ends, and results of this very attempt, are what could end it. */
  predicate LeavesLease(op: Op, msgId: string, k: int, until: int) {
    && (op.Claim? ==> op.now < until)
    && (op.Finish? ==> op.msgId != msgId || op.attempt != k)
  }

  lemma {:induction false} LeaseHolds(db: Db, ops: seq<Op>, msgId: string, k: int, until: int)
    requires Leasing(db, msgId, k, until) && until <= INT64_MAX
    requires forall i :: 0 <= i < |ops| ==> LeavesLease(ops[i], msgId, k, until)
    ensures Leasing(Run(db, ops), msgId, k, until)
    decreases |ops|
  {
    if ops != [] {
      var op := ops[0];
      forall r' | r' in Step(db, op).outbox && r'.msgId == msgId
        ensures r'.retryCount == k && r'.nextRetryAt >= until
      {
        var r := StepRow(db, op, r');
      }
      LeaseHolds(Step(db, op), ops[1..], msgId, k, until);
    }
  }

  lemma {:induction false} PickedIsLeased(outbox: seq<OutRow>, now: int, until: int, limit: nat, r: OutRow, r': OutRow)
    requires OutboxSorted(outbox) && r in Picked(outbox, now, limit)
    requires r' in Leased(outbox, now, until, limit) && r'.msgId == r.msgId
    ensures r' == LeasedRow(r, until)
  {
    var head, rest := outbox[0], outbox[1..];
    assert forall i :: 0 <= i < |rest| ==> rest[i].msgId != head.msgId;
    if Due(head, now) {
      if r == head {
        if r' != LeasedRow(head, until) {
          var was := LeasedRows(rest, now, until, limit - 1, r');
          assert false;
        }
      } else {
        PickedOfRest(rest, now, limit - 1, r);
        PickedIsLeased(rest, now, until, limit - 1, r, r');
      }
    } else {
      PickedOfRest(rest, now, limit, r);
      PickedIsLeased(rest, now, until, limit, r, r');
    }
  }

  lemma PickedOfRest(outbox: seq<OutRow>, now: int, limit: nat, r: OutRow)
    requires r in Picked(outbox, now, limit)
    ensures r in outbox && Due(r, now)
  {
    var k :| 0 <= k < |Picked(outbox, now, limit)| && Picked(outbox, now, limit)[k] == r;
    PickedAreRows(outbox, now, limit, k);
  }

  /** A claimed row is not claimed again before its lease ends, unless its own attempt was finished. */
  lemma LeaseIsExclusive(db: Db, now: int, lease: int, limit: int, r: OutRow, ops: seq<Op>, now': int, limit': nat)
    requires Sound(db) && !ClaimFails(db, now, lease, limit) && r in Picked(db.outbox, now, limit)
    requires forall i :: 0 <= i < |ops| ==> LeavesLease(ops[i], r.msgId, r.retryCount + 1, now + lease)
    requires now' < now + lease
    ensures var later := Run(Step(db, Claim(now, lease, limit)), ops);
            forall p :: p in Picked(later.outbox, now', limit') ==> p.msgId != r.msgId
  {
    var claimed := Step(db, Claim(now, lease, limit));
    PickedOfRest(db.outbox, now, limit, r);
    forall r' | r' in claimed.outbox && r'.msgId == r.msgId
      ensures r'.retryCount == r.retryCount + 1 && r'.nextRetryAt >= now + lease
    {
      PickedIsLeased(db.outbox, now, now + lease, limit, r, r');
    }
    LeaseHolds(claimed, ops, r.msgId, r.retryCount + 1, now + lease);
    var later := Run(claimed, ops);
    forall p | p in Picked(later.outbox, now', limit')
      ensures p.msgId != r.msgId
    {
      PickedOfRest(later.outbox, now', limit', p);
    }
  }

  // ---- late and repeated results ----

  /** The row of `msgId`, if any, has reached attempt `k` and has finished attempt `f`. */
  ghost predicate Reached(db: Db, msgId: string, k: int, f: int) {
    msgId in db.messages &&
    forall r :: r in db.outbox && r.msgId == msgId ==> r.retryCount >= k && r.finished >= f
  }

  lemma {:induction false} ReachedForever(db: Db, ops: seq<Op>, msgId: string, k: int, f: int)
    requires Reached(db, msgId, k, f)
    ensures Reached(Run(db, ops), msgId, k, f)
    decreases |ops|
  {
    if ops != [] {
      forall r' | r' in Step(db, ops[0]).outbox && r'.msgId == msgId
        ensures r'.retryCount >= k && r'.finished >= f
      {
        var r := StepRow(db, ops[0], r');
      }
      ReachedForever(Step(db, ops[0]), ops[1..], msgId, k, f);
    }
  }

  lemma {:induction false} EditKeeps(outbox: seq<OutRow>, e: Edit)
    requires forall i :: 0 <= i < |outbox| ==> EditRow(outbox[i], e) == outbox[i]
    ensures EditAll(outbox, e) == outbox
  {
    if outbox != [] {
      EditKeeps(outbox[1..], e);
    }
  }

  lemma FinishIgnored(db: Db, msgId: string, attempt: int, terminal: bool, retryAt: int)
    requires forall r :: r in db.outbox ==> !TakesEffect(r, msgId, attempt)
    ensures Step(db, Finish(msgId, attempt, terminal, retryAt)) == db
  {
    var e := Result(msgId, attempt, if terminal then INT64_MAX else retryAt);
    forall i | 0 <= i < |db.outbox|
      ensures EditRow(db.outbox[i], e) == db.outbox[i]
    {
      assert db.outbox[i] in db.outbox;
    }
    EditKeeps(db.outbox, e);
  }

  /** Once a row was claimed for a later attempt, a late result of an earlier one never changes anything. */
  lemma LateResultIgnored(db: Db, now: int, lease: int, limit: int, r: OutRow, ops: seq<Op>,
                          attempt: int, terminal: bool, retryAt: int)
    requires Sound(db) && !ClaimFails(db, now, lease, limit) && r in Picked(db.outbox, now, limit)
    requires attempt <= r.retryCount
    ensures var later := Run(Step(db, Claim(now, lease, limit)), ops);
            Step(later, Finish(r.msgId, attempt, terminal, retryAt)) == later
  {
    var claimed := Step(db, Claim(now, lease, limit));
    PickedOfRest(db.outbox, now, limit, r);
    var f := r.finished;
    forall r' | r' in claimed.outbox && r'.msgId == r.msgId
      ensures r'.retryCount >= r.retryCount + 1 && r'.finished >= f
    {
      PickedIsLeased(db.outbox, now, now + lease, limit, r, r');
    }
    ReachedForever(claimed, ops, r.msgId, r.retryCount + 1, f);
    FinishIgnored(Run(claimed, ops), r.msgId, attempt, terminal, retryAt);
  }

  lemma EffectiveFinish(db: Db, msgId: string, attempt: int, terminal: bool, retryAt: int) returns (r: OutRow)
    requires Step(db, Finish(msgId, attempt, terminal, retryAt)) != db
    ensures r in db.outbox && TakesEffect(r, msgId, attempt) && attempt > 0 && retryAt >= 0
  {
    if forall r :: r in db.outbox ==> !TakesEffect(r, msgId, attempt) {
      FinishIgnored(db, msgId, attempt, terminal, retryAt);
    }
    r :| r in db.outbox && TakesEffect(r, msgId, attempt);
  }

  lemma FinishedRow(db: Db, msgId: string, attempt: int, terminal: bool, retryAt: int, r': OutRow)
    requires Sound(db) && Step(db, Finish(msgId, attempt, terminal, retryAt)) != db
    requires r' in Step(db, Finish(msgId, attempt, terminal, retryAt)).outbox && r'.msgId == msgId
    ensures r'.retryCount == attempt && r'.finished == attempt && r'.nextRetryAt == if terminal then INT64_MAX else retryAt
  {
    var hit := EffectiveFinish(db, msgId, attempt, terminal, retryAt);
    var r := EditedRows(db.outbox, Result(msgId, attempt, if terminal then INT64_MAX else retryAt), r');
  }

  /** Of all the results reported for one attempt at most one takes effect. */
  lemma AttemptFinishesOnce(db: Db, msgId: string, attempt: int, terminal: bool, retryAt: int,
                            ops: seq<Op>, terminal': bool, retryAt': int)
    requires Sound(db) && Step(db, Finish(msgId, attempt, terminal, retryAt)) != db
    ensures var later := Run(Step(db, Finish(msgId, attempt, terminal, retryAt)), ops);
            Step(later, Finish(msgId, attempt, terminal', retryAt')) == later
  {
    var done := Step(db, Finish(msgId, attempt, terminal, retryAt));
    var hit := EffectiveFinish(db, msgId, attempt, terminal, retryAt);
    forall r' | r' in done.outbox && r'.msgId == msgId
      ensures r'.retryCount >= attempt && r'.finished >= attempt
    {
      FinishedRow(db, msgId, attempt, terminal, retryAt, r');
    }
    ReachedForever(done, ops, msgId, attempt, attempt);
    FinishIgnored(Run(done, ops), msgId, attempt, terminal', retryAt');
  }

  // ---- rows that are done with ----

  ghost predicate Halted(db: Db, msgId: string) {
    msgId in db.messages && forall r :: r in db.outbox && r.msgId == msgId ==> r.nextRetryAt == INT64_MAX
  }

  lemma {:induction false} HaltedForever(db: Db, ops: seq<Op>, msgId: string)
    requires Halted(db, msgId)
    ensures Halted(Run(db, ops), msgId)
    decreases |ops|
  {
    if ops != [] {
      forall r' | r' in Step(db, ops[0]).outbox && r'.msgId == msgId
        ensures r'.nextRetryAt == INT64_MAX
      {
        var r := StepRow(db, ops[0], r');
      }
      HaltedForever(Step(db, ops[0]), ops[1..], msgId);
    }
  }

  lemma HaltedIsNeverClaimed(db: Db, ops: seq<Op>, msgId: string, now: int, lease: int, limit: int)
    requires Halted(db, msgId) && ClaimArguments(now, lease, limit)
    ensures forall p :: p in Picked(Run(db, ops).outbox, now, limit) ==> p.msgId != msgId
  {
    HaltedForever(db, ops, msgId);
    forall p | p in Picked(Run(db, ops).outbox, now, limit)
      ensures p.msgId != msgId
    {
      PickedOfRest(Run(db, ops).outbox, now, limit, p);
    }
  }

  /** A message whose attempt ended for good is never claimed again. */
  lemma TerminalIsNeverClaimed(db: Db, msgId: string, attempt: int, retryAt: int, ops: seq<Op>, now: int, lease: int, limit: int)
    requires Sound(db) && Step(db, Finish(msgId, attempt, true, retryAt)) != db && ClaimArguments(now, lease, limit)
    ensures var later := Run(Step(db, Finish(msgId, attempt, true, retryAt)), ops);
            forall p :: p in Picked(later.outbox, now, limit) ==> p.msgId != msgId
  {
    var done := Step(db, Finish(msgId, attempt, true, retryAt));
    var hit := EffectiveFinish(db, msgId, attempt, true, retryAt);
    forall r' | r' in done.outbox && r'.msgId == msgId
      ensures r'.nextRetryAt == INT64_MAX
    {
      FinishedRow(db, msgId, attempt, true, retryAt, r');
    }
    HaltedIsNeverClaimed(done, ops, msgId, now, lease, limit);
  }

  /** Nor is a cancelled one. */
  lemma CancelledIsNeverClaimed(db: Db, msgId: string, ops: seq<Op>, now: int, lease: int, limit: int)
    requires msgId in db.messages && ClaimArguments(now, lease, limit)
    ensures forall p :: p in Picked(Run(Step(db, Cancel(msgId)), ops).outbox, now, limit) ==> p.msgId != msgId
  {
    var done := Step(db, Cancel(msgId));
    forall r' | r' in done.outbox && r'.msgId == msgId
      ensures r'.nextRetryAt == INT64_MAX
    {
      var r := EditedRows(db.outbox, Halt(msgId), r');
    }
    HaltedIsNeverClaimed(done, ops, msgId, now, lease, limit);
  }

  // ---- what is known of a message never changes ----

  /** `known` is what `was` has become: whose message it is stays, and only zero fields were filled in. */
  predicate Refines(was: Row, known: Row) {
    && known.conversation == was.conversation && known.peer == was.peer && known.fromMe == was.fromMe
    && known.kind == was.kind && known.content == was.content && known.localOrder == was.localOrder
    && (was.seqNo != 0 ==> known.seqNo == was.seqNo)
    && (was.serverTime != 0 ==> known.serverTime == was.serverTime)
    && (was.status != 0 ==> known.status == was.status)
  }

  lemma {:induction false} MessagesRefine(db: Db, ops: seq<Op>, msgId: string)
    requires msgId in db.messages
    ensures msgId in Run(db, ops).messages && Refines(db.messages[msgId], Run(db, ops).messages[msgId])
    decreases |ops|
  {
    if ops != [] {
      assert Refines(db.messages[msgId], Step(db, ops[0]).messages[msgId]);
      MessagesRefine(Step(db, ops[0]), ops[1..], msgId);
    }
  }

  ghost predicate Queued(db: Db, msgId: string) {
    exists r :: r in db.outbox && r.msgId == msgId
  }

  /** An operation that says the server has the message. */
  predicate Confirms(op: Op, msgId: string) {
    || (op.Merge? && op.msgId == msgId && op.row.fromMe && op.row.seqNo > 0 && op.row.status > 0)
    || (op.Ack? && op.msgId == msgId && op.status > 0)
  }

  lemma EditKeepsRow(outbox: seq<OutRow>, e: Edit, r: OutRow)
    requires r in outbox
    ensures exists r' :: r' in EditAll(outbox, e) && r'.msgId == r.msgId
  {
    var i :| 0 <= i < |outbox| && outbox[i] == r;
    EditKeepsKeys(outbox, e);
    KeysMeaning(outbox);
    KeysMeaning(EditAll(outbox, e));
    assert EditAll(outbox, e)[i].msgId == r.msgId;
  }

  lemma LeaseKeepsRow(outbox: seq<OutRow>, now: int, until: int, limit: nat, r: OutRow)
    requires r in outbox
    ensures exists r' :: r' in Leased(outbox, now, until, limit) && r'.msgId == r.msgId
  {
    var i :| 0 <= i < |outbox| && outbox[i] == r;
    LeaseKeepsKeys(outbox, now, until, limit);
    KeysMeaning(outbox);
    KeysMeaning(Leased(outbox, now, until, limit));
    assert Leased(outbox, now, until, limit)[i].msgId == r.msgId;
  }

  /** A message leaves the outbox only through an operation that confirms it. */
  lemma OnlyConfirmationDequeues(db: Db, op: Op, msgId: string)
    requires Queued(db, msgId) && !Confirms(op, msgId)
    ensures Queued(Step(db, op), msgId)
  {
    var r :| r in db.outbox && r.msgId == msgId;
    match op
    case Draft(_, _) => assert db.outbox <= Step(db, op).outbox;
    case Claim(now, lease, limit) =>
      if !ClaimFails(db, now, lease, limit) {
        LeaseKeepsRow(db.outbox, now, now + lease, limit, r);
      }
    case Finish(id, attempt, terminal, retryAt) =>
      EditKeepsRow(db.outbox, Result(id, attempt, if terminal then INT64_MAX else retryAt), r);
    case Cancel(id) => EditKeepsRow(db.outbox, Halt(id), r);
    case Merge(id, _, _) => WithoutRows(db.outbox, id, r);
    case Ack(id, _, _, _) => WithoutRows(db.outbox, id, r);
    case MarkRead(_, _) =>
  }

  /** The operation says the server has the message, and is carried out. */
  ghost predicate Confirmed(db: Db, op: Op, msgId: string) {
    Confirms(op, msgId) && (op.Ack? ==> !AckFails(db, msgId, op.seqNo, op.status)) && (op.Merge? ==> !MergeFails(db, msgId, op.row))
  }

  /** A message the client has is queued after a step exactly if it was and the step did not confirm it. */
  lemma StepQueued(db: Db, op: Op, msgId: string)
    requires msgId in db.messages
    ensures Queued(Step(db, op), msgId) <==> Queued(db, msgId) && !Confirmed(db, op, msgId)
  {
    if Queued(Step(db, op), msgId) {
      var r' :| r' in Step(db, op).outbox && r'.msgId == msgId;
      var r := StepRow(db, op, r');
      if Confirmed(db, op, msgId) {
        WithoutRows(db.outbox, msgId, r');
      }
    } else if Queued(db, msgId) && !Confirms(op, msgId) {
      OnlyConfirmationDequeues(db, op, msgId);
    }
  }
}
