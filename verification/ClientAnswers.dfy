/**
 What the repository's operations answer and leave in the fields of a row, said without the
 functions that compute it.
 */
module ClientAnswers {
  import opened WireFormat
  import opened ClientRepository
  import opened ClientRuns

  // ---- attempts ----

  /** No row has finished an attempt it has not reached, and every row names a message. */
  ghost predicate Regular(db: Db) {
    forall r :: r in db.outbox ==> 0 <= r.finished <= r.retryCount && r.msgId != ""
  }

  lemma StepKeepsRegular(db: Db, op: Op)
    requires Regular(db)
    ensures Regular(Step(db, op))
  {
    forall r' | r' in Step(db, op).outbox
      ensures 0 <= r'.finished <= r'.retryCount && r'.msgId != ""
    {
      var r := StepRow(db, op, r');
    }
  }

  /** The outbox has a row that has finished exactly this attempt, due again at this instant. */
  ghost predicate HasResult(outbox: seq<OutRow>, a: Attempt, at: int) {
    exists r :: r in outbox && r.msgId == a.msgId && r.retryCount == r.finished == a.attempt && r.nextRetryAt == at
  }

  /**
   The result of an attempt that a claim answered takes effect, unless the lease ends at the one
   instant that stands for a row that is done with.
   */
  lemma AnsweredAttemptFinishes(db: Db, now: int, lease: int, limit: int, a: Attempt, terminal: bool, retryAt: int)
    requires Sound(db) && Regular(db) && !ClaimFails(db, now, lease, limit) && a in AttemptsOf(Picked(db.outbox, now, limit))
    requires retryAt >= 0
    ensures var claimed := Step(db, Claim(now, lease, limit));
            HasResult(Step(claimed, Finish(a.msgId, a.attempt, terminal, retryAt)).outbox, a, if terminal then INT64_MAX else retryAt) <==>
            now + lease != INT64_MAX
  {
    ClaimAnswers(db.outbox, now, now + lease, limit);
    var attempts := AttemptsOf(Picked(db.outbox, now, limit));
    var i :| 0 <= i < |attempts| && attempts[i] == a;
    assert LeasedTo(Leased(db.outbox, now, now + lease, limit), a, now + lease);
    var claimed := Step(db, Claim(now, lease, limit));
    var r :| r in claimed.outbox && r.msgId == a.msgId && r.localOrder == a.localOrder && r.retryCount == a.attempt && r.nextRetryAt == now + lease;
    StepKeepsSound(db, Claim(now, lease, limit));
    LeasedIsUnfinished(db, now, lease, limit, i, r);
    FinishRow(claimed, r, a, terminal, retryAt);
  }

  /** A leased row has not finished the attempt it is on. */
  lemma LeasedIsUnfinished(db: Db, now: int, lease: int, limit: int, i: nat, r: OutRow)
    requires Sound(db) && Regular(db) && !ClaimFails(db, now, lease, limit) && i < |Picked(db.outbox, now, limit)|
    requires r in Step(db, Claim(now, lease, limit)).outbox && r.msgId == Picked(db.outbox, now, limit)[i].msgId
    ensures 0 <= r.finished < r.retryCount && r.msgId != ""
  {
    PickedAreRows(db.outbox, now, limit, i);
    PickedIsLeased(db.outbox, now, now + lease, limit, Picked(db.outbox, now, limit)[i], r);
  }

  /** The row of a sound table that a result finds. */
  lemma FinishRow(db: Db, r: OutRow, a: Attempt, terminal: bool, retryAt: int)
    requires Sound(db) && r in db.outbox && r.msgId == a.msgId != "" && r.retryCount == a.attempt > r.finished >= 0 && retryAt >= 0
    ensures var at := if terminal then INT64_MAX else retryAt;
            HasResult(Step(db, Finish(a.msgId, a.attempt, terminal, retryAt)).outbox, a, at) <==> r.nextRetryAt != INT64_MAX
  {
    var e := Result(a.msgId, a.attempt, if terminal then INT64_MAX else retryAt);
    var later := EditAll(db.outbox, e);
    assert Step(db, Finish(a.msgId, a.attempt, terminal, retryAt)).outbox == later;
    EditAt(db.outbox, e);
    var i :| 0 <= i < |db.outbox| && db.outbox[i] == r;
    assert later[i] == EditRow(r, e) && later[i] in later;
    forall r' | r' in later && r'.msgId == a.msgId
      ensures r' == EditRow(r, e)
    {
      var j :| 0 <= j < |later| && later[j] == r';
      assert i == j;
    }
  }

  // ---- fields that are filled in ----

  /** A field that was zero takes what is offered, any other stays. */
  predicate Takes(was: int, offered: int, known: int) {
    known == was || (was == 0 && offered > 0 && known == offered)
  }

  /** The row before and after: three fields take what is offered, and do so if they were zero. */
  predicate Filled(was: Row, known: Row, seqNo: int, serverTime: int, status: int) {
    && known == was.(seqNo := known.seqNo, serverTime := known.serverTime, status := known.status)
    && Takes(was.seqNo, seqNo, known.seqNo) && (was.seqNo == 0 && seqNo > 0 ==> known.seqNo == seqNo)
    && Takes(was.serverTime, serverTime, known.serverTime) && (was.serverTime == 0 && serverTime > 0 ==> known.serverTime == serverTime)
    && Takes(was.status, status, known.status) && (was.status == 0 && status > 0 ==> known.status == status)
  }

  /** Every other message is as it was. */
  ghost predicate OthersKept(messages: map<string, Row>, messages': map<string, Row>, msgId: string) {
    forall id :: id != msgId ==> (id in messages' <==> id in messages) && (id in messages ==> messages'[id] == messages[id])
  }

  /** The rows that are left are all but those of `msgId`, or all if it is not `gone`. */
  ghost predicate LeftIn(outbox: seq<OutRow>, outbox': seq<OutRow>, msgId: string, gone: bool) {
    forall r :: r in outbox' <==> r in outbox && (gone ==> r.msgId != msgId)
  }

  lemma AckLeaves(db: Db, msgId: string, serverTime: int, seqNo: int, status: int)
    requires msgId in db.messages && !AckFails(db, msgId, seqNo, status)
    ensures var db' := Step(db, Ack(msgId, serverTime, seqNo, status));
            && msgId in db'.messages && Filled(db.messages[msgId], db'.messages[msgId], seqNo, serverTime, status)
            && OthersKept(db.messages, db'.messages, msgId) && LeftIn(db.outbox, db'.outbox, msgId, status > 0)
            && db'.conversations == db.conversations && db'.lastOrder == db.lastOrder
  {
    forall r
      ensures r in Without(db.outbox, msgId) <==> r in db.outbox && r.msgId != msgId
    {
      WithoutRows(db.outbox, msgId, r);
    }
  }

  lemma MergeLeaves(db: Db, msgId: string, row: Row, ctx: Context)
    requires !MergeFails(db, msgId, row)
    ensures var db' := Step(db, Merge(msgId, row, ctx));
            && msgId in db'.messages
            && (if msgId in db.messages then Filled(db.messages[msgId], db'.messages[msgId], row.seqNo, row.serverTime, row.status)
                else db'.messages[msgId] == row)
            && OthersKept(db.messages, db'.messages, msgId)
            && LeftIn(db.outbox, db'.outbox, msgId, msgId in db.messages && row.fromMe && row.seqNo > 0 && row.status > 0)
            && db'.lastOrder == db.lastOrder
  {
    forall r
      ensures r in Without(db.outbox, msgId) <==> r in db.outbox && r.msgId != msgId
    {
      WithoutRows(db.outbox, msgId, r);
    }
  }

  // ---- drafts ----

  /** A draft is stored as it was written, queued once, not yet due for anything but its first attempt. */
  lemma DraftLeaves(db: Db, msgId: string, row: Row)
    requires msgId !in db.messages && !DraftFails(db, msgId, row) && row.status == 0 && row.fromMe
    ensures var db' := Step(db, Draft(msgId, row));
            && msgId in db'.messages && db'.messages[msgId] == row.(localOrder := db'.messages[msgId].localOrder)
            && OthersKept(db.messages, db'.messages, msgId)
            && db'.outbox == db.outbox + [OutRow(msgId, db'.messages[msgId].localOrder, 0, 0, 0, 1)]
            && row.conversation in db'.conversations
            && (row.conversation !in db.conversations ==> db'.conversations[row.conversation] == Conversation(row.peer, 0, 0))
            && (forall c :: c in db.conversations ==> c in db'.conversations && db'.conversations[c] == db.conversations[c])
  {
  }

  /** The local orders in use are those of a 64-bit column. */
  ghost predicate OrdersFit(db: Db) {
    forall id :: id in db.messages ==> db.messages[id].localOrder <= INT64_MAX
  }

  /**
   The order of a new draft is at least the one asked for, above that of every queued row, and above that of every stored message
   if and only if none of these has the largest number there is.
   */
  lemma DraftOrderIsNew(db: Db, msgId: string, row: Row)
    requires Sound(db) && OrdersFit(db) && row.localOrder <= INT64_MAX && (db.lastOrder.Some? ==> db.lastOrder.value <= INT64_MAX)
    requires msgId !in db.messages && !DraftFails(db, msgId, row)
    ensures var order := Step(db, Draft(msgId, row)).messages[msgId].localOrder;
            && row.localOrder <= order <= INT64_MAX
            && (forall r :: r in db.outbox ==> r.localOrder < order)
            && (db.lastOrder.Some? ==> db.lastOrder.value < order)
            && ((forall id :: id in db.messages ==> db.messages[id].localOrder < order) <==>
                (forall id :: id in db.messages ==> db.messages[id].localOrder < INT64_MAX))
  {
    TopExists(db.messages, db.messages.Keys);
    var order := AllocatedOrder(db, row.localOrder);
    assert IsTop(db.messages, db.messages.Keys, TopOrder(db.messages));
    forall r | r in db.outbox
      ensures r.localOrder < order
    {
      var i :| 0 <= i < |db.outbox| && db.outbox[i] == r;
      var last := |db.outbox| - 1;
      assert i == last || db.outbox[i].localOrder < db.outbox[last].localOrder;
    }
  }

  // ---- what is accepted ----

  /** Another message of this peer has the number. */
  ghost predicate HasNumber(db: Db, msgId: string, peer: int, seqNo: int) {
    exists id :: id in db.messages && id != msgId && db.messages[id].peer == peer && db.messages[id].seqNo == seqNo
  }

  /** The conversation is open, or no other has the peer. */
  ghost predicate HasPlace(db: Db, row: Row) {
    row.conversation in db.conversations || forall c :: c in db.conversations ==> db.conversations[c].peer != row.peer
  }

  ghost predicate OrdersCount(db: Db) {
    && (forall id :: id in db.messages ==> 0 <= db.messages[id].localOrder <= INT64_MAX)
    && (forall r :: r in db.outbox ==> 0 <= r.localOrder <= INT64_MAX)
  }

  /**
   A new draft is accepted if and only if it has an id and a place, and neither the last order given
   nor the order of a queued row is the largest there is. Drafts without numbers never clash.
   */
  lemma DraftPassesIff(db: Db, msgId: string, row: Row)
    requires Sound(db) && OrdersCount(db) && msgId !in db.messages && row.localOrder <= INT64_MAX
    requires db.lastOrder.Some? ==> 0 <= db.lastOrder.value <= INT64_MAX
    ensures !DraftFails(db, msgId, row) <==>
              && msgId != "" && HasPlace(db, row) && db.lastOrder != Some(INT64_MAX)
              && (row.seqNo > 0 ==> !HasNumber(db, msgId, row.peer, row.seqNo))
              && forall r :: r in db.outbox ==> r.localOrder < INT64_MAX
  {
    TopExists(db.messages, db.messages.Keys);
    assert IsTop(db.messages, db.messages.Keys, TopOrder(db.messages));
    if db.outbox != [] {
      var last := db.outbox[|db.outbox| - 1];
      assert last in db.outbox;
      forall r | r in db.outbox
        ensures r.localOrder <= last.localOrder
      {
        var i :| 0 <= i < |db.outbox| && db.outbox[i] == r;
      }
    }
  }

  /** A draft whose id is known is accepted, and changes nothing, if and only if it is the same message. */
  lemma KnownDraftPassesIff(db: Db, msgId: string, row: Row)
    requires msgId in db.messages
    ensures var was := db.messages[msgId];
            !DraftFails(db, msgId, row) <==>
              && msgId != "" && was.conversation == row.conversation && was.peer == row.peer && was.fromMe == row.fromMe
              && was.kind == row.kind && (row.seqNo == 0 || was.seqNo == 0 || was.seqNo == row.seqNo)
    ensures Step(db, Draft(msgId, row)) == db
  {
  }

  /** When an incoming message is taken. */
  lemma MergePassesIff(db: Db, msgId: string, row: Row)
    ensures !MergeFails(db, msgId, row) <==>
              && msgId != "" && row.peer > 0 && row.conversation > 0
              && if msgId !in db.messages then HasPlace(db, row) && (row.seqNo > 0 ==> !HasNumber(db, msgId, row.peer, row.seqNo))
                 else
                   var was := db.messages[msgId];
                   && was.conversation == row.conversation && was.peer == row.peer && was.fromMe == row.fromMe && was.kind == row.kind
                   && (row.seqNo != 0 && was.seqNo != 0 ==> was.seqNo == row.seqNo)
                   && (row.seqNo > 0 && was.seqNo == 0 ==> !HasNumber(db, msgId, was.peer, row.seqNo))
  {
  }

  /** When an acknowledgement is taken: one of an unknown message always is, and does nothing. */
  lemma AckPassesIff(db: Db, msgId: string, seqNo: int, status: int)
    ensures !AckFails(db, msgId, seqNo, status) <==>
              && 0 <= status <= 3 && seqNo >= 0
              && (msgId in db.messages && seqNo > 0 ==>
                    var was := db.messages[msgId];
                    if was.seqNo > 0 then was.seqNo == seqNo else was.seqNo == 0 ==> !HasNumber(db, msgId, was.peer, seqNo))
  {
  }

  /** When a claim is answered: sensible arguments, and every row it would lease can be sent. */
  lemma ClaimPassesIff(db: Db, now: int, lease: int, limit: int)
    ensures !ClaimFails(db, now, lease, limit) <==>
              && now >= 0 && 1 <= lease <= 3600 && 1 <= limit <= 64 && now + lease <= 9223372036854775807
              && CanBeSent(db, Picked(db.outbox, now, limit))
  {
    if ClaimArguments(now, lease, limit) {
      SendableRows(db, Picked(db.outbox, now, limit));
    }
  }

  /** Each payload is of a known version, and of a message of the client's own. */
  ghost predicate CanBeSent(db: Db, rows: seq<OutRow>) {
    forall r :: r in rows ==> r.version <= 1 && r.msgId in db.messages && db.messages[r.msgId].fromMe
  }

  lemma SendableRows(db: Db, rows: seq<OutRow>)
    ensures AllSendable(db.messages, rows) <==> CanBeSent(db, rows)
  {
    if CanBeSent(db, rows) {
      forall i | 0 <= i < |rows|
        ensures Sendable(db.messages, rows[i])
      {
        assert rows[i] in rows;
      }
    }
  }

  // ---- conversations ----

  /** Reading moves the position to the larger number and counts anew what lies above it. */
  lemma ReadLeaves(db: Db, conversation: int, readSeq: int)
    requires conversation in db.conversations
    ensures var db', was := Step(db, MarkRead(conversation, readSeq)), db.conversations[conversation];
            && db' == db.(conversations := db'.conversations)
            && conversation in db'.conversations && db'.conversations[conversation].peer == was.peer
            && db'.conversations[conversation].readSeq == (if was.readSeq < readSeq then readSeq else was.readSeq)
            && db'.conversations[conversation].unread == |IncomingAbove(db, conversation, db'.conversations[conversation].readSeq)|
            && forall c :: c != conversation ==>
                 (c in db'.conversations <==> c in db.conversations) && (c in db.conversations ==> db'.conversations[c] == db.conversations[c])
  {
    var above := db.conversations[conversation].readSeq;
    assert IncomingAbove(db, conversation, Max(above, readSeq)) == Unread(db.messages, conversation, Max(above, readSeq));
  }

  function IncomingAbove(db: Db, conversation: int, position: int): set<string> {
    set id | id in db.messages && !db.messages[id].fromMe && db.messages[id].conversation == conversation && db.messages[id].seqNo > position
  }

  /** What an incoming message makes of its conversation when that is not on screen. */
  lemma MergeCounts(db: Db, msgId: string, row: Row, ctx: Context)
    requires !MergeFails(db, msgId, row) && ctx.active != row.conversation
    ensures var db' := Step(db, Merge(msgId, row, ctx));
            if msgId in db.messages then db'.conversations == db.conversations
            else
              && row.conversation in db'.conversations
              && (forall c :: c != row.conversation ==>
                    (c in db'.conversations <==> c in db.conversations) && (c in db.conversations ==> db'.conversations[c] == db.conversations[c]))
              && var counts := !row.fromMe && !ctx.roaming;
                 if row.conversation in db.conversations then
                   var was := db.conversations[row.conversation];
                   db'.conversations[row.conversation] == was.(unread := was.unread + if counts && row.seqNo > was.readSeq then 1 else 0)
                 else db'.conversations[row.conversation] == Conversation(row.peer, 0, if counts then 1 else 0)
  {
  }
}
