/**
 The client's message database: drafts and their outbox, claims under a lease, incoming
 messages, acknowledgements and the unread counters of one account.

 Every public operation is one transaction, so it either takes effect or leaves the tables
 as they were. `Step` gives the effect of each; the methods of `NativeRepository` refine it.
 */
module ClientRepository {
  import opened WireFormat

  const INT64_MAX: int := 0x7fff_ffff_ffff_ffff
  const INT32_MAX: int := 0x7fff_ffff

  datatype Row = Row(conversation: int, peer: int, seqNo: int, serverTime: int, localOrder: int,
                     fromMe: bool, kind: int, content: string, status: int)
  datatype OutRow = OutRow(msgId: string, localOrder: int, retryCount: int, nextRetryAt: int, finished: int, version: int)
  datatype Conversation = Conversation(peer: int, readSeq: int, unread: int)
  datatype Context = Context(roaming: bool, active: int)

  const NO_CONTEXT: Context := Context(false, 0)

  /** The tables. The outbox is in primary-key order, that is by local order. */
  datatype Db = Db(messages: map<string, Row>, outbox: seq<OutRow>, lastOrder: Option<int>,
                   conversations: map<int, Conversation>)

  datatype Op =
    | Draft(msgId: string, row: Row)
    | Claim(now: int, lease: int, limit: int)
    | Finish(msgId: string, attempt: int, terminal: bool, retryAt: int)
    | Cancel(msgId: string)
    | Merge(msgId: string, row: Row, ctx: Context)
    | Ack(msgId: string, serverTime: int, seqNo: int, status: int)
    | MarkRead(conversation: int, readSeq: int)

  function Max(a: int, b: int): int {
    if a > b then a else b
  }

  // ---- integrity of the tables (unique indexes and primary keys) ----

  predicate OutboxSorted(outbox: seq<OutRow>) {
    forall i, j :: 0 <= i < j < |outbox| ==>
      outbox[i].localOrder < outbox[j].localOrder && outbox[i].msgId != outbox[j].msgId
  }

  /** Some other message to or from this peer already has the sequence number. */
  predicate SeqTaken(messages: map<string, Row>, msgId: string, peer: int, seqNo: int) {
    seqNo > 0 && exists id :: id in messages && id != msgId && messages[id].peer == peer && messages[id].seqNo == seqNo
  }

  predicate PeerTaken(conversations: map<int, Conversation>, conversation: int, peer: int) {
    conversation !in conversations && exists c :: c in conversations && conversations[c].peer == peer
  }

  predicate Compatible(messages: map<string, Row>, msgId: string, row: Row) {
    msgId in messages ==>
      var was := messages[msgId];
      && was.conversation == row.conversation && was.peer == row.peer
      && was.fromMe == row.fromMe && was.kind == row.kind
      && (row.seqNo == 0 || was.seqNo == 0 || was.seqNo == row.seqNo)
  }

  // ---- drafts ----

  ghost predicate IsTop(messages: map<string, Row>, ids: set<string>, m: int)
    requires ids <= messages.Keys
  {
    && (forall id :: id in ids ==> messages[id].localOrder <= m)
    && (if ids == {} then m == 0 else exists id :: id in ids && messages[id].localOrder == m)
  }

  /** `COALESCE((SELECT MAX(local_order) FROM messages), 0)` */
  ghost function TopOrder(messages: map<string, Row>): int {
    TopExists(messages, messages.Keys);
    var m :| IsTop(messages, messages.Keys, m);
    m
  }

  lemma TopStep(messages: map<string, Row>, ids: set<string>, id: string, m: int)
    requires ids <= messages.Keys && id in messages && id !in ids && IsTop(messages, ids, m)
    ensures IsTop(messages, ids + {id}, if ids == {} then messages[id].localOrder else Max(m, messages[id].localOrder))
  {
    assert id in ids + {id};
    if ids != {} && messages[id].localOrder <= m {
      var top :| top in ids && messages[top].localOrder == m;
      assert top in ids + {id};
    }
  }

  lemma {:induction false} TopExists(messages: map<string, Row>, ids: set<string>)
    requires ids <= messages.Keys
    ensures exists m :: IsTop(messages, ids, m)
  {
    if ids == {} {
      assert IsTop(messages, ids, 0);
    } else {
      var id :| id in ids;
      TopExists(messages, ids - {id});
      var m :| IsTop(messages, ids - {id}, m);
      TopStep(messages, ids - {id}, id, m);
      assert ids - {id} + {id} == ids;
    }
  }

  function OutboxTop(outbox: seq<OutRow>): int {
    if outbox == [] then 0 else outbox[|outbox| - 1].localOrder
  }

  /** The number handed to a new draft, from the number it asks for and the largest in use. */
  function NextOrder(lastOrder: Option<int>, requested: int, top: int): int {
    var proposed := Max(requested, if top < INT64_MAX then top + 1 else INT64_MAX);
    if lastOrder.None? then proposed else Max(lastOrder.value + 1, proposed)
  }

  ghost function AllocatedOrder(db: Db, requested: int): int {
    NextOrder(db.lastOrder, requested, Max(TopOrder(db.messages), OutboxTop(db.outbox)))
  }

  ghost predicate DraftFails(db: Db, msgId: string, row: Row) {
    || msgId == "" || !Compatible(db.messages, msgId, row)
    || (msgId !in db.messages &&
        (|| (db.lastOrder.Some? && db.lastOrder.value >= INT64_MAX)
         || AllocatedOrder(db, row.localOrder) <= 0
         || SeqTaken(db.messages, msgId, row.peer, row.seqNo)
         || AllocatedOrder(db, row.localOrder) <= OutboxTop(db.outbox)
         || PeerTaken(db.conversations, row.conversation, row.peer)))
  }

  ghost function Drafted(db: Db, msgId: string, row: Row): Db {
    if DraftFails(db, msgId, row) || msgId in db.messages then db
    else
      var order := AllocatedOrder(db, row.localOrder);
      var messages := db.messages[msgId := row.(localOrder := order)];
      var conversations := if row.conversation in db.conversations then db.conversations
                           else db.conversations[row.conversation := Conversation(row.peer, 0, 0)];
      Db(messages, db.outbox + [OutRow(msgId, order, 0, 0, 0, 1)], Some(order),
         Projected(messages, conversations, row, NO_CONTEXT))
  }

  // ---- claims ----

  predicate ClaimArguments(now: int, lease: int, limit: int) {
    now >= 0 && 0 < lease <= 3600 && 0 < limit <= 64 && now <= INT64_MAX - lease
  }

  predicate Due(r: OutRow, now: int) {
    r.nextRetryAt <= now && r.retryCount < INT32_MAX
  }

  /** The first `limit` due rows in local order. */
  function Picked(outbox: seq<OutRow>, now: int, limit: nat): seq<OutRow> {
    if outbox == [] || limit == 0 then []
    else if Due(outbox[0], now) then [outbox[0]] + Picked(outbox[1..], now, limit - 1)
    else Picked(outbox[1..], now, limit)
  }

  function LeasedRow(r: OutRow, until: int): OutRow {
    r.(retryCount := r.retryCount + 1, nextRetryAt := until, version := 1)
  }

  /** The outbox with the first `limit` due rows leased. */
  function Leased(outbox: seq<OutRow>, now: int, until: int, limit: nat): seq<OutRow> {
    if outbox == [] || limit == 0 then outbox
    else if Due(outbox[0], now) then [LeasedRow(outbox[0], until)] + Leased(outbox[1..], now, until, limit - 1)
    else [outbox[0]] + Leased(outbox[1..], now, until, limit)
  }

  predicate Sendable(messages: map<string, Row>, r: OutRow) {
    r.version <= 1 && r.msgId in messages && messages[r.msgId].fromMe
  }

  predicate AllSendable(messages: map<string, Row>, rows: seq<OutRow>) {
    forall i :: 0 <= i < |rows| ==> Sendable(messages, rows[i])
  }

  predicate ClaimFails(db: Db, now: int, lease: int, limit: int) {
    !ClaimArguments(now, lease, limit) || !AllSendable(db.messages, Picked(db.outbox, now, limit))
  }

  function Claimed(db: Db, now: int, lease: int, limit: int): Db {
    if ClaimFails(db, now, lease, limit) then db
    else db.(outbox := Leased(db.outbox, now, now + lease, limit))
  }

  // ---- one-row updates of the outbox ----

  datatype Edit =
    | Lease(msgId: string, attempt: int, until: int)
    | Result(msgId: string, attempt: int, at: int)
    | Halt(msgId: string)

  function EditRow(r: OutRow, e: Edit): OutRow {
    if r.msgId != e.msgId then r
    else match e
      case Lease(_, attempt, until) => r.(retryCount := attempt, nextRetryAt := until, version := 1)
      case Result(_, attempt, at) =>
        if r.retryCount == attempt && r.finished < attempt && r.nextRetryAt != INT64_MAX
        then r.(nextRetryAt := at, finished := attempt) else r
      case Halt(_) => r.(nextRetryAt := INT64_MAX)
  }

  /** `UPDATE outbox SET ... WHERE msg_id = ?` */
  function EditAll(outbox: seq<OutRow>, e: Edit): seq<OutRow> {
    if outbox == [] then [] else [EditRow(outbox[0], e)] + EditAll(outbox[1..], e)
  }

  /** `DELETE FROM outbox WHERE msg_id = ?` */
  function Without(outbox: seq<OutRow>, msgId: string): seq<OutRow> {
    if outbox == [] then []
    else if outbox[0].msgId == msgId then Without(outbox[1..], msgId)
    else [outbox[0]] + Without(outbox[1..], msgId)
  }

  function Finished(db: Db, msgId: string, attempt: int, terminal: bool, retryAt: int): Db {
    if msgId == "" || attempt <= 0 || retryAt < 0 then db
    else db.(outbox := EditAll(db.outbox, Result(msgId, attempt, if terminal then INT64_MAX else retryAt)))
  }

  // ---- incoming messages and acknowledgements ----

  /** Only zero fields are filled in; nothing known is ever overwritten. */
  function Fill(was: Row, seqNo: int, serverTime: int, status: int): Row {
    was.(seqNo := if was.seqNo == 0 && seqNo > 0 then seqNo else was.seqNo,
         serverTime := if was.serverTime == 0 && serverTime > 0 then serverTime else was.serverTime,
         status := if was.status == 0 && status > 0 then status else was.status)
  }

  predicate FillClashes(messages: map<string, Row>, msgId: string, seqNo: int)
    requires msgId in messages
  {
    messages[msgId].seqNo == 0 && SeqTaken(messages, msgId, messages[msgId].peer, seqNo)
  }

  predicate MergeFails(db: Db, msgId: string, row: Row) {
    || msgId == "" || row.peer <= 0 || row.conversation <= 0
    || !Compatible(db.messages, msgId, row)
    || (if msgId in db.messages then FillClashes(db.messages, msgId, row.seqNo)
        else SeqTaken(db.messages, msgId, row.peer, row.seqNo) || PeerTaken(db.conversations, row.conversation, row.peer))
  }

  function MergedRow(messages: map<string, Row>, msgId: string, row: Row): Row {
    if msgId in messages then Fill(messages[msgId], row.seqNo, row.serverTime, row.status) else row
  }

  predicate CountsAsUnread(row: Row, ctx: Context) {
    !row.fromMe && !ctx.roaming && ctx.active != row.conversation
  }

  predicate ReadsOnArrival(row: Row, ctx: Context) {
    !row.fromMe && !ctx.roaming && ctx.active == row.conversation && row.seqNo > 0
  }

  /** Incoming messages of a conversation above a read position. */
  function Unread(messages: map<string, Row>, conversation: int, after: int): set<string> {
    set id | id in messages && messages[id].conversation == conversation && !messages[id].fromMe && messages[id].seqNo > after
  }

  function UnreadCount(messages: map<string, Row>, conversation: int, after: int): int {
    |Unread(messages, conversation, after)|
  }

  /** The counter a message that was not there before leaves in its conversation. */
  function Arrived(conversations: map<int, Conversation>, row: Row, ctx: Context): Conversation {
    if row.conversation in conversations then
      var c := conversations[row.conversation];
      if CountsAsUnread(row, ctx) && row.seqNo > c.readSeq then c.(unread := c.unread + 1) else c
    else Conversation(row.peer, 0, if CountsAsUnread(row, ctx) then 1 else 0)
  }

  function ReadUpTo(messages: map<string, Row>, conversation: int, c: Conversation, readSeq: int): Conversation {
    c.(readSeq := Max(c.readSeq, readSeq), unread := UnreadCount(messages, conversation, Max(c.readSeq, readSeq)))
  }

  /** A message that arrives in the conversation on screen is read at once. */
  function Projected(messages: map<string, Row>, conversations: map<int, Conversation>, row: Row, ctx: Context): map<int, Conversation> {
    if ReadsOnArrival(row, ctx) && row.conversation in conversations
    then conversations[row.conversation := ReadUpTo(messages, row.conversation, conversations[row.conversation], row.seqNo)]
    else conversations
  }

  function MergedConversations(db: Db, msgId: string, row: Row, ctx: Context, messages: map<string, Row>): map<int, Conversation> {
    var counted := if msgId in db.messages then db.conversations
                   else db.conversations[row.conversation := Arrived(db.conversations, row, ctx)];
    Projected(messages, counted, row, ctx)
  }

  function Merged(db: Db, msgId: string, row: Row, ctx: Context): Db {
    if MergeFails(db, msgId, row) then db
    else
      var messages := db.messages[msgId := MergedRow(db.messages, msgId, row)];
      Db(messages,
         if msgId in db.messages && row.fromMe && row.seqNo > 0 && row.status > 0 then Without(db.outbox, msgId) else db.outbox,
         db.lastOrder,
         MergedConversations(db, msgId, row, ctx, messages))
  }

  predicate AckFails(db: Db, msgId: string, seqNo: int, status: int) {
    || !(0 <= status <= 3) || seqNo < 0
    || (msgId in db.messages &&
        (|| (db.messages[msgId].seqNo > 0 && seqNo > 0 && db.messages[msgId].seqNo != seqNo)
         || FillClashes(db.messages, msgId, seqNo)))
  }

  function Acked(db: Db, msgId: string, serverTime: int, seqNo: int, status: int): Db {
    if AckFails(db, msgId, seqNo, status) || msgId !in db.messages then db
    else db.(messages := db.messages[msgId := Fill(db.messages[msgId], seqNo, serverTime, status)],
             outbox := if status > 0 then Without(db.outbox, msgId) else db.outbox)
  }

  function Read(db: Db, conversation: int, readSeq: int): Db {
    if conversation !in db.conversations then db
    else db.(conversations := db.conversations[conversation :=
               ReadUpTo(db.messages, conversation, db.conversations[conversation], readSeq)])
  }

  // ---- runs ----

  ghost function Step(db: Db, op: Op): Db {
    match op
    case Draft(msgId, row) => Drafted(db, msgId, row)
    case Claim(now, lease, limit) => Claimed(db, now, lease, limit)
    case Finish(msgId, attempt, terminal, retryAt) => Finished(db, msgId, attempt, terminal, retryAt)
    case Cancel(msgId) => db.(outbox := EditAll(db.outbox, Halt(msgId)))
    case Merge(msgId, row, ctx) => Merged(db, msgId, row, ctx)
    case Ack(msgId, serverTime, seqNo, status) => Acked(db, msgId, serverTime, seqNo, status)
    case MarkRead(conversation, readSeq) => Read(db, conversation, readSeq)
  }

  ghost function Run(db: Db, ops: seq<Op>): Db
    decreases |ops|
  {
    if ops == [] then db else Run(Step(db, ops[0]), ops[1..])
  }

  datatype Attempt = Attempt(msgId: string, localOrder: int, attempt: int)

  function AttemptsOf(rows: seq<OutRow>): seq<Attempt> {
    if rows == [] then []
    else [Attempt(rows[0].msgId, rows[0].localOrder, rows[0].retryCount + 1)] + AttemptsOf(rows[1..])
  }

  /** The attempts name these rows, in this order. */
  ghost predicate Named(attempts: seq<Attempt>, rows: seq<OutRow>) {
    |attempts| == |rows| && forall i :: 0 <= i < |rows| ==> attempts[i].msgId == rows[i].msgId
  }

  /** The outbox has a row on exactly this attempt, leased until this instant. */
  ghost predicate LeasedTo(outbox: seq<OutRow>, a: Attempt, until: int) {
    exists r :: r in outbox && r.msgId == a.msgId && r.localOrder == a.localOrder && r.retryCount == a.attempt && r.nextRetryAt == until
  }

  ghost predicate AllLeased(outbox: seq<OutRow>, attempts: seq<Attempt>, until: int) {
    forall i :: 0 <= i < |attempts| ==> LeasedTo(outbox, attempts[i], until)
  }

  class NativeRepository {
    var messages: map<string, Row>
    var outbox: seq<OutRow>
    var lastOrder: Option<int>
    var conversations: map<int, Conversation>

    ghost function View(): Db
      reads this
    {
      Db(messages, outbox, lastOrder, conversations)
    }

    constructor ()
      ensures View() == Db(map[], [], None, map[])
    {
      messages, outbox, lastOrder, conversations := map[], [], None, map[];
    }

    method MaxLocalOrder() returns (top: int)
      ensures top == TopOrder(messages)
    {
      var seen: set<string> := {};
      top := 0;
      ghost var table := messages;
      while seen != messages.Keys
        invariant seen <= table.Keys && messages == table && IsTop(table, seen, top)
        decreases |table.Keys - seen|
      {
        var id :| id in messages.Keys - seen;
        var order := messages[id].localOrder;
        TopStep(table, seen, id, top);
        assert table.Keys - (seen + {id}) < table.Keys - seen;
        top := if seen == {} || order > top then order else top;
        seen := seen + {id};
      }
    }

    method CommitOutgoingDraft(msgId: string, row: Row) returns (ok: bool, order: int)
      requires OutboxSorted(outbox)
      modifies this
      ensures View() == Step(old(View()), Draft(msgId, row))
      ensures ok == !DraftFails(old(View()), msgId, row)
      ensures ok ==> msgId in messages && order == messages[msgId].localOrder
    {
      if msgId == "" || !Compatible(messages, msgId, row) {
        return false, 0;
      }
      if msgId in messages {
        return true, messages[msgId].localOrder;
      }
      if lastOrder.Some? && lastOrder.value >= INT64_MAX {
        return false, 0;
      }
      var top := MaxLocalOrder();
      order := NextOrder(lastOrder, row.localOrder, Max(top, OutboxTop(outbox)));
      if order <= 0 || SeqTaken(messages, msgId, row.peer, row.seqNo) || order <= OutboxTop(outbox)
         || PeerTaken(conversations, row.conversation, row.peer)
      {
        return false, 0;
      }
      lastOrder := Some(order);
      messages := messages[msgId := row.(localOrder := order)];
      outbox := outbox + [OutRow(msgId, order, 0, 0, 0, 1)];
      if row.conversation !in conversations {
        conversations := conversations[row.conversation := Conversation(row.peer, 0, 0)];
      }
      FinishProjection(row, NO_CONTEXT);
      return true, order;
    }

    method SelectDue(now: int, limit: nat) returns (rows: seq<OutRow>)
      ensures rows == Picked(outbox, now, limit)
    {
      rows := [];
      var i := 0;
      while i < |outbox| && |rows| < limit
        invariant 0 <= i <= |outbox| && |rows| <= limit
        invariant rows + Picked(outbox[i..], now, limit - |rows|) == Picked(outbox, now, limit)
      {
        if Due(outbox[i], now) {
          rows := rows + [outbox[i]];
        }
        i := i + 1;
      }
    }

    /** Selects the due rows, then leases them one by one; any row it cannot send undoes the whole claim. */
    method ClaimOutbox(now: int, lease: int, limit: int) returns (ok: bool, attempts: seq<Attempt>)
      requires OutboxSorted(outbox)
      modifies this`outbox
      ensures View() == Step(old(View()), Claim(now, lease, limit))
      ensures ok == !ClaimFails(old(View()), now, lease, limit)
      ensures attempts == if ok then AttemptsOf(Picked(old(outbox), now, limit)) else []
      ensures ok ==> Named(attempts, Picked(old(outbox), now, limit)) && AllLeased(outbox, attempts, now + lease)
    {
      if now < 0 || lease <= 0 || lease > 3600 || limit <= 0 || limit > 64 || now > INT64_MAX - lease {
        return false, [];
      }
      ghost var db := View();
      var rows := SelectDue(now, limit);
      assert rows == Picked(db.outbox, now, limit);
      ok := LeaseRows(rows, now, limit, now + lease);
      assert ok == !ClaimFails(db, now, lease, limit);
      assert View() == Claimed(db, now, lease, limit);
      attempts := if ok then AttemptsOf(rows) else [];
    }

    /** One update per row by message id; the first row that cannot be sent rolls all of them back. */
    method LeaseRows(rows: seq<OutRow>, now: int, limit: nat, until: int) returns (ok: bool)
      requires OutboxSorted(outbox) && rows == Picked(outbox, now, limit)
      modifies this`outbox
      ensures ok == AllSendable(messages, rows)
      ensures outbox == if ok then Leased(old(outbox), now, until, limit) else old(outbox)
      ensures ok ==> Named(AttemptsOf(rows), rows) && AllLeased(outbox, AttemptsOf(rows), until)
    {
      var before := outbox;
      var k := 0;
      while k < |rows|
        invariant 0 <= k <= |rows|
        invariant forall i :: 0 <= i < k ==> Sendable(messages, rows[i])
        invariant outbox == Leased(before, now, until, k)
      {
        var r := rows[k];
        if !Sendable(messages, r) {
          outbox := before;
          return false;
        }
        LeaseNext(before, now, until, limit, k, Lease(r.msgId, r.retryCount + 1, until));
        outbox := EditAll(outbox, Lease(r.msgId, r.retryCount + 1, until));
        k := k + 1;
      }
      LeaseAll(before, now, until, limit);
      ClaimAnswers(before, now, until, limit);
      return true;
    }

    method FinishOutboxAttempt(msgId: string, attempt: int, terminal: bool, retryAt: int) returns (ok: bool)
      modifies this`outbox
      ensures View() == Step(old(View()), Finish(msgId, attempt, terminal, retryAt))
      ensures ok <==> msgId != "" && attempt > 0 && retryAt >= 0
      ensures |outbox| == |old(outbox)|
      ensures forall i :: 0 <= i < |outbox| ==>
                var was := old(outbox)[i];
                outbox[i] == if ok && was.msgId == msgId && was.retryCount == attempt && was.finished < attempt && was.nextRetryAt != INT64_MAX
                             then was.(finished := attempt, nextRetryAt := if terminal then INT64_MAX else retryAt) else was
    {
      if msgId == "" || attempt <= 0 || retryAt < 0 {
        return false;
      }
      EditAt(outbox, Result(msgId, attempt, if terminal then INT64_MAX else retryAt));
      outbox := EditAll(outbox, Result(msgId, attempt, if terminal then INT64_MAX else retryAt));
      return true;
    }

    method CancelOutbox(msgId: string)
      modifies this`outbox
      ensures View() == Step(old(View()), Cancel(msgId))
      ensures |outbox| == |old(outbox)|
      ensures forall i :: 0 <= i < |outbox| ==>
                outbox[i] == if old(outbox)[i].msgId == msgId then old(outbox)[i].(nextRetryAt := INT64_MAX) else old(outbox)[i]
    {
      EditAt(outbox, Halt(msgId));
      outbox := EditAll(outbox, Halt(msgId));
    }

    method CommitIncomingMessage(msgId: string, row: Row, ctx: Context) returns (ok: bool, inserted: bool)
      modifies this
      ensures View() == Step(old(View()), Merge(msgId, row, ctx))
      ensures ok == !MergeFails(old(View()), msgId, row)
      ensures inserted <==> ok && msgId !in old(messages)
    {
      if msgId == "" || row.peer <= 0 || row.conversation <= 0 || !Compatible(messages, msgId, row) {
        return false, false;
      }
      inserted := msgId !in messages;
      if inserted {
        if SeqTaken(messages, msgId, row.peer, row.seqNo) || PeerTaken(conversations, row.conversation, row.peer) {
          return false, false;
        }
        messages := messages[msgId := row];
        conversations := conversations[row.conversation := Arrived(conversations, row, ctx)];
        FinishProjection(row, ctx);
      } else {
        if FillClashes(messages, msgId, row.seqNo) {
          return false, false;
        }
        messages := messages[msgId := Fill(messages[msgId], row.seqNo, row.serverTime, row.status)];
        FinishProjection(row, ctx);
        if row.fromMe && row.seqNo > 0 && row.status > 0 {
          outbox := Without(outbox, msgId);
        }
      }
      ok := true;
    }

    method FinishProjection(row: Row, ctx: Context)
      modifies this`conversations
      ensures conversations == Projected(messages, old(conversations), row, ctx)
    {
      if !row.fromMe && !ctx.roaming && ctx.active == row.conversation && row.seqNo > 0 {
        MarkConversationRead(row.conversation, row.seqNo);
      }
    }

    method MarkConversationRead(conversation: int, readSeq: int)
      modifies this`conversations
      ensures View() == Step(old(View()), MarkRead(conversation, readSeq))
    {
      if conversation in conversations {
        var c := conversations[conversation];
        var effective := if readSeq > c.readSeq then readSeq else c.readSeq;
        conversations := conversations[conversation :=
          c.(readSeq := effective, unread := UnreadCount(messages, conversation, effective))];
      }
    }

    method CommitAck(msgId: string, serverTime: int, seqNo: int, status: int) returns (ok: bool, updated: bool)
      modifies this
      ensures View() == Step(old(View()), Ack(msgId, serverTime, seqNo, status))
      ensures ok == !AckFails(old(View()), msgId, seqNo, status)
      ensures updated <==> messages != old(messages)
    {
      if status < 0 || status > 3 || seqNo < 0 {
        return false, false;
      }
      if msgId !in messages {
        return true, false;
      }
      var row := messages[msgId];
      if (row.seqNo > 0 && seqNo > 0 && row.seqNo != seqNo) || FillClashes(messages, msgId, seqNo) {
        return false, false;
      }
      updated := (row.seqNo == 0 && seqNo > 0) || (row.serverTime == 0 && serverTime > 0) || (row.status == 0 && status > 0);
      if updated {
        messages := messages[msgId := Fill(row, seqNo, serverTime, status)];
      } else {
        assert messages[msgId := Fill(row, seqNo, serverTime, status)] == messages;
      }
      if status > 0 {
        outbox := Without(outbox, msgId);
      }
      ok := true;
    }
  }

  lemma LeasedToRest(head: OutRow, rest: seq<OutRow>, attempts: seq<Attempt>, until: int)
    requires AllLeased(rest, attempts, until)
    ensures AllLeased([head] + rest, attempts, until)
  {
    forall i | 0 <= i < |attempts|
      ensures LeasedTo([head] + rest, attempts[i], until)
    {
      var a := attempts[i];
      var r :| r in rest && r.msgId == a.msgId && r.localOrder == a.localOrder && r.retryCount == a.attempt && r.nextRetryAt == until;
      assert r in [head] + rest;
    }
  }

  /** What a claim answers is what it has written: each attempt is that of the leased row. */
  lemma {:induction false} ClaimAnswers(outbox: seq<OutRow>, now: int, until: int, limit: nat)
    ensures Named(AttemptsOf(Picked(outbox, now, limit)), Picked(outbox, now, limit))
    ensures AllLeased(Leased(outbox, now, until, limit), AttemptsOf(Picked(outbox, now, limit)), until)
  {
    if outbox != [] && limit > 0 {
      var head, rest := outbox[0], outbox[1..];
      if Due(head, now) {
        ClaimAnswers(rest, now, until, limit - 1);
        var attempts, leased := AttemptsOf(Picked(rest, now, limit - 1)), LeasedRow(head, until);
        LeasedToRest(leased, Leased(rest, now, until, limit - 1), attempts, until);
        assert leased in Leased(outbox, now, until, limit);
        assert Picked(outbox, now, limit)[1..] == Picked(rest, now, limit - 1);
        var first := Attempt(head.msgId, head.localOrder, leased.retryCount);
        assert AttemptsOf(Picked(outbox, now, limit)) == [first] + attempts;
      } else {
        ClaimAnswers(rest, now, until, limit);
        LeasedToRest(head, Leased(rest, now, until, limit), AttemptsOf(Picked(rest, now, limit)), until);
      }
    }
  }

  /** An update touches every row by itself. */
  lemma {:induction false} EditAt(outbox: seq<OutRow>, e: Edit)
    ensures |EditAll(outbox, e)| == |outbox| && forall i :: 0 <= i < |outbox| ==> EditAll(outbox, e)[i] == EditRow(outbox[i], e)
  {
    if outbox != [] {
      EditAt(outbox[1..], e);
    }
  }

  lemma {:induction false} EditMisses(outbox: seq<OutRow>, e: Edit)
    requires forall i :: 0 <= i < |outbox| ==> outbox[i].msgId != e.msgId
    ensures EditAll(outbox, e) == outbox
  {
    if outbox != [] {
      EditMisses(outbox[1..], e);
    }
  }

  lemma {:induction false} PickedAreRows(outbox: seq<OutRow>, now: int, limit: nat, k: nat)
    requires k < |Picked(outbox, now, limit)|
    ensures Picked(outbox, now, limit)[k] in outbox && Due(Picked(outbox, now, limit)[k], now)
  {
    if Due(outbox[0], now) {
      if k > 0 {
        PickedAreRows(outbox[1..], now, limit - 1, k - 1);
      }
    } else {
      PickedAreRows(outbox[1..], now, limit, k);
    }
  }

  lemma PickedElsewhere(outbox: seq<OutRow>, now: int, limit: nat, k: nat)
    requires OutboxSorted(outbox) && outbox != [] && k < |Picked(outbox[1..], now, limit)|
    ensures OutboxSorted(outbox[1..]) && Picked(outbox[1..], now, limit)[k].msgId != outbox[0].msgId
  {
    PickedAreRows(outbox[1..], now, limit, k);
  }

  lemma LeaseFirst(head: OutRow, rest: seq<OutRow>, now: int, until: int, e: Edit)
    requires Due(head, now) && e == Lease(head.msgId, head.retryCount + 1, until)
    requires forall i :: 0 <= i < |rest| ==> rest[i].msgId != head.msgId
    ensures EditAll([head] + rest, e) == Leased([head] + rest, now, until, 1)
  {
    EditMisses(rest, e);
  }

  /** One more update by message id leases the next picked row and no other. */
  lemma {:induction false} LeaseNext(outbox: seq<OutRow>, now: int, until: int, limit: nat, k: nat, e: Edit)
    requires OutboxSorted(outbox) && k < |Picked(outbox, now, limit)|
    requires var r := Picked(outbox, now, limit)[k]; e == Lease(r.msgId, r.retryCount + 1, until)
    ensures EditAll(Leased(outbox, now, until, k), e) == Leased(outbox, now, until, k + 1)
  {
    var head, rest := outbox[0], outbox[1..];
    assert outbox == [head] + rest;
    if !Due(head, now) {
      PickedElsewhere(outbox, now, limit, k);
      LeaseNext(rest, now, until, limit, k, e);
    } else {
      if k > 0 {
        PickedElsewhere(outbox, now, limit - 1, k - 1);
        LeaseNext(rest, now, until, limit - 1, k - 1, e);
      } else {
        LeaseFirst(head, rest, now, until, e);
      }
    }
  }

  lemma {:induction false} LeaseAll(outbox: seq<OutRow>, now: int, until: int, limit: nat)
    ensures Leased(outbox, now, until, |Picked(outbox, now, limit)|) == Leased(outbox, now, until, limit)
  {
    if outbox != [] && limit > 0 {
      if Due(outbox[0], now) {
        LeaseAll(outbox[1..], now, until, limit - 1);
      } else {
        LeaseAll(outbox[1..], now, until, limit);
        if |Picked(outbox, now, limit)| == 0 {
          assert outbox == [outbox[0]] + outbox[1..];
        }
      }
    }
  }
}
