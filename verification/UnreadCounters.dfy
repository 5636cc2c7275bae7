/**
 The unread counter of a conversation is kept by small increments. It equals the number of
 incoming messages above the read position exactly as long as no operation of the kind
 `Miscounts` happens: a roaming copy that is new and unread, a late sequence number for an
 incoming message, or the first message of a conversation without a number.
 */
module UnreadCounters {
  import opened WireFormat
  import opened ClientRepository

  ghost predicate CountersExact(db: Db) {
    && (forall id :: id in db.messages ==> db.messages[id].conversation in db.conversations)
    && (forall c :: c in db.conversations ==>
          db.conversations[c].readSeq >= 0 &&
          db.conversations[c].unread == UnreadCount(db.messages, c, db.conversations[c].readSeq))
  }

  function ReadSeq(db: Db, conversation: int): int {
    if conversation in db.conversations then db.conversations[conversation].readSeq else 0
  }

  /** The incoming message leaves its conversation's counter wrong. */
  predicate Miscounts(db: Db, msgId: string, row: Row, ctx: Context) {
    !row.fromMe && !ReadsOnArrival(row, ctx) &&
    if msgId in db.messages then db.messages[msgId].seqNo == 0 && row.seqNo > ReadSeq(db, row.conversation)
    else if ctx.roaming then row.seqNo > ReadSeq(db, row.conversation)
    else row.conversation !in db.conversations && row.seqNo <= 0 && ctx.active != row.conversation
  }

  predicate IsUnread(row: Row, conversation: int, after: int) {
    row.conversation == conversation && !row.fromMe && row.seqNo > after
  }

  function One(b: bool): int {
    if b then 1 else 0
  }

  /** Writing one row moves each count by what the row itself contributes. */
  lemma CountAfterWrite(messages: map<string, Row>, msgId: string, row: Row, conversation: int, after: int)
    ensures UnreadCount(messages[msgId := row], conversation, after) ==
            UnreadCount(messages, conversation, after) + One(IsUnread(row, conversation, after)) -
            One(msgId in messages && IsUnread(messages[msgId], conversation, after))
  {
    var before, later := Unread(messages, conversation, after), Unread(messages[msgId := row], conversation, after);
    UnreadWithout(messages, msgId, row, conversation, after);
    SetWithout(before, msgId);
    SetWithout(later, msgId);
  }

  lemma UnreadWithout(messages: map<string, Row>, msgId: string, row: Row, conversation: int, after: int)
    ensures Unread(messages, conversation, after) - {msgId} == Unread(messages[msgId := row], conversation, after) - {msgId}
  {
    var messages' := messages[msgId := row];
    forall id | id != msgId
      ensures id in messages' <==> id in messages
      ensures id in messages ==> messages'[id] == messages[id]
    {
    }
  }

  lemma SetWithout(s: set<string>, x: string)
    ensures |s - {x}| == |s| - One(x in s)
  {
    if x in s {
      assert s == s - {x} + {x};
    } else {
      assert s - {x} == s;
    }
  }

  ghost predicate CounterExact(db: Db, c: int) {
    c in db.conversations ==>
      db.conversations[c].readSeq >= 0 && db.conversations[c].unread == UnreadCount(db.messages, c, db.conversations[c].readSeq)
  }

  /** An incoming message keeps the counters exact if and only if it is not one that miscounts. */
  lemma MergeKeepsCounters(db: Db, msgId: string, row: Row, ctx: Context)
    requires CountersExact(db) && !MergeFails(db, msgId, row)
    ensures CountersExact(Merged(db, msgId, row, ctx)) <==> !Miscounts(db, msgId, row, ctx)
  {
    var db' := Merged(db, msgId, row, ctx);
    var row' := MergedRow(db.messages, msgId, row);
    forall c | c in db'.conversations && c != row.conversation
      ensures CounterExact(db', c)
    {
      CountAfterWrite(db.messages, msgId, row', c, db.conversations[c].readSeq);
    }
    MergeAtConversation(db, msgId, row, ctx);
    assert row.conversation in db'.conversations;
    assert CounterExact(db', row.conversation) <==> !Miscounts(db, msgId, row, ctx);
    if CounterExact(db', row.conversation) {
      forall c | c in db'.conversations
        ensures CounterExact(db', c)
      {
      }
      assert forall id :: id in db'.messages ==> db'.messages[id].conversation in db'.conversations;
    }
  }

  lemma MergeAtConversation(db: Db, msgId: string, row: Row, ctx: Context)
    requires CountersExact(db) && !MergeFails(db, msgId, row)
    ensures CounterExact(Merged(db, msgId, row, ctx), row.conversation) <==> !Miscounts(db, msgId, row, ctx)
  {
    var row' := MergedRow(db.messages, msgId, row);
    var c := row.conversation;
    if !ReadsOnArrival(row, ctx) {
      CountAfterWrite(db.messages, msgId, row', c, ReadSeq(db, c));
    }
  }

  // ---- the other operations ----

  lemma DraftKeepsCounters(db: Db, msgId: string, row: Row)
    requires CountersExact(db) && row.fromMe
    ensures CountersExact(Drafted(db, msgId, row))
  {
    var db' := Drafted(db, msgId, row);
    if db' != db {
      forall c | c in db'.conversations
        ensures CounterExact(db', c)
      {
        CountAfterWrite(db.messages, msgId, db'.messages[msgId], c, db'.conversations[c].readSeq);
      }
      forall id | id in db'.messages
        ensures db'.messages[id].conversation in db'.conversations
      {
      }
    }
  }

  lemma AckKeepsCounters(db: Db, msgId: string, serverTime: int, seqNo: int, status: int)
    requires CountersExact(db)
    requires msgId in db.messages ==> db.messages[msgId].fromMe || db.messages[msgId].seqNo != 0
    ensures CountersExact(Acked(db, msgId, serverTime, seqNo, status))
  {
    var db' := Acked(db, msgId, serverTime, seqNo, status);
    forall c | c in db'.conversations
      ensures CounterExact(db', c)
    {
      if msgId in db.messages {
        CountAfterWrite(db.messages, msgId, db'.messages[msgId], c, db'.conversations[c].readSeq);
      }
    }
  }

  lemma ReadKeepsCounters(db: Db, conversation: int, readSeq: int)
    requires CountersExact(db)
    ensures CountersExact(Read(db, conversation, readSeq))
  {
  }

  // ---- runs ----

  /** Every incoming message has its number. */
  ghost predicate Numbered(db: Db) {
    forall id :: id in db.messages && !db.messages[id].fromMe ==> db.messages[id].seqNo > 0
  }

  /** No roaming merge, incoming messages carry their number, drafts are the owner's own. */
  predicate Live(op: Op) {
    && (op.Merge? ==> !op.ctx.roaming && op.row.seqNo > 0)
    && (op.Draft? ==> op.row.fromMe)
  }

  lemma StepKeepsCounters(db: Db, op: Op)
    requires CountersExact(db) && Numbered(db) && Live(op)
    ensures CountersExact(Step(db, op))
  {
    match op
    case Draft(msgId, row) => DraftKeepsCounters(db, msgId, row);
    case Merge(msgId, row, ctx) =>
      if !MergeFails(db, msgId, row) {
        MergeKeepsCounters(db, msgId, row, ctx);
      }
    case Ack(msgId, serverTime, seqNo, status) => AckKeepsCounters(db, msgId, serverTime, seqNo, status);
    case MarkRead(conversation, readSeq) => ReadKeepsCounters(db, conversation, readSeq);
    case Claim(_, _, _) =>
    case Finish(_, _, _, _) =>
    case Cancel(_) =>
  }

  /**
   After any run of live operations every counter is the number of incoming messages above
   the read position, however late or out of order the reads came.
   */
  lemma {:induction false} UnreadIsExact(db: Db, ops: seq<Op>)
    requires CountersExact(db) && Numbered(db)
    requires forall i :: 0 <= i < |ops| ==> Live(ops[i])
    ensures CountersExact(Run(db, ops))
    decreases |ops|
  {
    if ops != [] {
      StepKeepsCounters(db, ops[0]);
      UnreadIsExact(Step(db, ops[0]), ops[1..]);
    }
  }

  /** No operation of any run, roaming or not, moves a read position back. */
  lemma {:induction false} ReadSeqNeverFalls(db: Db, ops: seq<Op>, c: int)
    requires c in db.conversations
    ensures c in Run(db, ops).conversations && Run(db, ops).conversations[c].readSeq >= db.conversations[c].readSeq
    decreases |ops|
  {
    if ops != [] {
      ReadSeqNeverFalls(Step(db, ops[0]), ops[1..], c);
    }
  }

  /**
   Reading a conversation makes its counter exact after any run whatever, also one with roaming
   copies and late numbers.
   */
  lemma ReadRepairsCounter(db: Db, ops: seq<Op>, c: int, readSeq: int)
    requires c in db.conversations && db.conversations[c].readSeq >= 0
    ensures CounterExact(Step(Run(db, ops), MarkRead(c, readSeq)), c)
  {
    ReadSeqNeverFalls(db, ops, c);
  }

  // ---- the three ways to miscount ----

  // The runtime lets no message from the network without a number through, so the last two inputs
  // reach the repository only through its own interface, the late number also after an import.

  /** Conversation 7 with peer 7, read up to number 3; message "a" is there without a number. */
  const BEFORE: Db := Db(map["a" := Row(7, 7, 0, 0, 0, false, 0, "x", 2)], [], None, map[7 := Conversation(7, 3, 0)])

  /** A roaming copy that is new and above the read position is not counted. */
  lemma RoamingCopyMiscounts()
    ensures var row, ctx := Row(7, 7, 5, 0, 0, false, 0, "y", 2), Context(true, 0);
            !MergeFails(BEFORE, "b", row) && Miscounts(BEFORE, "b", row, ctx) && !CountersExact(Merged(BEFORE, "b", row, ctx))
  {
    MergeKeepsCounters(BEFORE, "b", Row(7, 7, 5, 0, 0, false, 0, "y", 2), Context(true, 0));
  }

  /** Nor is a message whose number comes late. */
  lemma LateNumberMiscounts()
    ensures var row, ctx := Row(7, 7, 5, 0, 0, false, 0, "x", 2), Context(false, 0);
            !MergeFails(BEFORE, "a", row) && Miscounts(BEFORE, "a", row, ctx) && !CountersExact(Merged(BEFORE, "a", row, ctx))
  {
    MergeKeepsCounters(BEFORE, "a", Row(7, 7, 5, 0, 0, false, 0, "x", 2), Context(false, 0));
  }

  /** The first message of a conversation is counted even without a number. */
  lemma FirstWithoutNumberMiscounts()
    ensures var row, ctx := Row(8, 8, 0, 0, 0, false, 0, "z", 2), Context(false, 0);
            !MergeFails(BEFORE, "c", row) && Miscounts(BEFORE, "c", row, ctx) && !CountersExact(Merged(BEFORE, "c", row, ctx))
  {
    MergeKeepsCounters(BEFORE, "c", Row(8, 8, 0, 0, 0, false, 0, "z", 2), Context(false, 0));
  }
}
