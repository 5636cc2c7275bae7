/**
 Reliable delivery of text messages: one client with its outbox, the server's message table,
 and a network that loses, repeats and reorders.

 The network is the set of everything ever sent; a step may deliver any element of it, any
 number of times or never. A history page copies rows of the server's table, which never
 change. A push copies the request just served, with the number found for its id, which need
 not be the stored message: the server knows a repeated id by its id alone. Actions interleave
 freely; those of the client and the server are the transactions of `ClientRepository` and
 `MessageStore`.
 */
module Delivery {
  import opened WireFormat
  import CR = ClientRepository
  import Runs = ClientRuns
  import MS = MessageStore

  const LEASE: int := 30
  const TEXT: int := 0

  datatype Verdict = Succ | Fail | NotFriend | FileNotOwned | ServerError
  datatype Reply = Reply(msgId: string, peer: int, verdict: Verdict, seqNo: int)

  /** A claimed attempt with the payload that was built for it. */
  datatype Outgoing = Outgoing(message: MS.Message, attempt: int)

  /** A message on its way to a client, with the number the server gives for its id. */
  datatype Copy = Copy(message: MS.Message, seqNo: nat)

  /**
   `mine` holds the random message ids that this client draws. Nobody else draws them, so another
   account can use one only once the server has it.
   */
  datatype System = System(owner: int, mine: set<string>, client: CR.Db, inflight: map<string, int>, claimed: set<Outgoing>,
                           requests: set<MS.Message>, server: seq<MS.Stored>, replies: set<Reply>, pushes: set<Copy>)

  datatype Outcome = Refuse | SaveFails | Save(online: bool)

  datatype Action =
    | Draft(msgId: string, row: CR.Row)
    | Claim(now: int, limit: int)
    | Transmit(o: Outgoing)
    | Track(o: Outgoing)
    | SendFails(o: Outgoing, retryAt: int)
    | Serve(m: MS.Message, outcome: Outcome)
    | SomeoneSends(m: MS.Message, online: bool)
    | ReplyArrives(r: Reply, retryAt: int)
    | CopyArrives(c: Copy, serverTime: int, roaming: bool)
    | Cancel(msgId: string)
    | MarkRead(conversation: int, readSeq: int)
    | Restart

  // ---- the steps ----

  /** The request built from a stored draft. */
  function Payload(owner: int, msgId: string, row: CR.Row): MS.Message {
    MS.Message(msgId, owner, row.peer, row.kind, row.content)
  }

  /**
   A draft as the message service prepares it: no number, no server time, still sending. The
   conversation is the caller's choice; nothing ties it to the peer.
   */
  predicate FreshDraft(row: CR.Row) {
    row.fromMe && row.seqNo == 0 && row.serverTime == 0 && row.status == 0 && row.kind == TEXT &&
    row.peer > 0 && row.conversation > 0
  }

  ghost predicate Enabled(s: System, a: Action) {
    match a
    case Draft(msgId, row) => msgId in s.mine && FreshDraft(row)
    case Transmit(o) => o in s.claimed
    case Track(o) => o in s.claimed
    case SendFails(o, _) => o in s.claimed
    case Serve(m, _) => m in s.requests
    case SomeoneSends(m, _) => m.msgId !in s.mine || MS.Find(s.server, m.msgId).Some?
    case ReplyArrives(r, _) => r in s.replies
    case CopyArrives(c, _, _) => Genuine(s.server, c) || (c in s.pushes && c.message.receiver == s.owner)
    case _ => true
  }

  /** The copy carries the very message the server has under its id. */
  predicate Genuine(server: seq<MS.Stored>, c: Copy) {
    var found := MS.Find(server, c.message.msgId);
    found.Some? && found.value.message == c.message && found.value.seqNo == c.seqNo
  }

  /** What is pushed to the receiver of a request after its save. */
  function PushOf(m: MS.Message, online: bool, table: seq<MS.Stored>): set<Copy> {
    var found := MS.Find(table, m.msgId);
    if online && found.Some? then {Copy(m, found.value.seqNo)} else {}
  }

  /** The attempts that a claim answered, with the payloads built for them. */
  function ClaimedNow(s: System, attempts: seq<CR.Attempt>): set<Outgoing> {
    set a | a in attempts && a.msgId in s.client.messages ::
      Outgoing(Payload(s.owner, a.msgId, s.client.messages[a.msgId]), a.attempt)
  }

  /** The server's reply to a request, after its save. */
  function ReplyTo(m: MS.Message, outcome: Outcome, table: seq<MS.Stored>): Reply {
    var found := MS.Find(table, m.msgId);
    if outcome.Refuse? then Reply(m.msgId, m.receiver, NotFriend, 0)
    else if outcome.SaveFails? || found.None? then Reply(m.msgId, m.receiver, ServerError, 0)
    else Reply(m.msgId, m.receiver, if outcome.online then Succ else Fail, found.value.seqNo)
  }

  /** What the client does with a reply for an attempt it has in flight. */
  ghost function OnReply(client: CR.Db, r: Reply, attempt: int, retryAt: int): CR.Db {
    match r.verdict
    case Succ => if r.seqNo <= 0 then client else CR.Step(client, CR.Ack(r.msgId, 0, r.seqNo, 1))
    case Fail => if r.seqNo <= 0 then client else CR.Step(client, CR.Ack(r.msgId, 0, r.seqNo, 3))
    case ServerError => CR.Step(client, CR.Finish(r.msgId, attempt, false, retryAt))
    case _ => CR.Step(client, CR.Finish(r.msgId, attempt, true, 0))
  }

  predicate Listens(s: System, r: Reply) {
    && r.msgId in s.inflight && s.inflight[r.msgId] > 0
    && r.msgId in s.client.messages && s.client.messages[r.msgId].fromMe && s.client.messages[r.msgId].peer == r.peer
  }

  /** The row the client merges for a copy it was sent. */
  function CopyOf(owner: int, c: Copy, serverTime: int): CR.Row {
    var fromMe := c.message.sender == owner;
    var peer := if fromMe then c.message.receiver else c.message.sender;
    CR.Row(peer, peer, c.seqNo, serverTime, 0, fromMe, c.message.kind, c.message.content, if fromMe then 1 else 2)
  }

  predicate Concerns(owner: int, m: MS.Message) {
    (m.sender == owner && m.receiver > 0) || (m.receiver == owner && m.sender > 0)
  }

  ghost function OnCopy(s: System, c: Copy, serverTime: int, roaming: bool): CR.Db {
    if c.message.msgId == "" || c.seqNo == 0 || !Concerns(s.owner, c.message) then s.client
    else CR.Step(s.client, CR.Merge(c.message.msgId, CopyOf(s.owner, c, serverTime), CR.Context(roaming, 0)))
  }

  ghost function Next(s: System, a: Action): System {
    match a
    case Draft(msgId, row) =>
      if CR.DraftFails(s.client, msgId, row) then s
      else s.(client := CR.Step(s.client, CR.Draft(msgId, row)), inflight := s.inflight[msgId := 0])
    case Claim(now, limit) =>
      if CR.ClaimFails(s.client, now, LEASE, limit) then s
      else s.(client := CR.Step(s.client, CR.Claim(now, LEASE, limit)),
              claimed := s.claimed + ClaimedNow(s, CR.AttemptsOf(CR.Picked(s.client.outbox, now, limit))))
    case Transmit(o) => s.(requests := s.requests + {o.message})
    case Track(o) => s.(inflight := s.inflight[o.message.msgId := o.attempt])
    case SendFails(o, retryAt) => s.(client := CR.Step(s.client, CR.Finish(o.message.msgId, o.attempt, false, retryAt)))
    case Serve(m, outcome) =>
      var table := if outcome.Save? then MS.Saved(s.server, m) else s.server;
      s.(server := table, replies := s.replies + {ReplyTo(m, outcome, table)},
         pushes := s.pushes + PushOf(m, outcome.Save? && outcome.online, table))
    case SomeoneSends(m, online) =>
      s.(server := MS.Saved(s.server, m), pushes := s.pushes + PushOf(m, online, MS.Saved(s.server, m)))
    case ReplyArrives(r, retryAt) => if Listens(s, r) then AfterReply(s, r, retryAt) else s
    case CopyArrives(c, serverTime, roaming) => s.(client := OnCopy(s, c, serverTime, roaming))
    case Cancel(msgId) => s.(client := CR.Step(s.client, CR.Cancel(msgId)))
    case MarkRead(conversation, readSeq) => s.(client := CR.Step(s.client, CR.MarkRead(conversation, readSeq)))
    case Restart => s.(inflight := map[], claimed := {})
  }

  ghost function AfterReply(s: System, r: Reply, retryAt: int): System
    requires r.msgId in s.inflight
  {
    s.(client := OnReply(s.client, r, s.inflight[r.msgId], retryAt),
       inflight := if r.verdict.ServerError? || !Handled(s.client, r) then s.inflight else s.inflight - {r.msgId})
  }

  /** The reply was carried out, so its attempt is no longer in flight. */
  predicate Handled(client: CR.Db, r: Reply) {
    Accepts(r) ==> r.seqNo > 0 && !CR.AckFails(client, r.msgId, r.seqNo, if r.verdict.Succ? then 1 else 3)
  }

  ghost function Init(owner: int, mine: set<string>): System {
    System(owner, mine, CR.Db(map[], [], None, map[]), map[], {}, {}, [], {}, {})
  }

  /** `s` is reached from the start by some sequence of enabled actions. */
  ghost predicate Run(start: System, actions: seq<Action>, end: System)
    decreases |actions|
  {
    if actions == [] then end == start
    else Enabled(start, actions[0]) && Run(Next(start, actions[0]), actions[1..], end)
  }

  // ---- the invariant ----

  ghost predicate Authored(s: System, m: MS.Message) {
    && m.msgId in s.mine && m.msgId in s.client.messages
    && s.client.messages[m.msgId].fromMe && m == Payload(s.owner, m.msgId, s.client.messages[m.msgId])
  }

  /** The client's own message is queued exactly as long as it has no number, and as long as it shows as being sent. */
  predicate OwnOk(row: CR.Row, queued: bool) {
    row.fromMe && row.kind == TEXT && 0 <= row.status <= 3 && (queued <==> row.seqNo == 0) && (queued <==> row.status == 0)
  }

  ghost predicate RowOk(s: System, id: string)
    requires id in s.client.messages
  {
    var row, found := s.client.messages[id], MS.Find(s.server, id);
    && row.peer > 0
    && (found.Some? ==> row.seqNo == 0 || row.seqNo == found.value.seqNo)
    && (found.None? ==> row.seqNo == 0 && id in s.mine)
    && (if id in s.mine then OwnOk(row, Runs.Queued(s.client, id)) else row.status == if row.fromMe then 1 else 2)
  }

  ghost predicate RowsOk(s: System) {
    forall id :: id in s.client.messages ==> RowOk(s, id)
  }

  ghost predicate ServerOk(server: seq<MS.Stored>) {
    MS.WellNumbered(server) &&
    forall row :: row in server ==> row.conversation == MS.ConversationId(row.message.sender, row.message.receiver)
  }

  ghost predicate NetworkOk(s: System) {
    && (forall m :: m in s.requests ==> Authored(s, m))
    && (forall o :: o in s.claimed ==> Authored(s, o.message))
    && (forall row :: row in s.server && row.message.msgId in s.mine ==> Authored(s, row.message))
  }

  predicate Accepts(r: Reply) {
    r.verdict.Succ? || r.verdict.Fail?
  }

  predicate NumberOk(server: seq<MS.Stored>, id: string, seqNo: int) {
    MS.Find(server, id).Some? && MS.Find(server, id).value.seqNo == seqNo
  }

  /** Accepting replies and pushes carry the number under which the server has their id. */
  ghost predicate NumbersOk(s: System) {
    && (forall r :: r in s.replies && Accepts(r) ==> r.msgId in s.mine && NumberOk(s.server, r.msgId, r.seqNo))
    && (forall c :: c in s.pushes ==> NumberOk(s.server, c.message.msgId, c.seqNo))
  }

  ghost predicate QueueOk(s: System) {
    forall r :: r in s.client.outbox ==> r.msgId in s.mine
  }

  ghost predicate Inv(s: System) {
    RowsOk(s) && QueueOk(s) && ServerOk(s.server) && NetworkOk(s) && NumbersOk(s)
  }

  // ---- the client's steps keep it ----

  lemma QueueStays(s: System, op: CR.Op, s': System)
    requires QueueOk(s) && (op.Draft? ==> op.msgId in s.mine)
    requires s'.client == CR.Step(s.client, op) && s'.mine == s.mine
    ensures QueueOk(s')
  {
    forall r' | r' in s'.client.outbox
      ensures r'.msgId in s'.mine
    {
      var r := Runs.StepRow(s.client, op, r');
    }
  }

  /** A step of the client that neither touches the message table nor confirms anything. */
  lemma QuietStep(s: System, op: CR.Op, s': System)
    requires Inv(s) && (op.Claim? || op.Finish? || op.Cancel? || op.MarkRead?)
    requires s'.client == CR.Step(s.client, op)
    requires s'.owner == s.owner && s'.mine == s.mine && s'.server == s.server && s'.replies == s.replies
    requires s'.pushes == s.pushes && s'.requests == s.requests && forall o :: o in s'.claimed ==> o in s.claimed || Authored(s, o.message)
    ensures Inv(s')
  {
    QueueStays(s, op, s');
    assert s'.client.messages == s.client.messages;
    forall id | id in s'.client.messages
      ensures RowOk(s', id)
    {
      assert RowOk(s, id);
      Runs.StepQueued(s.client, op, id);
    }
    assert forall m :: Authored(s, m) ==> Authored(s', m);
  }

  lemma ClaimKeeps(s: System, now: int, limit: int)
    requires Inv(s)
    ensures Inv(Next(s, Claim(now, limit)))
  {
    if !CR.ClaimFails(s.client, now, LEASE, limit) {
      var rows := CR.Picked(s.client.outbox, now, limit);
      var attempts := CR.AttemptsOf(rows);
      CR.ClaimAnswers(s.client.outbox, now, now + LEASE, limit);
      forall o | o in ClaimedNow(s, attempts)
        ensures Authored(s, o.message)
      {
        var a :| a in attempts && a.msgId in s.client.messages &&
                 o == Outgoing(Payload(s.owner, a.msgId, s.client.messages[a.msgId]), a.attempt);
        var i :| 0 <= i < |attempts| && attempts[i] == a;
        CR.PickedAreRows(s.client.outbox, now, limit, i);
        assert RowOk(s, a.msgId);
      }
      QuietStep(s, CR.Claim(now, LEASE, limit), Next(s, Claim(now, limit)));
    }
  }

  lemma NotOnServer(s: System, id: string)
    requires Inv(s) && id in s.mine && id !in s.client.messages
    ensures MS.Find(s.server, id).None?
  {
    MS.FindMeaning(s.server, id);
  }

  lemma DraftKeeps(s: System, msgId: string, row: CR.Row)
    requires Inv(s) && Enabled(s, Draft(msgId, row))
    ensures Inv(Next(s, Draft(msgId, row)))
  {
    var s' := Next(s, Draft(msgId, row));
    var op := CR.Draft(msgId, row);
    QueueStays(s, op, s');
    forall id | id in s'.client.messages
      ensures RowOk(s', id)
    {
      if id in s.client.messages {
        assert RowOk(s, id);
        Runs.StepQueued(s.client, op, id);
      } else {
        NotOnServer(s, id);
        var last := |s'.client.outbox| - 1;
        assert s'.client.outbox[last] in s'.client.outbox;
      }
    }
    forall m | Authored(s, m)
      ensures Authored(s', m)
    {
    }
  }

  lemma OtherRowOk(s: System, op: CR.Op, id: string, s': System, other: string)
    requires Inv(s) && ((op.Ack? && op.msgId == id) || (op.Merge? && op.msgId == id))
    requires s' == s.(client := CR.Step(s.client, op), inflight := s'.inflight)
    requires other in s'.client.messages && other != id
    ensures RowOk(s', other)
  {
    assert other in s.client.messages && s'.client.messages[other] == s.client.messages[other];
    assert RowOk(s, other);
    Runs.StepQueued(s.client, op, other);
  }

  /** Acknowledgements and copies change the row of one message and confirm it. */
  lemma OneRowStep(s: System, op: CR.Op, id: string, s': System)
    requires Inv(s) && ((op.Ack? && op.msgId == id) || (op.Merge? && op.msgId == id))
    requires s' == s.(client := CR.Step(s.client, op), inflight := s'.inflight)
    requires MS.Find(s.server, id).Some?
    requires id in s'.client.messages ==> RowOk(s', id)
    requires id in s.client.messages || id !in s.mine
    ensures Inv(s')
  {
    QueueStays(s, op, s');
    forall other | other in s'.client.messages && other != id
      ensures RowOk(s', other)
    {
      OtherRowOk(s, op, id, s', other);
    }
    forall m | Authored(s, m)
      ensures Authored(s', m)
    {
    }
  }

  lemma ReplyKeeps(s: System, r: Reply, retryAt: int)
    requires Inv(s) && Enabled(s, ReplyArrives(r, retryAt))
    ensures Inv(Next(s, ReplyArrives(r, retryAt)))
  {
    if Listens(s, r) {
      var s' := AfterReply(s, r, retryAt);
      if Accepts(r) {
        MS.FindMeaning(s.server, r.msgId);
        PositiveSeq(s.server, MS.Find(s.server, r.msgId).value);
        AckedRowOk(s, r.msgId, r.seqNo, if r.verdict.Succ? then 1 else 3, s');
      } else {
        QuietStep(s, CR.Finish(r.msgId, s.inflight[r.msgId], !r.verdict.ServerError?, if r.verdict.ServerError? then retryAt else 0), s');
      }
    }
  }

  lemma AckedRowOk(s: System, id: string, seqNo: int, status: int, s': System)
    requires Inv(s) && id in s.client.messages
    requires NumberOk(s.server, id, seqNo) && seqNo > 0 && 1 <= status <= 3
    requires s' == s.(client := CR.Step(s.client, CR.Ack(id, 0, seqNo, status)), inflight := s'.inflight)
    ensures Inv(s')
  {
    assert RowOk(s, id);
    Runs.StepQueued(s.client, CR.Ack(id, 0, seqNo, status), id);
    assert RowOk(s', id);
    OneRowStep(s, CR.Ack(id, 0, seqNo, status), id, s');
  }

  lemma PositiveSeq(server: seq<MS.Stored>, row: MS.Stored)
    requires MS.WellNumbered(server) && row in server
    ensures row.seqNo > 0
  {
    var i :| 0 <= i < |server| && server[i] == row;
  }

  lemma CopyHasNumber(s: System, c: Copy)
    requires Inv(s) && (Genuine(s.server, c) || c in s.pushes)
    ensures NumberOk(s.server, c.message.msgId, c.seqNo) && c.seqNo > 0
  {
    MS.FindMeaning(s.server, c.message.msgId);
    PositiveSeq(s.server, MS.Find(s.server, c.message.msgId).value);
  }

  lemma CopyKeeps(s: System, c: Copy, serverTime: int, roaming: bool)
    requires Inv(s) && Enabled(s, CopyArrives(c, serverTime, roaming))
    ensures Inv(Next(s, CopyArrives(c, serverTime, roaming)))
  {
    var id := c.message.msgId;
    CopyHasNumber(s, c);
    if id != "" && Concerns(s.owner, c.message) {
      var s' := Next(s, CopyArrives(c, serverTime, roaming));
      var op := CR.Merge(id, CopyOf(s.owner, c, serverTime), CR.Context(roaming, 0));
      CopiedRowOk(s, c, op, s');
      OneRowStep(s, op, id, s');
    }
  }

  lemma CopiedRowOk(s: System, c: Copy, op: CR.Op, s': System)
    requires Inv(s) && Concerns(s.owner, c.message) && NumberOk(s.server, c.message.msgId, c.seqNo) && c.seqNo > 0
    requires op.Merge? && op.msgId == c.message.msgId && op.row == CopyOf(s.owner, c, op.row.serverTime)
    requires s' == s.(client := CR.Step(s.client, op), inflight := s'.inflight)
    ensures op.msgId in s'.client.messages ==> RowOk(s', op.msgId)
    ensures op.msgId in s.mine ==> op.msgId in s.client.messages
  {
    MS.FindMeaning(s.server, op.msgId);
    if op.msgId in s.client.messages {
      assert RowOk(s, op.msgId);
      Runs.StepQueued(s.client, op, op.msgId);
    }
  }

  // ---- the server's steps keep it ----

  lemma FindSaved(server: seq<MS.Stored>, m: MS.Message, id: string)
    ensures MS.Find(server, id).Some? ==> MS.Find(MS.Saved(server, m), id) == MS.Find(server, id)
    ensures MS.Find(server, id).None? ==>
              MS.Find(MS.Saved(server, m), id) == if id == m.msgId then Some(MS.NewRow(server, m)) else None
  {
    if MS.Find(server, id).Some? {
      MS.FindIsStable(server, [MS.NewRow(server, m)], id);
    } else if id == m.msgId {
      MS.FindNewest(server, MS.NewRow(server, m));
    } else {
      MS.FindMeaning(server, id);
      MS.FindMeaning(MS.Saved(server, m), id);
    }
  }

  lemma SaveKeepsServerOk(server: seq<MS.Stored>, m: MS.Message)
    requires ServerOk(server)
    ensures ServerOk(MS.Saved(server, m))
  {
    MS.SaveKeepsNumbering(server, m);
  }

  lemma SaveKeepsNumbers(s: System, m: MS.Message, replies: set<Reply>, pushes: set<Copy>)
    requires NumbersOk(s)
    requires forall r :: r in replies && r !in s.replies && Accepts(r) ==>
               r.msgId in s.mine && NumberOk(MS.Saved(s.server, m), r.msgId, r.seqNo)
    requires forall c :: c in pushes && c !in s.pushes ==> NumberOk(MS.Saved(s.server, m), c.message.msgId, c.seqNo)
    ensures NumbersOk(s.(server := MS.Saved(s.server, m), replies := replies, pushes := pushes))
  {
    forall id
      ensures MS.Find(s.server, id).Some? ==> MS.Find(MS.Saved(s.server, m), id) == MS.Find(s.server, id)
    {
      FindSaved(s.server, m, id);
    }
  }

  lemma SaveKeepsRows(s: System, m: MS.Message)
    requires Inv(s)
    ensures RowsOk(s.(server := MS.Saved(s.server, m)))
  {
    var s' := s.(server := MS.Saved(s.server, m));
    forall id | id in s'.client.messages
      ensures RowOk(s', id)
    {
      assert RowOk(s, id);
      FindSaved(s.server, m, id);
    }
  }

  /** A save and what is sent because of it. */
  lemma SaveKeeps(s: System, m: MS.Message, replies: set<Reply>, pushes: set<Copy>)
    requires Inv(s) && (m.msgId in s.mine ==> Authored(s, m) || MS.Find(s.server, m.msgId).Some?)
    requires forall r :: r in replies && r !in s.replies && Accepts(r) ==>
               r.msgId in s.mine && NumberOk(MS.Saved(s.server, m), r.msgId, r.seqNo)
    requires forall c :: c in pushes && c !in s.pushes ==> NumberOk(MS.Saved(s.server, m), c.message.msgId, c.seqNo)
    ensures Inv(s.(server := MS.Saved(s.server, m), replies := replies, pushes := pushes))
  {
    var s' := s.(server := MS.Saved(s.server, m), replies := replies, pushes := pushes);
    SaveKeepsServerOk(s.server, m);
    SaveKeepsRows(s, m);
    assert forall id :: id in s.client.messages && RowOk(s.(server := MS.Saved(s.server, m)), id) ==> RowOk(s', id);
    SaveKeepsNumbers(s, m, replies, pushes);
    assert forall m' :: Authored(s, m') ==> Authored(s', m');
  }

  /** A request that is not saved is only answered. */
  lemma RefusalKeeps(s: System, r: Reply)
    requires Inv(s) && !Accepts(r)
    ensures Inv(s.(replies := s.replies + {r}))
  {
    var s' := s.(replies := s.replies + {r});
    assert forall id :: id in s.client.messages && RowOk(s, id) ==> RowOk(s', id);
    assert forall m :: Authored(s, m) ==> Authored(s', m);
  }

  lemma SavedNumber(server: seq<MS.Stored>, m: MS.Message)
    ensures MS.Find(MS.Saved(server, m), m.msgId).Some?
  {
    FindSaved(server, m, m.msgId);
  }

  lemma AnswerKeeps(s: System, m: MS.Message, online: bool)
    requires Inv(s) && m in s.requests
    ensures Inv(Next(s, Serve(m, Save(online))))
  {
    var table := MS.Saved(s.server, m);
    SavedNumber(s.server, m);
    assert Authored(s, m);
    SaveKeeps(s, m, s.replies + {ReplyTo(m, Save(online), table)}, s.pushes + PushOf(m, online, table));
  }

  lemma ServeKeeps(s: System, m: MS.Message, outcome: Outcome)
    requires Inv(s) && m in s.requests
    ensures Inv(Next(s, Serve(m, outcome)))
  {
    if outcome.Save? {
      AnswerKeeps(s, m, outcome.online);
    } else {
      RefusalKeeps(s, ReplyTo(m, outcome, s.server));
      assert s.pushes + PushOf(m, false, s.server) == s.pushes;
    }
  }

  lemma SendKeeps(s: System, m: MS.Message, online: bool)
    requires Inv(s) && Enabled(s, SomeoneSends(m, online))
    ensures Inv(Next(s, SomeoneSends(m, online)))
  {
    SavedNumber(s.server, m);
    SaveKeeps(s, m, s.replies, s.pushes + PushOf(m, online, MS.Saved(s.server, m)));
  }

  lemma StepKeepsInv(s: System, a: Action)
    requires Inv(s) && Enabled(s, a)
    ensures Inv(Next(s, a))
  {
    match a
    case Draft(msgId, row) => DraftKeeps(s, msgId, row);
    case Claim(now, limit) => ClaimKeeps(s, now, limit);
    case SendFails(o, retryAt) => QuietStep(s, CR.Finish(o.message.msgId, o.attempt, false, retryAt), Next(s, a));
    case Serve(m, outcome) => ServeKeeps(s, m, outcome);
    case SomeoneSends(m, online) => SendKeeps(s, m, online);
    case ReplyArrives(r, retryAt) => ReplyKeeps(s, r, retryAt);
    case CopyArrives(c, serverTime, roaming) => CopyKeeps(s, c, serverTime, roaming);
    case Cancel(msgId) => QuietStep(s, CR.Cancel(msgId), Next(s, a));
    case MarkRead(conversation, readSeq) => QuietStep(s, CR.MarkRead(conversation, readSeq), Next(s, a));
    case Transmit(o) => NetworkStep(s, Next(s, a));
    case Track(o) => NetworkStep(s, Next(s, a));
    case Restart => NetworkStep(s, Next(s, a));
  }

  lemma NetworkStep(s: System, s': System)
    requires Inv(s) && s'.owner == s.owner && s'.mine == s.mine && s'.client == s.client && s'.server == s.server
    requires s'.replies == s.replies && s'.pushes == s.pushes && s'.claimed <= s.claimed
    requires forall m :: m in s'.requests ==> m in s.requests || exists o :: o in s.claimed && o.message == m
    ensures Inv(s')
  {
    assert forall id :: id in s.client.messages && RowOk(s, id) ==> RowOk(s', id);
    assert forall m :: Authored(s, m) ==> Authored(s', m);
  }

  // ---- what holds in every run ----

  lemma InitInv(owner: int, mine: set<string>)
    ensures Inv(Init(owner, mine))
  {
  }

  lemma {:induction false} RunKeepsInv(start: System, actions: seq<Action>, end: System)
    requires Inv(start) && Run(start, actions, end)
    ensures Inv(end)
    decreases |actions|
  {
    if actions != [] {
      StepKeepsInv(start, actions[0]);
      RunKeepsInv(Next(start, actions[0]), actions[1..], end);
    }
  }

  /**
   However requests and replies are lost, repeated and reordered: the server stores a message
   once, all accepting replies to it carry one number, the client never shows another number
   for it, and it leaves the outbox only when the server holds exactly what was written. It shows
   as being sent exactly as long as it is queued.
   */
  lemma ReliableDelivery(owner: int, mine: set<string>, actions: seq<Action>, s: System)
    requires Run(Init(owner, mine), actions, s)
    ensures forall i, j :: 0 <= i < j < |s.server| ==> s.server[i].message.msgId != s.server[j].message.msgId
    ensures forall r1, r2 :: r1 in s.replies && r2 in s.replies && r1.msgId == r2.msgId && Accepts(r1) && Accepts(r2) ==>
              r1.seqNo == r2.seqNo
    ensures forall id :: id in s.client.messages && s.client.messages[id].seqNo != 0 ==>
              MS.Find(s.server, id).Some? && MS.Find(s.server, id).value.seqNo == s.client.messages[id].seqNo
    ensures forall id :: id in mine && id in s.client.messages && !Runs.Queued(s.client, id) ==>
              MS.Find(s.server, id).Some? && MS.Find(s.server, id).value.message == Payload(owner, id, s.client.messages[id])
    ensures forall id :: id in mine && id in s.client.messages ==>
              (Runs.Queued(s.client, id) <==> s.client.messages[id].status == 0) && 0 <= s.client.messages[id].status <= 3
  {
    InitInv(owner, mine);
    RunKeepsInv(Init(owner, mine), actions, s);
    RunConstants(Init(owner, mine), actions, s);
    forall id | id in s.client.messages
      ensures s.client.messages[id].seqNo != 0 ==>
                MS.Find(s.server, id).Some? && MS.Find(s.server, id).value.seqNo == s.client.messages[id].seqNo
      ensures id in mine && !Runs.Queued(s.client, id) ==>
                MS.Find(s.server, id).Some? && MS.Find(s.server, id).value.message == Payload(owner, id, s.client.messages[id])
      ensures id in mine ==>
                (Runs.Queued(s.client, id) <==> s.client.messages[id].status == 0) && 0 <= s.client.messages[id].status <= 3
    {
      assert RowOk(s, id);
      MS.FindMeaning(s.server, id);
    }
    forall r1, r2 | r1 in s.replies && r2 in s.replies && r1.msgId == r2.msgId && Accepts(r1) && Accepts(r2)
      ensures r1.seqNo == r2.seqNo
    {
      assert NumberOk(s.server, r1.msgId, r1.seqNo) && NumberOk(s.server, r2.msgId, r2.seqNo);
    }
  }

  lemma {:induction false} RunConstants(start: System, actions: seq<Action>, end: System)
    requires Run(start, actions, end)
    ensures end.owner == start.owner && end.mine == start.mine
    decreases |actions|
  {
    if actions != [] {
      RunConstants(Next(start, actions[0]), actions[1..], end);
    }
  }

  /** What one step leaves of a message: the server's row as it was, the client's at most filled in. */
  ghost predicate Kept(s: System, s': System, id: string) {
    && (MS.Find(s.server, id).Some? ==> MS.Find(s'.server, id) == MS.Find(s.server, id))
    && (id in s.client.messages ==> id in s'.client.messages && Runs.Refines(s.client.messages[id], s'.client.messages[id]))
  }

  lemma ClientStepKeeps(client: CR.Db, op: CR.Op, id: string)
    requires id in client.messages
    ensures id in CR.Step(client, op).messages && Runs.Refines(client.messages[id], CR.Step(client, op).messages[id])
  {
    assert CR.Run(CR.Step(client, op), []) == CR.Step(client, op);
    assert CR.Run(client, [op]) == CR.Run(CR.Step(client, op), [op][1..]);
    Runs.MessagesRefine(client, [op], id);
  }

  lemma StepKeeps(s: System, a: Action, id: string)
    ensures Kept(s, Next(s, a), id)
  {
    match a
    case Serve(m, _) => FindSaved(s.server, m, id);
    case SomeoneSends(m, _) => FindSaved(s.server, m, id);
    case _ => if id in s.client.messages { ClientStepsKeep(s.client, id); }
  }

  lemma ClientStepsKeep(client: CR.Db, id: string)
    requires id in client.messages
    ensures forall op :: id in CR.Step(client, op).messages && Runs.Refines(client.messages[id], CR.Step(client, op).messages[id])
  {
    forall op
      ensures id in CR.Step(client, op).messages && Runs.Refines(client.messages[id], CR.Step(client, op).messages[id])
    {
      ClientStepKeeps(client, op, id);
    }
  }

  /** A number once known, on either side, stays for the rest of every run. */
  lemma {:induction false} NumbersAreForever(s: System, actions: seq<Action>, end: System, id: string)
    requires Run(s, actions, end)
    ensures Kept(s, end, id)
    decreases |actions|
  {
    if actions != [] {
      StepKeeps(s, actions[0], id);
      NumbersAreForever(Next(s, actions[0]), actions[1..], end, id);
    }
  }
}
