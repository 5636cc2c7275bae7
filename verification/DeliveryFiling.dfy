/**
 Under which conversation the client files what it sends and receives.

 A draft is filed under the conversation its caller names, a copy from the server under its
 peer. A conversation is opened by the first message that is filed under it. This module says
 which conversations that leaves in every run.
 */
module DeliveryFiling {
  import opened WireFormat
  import opened Delivery
  import CR = ClientRepository
  import Runs = ClientRuns
  import Answers = ClientAnswers

  /** Message `id` was drafted for `peer` under conversation `c`. */
  predicate DraftedUnder(client: CR.Db, mine: set<string>, id: string, c: int, peer: int) {
    id in client.messages && id in mine && client.messages[id].conversation == c && client.messages[id].peer == peer
  }

  /** A conversation is that of its own peer, unless a draft opened it for another. */
  ghost predicate WellOpened(client: CR.Db, mine: set<string>, c: int)
    requires c in client.conversations
  {
    client.conversations[c].peer == c || exists id :: DraftedUnder(client, mine, id, c, client.conversations[c].peer)
  }

  ghost predicate Filed(client: CR.Db, mine: set<string>) {
    && "" !in client.messages
    && (forall id :: id in client.messages ==> client.messages[id].conversation == client.messages[id].peer || id in mine)
    && (forall c :: c in client.conversations ==> WellOpened(client, mine, c))
  }

  /** Every message is filed under its peer. */
  predicate InPlace(client: CR.Db) {
    forall id :: id in client.messages ==> client.messages[id].conversation == client.messages[id].peer
  }

  /** What a caller can see to: every draft names its peer as conversation. */
  predicate DraftsInPlace(actions: seq<Action>) {
    forall a :: a in actions && a.Draft? ==> a.row.conversation == a.row.peer
  }

  // ---- one step ----

  lemma StepMessage(client: CR.Db, op: CR.Op, id: string)
    requires id in CR.Step(client, op).messages && id !in client.messages
    ensures id != "" && ((op.Draft? && op.msgId == id) || (op.Merge? && op.msgId == id))
    ensures CR.Step(client, op).messages[id].conversation == op.row.conversation && CR.Step(client, op).messages[id].peer == op.row.peer
  {
  }

  lemma StepConversation(client: CR.Db, op: CR.Op, c: int)
    requires c in CR.Step(client, op).conversations
    ensures (c in client.conversations && CR.Step(client, op).conversations[c].peer == client.conversations[c].peer) ||
            ((op.Draft? || op.Merge?) && op.msgId !in client.messages && op.msgId in CR.Step(client, op).messages &&
             c == op.row.conversation && CR.Step(client, op).conversations[c].peer == op.row.peer)
  {
  }

  lemma StepKeepsFiled(client: CR.Db, mine: set<string>, op: CR.Op)
    requires Filed(client, mine) && (op.Draft? ==> op.msgId in mine) && (op.Merge? ==> op.row.conversation == op.row.peer)
    ensures Filed(CR.Step(client, op), mine)
  {
    var client' := CR.Step(client, op);
    forall id | id in client'.messages
      ensures id != "" && (client'.messages[id].conversation == client'.messages[id].peer || id in mine)
    {
      if id in client.messages {
        ClientStepKeeps(client, op, id);
      } else {
        StepMessage(client, op, id);
      }
    }
    forall c | c in client'.conversations
      ensures WellOpened(client', mine, c)
    {
      StepKeepsOpened(client, mine, op, c);
    }
  }

  lemma StepKeepsOpened(client: CR.Db, mine: set<string>, op: CR.Op, c: int)
    requires Filed(client, mine) && (op.Draft? ==> op.msgId in mine) && (op.Merge? ==> op.row.conversation == op.row.peer)
    requires c in CR.Step(client, op).conversations
    ensures WellOpened(CR.Step(client, op), mine, c)
  {
    var client' := CR.Step(client, op);
    StepConversation(client, op, c);
    if c in client.conversations && client'.conversations[c].peer == client.conversations[c].peer {
      assert WellOpened(client, mine, c);
      if client.conversations[c].peer != c {
        var id :| DraftedUnder(client, mine, id, c, client.conversations[c].peer);
        ClientStepKeeps(client, op, id);
        assert DraftedUnder(client', mine, id, c, client'.conversations[c].peer);
      }
    } else {
      StepMessage(client, op, op.msgId);
      assert op.Draft? ==> DraftedUnder(client', mine, op.msgId, c, client'.conversations[c].peer);
    }
  }

  lemma StepKeepsInPlace(client: CR.Db, op: CR.Op)
    requires InPlace(client) && (op.Draft? || op.Merge? ==> op.row.conversation == op.row.peer)
    ensures InPlace(CR.Step(client, op))
  {
    forall id | id in CR.Step(client, op).messages
      ensures CR.Step(client, op).messages[id].conversation == CR.Step(client, op).messages[id].peer
    {
      if id in client.messages {
        ClientStepKeeps(client, op, id);
      } else {
        StepMessage(client, op, id);
      }
    }
  }

  /** The operation on the client's tables that an action amounts to. */
  lemma ClientOp(s: System, a: Action) returns (op: Option<CR.Op>)
    requires Enabled(s, a)
    ensures Next(s, a).client == if op.Some? then CR.Step(s.client, op.value) else s.client
    ensures op.Some? && op.value.Draft? ==> a == Draft(op.value.msgId, op.value.row) && op.value.msgId in s.mine
    ensures op.Some? && op.value.Merge? ==> op.value.row.conversation == op.value.row.peer
  {
    match a
    case Draft(msgId, row) =>
      op := Some(CR.Draft(msgId, row));
    case Claim(now, limit) => op := Some(CR.Claim(now, LEASE, limit));
    case SendFails(o, retryAt) => op := Some(CR.Finish(o.message.msgId, o.attempt, false, retryAt));
    case ReplyArrives(r, retryAt) => op := if Listens(s, r) then ReplyOp(s, r, retryAt) else None;
    case CopyArrives(c, serverTime, roaming) =>
      op := if c.message.msgId == "" || c.seqNo == 0 || !Concerns(s.owner, c.message) then None
            else Some(CR.Merge(c.message.msgId, CopyOf(s.owner, c, serverTime), CR.Context(roaming, 0)));
    case Cancel(msgId) => op := Some(CR.Cancel(msgId));
    case MarkRead(conversation, readSeq) => op := Some(CR.MarkRead(conversation, readSeq));
    case _ => op := None;
  }

  function ReplyOp(s: System, r: Reply, retryAt: int): Option<CR.Op>
    requires Listens(s, r)
  {
    match r.verdict
    case Succ => if r.seqNo <= 0 then None else Some(CR.Ack(r.msgId, 0, r.seqNo, 1))
    case Fail => if r.seqNo <= 0 then None else Some(CR.Ack(r.msgId, 0, r.seqNo, 3))
    case ServerError => Some(CR.Finish(r.msgId, s.inflight[r.msgId], false, retryAt))
    case _ => Some(CR.Finish(r.msgId, s.inflight[r.msgId], true, 0))
  }

  // ---- every run ----

  /**
   In every run a message is filed under its peer unless it is a draft, and a conversation is that
   of its own peer unless a draft opened it for another.
   */
  lemma {:induction false} RunKeepsFiled(s: System, actions: seq<Action>, end: System)
    requires Filed(s.client, s.mine) && Run(s, actions, end)
    ensures Filed(end.client, end.mine)
    decreases |actions|
  {
    if actions != [] {
      var op := ClientOp(s, actions[0]);
      if op.Some? {
        StepKeepsFiled(s.client, s.mine, op.value);
      }
      RunKeepsFiled(Next(s, actions[0]), actions[1..], end);
    }
  }

  /** In every run of client, server and network the client's tables are as its own runs leave them. */
  lemma {:induction false} RunKeepsTables(s: System, actions: seq<Action>, end: System)
    requires Runs.Sound(s.client) && Answers.Regular(s.client) && Run(s, actions, end)
    ensures Runs.Sound(end.client) && Answers.Regular(end.client)
    decreases |actions|
  {
    if actions != [] {
      var op := ClientOp(s, actions[0]);
      if op.Some? {
        Runs.StepKeepsSound(s.client, op.value);
        Answers.StepKeepsRegular(s.client, op.value);
      }
      RunKeepsTables(Next(s, actions[0]), actions[1..], end);
    }
  }

  /** If every draft names its peer, everything is in place in every run. */
  lemma {:induction false} RunKeepsInPlace(s: System, actions: seq<Action>, end: System)
    requires InPlace(s.client) && Run(s, actions, end) && DraftsInPlace(actions)
    ensures InPlace(end.client)
    decreases |actions|
  {
    if actions != [] {
      var op := ClientOp(s, actions[0]);
      assert actions[0] in actions;
      if op.Some? {
        StepKeepsInPlace(s.client, op.value);
      }
      RunKeepsInPlace(Next(s, actions[0]), actions[1..], end);
    }
  }

  /** Only a draft under another conversation can take a peer's conversation away. */
  lemma TakenByDraft(client: CR.Db, mine: set<string>, peer: int)
    requires Filed(client, mine) && CR.PeerTaken(client.conversations, peer, peer)
    ensures exists id, c :: c != peer && DraftedUnder(client, mine, id, c, peer)
  {
    var c :| c in client.conversations && client.conversations[c].peer == peer;
    assert WellOpened(client, mine, c);
    var id :| DraftedUnder(client, mine, id, c, peer);
  }
}
