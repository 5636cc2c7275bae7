/**
 When the client takes what the server sends.

 Two things can make the client refuse. A push carries the request that was served: if that
 request reused the id of another message, the client files the id under the wrong peer, with a
 number that belongs to another conversation, and may later find the number it really needs
 taken. And a draft may be filed under a conversation that is not its peer: then the server's
 copy of it does not fit, and the peer's own conversation cannot be opened. This module says
 exactly when each happens, shows a run for each, and proves that nothing else can go wrong.
 */
module DeliverySettles {
  import opened WireFormat
  import opened Delivery
  import opened DeliveryFiling
  import CR = ClientRepository
  import Runs = ClientRuns
  import Answers = ClientAnswers
  import MS = MessageStore

  /** A client row and the server's row of the same message tell the same story. */
  predicate Agree(owner: int, row: CR.Row, m: MS.Message) {
    && row.kind == m.kind && row.content == m.content
    && m.sender == (if row.fromMe then owner else row.peer)
    && m.receiver == (if row.fromMe then row.peer else owner)
    && (row.fromMe || row.peer != owner)
  }

  /** The client has the id, but not the message the server has under it. */
  ghost predicate Misfiled(s: System, id: string) {
    id in s.client.messages && MS.Find(s.server, id).Some? &&
    !Agree(s.owner, s.client.messages[id], MS.Find(s.server, id).value.message)
  }

  /** A misfiled message sits on the number that `id` needs. */
  ghost predicate Blocked(s: System, id: string, peer: int, seqNo: int) {
    (id in s.client.messages ==> s.client.messages[id].seqNo == 0) &&
    exists other :: other in s.client.messages && other != id && Misfiled(s, other) &&
      s.client.messages[other].peer == peer && s.client.messages[other].seqNo == seqNo
  }

  /** The client's own messages are never misfiled. */
  lemma OwnAgree(s: System, id: string)
    requires Inv(s) && id in s.mine && id in s.client.messages
    ensures !Misfiled(s, id)
  {
    MS.FindMeaning(s.server, id);
    assert RowOk(s, id);
  }

  // ---- who can take a number ----

  lemma SameNumberSameMessage(s: System, id: string, other: string)
    requires Inv(s) && MS.Find(s.server, id).Some? && MS.Find(s.server, other).Some?
    requires MS.Find(s.server, id).value.seqNo == MS.Find(s.server, other).value.seqNo
    requires MS.Find(s.server, id).value.conversation == MS.Find(s.server, other).value.conversation
    ensures id == other
  {
    var a, b := MS.Find(s.server, id).value, MS.Find(s.server, other).value;
    MS.FindMeaning(s.server, id);
    MS.FindMeaning(s.server, other);
    MS.SeqsAreExactlyOneToN(s.server, a.conversation, a.seqNo);
    var i :| 0 <= i < |s.server| && s.server[i] == a;
    var j :| 0 <= j < |s.server| && s.server[j] == b;
    assert i == j;
  }

  predicate Between(m: MS.Message, a: int, b: int) {
    (m.sender == a && m.receiver == b) || (m.sender == b && m.receiver == a)
  }

  lemma ConversationOf(s: System, id: string, peer: int)
    requires Inv(s) && MS.Find(s.server, id).Some? && Between(MS.Find(s.server, id).value.message, s.owner, peer)
    ensures MS.Find(s.server, id).value.conversation == MS.ConversationId(s.owner, peer)
  {
    MS.FindMeaning(s.server, id);
  }

  /** Whoever holds the number a message of this conversation has is misfiled. */
  lemma TakerIsMisfiled(s: System, id: string, peer: int, seqNo: int, other: string)
    requires Inv(s) && NumberOk(s.server, id, seqNo) && Between(MS.Find(s.server, id).value.message, s.owner, peer)
    requires other in s.client.messages && other != id && seqNo > 0
    requires s.client.messages[other].peer == peer && s.client.messages[other].seqNo == seqNo
    ensures Misfiled(s, other)
  {
    assert RowOk(s, other);
    if !Misfiled(s, other) {
      ConversationOf(s, id, peer);
      ConversationOf(s, other, peer);
      SameNumberSameMessage(s, id, other);
    }
  }

  lemma TakenMeansBlocked(s: System, id: string, peer: int, seqNo: int)
    requires Inv(s) && NumberOk(s.server, id, seqNo) && Between(MS.Find(s.server, id).value.message, s.owner, peer) && seqNo > 0
    ensures CR.SeqTaken(s.client.messages, id, peer, seqNo) <==>
            exists other :: other in s.client.messages && other != id && Misfiled(s, other) &&
              s.client.messages[other].peer == peer && s.client.messages[other].seqNo == seqNo
  {
    forall other | other in s.client.messages && other != id && s.client.messages[other].peer == peer && s.client.messages[other].seqNo == seqNo
      ensures Misfiled(s, other)
    {
      TakerIsMisfiled(s, id, peer, seqNo, other);
    }
  }

  // ---- when acknowledgements and copies are taken ----

  lemma OwnMessage(s: System, id: string, seqNo: int)
    requires Inv(s) && id in s.mine && NumberOk(s.server, id, seqNo)
    ensures id in s.client.messages && s.client.messages[id].fromMe && seqNo > 0
    ensures MS.Find(s.server, id).value.message == Payload(s.owner, id, s.client.messages[id])
  {
    MS.FindMeaning(s.server, id);
    PositiveSeq(s.server, MS.Find(s.server, id).value);
    assert Authored(s, MS.Find(s.server, id).value.message);
  }

  /** An acknowledgement is refused if and only if a misfiled message sits on its number. */
  lemma AcksAreAccepted(s: System, r: Reply)
    requires Inv(s) && r in s.replies && Accepts(r)
    ensures r.msgId in s.client.messages
    ensures CR.AckFails(s.client, r.msgId, r.seqNo, if r.verdict.Succ? then 1 else 3) <==>
            Blocked(s, r.msgId, s.client.messages[r.msgId].peer, r.seqNo)
  {
    OwnMessage(s, r.msgId, r.seqNo);
    assert RowOk(s, r.msgId);
    TakenMeansBlocked(s, r.msgId, s.client.messages[r.msgId].peer, r.seqNo);
  }

  /** The client has filed the id under another peer, conversation, direction or kind. */
  predicate FiledElsewhere(s: System, c: Copy) {
    c.message.msgId in s.client.messages &&
    var row, copy := s.client.messages[c.message.msgId], CopyOf(s.owner, c, 0);
    row.peer != copy.peer || row.conversation != copy.conversation || row.fromMe != copy.fromMe || row.kind != copy.kind
  }

  /** The message is new, its conversation is not open, and another conversation has its peer. */
  predicate Homeless(s: System, c: Copy) {
    c.message.msgId !in s.client.messages && CR.PeerTaken(s.client.conversations, CopyOf(s.owner, c, 0).peer, CopyOf(s.owner, c, 0).peer)
  }

  /**
   A copy of a stored message that concerns the owner is refused if and only if the id was filed
   elsewhere, its conversation cannot be opened, or a misfiled message sits on its number.
   */
  lemma CopiesAreAccepted(s: System, c: Copy, serverTime: int)
    requires Inv(s) && Genuine(s.server, c) && c.message.msgId != "" && Concerns(s.owner, c.message)
    ensures CR.MergeFails(s.client, c.message.msgId, CopyOf(s.owner, c, serverTime)) <==>
            FiledElsewhere(s, c) || Homeless(s, c) || Blocked(s, c.message.msgId, CopyOf(s.owner, c, 0).peer, c.seqNo)
  {
    var id, copy := c.message.msgId, CopyOf(s.owner, c, serverTime);
    CopyHasNumber(s, c);
    if id in s.client.messages {
      assert RowOk(s, id);
    }
    TakenMeansBlocked(s, id, copy.peer, c.seqNo);
  }

  /** Only a draft under another conversation makes a copy homeless. */
  lemma HomelessByDraft(s: System, c: Copy)
    requires Filed(s.client, s.mine) && Homeless(s, c)
    ensures var peer := CopyOf(s.owner, c, 0).peer;
            exists id, k :: k != peer && DraftedUnder(s.client, s.mine, id, k, peer)
  {
    TakenByDraft(s.client, s.mine, CopyOf(s.owner, c, 0).peer);
  }

  // ---- one round trip ----

  ghost predicate Settled(s: System, id: string, status: int) {
    !Runs.Queued(s.client, id) && id in s.client.messages && MS.Find(s.server, id).Some? &&
    s.client.messages[id].seqNo == MS.Find(s.server, id).value.seqNo > 0 && s.client.messages[id].status == status
  }

  /** How a message shows after an accepting reply: delivered or not, unless it was settled before. */
  function Shown(s: System, id: string, verdict: Verdict): int
    requires id in s.client.messages
  {
    if s.client.messages[id].status != 0 then s.client.messages[id].status else if verdict.Succ? then 1 else 3
  }

  lemma AckSettles(s: System, r: Reply, attempt: int, retryAt: int)
    requires Inv(s) && r in s.replies && Accepts(r) && r.msgId in s.client.messages && r.seqNo > 0
    requires !CR.AckFails(s.client, r.msgId, r.seqNo, if r.verdict.Succ? then 1 else 3)
    ensures var client := OnReply(s.client, r, attempt, retryAt);
            !Runs.Queued(client, r.msgId) && r.msgId in client.messages && client.messages[r.msgId].seqNo == r.seqNo &&
            client.messages[r.msgId].status == Shown(s, r.msgId, r.verdict)
  {
    assert RowOk(s, r.msgId);
    var client := OnReply(s.client, r, attempt, retryAt);
    forall row | row in client.outbox
      ensures row.msgId != r.msgId
    {
      Runs.WithoutRows(s.client.outbox, r.msgId, row);
    }
  }

  /** A reply the client listens for settles its message if and only if the number is not blocked. */
  lemma ReplySettles(s: System, r: Reply, retryAt: int)
    requires Inv(s) && r in s.replies && Accepts(r) && Listens(s, r)
    ensures Settled(AfterReply(s, r, retryAt), r.msgId, Shown(s, r.msgId, r.verdict)) <==> !Blocked(s, r.msgId, s.client.messages[r.msgId].peer, r.seqNo)
  {
    OwnMessage(s, r.msgId, r.seqNo);
    AcksAreAccepted(s, r);
    if !CR.AckFails(s.client, r.msgId, r.seqNo, if r.verdict.Succ? then 1 else 3) {
      AckSettles(s, r, s.inflight[r.msgId], retryAt);
    } else {
      assert AfterReply(s, r, retryAt).client == s.client;
    }
  }

  lemma ServedRequest(s: System, m: MS.Message, online: bool)
    requires Inv(s) && m in s.requests
    ensures var s' := Next(s, Serve(m, Save(online)));
            var r := ReplyTo(m, Save(online), s'.server);
            Inv(s') && r in s'.replies && Accepts(r) && r.msgId == m.msgId && r.peer == m.receiver &&
            NumberOk(s'.server, m.msgId, r.seqNo) && s'.client == s.client && s'.inflight == s.inflight
  {
    StepKeepsInv(s, Serve(m, Save(online)));
    SavedNumber(s.server, m);
  }

  /**
   One complete round trip, whatever happened to earlier attempts, settles a message if and only
   if no misfiled message sits on its number: it leaves the outbox, shows the server's number, and
   shows as delivered exactly if the peer was online when it was settled first.
   */
  lemma RoundTripSettles(s: System, o: Outgoing, online: bool, retryAt: int, served: System, r: Reply)
    requires Inv(s) && o in s.claimed && o.message in s.requests && o.attempt > 0
    requires served == Next(Next(s, Track(o)), Serve(o.message, Save(online)))
    requires r == ReplyTo(o.message, Save(online), served.server)
    ensures Enabled(served, ReplyArrives(r, retryAt))
    ensures Settled(Next(served, ReplyArrives(r, retryAt)), o.message.msgId, Shown(served, o.message.msgId, if online then Succ else Fail)) <==>
            !Blocked(served, o.message.msgId, o.message.receiver, r.seqNo)
  {
    var tracked := Next(s, Track(o));
    assert Authored(s, o.message);
    StepKeepsInv(s, Track(o));
    ServedRequest(tracked, o.message, online);
    assert Listens(served, r);
    ReplySettles(served, r, retryAt);
  }

  /** Some row of the message will never be claimed again. */
  predicate Halted(client: CR.Db, id: string) {
    exists r :: r in client.outbox && r.msgId == id && r.nextRetryAt == CR.INT64_MAX
  }

  /**
   In every run: an attempt that was claimed, sent and refused for good is the last one. The number
   the claim answered is the one under which the result is reported.
   */
  lemma RefusedAttemptIsLast(owner: int, mine: set<string>, actions: seq<Action>, s: System, now: int, limit: int, o: Outgoing, retryAt: int)
    requires Run(Init(owner, mine), actions, s) && !CR.ClaimFails(s.client, now, LEASE, limit)
    requires o in ClaimedNow(s, CR.AttemptsOf(CR.Picked(s.client.outbox, now, limit)))
    ensures var tracked := Next(Next(Next(s, Claim(now, limit)), Transmit(o)), Track(o));
            var served := Next(tracked, Serve(o.message, Refuse));
            var r := ReplyTo(o.message, Refuse, served.server);
            Enabled(served, ReplyArrives(r, retryAt)) && Halted(Next(served, ReplyArrives(r, retryAt)).client, o.message.msgId)
  {
    InitInv(owner, mine);
    RunKeepsInv(Init(owner, mine), actions, s);
    RunKeepsTables(Init(owner, mine), actions, s);
    var i, a := ClaimedAttempt(s, now, limit, o);
    RefusalHalts(s.client, now, limit, i, a);
    RefusalArrives(s, now, limit, a, retryAt);
  }

  lemma ClaimedAttempt(s: System, now: int, limit: int, o: Outgoing) returns (i: nat, a: CR.Attempt)
    requires Inv(s) && !CR.ClaimFails(s.client, now, LEASE, limit)
    requires o in ClaimedNow(s, CR.AttemptsOf(CR.Picked(s.client.outbox, now, limit)))
    ensures i < |CR.AttemptsOf(CR.Picked(s.client.outbox, now, limit))| && CR.AttemptsOf(CR.Picked(s.client.outbox, now, limit))[i] == a
    ensures a.msgId in s.client.messages && s.client.messages[a.msgId].fromMe
    ensures o == Outgoing(Payload(s.owner, a.msgId, s.client.messages[a.msgId]), a.attempt)
  {
    var attempts := CR.AttemptsOf(CR.Picked(s.client.outbox, now, limit));
    a :| a in attempts && a.msgId in s.client.messages && o == Outgoing(Payload(s.owner, a.msgId, s.client.messages[a.msgId]), a.attempt);
    i :| 0 <= i < |attempts| && attempts[i] == a;
    CR.ClaimAnswers(s.client.outbox, now, now + LEASE, limit);
    CR.PickedAreRows(s.client.outbox, now, limit, i);
    assert RowOk(s, a.msgId);
  }

  /** From the claim to the refusal: what the client does with the reply. */
  lemma RefusalArrives(s: System, now: int, limit: int, a: CR.Attempt, retryAt: int)
    requires a.msgId in s.client.messages && s.client.messages[a.msgId].fromMe && a.attempt > 0
    requires !CR.ClaimFails(s.client, now, LEASE, limit)
    ensures var o := Outgoing(Payload(s.owner, a.msgId, s.client.messages[a.msgId]), a.attempt);
            o in Next(s, Claim(now, limit)).claimed ==>
              var tracked := Next(Next(Next(s, Claim(now, limit)), Transmit(o)), Track(o));
              var served := Next(tracked, Serve(o.message, Refuse));
              var r := ReplyTo(o.message, Refuse, served.server);
              Enabled(served, ReplyArrives(r, retryAt)) &&
              Next(served, ReplyArrives(r, retryAt)).client ==
              CR.Step(CR.Step(s.client, CR.Claim(now, LEASE, limit)), CR.Finish(a.msgId, a.attempt, true, 0))
  {
  }

  lemma RefusalHalts(client: CR.Db, now: int, limit: int, i: nat, a: CR.Attempt)
    requires Runs.Sound(client) && Answers.Regular(client) && !CR.ClaimFails(client, now, LEASE, limit)
    requires i < |CR.AttemptsOf(CR.Picked(client.outbox, now, limit))| && CR.AttemptsOf(CR.Picked(client.outbox, now, limit))[i] == a
    ensures a.attempt > 0 && Halted(CR.Step(CR.Step(client, CR.Claim(now, LEASE, limit)), CR.Finish(a.msgId, a.attempt, true, 0)), a.msgId)
  {
    var claimed, until := CR.Step(client, CR.Claim(now, LEASE, limit)), now + LEASE;
    CR.ClaimAnswers(client.outbox, now, until, limit);
    assert CR.LeasedTo(claimed.outbox, a, until);
    var r :| r in claimed.outbox && r.msgId == a.msgId && r.localOrder == a.localOrder && r.retryCount == a.attempt && r.nextRetryAt == until;
    Runs.StepKeepsSound(client, CR.Claim(now, LEASE, limit));
    Answers.LeasedIsUnfinished(client, now, LEASE, limit, i, r);
    Answers.FinishRow(claimed, r, a, true, 0);
    if r.nextRetryAt == CR.INT64_MAX {
      HaltStays(claimed, r, a);
    }
  }

  lemma HaltStays(client: CR.Db, r: CR.OutRow, a: CR.Attempt)
    requires Runs.Sound(client) && r in client.outbox && r.msgId == a.msgId && r.nextRetryAt == CR.INT64_MAX
    ensures Halted(CR.Step(client, CR.Finish(a.msgId, a.attempt, true, 0)), a.msgId)
  {
    forall other | other in client.outbox
      ensures !Runs.TakesEffect(other, a.msgId, a.attempt)
    {
      var i :| 0 <= i < |client.outbox| && client.outbox[i] == r;
      var j :| 0 <= j < |client.outbox| && client.outbox[j] == other;
      assert i == j || other.msgId != a.msgId;
    }
    Runs.FinishIgnored(client, a.msgId, a.attempt, true, 0);
  }

  // ---- honest pushes ----

  /** Every request that was pushed is the message stored under its id. */
  ghost predicate HonestPushes(s: System) {
    forall c :: c in s.pushes ==> Genuine(s.server, c)
  }

  ghost predicate NoneMisfiled(s: System) {
    forall id :: id in s.client.messages ==> !Misfiled(s, id)
  }

  /** A push of an id that is new to the client misfiles it if and only if it is not the stored message. */
  lemma PushMisfiles(s: System, c: Copy, serverTime: int, roaming: bool)
    requires Inv(s) && Enabled(s, CopyArrives(c, serverTime, roaming)) && c.message.msgId != "" && Concerns(s.owner, c.message)
    requires c.message.msgId !in s.client.messages
    requires !CR.MergeFails(s.client, c.message.msgId, CopyOf(s.owner, c, serverTime))
    ensures Misfiled(Next(s, CopyArrives(c, serverTime, roaming)), c.message.msgId) <==> !Genuine(s.server, c)
  {
    var id, row, s' := c.message.msgId, CopyOf(s.owner, c, serverTime), Next(s, CopyArrives(c, serverTime, roaming));
    CopyHasNumber(s, c);
    MS.FindMeaning(s.server, id);
    assert s'.server == s.server && id in s'.client.messages && s'.client.messages[id].peer == row.peer;
  }

  lemma CopyKeepsFiling(s: System, c: Copy, serverTime: int, roaming: bool)
    requires Inv(s) && NoneMisfiled(s) && Genuine(s.server, c)
    ensures NoneMisfiled(Next(s, CopyArrives(c, serverTime, roaming)))
  {
    var s' := Next(s, CopyArrives(c, serverTime, roaming));
    forall other | other in s'.client.messages
      ensures !Misfiled(s', other)
    {
      if other in s.client.messages {
        assert !Misfiled(s, other);
      }
    }
  }

  lemma SaveKeepsFiling(s: System, m: MS.Message, s': System)
    requires Inv(s) && NoneMisfiled(s) && (m.msgId in s.mine ==> Authored(s, m) || MS.Find(s.server, m.msgId).Some?)
    requires s'.owner == s.owner && s'.client == s.client && s'.server == MS.Saved(s.server, m)
    ensures NoneMisfiled(s')
  {
    forall id | id in s'.client.messages
      ensures !Misfiled(s', id)
    {
      assert RowOk(s, id) && !Misfiled(s, id);
      FindSaved(s.server, m, id);
    }
  }

  lemma ServeKeepsFiling(s: System, m: MS.Message, outcome: Outcome)
    requires Inv(s) && NoneMisfiled(s) && m in s.requests
    ensures NoneMisfiled(Next(s, Serve(m, outcome)))
  {
    assert Authored(s, m);
    if outcome.Save? {
      SaveKeepsFiling(s, m, Next(s, Serve(m, outcome)));
    } else {
      OthersKeepFiling(s, Next(s, Serve(m, outcome)));
    }
  }

  lemma StepKeepsFiling(s: System, a: Action)
    requires Inv(s) && NoneMisfiled(s) && HonestPushes(s) && Enabled(s, a)
    ensures NoneMisfiled(Next(s, a))
  {
    match a
    case CopyArrives(c, serverTime, roaming) => CopyKeepsFiling(s, c, serverTime, roaming);
    case Serve(m, outcome) => ServeKeepsFiling(s, m, outcome);
    case SomeoneSends(m, _) => SaveKeepsFiling(s, m, Next(s, a));
    case Draft(msgId, row) => DraftKeepsFiling(s, msgId, row);
    case _ => LocalStepKeepsFiling(s, a);
  }

  lemma LocalStepKeepsFiling(s: System, a: Action)
    requires NoneMisfiled(s) && !a.CopyArrives? && !a.Serve? && !a.SomeoneSends? && !a.Draft?
    ensures NoneMisfiled(Next(s, a))
  {
    forall id | id in Next(s, a).client.messages
      ensures id in s.client.messages && Runs.Refines(s.client.messages[id], Next(s, a).client.messages[id])
    {
      StepKeeps(s, a, id);
    }
    OthersKeepFiling(s, Next(s, a));
  }

  lemma DraftKeepsFiling(s: System, msgId: string, row: CR.Row)
    requires Inv(s) && NoneMisfiled(s) && Enabled(s, Draft(msgId, row))
    ensures NoneMisfiled(Next(s, Draft(msgId, row)))
  {
    var s' := Next(s, Draft(msgId, row));
    StepKeepsInv(s, Draft(msgId, row));
    forall id | id in s'.client.messages
      ensures !Misfiled(s', id)
    {
      if id in s.client.messages {
        assert !Misfiled(s, id);
      } else {
        OwnAgree(s', id);
      }
    }
  }

  /** Steps that add no message and leave the server's table alone. */
  lemma OthersKeepFiling(s: System, s': System)
    requires NoneMisfiled(s) && s'.owner == s.owner && s'.server == s.server
    requires forall id :: id in s'.client.messages ==>
               id in s.client.messages && Runs.Refines(s.client.messages[id], s'.client.messages[id])
    ensures NoneMisfiled(s')
  {
    forall id | id in s'.client.messages
      ensures !Misfiled(s', id)
    {
      assert !Misfiled(s, id);
    }
  }

  lemma StepKeepsPushes(s: System, a: Action)
    ensures s.pushes <= Next(s, a).pushes
  {
  }

  /** Pushes that are honest at the end of a run were honest all along. */
  lemma {:induction false} HonestBefore(s: System, actions: seq<Action>, end: System)
    requires Inv(s) && Run(s, actions, end) && HonestPushes(end)
    ensures HonestPushes(s)
    decreases |actions|
  {
    if actions != [] {
      var s' := Next(s, actions[0]);
      StepKeepsInv(s, actions[0]);
      HonestBefore(s', actions[1..], end);
      StepKeepsPushes(s, actions[0]);
      forall c | c in s.pushes
        ensures Genuine(s.server, c)
      {
        StepKeeps(s, actions[0], c.message.msgId);
        assert NumberOk(s.server, c.message.msgId, c.seqNo) && Genuine(s'.server, c);
      }
    }
  }

  lemma {:induction false} HonestRunsFileRight(s: System, actions: seq<Action>, end: System)
    requires Inv(s) && NoneMisfiled(s) && Run(s, actions, end) && HonestPushes(end)
    ensures Inv(end) && NoneMisfiled(end)
    decreases |actions|
  {
    if actions != [] {
      HonestBefore(s, actions, end);
      StepKeepsFiling(s, actions[0]);
      StepKeepsInv(s, actions[0]);
      HonestRunsFileRight(Next(s, actions[0]), actions[1..], end);
    }
  }

  /** Its draft named another conversation, or the conversation of its peer cannot be opened. */
  predicate Displaced(s: System, c: Copy) {
    if c.message.msgId in s.client.messages
    then s.client.messages[c.message.msgId].conversation != s.client.messages[c.message.msgId].peer
    else Homeless(s, c)
  }

  /** A copy the client is going to look at. */
  predicate Offered(s: System, c: Copy) {
    Genuine(s.server, c) && c.message.msgId != "" && Concerns(s.owner, c.message)
  }

  /** In every run whose pushes are honest no acknowledgement is refused, wherever drafts were filed. */
  lemma HonestRunsAcceptAcks(owner: int, mine: set<string>, actions: seq<Action>, s: System)
    requires Run(Init(owner, mine), actions, s) && HonestPushes(s)
    ensures forall r :: r in s.replies && Accepts(r) ==>
              !CR.AckFails(s.client, r.msgId, r.seqNo, if r.verdict.Succ? then 1 else 3)
  {
    InitInv(owner, mine);
    HonestRunsFileRight(Init(owner, mine), actions, s);
    forall r | r in s.replies && Accepts(r)
      ensures !CR.AckFails(s.client, r.msgId, r.seqNo, if r.verdict.Succ? then 1 else 3)
    {
      AcksAreAccepted(s, r);
    }
  }

  /** Without misfiled messages a copy is refused if and only if it is displaced. */
  lemma DisplacedIsRefused(s: System, c: Copy, serverTime: int)
    requires Inv(s) && NoneMisfiled(s) && Offered(s, c)
    ensures CR.MergeFails(s.client, c.message.msgId, CopyOf(s.owner, c, serverTime)) <==> Displaced(s, c)
  {
    CopiesAreAccepted(s, c, serverTime);
    FiledByStory(s, c);
  }

  lemma FiledByStory(s: System, c: Copy)
    requires Inv(s) && NoneMisfiled(s) && Genuine(s.server, c) && Concerns(s.owner, c.message)
    ensures FiledElsewhere(s, c) <==> c.message.msgId in s.client.messages && Displaced(s, c)
  {
    assert c.message.msgId in s.client.messages ==> !Misfiled(s, c.message.msgId);
  }

  /**
   In every run whose pushes are honest the copies that are refused are exactly the displaced
   ones. There are none if every draft names its peer as its conversation.
   */
  lemma HonestRunsAcceptAll(owner: int, mine: set<string>, actions: seq<Action>, s: System)
    requires Run(Init(owner, mine), actions, s) && HonestPushes(s)
    ensures forall c, serverTime :: Offered(s, c) ==>
              (CR.MergeFails(s.client, c.message.msgId, CopyOf(s.owner, c, serverTime)) <==> Displaced(s, c))
    ensures DraftsInPlace(actions) ==> forall c :: Offered(s, c) ==> !Displaced(s, c)
  {
    InitInv(owner, mine);
    HonestRunsFileRight(Init(owner, mine), actions, s);
    forall c, serverTime | Offered(s, c)
      ensures CR.MergeFails(s.client, c.message.msgId, CopyOf(s.owner, c, serverTime)) <==> Displaced(s, c)
    {
      DisplacedIsRefused(s, c, serverTime);
    }
    RunKeepsFiled(Init(owner, mine), actions, s);
    if DraftsInPlace(actions) {
      RunKeepsInPlace(Init(owner, mine), actions, s);
      forall c | Offered(s, c)
        ensures !Displaced(s, c)
      {
        InPlaceIsNotDisplaced(s, c);
      }
    }
  }

  lemma InPlaceIsNotDisplaced(s: System, c: Copy)
    requires Filed(s.client, s.mine) && InPlace(s.client)
    ensures !Displaced(s, c)
  {
    if Homeless(s, c) {
      HomelessByDraft(s, c);
    }
  }

  /**
   Once the server has all that the client has, in a run whose pushes are honest: the client takes
   every copy if and only if every message is filed under its peer.
   */
  lemma CopiesFitIffInPlace(owner: int, mine: set<string>, actions: seq<Action>, s: System)
    requires Run(Init(owner, mine), actions, s) && HonestPushes(s)
    requires forall id :: id in s.client.messages ==> MS.Find(s.server, id).Some?
    ensures (forall c :: Offered(s, c) ==> !CR.MergeFails(s.client, c.message.msgId, CopyOf(s.owner, c, 0))) <==> InPlace(s.client)
  {
    InitInv(owner, mine);
    HonestRunsFileRight(Init(owner, mine), actions, s);
    HonestRunsAcceptAll(owner, mine, actions, s);
    RunKeepsFiled(Init(owner, mine), actions, s);
    if InPlace(s.client) {
      forall c | Offered(s, c)
        ensures !Displaced(s, c)
      {
        InPlaceIsNotDisplaced(s, c);
      }
    } else {
      var id :| id in s.client.messages && s.client.messages[id].conversation != s.client.messages[id].peer;
      var c := OwnCopy(s, id);
      assert Displaced(s, c);
    }
  }

  /** The server's copy of a message the client sent itself. */
  lemma OwnCopy(s: System, id: string) returns (c: Copy)
    requires Inv(s) && Filed(s.client, s.mine) && id in s.client.messages && id in s.mine && MS.Find(s.server, id).Some?
    ensures c.message.msgId == id && Offered(s, c)
  {
    var found := MS.Find(s.server, id).value;
    MS.FindMeaning(s.server, id);
    OwnMessage(s, id, found.seqNo);
    assert RowOk(s, id);
    c := Copy(found.message, found.seqNo);
  }

  // ---- what the client makes of what arrives ----

  /** A copy is looked at only if it has an id and a number and is between the owner and another account. */
  lemma StrangeCopiesAreIgnored(s: System, c: Copy, serverTime: int, roaming: bool)
    requires c.message.msgId == "" || c.seqNo == 0 ||
             !((c.message.sender == s.owner && c.message.receiver >= 1) || (c.message.receiver == s.owner && c.message.sender >= 1))
    ensures Next(s, CopyArrives(c, serverTime, roaming)) == s
  {
  }

  /** The row of a copy: filed under the other account, sent by the owner or received, and shown as such. */
  lemma RowOfCopy(owner: int, c: Copy, serverTime: int)
    ensures var row, m := CopyOf(owner, c, serverTime), c.message;
            var other := if m.sender == owner then m.receiver else m.sender;
            && row.conversation == other && row.peer == other && (row.fromMe <==> m.sender == owner)
            && row.seqNo == c.seqNo && row.serverTime == serverTime && row.localOrder == 0
            && row.kind == m.kind && row.content == m.content && row.status == (if row.fromMe then 1 else 2)
  {
  }

  /** A reply is looked at only for an attempt in flight of an own message to the account it names. */
  lemma StrangeRepliesAreIgnored(s: System, r: Reply, retryAt: int)
    requires r.msgId !in s.inflight || s.inflight[r.msgId] < 1 || r.msgId !in s.client.messages ||
             !s.client.messages[r.msgId].fromMe || s.client.messages[r.msgId].peer != r.peer
    ensures Next(s, ReplyArrives(r, retryAt)) == s
  {
  }

  /** After a reply its attempt is awaited no longer, unless the server failed or its acknowledgement is refused. */
  lemma AwaitedAfterReply(s: System, r: Reply, retryAt: int)
    requires Inv(s) && r in s.replies && Listens(s, r)
    ensures var s' := Next(s, ReplyArrives(r, retryAt));
            && (r.msgId in s'.inflight <==>
                  r.verdict.ServerError? || (Accepts(r) && Blocked(s, r.msgId, s.client.messages[r.msgId].peer, r.seqNo)))
            && (forall id :: id != r.msgId ==> (id in s'.inflight <==> id in s.inflight))
            && (forall id :: id in s'.inflight ==> s'.inflight[id] == s.inflight[id])
  {
    if Accepts(r) {
      AcksAreAccepted(s, r);
      OwnMessage(s, r.msgId, r.seqNo);
    }
  }

  /** What the server answers: the number it has for the id if it saved, none otherwise; and whom it tells. */
  lemma AnswerOfServer(m: MS.Message, outcome: Outcome, table: seq<MS.Stored>)
    ensures var r := ReplyTo(m, outcome, table);
            && r.msgId == m.msgId && r.peer == m.receiver
            && (r.verdict.NotFriend? <==> outcome.Refuse?)
            && (r.verdict.Succ? <==> outcome == Save(true) && MS.Find(table, m.msgId).Some?)
            && (r.verdict.Fail? <==> outcome == Save(false) && MS.Find(table, m.msgId).Some?)
            && r.seqNo == (if r.verdict.Succ? || r.verdict.Fail? then MS.Find(table, m.msgId).value.seqNo else 0)
  {
  }
}
