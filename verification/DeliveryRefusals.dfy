/**
 Two runs in which the client refuses what the server sends: after a reused id, and after a draft
 under a conversation that is not its peer.
 */
module DeliveryRefusals {
  import opened WireFormat
  import opened Delivery
  import opened DeliveryFiling
  import opened DeliverySettles
  import CR = ClientRepository
  import Runs = ClientRuns
  import MS = MessageStore

  // ---- a number is blocked ----

  /** Account 1 writes "a" to account 2, which reuses the id of a message it sent to account 3. */
  const OWN: MS.Message := MS.Message("a", 1, 2, TEXT, "hi")
  const FIRST: MS.Message := MS.Message("b", 2, 3, TEXT, "x")
  const REUSED: MS.Message := MS.Message("b", 2, 1, TEXT, "y")
  const PUSH: Copy := Copy(REUSED, 1)

  function DraftUnder(conversation: int): CR.Row {
    CR.Row(conversation, 2, 0, 0, 0, true, TEXT, "hi", 0)
  }

  function Attempted(): Outgoing {
    Outgoing(OWN, 1)
  }

  function AfterDraft(k: int): CR.Db {
    CR.Db(map["a" := DraftUnder(k).(localOrder := 1)], [CR.OutRow("a", 1, 0, 0, 0, 1)], Some(1), map[k := CR.Conversation(2, 0, 0)])
  }

  function AfterClaim(k: int): CR.Db {
    AfterDraft(k).(outbox := [CR.OutRow("a", 1, 1, 30, 0, 1)])
  }

  lemma FirstAttempts(k: int)
    ensures ClaimedNow(Drafted(k), CR.AttemptsOf(AfterDraft(k).outbox)) == {Attempted()}
  {
    var attempts := CR.AttemptsOf(AfterDraft(k).outbox);
    assert AfterDraft(k).outbox[1..] == [];
    assert attempts == [CR.Attempt("a", 1, 1)] && attempts[0] in attempts;
  }

  function AfterPush(): CR.Db {
    AfterClaim(2).(messages := AfterClaim(2).messages["b" := CopyOf(1, PUSH, 0)], conversations := map[2 := CR.Conversation(2, 0, 1)])
  }

  function FirstTable(): seq<MS.Stored> {
    [MS.Stored(FIRST, MS.ConversationId(2, 3), 1)]
  }

  function SecondTable(): seq<MS.Stored> {
    FirstTable() + [MS.Stored(OWN, MS.ConversationId(1, 2), 1)]
  }

  lemma Tables()
    ensures MS.Saved([], FIRST) == FirstTable()
    ensures MS.Saved(FirstTable(), REUSED) == FirstTable() && MS.Find(FirstTable(), "b") == Some(FirstTable()[0])
    ensures MS.Saved(FirstTable(), OWN) == SecondTable() && MS.Find(SecondTable(), "a") == Some(SecondTable()[1])
  {
    var t := FirstTable();
    assert t[1..] == [] && t[..0] == [];
    assert MS.ConversationId(1, 2) != MS.ConversationId(2, 3);
    assert MS.MaxSeq(t[..0], MS.ConversationId(1, 2)) == 0;
    assert MS.MaxSeq(t, MS.ConversationId(1, 2)) == 0;
    MS.FindNewest(t, MS.Stored(OWN, MS.ConversationId(1, 2), 1));
  }

  const START: System := System(1, {"a"}, CR.Db(map[], [], None, map[]), map[], {}, {}, [], {}, {})

  function Drafted(k: int): System {
    START.(client := AfterDraft(k), inflight := map["a" := 0])
  }

  function Sent(k: int): System {
    START.(client := AfterClaim(k), inflight := map["a" := 1], claimed := {Attempted()}, requests := {OWN})
  }

  function Reused(): System {
    Sent(2).(client := AfterPush(), server := FirstTable(), pushes := {PUSH})
  }

  function Answered(): System {
    Reused().(server := SecondTable(), replies := {Reply("a", 2, Succ, 1)}, pushes := {PUSH, Copy(OWN, 1)})
  }

  lemma RunFrom(s: System, a: Action, actions: seq<Action>, end: System)
    requires Enabled(s, a) && Run(Next(s, a), actions, end)
    ensures Run(s, [a] + actions, end)
  {
    assert ([a] + actions)[1..] == actions;
  }

  lemma RunToSent(k: int) returns (actions: seq<Action>)
    requires k > 0
    ensures Run(START, actions, Sent(k))
  {
    var claimed := Drafted(k).(client := AfterClaim(k), claimed := {Attempted()});
    FirstAttempts(k);
    assert Next(START, Draft("a", DraftUnder(k))) == Drafted(k);
    assert Next(Drafted(k), Claim(0, 1)) == claimed;
    var transmitted := claimed.(requests := {OWN});
    assert Next(claimed, Transmit(Attempted())) == transmitted;
    assert Next(transmitted, Track(Attempted())) == Sent(k);
    actions := [];
    RunFrom(transmitted, Track(Attempted()), actions, Sent(k));
    actions := [Track(Attempted())] + actions;
    RunFrom(claimed, Transmit(Attempted()), actions, Sent(k));
    actions := [Transmit(Attempted())] + actions;
    RunFrom(Drafted(k), Claim(0, 1), actions, Sent(k));
    actions := [Claim(0, 1)] + actions;
    RunFrom(START, Draft("a", DraftUnder(k)), actions, Sent(k));
    actions := [Draft("a", DraftUnder(k))] + actions;
  }

  lemma RunToReused() returns (actions: seq<Action>)
    ensures Run(Sent(2), actions, Reused())
  {
    Tables();
    var first := Sent(2).(server := FirstTable());
    assert Next(Sent(2), SomeoneSends(FIRST, false)) == first;
    var pushed := first.(pushes := {PUSH});
    assert Next(first, SomeoneSends(REUSED, true)) == pushed;
    assert Next(pushed, CopyArrives(PUSH, 0, false)) == Reused();
    actions := [];
    RunFrom(pushed, CopyArrives(PUSH, 0, false), actions, Reused());
    actions := [CopyArrives(PUSH, 0, false)] + actions;
    RunFrom(first, SomeoneSends(REUSED, true), actions, Reused());
    actions := [SomeoneSends(REUSED, true)] + actions;
    RunFrom(Sent(2), SomeoneSends(FIRST, false), actions, Reused());
    actions := [SomeoneSends(FIRST, false)] + actions;
  }

  lemma RunToAnswered() returns (actions: seq<Action>)
    ensures Run(Sent(2), actions, Answered())
  {
    var first := RunToReused();
    Tables();
    var serve := Serve(OWN, Save(true));
    assert Next(Reused(), serve) == Answered();
    RunFrom(Reused(), serve, [], Answered());
    actions := first + [serve];
    assert [serve] + [] == [serve];
    RunsJoin(Sent(2), first, Reused(), [serve], Answered());
  }

  lemma {:induction false} RunsJoin(s: System, a: seq<Action>, mid: System, b: seq<Action>, end: System)
    requires Run(s, a, mid) && Run(mid, b, end)
    ensures Run(s, a + b, end)
    decreases |a|
  {
    if a == [] {
      assert a + b == b;
    } else {
      assert (a + b)[0] == a[0] && (a + b)[1..] == a[1..] + b;
      RunsJoin(Next(s, a[0]), a[1..], mid, b, end);
    }
  }

  lemma AnsweredIsBlocked()
    ensures !HonestPushes(Answered()) && Blocked(Answered(), "a", 2, 1)
  {
    Tables();
    var s := Answered();
    assert MS.Find(SecondTable(), "b") == Some(FirstTable()[0]);
    assert !Genuine(s.server, PUSH) && PUSH in s.pushes;
    assert Misfiled(s, "b") && s.client.messages["b"].peer == 2 && s.client.messages["b"].seqNo == 1;
  }

  lemma AnsweredStaysQueued()
    ensures Enabled(Answered(), ReplyArrives(Reply("a", 2, Succ, 1), 0)) && Listens(Answered(), Reply("a", 2, Succ, 1))
    ensures Runs.Queued(Next(Answered(), ReplyArrives(Reply("a", 2, Succ, 1), 0)).client, "a")
  {
    var s := Answered();
    assert s.client.messages["b"].peer == 2 && s.client.messages["b"].seqNo == 1;
    assert CR.SeqTaken(s.client.messages, "a", 2, 1);
    assert AfterClaim(2).outbox[0] in s.client.outbox;
  }

  /** A reused id can keep a message in the outbox: the client refuses the acknowledgement it waits for. */
  lemma ReusedIdBlocks() returns (actions: seq<Action>, s: System, r: Reply)
    ensures Run(Init(1, {"a"}), actions, s) && !HonestPushes(s)
    ensures Enabled(s, ReplyArrives(r, 0)) && Accepts(r) && Listens(s, r) && Blocked(s, r.msgId, r.peer, r.seqNo)
    ensures Runs.Queued(Next(s, ReplyArrives(r, 0)).client, r.msgId)
  {
    var first := RunToSent(2);
    var second := RunToAnswered();
    actions, s, r := first + second, Answered(), Reply("a", 2, Succ, 1);
    RunsJoin(START, first, Sent(2), second, s);
    AnsweredIsBlocked();
    AnsweredStaysQueued();
  }

  // ---- a conversation is taken ----

  /** Account 2 writes "c" to account 1. */
  const INCOMING: MS.Message := MS.Message("c", 2, 1, TEXT, "hello")

  function OwnTable(): seq<MS.Stored> {
    [MS.Stored(OWN, MS.ConversationId(1, 2), 1)]
  }

  function BothTable(): seq<MS.Stored> {
    OwnTable() + [MS.Stored(INCOMING, MS.ConversationId(2, 1), 2)]
  }

  function BothSent(k: int): System {
    Sent(k).(server := BothTable(), replies := {Reply("a", 2, Fail, 1)})
  }

  lemma RunToBothSent(k: int) returns (actions: seq<Action>)
    ensures Run(Sent(k), actions, BothSent(k))
  {
    var served := Sent(k).(server := OwnTable(), replies := {Reply("a", 2, Fail, 1)});
    assert Next(Sent(k), Serve(OWN, Save(false))) == served;
    assert Next(served, SomeoneSends(INCOMING, false)) == BothSent(k);
    RunFrom(served, SomeoneSends(INCOMING, false), [], BothSent(k));
    actions := [SomeoneSends(INCOMING, false)] + [];
    RunFrom(Sent(k), Serve(OWN, Save(false)), actions, BothSent(k));
    actions := [Serve(OWN, Save(false))] + actions;
  }

  lemma BothSentRefuses(k: int, c: Copy, serverTime: int)
    requires k > 0 && k != 2 && c in {Copy(OWN, 1), Copy(INCOMING, 2)}
    ensures Offered(BothSent(k), c) && Displaced(BothSent(k), c)
    ensures CR.MergeFails(BothSent(k).client, c.message.msgId, CopyOf(1, c, serverTime))
  {
    var open := BothSent(k).client.conversations;
    assert open == map[k := CR.Conversation(2, 0, 0)] && k in open && open[k].peer == 2;
  }

  /**
   Whatever conversation other than the peer's a draft is filed under: without any push the
   client refuses both the server's copy of this message and everything the peer writes.
   */
  lemma OtherConversationRefuses(k: int) returns (actions: seq<Action>, s: System, own: Copy, theirs: Copy)
    requires k > 0 && k != 2
    ensures Run(Init(1, {"a"}), actions, s) && s.pushes == {}
    ensures own.message.sender == 1 && Offered(s, own)
    ensures own.message.msgId in s.client.messages && s.client.messages[own.message.msgId].conversation == k
    ensures theirs.message.sender == 2 && Offered(s, theirs) && Homeless(s, theirs)
    ensures forall t :: CR.MergeFails(s.client, own.message.msgId, CopyOf(1, own, t)) &&
                        CR.MergeFails(s.client, theirs.message.msgId, CopyOf(1, theirs, t))
  {
    var first := RunToSent(k);
    var second := RunToBothSent(k);
    actions, s, own, theirs := first + second, BothSent(k), Copy(OWN, 1), Copy(INCOMING, 2);
    RunsJoin(START, first, Sent(k), second, s);
    forall t
      ensures CR.MergeFails(s.client, own.message.msgId, CopyOf(1, own, t)) && CR.MergeFails(s.client, theirs.message.msgId, CopyOf(1, theirs, t))
    {
      BothSentRefuses(k, own, t);
      BothSentRefuses(k, theirs, t);
    }
    BothSentRefuses(k, own, 0);
    BothSentRefuses(k, theirs, 0);
  }
}
