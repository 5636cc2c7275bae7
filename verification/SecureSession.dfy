/**
 Two ends of an established channel and a network that drops, repeats, reorders, alters and
 invents frames, and the handshake against the same network.
 */
module SecureSession {
  import opened WireFormat
  import opened SecureChannel

  // ---- the record layer ----

  /** One end: its state, what it was asked to send, the frames it made, what it accepted. */
  datatype End = End(state: State, sent: seq<Inner>, frames: seq<Frame>, got: seq<Inner>)

  /** `bodies` holds every sealed body either end has made; the network can replay them but forge none. */
  datatype Pair = Pair(client: End, server: End, bodies: set<Body>)

  datatype Action =
    | ClientSends(m: Inner, cipherFails: bool)
    | ServerSends(m: Inner, cipherFails: bool)
    | ClientReceives(w: Wire)
    | ServerReceives(w: Wire)

  function Sent(x: End, m: Inner, cipherFails: bool): End {
    var (state, frame) := Encrypted(x.state, m, cipherFails);
    if frame.Some? then End(state, x.sent + [m], x.frames + [frame.value], x.got) else x.(state := state)
  }

  function Received(x: End, w: Wire): End {
    var (state, m) := Decrypted(x.state, w);
    if m.Some? then x.(state := state, got := x.got + [m.value]) else x.(state := state)
  }

  predicate Possible(p: Pair, w: Wire) {
    w.Parsed? ==> w.frame.body.Junk? || w.frame.body in p.bodies
  }

  predicate Enabled(p: Pair, a: Action) {
    match a
    case ClientReceives(w) => Possible(p, w)
    case ServerReceives(w) => Possible(p, w)
    case _ => true
  }

  function NewBodies(x: End, m: Inner, cipherFails: bool): set<Body> {
    var (_, frame) := Encrypted(x.state, m, cipherFails);
    if frame.Some? then {frame.value.body} else {}
  }

  function Next(p: Pair, a: Action): Pair {
    match a
    case ClientSends(m, fails) => p.(client := Sent(p.client, m, fails), bodies := p.bodies + NewBodies(p.client, m, fails))
    case ServerSends(m, fails) => p.(server := Sent(p.server, m, fails), bodies := p.bodies + NewBodies(p.server, m, fails))
    case ClientReceives(w) => p.(client := Received(p.client, w))
    case ServerReceives(w) => p.(server := Received(p.server, w))
  }

  predicate Run(start: Pair, actions: seq<Action>, end: Pair)
    decreases |actions|
  {
    if actions == [] then end == start
    else Enabled(start, actions[0]) && Run(Next(start, actions[0]), actions[1..], end)
  }

  /** The server's half uses the same keys with the directions exchanged. */
  function Mirror(s: Session): Session {
    s.(material := s.material.(clientKey := s.material.serverKey, serverKey := s.material.clientKey,
                               clientPrefix := s.material.serverPrefix, serverPrefix := s.material.clientPrefix))
  }

  function Start(session: Session): Pair {
    Pair(End(State(Established, NoError, 0, 0, session), [], [], []),
         End(State(Established, NoError, 0, 0, Mirror(session)), [], [], []), {})
  }

  // ---- the invariant ----

  function FrameOf(session: Session, i: nat, m: Inner): Frame
    requires i < UINT64_MAX
  {
    SealedFrame(session.material.clientKey, session.material.clientPrefix, session.sessionId, i + 1, m)
  }

  /** The frames of an end are numbered 1..n, and it has accepted as many messages as it counts. */
  ghost predicate EndOk(x: End, session: Session) {
    && x.state.session == session
    && |x.frames| == |x.sent| <= x.state.sent <= UINT64_MAX
    && (x.state.status.Established? ==> x.state.sent == |x.sent|)
    && (forall i :: 0 <= i < |x.sent| ==> x.frames[i] == FrameOf(session, i, x.sent[i]))
    && (forall i :: 0 <= i < |x.sent| ==> !ControlType(x.sent[i].kind))
    && |x.got| == x.state.received
  }

  ghost predicate MadeBy(x: End, b: Body) {
    exists i :: 0 <= i < |x.frames| && x.frames[i].body == b
  }

  ghost predicate Inv(p: Pair, session: Session) {
    && EndOk(p.client, session) && EndOk(p.server, Mirror(session))
    && (forall b :: b in p.bodies ==> MadeBy(p.client, b) || MadeBy(p.server, b))
    && p.client.got <= p.server.sent && p.server.got <= p.client.sent
  }

  lemma SendKeepsEnd(x: End, session: Session, m: Inner, fails: bool)
    requires EndOk(x, session)
    ensures EndOk(Sent(x, m, fails), session) && Sent(x, m, fails).got == x.got && x.sent <= Sent(x, m, fails).sent
    ensures forall b :: MadeBy(x, b) || b in NewBodies(x, m, fails) ==> MadeBy(Sent(x, m, fails), b)
  {
    var y := Sent(x, m, fails);
    assert x.frames <= y.frames;
    forall b | MadeBy(x, b) || b in NewBodies(x, m, fails)
      ensures MadeBy(y, b)
    {
      if MadeBy(x, b) {
        var i :| 0 <= i < |x.frames| && x.frames[i].body == b;
        assert y.frames[i].body == b;
      } else {
        assert y.frames[|x.frames|].body == b;
      }
    }
  }

  lemma BodiesUseOwnKey(x: End, session: Session, b: Body)
    requires EndOk(x, session)
    ensures MadeBy(x, b) ==> b.Sealed? && b.key == session.material.clientKey
  {
  }

  /** The only thing an end can accept is the next message of the other end. */
  lemma AcceptsOnlyTheNext(x: End, y: End, sx: Session, sy: Session, w: Wire)
    requires EndOk(x, sx) && EndOk(y, sy)
    requires sy.material.serverKey == sx.material.clientKey && sy.material.serverPrefix == sx.material.clientPrefix
    requires sy.material.clientKey != sy.material.serverKey
    requires w.Parsed? ==> w.frame.body.Junk? || MadeBy(x, w.frame.body) || MadeBy(y, w.frame.body)
    requires Decrypted(y.state, w).1.Some?
    ensures |y.got| < |x.sent| && Decrypted(y.state, w).1.value == x.sent[|y.got|]
    ensures Decrypted(y.state, w).0.received == |y.got| + 1
  {
    var f := w.frame;
    BodiesUseOwnKey(y, sy, f.body);
    var i :| 0 <= i < |x.frames| && x.frames[i].body == f.body;
    assert x.frames[i] == FrameOf(sx, i, x.sent[i]);
    NonceBinds(sx.material.clientPrefix, i + 1, f.sequence);
    PlaintextRoundTrip(x.sent[i]);
  }

  lemma ReceiveKeepsEnd(x: End, y: End, sx: Session, sy: Session, w: Wire)
    requires EndOk(x, sx) && EndOk(y, sy) && y.got <= x.sent
    requires sy.material.serverKey == sx.material.clientKey && sy.material.serverPrefix == sx.material.clientPrefix
    requires sy.material.clientKey != sy.material.serverKey
    requires w.Parsed? ==> w.frame.body.Junk? || MadeBy(x, w.frame.body) || MadeBy(y, w.frame.body)
    ensures var y' := Received(y, w);
            EndOk(y', sy) && y'.got <= x.sent && y'.sent == y.sent && y'.frames == y.frames
  {
    if Decrypted(y.state, w).1.Some? {
      AcceptsOnlyTheNext(x, y, sx, sy, w);
    }
  }

  lemma StepKeepsInv(p: Pair, session: Session, a: Action)
    requires Inv(p, session) && Enabled(p, a) && session.material.clientKey != session.material.serverKey
    ensures Inv(Next(p, a), session)
  {
    match a
    case ClientSends(m, fails) => SendKeepsEnd(p.client, session, m, fails);
    case ServerSends(m, fails) => SendKeepsEnd(p.server, Mirror(session), m, fails);
    case ClientReceives(w) => ReceiveKeepsEnd(p.server, p.client, Mirror(session), session, w);
    case ServerReceives(w) => ReceiveKeepsEnd(p.client, p.server, session, Mirror(session), w);
  }

  lemma {:induction false} RunKeepsInv(p: Pair, session: Session, actions: seq<Action>, end: Pair)
    requires Inv(p, session) && Run(p, actions, end) && session.material.clientKey != session.material.serverKey
    ensures Inv(end, session)
    decreases |actions|
  {
    if actions != [] {
      StepKeepsInv(p, session, actions[0]);
      RunKeepsInv(Next(p, actions[0]), session, actions[1..], end);
    }
  }

  /**
   Whatever the network does, what either end has accepted is a prefix of what the other was
   asked to send, each end's frames are numbered exactly 1..n, and no nonce is used twice
   under one key.
   */
  lemma RecordsAreAPrefix(session: Session, actions: seq<Action>, end: Pair)
    requires session.material.clientKey != session.material.serverKey
    requires Run(Start(session), actions, end)
    ensures end.client.got <= end.server.sent && end.server.got <= end.client.sent
    ensures NumberedFromOne(end.client.frames) && NumberedFromOne(end.server.frames)
    ensures NoncesDistinct(end.client.frames) && NoncesDistinct(end.server.frames)
  {
    RunKeepsInv(Start(session), session, actions, end);
    FramesAreFresh(end.client, session);
    FramesAreFresh(end.server, Mirror(session));
  }

  ghost predicate NumberedFromOne(frames: seq<Frame>) {
    forall i :: 0 <= i < |frames| ==> frames[i].sequence == i + 1
  }

  ghost predicate NoncesDistinct(frames: seq<Frame>) {
    && (forall i :: 0 <= i < |frames| ==> frames[i].body.Sealed?)
    && (forall i, j :: 0 <= i < j < |frames| ==> frames[i].body.nonce != frames[j].body.nonce)
  }

  lemma FramesAreFresh(x: End, session: Session)
    requires EndOk(x, session)
    ensures NumberedFromOne(x.frames) && NoncesDistinct(x.frames)
  {
    forall i, j | 0 <= i < j < |x.frames|
      ensures x.frames[i].body.Sealed? && x.frames[j].body.Sealed? && x.frames[i].body.nonce != x.frames[j].body.nonce
    {
      assert x.frames[i] == FrameOf(session, i, x.sent[i]) && x.frames[j] == FrameOf(session, j, x.sent[j]);
      if x.frames[i].body.nonce == x.frames[j].body.nonce {
        NonceBinds(session.material.clientPrefix, i + 1, j + 1);
      }
    }
  }

  /** The client of an open channel, `k` messages into what the server sent. */
  ghost predicate Following(client: End, server: End, session: Session, k: nat) {
    && EndOk(client, session) && EndOk(server, Mirror(session)) && client.state.status.Established?
    && |client.got| == k <= |server.sent| && client.got == server.sent[..k]
  }

  /** The server's next frame, unchanged, is accepted. */
  lemma NextFrameAccepted(client: End, server: End, session: Session, k: nat)
    requires Following(client, server, session, k) && |session.sessionId| == SESSION_ID_LEN
    requires k < |server.sent| < UINT64_MAX
    ensures Following(Received(client, Parsed(server.frames[k])), server, session, k + 1)
  {
    assert server.frames[k] == FrameOf(Mirror(session), k, server.sent[k]);
    PlaintextRoundTrip(server.sent[k]);
    assert server.sent[..k + 1] == server.sent[..k] + [server.sent[k]];
  }

  /** The client after it received the server's frames from `k` on, one after the other. */
  function DeliveredFrom(client: End, server: End, k: nat): End
    decreases |server.frames| - k
  {
    if k >= |server.frames| then client else DeliveredFrom(Received(client, Parsed(server.frames[k])), server, k + 1)
  }

  lemma {:induction false} DeliveryFollows(client: End, server: End, session: Session, k: nat)
    requires Following(client, server, session, k) && |session.sessionId| == SESSION_ID_LEN && |server.sent| < UINT64_MAX
    ensures DeliveredFrom(client, server, k).got == server.sent && DeliveredFrom(client, server, k).state.status.Established?
    decreases |server.frames| - k
  {
    if k < |server.frames| {
      NextFrameAccepted(client, server, session, k);
      DeliveryFollows(Received(client, Parsed(server.frames[k])), server, session, k + 1);
    } else {
      assert server.sent[..k] == server.sent;
    }
  }

  /** Frames that arrive unchanged and in order are all accepted. */
  lemma FaithfulDelivery(p: Pair, session: Session)
    requires Inv(p, session) && p.client.state.status.Established? && |session.sessionId| == SESSION_ID_LEN
    requires |p.server.sent| < UINT64_MAX
    ensures var client := DeliveredFrom(p.client, p.server, |p.client.got|);
            client.got == p.server.sent && client.state.status.Established?
  {
    DeliveryFollows(p.client, p.server, session, |p.client.got|);
  }

  // ---- the channel over its whole life ----

  datatype Op =
    | Hello(payload: seq<byte>, hello: Option<ServerHello>, secret: Option<seq<byte>>, macFails: bool)
    | Finished(mac: Option<Mac>, macFails: bool)
    | Send(m: Inner, cipherFails: bool)
    | Receive(w: Wire)

  /** The fixed surroundings of a channel: the trusted server keys and the key derivation. */
  datatype Context = Context(keys: map<uint32, seq<byte>>, kdf: KdfInput -> Material)

  function Step(ctx: Context, s: State, op: Op): State {
    match op
    case Hello(payload, hello, secret, macFails) => AfterHello(s, ctx.keys, payload, hello, secret, ctx.kdf, macFails)
    case Finished(mac, macFails) => AfterFinished(s, mac, macFails)
    case Send(m, fails) => Encrypted(s, m, fails).0
    case Receive(w) => Decrypted(s, w).0
  }

  function Life(ctx: Context, s: State, ops: seq<Op>): State
    decreases |ops|
  {
    if ops == [] then s else Life(ctx, Step(ctx, s, ops[0]), ops[1..])
  }

  predicate Rejects(s: State, op: Op) {
    match op
    case Hello(_, _, _, _) => false
    case Finished(_, _) => false
    case Send(m, fails) => Encrypted(s, m, fails).1.None?
    case Receive(w) => Decrypted(s, w).1.None?
  }

  /** After any rejected frame or refused message the channel stays failed, and produces and accepts nothing. */
  lemma {:induction false} RejectionIsFinal(ctx: Context, s: State, op: Op, ops: seq<Op>, later: Op)
    requires Rejects(s, op) && (later.Send? || later.Receive?)
    ensures var s' := Life(ctx, Step(ctx, s, op), ops); s'.status.Failed? && Rejects(s', later)
  {
    FailedForever(ctx, Step(ctx, s, op), ops);
  }

  lemma {:induction false} FailedForever(ctx: Context, s: State, ops: seq<Op>)
    requires s.status.Failed?
    ensures Life(ctx, s, ops).status.Failed?
    decreases |ops|
  {
    if ops != [] {
      FailedForever(ctx, Step(ctx, s, ops[0]), ops[1..]);
    }
  }

  // ---- the handshake ----

  /** What an honest server signed: the client hello it saw and its own parameters. */
  datatype Answer = Answer(clientPayload: seq<byte>, publicKey: seq<byte>, nonce: seq<byte>, sessionId: seq<byte>, keyId: uint32)

  predicate AnswerOk(a: Answer) {
    |a.clientPayload| < 0x1_0000_0000 && |a.publicKey| == KEY_LEN && |a.nonce| == NONCE_LEN && |a.sessionId| == SESSION_ID_LEN
  }

  /** Every signature under a trusted key that reaches the client was made by the honest server. */
  ghost predicate OnlyHonestSignatures(ctx: Context, answers: set<Answer>, ops: seq<Op>) {
    && (forall a :: a in answers ==> AnswerOk(a))
    && (forall i :: 0 <= i < |ops| ==> HonestSignature(ctx, answers, ops[i]))
  }

  ghost predicate HonestSignature(ctx: Context, answers: set<Answer>, op: Op) {
    op.Hello? && op.hello.Some? && op.hello.value.signature.Signed? && op.hello.value.signature.publicKey in ctx.keys.Values ==>
      exists a :: a in answers &&
        op.hello.value.signature.transcript == Transcript(a.clientPayload, a.publicKey, a.nonce, a.sessionId, a.keyId)
  }

  /** The client's session is the one the server answered this client's hello with. */
  ghost predicate Agreed(s: State, answers: set<Answer>) {
    Answer(s.session.clientPayload, s.session.serverPub, s.session.serverNonce, s.session.sessionId, s.session.keyId) in answers
  }

  predicate Keyed(s: State) {
    s.status.FinishedSent? || s.status.Established?
  }

  lemma HelloAgrees(ctx: Context, s: State, op: Op, answers: set<Answer>)
    requires op.Hello? && s.status.HelloSent? && |s.session.clientPayload| < 0x1_0000_0000
    requires OnlyHonestSignatures(ctx, answers, [op])
    ensures Keyed(Step(ctx, s, op)) ==> Agreed(Step(ctx, s, op), answers)
  {
    assert HonestSignature(ctx, answers, [op][0]);
    var s' := Step(ctx, s, op);
    if Keyed(s') {
      var h := op.hello.value;
      var a :| a in answers && h.signature.transcript == Transcript(a.clientPayload, a.publicKey, a.nonce, a.sessionId, a.keyId);
      TranscriptBinds(s.session.clientPayload, h.publicKey, h.nonce, h.sessionId, h.keyId,
                      a.clientPayload, a.publicKey, a.nonce, a.sessionId, a.keyId);
    }
  }

  /**
   From the client's hello on, whatever is delivered: a channel that has keys has them from a
   session that the server itself opened for this very hello.
   */
  lemma {:induction false} HandshakeIsAuthentic(ctx: Context, s: State, ops: seq<Op>, answers: set<Answer>)
    requires s.status.HelloSent? || (Keyed(s) ==> Agreed(s, answers))
    requires |s.session.clientPayload| < 0x1_0000_0000 && OnlyHonestSignatures(ctx, answers, ops)
    ensures Keyed(Life(ctx, s, ops)) ==> Agreed(Life(ctx, s, ops), answers)
    decreases |ops|
  {
    if ops != [] {
      var s' := Step(ctx, s, ops[0]);
      if ops[0].Hello? && s.status.HelloSent? {
        assert HonestSignature(ctx, answers, ops[0]);
        HelloAgrees(ctx, s, ops[0], answers);
      }
      assert s'.session.clientPayload == s.session.clientPayload;
      assert forall i :: 0 <= i < |ops[1..]| ==> ops[1..][i] == ops[i + 1];
      HandshakeIsAuthentic(ctx, s', ops[1..], answers);
    }
  }
}
