/**
 From the handshake to the records: a channel that opens has its keys from one session of the
 server, which holds the same keys with the directions exchanged, so all that is proved about two
 such ends holds from the first record on.

 Key derivation is ideal: it has no collisions in the finished keys, and the keys of the two
 directions differ. `parse` reads a serialised server hello.
 */
module SecureOpening {
  import opened WireFormat
  import opened SecureChannel
  import opened SecureSession

  ghost predicate IdealKdf(kdf: KdfInput -> Material) {
    && (forall x, y :: kdf(x).serverFinished == kdf(y).serverFinished ==> x == y)
    && (forall x :: kdf(x).clientKey != kdf(x).serverKey)
  }

  /** The keys of a session are derived from its own fields, and these are the ones its server hello names. */
  ghost predicate Derived(ctx: Context, parse: seq<byte> -> Option<ServerHello>, s: Session) {
    && (exists secret :: s.material == ctx.kdf(InputOf(s, secret)))
    && parse(s.serverPayload).Some?
    && var h := parse(s.serverPayload).value;
       s.serverPub == h.publicKey && s.serverNonce == h.nonce && s.sessionId == h.sessionId && s.keyId == h.keyId
  }

  function InputOf(s: Session, secret: seq<byte>): KdfInput {
    KdfInput(secret, s.clientNonce, s.serverNonce, s.sessionId, s.clientPayload, s.serverPayload)
  }

  /** Hellos are what their bytes say. */
  ghost predicate ParsedBy(parse: seq<byte> -> Option<ServerHello>, op: Op) {
    op.Hello? ==> op.hello == parse(op.payload)
  }

  /** The verification value the client expects was computed by a session of the server. */
  ghost predicate FinishedByServer(s: State, op: Op, servers: set<Session>) {
    op.Finished? && op.mac == Some(ServerFinished(s.session)) ==> exists srv :: srv in servers && op.mac == Some(ServerFinished(srv))
  }

  /** What is assumed of everything that is delivered. */
  ghost predicate Delivered(ctx: Context, parse: seq<byte> -> Option<ServerHello>, servers: set<Session>, s: State, ops: seq<Op>)
    decreases |ops|
  {
    ops == [] ||
    (ParsedBy(parse, ops[0]) && FinishedByServer(s, ops[0], servers) && Delivered(ctx, parse, servers, Step(ctx, s, ops[0]), ops[1..]))
  }

  /** A channel on its way: nothing was sent or received before it opens, and an open one has a server's session. */
  ghost predicate OnItsWay(ctx: Context, parse: seq<byte> -> Option<ServerHello>, servers: set<Session>, s: State) {
    && (s.status.HelloSent? || s.status.FinishedSent? ==> s.error == NoError && s.sent == 0 && s.received == 0)
    && (s.status.FinishedSent? ==> Derived(ctx, parse, s.session))
    && (s.status.Established? ==> s.error == NoError && s.session in servers)
    && !s.status.NotStarted?
  }

  /** Equal verification values mean equal sessions. */
  lemma FinishedBinds(ctx: Context, parse: seq<byte> -> Option<ServerHello>, s: Session, t: Session)
    requires IdealKdf(ctx.kdf) && Derived(ctx, parse, s) && Derived(ctx, parse, t)
    requires ServerFinished(s) == ServerFinished(t)
    ensures s == t
  {
    var a :| s.material == ctx.kdf(InputOf(s, a));
    var b :| t.material == ctx.kdf(InputOf(t, b));
    assert InputOf(s, a) == InputOf(t, b);
  }

  lemma HelloDerives(ctx: Context, parse: seq<byte> -> Option<ServerHello>, s: State, op: Op)
    requires op.Hello? && ParsedBy(parse, op) && Step(ctx, s, op).status.FinishedSent?
    ensures Derived(ctx, parse, Step(ctx, s, op).session)
  {
    assert Step(ctx, s, op).session.material == ctx.kdf(InputOf(Step(ctx, s, op).session, op.secret.value));
  }

  lemma StepStaysOnItsWay(ctx: Context, parse: seq<byte> -> Option<ServerHello>, servers: set<Session>, s: State, op: Op)
    requires IdealKdf(ctx.kdf) && forall srv :: srv in servers ==> Derived(ctx, parse, srv)
    requires OnItsWay(ctx, parse, servers, s) && ParsedBy(parse, op) && FinishedByServer(s, op, servers)
    ensures OnItsWay(ctx, parse, servers, Step(ctx, s, op))
  {
    var s' := Step(ctx, s, op);
    if op.Hello? && s'.status.FinishedSent? {
      HelloDerives(ctx, parse, s, op);
    } else if op.Finished? && s'.status.Established? {
      var srv :| srv in servers && op.mac == Some(ServerFinished(srv));
      FinishedBinds(ctx, parse, s.session, srv);
    }
  }

  /**
   Whatever is delivered after the client's hello: a channel that is open holds exactly a session
   of the server, and nothing was sent or received before it opened.
   */
  lemma {:induction false} OpensWithTheServer(ctx: Context, parse: seq<byte> -> Option<ServerHello>, servers: set<Session>,
                                              s: State, ops: seq<Op>)
    requires IdealKdf(ctx.kdf) && forall srv :: srv in servers ==> Derived(ctx, parse, srv)
    requires OnItsWay(ctx, parse, servers, s) && Delivered(ctx, parse, servers, s, ops)
    ensures OnItsWay(ctx, parse, servers, Life(ctx, s, ops))
    decreases |ops|
  {
    if ops != [] {
      StepStaysOnItsWay(ctx, parse, servers, s, ops[0]);
      OpensWithTheServer(ctx, parse, servers, Step(ctx, s, ops[0]), ops[1..]);
    }
  }

  /** The two ends as the handshake leaves them. */
  function Opened(client: State, srv: Session): Pair {
    Pair(End(client, [], [], []), End(State(Established, NoError, 0, 0, Mirror(srv)), [], [], []), {})
  }

  /**
   Handshake and records together: after whatever the network did to the handshake, the channel
   opens only to a session of the server, and from then on whatever the network does each end
   accepts a prefix of what the other was asked to send, under numbers 1..n and distinct nonces.
   */
  lemma OpenChannelDelivers(ctx: Context, parse: seq<byte> -> Option<ServerHello>, servers: set<Session>, s: State, ops: seq<Op>,
                            last: Op, actions: seq<Action>, end: Pair)
    requires IdealKdf(ctx.kdf) && forall srv :: srv in servers ==> Derived(ctx, parse, srv)
    requires s.status.HelloSent? && s.error == NoError && s.sent == 0 == s.received
    requires Delivered(ctx, parse, servers, s, ops) && Life(ctx, s, ops).status.FinishedSent?
    requires ParsedBy(parse, last) && FinishedByServer(Life(ctx, s, ops), last, servers)
    requires var client := Step(ctx, Life(ctx, s, ops), last);
             client.status.Established? && Run(Opened(client, client.session), actions, end)
    ensures Step(ctx, Life(ctx, s, ops), last).session in servers
    ensures end.client.got <= end.server.sent && end.server.got <= end.client.sent
    ensures NumberedFromOne(end.client.frames) && NumberedFromOne(end.server.frames)
    ensures NoncesDistinct(end.client.frames) && NoncesDistinct(end.server.frames)
  {
    OpensWithTheServer(ctx, parse, servers, s, ops);
    var waiting := Life(ctx, s, ops);
    StepStaysOnItsWay(ctx, parse, servers, waiting, last);
    var client := Step(ctx, waiting, last);
    assert Opened(client, client.session) == Start(client.session);
    assert Derived(ctx, parse, client.session);
    RecordsAreAPrefix(client.session, actions, end);
  }
}
