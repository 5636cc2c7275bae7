/**
 The encrypted channel of the client: the handshake status machine and the strictly ordered
 record layer.

 Cryptography is symbolic and ideal. A sealed body opens only under the key, nonce and
 associated data it was sealed with, a signature verifies only under the key and transcript
 it was made for, and key derivation is a parameter. The bytes of transcripts, nonces and
 associated data are real, so that what they bind is proved and not assumed.
 */
module SecureChannel {
  import opened WireFormat
  import FC = FrameCodec

  const VERSION: uint32 := 1
  const CIPHER_SUITE: uint32 := 1
  const KEY_LEN: nat := 32
  const NONCE_LEN: nat := 32
  const SESSION_ID_LEN: nat := 16
  const SIGNATURE_LEN: nat := 64
  const TAG_LEN: nat := 16
  const MAC_LEN: nat := 32
  const HANDSHAKE_LABEL: string := "jitong-app-handshake-v1"
  const FRAME_LABEL: string := "jitong-app-frame-v1"
  const UINT64_MAX: int := 0xffff_ffff_ffff_ffff

  datatype Status = NotStarted | HelloSent | FinishedSent | Established | Failed
  datatype Error = NoError | CryptoInit | BadVersion | BadCipherSuite | BadFieldLength | BadKeyId | BadSignature
                 | BadFinished | BadState | BadFrame | Authentication | Sequence | Internal

  type Key = int

  datatype Material = Material(clientKey: Key, serverKey: Key, clientPrefix: seq<byte>, serverPrefix: seq<byte>,
                               clientFinished: Key, serverFinished: Key)

  datatype KdfInput = KdfInput(secret: seq<byte>, clientNonce: seq<byte>, serverNonce: seq<byte>, sessionId: seq<byte>,
                               clientPayload: seq<byte>, serverPayload: seq<byte>)

  datatype Signature = Signed(publicKey: seq<byte>, transcript: seq<byte>) | Forged(length: nat)

  function SignatureLength(s: Signature): nat {
    if s.Signed? then SIGNATURE_LEN else s.length
  }

  datatype ServerHello = ServerHello(version: uint32, cipherSuite: uint32, publicKey: seq<byte>, nonce: seq<byte>,
                                     sessionId: seq<byte>, keyId: uint32, signature: Signature)

  /** Keyed hashes of the two payloads; the server's also covers the client's. */
  datatype Mac =
    | ClientMac(key: Key, clientPayload: seq<byte>, serverPayload: seq<byte>)
    | ServerMac(key: Key, clientPayload: seq<byte>, serverPayload: seq<byte>, client: Mac)
    | OtherMac(length: nat)

  function MacLength(m: Mac): nat {
    if m.OtherMac? then m.length else MAC_LEN
  }

  datatype Session = Session(clientPayload: seq<byte>, clientNonce: seq<byte>, serverPayload: seq<byte>,
                             serverPub: seq<byte>, serverNonce: seq<byte>, sessionId: seq<byte>, keyId: uint32,
                             material: Material)

  datatype State = State(status: Status, error: Error, sent: uint64, received: uint64, session: Session)

  // ---- records ----

  datatype Inner = Inner(kind: uint32, payload: seq<byte>)

  datatype Body = Sealed(key: Key, nonce: seq<byte>, aad: seq<byte>, plain: seq<byte>) | Junk(length: nat)

  datatype Frame = Frame(version: uint32, sessionId: seq<byte>, sequence: uint64, body: Body, tagLen: nat)

  datatype Wire = Garbage | Parsed(frame: Frame)

  function BodyLength(b: Body): nat {
    if b.Sealed? then |b.plain| else b.length
  }

  function Open(key: Key, nonce: seq<byte>, aad: seq<byte>, b: Body): Option<seq<byte>> {
    if b.Sealed? && b.key == key && b.nonce == nonce && b.aad == aad then Some(b.plain) else None
  }

  function Ascii(s: string): seq<byte> {
    seq(|s|, i requires 0 <= i < |s| => s[i] as int % 0x100)
  }

  function Nonce(prefix: seq<byte>, sequence: uint64): seq<byte> {
    prefix + BigEndian(sequence, 8)
  }

  function Aad(sessionId: seq<byte>, sequence: uint64): seq<byte> {
    Ascii(FRAME_LABEL) + (BigEndian(VERSION, 4) + (sessionId + BigEndian(sequence, 8)))
  }

  function Plaintext(m: Inner): seq<byte> {
    LittleEndian(m.kind, 4) + m.payload
  }

  /** The handshake and record types themselves may not travel inside a record. */
  predicate ControlType(kind: uint32) {
    1036 <= kind <= 1040
  }

  function SealedFrame(key: Key, prefix: seq<byte>, sessionId: seq<byte>, sequence: uint64, m: Inner): Frame {
    Frame(VERSION, sessionId, sequence, Sealed(key, Nonce(prefix, sequence), Aad(sessionId, sequence), Plaintext(m)), TAG_LEN)
  }

  function Fail(s: State, e: Error): State {
    s.(status := Failed, error := e)
  }

  /** `cipherFails` is the outcome of the cipher library. */
  function Encrypted(s: State, m: Inner, cipherFails: bool): (State, Option<Frame>) {
    if !s.status.Established? then (Fail(s, BadState), None)
    else if ControlType(m.kind) then (Fail(s, BadFrame), None)
    else if s.sent == UINT64_MAX then (Fail(s, Sequence), None)
    else
      var s' := s.(sent := s.sent + 1);
      if cipherFails then (Fail(s', Internal), None)
      else (s', Some(SealedFrame(s.session.material.clientKey, s.session.material.clientPrefix, s.session.sessionId, s'.sent, m)))
  }

  /** The first check a frame fails, if any, before it is opened. */
  function FrameError(s: State, w: Wire): Error {
    if w.Garbage? || w.frame.version != VERSION || w.frame.sessionId != s.session.sessionId
       || w.frame.tagLen != TAG_LEN || BodyLength(w.frame.body) < 4 then BadFrame
    else if w.frame.sequence == 0 || s.received == UINT64_MAX || w.frame.sequence != s.received + 1 then Sequence
    else NoError
  }

  function InnerOf(plain: seq<byte>): Inner
    requires |plain| >= 4
  {
    Inner(FC.DecodeType32(plain), plain[4..])
  }

  function Decrypted(s: State, w: Wire): (State, Option<Inner>) {
    if !s.status.Established? then (Fail(s, BadState), None)
    else if FrameError(s, w) != NoError then (Fail(s, FrameError(s, w)), None)
    else
      var f, m := w.frame, s.session.material;
      var plain := Open(m.serverKey, Nonce(m.serverPrefix, f.sequence), Aad(s.session.sessionId, f.sequence), f.body);
      if plain.None? then (Fail(s, Authentication), None)
      else if ControlType(InnerOf(plain.value).kind) then (Fail(s, BadFrame), None)
      else (s.(received := f.sequence), Some(InnerOf(plain.value)))
  }

  // ---- the handshake ----

  function Transcript(clientPayload: seq<byte>, publicKey: seq<byte>, nonce: seq<byte>, sessionId: seq<byte>, keyId: uint32): seq<byte> {
    Ascii(HANDSHAKE_LABEL) + (BigEndian(|clientPayload|, 4) + (clientPayload + (BigEndian(VERSION, 4) +
      (publicKey + (nonce + (sessionId + (BigEndian(keyId, 4) + BigEndian(CIPHER_SUITE, 4))))))))
  }

  function HelloTranscript(clientPayload: seq<byte>, h: ServerHello): seq<byte> {
    Transcript(clientPayload, h.publicKey, h.nonce, h.sessionId, h.keyId)
  }

  predicate FieldLengthsOk(h: ServerHello) {
    |h.publicKey| == KEY_LEN && |h.nonce| == NONCE_LEN && |h.sessionId| == SESSION_ID_LEN && SignatureLength(h.signature) == SIGNATURE_LEN
  }

  /**
   The first check a server hello fails. `secret` is the outcome of the key exchange: none when
   a hash or the exchange fails or the shared secret is all zero. `macFails` is the outcome of the
   hash that closes the client's side.
   */
  function HelloError(keys: map<uint32, seq<byte>>, clientPayload: seq<byte>, hello: Option<ServerHello>,
                      secret: Option<seq<byte>>, macFails: bool): Error {
    if hello.None? then BadFieldLength
    else
      var h := hello.value;
      if h.version != VERSION then BadVersion
      else if h.cipherSuite != CIPHER_SUITE then BadCipherSuite
      else if !FieldLengthsOk(h) then BadFieldLength
      else if h.keyId !in keys then BadKeyId
      else if |keys[h.keyId]| != KEY_LEN || h.signature != Signed(keys[h.keyId], HelloTranscript(clientPayload, h)) then BadSignature
      else if secret.None? || macFails then CryptoInit
      else NoError
  }

  /** The session after a server hello: fields are taken over once their lengths are checked, keys once they are derived. */
  function HelloSession(s: Session, payload: seq<byte>, hello: Option<ServerHello>, secret: Option<seq<byte>>,
                        kdf: KdfInput -> Material, e: Error): Session {
    var received := s.(serverPayload := payload);
    if hello.None? || e in {BadVersion, BadCipherSuite, BadFieldLength} then received
    else
      var h := hello.value;
      var named := received.(serverPub := h.publicKey, serverNonce := h.nonce, sessionId := h.sessionId, keyId := h.keyId);
      if e !in {NoError, CryptoInit} || secret.None? then named
      else named.(material := kdf(KdfInput(secret.value, s.clientNonce, h.nonce, h.sessionId, s.clientPayload, payload)))
  }

  function ClientFinished(s: Session): Mac {
    ClientMac(s.material.clientFinished, s.clientPayload, s.serverPayload)
  }

  function ServerFinished(s: Session): Mac {
    ServerMac(s.material.serverFinished, s.clientPayload, s.serverPayload, ClientFinished(s))
  }

  /** A server hello is only looked at while one is awaited. */
  function AfterHello(s: State, keys: map<uint32, seq<byte>>, payload: seq<byte>, hello: Option<ServerHello>,
                      secret: Option<seq<byte>>, kdf: KdfInput -> Material, macFails: bool): State {
    if !s.status.HelloSent? then Fail(s, BadState)
    else
      var e := HelloError(keys, s.session.clientPayload, hello, secret, macFails);
      var s' := s.(session := HelloSession(s.session, payload, hello, secret, kdf, e));
      if e == NoError then s'.(status := FinishedSent) else Fail(s', e)
  }

  function AfterFinished(s: State, received: Option<Mac>, macFails: bool): State {
    if !s.status.FinishedSent? then Fail(s, BadState)
    else if received.None? || MacLength(received.value) != MAC_LEN then Fail(s, BadFinished)
    else if macFails then Fail(s, CryptoInit)
    else if received != Some(ServerFinished(s.session)) then Fail(s, BadFinished)
    else s.(status := Established)
  }

  const BLANK: Session := Session([], [], [], [], [], [], 0, Material(0, 0, [], [], 0, 0))

  datatype HelloStep = KeyFails | NonceFails | RandomIdFails | AllDrawn

  function ZeroBytes(n: nat): seq<byte> {
    seq(n, _ => 0)
  }

  class ClientSecureChannel {
    const kdf: KdfInput -> Material
    var identityKeys: map<uint32, seq<byte>>
    var status: Status
    var lastError: Error
    var sendSequence: uint64
    var receiveSequence: uint64
    var session: Session

    function View(): State
      reads this
    {
      State(status, lastError, sendSequence, receiveSequence, session)
    }

    constructor (kdf: KdfInput -> Material, identityKeys: map<uint32, seq<byte>>)
      ensures View() == State(NotStarted, NoError, 0, 0, BLANK)
      ensures this.kdf == kdf && this.identityKeys == identityKeys
    {
      this.kdf, this.identityKeys := kdf, identityKeys;
      status, lastError, sendSequence, receiveSequence, session := NotStarted, NoError, 0, 0, BLANK;
    }

    method Reset()
      modifies this`status, this`lastError, this`sendSequence, this`receiveSequence, this`session
      ensures View() == State(NotStarted, NoError, 0, 0, BLANK)
    {
      status, lastError, sendSequence, receiveSequence, session := NotStarted, NoError, 0, 0, BLANK;
    }

    method FailWith(e: Error)
      modifies this`status, this`lastError
      ensures View() == Fail(old(View()), e)
    {
      lastError := e;
      status := Failed;
    }

    /**
     `payload` is the serialised hello with the drawn `nonce`. `fails` is the step at which the
     library gives up: the key, the nonce (its bytes are zero by then) or the random id.
     */
    method BuildClientHello(payload: seq<byte>, nonce: seq<byte>, fails: HelloStep) returns (ok: bool)
      modifies this`status, this`lastError, this`sendSequence, this`receiveSequence, this`session
      ensures ok == fails.AllDrawn?
      ensures ok ==> View() == State(HelloSent, NoError, 0, 0, BLANK.(clientPayload := payload, clientNonce := nonce))
      ensures !ok ==> View() == State(Failed, CryptoInit, 0, 0, match fails
                                                                case NonceFails => BLANK.(clientNonce := ZeroBytes(NONCE_LEN))
                                                                case RandomIdFails => BLANK.(clientNonce := nonce)
                                                                case _ => BLANK)
    {
      Reset();
      if fails.KeyFails? {
        FailWith(CryptoInit);
        return false;
      }
      session := session.(clientNonce := ZeroBytes(NONCE_LEN));
      if fails.NonceFails? {
        FailWith(CryptoInit);
        return false;
      }
      session := session.(clientNonce := nonce);
      if fails.RandomIdFails? {
        FailWith(CryptoInit);
        return false;
      }
      session := session.(clientPayload := payload);
      status := HelloSent;
      return true;
    }

    method HandleServerHello(payload: seq<byte>, hello: Option<ServerHello>, secret: Option<seq<byte>>, macFails: bool)
      returns (finished: Option<Mac>)
      modifies this`status, this`lastError, this`session
      ensures View() == AfterHello(old(View()), identityKeys, payload, hello, secret, kdf, macFails)
      ensures finished == if status == FinishedSent then Some(ClientFinished(session)) else None
    {
      if status != HelloSent {
        FailWith(BadState);
        return None;
      }
      session := session.(serverPayload := payload);
      if hello.None? {
        FailWith(BadFieldLength);
        return None;
      }
      var h := hello.value;
      if h.version != VERSION {
        FailWith(BadVersion);
        return None;
      }
      if h.cipherSuite != CIPHER_SUITE {
        FailWith(BadCipherSuite);
        return None;
      }
      if !FieldLengthsOk(h) {
        FailWith(BadFieldLength);
        return None;
      }
      session := session.(serverPub := h.publicKey, serverNonce := h.nonce, sessionId := h.sessionId, keyId := h.keyId);
      if h.keyId !in identityKeys {
        FailWith(BadKeyId);
        return None;
      }
      var publicKey := identityKeys[h.keyId];
      if |publicKey| != KEY_LEN || h.signature != Signed(publicKey, HelloTranscript(session.clientPayload, h)) {
        FailWith(BadSignature);
        return None;
      }
      if secret.None? {
        FailWith(CryptoInit);
        return None;
      }
      var input := KdfInput(secret.value, session.clientNonce, h.nonce, h.sessionId, session.clientPayload, payload);
      session := session.(material := kdf(input));
      if macFails {
        FailWith(CryptoInit);
        return None;
      }
      status := FinishedSent;
      return Some(ClientFinished(session));
    }

    /** `received` is none when the payload does not parse or has the wrong length. */
    method HandleServerFinished(received: Option<Mac>, macFails: bool) returns (ok: bool)
      modifies this`status, this`lastError
      ensures View() == AfterFinished(old(View()), received, macFails) && ok == (status == Established)
    {
      if status != FinishedSent {
        FailWith(BadState);
        return false;
      }
      if received.None? || MacLength(received.value) != MAC_LEN {
        FailWith(BadFinished);
        return false;
      }
      if macFails {
        FailWith(CryptoInit);
        return false;
      }
      if received != Some(ServerFinished(session)) {
        FailWith(BadFinished);
        return false;
      }
      status := Established;
      return true;
    }

    method Encrypt(m: Inner, cipherFails: bool) returns (frame: Option<Frame>)
      modifies this`status, this`lastError, this`sendSequence
      ensures (View(), frame) == Encrypted(old(View()), m, cipherFails)
    {
      if status != Established {
        FailWith(BadState);
        return None;
      }
      if 1036 <= m.kind <= 1040 {
        FailWith(BadFrame);
        return None;
      }
      if sendSequence == UINT64_MAX {
        FailWith(Sequence);
        return None;
      }
      sendSequence := sendSequence + 1;
      var sequence := sendSequence;
      var plaintext := LittleEndian(m.kind, 4) + m.payload;
      if cipherFails {
        FailWith(Internal);
        return None;
      }
      var material := session.material;
      var body := Sealed(material.clientKey, Nonce(material.clientPrefix, sequence), Aad(session.sessionId, sequence), plaintext);
      return Some(Frame(VERSION, session.sessionId, sequence, body, TAG_LEN));
    }

    method Decrypt(w: Wire) returns (m: Option<Inner>)
      modifies this`status, this`lastError, this`receiveSequence
      ensures (View(), m) == Decrypted(old(View()), w)
    {
      if status != Established {
        FailWith(BadState);
        return None;
      }
      if w.Garbage? {
        FailWith(BadFrame);
        return None;
      }
      var f := w.frame;
      if f.version != VERSION || f.sessionId != session.sessionId || f.tagLen != TAG_LEN || BodyLength(f.body) < 4 {
        FailWith(BadFrame);
        return None;
      }
      if f.sequence == 0 || receiveSequence == UINT64_MAX || f.sequence != receiveSequence + 1 {
        FailWith(Sequence);
        return None;
      }
      var plain := Open(session.material.serverKey, Nonce(session.material.serverPrefix, f.sequence),
                        Aad(session.sessionId, f.sequence), f.body);
      if plain.None? {
        FailWith(Authentication);
        return None;
      }
      var inner := InnerOf(plain.value);
      if 1036 <= inner.kind <= 1040 {
        FailWith(BadFrame);
        return None;
      }
      receiveSequence := f.sequence;
      return Some(inner);
    }
  }

  // ---- what the bytes bind ----

  lemma SplitEqual(a: seq<byte>, b: seq<byte>, a': seq<byte>, b': seq<byte>)
    requires |a| == |a'| && a + b == a' + b'
    ensures a == a' && b == b'
  {
    assert a == (a + b)[..|a|] == a';
    assert b == (a + b)[|a|..] == b';
  }

  lemma BigEndianInjective(v: nat, v': nat, width: nat)
    requires v < Pow256(width) && v' < Pow256(width) && BigEndian(v, width) == BigEndian(v', width)
    ensures v == v'
  {
    BigEndianRoundTrip(v, width);
    BigEndianRoundTrip(v', width);
  }

  /** A signed transcript fixes the client's hello and every parameter of the server's. */
  lemma TranscriptBinds(p: seq<byte>, pub: seq<byte>, nonce: seq<byte>, sid: seq<byte>, id: uint32,
                        p': seq<byte>, pub': seq<byte>, nonce': seq<byte>, sid': seq<byte>, id': uint32)
    requires |p| < 0x1_0000_0000 && |p'| < 0x1_0000_0000
    requires |pub| == |pub'| == KEY_LEN && |nonce| == |nonce'| == NONCE_LEN && |sid| == |sid'| == SESSION_ID_LEN
    requires Transcript(p, pub, nonce, sid, id) == Transcript(p', pub', nonce', sid', id')
    ensures p == p' && pub == pub' && nonce == nonce' && sid == sid' && id == id'
  {
    FourBytes();
    var heading, v, suite := Ascii(HANDSHAKE_LABEL), BigEndian(VERSION, 4), BigEndian(CIPHER_SUITE, 4);
    var n, n', k, k' := BigEndian(|p|, 4), BigEndian(|p'|, 4), BigEndian(id, 4), BigEndian(id', 4);
    var e, e' := sid + (k + suite), sid' + (k' + suite);
    var d, d' := pub + (nonce + e), pub' + (nonce' + e');
    SplitEqual(heading, n + (p + (v + d)), heading, n' + (p' + (v + d')));
    SplitEqual(n, p + (v + d), n', p' + (v + d'));
    BigEndianInjective(|p|, |p'|, 4);
    SplitEqual(p, v + d, p', v + d');
    SplitEqual(v, d, v, d');
    SplitEqual(pub, nonce + e, pub', nonce' + e');
    SplitEqual(nonce, e, nonce', e');
    SplitEqual(sid, k + suite, sid', k' + suite);
    SplitEqual(k, suite, k', suite);
    BigEndianInjective(id, id', 4);
  }

  lemma NonceBinds(prefix: seq<byte>, a: uint64, b: uint64)
    requires Nonce(prefix, a) == Nonce(prefix, b)
    ensures a == b
  {
    FourBytes();
    SplitEqual(prefix, BigEndian(a, 8), prefix, BigEndian(b, 8));
    BigEndianInjective(a, b, 8);
  }

  lemma PlaintextRoundTrip(m: Inner)
    ensures |Plaintext(m)| >= 4 && InnerOf(Plaintext(m)) == m
  {
    FourBytes();
    assert Plaintext(m)[..4] == LittleEndian(m.kind, 4);
    LittleEndianRoundTrip(m.kind, 4);
  }

  /** The associated data of a record fix its session and its sequence number. */
  lemma AadBinds(sid: seq<byte>, sid': seq<byte>, a: uint64, b: uint64)
    requires |sid| == |sid'| == SESSION_ID_LEN && Aad(sid, a) == Aad(sid', b)
    ensures sid == sid' && a == b
  {
    FourBytes();
    var heading, v, n, n' := Ascii(FRAME_LABEL), BigEndian(VERSION, 4), BigEndian(a, 8), BigEndian(b, 8);
    SplitEqual(heading, v + (sid + n), heading, v + (sid' + n'));
    SplitEqual(v, sid + n, v, sid' + n');
    SplitEqual(sid, n, sid', n');
    BigEndianInjective(a, b, 8);
  }

  /**
   A body sealed in one session for one sequence number is accepted in no other and for no other,
   whatever frame it is put in, even under the same keys and nonce prefixes.
   */
  lemma SealedForOnePlace(sealer: State, m: Inner, opener: State, w: Wire)
    requires |sealer.session.sessionId| == |opener.session.sessionId| == SESSION_ID_LEN
    requires var f := Encrypted(sealer, m, false).1; f.Some? && w.Parsed? && w.frame.body == f.value.body
    requires Decrypted(opener, w).1.Some?
    ensures opener.session.sessionId == sealer.session.sessionId && w.frame.sequence == sealer.sent + 1
    ensures Decrypted(opener, w).1.value == m && opener.received == sealer.sent
  {
    AadBinds(sealer.session.sessionId, opener.session.sessionId, sealer.sent + 1, w.frame.sequence);
    PlaintextRoundTrip(m);
  }

  /** What a record says in the clear, and that it is opened by the other end's next step if nothing is altered. */
  lemma SealedIsOpened(sealer: State, m: Inner, opener: State)
    requires sealer.status.Established? && opener.status.Established? && !ControlType(m.kind) && sealer.sent < UINT64_MAX
    requires opener.session.sessionId == sealer.session.sessionId && opener.received == sealer.sent
    requires opener.session.material.serverKey == sealer.session.material.clientKey
    requires opener.session.material.serverPrefix == sealer.session.material.clientPrefix
    ensures var f := Encrypted(sealer, m, false).1;
            && f.Some? && f.value.version == 1 && f.value.sessionId == sealer.session.sessionId
            && f.value.sequence == sealer.sent + 1 && f.value.tagLen == 16 && BodyLength(f.value.body) == 4 + |m.payload|
            && Decrypted(opener, Parsed(f.value)).1 == Some(m)
  {
    PlaintextRoundTrip(m);
  }

  /** Which server hello is refused with which error; one that passes all checks is taken. */
  lemma HelloErrors(keys: map<uint32, seq<byte>>, clientPayload: seq<byte>, hello: Option<ServerHello>, secret: Option<seq<byte>>, macFails: bool)
    ensures var e := HelloError(keys, clientPayload, hello, secret, macFails);
            if hello.None? then e == BadFieldLength
            else
              var h := hello.value;
              var lengths := |h.publicKey| == 32 && |h.nonce| == 32 && |h.sessionId| == 16 && SignatureLength(h.signature) == 64;
              var supported, known := h.version == 1 && h.cipherSuite == 1, h.keyId in keys;
              var signed := known && |keys[h.keyId]| == 32 && h.signature == Signed(keys[h.keyId], HelloTranscript(clientPayload, h));
              && (e.BadVersion? <==> h.version != 1)
              && (e.BadCipherSuite? <==> h.version == 1 && h.cipherSuite != 1)
              && (e.BadFieldLength? <==> supported && !lengths)
              && (e.BadKeyId? <==> supported && lengths && !known)
              && (e.BadSignature? <==> supported && lengths && known && !signed)
              && (e.CryptoInit? <==> supported && lengths && signed && (secret.None? || macFails))
              && (e.NoError? <==> supported && lengths && signed && secret.Some? && !macFails)
  {
  }

  /** The last message of the handshake: only the expected hash opens the channel. */
  lemma FinishedErrors(s: State, received: Option<Mac>, macFails: bool)
    ensures var s' := AfterFinished(s, received, macFails);
            var awaited, whole := s.status.FinishedSent?, received.Some? && MacLength(received.value) == 32;
            && (s'.status.Established? <==> awaited && whole && !macFails && received.value == ServerFinished(s.session))
            && (s'.status.Established? || s'.status.Failed?)
            && (s'.status.Failed? ==>
                  s'.error == if !awaited then BadState else if whole && macFails then CryptoInit else BadFinished)
            && (s'.status.Established? ==> s'.error == s.error)
            && s'.session == s.session && s'.sent == s.sent && s'.received == s.received
  {
  }

  /** Which frame is refused before it is opened, and why. */
  lemma FrameErrors(s: State, w: Wire)
    ensures var e := FrameError(s, w);
            var shaped := w.Parsed? && w.frame.version == 1 && w.frame.sessionId == s.session.sessionId && w.frame.tagLen == 16 &&
                          BodyLength(w.frame.body) >= 4;
            && (e.BadFrame? <==> !shaped)
            && (e.Sequence? <==> shaped && w.frame.sequence != s.received + 1)
            && (e.NoError? <==> shaped && w.frame.sequence == s.received + 1)
  {
  }

  /** The associated data byte by byte. */
  lemma AadBytes(sid: seq<byte>, n: uint64)
    requires |sid| == 16
    ensures var a := Aad(sid, n); var heading := "jitong-app-frame-v1";
            && |a| == 47 && (forall i :: 0 <= i < 19 ==> a[i] == heading[i] as int)
            && a[19..23] == [0, 0, 0, 1] && a[23..39] == sid && BigEndianValue(a[39..]) == n
  {
    FourBytes();
    VersionBytes();
    var a, heading, one, n8 := Aad(sid, n), Ascii(FRAME_LABEL), [0, 0, 0, 1], BigEndian(n, 8);
    BigEndianRoundTrip(n, 8);
    Cut(a, 0, heading, one + (sid + n8));
    Cut(a, 19, one, sid + n8);
    Cut(a, 23, sid, n8);
    FrameHeadingStands(a, heading);
  }

  lemma FrameHeadingStands(a: seq<byte>, heading: seq<byte>)
    requires heading == Ascii("jitong-app-frame-v1") && 19 <= |a| && a[..19] == heading
    ensures forall i :: 0 <= i < 19 ==> a[i] == "jitong-app-frame-v1"[i] as int
  {
    assert forall i :: 0 <= i < 19 ==> a[i] == a[..19][i];
  }

  lemma VersionBytes()
    ensures BigEndian(1, 4) == [0, 0, 0, 1]
  {
  }

  /** Four bytes of prefix and eight of the sequence number. */
  lemma NonceBytes(prefix: seq<byte>, n: uint64)
    requires |prefix| == 4
    ensures |Nonce(prefix, n)| == 12 && Nonce(prefix, n)[..4] == prefix && BigEndianValue(Nonce(prefix, n)[4..]) == n
  {
    FourBytes();
    BigEndianRoundTrip(n, 8);
    assert Nonce(prefix, n)[4..] == BigEndian(n, 8);
  }

  /** Where each part of the signed transcript stands. */
  lemma TranscriptBytes(p: seq<byte>, pub: seq<byte>, nonce: seq<byte>, sid: seq<byte>, id: uint32)
    requires |p| < 0x1_0000_0000 && |pub| == 32 && |nonce| == 32 && |sid| == 16
    ensures var t := Transcript(p, pub, nonce, sid, id); var heading := "jitong-app-handshake-v1"; var n := |p|;
            && |t| == 119 + n && (forall i :: 0 <= i < 23 ==> t[i] == heading[i] as int)
            && BigEndianValue(t[23..27]) == n && t[27..27 + n] == p && t[27 + n..31 + n] == [0, 0, 0, 1]
            && t[31 + n..63 + n] == pub && t[63 + n..95 + n] == nonce && t[95 + n..111 + n] == sid
            && BigEndianValue(t[111 + n..115 + n]) == id && t[115 + n..] == [0, 0, 0, 1]
  {
    FourBytes();
    VersionBytes();
    var n, t, one := |p|, Transcript(p, pub, nonce, sid, id), [0, 0, 0, 1];
    var n4, id4 := BigEndian(n, 4), BigEndian(id, 4);
    BigEndianRoundTrip(n, 4);
    BigEndianRoundTrip(id, 4);
    var e := sid + (id4 + one);
    var d := pub + (nonce + e);
    Cut(t, 0, Ascii(HANDSHAKE_LABEL), n4 + (p + (one + d)));
    Cut(t, 23, n4, p + (one + d));
    Cut(t, 27, p, one + d);
    Cut(t, 27 + n, one, d);
    Cut(t, 31 + n, pub, nonce + e);
    Cut(t, 63 + n, nonce, e);
    Cut(t, 95 + n, sid, id4 + one);
    Cut(t, 111 + n, id4, one);
    HeadingStands(t, Ascii(HANDSHAKE_LABEL));
  }

  lemma Cut(t: seq<byte>, at: nat, a: seq<byte>, b: seq<byte>)
    requires at <= |t| && t[at..] == a + b
    ensures at + |a| <= |t| && t[at..at + |a|] == a && t[at + |a|..] == b
  {
    assert |t| == at + |a + b|;
    assert t[at..at + |a|] == t[at..][..|a|] == a;
    assert t[at + |a|..] == t[at..][|a|..] == b;
  }

  lemma HeadingStands(t: seq<byte>, heading: seq<byte>)
    requires heading == Ascii("jitong-app-handshake-v1") && 23 <= |t| && t[..23] == heading
    ensures forall i :: 0 <= i < 23 ==> t[i] == "jitong-app-handshake-v1"[i] as int
  {
    assert forall i :: 0 <= i < 23 ==> t[i] == t[..23][i];
  }

  /** The two closing hashes: each end's own key, the client's hello before the server's. */
  lemma ClosingHashes(s: Session)
    ensures var c := ClientFinished(s);
            && c.ClientMac? && c.key == s.material.clientFinished && c.clientPayload == s.clientPayload && c.serverPayload == s.serverPayload
    ensures var v := ServerFinished(s);
            && v.ServerMac? && v.key == s.material.serverFinished && v.clientPayload == s.clientPayload && v.serverPayload == s.serverPayload
            && v.client == ClientFinished(s)
  {
  }

  /** When a message is sealed; a refused one takes no number unless the cipher itself fails. */
  lemma SealsIff(s: State, m: Inner, cipherFails: bool)
    ensures var (s', frame) := Encrypted(s, m, cipherFails);
            var allowed := s.status.Established? && (m.kind < 1036 || m.kind > 1040) && s.sent < 0xffff_ffff_ffff_ffff;
            && (frame.Some? <==> allowed && !cipherFails)
            && s'.sent == s.sent + (if allowed then 1 else 0)
            && (frame.None? ==> s'.status.Failed?) && (frame.Some? ==> s'.status == s.status && s'.error == s.error)
            && s'.received == s.received && s'.session == s.session
  {
  }

  /** When a frame is opened, from its fields. */
  lemma OpensIff(s: State, f: Frame)
    ensures var (s', m) := Decrypted(s, Parsed(f));
            var b, k := f.body, s.session.material;
            var next := f.version == 1 && f.sessionId == s.session.sessionId && f.sequence == s.received + 1 && f.tagLen == 16;
            var genuine := b.Sealed? && |b.plain| >= 4 && b.key == k.serverKey && b.nonce == Nonce(k.serverPrefix, f.sequence) &&
                           b.aad == Aad(f.sessionId, f.sequence);
            && (m.Some? <==> s.status.Established? && next && genuine && !(1036 <= LittleEndianValue(b.plain[..4]) <= 1040))
            && (m.Some? ==> m.value.kind == LittleEndianValue(b.plain[..4]) && m.value.payload == b.plain[4..])
            && s'.received == s.received + (if m.Some? then 1 else 0)
            && (m.None? ==> s'.status.Failed?) && (m.Some? ==> s'.status == s.status && s'.error == s.error)
            && s'.sent == s.sent && s'.session == s.session
  {
  }
}
