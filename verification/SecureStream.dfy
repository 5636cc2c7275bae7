/**
 The whole pipeline of one direction: messages are encrypted into records, records are
 serialised into frames, frames become a byte stream that arrives in arbitrary pieces, and the
 receiving side undoes each step.

 Serialisation is a parameter: a pair of functions of which only that the second undoes the
 first is assumed.
 */
module SecureStream {
  import opened WireFormat
  import opened SecureChannel
  import SS = SecureSession
  import FC = FrameCodec

  const ENCRYPTED_FRAME: uint32 := 1040

  datatype Serialisation = Serialisation(write: Frame -> seq<byte>, read: seq<byte> -> Wire)

  ghost predicate Inverse(c: Serialisation) {
    forall f :: c.read(c.write(f)) == Parsed(f)
  }

  /** The records made for a list of messages, one after the other. */
  function EncryptAll(s: State, ms: seq<Inner>): seq<Frame>
    decreases |ms|
  {
    if ms == [] then []
    else
      var (s', f) := Encrypted(s, ms[0], false);
      (if f.Some? then [f.value] else []) + EncryptAll(s', ms[1..])
  }

  /** The messages accepted from a list of arriving frames. */
  function DecryptAll(s: State, c: Serialisation, frames: seq<FC.Frame>): seq<Inner>
    decreases |frames|
  {
    if frames == [] then []
    else
      var (s', m) := Decrypted(s, c.read(frames[0].payload));
      (if m.Some? then [m.value] else []) + DecryptAll(s', c, frames[1..])
  }

  function Packed(c: Serialisation, records: seq<Frame>): seq<FC.Frame> {
    if records == [] then [] else [FC.Frame(ENCRYPTED_FRAME, c.write(records[0]))] + Packed(c, records[1..])
  }

  /** Sender and receiver of one direction of an established session, `n` messages in. */
  predicate InStep(sender: State, receiver: State, session: Session, n: nat) {
    && sender.status.Established? && receiver.status.Established?
    && sender.session == session && receiver.session == SS.Mirror(session)
    && sender.sent == n == receiver.received
  }

  lemma OneRecord(sender: State, receiver: State, session: Session, n: nat, m: Inner)
    requires InStep(sender, receiver, session, n) && n < UINT64_MAX && !ControlType(m.kind)
    ensures var (sender', f) := Encrypted(sender, m, false);
            f.Some? &&
            var (receiver', got) := Decrypted(receiver, Parsed(f.value));
            got == Some(m) && InStep(sender', receiver', session, n + 1)
  {
    PlaintextRoundTrip(m);
  }

  lemma {:induction false} RecordsRoundTrip(sender: State, receiver: State, session: Session, n: nat, ms: seq<Inner>, c: Serialisation)
    requires Inverse(c) && InStep(sender, receiver, session, n) && n + |ms| <= UINT64_MAX
    requires forall i :: 0 <= i < |ms| ==> !ControlType(ms[i].kind)
    ensures DecryptAll(receiver, c, Packed(c, EncryptAll(sender, ms))) == ms
    decreases |ms|
  {
    if ms != [] {
      OneRecord(sender, receiver, session, n, ms[0]);
      var (sender', f) := Encrypted(sender, ms[0], false);
      var (receiver', _) := Decrypted(receiver, Parsed(f.value));
      RecordsRoundTrip(sender', receiver', session, n + 1, ms[1..], c);
      assert ms == [ms[0]] + ms[1..];
    }
  }

  /**
   Whatever messages one end sends in an established session, and however the bytes are cut on
   their way, the other end reads exactly these messages in this order and nothing is left over.
   */
  lemma StreamDelivers(sender: State, receiver: State, session: Session, ms: seq<Inner>, c: Serialisation, chunks: seq<seq<byte>>)
    requires Inverse(c) && InStep(sender, receiver, session, 0) && |ms| <= UINT64_MAX
    requires forall i :: 0 <= i < |ms| ==> !ControlType(ms[i].kind)
    requires FC.AllEncodable(Packed(c, EncryptAll(sender, ms)))
    requires FC.Concat(chunks) == FC.EncodeAll(Packed(c, EncryptAll(sender, ms)))
    ensures var arrived := FC.FeedAll([], chunks);
            DecryptAll(receiver, c, arrived.frames) == ms && arrived.rest == [] && !arrived.corrupt
  {
    FC.StreamRoundTrip(Packed(c, EncryptAll(sender, ms)), chunks);
    RecordsRoundTrip(sender, receiver, session, 0, ms, c);
  }
}
