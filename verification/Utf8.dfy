/**
 UTF-8 (RFC 3629, section 3) as this program reads and measures it, on bytes, and the UTF-16
 length of a text (RFC 2781, section 2.1).
 */
module Utf8 {
  import opened WireFormat

  /** Unicode scalar values: code points that are not surrogates. */
  type Scalar = c: int | 0 <= c < 0xd800 || 0xe000 <= c <= 0x10_ffff

  function Length(c: Scalar): (n: nat)
    ensures 1 <= n <= 4
  {
    if c < 0x80 then 1 else if c < 0x800 then 2 else if c < 0x1_0000 then 3 else 4
  }

  /** `c` without its last n groups of six bits. */
  function Shift(c: nat, n: nat): nat {
    if n == 0 then c else Shift(c, n - 1) / 0x40
  }

  lemma ShiftFits(c: Scalar)
    ensures Shift(c, 1) < 0x20 || c >= 0x800
    ensures Shift(c, 2) < 0x10 || c >= 0x1_0000
    ensures Shift(c, 3) < 0x08
  {
    assert Shift(c, 1) == c / 0x40 && Shift(c, 2) == c / 0x40 / 0x40 && Shift(c, 3) == c / 0x40 / 0x40 / 0x40;
  }

  function LeadByte(c: Scalar): byte {
    ShiftFits(c);
    if Length(c) == 1 then c
    else if Length(c) == 2 then 0xc0 + Shift(c, 1)
    else if Length(c) == 3 then 0xe0 + Shift(c, 2)
    else 0xf0 + Shift(c, 3)
  }

  /** The last n groups of six bits, each in a continuation byte. */
  function Tail(c: nat, n: nat): (b: seq<byte>)
    ensures |b| == n
  {
    if n == 0 then [] else [0x80 + Shift(c, n - 1) % 0x40] + Tail(c, n - 1)
  }

  function Encode(c: Scalar): (b: seq<byte>)
    ensures |b| == Length(c)
  {
    [LeadByte(c)] + Tail(c, Length(c) - 1)
  }

  /** The table of section 3: as few bytes as the value needs, its bits in groups of six from the right. */
  lemma EncodeTable(c: Scalar)
    ensures Encode(c) ==
            if c <= 0x7f then [c]
            else if c <= 0x7ff then [0xc0 + c / 0x40, 0x80 + c % 0x40]
            else if c <= 0xffff then [0xe0 + c / 0x1000, 0x80 + c / 0x40 % 0x40, 0x80 + c % 0x40]
            else [0xf0 + c / 0x4_0000, 0x80 + c / 0x1000 % 0x40, 0x80 + c / 0x40 % 0x40, 0x80 + c % 0x40]
  {
    assert Shift(c, 1) == c / 0x40 && Shift(c, 2) == c / 0x40 / 0x40 && Shift(c, 3) == c / 0x40 / 0x40 / 0x40;
    TailTable(c);
  }

  lemma TailTable(c: nat)
    ensures Tail(c, 0) == [] && Tail(c, 1) == [0x80 + c % 0x40]
    ensures Tail(c, 2) == [0x80 + c / 0x40 % 0x40, 0x80 + c % 0x40]
    ensures Tail(c, 3) == [0x80 + c / 0x1000 % 0x40, 0x80 + c / 0x40 % 0x40, 0x80 + c % 0x40]
  {
    assert Shift(c, 0) == c && Shift(c, 1) == c / 0x40 && Shift(c, 2) == c / 0x40 / 0x40;
    assert Tail(c, 1) == [0x80 + Shift(c, 0) % 0x40] + Tail(c, 0);
    assert Tail(c, 2) == [0x80 + Shift(c, 1) % 0x40] + Tail(c, 1);
    assert Tail(c, 3) == [0x80 + Shift(c, 2) % 0x40] + Tail(c, 2);
  }

  function EncodeAll(t: seq<Scalar>): seq<byte> {
    if t == [] then [] else Encode(t[0]) + EncodeAll(t[1..])
  }

  /** UTF-16 code units of a scalar value and of a text. */
  function Width(c: Scalar): nat {
    if c > 0xffff then 2 else 1
  }

  function Units(t: seq<Scalar>): nat {
    if t == [] then 0 else Width(t[0]) + Units(t[1..])
  }

  predicate Continuation(b: byte) {
    0x80 <= b < 0xc0
  }

  // ---- measuring ----

  /** The sequence length announced by a lead byte. */
  function LeadLength(b: byte): nat {
    if b < 0x80 then 1 else if b < 0xe0 then 2 else if b < 0xf0 then 3 else 4
  }

  /** UTF-16 units of the whole sequences in s[i..bytes]. */
  function UnitsFrom(s: seq<byte>, i: nat, bytes: nat): nat
    requires bytes <= |s|
    decreases bytes - i
  {
    if i >= bytes then 0
    else
      var n := LeadLength(s[i]);
      if i + n > bytes then 0 else (if n == 4 then 2 else 1) + UnitsFrom(s, i + n, bytes)
  }

  method Utf16Units(s: seq<byte>, bytes: nat) returns (units: nat)
    requires bytes <= |s|
    ensures units == UnitsFrom(s, 0, bytes)
  {
    units := 0;
    var i := 0;
    while i < bytes
      invariant units + UnitsFrom(s, i, bytes) == UnitsFrom(s, 0, bytes)
      decreases bytes - i
    {
      var c := s[i];
      var n := if c < 0x80 then 1 else if c < 0xe0 then 2 else if c < 0xf0 then 3 else 4;
      if i + n > bytes {
        break;
      }
      units := units + if n == 4 then 2 else 1;
      i := i + n;
    }
  }

  // ---- decoding ----

  datatype Decoded = Malformed | Point(value: int, next: nat, width: nat)

  /** What the lead byte says: the length of the sequence and its leading bits. */
  function Lead(c: byte): (int, nat) {
    if 0xc0 <= c < 0xe0 then (c - 0xc0, 2)
    else if 0xe0 <= c < 0xf0 then (c - 0xe0, 3)
    else if 0xf0 <= c < 0xf8 then (c - 0xf0, 4)
    else (c as int, 1)
  }

  /** The value of a sequence from its leading bits and the bytes that must continue it. */
  function TailValue(cp: int, s: seq<byte>): Option<int>
    decreases |s|
  {
    if s == [] then Some(cp)
    else if !Continuation(s[0]) then None
    else
      var x: int := s[0];
      TailValue(cp * 0x40 + (x - 0x80), s[1..])
  }

  function DecodeAt(s: seq<byte>, at: nat): Decoded {
    if at >= |s| then Malformed
    else
      var (cp, n) := Lead(s[at]);
      if at + n > |s| then Malformed
      else
        var value := TailValue(cp, s[at + 1..at + n]);
        if value.None? then Malformed else Point(value.value, at + n, if value.value > 0xffff then 2 else 1)
  }

  method NextCodePoint(s: seq<byte>, at: nat) returns (r: Decoded)
    ensures r == DecodeAt(s, at)
  {
    if at >= |s| {
      return Malformed;
    }
    var (cp, n) := Lead(s[at]);
    if at + n > |s| {
      return Malformed;
    }
    var tail := s[at + 1..at + n];
    var i := 0;
    while i < |tail|
      invariant 0 <= i <= |tail|
      invariant TailValue(cp, tail[i..]) == TailValue(Lead(s[at]).0, tail)
    {
      var x: int := tail[i];
      if !(0x80 <= x < 0xc0) {
        return Malformed;
      }
      assert tail[i..][1..] == tail[i + 1..];
      cp := cp * 0x40 + (x - 0x80);
      i := i + 1;
    }
    return Point(cp, at + n, if cp > 0xffff then 2 else 1);
  }

  // ---- any bytes ----

  /** Also on malformed text a sequence is as long as its first byte says, and one that is cut off is not counted. */
  lemma UnitsTable(s: seq<byte>, i: nat, bytes: nat)
    requires i < bytes <= |s|
    ensures var n := if s[i] <= 0x7f then 1 else if s[i] <= 0xdf then 2 else if s[i] <= 0xef then 3 else 4;
            UnitsFrom(s, i, bytes) == if bytes - i < n then 0 else (if s[i] >= 0xf0 then 2 else 1) + UnitsFrom(s, i + n, bytes)
  {
  }

  predicate Continued(s: seq<byte>, at: nat, n: nat) {
    at + n <= |s| && forall j :: at < j < at + n ==> 0x80 <= s[j] <= 0xbf
  }

  /** What is read at any place of any bytes, by the number of bytes the first one announces. */
  lemma DecodeTable(s: seq<byte>, at: nat)
    requires at < |s|
    ensures var b: int, r := s[at], DecodeAt(s, at);
            var n := if 0xc0 <= b <= 0xdf then 2 else if 0xe0 <= b <= 0xef then 3 else if 0xf0 <= b <= 0xf7 then 4 else 1;
            && (r.Point? <==> Continued(s, at, n))
            && (r.Point? ==>
                  && r.next == at + n && r.width == (if r.value >= 0x1_0000 then 2 else 1)
                  && r.value == match n
                                case 1 => b
                                case 2 => (b - 0xc0) * 0x40 + Bits(s[at + 1])
                                case 3 => (b - 0xe0) * 0x1000 + Bits(s[at + 1]) * 0x40 + Bits(s[at + 2])
                                case _ => (b - 0xf0) * 0x4_0000 + Bits(s[at + 1]) * 0x1000 + Bits(s[at + 2]) * 0x40 + Bits(s[at + 3]))
  {
    var (cp, n) := Lead(s[at]);
    if at + n <= |s| {
      var tail := s[at + 1..at + n];
      assert forall j :: at < j < at + n ==> s[j] == tail[j - at - 1];
      TailTableValue(cp, tail);
    }
  }

  /** The six bits a continuation byte adds. */
  function Bits(b: byte): int {
    b as int - 0x80
  }

  lemma TailTableValue(cp: int, tail: seq<byte>)
    requires |tail| <= 3
    ensures TailValue(cp, tail).Some? <==> forall j :: 0 <= j < |tail| ==> 0x80 <= tail[j] <= 0xbf
    ensures TailValue(cp, tail).Some? ==>
              TailValue(cp, tail).value == match |tail|
                                           case 0 => cp
                                           case 1 => cp * 0x40 + Bits(tail[0])
                                           case 2 => cp * 0x1000 + Bits(tail[0]) * 0x40 + Bits(tail[1])
                                           case _ => cp * 0x4_0000 + Bits(tail[0]) * 0x1000 + Bits(tail[1]) * 0x40 + Bits(tail[2])
    decreases |tail|
  {
    if tail != [] && Continuation(tail[0]) {
      TailTableValue(cp * 0x40 + Bits(tail[0]), tail[1..]);
      assert forall j :: 0 < j < |tail| ==> tail[j] == tail[1..][j - 1];
    }
  }

  // ---- what valid text guarantees ----

  lemma EncodeShape(c: Scalar)
    ensures !Continuation(LeadByte(c))
    ensures LeadLength(LeadByte(c)) == Length(c) && Lead(LeadByte(c)) == (Shift(c, Length(c) - 1), Length(c))
    ensures Length(c) == 4 <==> Width(c) == 2
  {
    ShiftFits(c);
    assert Shift(c, 0) == c;
    assert Shift(c, 1) == c / 0x40 && Shift(c, 2) == c / 0x40 / 0x40 && Shift(c, 3) == c / 0x40 / 0x40 / 0x40;
  }

  lemma {:induction false} TailContinues(c: nat, n: nat)
    ensures forall i :: 0 <= i < n ==> Continuation(Tail(c, n)[i])
  {
    if n > 0 {
      TailContinues(c, n - 1);
    }
  }

  lemma EncodeContinues(c: Scalar, j: nat)
    requires 1 <= j < Length(c)
    ensures Continuation(Encode(c)[j])
  {
    var tail := Tail(c, Length(c) - 1);
    TailContinues(c, Length(c) - 1);
    assert Encode(c)[j] == tail[j - 1];
  }

  /** Reading the groups back after the leading bits gives the value. */
  lemma {:induction false} TailRoundTrip(c: nat, n: nat)
    ensures TailValue(Shift(c, n), Tail(c, n)) == Some(c as int)
  {
    if n > 0 {
      var high := Shift(c, n - 1);
      assert Tail(c, n)[1..] == Tail(c, n - 1);
      assert Tail(c, n)[0] == 0x80 + high % 0x40;
      assert high / 0x40 * 0x40 + high % 0x40 == high;
      TailRoundTrip(c, n - 1);
    }
  }

  /** Decoding reads back a scalar value of any valid text, wherever it stands. */
  lemma DecodeEncoded(before: seq<byte>, c: Scalar, after: seq<byte>)
    ensures DecodeAt(before + Encode(c) + after, |before|) == Point(c, |before| + Length(c), Width(c))
  {
    var s, at, n := before + Encode(c) + after, |before|, Length(c);
    EncodeShape(c);
    TailRoundTrip(c, n - 1);
    assert s[at] == LeadByte(c) && s[at + 1..at + n] == Tail(c, n - 1);
  }

  /** No encoding is a proper prefix of another. */
  lemma PrefixFree(c: Scalar, x: seq<byte>, d: Scalar, y: seq<byte>)
    requires Encode(c) + x == Encode(d) + y
    ensures c == d && x == y
  {
    DecodeEncoded([], c, x);
    DecodeEncoded([], d, y);
    assert [] + Encode(c) + x == Encode(c) + x && [] + Encode(d) + y == Encode(d) + y;
    assert x == (Encode(c) + x)[Length(c)..];
    assert y == (Encode(d) + y)[Length(d)..];
  }

  lemma Associate(a: seq<byte>, b: seq<byte>, c: seq<byte>)
    ensures a + b + c == a + (b + c)
  {
  }

  lemma EncodeCons(t: seq<Scalar>, u: seq<Scalar>)
    requires t != []
    ensures EncodeAll(t + u) == Encode(t[0]) + EncodeAll(t[1..] + u)
  {
    assert (t + u)[1..] == t[1..] + u;
  }

  lemma {:induction false} EncodeAllAppend(t: seq<Scalar>, u: seq<Scalar>)
    ensures EncodeAll(t + u) == EncodeAll(t) + EncodeAll(u)
  {
    if t == [] {
      assert t + u == u;
    } else {
      var first, rest, more := Encode(t[0]), EncodeAll(t[1..]), EncodeAll(u);
      EncodeCons(t, u);
      EncodeAllAppend(t[1..], u);
      Associate(first, rest, more);
    }
  }

  /** One encoded text is a prefix of another exactly when the text is. */
  lemma {:induction false} EncodedPrefix(k: seq<Scalar>, t: seq<Scalar>)
    ensures EncodeAll(k) <= EncodeAll(t) <==> k <= t
  {
    if k <= t {
      EncodeAllAppend(k, t[|k|..]);
      assert t == k + t[|k|..];
    }
    if EncodeAll(k) <= EncodeAll(t) && k != [] {
      assert EncodeAll(k)[0] == Encode(k[0])[0];
      SplitFirst(k, t, EncodeAll(t)[|EncodeAll(k)|..]);
      EncodedPrefix(k[1..], t[1..]);
      assert k == [k[0]] + k[1..] && t == [t[0]] + t[1..];
    }
  }

  lemma SplitFirst(k: seq<Scalar>, t: seq<Scalar>, more: seq<byte>)
    requires k != [] && EncodeAll(t) == EncodeAll(k) + more
    ensures t != [] && t[0] == k[0] && EncodeAll(t[1..]) == EncodeAll(k[1..]) + more
  {
    var first, rest := Encode(k[0]), EncodeAll(k[1..]);
    Associate(first, rest, more);
    var both := rest + more;
    assert EncodeAll(t) == first + both;
    assert t != [];
    PrefixFree(k[0], both, t[0], EncodeAll(t[1..]));
  }

  /** Text `t` stands at byte `i` of `s`. */
  predicate StandsAt(s: seq<byte>, i: nat, t: seq<Scalar>) {
    i <= |s| && EncodeAll(t) <= s[i..]
  }

  lemma StandsCons(s: seq<byte>, i: nat, t: seq<Scalar>)
    requires t != [] && StandsAt(s, i, t)
    ensures i + Length(t[0]) <= |s| && s[i] == LeadByte(t[0])
    ensures StandsAt(s, i + Length(t[0]), t[1..])
    ensures |EncodeAll(t)| == Length(t[0]) + |EncodeAll(t[1..])|
  {
    var first, rest, n := Encode(t[0]), EncodeAll(t[1..]), Length(t[0]);
    assert EncodeAll(t) == first + rest;
    assert s[i..][0] == (first + rest)[0] == first[0];
    assert s[i..][n..] == s[i + n..] && (first + rest)[n..] == rest;
  }

  /** The measure of a valid text that stands at `i` is its UTF-16 length. */
  lemma {:induction false} UnitsOfText(s: seq<byte>, i: nat, t: seq<Scalar>, end: nat)
    requires StandsAt(s, i, t) && end == i + |EncodeAll(t)|
    ensures end <= |s| && UnitsFrom(s, i, end) == Units(t)
    decreases |t|
  {
    if t != [] {
      StandsCons(s, i, t);
      EncodeShape(t[0]);
      UnitsOfText(s, i + Length(t[0]), t[1..], end);
    }
  }
}
