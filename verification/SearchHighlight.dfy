/**
 Highlighting search hits: matches are found on bytes and reported as UTF-16 ranges.
 */
module SearchHighlight {
  import opened WireFormat
  import opened Utf8

  /** UTF-16 units [first, last) of a hit. */
  datatype Range = Range(first: int, last: int)

  function Lower(b: byte): byte {
    if 0x41 <= b <= 0x5a then b + 0x20 else b
  }

  function LowerAll(s: seq<byte>): (r: seq<byte>)
    ensures |r| == |s|
  {
    if s == [] then [] else [Lower(s[0])] + LowerAll(s[1..])
  }

  // ---- finding ----

  predicate MatchesAt(s: seq<byte>, k: seq<byte>, at: nat) {
    at <= |s| && k <= s[at..]
  }

  /** `std::string::find`: the first match at or after `at`. */
  function Find(s: seq<byte>, k: seq<byte>, at: nat): (r: Option<nat>)
    ensures r.Some? ==> at <= r.value <= |s| && MatchesAt(s, k, r.value)
    decreases |s| - at
  {
    if at > |s| then None
    else if MatchesAt(s, k, at) then Some(at)
    else if at == |s| then None
    else Find(s, k, at + 1)
  }

  /** Every match at or after `at`, in order. */
  function Matches(s: seq<byte>, k: seq<byte>, at: nat): seq<nat>
    decreases |s| + 1 - at
  {
    if at > |s| then []
    else if MatchesAt(s, k, at) then [at] + Matches(s, k, at + 1)
    else Matches(s, k, at + 1)
  }

  lemma {:induction false} MatchesFromFind(s: seq<byte>, k: seq<byte>, at: nat)
    ensures Matches(s, k, at) == Found(s, k, Find(s, k, at))
    decreases |s| + 1 - at
  {
    if at <= |s| && !MatchesAt(s, k, at) {
      MatchesFromFind(s, k, at + 1);
    }
  }

  /** UTF-16 units before byte `at`. */
  function UnitsBefore(text: seq<byte>, at: nat): nat {
    UnitsFrom(text, 0, if at <= |text| then at else |text|)
  }

  /** The ranges reported for matches of `length` bytes. */
  function RangesAt(text: seq<byte>, at: seq<nat>, length: nat): seq<Range> {
    if at == [] then []
    else
      var p := at[|at| - 1];
      RangesAt(text, at[..|at| - 1], length) + [Range(UnitsBefore(text, p), UnitsBefore(text, p + length))]
  }

  method LowerCase(text: seq<byte>) returns (lower: seq<byte>)
    ensures lower == LowerAll(text)
  {
    lower := [];
    for i := 0 to |text|
      invariant lower + LowerAll(text[i..]) == LowerAll(text)
    {
      var c := text[i];
      lower := lower + [if 0x41 <= c <= 0x5a then c + 0x20 else c];
    }
  }

  method AddContentRanges(text: seq<byte>, keyword: seq<byte>) returns (r: seq<Range>)
    ensures r == RangesAt(text, Matches(LowerAll(text), keyword, 0), |keyword|)
  {
    r := [];
    var lower := LowerCase(text);
    ghost var found: seq<nat> := [];
    var at := Find(lower, keyword, 0);
    MatchesFromFind(lower, keyword, 0);
    while at.Some?
      invariant at.Some? ==> at.value + |keyword| <= |text|
      invariant found + Found(lower, keyword, at) == Matches(lower, keyword, 0)
      invariant r == RangesAt(text, found, |keyword|)
      decreases if at.Some? then |text| + 1 - at.value else 0
    {
      var p := at.value;
      var first, last := Ends(text, p, |keyword|, found);
      r := r + [Range(first, last)];
      at := Find(lower, keyword, p + 1);
      FoundNext(lower, keyword, p, at, found);
      found := found + [p];
    }
    assert found + Found(lower, keyword, at) == found;
  }

  method Ends(text: seq<byte>, p: nat, length: nat, ghost found: seq<nat>) returns (first: nat, last: nat)
    requires p + length <= |text|
    ensures RangesAt(text, found + [p], length) == RangesAt(text, found, length) + [Range(first, last)]
  {
    first := Utf16Units(text, p);
    last := Utf16Units(text, p + length);
    assert (found + [p])[..|found|] == found;
  }

  /** The matches from the one just found on. */
  ghost function Found(s: seq<byte>, k: seq<byte>, at: Option<nat>): seq<nat> {
    if at.None? then [] else [at.value] + Matches(s, k, at.value + 1)
  }

  lemma FoundNext(s: seq<byte>, k: seq<byte>, p: nat, next: Option<nat>, found: seq<nat>)
    requires next == Find(s, k, p + 1)
    ensures found + Found(s, k, Some(p)) == found + [p] + Found(s, k, next)
  {
    MatchesFromFind(s, k, p + 1);
    var rest := Found(s, k, next);
    assert Found(s, k, Some(p)) == [p] + rest;
  }

  // ---- what it means on valid text ----

  function Fold(c: Scalar): Scalar {
    if 0x41 <= c <= 0x5a then c + 0x20 else c
  }

  function FoldAll(t: seq<Scalar>): (r: seq<Scalar>)
    ensures |r| == |t|
  {
    if t == [] then [] else [Fold(t[0])] + FoldAll(t[1..])
  }

  /** The places, from character `i` on, where a folded text has the keyword. */
  function Occurrences(t: seq<Scalar>, k: seq<Scalar>, i: nat): seq<nat>
    requires i <= |t|
    decreases |t| - i
  {
    if i == |t| then []
    else if k <= t[i..] then [i] + Occurrences(t, k, i + 1)
    else Occurrences(t, k, i + 1)
  }

  /** The UTF-16 spans of `n` characters at these places. */
  function Spans(t: seq<Scalar>, at: seq<nat>, n: nat): seq<Range> {
    if at == [] then []
    else
      var i := at[|at| - 1];
      Spans(t, at[..|at| - 1], n) + [Range(Units(Take(t, i)), Units(Take(t, i + n)))]
  }

  function Take(t: seq<Scalar>, i: nat): seq<Scalar> {
    if i <= |t| then t[..i] else t
  }

  lemma {:induction false} LowerAppend(a: seq<byte>, b: seq<byte>)
    ensures LowerAll(a + b) == LowerAll(a) + LowerAll(b)
  {
    if a == [] {
      assert a + b == b;
    } else {
      assert (a + b)[1..] == a[1..] + b;
      LowerAppend(a[1..], b);
    }
  }

  lemma {:induction false} LowerKeeps(s: seq<byte>)
    requires forall i :: 0 <= i < |s| ==> s[i] >= 0x80
    ensures LowerAll(s) == s
  {
    if s != [] {
      LowerKeeps(s[1..]);
    }
  }

  lemma LowerEncode(c: Scalar)
    ensures LowerAll(Encode(c)) == Encode(Fold(c)) && Length(Fold(c)) == Length(c)
  {
    if Length(c) == 1 {
      assert Encode(c) == [c] && Encode(Fold(c)) == [Fold(c)];
    } else {
      var b := Encode(c);
      TailContinues(c, Length(c) - 1);
      ShiftFits(c);
      assert forall i :: 1 <= i < |b| ==> b[i] == Tail(c, Length(c) - 1)[i - 1];
      LowerKeeps(b);
    }
  }

  /** Lower-casing the bytes of a valid text is folding its characters: only ASCII bytes change. */
  lemma {:induction false} LowerIsFold(t: seq<Scalar>)
    ensures LowerAll(EncodeAll(t)) == EncodeAll(FoldAll(t))
  {
    if t != [] {
      LowerEncode(t[0]);
      LowerAppend(Encode(t[0]), EncodeAll(t[1..]));
      LowerIsFold(t[1..]);
      assert FoldAll(t)[1..] == FoldAll(t[1..]);
    }
  }

  /** The byte offset of character `i`. */
  function Offset(t: seq<Scalar>, i: nat): nat
    requires i <= |t|
  {
    if i == 0 then 0 else Offset(t, i - 1) + Length(t[i - 1])
  }

  lemma {:induction false} OffsetIsLength(t: seq<Scalar>, i: nat)
    requires i <= |t|
    ensures Offset(t, i) == |EncodeAll(t[..i])|
  {
    if i > 0 {
      OffsetIsLength(t, i - 1);
      EncodeAllAppend(t[..i - 1], [t[i - 1]]);
      assert t[..i] == t[..i - 1] + [t[i - 1]];
      assert EncodeAll([t[i - 1]]) == Encode(t[i - 1]) + EncodeAll([]);
    }
  }

  lemma OffsetStep(t: seq<Scalar>, i: nat)
    requires i < |t|
    ensures Offset(t, i + 1) == Offset(t, i) + Length(t[i])
    ensures Offset(t, i + 1) <= |EncodeAll(t)| && EncodeAll(t)[Offset(t, i)..] == EncodeAll(t[i..])
    ensures forall j :: 0 <= j < Length(t[i]) ==> EncodeAll(t)[Offset(t, i) + j] == Encode(t[i])[j]
  {
    OffsetIsLength(t, i);
    EncodeAllAppend(t[..i], t[i..]);
    assert t == t[..i] + t[i..];
    assert EncodeAll(t[i..]) == Encode(t[i]) + EncodeAll(t[i..][1..]);
  }

  lemma FirstByteMatches(s: seq<byte>, k: seq<byte>, p: nat)
    requires k != []
    ensures MatchesAt(s, k, p) ==> p < |s| && s[p] == k[0]
  {
  }

  lemma InsideByte(t: seq<Scalar>, i: nat, p: nat)
    requires i < |t| && Offset(t, i) < p < Offset(t, i + 1)
    ensures p < |EncodeAll(t)| && Continuation(EncodeAll(t)[p])
  {
    var j := p - Offset(t, i);
    OffsetStep(t, i);
    EncodeContinues(t[i], j);
    assert EncodeAll(t)[Offset(t, i) + j] == Encode(t[i])[j];
  }

  lemma NoMatchInside(t: seq<Scalar>, k: seq<Scalar>, i: nat, p: nat)
    requires i < |t| && k != [] && Offset(t, i) < p < Offset(t, i + 1)
    ensures !MatchesAt(EncodeAll(t), EncodeAll(k), p)
  {
    InsideByte(t, i, p);
    FirstByteMatches(EncodeAll(t), EncodeAll(k), p);
  }

  /** A keyword can match only where a character begins, and there it matches character by character. */
  lemma MatchAtBoundary(t: seq<Scalar>, k: seq<Scalar>, i: nat)
    requires i < |t|
    ensures MatchesAt(EncodeAll(t), EncodeAll(k), Offset(t, i)) <==> k <= t[i..]
  {
    OffsetStep(t, i);
    EncodedPrefix(k, t[i..]);
  }

  function Offsets(t: seq<Scalar>, at: seq<nat>): seq<nat> {
    if at == [] then [] else [if at[0] <= |t| then Offset(t, at[0]) else 0] + Offsets(t, at[1..])
  }

  lemma {:induction false} SkipInside(t: seq<Scalar>, k: seq<Scalar>, i: nat, p: nat)
    requires i < |t| && k != [] && Offset(t, i) < p <= Offset(t, i + 1) <= |EncodeAll(t)|
    ensures Matches(EncodeAll(t), EncodeAll(k), p) == Matches(EncodeAll(t), EncodeAll(k), Offset(t, i + 1))
    decreases Offset(t, i + 1) - p
  {
    if p < Offset(t, i + 1) {
      NoMatchInside(t, k, i, p);
      SkipInside(t, k, i, p + 1);
    }
  }

  /** The byte matches are the offsets of the character matches: none is missed, none is added. */
  lemma {:induction false} MatchesAreOccurrences(t: seq<Scalar>, k: seq<Scalar>, i: nat)
    requires i <= |t| && k != []
    ensures Matches(EncodeAll(t), EncodeAll(k), Offset(t, i)) == Offsets(t, Occurrences(t, k, i))
    decreases |t| - i
  {
    if i == |t| {
      OffsetIsLength(t, i);
      assert t[..i] == t;
      NoMatchAtEnd(EncodeAll(t), EncodeAll(k));
    } else {
      var later := Occurrences(t, k, i + 1);
      MatchesAreOccurrences(t, k, i + 1);
      MatchesFromBoundary(t, k, i);
      OffsetsCons(t, i, later);
      assert Occurrences(t, k, i) == if k <= t[i..] then [i] + later else later;
    }
  }

  /** From one character to the next there is a match exactly if the keyword stands there. */
  lemma MatchesFromBoundary(t: seq<Scalar>, k: seq<Scalar>, i: nat)
    requires i < |t| && k != []
    ensures var s, kb, later := EncodeAll(t), EncodeAll(k), Matches(EncodeAll(t), EncodeAll(k), Offset(t, i + 1));
            Matches(s, kb, Offset(t, i)) == if k <= t[i..] then [Offset(t, i)] + later else later
  {
    MatchAtBoundary(t, k, i);
    OffsetStep(t, i);
    SkipInside(t, k, i, Offset(t, i) + 1);
    MatchesStep(EncodeAll(t), EncodeAll(k), Offset(t, i));
  }

  lemma NoMatchAtEnd(s: seq<byte>, k: seq<byte>)
    requires k != []
    ensures Matches(s, k, |s|) == []
  {
  }

  lemma MatchesStep(s: seq<byte>, k: seq<byte>, at: nat)
    requires at <= |s|
    ensures Matches(s, k, at) == if MatchesAt(s, k, at) then [at] + Matches(s, k, at + 1) else Matches(s, k, at + 1)
  {
  }

  lemma OffsetsCons(t: seq<Scalar>, i: nat, rest: seq<nat>)
    requires i <= |t|
    ensures Offsets(t, [i] + rest) == [Offset(t, i)] + Offsets(t, rest)
  {
    assert ([i] + rest)[1..] == rest;
  }

  lemma {:induction false} OccurrencesAreInside(t: seq<Scalar>, k: seq<Scalar>, i: nat)
    requires i <= |t| && k != []
    ensures forall j :: 0 <= j < |Occurrences(t, k, i)| ==>
              var x := Occurrences(t, k, i)[j]; i <= x && x + |k| <= |t| && k <= t[x..]
    decreases |t| - i
  {
    if i < |t| {
      OccurrencesAreInside(t, k, i + 1);
    }
  }

  lemma {:induction false} OccurrencesAreAll(t: seq<Scalar>, k: seq<Scalar>, i: nat, x: nat)
    requires i <= x < |t| && k <= t[x..]
    ensures x in Occurrences(t, k, i)
    decreases |t| - i
  {
    if i < x {
      OccurrencesAreAll(t, k, i + 1, x);
    }
  }

  lemma PrefixUnits(t: seq<Scalar>, i: nat)
    requires i <= |t|
    ensures Offset(t, i) <= |EncodeAll(t)| && UnitsFrom(EncodeAll(t), 0, Offset(t, i)) == Units(t[..i])
  {
    OffsetIsLength(t, i);
    EncodeAllAppend(t[..i], t[i..]);
    assert t == t[..i] + t[i..];
    assert EncodeAll(t)[0..] == EncodeAll(t);
    UnitsOfText(EncodeAll(t), 0, t[..i], Offset(t, i));
  }

  /** The `n` characters at `i` are the `length` bytes at `offset`. */
  predicate Fits(t: seq<Scalar>, i: nat, n: nat, offset: nat, length: nat) {
    i + n <= |t| && offset == Offset(t, i) && offset + length == Offset(t, i + n)
  }

  /** The bytes there measure like the characters they encode. */
  predicate Measures(text: seq<byte>, t: seq<Scalar>, i: nat, n: nat, offset: nat, length: nat) {
    UnitsBefore(text, offset) == Units(Take(t, i)) && UnitsBefore(text, offset + length) == Units(Take(t, i + n))
  }

  lemma FittingMeasures(t: seq<Scalar>, i: nat, n: nat, offset: nat, length: nat)
    requires Fits(t, i, n, offset, length)
    ensures Measures(EncodeAll(t), t, i, n, offset, length)
  {
    PrefixUnits(t, i);
    PrefixUnits(t, i + n);
  }

  lemma {:induction false} MeasuredRanges(text: seq<byte>, t: seq<Scalar>, at: seq<nat>, offsets: seq<nat>, n: nat, length: nat)
    requires |at| == |offsets|
    requires forall j :: 0 <= j < |at| ==> Measures(text, t, at[j], n, offsets[j], length)
    ensures RangesAt(text, offsets, length) == Spans(t, at, n)
  {
    if at != [] {
      var last := |at| - 1;
      assert Measures(text, t, at[last], n, offsets[last], length);
      MeasuredRanges(text, t, at[..last], offsets[..last], n, length);
    }
  }

  lemma RangesAreSpans(t: seq<Scalar>, at: seq<nat>, offsets: seq<nat>, n: nat, length: nat)
    requires |at| == |offsets|
    requires forall j :: 0 <= j < |at| ==> Fits(t, at[j], n, offsets[j], length)
    ensures RangesAt(EncodeAll(t), offsets, length) == Spans(t, at, n)
  {
    forall j | 0 <= j < |at|
      ensures Measures(EncodeAll(t), t, at[j], n, offsets[j], length)
    {
      FittingMeasures(t, at[j], n, offsets[j], length);
    }
    MeasuredRanges(EncodeAll(t), t, at, offsets, n, length);
  }

  lemma {:induction false} OffsetsMeaning(t: seq<Scalar>, at: seq<nat>)
    requires forall j :: 0 <= j < |at| ==> at[j] <= |t|
    ensures |Offsets(t, at)| == |at| && forall j :: 0 <= j < |at| ==> Offsets(t, at)[j] == Offset(t, at[j])
  {
    if at != [] {
      OffsetsMeaning(t, at[1..]);
    }
  }

  lemma {:induction false} FoldAt(t: seq<Scalar>, i: nat)
    requires i < |t|
    ensures FoldAll(t)[i] == Fold(t[i])
  {
    if i > 0 {
      FoldAt(t[1..], i - 1);
    }
  }

  lemma {:induction false} FoldKeepsOffset(t: seq<Scalar>, i: nat)
    requires i <= |t|
    ensures Offset(FoldAll(t), i) == Offset(t, i)
  {
    if i > 0 {
      FoldKeepsOffset(t, i - 1);
      FoldAt(t, i - 1);
      LowerEncode(t[i - 1]);
    }
  }

  /**
   For a valid text and a non-empty valid keyword the reported ranges are exactly one per
   occurrence of the keyword in the ASCII-folded text, in order, each the UTF-16 span of the
   characters it covers.
   */
  lemma ContentRangesAreOccurrences(t: seq<Scalar>, k: seq<Scalar>)
    requires k != []
    ensures var text, keyword := EncodeAll(t), EncodeAll(k);
            RangesAt(text, Matches(LowerAll(text), keyword, 0), |keyword|) == Spans(t, Occurrences(FoldAll(t), k, 0), |k|)
  {
    var f := FoldAll(t);
    var at := Occurrences(f, k, 0);
    LowerIsFold(t);
    MatchesAreOccurrences(f, k, 0);
    assert Offset(f, 0) == 0;
    OccurrencesAreInside(f, k, 0);
    OffsetsFit(t, f, k, at, |EncodeAll(k)|);
    RangesAreSpans(t, at, Offsets(f, at), |k|, |EncodeAll(k)|);
  }

  lemma OffsetsFit(t: seq<Scalar>, f: seq<Scalar>, k: seq<Scalar>, at: seq<nat>, length: nat)
    requires f == FoldAll(t) && length == |EncodeAll(k)|
    requires forall j :: 0 <= j < |at| ==> at[j] + |k| <= |f| && k <= f[at[j]..]
    ensures |Offsets(f, at)| == |at| && forall j :: 0 <= j < |at| ==> Fits(t, at[j], |k|, Offsets(f, at)[j], length)
  {
    OffsetsMeaning(f, at);
    forall j | 0 <= j < |at|
      ensures Fits(t, at[j], |k|, Offsets(f, at)[j], length)
    {
      OffsetFits(t, f, k, at[j], at[j] + |k|);
    }
  }

  lemma OffsetFits(t: seq<Scalar>, f: seq<Scalar>, k: seq<Scalar>, i: nat, end: nat)
    requires f == FoldAll(t) && end == i + |k| <= |t| && k <= f[i..]
    ensures Offset(f, i) == Offset(t, i) && Offset(f, i) + |EncodeAll(k)| == Offset(t, end)
  {
    FoldKeepsOffset(t, i);
    FoldKeepsOffset(t, end);
    assert k == f[i..end];
    OccurrenceLength(f, k, i, end);
  }

  /** Exactly the places where the keyword stands, in ascending order. */
  lemma OccurrencesMeaning(t: seq<Scalar>, k: seq<Scalar>, x: nat)
    requires k != []
    ensures x in Occurrences(t, k, 0) <==> x <= |t| && k <= t[x..]
    ensures forall i, j :: 0 <= i < j < |Occurrences(t, k, 0)| ==> Occurrences(t, k, 0)[i] < Occurrences(t, k, 0)[j]
  {
    OccurrencesAreInside(t, k, 0);
    OccurrencesAscend(t, k, 0);
    if x <= |t| && k <= t[x..] {
      OccurrencesAreAll(t, k, 0, x);
    }
  }

  lemma {:induction false} OccurrencesAscend(t: seq<Scalar>, k: seq<Scalar>, i: nat)
    requires i <= |t| && k != []
    ensures forall a, b :: 0 <= a < b < |Occurrences(t, k, i)| ==> Occurrences(t, k, i)[a] < Occurrences(t, k, i)[b]
    decreases |t| - i
  {
    if i < |t| {
      OccurrencesAscend(t, k, i + 1);
      OccurrencesAreInside(t, k, i + 1);
    }
  }

  /** The same letter but for the case of an ASCII letter of the text. */
  predicate SameLetter(c: Scalar, d: Scalar) {
    if 'A' as int <= c <= 'Z' as int then d == c + ('a' as int - 'A' as int) else d == c
  }

  /** The keyword stands at character `i`. */
  predicate HitAt(t: seq<Scalar>, k: seq<Scalar>, i: nat) {
    i + |k| <= |t| && forall j :: 0 <= j < |k| ==> SameLetter(t[i + j], k[j])
  }

  /** From the UTF-16 units before a hit to those before its end. */
  predicate Marks(t: seq<Scalar>, k: seq<Scalar>, i: nat, r: Range) {
    i + |k| <= |t| && r.first == Units(t[..i]) && r.last == Units(t[..i + |k|])
  }

  lemma LetterAt(t: seq<Scalar>, f: seq<Scalar>, n: nat, d: Scalar)
    requires f == FoldAll(t) && n < |t|
    ensures SameLetter(t[n], d) <==> f[n] == d
  {
    FoldAt(t, n);
  }

  /** The sequences agree from position `i` of the first on. */
  predicate AgreeAt(f: seq<Scalar>, k: seq<Scalar>, i: nat) {
    i + |k| <= |f| && forall j :: 0 <= j < |k| ==> f[i + j] == k[j]
  }

  lemma AgreeIsPrefix(f: seq<Scalar>, k: seq<Scalar>, i: nat)
    requires i <= |f|
    ensures AgreeAt(f, k, i) <==> k <= f[i..]
  {
    if AgreeAt(f, k, i) {
      assert f[i..][..|k|] == k;
    }
    if k <= f[i..] {
      assert forall j :: 0 <= j < |k| ==> f[i..][j] == k[j];
    }
  }

  lemma HitsAreOccurrences(t: seq<Scalar>, f: seq<Scalar>, k: seq<Scalar>, i: nat)
    requires f == FoldAll(t) && i <= |t|
    ensures HitAt(t, k, i) <==> k <= f[i..]
  {
    AgreeIsPrefix(f, k, i);
    if i + |k| <= |t| {
      forall j | 0 <= j < |k|
        ensures SameLetter(t[i + j], k[j]) <==> f[i + j] == k[j]
      {
        LetterAt(t, f, i + j, k[j]);
      }
    }
  }

  lemma {:induction false} SpansLength(t: seq<Scalar>, at: seq<nat>, n: nat)
    ensures |Spans(t, at, n)| == |at|
  {
    if at != [] {
      SpansLength(t, at[..|at| - 1], n);
    }
  }

  lemma {:induction false} SpansAt(t: seq<Scalar>, at: seq<nat>, n: nat, j: nat)
    requires j < |at| && |Spans(t, at, n)| == |at|
    ensures Spans(t, at, n)[j] == Range(Units(Take(t, at[j])), Units(Take(t, at[j] + n)))
  {
    var init := at[..|at| - 1];
    SpansLength(t, init, n);
    if j < |init| {
      SpansAt(t, init, n, j);
    }
  }

  lemma SpansMark(t: seq<Scalar>, k: seq<Scalar>, at: seq<nat>, rs: seq<Range>, j: nat)
    requires rs == Spans(t, at, |k|) && j < |at| && HitAt(t, k, at[j])
    ensures |rs| == |at| && Marks(t, k, at[j], rs[j])
  {
    SpansLength(t, at, |k|);
    SpansAt(t, at, |k|, j);
  }

  /** Only hits are marked. */
  lemma OnlyHitsAreMarked(t: seq<Scalar>, k: seq<Scalar>, j: nat)
    requires k != []
    ensures var rs := RangesAt(EncodeAll(t), Matches(LowerAll(EncodeAll(t)), EncodeAll(k), 0), |EncodeAll(k)|);
            j < |rs| ==> exists i :: HitAt(t, k, i) && Marks(t, k, i, rs[j])
  {
    var f := FoldAll(t);
    var at := Occurrences(f, k, 0);
    var rs := Spans(t, at, |k|);
    ContentRangesAreOccurrences(t, k);
    SpansLength(t, at, |k|);
    if j < |rs| {
      OccurrencesMeaning(f, k, at[j]);
      HitsAreOccurrences(t, f, k, at[j]);
      SpansMark(t, k, at, rs, j);
    }
  }

  /** Every hit is marked. */
  lemma EveryHitIsMarked(t: seq<Scalar>, k: seq<Scalar>, i: nat)
    requires k != [] && HitAt(t, k, i)
    ensures var rs := RangesAt(EncodeAll(t), Matches(LowerAll(EncodeAll(t)), EncodeAll(k), 0), |EncodeAll(k)|);
            exists r :: r in rs && Marks(t, k, i, r)
  {
    var f := FoldAll(t);
    var at := Occurrences(f, k, 0);
    var rs := Spans(t, at, |k|);
    ContentRangesAreOccurrences(t, k);
    HitsAreOccurrences(t, f, k, i);
    OccurrencesMeaning(f, k, i);
    var n :| 0 <= n < |at| && at[n] == i;
    SpansMark(t, k, at, rs, n);
    assert rs[n] in rs;
  }

  lemma OccurrenceLength(t: seq<Scalar>, k: seq<Scalar>, i: nat, end: nat)
    requires i <= end <= |t| && k == t[i..end]
    ensures Offset(t, end) == Offset(t, i) + |EncodeAll(k)|
  {
    OffsetIsLength(t, i);
    OffsetIsLength(t, end);
    ghost var before, whole := t[..i], t[..end];
    assert whole == before + k;
    EncodeAllAppend(before, k);
  }

  // ---- initials ----

  /** Characters that have an initial in the index: ASCII letters and digits, and Han characters. */
  predicate Indexable(c: int) {
    0x30 <= c <= 0x39 || 0x41 <= c <= 0x5a || 0x61 <= c <= 0x7a ||
    0x3400 <= c <= 0x4dbf || 0x4e00 <= c <= 0x9fff || 0xf900 <= c <= 0xfaff
  }

  /** The UTF-16 span of each indexable character, in order, counting from `units`. */
  function IndexSpans(t: seq<Scalar>, units: nat): seq<Range> {
    if t == [] then []
    else (if Indexable(t[0]) then [Range(units, units + Width(t[0]))] else []) + IndexSpans(t[1..], units + Width(t[0]))
  }

  /** The same spans as the byte cursor finds them; none if the text is malformed somewhere. */
  function SourceSpans(s: seq<byte>, at: nat, units: nat): Option<seq<Range>>
    decreases |s| - at
  {
    if at >= |s| then Some([])
    else
      var p := DecodeAt(s, at);
      if p.Malformed? || p.next <= at then None
      else
        var rest := SourceSpans(s, p.next, units + p.width);
        if rest.None? then None
        else Some((if Indexable(p.value) then [Range(units, units + p.width)] else []) + rest.value)
  }

  /** The ranges for matches of a keyword of `length` bytes in the initials. */
  function InitialRanges(source: seq<Range>, at: seq<nat>, length: nat): seq<Range>
    requires length > 0
  {
    if at == [] then []
    else
      var p := at[|at| - 1];
      InitialRanges(source, at[..|at| - 1], length) +
      if p + length <= |source| then [Range(source[p].first, source[p + length - 1].last)] else []
  }

  method MarkInitials(source: seq<Range>, p: nat, length: nat, ghost found: seq<nat>, marked: seq<Range>) returns (r: seq<Range>)
    requires length > 0 && marked == InitialRanges(source, found, length)
    ensures r == InitialRanges(source, found + [p], length)
  {
    r := marked;
    var end := p + length - 1;
    if end < |source| {
      r := r + [Range(source[p].first, source[end].last)];
    }
    assert (found + [p])[..|found|] == found;
  }

  method AddInitialRanges(text: seq<byte>, initials: seq<byte>, keyword: seq<byte>) returns (r: seq<Range>)
    requires keyword != []
    ensures var source := SourceSpans(text, 0, 0);
            r == if source.None? || |source.value| != |initials| then []
                 else InitialRanges(source.value, Matches(LowerAll(initials), keyword, 0), |keyword|)
  {
    r := [];
    var source := CollectSpans(text);
    if source.None? {
      return;
    }
    var lower := LowerCase(initials);
    if |lower| != |source.value| {
      return;
    }
    ghost var found: seq<nat> := [];
    var pos := Find(lower, keyword, 0);
    MatchesFromFind(lower, keyword, 0);
    while pos.Some?
      invariant pos.Some? ==> pos.value + |keyword| <= |lower|
      invariant found + Found(lower, keyword, pos) == Matches(lower, keyword, 0)
      invariant r == InitialRanges(source.value, found, |keyword|)
      decreases if pos.Some? then |lower| + 1 - pos.value else 0
    {
      var p := pos.value;
      r := MarkInitials(source.value, p, |keyword|, found, r);
      pos := Find(lower, keyword, p + 1);
      FoundNext(lower, keyword, p, pos, found);
      found := found + [p];
    }
    assert found + Found(lower, keyword, pos) == found;
  }

  method CollectSpans(text: seq<byte>) returns (source: Option<seq<Range>>)
    ensures source == SourceSpans(text, 0, 0)
  {
    var spans: seq<Range>, at: nat, units: nat := [], 0, 0;
    PrependedTwice([], [], SourceSpans(text, 0, 0));
    while at < |text|
      invariant Prepended(spans, SourceSpans(text, at, units)) == SourceSpans(text, 0, 0)
      decreases |text| - at
    {
      var p := NextCodePoint(text, at);
      if p.Malformed? {
        return None;
      }
      ghost var rest := SourceSpans(text, p.next, units + p.width);
      if Indexable(p.value) {
        PrependedTwice(spans, [Range(units, units + p.width)], rest);
        spans := spans + [Range(units, units + p.width)];
      } else {
        PrependedTwice(spans, [], rest);
      }
      at, units := p.next, units + p.width;
    }
    PrependedTwice(spans, [], Some([]));
    return Some(spans);
  }

  function Prepended(a: seq<Range>, b: Option<seq<Range>>): Option<seq<Range>> {
    if b.None? then None else Some(a + b.value)
  }

  lemma PrependedTwice(a: seq<Range>, b: seq<Range>, c: Option<seq<Range>>)
    ensures Prepended(a, Prepended(b, c)) == Prepended(a + b, c)
    ensures a + [] == a && Prepended([], c) == c
  {
    if c.Some? {
      assert a + (b + c.value) == a + b + c.value;
      assert [] + c.value == c.value;
    }
  }

  /** A valid text is read to the end, and every indexable character gives its UTF-16 span. */
  lemma {:induction false} ValidTextHasSpans(s: seq<byte>, i: nat, t: seq<Scalar>, units: nat)
    requires StandsAt(s, i, t) && i + |EncodeAll(t)| == |s|
    ensures SourceSpans(s, i, units) == Some(IndexSpans(t, units))
    decreases |t|
  {
    if t != [] {
      StandsCons(s, i, t);
      DecodeStanding(s, i, t);
      ValidTextHasSpans(s, i + Length(t[0]), t[1..], units + Width(t[0]));
    }
  }

  /** The places of the indexable characters from place `i` on. */
  function IndexPlaces(t: seq<Scalar>, i: nat): seq<nat>
    decreases |t| - i
  {
    if i >= |t| then []
    else if Indexable(t[i]) then [i] + IndexPlaces(t, i + 1)
    else IndexPlaces(t, i + 1)
  }

  lemma {:induction false} IndexPlacesMembers(t: seq<Scalar>, i: nat, x: nat)
    ensures x in IndexPlaces(t, i) <==> i <= x < |t| && Indexable(t[x])
    decreases |t| - i
  {
    if i < |t| {
      IndexPlacesMembers(t, i + 1, x);
    }
  }

  predicate Rising(places: seq<nat>) {
    forall a, b :: 0 <= a < b < |places| ==> places[a] < places[b]
  }

  lemma RisingCons(i: nat, rest: seq<nat>)
    requires Rising(rest) && forall x :: x in rest ==> i < x
    ensures Rising([i] + rest)
  {
    var all := [i] + rest;
    forall a, b | 0 <= a < b < |all|
      ensures all[a] < all[b]
    {
      assert all[b] == rest[b - 1] && rest[b - 1] in rest;
      if a > 0 {
        assert all[a] == rest[a - 1];
      }
    }
  }

  /** The places of indexable characters are exactly these, in ascending order. */
  lemma {:induction false} IndexPlacesMeaning(t: seq<Scalar>, i: nat)
    ensures forall x :: x in IndexPlaces(t, i) <==> i <= x < |t| && Indexable(t[x])
    ensures Rising(IndexPlaces(t, i))
    decreases |t| - i
  {
    forall x: nat
      ensures x in IndexPlaces(t, i) <==> i <= x < |t| && Indexable(t[x])
    {
      IndexPlacesMembers(t, i, x);
    }
    if i < |t| {
      IndexPlacesMeaning(t, i + 1);
      RisingCons(i, IndexPlaces(t, i + 1));
    }
  }

  /** The UTF-16 units of the character at place `p`. */
  function SpanOf(t: seq<Scalar>, p: nat): Range {
    Range(Units(Take(t, p)), Units(Take(t, p + 1)))
  }

  lemma {:induction false} UnitsSnoc(t: seq<Scalar>, i: nat)
    requires i < |t|
    ensures Units(t[..i + 1]) == Units(t[..i]) + Width(t[i])
  {
    if i == 0 {
      assert t[..1] == [t[0]] && [t[0]][1..] == [];
    } else {
      UnitsSnoc(t[1..], i - 1);
      assert t[..i + 1][1..] == t[1..][..i] && t[..i][1..] == t[1..][..i - 1];
    }
  }

  ghost predicate SpansOf(t: seq<Scalar>, spans: seq<Range>, places: seq<nat>) {
    |spans| == |places| && forall j :: 0 <= j < |places| ==> spans[j] == SpanOf(t, places[j])
  }

  lemma SpansCons(t: seq<Scalar>, i: nat, spans: seq<Range>, places: seq<nat>)
    requires SpansOf(t, spans, places)
    ensures SpansOf(t, [SpanOf(t, i)] + spans, [i] + places)
  {
  }

  lemma {:induction false} SpansOfPlaces(t: seq<Scalar>, i: nat, rest: seq<Scalar>, units: nat)
    requires i <= |t| && rest == t[i..] && units == Units(t[..i])
    ensures SpansOf(t, IndexSpans(rest, units), IndexPlaces(t, i))
    decreases |t| - i
  {
    if i < |t| {
      UnitsSnoc(t, i);
      var later := units + Width(t[i]);
      SpansOfPlaces(t, i + 1, rest[1..], later);
      SpansCons(t, i, IndexSpans(rest[1..], later), IndexPlaces(t, i + 1));
      assert SpanOf(t, i) == Range(units, later);
    }
  }

  /** For each match: from the first to the last of the `n` indexable characters it stands for. */
  function InitialSpans(t: seq<Scalar>, places: seq<nat>, at: seq<nat>, n: nat): seq<Range>
    requires n > 0 && forall j :: 0 <= j < |at| ==> at[j] + n <= |places|
  {
    if at == [] then []
    else
      var p := at[|at| - 1];
      InitialSpans(t, places, at[..|at| - 1], n) + [Range(SpanOf(t, places[p]).first, SpanOf(t, places[p + n - 1]).last)]
  }

  lemma {:induction false} InitialRangesOfPlaces(t: seq<Scalar>, source: seq<Range>, places: seq<nat>, at: seq<nat>, n: nat)
    requires n > 0 && SpansOf(t, source, places)
    requires forall j :: 0 <= j < |at| ==> at[j] + n <= |places|
    ensures InitialRanges(source, at, n) == InitialSpans(t, places, at, n)
  {
    if at != [] {
      InitialRangesOfPlaces(t, source, places, at[..|at| - 1], n);
    }
  }

  lemma {:induction false} MatchesFit(s: seq<byte>, k: seq<byte>, at: nat)
    ensures forall j :: 0 <= j < |Matches(s, k, at)| ==> Matches(s, k, at)[j] + |k| <= |s|
    decreases |s| + 1 - at
  {
    if at <= |s| {
      MatchesFit(s, k, at + 1);
    }
  }

  /**
   For a valid text with one initial for each indexable character: every match of the keyword in
   the initials gives one range, from the first UTF-16 unit of the first character it stands for to
   the last unit of the last.
   */
  lemma InitialRangesCoverMatches(t: seq<Scalar>, initials: seq<byte>, keyword: seq<byte>)
    requires keyword != [] && |initials| == |IndexPlaces(t, 0)|
    ensures var source, at := SourceSpans(EncodeAll(t), 0, 0), Matches(LowerAll(initials), keyword, 0);
            && source.Some? && |source.value| == |initials|
            && (forall j :: 0 <= j < |at| ==> at[j] + |keyword| <= |initials|)
            && InitialRanges(source.value, at, |keyword|) == InitialSpans(t, IndexPlaces(t, 0), at, |keyword|)
  {
    assert EncodeAll(t)[0..] == EncodeAll(t);
    ValidTextHasSpans(EncodeAll(t), 0, t, 0);
    assert t[..0] == [] && t[0..] == t;
    SpansOfPlaces(t, 0, t, 0);
    var at := Matches(LowerAll(initials), keyword, 0);
    MatchesFit(LowerAll(initials), keyword, 0);
    InitialRangesOfPlaces(t, IndexSpans(t, 0), IndexPlaces(t, 0), at, |keyword|);
  }

  lemma DecodeStanding(s: seq<byte>, i: nat, t: seq<Scalar>)
    requires t != [] && StandsAt(s, i, t)
    ensures DecodeAt(s, i) == Point(t[0], i + Length(t[0]), Width(t[0]))
  {
    var first, rest := Encode(t[0]), EncodeAll(t[1..]);
    var after := s[i..][|first|..];
    DecodeEncoded(s[..i], t[0], after);
    assert EncodeAll(t) == first + rest;
    assert s[i..][..|first|] == first;
    assert s == s[..i] + first + after;
  }

  // ---- the final list ----

  predicate Before(a: Range, b: Range) {
    a.first < b.first || (a.first == b.first && a.last < b.last)
  }

  ghost predicate Ascending(r: seq<Range>) {
    forall i, j :: 0 <= i < j < |r| ==> Before(r[i], r[j])
  }

  /** Sorting and dropping duplicates: one insertion at a time, each into a list already in order. */
  method NormalizeRanges(ranges: seq<Range>) returns (r: seq<Range>)
    ensures Ascending(r) && forall x :: x in r <==> x in ranges
  {
    r := [];
    for i := 0 to |ranges|
      invariant Ascending(r) && forall x :: x in r <==> x in ranges[..i]
    {
      r := Insert(r, ranges[i]);
      assert ranges[..i + 1] == ranges[..i] + [ranges[i]];
    }
    assert ranges[..|ranges|] == ranges;
  }

  method Insert(r: seq<Range>, x: Range) returns (r': seq<Range>)
    requires Ascending(r)
    ensures Ascending(r') && forall y :: y in r' <==> y in r || y == x
  {
    var at := 0;
    while at < |r| && Before(r[at], x)
      invariant 0 <= at <= |r|
      invariant forall i :: 0 <= i < at ==> Before(r[i], x)
    {
      at := at + 1;
    }
    assert r == r[..at] + r[at..];
    if at < |r| && r[at] == x {
      return r;
    }
    InsertKeepsOrder(r[..at], x, r[at..]);
    return r[..at] + [x] + r[at..];
  }

  lemma InsertKeepsOrder(a: seq<Range>, x: Range, b: seq<Range>)
    requires Ascending(a + b) && (forall i :: 0 <= i < |a| ==> Before(a[i], x)) && (b != [] ==> Before(x, b[0]))
    ensures Ascending(a + [x] + b)
  {
    var s, r := a + b, a + [x] + b;
    forall i, j | 0 <= i < j < |r|
      ensures Before(r[i], r[j])
    {
      assert i != |a| ==> r[i] == s[if i < |a| then i else i - 1];
      assert j != |a| ==> r[j] == s[if j < |a| then j else j - 1];
      assert b != [] ==> s[|a|] == b[0];
    }
  }

  /** The list is determined by the ranges in it: the order in which they were found does not matter. */
  lemma {:induction false} NormalFormUnique(a: seq<Range>, b: seq<Range>)
    requires Ascending(a) && Ascending(b) && forall x :: x in a <==> x in b
    ensures a == b
  {
    HeadIsMember(a);
    HeadIsMember(b);
    if a != [] && b != [] {
      assert a[0] == b[0];
      TailMembers(a);
      TailMembers(b);
      NormalFormUnique(a[1..], b[1..]);
      assert a == [a[0]] + a[1..] && b == [b[0]] + b[1..];
    }
  }

  lemma HeadIsMember(a: seq<Range>)
    ensures a == [] || a[0] in a
  {
  }

  lemma TailMembers(a: seq<Range>)
    requires Ascending(a) && a != []
    ensures Ascending(a[1..]) && forall x :: x in a[1..] <==> x in a && x != a[0]
  {
    assert a == [a[0]] + a[1..];
  }

  /** Digits, Latin letters and the three blocks of Han characters, border by border. */
  lemma IndexableBlocks(c: int)
    ensures Indexable(c) <==>
              || '0' as int <= c <= '9' as int || 'A' as int <= c <= 'Z' as int || 'a' as int <= c <= 'z' as int
              || 13312 <= c <= 19903 || 19968 <= c <= 40959 || 63744 <= c <= 64255
  {
  }
}
