/**
 Which sequence numbers of a conversation have arrived, and which are missing.

 The tracker keeps the arrived numbers as sorted ranges and derives the gaps. Its ranges
 are a canonical form (`CanonicalForm`), so numbers that arrive in any order, and the
 ranges a restart reads back from the message table, end in the same state.
 */
module SyncGaps {
  import opened WireFormat
  import MS = MessageStore

  datatype Range = Range(first: int, last: int)

  ghost predicate Covers(ranges: seq<Range>, x: int) {
    exists i :: 0 <= i < |ranges| && ranges[i].first <= x <= ranges[i].last
  }

  /** Non-empty ranges of positive numbers in ascending order, with a hole between neighbours. */
  ghost predicate Normal(ranges: seq<Range>) {
    && (forall i :: 0 <= i < |ranges| ==> 1 <= ranges[i].first <= ranges[i].last)
    && (forall i, j :: 0 <= i < j < |ranges| ==> ranges[i].last + 1 < ranges[j].first)
  }

  function MaxArrived(ranges: seq<Range>): int {
    if ranges == [] then 0 else ranges[|ranges| - 1].last
  }

  ghost predicate Missing(ranges: seq<Range>, x: int) {
    1 <= x <= MaxArrived(ranges) && !Covers(ranges, x)
  }

  class SyncTracker {
    var arrived: seq<Range>
    var maxSeen: int

    constructor ()
      ensures arrived == [] && maxSeen == 0
    {
      arrived, maxSeen := [], 0;
    }

    /** Inserts [from, to], merging it with the ranges it touches. */
    method AddArrived(from: int, to: int)
      requires Normal(arrived) && 1 <= from
      modifies this`arrived
      ensures Normal(arrived)
      ensures forall x :: Covers(arrived, x) <==> old(Covers(arrived, x)) || from <= x <= to
    {
      if from > to {
        return;
      }
      ghost var before := arrived;
      var at := 0;
      while at < |arrived| && arrived[at].last < from - 1
        invariant 0 <= at <= |arrived|
        invariant forall i :: 0 <= i < at ==> arrived[i].last < from - 1
      {
        at := at + 1;
      }
      if at < |arrived| && arrived[at].first <= to + 1 {
        var lo := if arrived[at].first < from then arrived[at].first else from;
        var hi := if arrived[at].last > to then arrived[at].last else to;
        var next := at + 1;
        while next < |arrived| && arrived[next].first <= hi + 1
          invariant at < next <= |arrived|
          invariant hi == (if to > arrived[next - 1].last then to else arrived[next - 1].last)
          invariant forall i :: at < i < next ==> arrived[i].first <= to + 1
        {
          hi := if hi > arrived[next].last then hi else arrived[next].last;
          next := next + 1;
        }
        arrived := arrived[..at] + [Range(lo, hi)] + arrived[next..];
        MergedCoverage(before, at, next, from, to, Range(lo, hi));
      } else {
        arrived := arrived[..at] + [Range(from, to)] + arrived[at..];
        InsertedCoverage(before, at, Range(from, to));
      }
    }

    /** A number seen in a push, a history page or an acknowledgement. */
    method ObserveSeq(n: int) returns (advanced: bool)
      requires Normal(arrived) && MaxArrived(arrived) <= maxSeen
      modifies this
      ensures Normal(arrived) && MaxArrived(arrived) <= maxSeen && old(maxSeen) <= maxSeen
      ensures n <= 0 ==> !advanced && arrived == old(arrived) && maxSeen == old(maxSeen)
      ensures n > 0 ==> maxSeen == (if n > old(maxSeen) then n else old(maxSeen))
      ensures n > 0 ==> forall x :: Covers(arrived, x) <==> old(Covers(arrived, x)) || x == n
      ensures advanced <==> Contiguous(arrived) > old(Contiguous(arrived))
    {
      if n <= 0 {
        return false;
      }
      var before := Contiguous(arrived);
      if n > maxSeen {
        maxSeen := n;
      }
      ghost var was := arrived;
      AddArrived(n, n);
      if arrived != [] {
        assert Covers(arrived, MaxArrived(arrived));
        MaxCovers(was, MaxArrived(arrived));
      }
      return Contiguous(arrived) > before;
    }

    /** The holes between the arrived ranges, and the one before the first. */
    method ComputeGaps() returns (gaps: seq<Range>)
      requires Normal(arrived)
      ensures Normal(gaps)
      ensures forall x :: Covers(gaps, x) <==> Missing(arrived, x)
    {
      gaps := [];
      if arrived == [] {
        return;
      }
      if arrived[0].first > 1 {
        gaps := gaps + [Range(1, arrived[0].first - 1)];
      }
      var i := 0;
      while i + 1 < |arrived|
        invariant 0 <= i < |arrived|
        invariant gaps == GapsUpTo(arrived, i)
      {
        var f, t := arrived[i].last + 1, arrived[i + 1].first - 1;
        if f <= t {
          gaps := gaps + [Range(f, t)];
        }
        i := i + 1;
      }
      GapsAreNormal(arrived, i);
      GapsAreMissing(arrived, i);
    }
  }

  /** The length of the unbroken run of arrived numbers starting at 1. */
  function Contiguous(ranges: seq<Range>): int {
    if ranges == [] || ranges[0].first != 1 then 0 else ranges[0].last
  }

  /** The contiguous watermark says what it should: everything up to it arrived, the next number did not. */
  lemma ContiguousIsExact(ranges: seq<Range>)
    requires Normal(ranges)
    ensures forall x :: 1 <= x <= Contiguous(ranges) ==> Covers(ranges, x)
    ensures !Covers(ranges, Contiguous(ranges) + 1)
  {
    if ranges != [] && ranges[0].first == 1 {
      forall x | 1 <= x <= Contiguous(ranges)
        ensures Covers(ranges, x)
      {
        assert ranges[0].first <= x <= ranges[0].last;
      }
    }
  }

  lemma MaxCovers(ranges: seq<Range>, x: int)
    requires Normal(ranges)
    ensures Covers(ranges, x) ==> 1 <= x <= MaxArrived(ranges)
  {
  }

  lemma {:induction false} CoversConcat(a: seq<Range>, b: seq<Range>, x: int)
    ensures Covers(a + b, x) <==> Covers(a, x) || Covers(b, x)
  {
    if Covers(a, x) {
      var i :| 0 <= i < |a| && a[i].first <= x <= a[i].last;
      assert (a + b)[i] == a[i];
    }
    if Covers(b, x) {
      var i :| 0 <= i < |b| && b[i].first <= x <= b[i].last;
      assert (a + b)[|a| + i] == b[i];
    }
  }

  /** Replacing the ranges at..next by one range changes the coverage only in the middle. */
  lemma Spliced(ranges: seq<Range>, at: nat, next: nat, r: Range, x: int)
    requires at <= next <= |ranges|
    ensures Covers(ranges[..at] + [r] + ranges[next..], x) <==>
            Covers(ranges[..at], x) || r.first <= x <= r.last || Covers(ranges[next..], x)
    ensures Covers(ranges, x) <==> Covers(ranges[..at], x) || Covers(ranges[at..next], x) || Covers(ranges[next..], x)
  {
    CoversConcat(ranges[..at] + [r], ranges[next..], x);
    CoversConcat(ranges[..at], [r], x);
    assert [r][0] == r;
    assert ranges == ranges[..at] + ranges[at..];
    assert ranges[at..] == ranges[at..next] + ranges[next..];
    CoversConcat(ranges[..at], ranges[at..], x);
    CoversConcat(ranges[at..next], ranges[next..], x);
  }

  lemma Apart(a: seq<Range>, b: seq<Range>, i: nat, j: nat)
    requires Normal(a) && Normal(b) && i < |a| && j < |b| && a[|a| - 1].last + 1 < b[0].first
    ensures a[i].last + 1 < b[j].first
  {
    assert a[i].last <= a[|a| - 1].last;
    assert b[0].first <= b[j].first;
  }

  lemma NormalConcat(a: seq<Range>, b: seq<Range>)
    requires Normal(a) && Normal(b)
    requires a != [] && b != [] ==> a[|a| - 1].last + 1 < b[0].first
    ensures Normal(a + b)
  {
    var whole, n := a + b, |a|;
    forall i, j | 0 <= i < j < |whole|
      ensures whole[i].last + 1 < whole[j].first
    {
      if i < n <= j {
        Apart(a, b, i, j - n);
      }
    }
  }

  lemma SplicedIsNormal(ranges: seq<Range>, at: nat, next: nat, r: Range)
    requires Normal(ranges) && at <= next <= |ranges| && 1 <= r.first <= r.last
    requires at > 0 ==> ranges[at - 1].last + 1 < r.first
    requires next < |ranges| ==> ranges[next].first > r.last + 1
    ensures Normal(ranges[..at] + [r] + ranges[next..])
  {
    NormalConcat(ranges[..at], [r]);
    NormalConcat(ranges[..at] + [r], ranges[next..]);
  }

  lemma MergedCoverage(ranges: seq<Range>, at: nat, next: nat, from: int, to: int, r: Range)
    requires Normal(ranges) && 1 <= from <= to && at < next <= |ranges|
    requires at > 0 ==> ranges[at - 1].last < from - 1
    requires ranges[at].last >= from - 1 && ranges[at].first <= to + 1
    requires ranges[next - 1].first <= to + 1
    requires r.first == (if ranges[at].first < from then ranges[at].first else from)
    requires r.last == (if to > ranges[next - 1].last then to else ranges[next - 1].last)
    requires next < |ranges| ==> ranges[next].first > r.last + 1
    ensures var merged := ranges[..at] + [r] + ranges[next..];
            Normal(merged) && forall x :: Covers(merged, x) <==> Covers(ranges, x) || from <= x <= to
  {
    SplicedIsNormal(ranges, at, next, r);
    var mid := ranges[at..next];
    PartIsNormal(ranges, at, next);
    forall x
      ensures Covers(ranges[..at] + [r] + ranges[next..], x) <==> Covers(ranges, x) || from <= x <= to
    {
      MergedAt(ranges, at, next, from, to, r, mid, x);
    }
  }

  lemma PartIsNormal(ranges: seq<Range>, at: nat, next: nat)
    requires Normal(ranges) && at <= next <= |ranges|
    ensures Normal(ranges[at..next])
  {
  }

  lemma MergedAt(ranges: seq<Range>, at: nat, next: nat, from: int, to: int, r: Range, mid: seq<Range>, x: int)
    requires at < next <= |ranges| && mid == ranges[at..next] && Normal(mid) && from <= to
    requires mid[0].last >= from - 1 && mid[|mid| - 1].first <= to + 1
    requires r.first == (if mid[0].first < from then mid[0].first else from)
    requires r.last == (if to > mid[|mid| - 1].last then to else mid[|mid| - 1].last)
    ensures Covers(ranges[..at] + [r] + ranges[next..], x) <==> Covers(ranges, x) || from <= x <= to
  {
    Spliced(ranges, at, next, r, x);
    MiddleCoverage(mid, from, to, r, x);
  }

  lemma MiddleCoverage(mid: seq<Range>, from: int, to: int, r: Range, x: int)
    requires Normal(mid) && mid != [] && from <= to
    requires mid[0].last >= from - 1 && mid[|mid| - 1].first <= to + 1
    requires r.first == (if mid[0].first < from then mid[0].first else from)
    requires r.last == (if to > mid[|mid| - 1].last then to else mid[|mid| - 1].last)
    ensures r.first <= x <= r.last <==> Covers(mid, x) || from <= x <= to
  {
    if r.first <= x < from {
      assert mid[0].first <= x <= mid[0].last;
    } else if to < x <= r.last {
      assert mid[|mid| - 1].first <= x <= mid[|mid| - 1].last;
    }
  }

  lemma InsertedCoverage(ranges: seq<Range>, at: nat, r: Range)
    requires Normal(ranges) && 1 <= r.first <= r.last && at <= |ranges|
    requires at > 0 ==> ranges[at - 1].last < r.first - 1
    requires at < |ranges| ==> ranges[at].first > r.last + 1
    ensures var longer := ranges[..at] + [r] + ranges[at..];
            Normal(longer) && forall x :: Covers(longer, x) <==> Covers(ranges, x) || r.first <= x <= r.last
  {
    SplicedIsNormal(ranges, at, at, r);
    forall x
      ensures Covers(ranges[..at] + [r] + ranges[at..], x) <==> Covers(ranges, x) || r.first <= x <= r.last
    {
      Spliced(ranges, at, at, r, x);
    }
  }

  // ---- the canonical form ----

  /** Normal ranges that cover the same numbers are the same ranges. */
  lemma {:induction false} CanonicalForm(a: seq<Range>, b: seq<Range>)
    requires Normal(a) && Normal(b)
    requires forall x :: Covers(a, x) <==> Covers(b, x)
    ensures a == b
  {
    if a == [] || b == [] {
      if a != [] {
        assert a[0].first <= a[0].first <= a[0].last && Covers(a, a[0].first);
      }
      if b != [] {
        assert b[0].first <= b[0].first <= b[0].last && Covers(b, b[0].first);
      }
    } else {
      FirstRangeBound(a, b);
      FirstRangeBound(b, a);
      assert a[0] == b[0];
      TailCoverage(a);
      TailCoverage(b);
      CanonicalForm(a[1..], b[1..]);
      assert a == [a[0]] + a[1..] && b == [b[0]] + b[1..];
    }
  }

  lemma FirstRangeBound(a: seq<Range>, b: seq<Range>)
    requires Normal(a) && Normal(b) && a != [] && b != []
    requires forall x :: Covers(a, x) <==> Covers(b, x)
    ensures b[0].first <= a[0].first && a[0].last <= b[0].last
  {
    assert Covers(a, a[0].first) && Covers(b, a[0].first) && Covers(b, b[0].first) && Covers(a, b[0].first);
    assert a[0].first == b[0].first;
    assert !Covers(b, b[0].last + 1);
    assert !Covers(a, b[0].last + 1);
  }

  lemma TailCoverage(a: seq<Range>)
    requires Normal(a) && a != []
    ensures Normal(a[1..])
    ensures forall x :: Covers(a[1..], x) <==> Covers(a, x) && x > a[0].last
  {
    forall x
      ensures Covers(a[1..], x) <==> Covers(a, x) && x > a[0].last
    {
      if Covers(a[1..], x) {
        var i :| 0 <= i < |a[1..]| && a[1..][i].first <= x <= a[1..][i].last;
        assert a[i + 1] == a[1..][i];
      }
      if Covers(a, x) && x > a[0].last {
        var i :| 0 <= i < |a| && a[i].first <= x <= a[i].last;
        assert a[1..][i - 1] == a[i];
      }
    }
  }

  // ---- ranges read back from the message table ----

  /** `SELECT DISTINCT conversation_seq ... > 0 ORDER BY conversation_seq` */
  ghost predicate DistinctAscending(seqs: seq<int>) {
    (forall i :: 0 <= i < |seqs| ==> seqs[i] > 0) && forall i, j :: 0 <= i < j < |seqs| ==> seqs[i] < seqs[j]
  }

  method LoadMessageSeqRanges(seqs: seq<int>) returns (out: seq<Range>)
    requires DistinctAscending(seqs)
    ensures Normal(out)
    ensures forall x :: Covers(out, x) <==> x in seqs
  {
    out := [];
    for k := 0 to |seqs|
      invariant Normal(out)
      invariant forall x :: Covers(out, x) <==> x in seqs[..k]
      invariant MaxArrived(out) == if k == 0 then 0 else seqs[k - 1]
    {
      assert seqs[..k + 1] == seqs[..k] + [seqs[k]];
      out := WithSeq(out, seqs[k]);
    }
    assert seqs[..|seqs|] == seqs;
  }

  /** One more number above all others: it extends the last range or starts a new one. */
  method WithSeq(ranges: seq<Range>, n: int) returns (out: seq<Range>)
    requires Normal(ranges) && n > MaxArrived(ranges) && n > 0
    ensures Normal(out) && MaxArrived(out) == n
    ensures forall x :: Covers(out, x) <==> Covers(ranges, x) || x == n
  {
    var last := |ranges| - 1;
    if ranges == [] || (n > ranges[last].last && n - ranges[last].last > 1) {
      out := ranges + [Range(n, n)];
      assert ranges[..|ranges|] + [Range(n, n)] + ranges[|ranges|..] == out;
      InsertedCoverage(ranges, |ranges|, Range(n, n));
    } else {
      out := ranges[..last] + [Range(ranges[last].first, n)];
      assert ranges[..last] + [Range(ranges[last].first, n)] + ranges[last + 1..] == out;
      MergedCoverage(ranges, last, last + 1, n, n, Range(ranges[last].first, n));
    }
  }

  // ---- gaps ----

  /** The gaps below range i + 1. */
  function GapsUpTo(ranges: seq<Range>, i: nat): seq<Range>
    requires i < |ranges|
  {
    if i == 0 then if ranges[0].first > 1 then [Range(1, ranges[0].first - 1)] else []
    else GapsUpTo(ranges, i - 1) +
         if ranges[i - 1].last + 1 <= ranges[i].first - 1 then [Range(ranges[i - 1].last + 1, ranges[i].first - 1)] else []
  }

  lemma {:induction false} GapsAreNormal(ranges: seq<Range>, i: nat)
    requires Normal(ranges) && i < |ranges|
    ensures Normal(GapsUpTo(ranges, i))
    ensures forall g :: 0 <= g < |GapsUpTo(ranges, i)| ==> GapsUpTo(ranges, i)[g].last < ranges[i].first
  {
    if i > 0 {
      GapsAreNormal(ranges, i - 1);
    }
  }

  lemma {:induction false} GapsAreMissing(ranges: seq<Range>, i: nat)
    requires Normal(ranges) && i < |ranges|
    ensures forall x :: Covers(GapsUpTo(ranges, i), x) <==> 1 <= x <= ranges[i].last && !Covers(ranges, x)
  {
    var gaps := GapsUpTo(ranges, i);
    if i > 0 {
      GapsAreMissing(ranges, i - 1);
      var lower, gap := GapsUpTo(ranges, i - 1), Range(ranges[i - 1].last + 1, ranges[i].first - 1);
      assert gaps == lower + [gap];
      forall x
        ensures Covers(gaps, x) <==> Covers(lower, x) || gap.first <= x <= gap.last
      {
        if Covers(lower, x) {
          var g :| 0 <= g < |lower| && lower[g].first <= x <= lower[g].last;
          assert gaps[g] == lower[g];
        }
        if gap.first <= x <= gap.last {
          assert gaps[|lower|] == gap;
        }
      }
    } else {
      forall x
        ensures Covers(gaps, x) <==> 1 <= x < ranges[0].first
      {
        if 1 <= x < ranges[0].first {
          assert gaps[0] == Range(1, ranges[0].first - 1);
        }
      }
    }
    forall x
      ensures 1 <= x <= ranges[i].last && !Covers(ranges, x) <==>
              (i > 0 && 1 <= x <= ranges[i - 1].last && !Covers(ranges, x)) ||
              ((if i == 0 then 1 else ranges[i - 1].last + 1) <= x < ranges[i].first)
    {
    }
  }

  // ---- one gap request ----

  const PAGE_LIMIT: int := 100

  /** How many messages a request for a gap asks for. */
  function RequestLimit(gap: Range): nat
    requires gap.first <= gap.last
  {
    var width := gap.last - gap.first + 1;
    if PAGE_LIMIT < width then PAGE_LIMIT else width
  }

  /** What an answer fills: its numbers as far as the client takes their messages. */
  function Filled(gap: Range, taken: set<int>): set<int>
    requires gap.first <= gap.last
  {
    set x | x in taken && gap.last - RequestLimit(gap) < x <= gap.last
  }

  /** Observing numbers up to `top`, itself below the largest, ends exactly their absence. */
  lemma FilledGap(ranges: seq<Range>, after: seq<Range>, top: int, filled: set<int>)
    requires Normal(ranges) && Normal(after) && 1 <= top < MaxArrived(ranges)
    requires forall x :: x in filled ==> 1 <= x <= top
    requires forall x :: Covers(after, x) <==> Covers(ranges, x) || x in filled
    ensures forall x :: Missing(after, x) <==> Missing(ranges, x) && x !in filled
    ensures MaxArrived(after) == MaxArrived(ranges)
  {
    var m, m' := MaxArrived(ranges), MaxArrived(after);
    assert Covers(ranges, m) && Covers(after, m);
    MaxCovers(after, m);
    assert Covers(after, m');
    MaxCovers(ranges, m');
    assert m == m';
  }

  /** The answer to a request for a gap of a conversation with `n` messages. */
  lemma GapAnswer(table: seq<MS.Stored>, conversation: int, gap: Range)
    requires MS.WellNumbered(table) && 1 <= gap.first <= gap.last <= MS.Count(table, conversation)
    ensures var limit := RequestLimit(gap);
            var rows := MS.Older(table, conversation, MS.Cursor(gap.last + 1), MS.Clamp(limit));
            |rows| == limit && MS.Descends(rows, table, conversation, gap.last)
  {
    var limit, before := RequestLimit(gap), gap.last + 1;
    assert MS.Cursor(before) == before && MS.Clamp(limit) == limit && limit <= gap.last;
    assert MS.Top(table, conversation, before) == gap.last;
    MS.PageIsExact(table, conversation, before, limit);
  }

  ghost predicate Carries(rows: seq<MS.Stored>, x: int) {
    exists i :: 0 <= i < |rows| && rows[i].seqNo == x
  }

  lemma DescendingCarries(rows: seq<MS.Stored>, table: seq<MS.Stored>, conversation: int, top: nat)
    requires MS.Descends(rows, table, conversation, top)
    ensures forall x :: Carries(rows, x) <==> top - |rows| < x <= top
  {
    forall x | top - |rows| < x <= top
      ensures Carries(rows, x)
    {
      assert rows[top - x].seqNo == x;
    }
  }

  /**
   The server's answer to a gap request carries exactly the top min(100, width) missing
   numbers. The client observes those whose messages its repository takes, and exactly these stop
   being missing.
   */
  lemma GapRequestFillsItsTop(table: seq<MS.Stored>, conversation: int, ranges: seq<Range>, gap: Range,
                              rows: seq<MS.Stored>, taken: set<int>, after: seq<Range>)
    requires MS.WellNumbered(table) && Normal(ranges) && Normal(after)
    requires MaxArrived(ranges) <= MS.Count(table, conversation)
    requires 1 <= gap.first <= gap.last && forall x :: gap.first <= x <= gap.last ==> Missing(ranges, x)
    requires rows == MS.Older(table, conversation, MS.Cursor(gap.last + 1), MS.Clamp(RequestLimit(gap)))
    requires forall x :: Covers(after, x) <==> Covers(ranges, x) || (Carries(rows, x) && x in taken)
    ensures |rows| == RequestLimit(gap) == (if gap.last - gap.first < 99 then gap.last - gap.first + 1 else 100)
    ensures MS.Descends(rows, table, conversation, gap.last)
    ensures forall x :: Missing(after, x) <==> Missing(ranges, x) && x !in Filled(gap, taken)
    ensures MaxArrived(after) == MaxArrived(ranges)
  {
    assert Missing(ranges, gap.last);
    assert gap.last != MaxArrived(ranges) by {
      assert Covers(ranges, MaxArrived(ranges));
    }
    GapAnswer(table, conversation, gap);
    DescendingCarries(rows, table, conversation, gap.last);
    FilledGap(ranges, after, gap.last, Filled(gap, taken));
  }

  // ---- catching up ----

  ghost function MissingSet(ranges: seq<Range>): set<int> {
    set x | 1 <= x <= MaxArrived(ranges) && !Covers(ranges, x)
  }

  /**
   The client asks for some gap and observes what it takes of the answer. It takes nothing of an
   answer that is lost.
   */
  ghost predicate Round(table: seq<MS.Stored>, conversation: int, ranges: seq<Range>, gap: Range, taken: set<int>, after: seq<Range>) {
    && 1 <= gap.first <= gap.last && (forall x :: gap.first <= x <= gap.last ==> Missing(ranges, x))
    && Normal(after)
    && forall x :: Covers(after, x) <==>
         Covers(ranges, x) ||
         (Carries(MS.Older(table, conversation, MS.Cursor(gap.last + 1), MS.Clamp(RequestLimit(gap))), x) && x in taken)
  }

  ghost predicate Consistent(table: seq<MS.Stored>, conversation: int, ranges: seq<Range>) {
    MS.WellNumbered(table) && Normal(ranges) && MaxArrived(ranges) <= MS.Count(table, conversation)
  }

  /** Every round removes exactly as many missing numbers as were asked for and taken. */
  lemma RoundShrinks(table: seq<MS.Stored>, conversation: int, ranges: seq<Range>, gap: Range, taken: set<int>, after: seq<Range>)
    requires Consistent(table, conversation, ranges) && Round(table, conversation, ranges, gap, taken, after)
    ensures Consistent(table, conversation, after)
    ensures |MissingSet(after)| == |MissingSet(ranges)| - |Filled(gap, taken)|
  {
    var rows := MS.Older(table, conversation, MS.Cursor(gap.last + 1), MS.Clamp(RequestLimit(gap)));
    GapRequestFillsItsTop(table, conversation, ranges, gap, rows, taken, after);
    ShrunkBy(ranges, after, Filled(gap, taken));
  }

  lemma ShrunkBy(ranges: seq<Range>, after: seq<Range>, filled: set<int>)
    requires forall x :: x in filled ==> Missing(ranges, x)
    requires forall x :: Missing(after, x) <==> Missing(ranges, x) && x !in filled
    ensures |MissingSet(after)| == |MissingSet(ranges)| - |filled|
  {
    var before, later := MissingSet(ranges), MissingSet(after);
    forall x
      ensures x in before <==> Missing(ranges, x)
      ensures x in later <==> Missing(after, x)
    {
    }
    assert later == before - filled;
    assert before == later + filled;
  }

  /** `states` are the tracker's states from round to round, `gaps` what was asked for, `takens` what was taken. */
  ghost predicate Rounds(table: seq<MS.Stored>, conversation: int, states: seq<seq<Range>>, gaps: seq<Range>, takens: seq<set<int>>) {
    |states| == |gaps| + 1 && |takens| == |gaps| &&
    forall i :: 0 <= i < |gaps| ==> Round(table, conversation, states[i], gaps[i], takens[i], states[i + 1])
  }

  /** The rounds in which anything was taken. */
  function Productive(gaps: seq<Range>, takens: seq<set<int>>): nat
    requires |takens| == |gaps| && forall i :: 0 <= i < |gaps| ==> gaps[i].first <= gaps[i].last
  {
    if gaps == [] then 0
    else (if Filled(gaps[0], takens[0]) != {} then 1 else 0) + Productive(gaps[1..], takens[1..])
  }

  /**
   Whatever gaps are asked for in whatever order, and whatever is refused or lost: every round in
   which anything is taken ends an absence, so there are at most as many as there were missing
   numbers.
   */
  lemma {:induction false} RoundsEnd(table: seq<MS.Stored>, conversation: int, states: seq<seq<Range>>, gaps: seq<Range>, takens: seq<set<int>>)
    requires |states| == |gaps| + 1 && Consistent(table, conversation, states[0]) && Rounds(table, conversation, states, gaps, takens)
    ensures Consistent(table, conversation, states[|gaps|]) && forall i :: 0 <= i < |gaps| ==> gaps[i].first <= gaps[i].last
    ensures Productive(gaps, takens) <= |MissingSet(states[0])| - |MissingSet(states[|gaps|])|
  {
    RoundsAsk(table, conversation, states, gaps, takens);
    if gaps != [] {
      RoundShrinks(table, conversation, states[0], gaps[0], takens[0], states[1]);
      var states', gaps', takens' := states[1..], gaps[1..], takens[1..];
      forall i | 0 <= i < |gaps'|
        ensures Round(table, conversation, states'[i], gaps'[i], takens'[i], states'[i + 1])
      {
        assert Round(table, conversation, states[i + 1], gaps[i + 1], takens[i + 1], states[i + 2]);
      }
      RoundsEnd(table, conversation, states', gaps', takens');
    }
  }

  lemma RoundsAsk(table: seq<MS.Stored>, conversation: int, states: seq<seq<Range>>, gaps: seq<Range>, takens: seq<set<int>>)
    requires Rounds(table, conversation, states, gaps, takens)
    ensures forall i :: 0 <= i < |gaps| ==> gaps[i].first <= gaps[i].last
  {
    forall i | 0 <= i < |gaps|
      ensures gaps[i].first <= gaps[i].last
    {
      assert Round(table, conversation, states[i], gaps[i], takens[i], states[i + 1]);
    }
  }

  /**
   A round in which everything asked for is taken is productive, one in which nothing is taken
   leaves the tracker as it was: the same gap is asked for again.
   */
  lemma RoundOutcome(table: seq<MS.Stored>, conversation: int, ranges: seq<Range>, gap: Range, taken: set<int>, after: seq<Range>)
    requires Consistent(table, conversation, ranges) && Round(table, conversation, ranges, gap, taken, after)
    ensures gap.last in taken ==> Filled(gap, taken) != {}
    ensures Filled(gap, taken) == {} <==> after == ranges
  {
    RoundShrinks(table, conversation, ranges, gap, taken, after);
    if gap.last in taken {
      assert gap.last in Filled(gap, taken);
    }
    var rows := MS.Older(table, conversation, MS.Cursor(gap.last + 1), MS.Clamp(RequestLimit(gap)));
    GapRequestFillsItsTop(table, conversation, ranges, gap, rows, taken, after);
    DescendingCarries(rows, table, conversation, gap.last);
    assert forall x :: Carries(rows, x) && x in taken <==> x in Filled(gap, taken);
    if Filled(gap, taken) == {} {
      CanonicalForm(after, ranges);
    }
  }

  /** The contiguous watermark has caught up with the largest number exactly when nothing is missing. */
  lemma CaughtUp(ranges: seq<Range>)
    requires Normal(ranges)
    ensures Contiguous(ranges) == MaxArrived(ranges) <==> forall x :: !Missing(ranges, x)
  {
    ContiguousIsExact(ranges);
    if ranges != [] {
      assert Covers(ranges, MaxArrived(ranges));
      assert ranges[0].last <= MaxArrived(ranges);
    }
    if Contiguous(ranges) < MaxArrived(ranges) {
      assert Missing(ranges, Contiguous(ranges) + 1);
    }
  }
}
