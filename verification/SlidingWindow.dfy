/** Instants in the order of their clock, and the queue that keeps only the recent ones. */
module SlidingWindow {
  predicate Sorted(ts: seq<int>) {
    forall i, j :: 0 <= i < j < |ts| ==> ts[i] <= ts[j]
  }

  function DropOld(ts: seq<int>, cutoff: int): seq<int> {
    if ts != [] && ts[0] < cutoff then DropOld(ts[1..], cutoff) else ts
  }

  /** How many of these instants are not before `cutoff`. */
  function CountFrom(ts: seq<int>, cutoff: int): nat {
    if ts == [] then 0 else CountFrom(ts[..|ts| - 1], cutoff) + if ts[|ts| - 1] >= cutoff then 1 else 0
  }

  lemma {:induction false} DropOldCounts(ts: seq<int>, cutoff: int)
    requires Sorted(ts)
    ensures |DropOld(ts, cutoff)| == CountFrom(ts, cutoff)
    ensures forall t :: t in DropOld(ts, cutoff) ==> t in ts && t >= cutoff
  {
    if ts != [] {
      if ts[0] < cutoff {
        DropOldCounts(ts[1..], cutoff);
        CountOfTail(ts, cutoff);
      } else {
        CountAll(ts, cutoff);
      }
    }
  }

  lemma {:induction false} CountOfTail(ts: seq<int>, cutoff: int)
    requires ts != [] && ts[0] < cutoff
    ensures CountFrom(ts[1..], cutoff) == CountFrom(ts, cutoff)
  {
    if |ts| > 1 {
      var init := ts[..|ts| - 1];
      CountOfTail(init, cutoff);
      assert ts[1..][..|ts| - 2] == init[1..];
    }
  }

  lemma {:induction false} CountAll(ts: seq<int>, cutoff: int)
    requires forall i :: 0 <= i < |ts| ==> ts[i] >= cutoff
    ensures CountFrom(ts, cutoff) == |ts|
  {
    if ts != [] {
      CountAll(ts[..|ts| - 1], cutoff);
    }
  }

  /** At least `n` of sorted instants are recent exactly if the n-th from the end is. */
  lemma {:induction false} CountAtLeast(ts: seq<int>, cutoff: int, n: nat)
    requires Sorted(ts) && n > 0
    ensures CountFrom(ts, cutoff) >= n <==> n <= |ts| && ts[|ts| - n] >= cutoff
  {
    if ts != [] {
      var init := ts[..|ts| - 1];
      if ts[|ts| - 1] < cutoff {
        CountAtLeast(init, cutoff, n);
      } else if n > 1 {
        CountAtLeast(init, cutoff, n - 1);
      }
    }
  }

  lemma {:induction false} DropOldTwice(ts: seq<int>, a: int, b: int)
    requires a <= b
    ensures DropOld(DropOld(ts, a), b) == DropOld(ts, b)
  {
    if ts != [] && ts[0] < a {
      DropOldTwice(ts[1..], a, b);
    }
  }

  lemma {:induction false} DropOldAppend(ts: seq<int>, t: int, cutoff: int)
    requires t >= cutoff
    ensures DropOld(ts + [t], cutoff) == DropOld(ts, cutoff) + [t]
  {
    if ts != [] && ts[0] < cutoff {
      assert (ts + [t])[1..] == ts[1..] + [t];
      DropOldAppend(ts[1..], t, cutoff);
    }
  }

  lemma {:induction false} DropAll(ts: seq<int>, cutoff: int)
    requires forall i :: 0 <= i < |ts| ==> ts[i] < cutoff
    ensures DropOld(ts, cutoff) == []
  {
    if ts != [] {
      DropAll(ts[1..], cutoff);
    }
  }

  lemma {:induction false} DropOldKeepsBound(ts: seq<int>, cutoff: int, bound: int)
    requires forall i :: 0 <= i < |ts| ==> ts[i] <= bound
    ensures forall i :: 0 <= i < |DropOld(ts, cutoff)| ==> DropOld(ts, cutoff)[i] <= bound
  {
    if ts != [] && ts[0] < cutoff {
      DropOldKeepsBound(ts[1..], cutoff, bound);
    }
  }

  /** How many of these instants lie in a closed interval. */
  function CountIn(ts: seq<int>, first: int, last: int): nat {
    if ts == [] then 0
    else CountIn(ts[..|ts| - 1], first, last) + if first <= ts[|ts| - 1] <= last then 1 else 0
  }

  lemma {:induction false} CountInBound(ts: seq<int>, first: int, last: int, cutoff: int)
    requires cutoff <= first
    ensures CountIn(ts, first, last) <= CountFrom(ts, cutoff)
  {
    if ts != [] {
      CountInBound(ts[..|ts| - 1], first, last, cutoff);
    }
  }

  /** If no instant ends a window with more than `limit` others, no window of that length anywhere holds more. */
  lemma {:induction false} EveryWindow(ts: seq<int>, width: int, limit: nat, last: int)
    requires Sorted(ts) && forall j :: 0 <= j < |ts| ==> CountFrom(ts[..j + 1], ts[j] - width) <= limit
    ensures CountIn(ts, last - width, last) <= limit
  {
    if ts != [] {
      var n := |ts| - 1;
      var init := ts[..n];
      if ts[n] <= last {
        assert ts[..n + 1] == ts;
        CountInBound(ts, last - width, last, ts[n] - width);
      } else {
        forall j | 0 <= j < |init|
          ensures CountFrom(init[..j + 1], init[j] - width) <= limit
        {
          assert init[..j + 1] == ts[..j + 1];
        }
        EveryWindow(init, width, limit, last);
      }
    }
  }
}
