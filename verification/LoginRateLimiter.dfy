/**
 Limiting failed password logins per address and per pair of address and account.

 The limiter keeps pruned buckets and drops idle ones now and then. What it answers is
 specified over the whole history of events, where nothing is ever forgotten.
 */
module LoginRateLimiter {
  import opened SlidingWindow

  datatype Policy = Policy(pairLimit: nat, ipLimit: nat, window: int, pairBlock: int, ipBlock: int)

  datatype Event = Failure(ip: string, account: string, at: int) | Success(ip: string, account: string)

  datatype Bucket = Bucket(failures: seq<int>, blockedUntil: int, lastSeen: int)

  const EMPTY: Bucket := Bucket([], 0, 0)

  function Max(a: int, b: int): int {
    if a > b then a else b
  }

  function PairKey(ip: string, account: string): string {
    ip + ("\n" + account)
  }

  // ---- the history ----

  /** The failures that count for a key: of an address, or of a pair since its last success. */
  function FailsOf(history: seq<Event>, pair: bool, key: string): seq<int> {
    if history == [] then []
    else
      var e, before := history[|history| - 1], FailsOf(history[..|history| - 1], pair, key);
      if !pair then if e.Failure? && e.ip == key then before + [e.at] else before
      else if e.account == "" || PairKey(e.ip, e.account) != key then before
      else if e.Failure? then before + [e.at] else []
  }

  /** Instant `j` was the limit-th failure within a window that ends there, and its block still holds. */
  predicate Blocks(ts: seq<int>, j: nat, limit: nat, window: int, block: int, now: int)
    requires j < |ts|
  {
    CountFrom(ts[..j + 1], ts[j] - window) >= limit && now < ts[j] + block
  }

  ghost predicate Blocked(ts: seq<int>, limit: nat, window: int, block: int, now: int) {
    exists j :: 0 <= j < |ts| && Blocks(ts, j, limit, window, block, now)
  }

  // ---- buckets ----

  /** When the last block of these failures ends; 0 if there was none. */
  function BlockEnd(ts: seq<int>, limit: nat, window: int, block: int): int {
    if ts == [] then 0
    else
      var t, before := ts[|ts| - 1], BlockEnd(ts[..|ts| - 1], limit, window, block);
      if |DropOld(ts, t - window)| >= limit then Max(before, t + block) else before
  }

  lemma BlocksPrefix(ts: seq<int>, j: nat, n: nat, limit: nat, window: int, block: int, now: int)
    requires j < n <= |ts|
    ensures Blocks(ts[..n], j, limit, window, block, now) <==> Blocks(ts, j, limit, window, block, now)
  {
    assert ts[..n][..j + 1] == ts[..j + 1];
  }

  lemma BlockedBySome(ts: seq<int>, limit: nat, window: int, block: int, now: int)
    requires ts != []
    ensures Blocked(ts, limit, window, block, now) <==>
            Blocked(ts[..|ts| - 1], limit, window, block, now) || Blocks(ts, |ts| - 1, limit, window, block, now)
  {
    var last := |ts| - 1;
    if Blocked(ts[..last], limit, window, block, now) {
      var j :| 0 <= j < last && Blocks(ts[..last], j, limit, window, block, now);
      BlocksPrefix(ts, j, last, limit, window, block, now);
    }
    if Blocked(ts, limit, window, block, now) {
      var j :| 0 <= j < |ts| && Blocks(ts, j, limit, window, block, now);
      if j < last {
        BlocksPrefix(ts, j, last, limit, window, block, now);
      }
    }
  }

  /** The end of the last block says exactly whether some failure still blocks. */
  lemma {:induction false} BlockEndMeaning(ts: seq<int>, limit: nat, window: int, block: int, now: int)
    requires Sorted(ts) && now >= 0
    ensures now < BlockEnd(ts, limit, window, block) <==> Blocked(ts, limit, window, block, now)
  {
    if ts != [] {
      var last := |ts| - 1;
      BlockEndMeaning(ts[..last], limit, window, block, now);
      BlockedBySome(ts, limit, window, block, now);
      DropOldCounts(ts, ts[last] - window);
      assert ts[..last + 1] == ts;
    }
  }

  // ---- one bucket follows the failures of its key ----

  /** From `now` on the bucket answers as the whole list of failures would. */
  predicate Follows(b: Bucket, ts: seq<int>, limit: nat, window: int, block: int, now: int) {
    && DropOld(b.failures, now - window) == DropOld(ts, now - window)
    && Max(b.blockedUntil, now) == Max(BlockEnd(ts, limit, window, block), now)
    && (forall i :: 0 <= i < |b.failures| ==> b.failures[i] <= b.lastSeen)
  }

  lemma FollowsLater(b: Bucket, ts: seq<int>, limit: nat, window: int, block: int, now: int, later: int)
    requires Follows(b, ts, limit, window, block, now) && now <= later
    ensures Follows(b, ts, limit, window, block, later)
  {
    DropOldTwice(b.failures, now - window, later - window);
    DropOldTwice(ts, now - window, later - window);
  }

  function Pruned(b: Bucket, window: int, now: int): Bucket {
    b.(failures := DropOld(b.failures, now - window))
  }

  function Hit(b: Bucket, limit: nat, window: int, block: int, now: int): Bucket {
    var failures := DropOld(b.failures, now - window) + [now];
    Bucket(failures, if |failures| >= limit then Max(b.blockedUntil, now + block) else b.blockedUntil, now)
  }

  lemma PruneFollows(b: Bucket, ts: seq<int>, limit: nat, window: int, block: int, now: int)
    requires Follows(b, ts, limit, window, block, now)
    ensures Follows(Pruned(b, window, now), ts, limit, window, block, now)
  {
    DropOldTwice(b.failures, now - window, now - window);
    DropOldKeepsBound(b.failures, now - window, b.lastSeen);
  }

  lemma HitFollows(b: Bucket, ts: seq<int>, limit: nat, window: int, block: int, now: int)
    requires Follows(b, ts, limit, window, block, now) && window >= 0 && b.lastSeen <= now
    ensures Follows(Hit(b, limit, window, block, now), ts + [now], limit, window, block, now)
  {
    var kept := DropOld(b.failures, now - window);
    DropOldAppend(ts, now, now - window);
    DropOldAppend(kept, now, now - window);
    DropOldTwice(b.failures, now - window, now - window);
    DropOldKeepsBound(b.failures, now - window, b.lastSeen);
    assert (ts + [now])[..|ts|] == ts;
  }

  /** A bucket idle for longer than window and block answers like one that was never there. */
  lemma StaleFollows(b: Bucket, ts: seq<int>, limit: nat, window: int, block: int, stale: int, now: int)
    requires Follows(b, ts, limit, window, block, now) && stale <= now - window && 0 <= window && 0 <= now
    requires b.lastSeen < stale && b.blockedUntil <= stale
    ensures Follows(EMPTY, ts, limit, window, block, now)
  {
    DropAll(b.failures, now - window);
  }

  // ---- the limiter ----

  function Get(buckets: map<string, Bucket>, key: string): Bucket {
    if key in buckets then buckets[key] else EMPTY
  }

  /** Every bucket, kept or dropped, follows the failures of its key. */
  ghost predicate Tracks(buckets: map<string, Bucket>, history: seq<Event>, pair: bool, limit: nat, window: int, block: int, now: int) {
    (forall key :: Follows(Get(buckets, key), FailsOf(history, pair, key), limit, window, block, now)) &&
    (forall key :: key in buckets ==> buckets[key].lastSeen <= now)
  }

  lemma TracksLater(buckets: map<string, Bucket>, history: seq<Event>, pair: bool, limit: nat, window: int, block: int, now: int, later: int)
    requires Tracks(buckets, history, pair, limit, window, block, now) && now <= later
    ensures Tracks(buckets, history, pair, limit, window, block, later)
  {
    forall key
      ensures Follows(Get(buckets, key), FailsOf(history, pair, key), limit, window, block, later)
    {
      FollowsLater(Get(buckets, key), FailsOf(history, pair, key), limit, window, block, now, later);
    }
  }

  /** A failure counts for one key of each kind, and for none when the account is empty and pairs are meant. */
  predicate CountsFor(e: Event, pair: bool, key: string) {
    e.Failure? && if pair then e.account != "" && PairKey(e.ip, e.account) == key else e.ip == key
  }

  lemma FailsAfter(history: seq<Event>, e: Event, pair: bool, key: string)
    ensures FailsOf(history + [e], pair, key) ==
            if CountsFor(e, pair, key) then FailsOf(history, pair, key) + [e.at]
            else if pair && e.Success? && e.account != "" && PairKey(e.ip, e.account) == key then []
            else FailsOf(history, pair, key)
  {
    assert (history + [e])[..|history|] == history;
  }

  lemma HitAt(b: Bucket, history: seq<Event>, pair: bool, limit: nat, window: int, block: int, now: int, e: Event, key: string)
    requires Follows(b, FailsOf(history, pair, key), limit, window, block, now) && window >= 0 && b.lastSeen <= now
    requires e.Failure? && e.at == now && CountsFor(e, pair, key)
    ensures Follows(Hit(b, limit, window, block, now), FailsOf(history + [e], pair, key), limit, window, block, now)
  {
    FailsAfter(history, e, pair, key);
    HitFollows(b, FailsOf(history, pair, key), limit, window, block, now);
  }

  lemma HitTracks(buckets: map<string, Bucket>, history: seq<Event>, pair: bool, limit: nat, window: int, block: int, now: int,
                  e: Event, key: string)
    requires Tracks(buckets, history, pair, limit, window, block, now) && window >= 0 && 0 <= now
    requires e.Failure? && e.at == now && CountsFor(e, pair, key)
    ensures Tracks(buckets[key := Hit(Get(buckets, key), limit, window, block, now)], history + [e], pair, limit, window, block, now)
  {
    var b := Hit(Get(buckets, key), limit, window, block, now);
    HitAt(Get(buckets, key), history, pair, limit, window, block, now, e, key);
    forall k | k != key
      ensures FailsOf(history + [e], pair, k) == FailsOf(history, pair, k)
    {
      FailsAfter(history, e, pair, k);
    }
    PutTracks(buckets, history, history + [e], pair, limit, window, block, now, key, b);
  }

  lemma PutTracks(buckets: map<string, Bucket>, history: seq<Event>, later: seq<Event>, pair: bool, limit: nat, window: int, block: int,
                  now: int, key: string, b: Bucket)
    requires Tracks(buckets, history, pair, limit, window, block, now)
    requires Follows(b, FailsOf(later, pair, key), limit, window, block, now) && b.lastSeen <= now
    requires forall k :: k != key ==> FailsOf(later, pair, k) == FailsOf(history, pair, k)
    ensures Tracks(buckets[key := b], later, pair, limit, window, block, now)
  {
    forall k
      ensures Follows(Get(buckets[key := b], k), FailsOf(later, pair, k), limit, window, block, now)
    {
      assert k != key ==> Get(buckets[key := b], k) == Get(buckets, k);
    }
  }

  function Cleaned(buckets: map<string, Bucket>, stale: int): map<string, Bucket> {
    map key | key in buckets && !(buckets[key].lastSeen < stale && buckets[key].blockedUntil <= stale) :: buckets[key]
  }

  /** Dropping idle buckets changes no answer, now or later. */
  lemma CleanupTracks(buckets: map<string, Bucket>, history: seq<Event>, pair: bool, limit: nat, window: int, block: int, now: int, stale: int)
    requires Tracks(buckets, history, pair, limit, window, block, now) && 0 <= window && 0 <= now && stale <= now - window
    ensures Tracks(Cleaned(buckets, stale), history, pair, limit, window, block, now)
  {
    var kept := Cleaned(buckets, stale);
    forall key
      ensures Follows(Get(kept, key), FailsOf(history, pair, key), limit, window, block, now)
    {
      assert Follows(Get(buckets, key), FailsOf(history, pair, key), limit, window, block, now);
      if key in buckets && key !in kept {
        StaleFollows(buckets[key], FailsOf(history, pair, key), limit, window, block, stale, now);
      }
    }
  }

  /** Failures come in the order of their clock. */
  ghost predicate InOrder(history: seq<Event>, clock: int) {
    && (forall i :: 0 <= i < |history| && history[i].Failure? ==> history[i].at <= clock)
    && (forall i, j :: 0 <= i < j < |history| && history[i].Failure? && history[j].Failure? ==> history[i].at <= history[j].at)
  }

  lemma {:induction false} FailsAreSorted(history: seq<Event>, pair: bool, key: string, clock: int)
    requires InOrder(history, clock)
    ensures Sorted(FailsOf(history, pair, key))
    ensures forall t :: t in FailsOf(history, pair, key) ==> exists i :: 0 <= i < |history| && history[i].Failure? && history[i].at == t
  {
    if history != [] {
      var init := history[..|history| - 1];
      FailsAreSorted(init, pair, key, clock);
      var before := FailsOf(init, pair, key);
      forall t | t in before
        ensures exists i :: 0 <= i < |history| && history[i].Failure? && history[i].at == t
      {
        var i :| 0 <= i < |init| && init[i].Failure? && init[i].at == t;
        assert history[i] == init[i];
      }
      if history[|history| - 1].Failure? {
        forall i | 0 <= i < |before|
          ensures before[i] <= history[|history| - 1].at
        {
          assert before[i] in before;
        }
      }
    }
  }

  /** What a bucket that follows its failures says about a block. */
  lemma BlockedAgrees(b: Bucket, ts: seq<int>, limit: nat, window: int, block: int, now: int)
    requires Follows(b, ts, limit, window, block, now) && Sorted(ts) && now >= 0
    ensures b.blockedUntil > now <==> Blocked(ts, limit, window, block, now)
  {
    BlockEndMeaning(ts, limit, window, block, now);
  }

  class LoginRateLimiter {
    const policy: Policy
    var ipBuckets: map<string, Bucket>
    var pairBuckets: map<string, Bucket>
    var operations: nat
    ghost var history: seq<Event>
    ghost var clock: int

    constructor (p: Policy)
      requires p.window >= 0 && p.ipBlock >= 0
      ensures Valid() && history == [] && clock == 0
      ensures policy == p.(pairLimit := if p.pairLimit < 1 then 1 else p.pairLimit, ipLimit := if p.ipLimit < 1 then 1 else p.ipLimit)
    {
      policy := p.(pairLimit := if p.pairLimit < 1 then 1 else p.pairLimit, ipLimit := if p.ipLimit < 1 then 1 else p.ipLimit);
      ipBuckets, pairBuckets, operations, history, clock := map[], map[], 0, [], 0;
    }

    ghost predicate Valid()
      reads this
    {
      && policy.ipLimit > 0 && policy.pairLimit > 0 && policy.window >= 0 && policy.ipBlock >= 0 && clock >= 0
      && InOrder(history, clock)
      && Tracks(ipBuckets, history, false, policy.ipLimit, policy.window, policy.ipBlock, clock)
      && Tracks(pairBuckets, history, true, policy.pairLimit, policy.window, policy.pairBlock, clock)
    }

    /** The answer over the whole history. */
    ghost predicate Denied(ip: string, account: string, now: int)
      reads this
    {
      || Blocked(FailsOf(history, false, ip), policy.ipLimit, policy.window, policy.ipBlock, now)
      || (account != "" && Blocked(FailsOf(history, true, PairKey(ip, account)), policy.pairLimit, policy.window, policy.pairBlock, now))
    }

    ghost method Advance(now: int)
      requires Valid() && clock <= now
      modifies this`clock
      ensures Valid() && clock == now
    {
      TracksLater(ipBuckets, history, false, policy.ipLimit, policy.window, policy.ipBlock, clock, now);
      TracksLater(pairBuckets, history, true, policy.pairLimit, policy.window, policy.pairBlock, clock, now);
      clock := now;
    }

    /** Denies exactly when the history has, for the address or the pair, a block that still holds. */
    method Allow(ip: string, account: string, now: int) returns (ok: bool)
      requires Valid() && clock <= now
      modifies this
      ensures Valid() && clock == now && history == old(history)
      ensures ok <==> !old(Denied(ip, account, now))
    {
      Advance(now);
      var denied := DeniedByIp(ip, now);
      if denied {
        return false;
      }
      if account != "" {
        denied := DeniedByPair(PairKey(ip, account), now);
        if denied {
          return false;
        }
      }
      return true;
    }

    method DeniedByIp(ip: string, now: int) returns (denied: bool)
      requires Valid() && clock == now
      modifies this`ipBuckets
      ensures Valid()
      ensures denied <==> Blocked(FailsOf(history, false, ip), policy.ipLimit, policy.window, policy.ipBlock, now)
    {
      ghost var ts := FailsOf(history, false, ip);
      FailsAreSorted(history, false, ip, now);
      BlockedAgrees(Get(ipBuckets, ip), ts, policy.ipLimit, policy.window, policy.ipBlock, now);
      if ip in ipBuckets {
        var b := Pruned(ipBuckets[ip], policy.window, now);
        PruneFollows(ipBuckets[ip], ts, policy.ipLimit, policy.window, policy.ipBlock, now);
        ipBuckets := ipBuckets[ip := b];
        return b.blockedUntil > now;
      }
      return false;
    }

    method DeniedByPair(key: string, now: int) returns (denied: bool)
      requires Valid() && clock == now
      modifies this`pairBuckets
      ensures Valid()
      ensures denied <==> Blocked(FailsOf(history, true, key), policy.pairLimit, policy.window, policy.pairBlock, now)
    {
      ghost var ts := FailsOf(history, true, key);
      FailsAreSorted(history, true, key, now);
      BlockedAgrees(Get(pairBuckets, key), ts, policy.pairLimit, policy.window, policy.pairBlock, now);
      if key in pairBuckets {
        var b := Pruned(pairBuckets[key], policy.window, now);
        PruneFollows(pairBuckets[key], ts, policy.pairLimit, policy.window, policy.pairBlock, now);
        pairBuckets := pairBuckets[key := b];
        return b.blockedUntil > now;
      }
      return false;
    }

    method RecordFailure(ip: string, account: string, now: int)
      requires Valid() && clock <= now
      modifies this
      ensures Valid() && clock == now && history == old(history) + [Failure(ip, account, now)]
    {
      Advance(now);
      ghost var e := Failure(ip, account, now);
      HitIp(ip, now, e);
      HitPair(ip, account, now, e);
      history := history + [e];
      operations := operations + 1;
      if operations % 256 == 0 {
        CleanupMaps(now);
      }
    }

    method HitIp(ip: string, now: int, ghost e: Event)
      requires Valid() && clock == now && e.Failure? && e.ip == ip && e.at == now
      modifies this`ipBuckets
      ensures Tracks(ipBuckets, history + [e], false, policy.ipLimit, policy.window, policy.ipBlock, now)
    {
      HitTracks(ipBuckets, history, false, policy.ipLimit, policy.window, policy.ipBlock, now, e, ip);
      ipBuckets := ipBuckets[ip := Hit(Get(ipBuckets, ip), policy.ipLimit, policy.window, policy.ipBlock, now)];
    }

    method HitPair(ip: string, account: string, now: int, ghost e: Event)
      requires policy.window >= 0 && now >= 0 && e == Failure(ip, account, now)
      requires Tracks(pairBuckets, history, true, policy.pairLimit, policy.window, policy.pairBlock, now)
      modifies this`pairBuckets
      ensures Tracks(pairBuckets, history + [e], true, policy.pairLimit, policy.window, policy.pairBlock, now)
    {
      if account != "" {
        var key := PairKey(ip, account);
        HitTracks(pairBuckets, history, true, policy.pairLimit, policy.window, policy.pairBlock, now, e, key);
        pairBuckets := pairBuckets[key := Hit(Get(pairBuckets, key), policy.pairLimit, policy.window, policy.pairBlock, now)];
      } else {
        forall key {
          FailsAfter(history, e, true, key);
        }
      }
    }

    method RecordSuccess(ip: string, account: string)
      requires Valid()
      modifies this
      ensures Valid() && clock == old(clock)
      ensures history == if account == "" then old(history) else old(history) + [Success(ip, account)]
    {
      if account == "" {
        return;
      }
      ghost var h, e := history, Success(ip, account);
      forall key {
        FailsAfter(h, e, false, key);
      }
      pairBuckets := pairBuckets - {PairKey(ip, account)};
      history := h + [e];
    }

    method CleanupMaps(now: int)
      requires Valid() && clock == now
      modifies this`ipBuckets, this`pairBuckets
      ensures Valid()
    {
      var stale := now - policy.window - policy.ipBlock;
      CleanupTracks(ipBuckets, history, false, policy.ipLimit, policy.window, policy.ipBlock, now, stale);
      CleanupTracks(pairBuckets, history, true, policy.pairLimit, policy.window, policy.pairBlock, now, stale);
      ipBuckets := Cleaned(ipBuckets, stale);
      pairBuckets := Cleaned(pairBuckets, stale);
    }
  }

  // ---- keys of pairs ----

  predicate OneLine(ip: string) {
    forall i :: 0 <= i < |ip| ==> ip[i] != '\n'
  }

  /** Pairs whose address has no line break never share a bucket. */
  lemma PairKeysDiffer(ip: string, account: string, ip': string, account': string)
    requires OneLine(ip) && OneLine(ip')
    ensures PairKey(ip, account) == PairKey(ip', account') <==> ip == ip' && account == account'
  {
    var k, k' := PairKey(ip, account), PairKey(ip', account');
    if k == k' {
      assert k[|ip|] == '\n' && k'[|ip'|] == '\n';
      assert forall i :: 0 <= i < |ip| ==> k[i] == ip[i];
      assert forall i :: 0 <= i < |ip'| ==> k'[i] == ip'[i];
      assert |ip| == |ip'|;
      assert ip == k[..|ip|] && ip' == k'[..|ip|];
      assert account == k[|ip| + 1..] && account' == k'[|ip| + 1..];
    }
  }

  /** Some pair with a shorter address has the same key. */
  ghost predicate SharesKey(ip: string, account: string) {
    exists ip', account' :: |ip'| < |ip| && PairKey(ip', account') == PairKey(ip, account)
  }

  /** Only an address with a line break could be confused with a shorter one; a printed network address has none. */
  lemma LineBreakIsAmbiguous(ip: string, account: string)
    ensures SharesKey(ip, account) <==> !OneLine(ip)
  {
    if SharesKey(ip, account) {
      var ip', account' :| |ip'| < |ip| && PairKey(ip', account') == PairKey(ip, account);
      assert PairKey(ip', account')[|ip'|] == '\n';
      assert ip[|ip'|] == PairKey(ip, account)[|ip'|];
    }
    if !OneLine(ip) {
      var i :| 0 <= i < |ip| && ip[i] == '\n';
      var rest := ip[i + 1..] + ("\n" + account);
      assert ip == ip[..i] + ("\n" + ip[i + 1..]);
      assert PairKey(ip[..i], rest) == PairKey(ip, account);
    }
  }

  // ---- the answer in terms of the events alone ----

  predicate FailureOf(e: Event, ip: string) {
    e.Failure? && e.ip == ip
  }

  predicate FailureOfPair(e: Event, ip: string, account: string) {
    e.Failure? && e.ip == ip && e.account == account
  }

  function AddressFailures(history: seq<Event>, ip: string): seq<int> {
    if history == [] then []
    else (if FailureOf(history[0], ip) then [history[0].at] else []) + AddressFailures(history[1..], ip)
  }

  /** The failures of a pair that no later success of the same pair has forgiven. */
  function PairFailures(history: seq<Event>, ip: string, account: string): seq<int> {
    if history == [] then []
    else
      (if FailureOfPair(history[0], ip, account) && Success(ip, account) !in history[1..] then [history[0].at] else []) +
      PairFailures(history[1..], ip, account)
  }

  /** `limit` failures in a row, the first at position i, lie within a window and the last still blocks. */
  predicate BlocksFrom(ts: seq<int>, i: int, limit: nat, window: int, block: int, now: int) {
    0 < limit && 0 <= i <= |ts| - limit && ts[i + limit - 1] - ts[i] <= window && now < ts[i + limit - 1] + block
  }

  ghost predicate TooMany(ts: seq<int>, limit: nat, window: int, block: int, now: int) {
    exists i :: BlocksFrom(ts, i, limit, window, block, now)
  }

  ghost predicate AddressesAreLines(history: seq<Event>) {
    forall i :: 0 <= i < |history| ==> OneLine(history[i].ip)
  }

  lemma BlocksIff(ts: seq<int>, j: nat, limit: nat, window: int, block: int, now: int)
    requires Sorted(ts) && j < |ts| && limit > 0
    ensures Blocks(ts, j, limit, window, block, now) <==> BlocksFrom(ts, j + 1 - limit, limit, window, block, now)
  {
    CountAtLeast(ts[..j + 1], ts[j] - window, limit);
  }

  lemma BlockedIff(ts: seq<int>, limit: nat, window: int, block: int, now: int)
    requires Sorted(ts) && limit > 0
    ensures Blocked(ts, limit, window, block, now) <==> TooMany(ts, limit, window, block, now)
  {
    if Blocked(ts, limit, window, block, now) {
      var j :| 0 <= j < |ts| && Blocks(ts, j, limit, window, block, now);
      BlocksIff(ts, j, limit, window, block, now);
    }
    if TooMany(ts, limit, window, block, now) {
      var i :| BlocksFrom(ts, i, limit, window, block, now);
      BlocksIff(ts, i + limit - 1, limit, window, block, now);
      assert Blocks(ts, i + limit - 1, limit, window, block, now);
    }
  }

  lemma {:induction false} AddressFailuresSnoc(history: seq<Event>, e: Event, ip: string)
    ensures AddressFailures(history + [e], ip) ==
            AddressFailures(history, ip) + if FailureOf(e, ip) then [e.at] else []
  {
    if history != [] {
      assert (history + [e])[1..] == history[1..] + [e];
      AddressFailuresSnoc(history[1..], e, ip);
    }
  }

  lemma {:induction false} PairFailuresSnoc(history: seq<Event>, e: Event, ip: string, account: string)
    ensures PairFailures(history + [e], ip, account) ==
            if e == Success(ip, account) then []
            else PairFailures(history, ip, account) + if FailureOfPair(e, ip, account) then [e.at] else []
  {
    if history != [] {
      assert (history + [e])[1..] == history[1..] + [e];
      PairFailuresSnoc(history[1..], e, ip, account);
    }
  }

  lemma {:induction false} AddressFailuresAre(history: seq<Event>, ip: string)
    ensures FailsOf(history, false, ip) == AddressFailures(history, ip)
  {
    if history != [] {
      var n := |history| - 1;
      AddressFailuresAre(history[..n], ip);
      AddressFailuresSnoc(history[..n], history[n], ip);
      assert history == history[..n] + [history[n]];
    }
  }

  lemma {:induction false} PairFailuresAre(history: seq<Event>, ip: string, account: string)
    requires AddressesAreLines(history) && OneLine(ip) && account != ""
    ensures FailsOf(history, true, PairKey(ip, account)) == PairFailures(history, ip, account)
  {
    if history != [] {
      var n := |history| - 1;
      var e := history[n];
      PairFailuresAre(history[..n], ip, account);
      PairFailuresSnoc(history[..n], e, ip, account);
      PairKeysDiffer(e.ip, e.account, ip, account);
      assert history == history[..n] + [e];
    }
  }

  /**
   When a login is refused, told by the events alone: the address had its limit of failures within
   a window, or the pair had its own without a success since, and the last of them still blocks.
   */
  lemma DeniedMeaning(limiter: LoginRateLimiter, ip: string, account: string, now: int)
    requires limiter.Valid() && AddressesAreLines(limiter.history) && OneLine(ip)
    ensures var p, h := limiter.policy, limiter.history;
            limiter.Denied(ip, account, now) <==>
            || TooMany(AddressFailures(h, ip), p.ipLimit, p.window, p.ipBlock, now)
            || (account != "" && TooMany(PairFailures(h, ip, account), p.pairLimit, p.window, p.pairBlock, now))
  {
    var p, h := limiter.policy, limiter.history;
    AddressFailuresAre(h, ip);
    FailsAreSorted(h, false, ip, limiter.clock);
    BlockedIff(AddressFailures(h, ip), p.ipLimit, p.window, p.ipBlock, now);
    if account != "" {
      PairFailuresAre(h, ip, account);
      FailsAreSorted(h, true, PairKey(ip, account), limiter.clock);
      BlockedIff(PairFailures(h, ip, account), p.pairLimit, p.window, p.pairBlock, now);
    }
  }
}
