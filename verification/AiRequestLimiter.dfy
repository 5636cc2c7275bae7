/**
 Admission of AI requests: one in flight per user, a bound on users in flight, a rate per
 closed minute and no repetition of a request id within the replay window.
 */
module AiRequestLimiter {
  import opened WireFormat
  import opened SlidingWindow

  /** Clock ticks are nanoseconds. */
  const MINUTE: int := 60_000_000_000
  const SECOND: int := 1_000_000_000

  datatype Result = Accepted | Busy | RateLimited | Duplicate | QueueFull

  datatype Acceptance = Acceptance(user: int, requestId: string, at: int)

  // ---- the history of acceptances ----

  /** When a user's requests were accepted. */
  function Times(log: seq<Acceptance>, user: int): seq<int> {
    if log == [] then []
    else
      var a := log[|log| - 1];
      Times(log[..|log| - 1], user) + if a.user == user then [a.at] else []
  }

  /** When this request was last accepted. */
  function LastAt(log: seq<Acceptance>, user: int, requestId: string): Option<int> {
    if log == [] then None
    else
      var a := log[|log| - 1];
      if a.user == user && a.requestId == requestId then Some(a.at) else LastAt(log[..|log| - 1], user, requestId)
  }

  predicate IsDuplicate(log: seq<Acceptance>, user: int, requestId: string, now: int, replay: int) {
    LastAt(log, user, requestId).Some? && LastAt(log, user, requestId).value >= now - replay
  }

  /** The answer, over everything that was ever accepted. */
  function Answer(log: seq<Acceptance>, inFlight: set<int>, user: int, requestId: string, now: int,
                  perMinute: nat, maxPending: nat, replay: int): Result {
    if IsDuplicate(log, user, requestId, now, replay) then Duplicate
    else if user in inFlight then Busy
    else if |inFlight| >= maxPending then QueueFull
    else if CountFrom(Times(log, user), now - MINUTE) >= perMinute then RateLimited
    else Accepted
  }

  // ---- the guarantees, as properties of the history ----

  ghost predicate InOrder(log: seq<Acceptance>, clock: int) {
    (forall i :: 0 <= i < |log| ==> log[i].at <= clock) && (forall i, j :: 0 <= i < j < |log| ==> log[i].at <= log[j].at)
  }

  /** No acceptance ends a minute with more than `perMinute` of its user. */
  ghost predicate RateKept(log: seq<Acceptance>, perMinute: nat) {
    forall user :: RateOf(Times(log, user), perMinute)
  }

  ghost predicate RateOf(ts: seq<int>, perMinute: nat) {
    forall j :: 0 <= j < |ts| ==> CountFrom(ts[..j + 1], ts[j] - MINUTE) <= perMinute
  }

  /** A request id that is accepted twice for a user is accepted more than the replay window apart. */
  ghost predicate NoReplay(log: seq<Acceptance>, replay: int) {
    forall i, j :: 0 <= i < j < |log| && log[i].user == log[j].user && log[i].requestId == log[j].requestId ==>
      log[j].at - log[i].at > replay
  }

  lemma {:induction false} TimesAreSorted(log: seq<Acceptance>, user: int, clock: int)
    requires InOrder(log, clock)
    ensures Sorted(Times(log, user))
    ensures forall i :: 0 <= i < |Times(log, user)| ==> Times(log, user)[i] <= clock
  {
    if log != [] {
      var init := log[..|log| - 1];
      TimesAreSorted(init, user, log[|log| - 1].at);
    }
  }

  lemma {:induction false} LastAtMeaning(log: seq<Acceptance>, user: int, requestId: string, clock: int, i: nat)
    requires InOrder(log, clock) && i < |log| && log[i].user == user && log[i].requestId == requestId
    ensures LastAt(log, user, requestId).Some? && log[i].at <= LastAt(log, user, requestId).value
  {
    var last := |log| - 1;
    if !(log[last].user == user && log[last].requestId == requestId) {
      LastAtMeaning(log[..last], user, requestId, clock, i);
    }
  }

  /** In every closed minute at most `perMinute` requests of a user were accepted. */
  lemma MinuteBound(log: seq<Acceptance>, clock: int, perMinute: nat, user: int, end: int)
    requires InOrder(log, clock) && RateKept(log, perMinute)
    ensures CountIn(Times(log, user), end - MINUTE, end) <= perMinute
  {
    TimesAreSorted(log, user, clock);
    EveryWindow(Times(log, user), MINUTE, perMinute, end);
  }

  lemma RateSnoc(ts: seq<int>, t: int, perMinute: nat)
    requires RateOf(ts, perMinute) && CountFrom(ts, t - MINUTE) < perMinute
    ensures RateOf(ts + [t], perMinute)
  {
    var longer := ts + [t];
    forall j | 0 <= j < |longer|
      ensures CountFrom(longer[..j + 1], longer[j] - MINUTE) <= perMinute
    {
      if j == |ts| {
        assert longer[..j + 1] == longer && longer[..j] == ts;
      } else {
        assert longer[..j + 1] == ts[..j + 1];
      }
    }
  }

  lemma AcceptKeepsRate(log: seq<Acceptance>, a: Acceptance, perMinute: nat)
    requires RateKept(log, perMinute) && CountFrom(Times(log, a.user), a.at - MINUTE) < perMinute
    ensures RateKept(log + [a], perMinute)
  {
    forall user
      ensures RateOf(Times(log + [a], user), perMinute)
    {
      TimesAfter(log, a, user);
      if user == a.user {
        RateSnoc(Times(log, user), a.at, perMinute);
      }
    }
  }

  lemma AcceptKeepsNoReplay(log: seq<Acceptance>, clock: int, a: Acceptance, replay: int)
    requires InOrder(log, clock) && clock <= a.at && NoReplay(log, replay)
    requires !IsDuplicate(log, a.user, a.requestId, a.at, replay)
    ensures NoReplay(log + [a], replay)
  {
    forall i | 0 <= i < |log| && log[i].user == a.user && log[i].requestId == a.requestId
      ensures a.at - log[i].at > replay
    {
      LastAtMeaning(log, a.user, a.requestId, clock, i);
    }
  }

  // ---- the limiter ----

  function Recent(recent: map<int, seq<int>>, user: int): seq<int> {
    if user in recent then recent[user] else []
  }

  function Seen(seen: map<int, map<string, int>>, user: int): map<string, int> {
    if user in seen then seen[user] else map[]
  }

  /** The queue of a user has every acceptance of the last minute. */
  ghost predicate RecentFollows(recent: map<int, seq<int>>, log: seq<Acceptance>, now: int) {
    forall user :: DropOld(Recent(recent, user), now - MINUTE) == DropOld(Times(log, user), now - MINUTE)
  }

  /** The ids remembered for a user are right, and all those of the replay window are there. */
  predicate SeenOk(seen: map<string, int>, log: seq<Acceptance>, user: int, requestId: string, now: int, replay: int) {
    && (requestId in seen ==> LastAt(log, user, requestId) == Some(seen[requestId]))
    && (IsDuplicate(log, user, requestId, now, replay) ==> requestId in seen)
  }

  ghost predicate SeenFollows(seen: map<int, map<string, int>>, log: seq<Acceptance>, now: int, replay: int) {
    forall user, requestId :: SeenOk(Seen(seen, user), log, user, requestId, now, replay)
  }

  class AiRequestLimiter {
    const perMinute: nat
    const maxPending: nat
    const replayWindow: int
    var inFlightUsers: set<int>
    var recentRequests: map<int, seq<int>>
    var seenIds: map<int, map<string, int>>
    ghost var log: seq<Acceptance>
    ghost var clock: int

    ghost predicate Valid()
      reads this
    {
      && perMinute >= 1 && maxPending >= 1 && replayWindow >= SECOND
      && |inFlightUsers| <= maxPending
      && InOrder(log, clock) && RateKept(log, perMinute) && NoReplay(log, replayWindow)
      && RecentFollows(recentRequests, log, clock) && SeenFollows(seenIds, log, clock, replayWindow)
    }

    constructor (perMinute: int, maxPending: int, replayWindowSeconds: int)
      ensures Valid() && log == [] && inFlightUsers == {}
      ensures this.perMinute == (if perMinute < 1 then 1 else perMinute) && this.maxPending == (if maxPending < 1 then 1 else maxPending)
      ensures replayWindow == (if replayWindowSeconds < 1 then 1 else replayWindowSeconds) * SECOND
    {
      this.perMinute := if perMinute < 1 then 1 else perMinute;
      this.maxPending := if maxPending < 1 then 1 else maxPending;
      replayWindow := (if replayWindowSeconds < 1 then 1 else replayWindowSeconds) * SECOND;
      inFlightUsers, recentRequests, seenIds, log, clock := {}, map[], map[], [], 0;
    }

    /** Answers as the whole history demands; only an acceptance is entered in it and puts the user in flight. */
    method TryAcquire(user: int, requestId: string, now: int) returns (r: Result)
      requires Valid() && clock <= now
      modifies this
      ensures Valid() && clock == now
      ensures r == Answer(old(log), old(inFlightUsers), user, requestId, now, perMinute, maxPending, replayWindow)
      ensures log == if r.Accepted? then old(log) + [Acceptance(user, requestId, now)] else old(log)
      ensures inFlightUsers == if r.Accepted? then old(inFlightUsers) + {user} else old(inFlightUsers)
    {
      Advance(now);
      var duplicate := PruneSeen(user, requestId, now);
      if duplicate {
        return Duplicate;
      }
      if user in inFlightUsers {
        return Busy;
      }
      if |inFlightUsers| >= maxPending {
        return QueueFull;
      }
      var count := PruneRecent(user, now);
      if count >= perMinute {
        return RateLimited;
      }
      Enter(user, requestId, now);
      return Accepted;
    }

    ghost method Advance(now: int)
      requires Valid() && clock <= now
      modifies this`clock
      ensures Valid() && clock == now
    {
      RecentLater(recentRequests, log, clock, now);
      SeenLater(seenIds, log, clock, now, replayWindow);
      clock := now;
    }

    method PruneSeen(user: int, requestId: string, now: int) returns (duplicate: bool)
      requires Valid() && clock == now
      modifies this`seenIds
      ensures Valid() && duplicate == IsDuplicate(log, user, requestId, now, replayWindow)
    {
      var seen, cutoff := Seen(seenIds, user), now - replayWindow;
      var live := map id | id in seen && seen[id] >= cutoff :: seen[id];
      PruneKeepsSeen(seenIds, log, user, live, now, replayWindow);
      seenIds := seenIds[user := live];
      assert SeenOk(Seen(seenIds, user), log, user, requestId, now, replayWindow);
      return requestId in live;
    }

    method PruneRecent(user: int, now: int) returns (count: nat)
      requires Valid() && clock == now
      modifies this`recentRequests
      ensures Valid() && count == CountFrom(Times(log, user), now - MINUTE)
    {
      var kept := DropOld(Recent(recentRequests, user), now - MINUTE);
      PruneKeepsRecent(recentRequests, log, user, kept, now);
      recentRequests := recentRequests[user := kept];
      return |kept|;
    }

    method Enter(user: int, requestId: string, now: int)
      requires Valid() && clock == now && user !in inFlightUsers && |inFlightUsers| < maxPending
      requires !IsDuplicate(log, user, requestId, now, replayWindow)
      requires CountFrom(Times(log, user), now - MINUTE) < perMinute
      modifies this
      ensures Valid() && clock == now
      ensures log == old(log) + [Acceptance(user, requestId, now)] && inFlightUsers == old(inFlightUsers) + {user}
    {
      ghost var a := Acceptance(user, requestId, now);
      AcceptKeepsHistory(log, now, a, perMinute, replayWindow);
      EnterRecent(recentRequests, log, a);
      EnterSeen(seenIds, log, a, replayWindow);
      recentRequests := recentRequests[user := Recent(recentRequests, user) + [now]];
      seenIds := seenIds[user := Seen(seenIds, user)[requestId := now]];
      inFlightUsers := inFlightUsers + {user};
      log := log + [a];
    }

    method Release(user: int)
      requires Valid()
      modifies this`inFlightUsers
      ensures Valid() && inFlightUsers == old(inFlightUsers) - {user}
    {
      inFlightUsers := inFlightUsers - {user};
    }
  }

  lemma RecentLater(recent: map<int, seq<int>>, log: seq<Acceptance>, now: int, later: int)
    requires RecentFollows(recent, log, now) && now <= later
    ensures RecentFollows(recent, log, later)
  {
    forall user
      ensures DropOld(Recent(recent, user), later - MINUTE) == DropOld(Times(log, user), later - MINUTE)
    {
      DropOldTwice(Recent(recent, user), now - MINUTE, later - MINUTE);
      DropOldTwice(Times(log, user), now - MINUTE, later - MINUTE);
    }
  }

  lemma SeenLater(seen: map<int, map<string, int>>, log: seq<Acceptance>, now: int, later: int, replay: int)
    requires SeenFollows(seen, log, now, replay) && now <= later
    ensures SeenFollows(seen, log, later, replay)
  {
    forall user, id
      ensures SeenOk(Seen(seen, user), log, user, id, later, replay)
    {
      assert SeenOk(Seen(seen, user), log, user, id, now, replay);
    }
  }

  lemma PruneKeepsSeen(seen: map<int, map<string, int>>, log: seq<Acceptance>, user: int, live: map<string, int>, now: int, replay: int)
    requires SeenFollows(seen, log, now, replay)
    requires live == map id | id in Seen(seen, user) && Seen(seen, user)[id] >= now - replay :: Seen(seen, user)[id]
    ensures SeenFollows(seen[user := live], log, now, replay)
    ensures forall id :: id in live <==> IsDuplicate(log, user, id, now, replay)
  {
    var seen' := seen[user := live];
    forall u, id
      ensures SeenOk(Seen(seen', u), log, u, id, now, replay)
    {
      assert SeenOk(Seen(seen, u), log, u, id, now, replay);
    }
    forall id
      ensures id in live <==> IsDuplicate(log, user, id, now, replay)
    {
      assert SeenOk(Seen(seen, user), log, user, id, now, replay);
    }
  }

  lemma PruneKeepsRecent(recent: map<int, seq<int>>, log: seq<Acceptance>, user: int, kept: seq<int>, now: int)
    requires RecentFollows(recent, log, now) && InOrder(log, now) && kept == DropOld(Recent(recent, user), now - MINUTE)
    ensures RecentFollows(recent[user := kept], log, now) && |kept| == CountFrom(Times(log, user), now - MINUTE)
  {
    TimesAreSorted(log, user, now);
    DropOldCounts(Times(log, user), now - MINUTE);
    forall u
      ensures DropOld(Recent(recent[user := kept], u), now - MINUTE) == DropOld(Times(log, u), now - MINUTE)
    {
      DropOldTwice(Recent(recent, u), now - MINUTE, now - MINUTE);
    }
  }

  lemma AcceptKeepsHistory(log: seq<Acceptance>, clock: int, a: Acceptance, perMinute: nat, replay: int)
    requires InOrder(log, clock) && clock <= a.at && RateKept(log, perMinute) && NoReplay(log, replay)
    requires CountFrom(Times(log, a.user), a.at - MINUTE) < perMinute && !IsDuplicate(log, a.user, a.requestId, a.at, replay)
    ensures InOrder(log + [a], a.at) && RateKept(log + [a], perMinute) && NoReplay(log + [a], replay)
  {
    AcceptKeepsRate(log, a, perMinute);
    AcceptKeepsNoReplay(log, clock, a, replay);
  }

  lemma TimesAfter(log: seq<Acceptance>, a: Acceptance, user: int)
    ensures Times(log + [a], user) == if a.user == user then Times(log, user) + [a.at] else Times(log, user)
  {
    assert (log + [a])[..|log|] == log;
  }

  lemma EnterRecent(recent: map<int, seq<int>>, log: seq<Acceptance>, a: Acceptance)
    requires RecentFollows(recent, log, a.at)
    ensures RecentFollows(recent[a.user := Recent(recent, a.user) + [a.at]], log + [a], a.at)
  {
    var recent', cutoff := recent[a.user := Recent(recent, a.user) + [a.at]], a.at - MINUTE;
    forall user
      ensures DropOld(Recent(recent', user), cutoff) == DropOld(Times(log + [a], user), cutoff)
    {
      assert DropOld(Recent(recent, user), cutoff) == DropOld(Times(log, user), cutoff);
      EnterTimes(Recent(recent, user), log, a, user, cutoff);
    }
  }

  lemma EnterTimes(times: seq<int>, log: seq<Acceptance>, a: Acceptance, user: int, cutoff: int)
    requires DropOld(times, cutoff) == DropOld(Times(log, user), cutoff) && cutoff <= a.at
    ensures DropOld(if user == a.user then times + [a.at] else times, cutoff) == DropOld(Times(log + [a], user), cutoff)
  {
    TimesAfter(log, a, user);
    if user == a.user {
      DropOldAppend(times, a.at, cutoff);
      DropOldAppend(Times(log, user), a.at, cutoff);
    }
  }

  lemma EnterSeen(seen: map<int, map<string, int>>, log: seq<Acceptance>, a: Acceptance, replay: int)
    requires SeenFollows(seen, log, a.at, replay)
    ensures SeenFollows(seen[a.user := Seen(seen, a.user)[a.requestId := a.at]], log + [a], a.at, replay)
  {
    var seen' := seen[a.user := Seen(seen, a.user)[a.requestId := a.at]];
    assert (log + [a])[..|log|] == log;
    forall user, id
      ensures SeenOk(Seen(seen', user), log + [a], user, id, a.at, replay)
    {
      assert SeenOk(Seen(seen, user), log, user, id, a.at, replay);
    }
  }

  // ---- what the answer means ----

  /** The acceptances of a user from an instant on. */
  function AcceptedFrom(log: seq<Acceptance>, user: int, from: int): set<int> {
    set i | 0 <= i < |log| && log[i].user == user && from <= log[i].at
  }

  lemma {:induction false} CountIsSize(log: seq<Acceptance>, user: int, from: int)
    ensures CountFrom(Times(log, user), from) == |AcceptedFrom(log, user, from)|
  {
    if log != [] {
      var init, last := log[..|log| - 1], |log| - 1;
      CountIsSize(init, user, from);
      if log[last].user == user {
        CountSnoc(Times(init, user), log[last].at, from);
      } else {
        assert Times(log, user) == Times(init, user);
      }
      var before := AcceptedFrom(init, user, from);
      assert last !in before;
      if log[last].user == user && from <= log[last].at {
        assert AcceptedFrom(log, user, from) == before + {last};
      } else {
        assert AcceptedFrom(log, user, from) == before;
      }
    }
  }

  lemma CountSnoc(ts: seq<int>, t: int, from: int)
    ensures CountFrom(ts + [t], from) == CountFrom(ts, from) + if from <= t then 1 else 0
  {
    assert (ts + [t])[..|ts|] == ts;
  }

  /** The same request of the same user was accepted not longer ago than the replay window. */
  ghost predicate Repeated(log: seq<Acceptance>, user: int, requestId: string, now: int, replay: int) {
    exists i :: 0 <= i < |log| && log[i].user == user && log[i].requestId == requestId && now - replay <= log[i].at
  }

  lemma {:induction false} DuplicateIsRepeated(log: seq<Acceptance>, clock: int, user: int, requestId: string, now: int, replay: int)
    requires InOrder(log, clock)
    ensures IsDuplicate(log, user, requestId, now, replay) <==> Repeated(log, user, requestId, now, replay)
  {
    if log != [] {
      var init, last := log[..|log| - 1], log[|log| - 1];
      if last.user == user && last.requestId == requestId {
        assert log[|log| - 1] == last;
      } else {
        DuplicateIsRepeated(init, clock, user, requestId, now, replay);
        if Repeated(init, user, requestId, now, replay) {
          var i :| 0 <= i < |init| && init[i].user == user && init[i].requestId == requestId && now - replay <= init[i].at;
          assert log[i] == init[i];
        }
      }
    }
  }

  /**
   Who is told what, in the order of the checks: a repetition, then a user in flight, a full queue,
   a user whose last minute is used up; everybody else is accepted.
   */
  lemma AnswerMeaning(log: seq<Acceptance>, clock: int, inFlight: set<int>, user: int, requestId: string, now: int,
                      perMinute: nat, maxPending: nat, replay: int)
    requires InOrder(log, clock)
    ensures var r, repeated := Answer(log, inFlight, user, requestId, now, perMinute, maxPending, replay), Repeated(log, user, requestId, now, replay);
            var used := |AcceptedFrom(log, user, now - 60_000_000_000)|;
            && (r.Duplicate? <==> repeated)
            && (r.Busy? <==> !repeated && user in inFlight)
            && (r.QueueFull? <==> !repeated && user !in inFlight && |inFlight| >= maxPending)
            && (r.RateLimited? <==> !repeated && user !in inFlight && |inFlight| < maxPending && used >= perMinute)
            && (r.Accepted? <==> !repeated && user !in inFlight && |inFlight| < maxPending && used < perMinute)
  {
    DuplicateIsRepeated(log, clock, user, requestId, now, replay);
    CountIsSize(log, user, now - MINUTE);
  }
}
