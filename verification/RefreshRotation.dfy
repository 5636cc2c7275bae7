/**
 Refresh tokens: every rotation moves the old hash to the history and stores a fresh pair; a
 short-lived cache answers a repeated request with the pair it was given; a hash from the
 history that is presented again revokes its whole family.

 Only hashes are stored. Random tokens are parameters, assumed fresh where a run is considered.
 */
module RefreshRotation {
  import opened WireFormat

  const CACHE_SECONDS: int := 120
  const CACHE_CAPACITY: nat := 1024

  datatype Pair = Pair(sessionId: string, familyId: string, accessToken: string, refreshToken: string,
                       accessExpiresAt: int, refreshExpiresAt: int)
  datatype Session = Session(familyId: string, userId: int, deviceId: string, accessHash: string, accessExpiresAt: int,
                             refreshHash: string, refreshExpiresAt: int, generation: int, revoked: bool)
  datatype Used = Used(familyId: string, generation: int)
  datatype Cached = Cached(refreshHash: string, deviceId: string, pair: Pair, expiresAt: int)

  /** A refresh token, by its hash, and the pair it was exchanged for. */
  datatype Exchange = Exchange(oldHash: string, pair: Pair)

  /** Sessions by id, history by token hash, cached results by request id, and the log of exchanges. */
  datatype State = State(sessions: map<string, Session>, history: map<string, Used>, results: map<string, Cached>,
                         exchanges: seq<Exchange>)

  datatype Request = Request(presented: string, deviceId: string, requestId: string,
                             accessToken: string, refreshToken: string, now: int)

  /**
   What else happens: a revocation between the look-up and the update, a failing exchange, a failing
   revocation of the family (whose outcome nobody looks at), the entry evicted.
   */
  datatype Chance = Chance(revokedMeanwhile: bool, updateFails: bool, punishmentFails: bool, victim: string)

  // ---- look-ups ----

  /** The session that has this refresh hash now, if any. */
  ghost predicate Holds(sessions: map<string, Session>, hash: string, found: Option<string>) {
    if found.Some? then found.value in sessions && sessions[found.value].refreshHash == hash
    else forall id :: id in sessions ==> sessions[id].refreshHash != hash
  }

  function Live(results: map<string, Cached>, now: int): map<string, Cached> {
    map r | r in results && results[r].expiresAt > now :: results[r]
  }

  function RevokeFamily(sessions: map<string, Session>, family: string): map<string, Session> {
    map id | id in sessions :: if sessions[id].familyId == family then sessions[id].(revoked := true) else sessions[id]
  }

  function RevokeUser(sessions: map<string, Session>, user: int): map<string, Session> {
    map id | id in sessions :: if sessions[id].userId == user then sessions[id].(revoked := true) else sessions[id]
  }

  function RevokeOne(sessions: map<string, Session>, sessionId: string): map<string, Session> {
    if sessionId in sessions then sessions[sessionId := sessions[sessionId].(revoked := true)] else sessions
  }

  /** A revocation marks exactly the sessions it names and changes nothing else of any. */
  lemma RevocationMarks(sessions: map<string, Session>, family: string, user: int, sessionId: string, k: string)
    requires k in sessions
    ensures var s, f, u, o := sessions[k], RevokeFamily(sessions, family), RevokeUser(sessions, user), RevokeOne(sessions, sessionId);
            && f.Keys == u.Keys == o.Keys == sessions.Keys
            && f[k] == s.(revoked := s.revoked || s.familyId == family)
            && u[k] == s.(revoked := s.revoked || s.userId == user)
            && o[k] == s.(revoked := s.revoked || k == sessionId)
  {
  }

  // ---- the operations ----

  /** The unique indexes on the hash columns. */
  ghost predicate HashTaken(sessions: map<string, Session>, accessHash: string, refreshHash: string) {
    exists id :: id in sessions && (sessions[id].accessHash == accessHash || sessions[id].refreshHash == refreshHash)
  }

  function NewSession(family: string, user: int, device: string, access: string, refresh: string, now: int): Session {
    Session(family, user, device, access, now + 5 * 60, refresh, now + 2 * 24 * 60 * 60, 1, false)
  }

  function NewPair(id: string, was: Session, r: Request): Pair {
    Pair(id, was.familyId, r.accessToken, r.refreshToken, r.now + 15 * 60, r.now + 30 * 24 * 60 * 60)
  }

  function Rotated(was: Session, p: Pair, hash: string -> string): Session {
    was.(accessHash := hash(p.accessToken), accessExpiresAt := p.accessExpiresAt,
         refreshHash := hash(p.refreshToken), refreshExpiresAt := p.refreshExpiresAt, generation := was.generation + 1)
  }

  /** A presented hash that was already exchanged gives its family away. */
  function Punished(sessions: map<string, Session>, history: map<string, Used>, oldHash: string, fails: bool): map<string, Session> {
    if !fails && oldHash in history && history[oldHash].familyId != "" then RevokeFamily(sessions, history[oldHash].familyId) else sessions
  }

  function WithResult(results: map<string, Cached>, requestId: string, entry: Cached, victim: string): map<string, Cached> {
    (if |results| >= CACHE_CAPACITY then results - {victim} else results)[requestId := entry]
  }

  predicate Usable(was: Session, r: Request) {
    !was.revoked && was.refreshExpiresAt > r.now && was.deviceId == r.deviceId
  }

  ghost predicate UpdateWorks(s: State, hash: string -> string, r: Request, id: string, c: Chance)
    requires id in s.sessions
  {
    !s.sessions[id].revoked && !c.updateFails && hash(r.presented) !in s.history &&
    !HashTaken(s.sessions, hash(r.accessToken), hash(r.refreshToken))
  }

  /** The exchange of the token of session `id` for a fresh pair. */
  function Exchanged(s: State, hash: string -> string, r: Request, id: string, victim: string): State
    requires id in s.sessions
  {
    var was, oldHash := s.sessions[id], hash(r.presented);
    var p := NewPair(id, was, r);
    State(s.sessions[id := Rotated(was, p, hash)],
          s.history[oldHash := Used(was.familyId, was.generation)],
          WithResult(s.results, r.requestId, Cached(oldHash, r.deviceId, p, r.now + CACHE_SECONDS), victim),
          s.exchanges + [Exchange(oldHash, p)])
  }

  /** Session `id` may have been revoked between its reading and its update. */
  function Meanwhile(sessions: map<string, Session>, id: string, c: Chance): map<string, Session> {
    if c.revokedMeanwhile then RevokeOne(sessions, id) else sessions
  }

  /** The end of a rotation, once the session `id` of the presented token was found usable. */
  ghost function Renewal(t: State, hash: string -> string, r: Request, id: string, c: Chance): (State, Option<Pair>)
    requires id in t.sessions
  {
    if UpdateWorks(t, hash, r, id, c) then
      (Exchanged(t, hash, r, id, c.victim), Some(NewPair(id, t.sessions[id], r)))
    else
      (t.(sessions := Punished(t.sessions, t.history, hash(r.presented), c.punishmentFails)), None)
  }

  /** A rotation whose answer is not cached. */
  ghost function Uncached(t: State, hash: string -> string, r: Request, found: Option<string>, c: Chance): (State, Option<Pair>)
    requires found.Some? ==> found.value in t.sessions
  {
    if found.None? then (t.(sessions := Punished(t.sessions, t.history, hash(r.presented), c.punishmentFails)), None)
    else if !Usable(t.sessions[found.value], r) then (t, None)
    else Renewal(t.(sessions := Meanwhile(t.sessions, found.value, c)), hash, r, found.value, c)
  }

  /** A rotation request, given the session found for the presented token. */
  ghost function Rotation(s: State, hash: string -> string, r: Request, found: Option<string>, c: Chance): (State, Option<Pair>)
    requires found.Some? ==> found.value in s.sessions
  {
    var t := s.(results := Live(s.results, r.now));
    if r.presented == "" || r.deviceId == "" || r.requestId == "" then (s, None)
    else if r.requestId in t.results then
      var e := t.results[r.requestId];
      (t, if e.refreshHash == hash(r.presented) && e.deviceId == r.deviceId then Some(e.pair) else None)
    else Uncached(t, hash, r, found, c)
  }

  function Issued(s: State, id: string, family: string, user: int, device: string, accessHash: string, refreshHash: string, now: int): State {
    s.(sessions := s.sessions[id := NewSession(family, user, device, accessHash, refreshHash, now)])
  }

  class TokenService {
    const hash: string -> string
    var sessions: map<string, Session>
    var history: map<string, Used>
    var refreshResults: map<string, Cached>
    ghost var exchanges: seq<Exchange>

    ghost function View(): State
      reads this
    {
      State(sessions, history, refreshResults, exchanges)
    }

    constructor (hash: string -> string)
      ensures this.hash == hash && View() == State(map[], map[], map[], [])
    {
      this.hash := hash;
      sessions, history, refreshResults, exchanges := map[], map[], map[], [];
    }

    method Issue(id: string, family: string, user: int, device: string, access: string, refresh: string, now: int, fails: bool)
      returns (pair: Option<Pair>)
      modifies this`sessions
      ensures pair.Some? <==> !fails && id !in old(sessions) && !HashTaken(old(sessions), hash(access), hash(refresh))
      ensures pair.Some? ==> pair.value == Pair(id, family, access, refresh, now + 300, now + 172800)
      ensures View() == if pair.Some? then Issued(old(View()), id, family, user, device, hash(access), hash(refresh), now) else old(View())
      ensures pair.Some? ==>
                id in sessions && sessions[id] == Session(family, user, device, hash(access), now + 300, hash(refresh), now + 172800, 1, false)
    {
      var accessHash, refreshHash := hash(access), hash(refresh);
      if fails || id in sessions ||
         exists other :: other in sessions && (sessions[other].accessHash == accessHash || sessions[other].refreshHash == refreshHash)
      {
        return None;
      }
      sessions := sessions[id := Session(family, user, device, accessHash, now + 5 * 60, refreshHash, now + 2 * 24 * 60 * 60, 1, false)];
      return Some(Pair(id, family, access, refresh, now + 5 * 60, now + 2 * 24 * 60 * 60));
    }

    method FindByRefreshHash(refreshHash: string) returns (found: Option<string>)
      ensures Holds(sessions, refreshHash, found)
    {
      if id :| id in sessions && sessions[id].refreshHash == refreshHash {
        return Some(id);
      }
      return None;
    }

    /** The whole request, under the service's lock. */
    method RotateRefresh(r: Request, c: Chance) returns (pair: Option<Pair>, ghost found: Option<string>)
      modifies this
      ensures Holds(old(sessions), hash(r.presented), found)
      ensures (View(), pair) == Rotation(old(View()), hash, r, found, c)
    {
      var found' := FindByRefreshHash(hash(r.presented));
      found := found';
      if r.presented == "" || r.deviceId == "" || r.requestId == "" {
        return None, found;
      }
      var oldHash, now := hash(r.presented), r.now;
      refreshResults := map k | k in refreshResults && refreshResults[k].expiresAt > now :: refreshResults[k];
      if r.requestId in refreshResults {
        var e := refreshResults[r.requestId];
        if e.refreshHash != oldHash || e.deviceId != r.deviceId {
          return None, found;
        }
        return Some(e.pair), found;
      }
      if found'.None? {
        RevokeIfUsed(oldHash, c.punishmentFails);
        return None, found;
      }
      var was := sessions[found'.value];
      if was.revoked || was.refreshExpiresAt <= now || was.deviceId != r.deviceId {
        return None, found;
      }
      if c.revokedMeanwhile {
        sessions := sessions[found'.value := was.(revoked := true)];
      }
      pair := Renew(r, found'.value, was, c);
    }

    /** The end of the request, once the session of the presented token was found usable. */
    method Renew(r: Request, id: string, was: Session, c: Chance) returns (pair: Option<Pair>)
      requires id in sessions && was.refreshHash == hash(r.presented) && sessions[id] == was.(revoked := sessions[id].revoked)
      modifies this
      ensures (View(), pair) == Renewal(old(View()), hash, r, id, c)
    {
      var oldHash := hash(r.presented);
      var p := Pair(id, was.familyId, r.accessToken, r.refreshToken, r.now + 15 * 60, r.now + 30 * 24 * 60 * 60);
      var ok := RotateRefreshToken(id, was, oldHash, p, c.updateFails);
      ghost var s := old(View());
      assert p == NewPair(id, s.sessions[id], r) && s.sessions[id].refreshHash == oldHash;
      assert ok <==> UpdateWorks(s, hash, r, id, c);
      if !ok {
        RevokeIfUsed(oldHash, c.punishmentFails);
        assert View() == s.(sessions := Punished(s.sessions, s.history, oldHash, c.punishmentFails));
        return None;
      }
      assert sessions == s.sessions[id := Rotated(s.sessions[id], p, hash)];
      Remember(r.requestId, Cached(oldHash, r.deviceId, p, r.now + CACHE_SECONDS), c.victim);
      assert View() == Exchanged(s, hash, r, id, c.victim);
      return Some(p);
    }

    method Remember(requestId: string, entry: Cached, victim: string)
      modifies this`refreshResults
      ensures refreshResults == WithResult(old(refreshResults), requestId, entry, victim)
    {
      if |refreshResults| >= CACHE_CAPACITY {
        refreshResults := refreshResults - {victim};
      }
      refreshResults := refreshResults[requestId := entry];
    }

    /** The database transaction: history row and conditional update, or neither. */
    method RotateRefreshToken(id: string, was: Session, oldHash: string, p: Pair, fails: bool) returns (ok: bool)
      requires id in sessions
      modifies this`sessions, this`history, this`exchanges
      ensures ok <==> !fails && oldHash !in old(history) && old(sessions)[id].refreshHash == oldHash &&
                      old(sessions)[id].generation == was.generation && !old(sessions)[id].revoked &&
                      !HashTaken(old(sessions), hash(p.accessToken), hash(p.refreshToken))
      ensures ok ==> && sessions == old(sessions)[id := Rotated(old(sessions)[id], p, hash)]
                     && history == old(history)[oldHash := Used(was.familyId, was.generation)]
                     && exchanges == old(exchanges) + [Exchange(oldHash, p)]
      ensures !ok ==> View() == old(View())
    {
      var accessHash, refreshHash := hash(p.accessToken), hash(p.refreshToken);
      if fails || oldHash in history {
        return false;
      }
      var now := sessions[id];
      if now.refreshHash != oldHash || now.generation != was.generation || now.revoked ||
         exists other :: other in sessions && (sessions[other].accessHash == accessHash || sessions[other].refreshHash == refreshHash)
      {
        return false;
      }
      history := history[oldHash := Used(was.familyId, was.generation)];
      sessions := sessions[id := now.(accessHash := accessHash, accessExpiresAt := p.accessExpiresAt,
                                      refreshHash := refreshHash, refreshExpiresAt := p.refreshExpiresAt,
                                      generation := now.generation + 1)];
      exchanges := exchanges + [Exchange(oldHash, p)];
      return true;
    }

    method RevokeIfUsed(oldHash: string, fails: bool)
      modifies this`sessions
      ensures sessions == Punished(old(sessions), history, oldHash, fails)
    {
      if !fails && oldHash in history && history[oldHash].familyId != "" {
        sessions := RevokeFamily(sessions, history[oldHash].familyId);
      }
    }

    method RevokeSession(id: string, fails: bool)
      modifies this`sessions
      ensures sessions == if fails || id == "" then old(sessions) else RevokeOne(old(sessions), id)
    {
      if !fails && id != "" && id in sessions {
        sessions := sessions[id := sessions[id].(revoked := true)];
      }
    }

    method RevokeAllForUser(user: int, fails: bool)
      modifies this`sessions
      ensures sessions == if !fails && user > 0 then RevokeUser(old(sessions), user) else old(sessions)
    {
      if !fails && user > 0 {
        sessions := RevokeUser(sessions, user);
      }
    }
  }

  // ---- runs ----

  datatype Action =
    | IssueTokens(id: string, family: string, user: int, device: string, access: string, refresh: string, now: int)
    | Rotate(request: Request, found: Option<string>, chance: Chance)
    | Revoke(id: string)
    | RevokeAll(user: int)

  /** Hashes that were never seen, as those of fresh random tokens are. */
  ghost predicate FreshHash(s: State, h: string) {
    h !in s.history && forall id :: id in s.sessions ==> s.sessions[id].refreshHash != h && s.sessions[id].accessHash != h
  }

  ghost predicate FreshFamily(s: State, family: string) {
    (forall id :: id in s.sessions ==> s.sessions[id].familyId != family) &&
    (forall h :: h in s.history ==> s.history[h].familyId != family)
  }

  ghost predicate Enabled(s: State, hash: string -> string, a: Action) {
    match a
    case IssueTokens(id, family, _, _, access, refresh, _) =>
      id !in s.sessions && FreshFamily(s, family) && FreshHash(s, hash(access)) && FreshHash(s, hash(refresh))
    case Rotate(r, found, _) =>
      Holds(s.sessions, hash(r.presented), found) && FreshHash(s, hash(r.accessToken)) && FreshHash(s, hash(r.refreshToken)) &&
      hash(r.refreshToken) != hash(r.presented)
    case _ => true
  }

  ghost function Next(s: State, hash: string -> string, a: Action): State
    requires Enabled(s, hash, a)
  {
    match a
    case IssueTokens(id, family, user, device, access, refresh, now) =>
      Issued(s, id, family, user, device, hash(access), hash(refresh), now)
    case Rotate(r, found, c) => Rotation(s, hash, r, found, c).0
    case Revoke(id) => s.(sessions := RevokeOne(s.sessions, id))
    case RevokeAll(user) => s.(sessions := RevokeUser(s.sessions, user))
  }

  ghost predicate Run(s: State, hash: string -> string, actions: seq<Action>, end: State)
    decreases |actions|
  {
    if actions == [] then end == s
    else Enabled(s, hash, actions[0]) && Run(Next(s, hash, actions[0]), hash, actions[1..], end)
  }

  // ---- the invariant ----

  function FamilyRows(history: map<string, Used>, family: string): set<string> {
    set h | h in history && history[h].familyId == family
  }

  ghost predicate SessionsOk(s: State) {
    && (forall a, b :: a in s.sessions && b in s.sessions && a != b ==>
          s.sessions[a].refreshHash != s.sessions[b].refreshHash && s.sessions[a].familyId != s.sessions[b].familyId)
    && (forall a :: a in s.sessions ==> s.sessions[a].refreshHash !in s.history)
    && (forall a :: a in s.sessions ==> s.sessions[a].generation == 1 + |FamilyRows(s.history, s.sessions[a].familyId)|)
  }

  ghost predicate ExchangesOk(s: State) {
    && (forall i :: 0 <= i < |s.exchanges| ==> s.exchanges[i].oldHash in s.history)
    && (forall i, j :: 0 <= i < j < |s.exchanges| ==> s.exchanges[i].oldHash != s.exchanges[j].oldHash)
  }

  ghost predicate ResultsOk(s: State) {
    forall r :: r in s.results ==> Exchange(s.results[r].refreshHash, s.results[r].pair) in s.exchanges
  }

  ghost predicate Inv(s: State) {
    SessionsOk(s) && ExchangesOk(s) && ResultsOk(s)
  }

  /** Revoking changes nothing the invariant speaks of. */
  ghost predicate SameButRevoked(a: map<string, Session>, b: map<string, Session>) {
    a.Keys == b.Keys && forall id :: id in a ==> b[id] == a[id].(revoked := b[id].revoked) && (a[id].revoked ==> b[id].revoked)
  }

  lemma RevocationKeepsInv(s: State, sessions: map<string, Session>)
    requires Inv(s) && SameButRevoked(s.sessions, sessions)
    ensures Inv(s.(sessions := sessions))
  {
    forall id | id in sessions
      ensures sessions[id].refreshHash == s.sessions[id].refreshHash && sessions[id].familyId == s.sessions[id].familyId
      ensures sessions[id].generation == s.sessions[id].generation
    {
      assert id in s.sessions;
    }
  }

  lemma HistoryGrows(history: map<string, Used>, h: string, used: Used, family: string)
    requires h !in history
    ensures |FamilyRows(history[h := used], family)| == |FamilyRows(history, family)| + if used.familyId == family then 1 else 0
  {
    if used.familyId == family {
      assert FamilyRows(history[h := used], family) == FamilyRows(history, family) + {h};
    } else {
      assert FamilyRows(history[h := used], family) == FamilyRows(history, family);
    }
  }

  lemma ExchangeKeepsSessions(s: State, hash: string -> string, r: Request, id: string, victim: string)
    requires Inv(s) && id in s.sessions && s.sessions[id].refreshHash == hash(r.presented)
    requires FreshHash(s, hash(r.refreshToken)) && hash(r.refreshToken) != hash(r.presented)
    ensures SessionsOk(Exchanged(s, hash, r, id, victim))
  {
    var s', oldHash, family := Exchanged(s, hash, r, id, victim), hash(r.presented), s.sessions[id].familyId;
    forall a | a in s'.sessions
      ensures s'.sessions[a].refreshHash !in s'.history
      ensures s'.sessions[a].generation == 1 + |FamilyRows(s'.history, s'.sessions[a].familyId)|
    {
      HistoryGrows(s.history, oldHash, Used(family, s.sessions[id].generation), s.sessions[a].familyId);
    }
  }

  lemma ExchangeKeepsInv(s: State, hash: string -> string, r: Request, id: string, victim: string)
    requires Inv(s) && id in s.sessions && s.sessions[id].refreshHash == hash(r.presented)
    requires FreshHash(s, hash(r.refreshToken)) && hash(r.refreshToken) != hash(r.presented)
    ensures Inv(Exchanged(s, hash, r, id, victim))
  {
    ExchangeKeepsSessions(s, hash, r, id, victim);
    var s' := Exchanged(s, hash, r, id, victim);
    assert s'.exchanges[|s.exchanges|] in s'.exchanges;
    forall k | k in s'.results
      ensures Exchange(s'.results[k].refreshHash, s'.results[k].pair) in s'.exchanges
    {
      assert k == r.requestId || (k in s.results && s'.results[k] == s.results[k]);
    }
  }

  lemma LiveKeepsInv(s: State, now: int)
    requires Inv(s)
    ensures Inv(s.(results := Live(s.results, now)))
  {
  }

  lemma RotateKeepsInv(s: State, hash: string -> string, r: Request, found: Option<string>, c: Chance)
    requires Inv(s) && Enabled(s, hash, Rotate(r, found, c))
    ensures Inv(Rotation(s, hash, r, found, c).0)
  {
    var t := s.(results := Live(s.results, r.now));
    LiveKeepsInv(s, r.now);
    UncachedKeepsInv(t, hash, r, found, c);
  }

  lemma UncachedKeepsInv(t: State, hash: string -> string, r: Request, found: Option<string>, c: Chance)
    requires Inv(t) && (found.Some? ==> found.value in t.sessions && t.sessions[found.value].refreshHash == hash(r.presented))
    requires FreshHash(t, hash(r.refreshToken)) && hash(r.refreshToken) != hash(r.presented)
    ensures Inv(Uncached(t, hash, r, found, c).0)
  {
    if found.Some? {
      MeanwhileKeepsInv(t, found.value, c, hash(r.refreshToken));
      RenewalKeepsInv(t.(sessions := Meanwhile(t.sessions, found.value, c)), hash, r, found.value, c);
    } else {
      RefusalKeepsInv(t, hash(r.presented), c.punishmentFails);
    }
  }

  lemma MeanwhileKeepsInv(t: State, id: string, c: Chance, h: string)
    requires Inv(t) && FreshHash(t, h)
    ensures Inv(t.(sessions := Meanwhile(t.sessions, id, c))) && FreshHash(t.(sessions := Meanwhile(t.sessions, id, c)), h)
  {
    RevocationKeepsInv(t, Meanwhile(t.sessions, id, c));
  }

  lemma RenewalKeepsInv(t: State, hash: string -> string, r: Request, id: string, c: Chance)
    requires Inv(t) && id in t.sessions && t.sessions[id].refreshHash == hash(r.presented)
    requires FreshHash(t, hash(r.refreshToken)) && hash(r.refreshToken) != hash(r.presented)
    ensures Inv(Renewal(t, hash, r, id, c).0)
  {
    if UpdateWorks(t, hash, r, id, c) {
      ExchangeKeepsInv(t, hash, r, id, c.victim);
    } else {
      RefusalKeepsInv(t, hash(r.presented), c.punishmentFails);
    }
  }

  lemma RefusalKeepsInv(s: State, h: string, fails: bool)
    requires Inv(s)
    ensures Inv(s.(sessions := Punished(s.sessions, s.history, h, fails)))
  {
    RevocationKeepsInv(s, Punished(s.sessions, s.history, h, fails));
  }

  lemma IssueKeepsInv(s: State, hash: string -> string, a: Action)
    requires Inv(s) && Enabled(s, hash, a) && a.IssueTokens?
    ensures Inv(Next(s, hash, a))
  {
    assert FamilyRows(s.history, a.family) == {};
  }

  lemma ExchangesGrow(s: State, hash: string -> string, a: Action)
    requires Enabled(s, hash, a)
    ensures s.exchanges <= Next(s, hash, a).exchanges
  {
  }

  lemma StepKeepsInv(s: State, hash: string -> string, a: Action)
    requires Inv(s) && Enabled(s, hash, a)
    ensures Inv(Next(s, hash, a))
  {
    match a
    case IssueTokens(_, _, _, _, _, _, _) => IssueKeepsInv(s, hash, a);
    case Rotate(r, found, c) => RotateKeepsInv(s, hash, r, found, c);
    case Revoke(id) => RevocationKeepsInv(s, RevokeOne(s.sessions, id));
    case RevokeAll(user) => RevocationKeepsInv(s, RevokeUser(s.sessions, user));
  }

  /** Hashes in the history are never current, and a session's generation counts its family's history. */
  lemma {:induction false} RunKeepsInv(s: State, hash: string -> string, actions: seq<Action>, end: State)
    requires Inv(s) && Run(s, hash, actions, end)
    ensures Inv(end) && s.exchanges <= end.exchanges
    decreases |actions|
  {
    if actions != [] {
      StepKeepsInv(s, hash, actions[0]);
      ExchangesGrow(s, hash, actions[0]);
      RunKeepsInv(Next(s, hash, actions[0]), hash, actions[1..], end);
    }
  }

  /** The request was answered with `pair`, and `s'` is the state after it. */
  ghost predicate Answered(s: State, hash: string -> string, r: Request, found: Option<string>, c: Chance, s': State, pair: Pair) {
    Enabled(s, hash, Rotate(r, found, c)) && Rotation(s, hash, r, found, c) == (s', Some(pair))
  }

  lemma AnswerIsAnExchange(s: State, hash: string -> string, r: Request, found: Option<string>, c: Chance, s': State, pair: Pair)
    requires Inv(s) && Answered(s, hash, r, found, c, s', pair)
    ensures Inv(s') && Exchange(hash(r.presented), pair) in s'.exchanges
  {
    StepKeepsInv(s, hash, Rotate(r, found, c));
    if s'.exchanges != s.exchanges {
      assert s'.exchanges[|s.exchanges|] in s'.exchanges;
    }
  }

  /**
   In every run, all successful answers to one refresh token, first or repeated, carry the same
   pair.
   */
  lemma ExchangedForOnePair(s: State, hash: string -> string, r: Request, found: Option<string>, c: Chance, s': State, pair: Pair,
                            actions: seq<Action>, t: State, q: Request, found': Option<string>, c': Chance, t': State, pair': Pair)
    requires Inv(s) && Answered(s, hash, r, found, c, s', pair)
    requires Run(s', hash, actions, t)
    requires Answered(t, hash, q, found', c', t', pair') && hash(q.presented) == hash(r.presented)
    ensures pair' == pair
  {
    AnswerIsAnExchange(s, hash, r, found, c, s', pair);
    RunKeepsInv(s', hash, actions, t);
    ExchangesGrow(t, hash, Rotate(q, found', c'));
    AnswerIsAnExchange(t, hash, q, found', c', t', pair');
  }

  /**
   A used token presented again, when its answer is no longer cached, is refused, and revokes every
   session of its family if and only if the statement that revokes them is carried out.
   */
  lemma ReuseRevokesFamily(s: State, hash: string -> string, r: Request, found: Option<string>, c: Chance, id: string)
    requires Inv(s) && Enabled(s, hash, Rotate(r, found, c)) && r.presented != "" && r.deviceId != "" && r.requestId != ""
    requires hash(r.presented) in s.history && r.requestId !in Live(s.results, r.now)
    requires id in s.sessions && s.sessions[id].familyId == s.history[hash(r.presented)].familyId != ""
    ensures var (s', pair) := Rotation(s, hash, r, found, c);
            pair == None && id in s'.sessions && (s'.sessions[id].revoked <==> s.sessions[id].revoked || !c.punishmentFails)
  {
  }

  ghost predicate IsRevoked(s: State, id: string) {
    id in s.sessions && s.sessions[id].revoked
  }

  lemma StepKeepsRevoked(s: State, hash: string -> string, a: Action, id: string)
    requires Enabled(s, hash, a) && IsRevoked(s, id)
    ensures IsRevoked(Next(s, hash, a), id)
  {
  }

  /** Revocation is final. */
  lemma {:induction false} RevokedForever(s: State, hash: string -> string, actions: seq<Action>, end: State, id: string)
    requires IsRevoked(s, id) && Run(s, hash, actions, end)
    ensures IsRevoked(end, id)
    decreases |actions|
  {
    if actions != [] {
      StepKeepsRevoked(s, hash, actions[0], id);
      RevokedForever(Next(s, hash, actions[0]), hash, actions[1..], end, id);
    }
  }

  // ---- which requests are answered ----

  /** The request was made before, and its answer is still kept. */
  predicate Kept(s: State, r: Request) {
    r.requestId in s.results && s.results[r.requestId].expiresAt > r.now
  }

  /** A session that may exchange its refresh token now, from this device. */
  predicate Exchangeable(was: Session, r: Request, hash: string -> string) {
    !was.revoked && was.deviceId == r.deviceId && r.now < was.refreshExpiresAt && was.refreshHash == hash(r.presented)
  }

  /**
   A request whose answer is not kept is answered if and only if it is complete, some session holds
   the presented token, is not revoked then or meanwhile, has not expired and is that of the same
   device, and the exchange is not refused by the database.
   */
  lemma AnsweredIffExchangeable(s: State, hash: string -> string, r: Request, found: Option<string>, c: Chance)
    requires Inv(s) && Enabled(s, hash, Rotate(r, found, c)) && !Kept(s, r)
    ensures Rotation(s, hash, r, found, c).1.Some? <==>
              r.presented != "" && r.deviceId != "" && r.requestId != "" && !c.revokedMeanwhile && !c.updateFails &&
              exists id :: id in s.sessions && Exchangeable(s.sessions[id], r, hash)
  {
    if found.Some? {
      forall id | id in s.sessions && Exchangeable(s.sessions[id], r, hash)
        ensures id == found.value
      {
      }
    }
  }

  /** An answer that is kept is given again, exactly to the token and the device it was first given to. */
  lemma KeptAnswerIsRepeated(s: State, hash: string -> string, r: Request, found: Option<string>, c: Chance)
    requires Enabled(s, hash, Rotate(r, found, c)) && Kept(s, r) && r.presented != "" && r.deviceId != "" && r.requestId != ""
    ensures var (s', pair) := Rotation(s, hash, r, found, c);
            var e := s.results[r.requestId];
            && pair == (if e.refreshHash == hash(r.presented) && e.deviceId == r.deviceId then Some(e.pair) else None)
            && s'.sessions == s.sessions && s'.history == s.history && s'.exchanges == s.exchanges
  {
  }

  /** What an answered request has written of its session, the history and the answers that are kept. */
  ghost predicate Wrote(s: State, s': State, hash: string -> string, r: Request, id: string, pair: Pair)
    requires id in s.sessions
  {
    var was := s.sessions[id];
    && pair == Pair(id, was.familyId, r.accessToken, r.refreshToken, r.now + 900, r.now + 2592000)
    && s'.sessions == s.sessions[id := Session(was.familyId, was.userId, was.deviceId, hash(r.accessToken), r.now + 900,
                                               hash(r.refreshToken), r.now + 2592000, was.generation + 1, was.revoked)]
    && s'.history == s.history[hash(r.presented) := Used(was.familyId, was.generation)]
    && r.requestId in s'.results && s'.results[r.requestId] == Cached(hash(r.presented), r.deviceId, pair, r.now + 120)
  }

  lemma RenewalWrites(t: State, hash: string -> string, r: Request, id: string, c: Chance, pair: Pair)
    requires id in t.sessions && Renewal(t, hash, r, id, c).1 == Some(pair)
    ensures !t.sessions[id].revoked && Wrote(t, Renewal(t, hash, r, id, c).0, hash, r, id, pair)
  {
  }

  /** What an exchange makes of its session, field by field, and of all others: nothing. */
  lemma ExchangeLeaves(s: State, hash: string -> string, r: Request, found: Option<string>, c: Chance, pair: Pair)
    requires Enabled(s, hash, Rotate(r, found, c)) && !Kept(s, r) && Rotation(s, hash, r, found, c).1 == Some(pair)
    ensures found.Some? && found.value in s.sessions && Exchangeable(s.sessions[found.value], r, hash)
    ensures Wrote(s, Rotation(s, hash, r, found, c).0, hash, r, found.value, pair)
  {
    var t := s.(results := Live(s.results, r.now));
    assert Rotation(s, hash, r, found, c) == Uncached(t, hash, r, found, c);
    assert found.Some? && Usable(t.sessions[found.value], r);
    var u := t.(sessions := Meanwhile(t.sessions, found.value, c));
    RenewalWrites(u, hash, r, found.value, c, pair);
    assert u.sessions == s.sessions;
  }

  lemma KeysCount(a: set<string>, b: set<string>)
    requires a <= b
    ensures |a| <= |b|
  {
    assert b == a + (b - a);
  }

  /** At most 1024 answers are kept, if the one that is given up for a new one is one of them. */
  lemma KeptAnswersAreBounded(results: map<string, Cached>, now: int, requestId: string, entry: Cached, victim: string)
    requires |results| <= 1024 && (|Live(results, now)| >= 1024 ==> victim in Live(results, now))
    ensures |WithResult(Live(results, now), requestId, entry, victim)| <= 1024
  {
    var live := Live(results, now);
    KeysCount(live.Keys, results.Keys);
    var left := if |live| >= 1024 then live - {victim} else live;
    if |live| >= 1024 {
      assert left.Keys == live.Keys - {victim};
    }
    assert left[requestId := entry].Keys == left.Keys + {requestId};
    assert |left.Keys| <= 1023;
  }

  /** The exchange was logged by a request that arrived in this state. */
  ghost predicate LoggedBy(mid: State, hash: string -> string, a: Action, e: Exchange) {
    a.Rotate? && a.found.Some? && a.found.value in mid.sessions && Exchangeable(mid.sessions[a.found.value], a.request, hash) &&
    e.oldHash == hash(a.request.presented) && e.pair.sessionId == a.found.value
  }

  lemma StepLogs(s: State, hash: string -> string, a: Action)
    requires Inv(s) && Enabled(s, hash, a)
    ensures var s' := Next(s, hash, a);
            s'.exchanges == s.exchanges ||
            (exists e :: s'.exchanges == s.exchanges + [e] && LoggedBy(s, hash, a, e))
  {
    var s' := Next(s, hash, a);
    if s'.exchanges != s.exchanges {
      var e := s'.exchanges[|s.exchanges|];
      assert s'.exchanges == s.exchanges + [e];
      assert LoggedBy(s, hash, a, e);
    }
  }

  /** In every run each exchange was made for a session that was then alive, unexpired and of the requesting device. */
  lemma {:induction false} ExchangesAreLawful(s: State, hash: string -> string, actions: seq<Action>, end: State, i: nat)
      returns (k: nat, mid: State)
    requires Inv(s) && Run(s, hash, actions, end) && |s.exchanges| <= i < |end.exchanges|
    ensures k < |actions| && Run(s, hash, actions[..k], mid) && LoggedBy(mid, hash, actions[k], end.exchanges[i])
    decreases |actions|
  {
    var s' := Next(s, hash, actions[0]);
    StepKeepsInv(s, hash, actions[0]);
    StepLogs(s, hash, actions[0]);
    RunKeepsInv(s', hash, actions[1..], end);
    if i < |s'.exchanges| {
      k, mid := 0, s;
      assert s'.exchanges[i] == end.exchanges[i];
    } else {
      k, mid := ExchangesAreLawful(s', hash, actions[1..], end, i);
      k := k + 1;
      assert actions[..k][0] == actions[0] && actions[..k][1..] == actions[1..][..k - 1];
    }
  }
}
