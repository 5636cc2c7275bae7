/**
 The client's token session and its copy in a key-value store. The store applies a batch of
 puts and removes atomically or refuses it; the process may stop between any two steps.

 `StoredIn` says what the store holds for an account. The methods keep the session in memory
 equal to it, so a fresh manager restores the state from before or after whatever was cut short.
 */
module TokenPersistence {
  import opened WireFormat

  const INT64_MAX: int := 0x7fff_ffff_ffff_ffff

  // ---- decimal numbers ----

  function DigitChar(d: nat): char
    requires d < 10
  {
    "0123456789"[d]
  }

  function PrintNat(n: nat): string {
    if n < 10 then [DigitChar(n)] else PrintNat(n / 10) + [DigitChar(n % 10)]
  }

  /** `std::to_string` */
  function Print(n: int): string {
    if n < 0 then "-" + PrintNat(-n) else PrintNat(n)
  }

  predicate IsDigit(c: char) {
    '0' <= c <= '9'
  }

  predicate AllDigits(s: string) {
    forall i :: 0 <= i < |s| ==> IsDigit(s[i])
  }

  function Value(s: string): nat
    requires AllDigits(s)
  {
    if s == "" then 0 else 10 * Value(s[..|s| - 1]) + (s[|s| - 1] as int - '0' as int)
  }

  predicate IsSpace(c: char) {
    c == ' ' || '\t' <= c <= '\r'
  }

  function SkipSpaces(s: string): string {
    if s != "" && IsSpace(s[0]) then SkipSpaces(s[1..]) else s
  }

  /** `std::stoll` on the whole string: leading spaces and a sign are accepted, the value must be positive and fit. */
  function ParsePositive(s: string): Option<int> {
    var t := SkipSpaces(s);
    var negative := t != "" && t[0] == '-';
    var d := if t != "" && (t[0] == '-' || t[0] == '+') then t[1..] else t;
    if d == "" || !AllDigits(d) || negative || Value(d) > INT64_MAX || Value(d) == 0 then None else Some(Value(d))
  }

  lemma {:induction false} PrintedDigits(n: nat)
    ensures PrintNat(n) != "" && AllDigits(PrintNat(n)) && Value(PrintNat(n)) == n
  {
    if n < 10 {
      assert [DigitChar(n)][..0] == "";
    } else {
      PrintedDigits(n / 10);
      var s := PrintNat(n);
      assert s[..|s| - 1] == PrintNat(n / 10);
    }
  }

  /** What is printed is read back, exactly for the positive numbers that fit. */
  lemma PrintParse(n: int)
    requires n <= INT64_MAX
    ensures ParsePositive(Print(n)) == if n > 0 then Some(n) else None
  {
    if n >= 0 {
      PrintedDigits(n);
      assert IsDigit(Print(n)[0]);
    } else {
      assert Print(n)[0] == '-';
    }
  }

  /** The six characters `isspace` accepts. */
  predicate White(c: char) {
    c in {' ', '\t', '\n', '\r', '\U{0b}', '\U{0c}'}
  }

  /** A number as `std::stoll` reads it to the end: white space, a plus sign perhaps, and its digits. */
  predicate Spells(s: string, k: nat, n: int)
    requires k <= |s|
  {
    var d := if k < |s| && s[k] == '+' then s[k + 1..] else s[k..];
    (forall i :: 0 <= i < k ==> White(s[i])) && d != "" && AllDigits(d) && Value(d) == n && 0 < n <= 9223372036854775807
  }

  lemma {:induction false} SkippedTo(s: string, k: nat)
    requires k <= |s| && (forall i :: 0 <= i < k ==> IsSpace(s[i])) && (k < |s| ==> !IsSpace(s[k]))
    ensures SkipSpaces(s) == s[k..]
  {
    if k > 0 {
      assert forall i :: 0 <= i < k - 1 ==> s[1..][i] == s[i + 1];
      SkippedTo(s[1..], k - 1);
      assert s[1..][k - 1..] == s[k..];
    }
  }

  lemma {:induction false} SpacesEnd(s: string) returns (k: nat)
    ensures k <= |s| && SkipSpaces(s) == s[k..] && forall i :: 0 <= i < k ==> IsSpace(s[i])
  {
    if s != "" && IsSpace(s[0]) {
      k := SpacesEnd(s[1..]);
      assert s[1..][k..] == s[k + 1..];
      assert forall i :: 0 < i < k + 1 ==> s[i] == s[1..][i - 1];
      k := k + 1;
    } else {
      k := 0;
      assert s[0..] == s;
    }
  }

  lemma WhiteIsSpace(c: char)
    ensures IsSpace(c) <==> White(c)
  {
  }

  /** What is read is exactly what spells a positive number that fits. */
  lemma ParseMeaning(s: string, n: int)
    ensures ParsePositive(s) == Some(n) <==> exists k: nat :: k <= |s| && Spells(s, k, n)
  {
    forall c: char
      ensures IsSpace(c) <==> White(c)
    {
      WhiteIsSpace(c);
    }
    var k := SpacesEnd(s);
    if ParsePositive(s) == Some(n) {
      assert Spells(s, k, n);
    }
    forall j: nat | j <= |s| && Spells(s, j, n)
      ensures ParsePositive(s) == Some(n)
    {
      SpelledIsRead(s, j, n);
    }
  }

  lemma SpelledIsRead(s: string, k: nat, n: int)
    requires k <= |s| && Spells(s, k, n)
    ensures ParsePositive(s) == Some(n)
  {
    var d := if k < |s| && s[k] == '+' then s[k + 1..] else s[k..];
    assert IsDigit(d[0]);
    forall i | 0 <= i < k
      ensures IsSpace(s[i])
    {
      WhiteIsSpace(s[i]);
    }
    SkippedTo(s, k);
  }

  // ---- keys ----

  const ACCESS: string := "access"
  const REFRESH: string := "refresh"
  const ACCESS_EXP: string := "access_exp"
  const REFRESH_EXP: string := "refresh_exp"
  const SESSION: string := "session_id"
  const REQUEST: string := "refresh_request_id"

  function KeyOf(account: string, suffix: string): string {
    "tok:" + (account + (":" + suffix))
  }

  predicate NoColon(s: string) {
    forall i :: 0 <= i < |s| ==> s[i] != ':'
  }

  /** The last colon separates account and suffix, so keys of different accounts or fields never meet. */
  lemma KeysDiffer(a: string, s: string, b: string, t: string)
    requires NoColon(s) && NoColon(t)
    ensures KeyOf(a, s) == KeyOf(b, t) <==> a == b && s == t
  {
    if KeyOf(a, s) == KeyOf(b, t) {
      var x, y := a + (":" + s), b + (":" + t);
      assert x == KeyOf(a, s)[4..] && y == KeyOf(b, t)[4..];
      assert x[|a|] == ':' && y[|b|] == ':';
      assert forall i :: |a| < i < |x| ==> x[i] == s[i - |a| - 1];
      assert forall i :: |b| < i < |y| ==> y[i] == t[i - |b| - 1];
      assert |a| == |b|;
      assert a == x[..|a|] && b == y[..|a|] && s == x[|a| + 1..] && t == y[|a| + 1..];
    }
  }

  predicate Suffix(s: string) {
    s == ACCESS || s == REFRESH || s == ACCESS_EXP || s == REFRESH_EXP || s == SESSION || s == REQUEST
  }

  lemma SuffixesHaveNoColon(s: string)
    requires Suffix(s)
    ensures NoColon(s)
  {
  }

  // ---- sessions and the store ----

  datatype Session = Session(account: string, access: string, refresh: string, accessExp: int, refreshExp: int, sessionId: string)

  /** A session with its pending refresh request, if any. */
  datatype Restored = Restored(session: Session, pending: Option<string>)

  function Blank(account: string): Session {
    Session(account, "", "", 0, 0, "")
  }

  /** What a session must have for the store to give it back. */
  predicate Persistable(s: Session) {
    s.access != "" && s.refresh != "" && s.sessionId != "" && s.accessExp > 0 && s.refreshExp > 0
  }

  predicate Fits(s: Session) {
    s.accessExp <= INT64_MAX && s.refreshExp <= INT64_MAX
  }

  type Store = map<string, string>

  /** The session and pending request an account's keys describe, whether or not they have expired. */
  function StoredIn(data: Store, account: string): Option<Restored> {
    var access, refresh, accessExp := KeyOf(account, ACCESS), KeyOf(account, REFRESH), KeyOf(account, ACCESS_EXP);
    var refreshExp, sessionId, request := KeyOf(account, REFRESH_EXP), KeyOf(account, SESSION), KeyOf(account, REQUEST);
    if access !in data || refresh !in data || accessExp !in data || refreshExp !in data || sessionId !in data
       || data[access] == "" || data[refresh] == "" || data[sessionId] == ""
       || ParsePositive(data[accessExp]).None? || ParsePositive(data[refreshExp]).None? then None
    else
      Some(Restored(Session(account, data[access], data[refresh], ParsePositive(data[accessExp]).value,
                            ParsePositive(data[refreshExp]).value, data[sessionId]),
                    if request in data && data[request] != "" then Some(data[request]) else None))
  }

  function SessionPuts(s: Session): Store {
    map[KeyOf(s.account, ACCESS) := s.access, KeyOf(s.account, REFRESH) := s.refresh,
        KeyOf(s.account, ACCESS_EXP) := Print(s.accessExp), KeyOf(s.account, REFRESH_EXP) := Print(s.refreshExp),
        KeyOf(s.account, SESSION) := s.sessionId]
  }

  /** The store after a session was saved, which ends any pending request. */
  function Saved(data: Store, s: Session): Store {
    (data + SessionPuts(s)) - {KeyOf(s.account, REQUEST)}
  }

  function Begun(data: Store, account: string, requestId: string): Store {
    data[KeyOf(account, REQUEST) := requestId]
  }

  function Completed(data: Store, account: string): Store {
    data - {KeyOf(account, REQUEST)}
  }

  function AccountKeys(account: string): set<string> {
    {KeyOf(account, ACCESS), KeyOf(account, REFRESH), KeyOf(account, ACCESS_EXP), KeyOf(account, REFRESH_EXP),
     KeyOf(account, SESSION), KeyOf(account, REQUEST)}
  }

  lemma KeysOfAccount(a: string, b: string)
    ensures forall s, t :: Suffix(s) && Suffix(t) ==> (KeyOf(a, s) == KeyOf(b, t) <==> a == b && s == t)
  {
    forall s, t | Suffix(s) && Suffix(t)
      ensures KeyOf(a, s) == KeyOf(b, t) <==> a == b && s == t
    {
      SuffixesHaveNoColon(s);
      SuffixesHaveNoColon(t);
      KeysDiffer(a, s, b, t);
    }
  }

  // ---- what the store gives back ----

  lemma PutValues(s: Session)
    ensures var p := SessionPuts(s);
            && p[KeyOf(s.account, ACCESS)] == s.access && p[KeyOf(s.account, REFRESH)] == s.refresh
            && p[KeyOf(s.account, ACCESS_EXP)] == Print(s.accessExp) && p[KeyOf(s.account, REFRESH_EXP)] == Print(s.refreshExp)
            && p[KeyOf(s.account, SESSION)] == s.sessionId
  {
    KeysOfAccount(s.account, s.account);
  }

  /**
   A saved session is given back exactly as it was, and without a pending request, if and only
   if it is one the loader accepts; otherwise nothing is given back.
   */
  lemma SavedIsRestored(data: Store, s: Session)
    requires Fits(s)
    ensures StoredIn(Saved(data, s), s.account) == if Persistable(s) then Some(Restored(s, None)) else None
  {
    KeysOfAccount(s.account, s.account);
    PutValues(s);
    PrintParse(s.accessExp);
    PrintParse(s.refreshExp);
  }

  ghost predicate SameOutside(data: Store, data': Store, keys: set<string>) {
    forall k :: k !in keys ==> (k in data <==> k in data') && (k in data && k in data' ==> data[k] == data'[k])
  }

  lemma OtherKeysAreOutside(account: string, other: string, suffix: string)
    requires other != account && Suffix(suffix)
    ensures KeyOf(other, suffix) !in AccountKeys(account)
  {
    KeysOfAccount(other, account);
  }

  /** Whatever is written under one account's keys, another account's session and request stay. */
  lemma AccountsAreIsolated(data: Store, data': Store, account: string, other: string)
    requires other != account && SameOutside(data, data', AccountKeys(account))
    ensures StoredIn(data', other) == StoredIn(data, other)
  {
    OtherKeysAreOutside(account, other, ACCESS);
    OtherKeysAreOutside(account, other, REFRESH);
    OtherKeysAreOutside(account, other, ACCESS_EXP);
    OtherKeysAreOutside(account, other, REFRESH_EXP);
    OtherKeysAreOutside(account, other, SESSION);
    OtherKeysAreOutside(account, other, REQUEST);
  }

  /** Every operation writes under its own account's keys only. */
  lemma WritesAreOwn(data: Store, s: Session, requestId: string)
    ensures SameOutside(data, Saved(data, s), AccountKeys(s.account))
    ensures SameOutside(data, Begun(data, s.account, requestId), AccountKeys(s.account))
    ensures SameOutside(data, Completed(data, s.account), AccountKeys(s.account))
    ensures SameOutside(data, data - AccountKeys(s.account), AccountKeys(s.account))
  {
  }

  /** A begun refresh is remembered with the session it belongs to. */
  lemma BegunIsRestored(data: Store, account: string, requestId: string)
    requires requestId != ""
    ensures StoredIn(Begun(data, account, requestId), account) ==
            match StoredIn(data, account) case None => None case Some(r) => Some(Restored(r.session, Some(requestId)))
  {
    KeysOfAccount(account, account);
  }

  /** A completed one is forgotten. */
  lemma CompletedIsRestored(data: Store, account: string)
    ensures StoredIn(Completed(data, account), account) ==
            match StoredIn(data, account) case None => None case Some(r) => Some(Restored(r.session, None))
  {
    KeysOfAccount(account, account);
    var request, data' := KeyOf(account, REQUEST), Completed(data, account);
    assert request !in data';
    assert forall k :: k in data' <==> k in data && k != request;
  }

  // ---- the manager ----

  class TokenStore {
    var data: Store

    constructor ()
      ensures data == map[]
    {
      data := map[];
    }

    method ApplyAtomically(puts: Store, removes: set<string>, fails: bool) returns (ok: bool)
      modifies this
      ensures ok == !fails
      ensures data == if ok then (old(data) + puts) - removes else old(data)
    {
      if fails {
        return false;
      }
      data := (data + puts) - removes;
      return true;
    }
  }

  class TokenManager {
    const store: TokenStore
    var session: Session
    var refreshInFlight: bool
    var refreshRequestId: string
    var requestSeq: nat

    constructor (store: TokenStore)
      ensures this.store == store && session == Blank("") && !refreshInFlight && refreshRequestId == ""
    {
      this.store, session, refreshInFlight, refreshRequestId, requestSeq := store, Blank(""), false, "", 0;
    }

    function Pending(): Option<string>
      reads this
    {
      if refreshInFlight && refreshRequestId != "" then Some(refreshRequestId) else None
    }

    /** The manager and its store as a state of the runs below. */
    ghost function Seen(): World
      reads this, store
    {
      World(store.data, Running(session, Pending()), map[])
    }

    /** An operation that returned was a step of a run. */
    ghost predicate Stepped(was: World, a: Action)
      reads this, store
    {
      Enabled(was, a) && Next(was, a).data == store.data && Next(was, a).manager == Running(session, Pending())
    }

    /** Memory and store tell the same story. */
    predicate Synced()
      reads this, store
    {
      StoredIn(store.data, session.account) == Some(Restored(session, Pending()))
    }

    /**
     Takes up what the store holds, unless its refresh token has expired. A request id the manager
     still had from before is replaced only by a stored one, so memory and store then tell the
     same story exactly if there was none, or one is stored.
     */
    method LoadFromStore(account: string, now: int, removeFails: bool) returns (ok: bool)
      modifies this, store
      ensures ok <==> old(StoredIn(store.data, account)).Some? && now < old(StoredIn(store.data, account)).value.session.refreshExp
      ensures ok ==> session == old(StoredIn(store.data, account)).value.session && store.data == old(store.data)
      ensures ok ==> var stored := old(StoredIn(store.data, account)).value.pending;
                     Pending() == (if stored.Some? then stored else old(Pending())) &&
                     (Synced() <==> old(Pending()).None? || stored.Some?)
      ensures !ok ==> session == Blank(account) && Pending() == None
      ensures !ok ==> store.data == if removeFails then old(store.data) else old(store.data) - AccountKeys(account)
      ensures Stepped(old(Seen()), Action.Load(account, now, OutcomeOf(removeFails)))
    {
      session := Blank(account);
      var data := store.data;
      var found := StoredIn(data, account);
      if found.None? {
        var removed := RevokeFamily(removeFails);
        return false;
      }
      session := found.value.session;
      if found.value.pending.Some? {
        refreshRequestId := found.value.pending.value;
        refreshInFlight := true;
      }
      if session.refreshExp <= 0 || now >= session.refreshExp {
        var removed := RevokeFamily(removeFails);
        return false;
      }
      return true;
    }

    /** The new session counts once it is stored; if the store refuses it, the old one stays. */
    method Adopt(s: Session, fails: bool) returns (ok: bool)
      requires Fits(s)
      modifies this, store
      ensures ok == !fails
      ensures !ok ==> session == old(session) && Pending() == old(Pending()) && store.data == old(store.data)
      ensures ok ==> session == s && Pending() == None && store.data == Saved(old(store.data), s)
      ensures ok && Persistable(s) ==> Synced()
      ensures Stepped(old(Seen()), Action.Adopt(s, OutcomeOf(fails)))
    {
      var previous := session;
      session := s;
      ok := Persist(fails);
      if !ok {
        session := previous;
        return;
      }
      refreshInFlight := false;
      refreshRequestId := "";
      ghost var before := old(store.data);
      SavedIsRestored(before, s);
    }

    method Rotate(access: string, refresh: string, accessExp: int, refreshExp: int, sessionId: string, fails: bool) returns (ok: bool)
      requires accessExp <= INT64_MAX && refreshExp <= INT64_MAX
      modifies this, store
      ensures ok == !fails
      ensures !ok ==> session == old(session) && Pending() == old(Pending()) && store.data == old(store.data)
      ensures ok ==> session == Session(old(session.account), access, refresh, accessExp, refreshExp,
                                        if sessionId != "" then sessionId else old(session.sessionId))
      ensures ok ==> Pending() == None && store.data == Saved(old(store.data), session)
      ensures ok && Persistable(session) ==> Synced()
      ensures Stepped(old(Seen()), Action.Rotate(access, refresh, accessExp, refreshExp, sessionId, OutcomeOf(fails)))
    {
      var s := session.(access := access, refresh := refresh, accessExp := accessExp, refreshExp := refreshExp);
      if sessionId != "" {
        s := s.(sessionId := sessionId);
      }
      ok := Adopt(s, fails);
    }

    method Persist(fails: bool) returns (ok: bool)
      modifies store
      ensures ok == !fails
      ensures store.data == if ok then Saved(old(store.data), session) else old(store.data)
    {
      ok := store.ApplyAtomically(SessionPuts(session), {KeyOf(session.account, REQUEST)}, fails);
    }

    /** A refresh that is already under way is joined, also after a restart. */
    method BeginRefresh(now: int, fails: bool) returns (requestId: string)
      modifies this, store
      ensures session == old(session) && (old(Synced()) ==> Synced())
      ensures old(Pending()).Some? ==> requestId == old(Pending()).value && store.data == old(store.data)
      ensures old(Pending()).None? && fails ==> requestId == "" && store.data == old(store.data) && Pending() == None
      ensures old(Pending()).None? && !fails ==>
                requestId != "" && Pending() == Some(requestId) && store.data == Begun(old(store.data), session.account, requestId)
      ensures requestId != "" ==> Stepped(old(Seen()), Action.Begin(requestId, OutcomeOf(fails)))
    {
      if refreshInFlight && refreshRequestId != "" {
        return refreshRequestId;
      }
      var id := "rf-" + session.account + "-" + session.sessionId + "-" + Print(requestSeq + 1) + "-" + Print(now);
      assert id[0] == 'r';
      ghost var before := store.data;
      var ok := store.ApplyAtomically(map[KeyOf(session.account, REQUEST) := id], {}, fails);
      if !ok {
        return "";
      }
      requestSeq := requestSeq + 1;
      refreshRequestId := id;
      refreshInFlight := true;
      BegunIsRestored(before, session.account, id);
      assert store.data == Begun(before, session.account, id);
      return id;
    }

    method CompleteRefresh(fails: bool) returns (ok: bool)
      modifies this, store
      ensures ok == !fails && session == old(session) && (old(Synced()) ==> Synced())
      ensures Pending() == if ok then None else old(Pending())
      ensures store.data == if ok then Completed(old(store.data), session.account) else old(store.data)
      ensures Stepped(old(Seen()), Action.Complete(OutcomeOf(fails)))
    {
      ghost var before := store.data;
      ok := store.ApplyAtomically(map[], {KeyOf(session.account, REQUEST)}, fails);
      if ok {
        refreshInFlight := false;
        refreshRequestId := "";
        CompletedIsRestored(before, session.account);
        assert store.data == Completed(before, session.account);
      }
    }

    method RevokeFamily(fails: bool) returns (removed: bool)
      modifies this, store
      ensures removed == !fails && session == Blank(old(session.account)) && Pending() == None
      ensures store.data == if removed then old(store.data) - AccountKeys(old(session.account)) else old(store.data)
      ensures Stepped(old(Seen()), Action.Revoke(OutcomeOf(fails)))
    {
      var keys := AccountKeys(session.account);
      removed := store.ApplyAtomically(map[], keys, fails);
      session := Blank(session.account);
      refreshInFlight := false;
      refreshRequestId := "";
    }
  }

  // ---- runs ----

  /** The manager of a process that may have stopped. */
  datatype Manager = Stopped | Running(session: Session, pending: Option<string>)

  /** The store, the manager, and for each account the state after its last operation that was applied. */
  datatype World = World(data: Store, manager: Manager, last: map<string, Restored>)

  /** The one write of an operation is done or refused, or the process stops before or after it. */
  datatype Outcome = Done | Refused | Cut(written: bool)

  datatype Action =
    | Adopt(session: Session, outcome: Outcome)
    | Rotate(access: string, refresh: string, accessExp: int, refreshExp: int, sessionId: string, outcome: Outcome)
    | Begin(requestId: string, outcome: Outcome)
    | Complete(outcome: Outcome)
    | Revoke(outcome: Outcome)
    | Load(account: string, now: int, outcome: Outcome)
    | Restart

  predicate Written(o: Outcome) {
    o.Done? || (o.Cut? && o.written)
  }

  function RotatedSession(s: Session, a: Action): Session
    requires a.Rotate?
  {
    Session(s.account, a.access, a.refresh, a.accessExp, a.refreshExp, if a.sessionId != "" then a.sessionId else s.sessionId)
  }

  function OutcomeOf(fails: bool): Outcome {
    if fails then Refused else Done
  }

  predicate Enabled(w: World, a: Action) {
    a.Restart? ||
    (w.manager.Running? &&
     match a
     case Adopt(s, _) => Fits(s)
     case Rotate(_, _, _, _, _, _) => Fits(RotatedSession(w.manager.session, a))
     case Begin(id, _) => id != ""
     case _ => true)
  }

  function LastSaved(last: map<string, Restored>, s: Session): map<string, Restored> {
    if Persistable(s) then last[s.account := Restored(s, None)] else last - {s.account}
  }

  function LastPending(last: map<string, Restored>, account: string, pending: Option<string>): map<string, Restored> {
    if account in last then last[account := last[account].(pending := pending)] else last
  }

  function Saving(w: World, s: Session, o: Outcome): World {
    World(if Written(o) then Saved(w.data, s) else w.data,
          if o.Cut? then Stopped else if o.Done? then Running(s, None) else w.manager,
          if Written(o) then LastSaved(w.last, s) else w.last)
  }

  /** Memory is cleared whether or not the store gives the keys up. */
  function Revoking(w: World, account: string, o: Outcome): World {
    World(if Written(o) then w.data - AccountKeys(account) else w.data,
          if o.Cut? then Stopped else Running(Blank(account), None),
          if Written(o) then w.last - {account} else w.last)
  }

  function Next(w: World, a: Action): World
    requires Enabled(w, a)
  {
    match a
    case Restart => w.(manager := Running(Blank(""), None))
    case Adopt(s, o) => Saving(w, s, o)
    case Rotate(_, _, _, _, _, o) => Saving(w, RotatedSession(w.manager.session, a), o)
    case Begin(id, o) =>
      var account := w.manager.session.account;
      if w.manager.pending.Some? then w
      else World(if Written(o) then Begun(w.data, account, id) else w.data,
                 if o.Cut? then Stopped else if o.Done? then w.manager.(pending := Some(id)) else w.manager,
                 if Written(o) then LastPending(w.last, account, Some(id)) else w.last)
    case Complete(o) =>
      var account := w.manager.session.account;
      World(if Written(o) then Completed(w.data, account) else w.data,
            if o.Cut? then Stopped else if o.Done? then w.manager.(pending := None) else w.manager,
            if Written(o) then LastPending(w.last, account, None) else w.last)
    case Revoke(o) => Revoking(w, w.manager.session.account, o)
    case Load(account, now, o) =>
      var found := StoredIn(w.data, account);
      if found.Some? && now < found.value.session.refreshExp
      then w.(manager := Running(found.value.session,
                                 if found.value.pending.Some? then found.value.pending else w.manager.pending))
      else Revoking(w, account, o)
  }

  predicate Run(w: World, actions: seq<Action>, end: World)
    decreases |actions|
  {
    if actions == [] then end == w
    else Enabled(w, actions[0]) && Run(Next(w, actions[0]), actions[1..], end)
  }

  function LastOf(w: World, account: string): Option<Restored> {
    if account in w.last then Some(w.last[account]) else None
  }

  /** The store gives back for every account the state after its last applied operation. */
  ghost predicate Inv(w: World) {
    && (forall account :: StoredIn(w.data, account) == LastOf(w, account))
    && (forall account :: account in w.last ==> w.last[account].session.account == account)
  }

  /** The memory of a running manager tells the same story as its account's last applied operation. */
  ghost predicate InStep(w: World) {
    w.manager.Running? && Persistable(w.manager.session) ==>
      LastOf(w, w.manager.session.account) == Some(Restored(w.manager.session, w.manager.pending))
  }

  /** A load that succeeds takes over a request of the manager's own that was never stored for this account. */
  predicate CarriesOver(w: World, a: Action)
    requires Enabled(w, a)
  {
    a.Load? && w.manager.pending.Some? && StoredIn(w.data, a.account).Some? &&
    var found := StoredIn(w.data, a.account).value;
    a.now < found.session.refreshExp && found.pending.None?
  }

  predicate NeverCarriesOver(w: World, actions: seq<Action>)
    decreases |actions|
  {
    actions == [] ||
    (Enabled(w, actions[0]) && !CarriesOver(w, actions[0]) && NeverCarriesOver(Next(w, actions[0]), actions[1..]))
  }

  /** What is written under one account's keys is seen under no other account. */
  lemma OthersUnchanged(data: Store, s: Session, requestId: string, other: string)
    requires other != s.account
    ensures StoredIn(Saved(data, s), other) == StoredIn(data, other)
    ensures StoredIn(Begun(data, s.account, requestId), other) == StoredIn(data, other)
    ensures StoredIn(Completed(data, s.account), other) == StoredIn(data, other)
    ensures StoredIn(data - AccountKeys(s.account), other) == StoredIn(data, other)
  {
    WritesAreOwn(data, s, requestId);
    AccountsAreIsolated(data, Saved(data, s), s.account, other);
    AccountsAreIsolated(data, Begun(data, s.account, requestId), s.account, other);
    AccountsAreIsolated(data, Completed(data, s.account), s.account, other);
    AccountsAreIsolated(data, data - AccountKeys(s.account), s.account, other);
  }

  lemma SavedSeenBy(data: Store, s: Session, account: string)
    requires Fits(s)
    ensures StoredIn(Saved(data, s), account) ==
            if account != s.account then StoredIn(data, account)
            else if Persistable(s) then Some(Restored(s, None)) else None
  {
    if account == s.account {
      SavedIsRestored(data, s);
    } else {
      OthersUnchanged(data, s, "", account);
    }
  }

  lemma SavingKeepsInv(w: World, s: Session, o: Outcome)
    requires Inv(w) && Fits(s)
    ensures Inv(Saving(w, s, o))
  {
    if Written(o) {
      var w' := Saving(w, s, o);
      forall account
        ensures StoredIn(w'.data, account) == LastOf(w', account)
      {
        SavedSeenBy(w.data, s, account);
        assert StoredIn(w.data, account) == LastOf(w, account);
      }
    }
  }

  lemma RevokingKeepsInv(w: World, account: string, o: Outcome)
    requires Inv(w)
    ensures Inv(Revoking(w, account, o))
  {
    forall other
      ensures StoredIn(Revoking(w, account, o).data, other) == LastOf(Revoking(w, account, o), other)
    {
      if other != account {
        OthersUnchanged(w.data, Blank(account), "", other);
      }
    }
  }

  lemma BeginKeepsInv(w: World, id: string, o: Outcome)
    requires Inv(w) && Enabled(w, Begin(id, o))
    ensures Inv(Next(w, Begin(id, o)))
  {
    var account, w' := w.manager.session.account, Next(w, Begin(id, o));
    BegunIsRestored(w.data, account, id);
    forall other
      ensures StoredIn(w'.data, other) == LastOf(w', other)
    {
      if other != account {
        OthersUnchanged(w.data, w.manager.session, id, other);
      }
    }
  }

  lemma CompleteKeepsInv(w: World, o: Outcome)
    requires Inv(w) && Enabled(w, Complete(o))
    ensures Inv(Next(w, Complete(o)))
  {
    var account, w' := w.manager.session.account, Next(w, Complete(o));
    CompletedIsRestored(w.data, account);
    forall other
      ensures StoredIn(w'.data, other) == LastOf(w', other)
    {
      if other != account {
        OthersUnchanged(w.data, w.manager.session, "", other);
      }
    }
  }

  lemma StepKeepsInv(w: World, a: Action)
    requires Inv(w) && Enabled(w, a)
    ensures Inv(Next(w, a))
  {
    match a
    case Adopt(s, o) => SavingKeepsInv(w, s, o);
    case Rotate(_, _, _, _, _, o) => SavingKeepsInv(w, RotatedSession(w.manager.session, a), o);
    case Begin(id, o) => BeginKeepsInv(w, id, o);
    case Complete(o) => CompleteKeepsInv(w, o);
    case Revoke(o) => RevokingKeepsInv(w, w.manager.session.account, o);
    case Load(account, now, o) => RevokingKeepsInv(w, account, o);
    case Restart =>
  }

  function Start(): World {
    World(map[], Running(Blank(""), None), map[])
  }

  lemma StartInv()
    ensures Inv(Start()) && InStep(Start())
  {
  }

  lemma {:induction false} RunKeepsInv(w: World, actions: seq<Action>, end: World)
    requires Inv(w) && Run(w, actions, end)
    ensures Inv(end)
    decreases |actions|
  {
    if actions != [] {
      StepKeepsInv(w, actions[0]);
      RunKeepsInv(Next(w, actions[0]), actions[1..], end);
    }
  }

  /** Every operation keeps memory in step, if and only if it is not a load that carries a request over. */
  lemma StepKeepsInStep(w: World, a: Action)
    requires Inv(w) && InStep(w) && Enabled(w, a)
    ensures InStep(Next(w, a)) <==> !CarriesOver(w, a)
  {
    if a.Load? {
      assert StoredIn(w.data, a.account) == LastOf(w, a.account);
    }
  }

  lemma {:induction false} MemoryStaysInStep(w: World, actions: seq<Action>, end: World)
    requires Inv(w) && InStep(w) && Run(w, actions, end) && NeverCarriesOver(w, actions)
    ensures InStep(end)
    decreases |actions|
  {
    if actions != [] {
      StepKeepsInv(w, actions[0]);
      StepKeepsInStep(w, actions[0]);
      MemoryStaysInStep(Next(w, actions[0]), actions[1..], end);
    }
  }

  /** Loading another account while a refresh is pending: its session gets a request that is not its own. */
  lemma PendingCarriedOver(a: Session, b: Session, id: string, now: int) returns (actions: seq<Action>, w: World)
    requires Fits(a) && Fits(b) && Persistable(a) && Persistable(b) && a.account != b.account && id != "" && now < b.refreshExp
    ensures Run(Start(), actions, w) && !InStep(w)
    ensures w.manager == Running(b, Some(id)) && LastOf(w, b.account) == Some(Restored(b, None))
  {
    StartInv();
    var w1 := Next(Start(), Adopt(b, Done));
    StepKeepsInv(Start(), Adopt(b, Done));
    var w2 := Next(w1, Adopt(a, Done));
    StepKeepsInv(w1, Adopt(a, Done));
    var w3 := Next(w2, Begin(id, Done));
    StepKeepsInv(w2, Begin(id, Done));
    LoadCarriesOver(w3, b, id, now);
    w := Next(w3, Load(b.account, now, Done));
    actions := RunOfFour(Start(), w1, w2, w3, w, Adopt(b, Done), Adopt(a, Done), Begin(id, Done), Load(b.account, now, Done));
  }

  lemma LoadCarriesOver(w: World, b: Session, id: string, now: int)
    requires Inv(w) && w.manager.Running? && w.manager.pending == Some(id) && LastOf(w, b.account) == Some(Restored(b, None))
    requires Persistable(b) && now < b.refreshExp
    ensures Enabled(w, Load(b.account, now, Done)) && Next(w, Load(b.account, now, Done)) == w.(manager := Running(b, Some(id)))
    ensures !InStep(w.(manager := Running(b, Some(id))))
  {
    assert StoredIn(w.data, b.account) == LastOf(w, b.account);
  }

  lemma RunOfFour(s0: World, s1: World, s2: World, s3: World, s4: World, a: Action, b: Action, c: Action, d: Action)
    returns (actions: seq<Action>)
    requires Enabled(s0, a) && s1 == Next(s0, a) && Enabled(s1, b) && s2 == Next(s1, b)
    requires Enabled(s2, c) && s3 == Next(s2, c) && Enabled(s3, d) && s4 == Next(s3, d)
    ensures Run(s0, actions, s4)
  {
    actions := [a, b, c, d];
    assert actions[1..] == [b, c, d];
    assert [b, c, d][1..] == [c, d];
    assert [c, d][1..] == [d];
    assert [d][1..] == [];
    assert Run(s3, [d], s4);
    assert Run(s2, [c, d], s4);
    assert Run(s1, [b, c, d], s4);
  }

  /**
   In every run of operations that are applied, refused or cut short, with restarts and changes of
   account: a fresh manager that loads an account before its refresh token expires has exactly
   the session and pending request of the account's last applied operation.
   */
  lemma FreshLoadRestores(actions: seq<Action>, w: World, account: string, now: int, o: Outcome)
    requires Run(Start(), actions, w)
    ensures StoredIn(w.data, account) == LastOf(w, account)
    ensures account in w.last && now < w.last[account].session.refreshExp ==>
              Next(Next(w, Restart), Load(account, now, o)).manager ==
              Running(w.last[account].session, w.last[account].pending)
  {
    StartInv();
    RunKeepsInv(Start(), actions, w);
  }

  function WithOutcome(a: Action, o: Outcome): Action {
    if a.Restart? then a else a.(outcome := o)
  }

  /** Wherever an operation is cut short, the store gives back for every account the state of before or after it. */
  lemma InterruptedOp(w: World, a: Action, written: bool, account: string)
    requires Inv(w) && Enabled(w, a) && !a.Restart?
    ensures var cut := StoredIn(Next(w, WithOutcome(a, Cut(written))).data, account);
            cut == LastOf(w, account) || cut == LastOf(Next(w, WithOutcome(a, Done)), account)
  {
    StepKeepsInv(w, WithOutcome(a, Cut(written)));
    StepKeepsInv(w, WithOutcome(a, Done));
  }
}
