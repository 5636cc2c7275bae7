/**
 The cutover journal: a one-way record of the move from the legacy store to the native one,
 tied to the first native business write by sharing its transaction.
 */
module CutoverJournal {
  import opened WireFormat

  datatype State = LegacyActive | Prepared | CommittedNoWrite | CommittedDirty

  /** What a journal entry attests beside its state. */
  datatype Evidence = Evidence(highWater: int, schemaVersion: int, keyId: string, summary: string)
  datatype Entry = Entry(epoch: int, state: State, evidence: Evidence, dirty: bool, updatedAt: int)

  function Number(s: State): int {
    match s
    case LegacyActive => 0
    case Prepared => 1
    case CommittedNoWrite => 2
    case CommittedDirty => 3
  }

  /** The journal table in epoch order, and the business writes that were committed. */
  datatype Db = Db(journal: seq<Entry>, writes: seq<string>)

  /** `SELECT ... ORDER BY epoch DESC LIMIT 1` */
  function Latest(journal: seq<Entry>): Option<Entry> {
    if journal == [] then None else Some(journal[|journal| - 1])
  }

  /** `INSERT ... ON CONFLICT(epoch) DO UPDATE` */
  function Upsert(journal: seq<Entry>, e: Entry): seq<Entry> {
    if journal == [] then [e]
    else if journal[0].epoch == e.epoch then [e] + journal[1..]
    else if journal[0].epoch > e.epoch then [e] + journal
    else [journal[0]] + Upsert(journal[1..], e)
  }

  predicate ByEpoch(journal: seq<Entry>) {
    forall a, b :: 0 <= a < b < |journal| ==> journal[a].epoch < journal[b].epoch
  }

  /** Exactly the row of the same epoch is replaced, or the entry is new; rows stay in the order of their epochs. */
  lemma {:induction false} UpsertMeaning(journal: seq<Entry>, e: Entry, x: Entry)
    requires ByEpoch(journal)
    ensures ByEpoch(Upsert(journal, e))
    ensures x in Upsert(journal, e) <==> x == e || (x in journal && x.epoch != e.epoch)
  {
    if journal != [] && journal[0].epoch < e.epoch {
      var first, later := journal[0], Upsert(journal[1..], e);
      UpsertMeaning(journal[1..], e, x);
      forall y | y in later
        ensures first.epoch < y.epoch
      {
        UpsertMeaning(journal[1..], e, y);
      }
      assert forall i :: 0 <= i < |later| ==> later[i] in later;
    }
  }

  datatype Op =
    /** `write` is what the caller's function does, or none if it fails; `later` is the clock. */
    | Business(write: Option<string>, later: int, markFails: bool, commitFails: bool)
    /** `expected` is -1 for no journal. */
    | Advance(owner: int, epoch: int, expected: int, target: State, evidence: Evidence, updatedAt: int, writeFails: bool, commitFails: bool)

  function Rank(journal: seq<Entry>): int {
    if journal == [] then -1 else Number(journal[|journal| - 1].state)
  }

  predicate AdvanceArguments(owner: int, self: int, epoch: int, e: Evidence, updatedAt: int) {
    owner > 0 && owner == self && epoch > 0 && e.highWater >= 0 && e.schemaVersion > 0 && e.keyId != "" && updatedAt > 0
  }

  predicate AdvanceAllowed(journal: seq<Entry>, epoch: int, expected: int, target: State, evidence: Evidence) {
    var current, next := Rank(journal), Number(target);
    && current == expected
    && (journal != [] ==> journal[|journal| - 1].epoch == epoch)
    && (next == current || next == current + 1)
    && (next == current ==> journal[|journal| - 1].evidence == evidence)
  }

  /** The caller knows the state, and repeats the entry or goes one step up. */
  predicate MovesOn(e: Entry, epoch: int, expected: int, target: State, evidence: Evidence) {
    && e.epoch == epoch
    && (match e.state
        case LegacyActive => expected == 0 && (target.LegacyActive? || target.Prepared?)
        case Prepared => expected == 1 && (target.Prepared? || target.CommittedNoWrite?)
        case CommittedNoWrite => expected == 2 && (target.CommittedNoWrite? || target.CommittedDirty?)
        case CommittedDirty => expected == 3 && target.CommittedDirty?)
    && (target == e.state ==> evidence == e.evidence)
  }

  /** The entry after the first business write: the same but for the state, the mark and a later time. */
  predicate MarkedAfter(e: Entry, e': Entry, later: int) {
    && e'.epoch == e.epoch && e'.evidence == e.evidence && e'.state.CommittedDirty? && e'.dirty
    && e'.updatedAt >= later && e'.updatedAt > e.updatedAt && (e'.updatedAt == later || e'.updatedAt == e.updatedAt + 1)
  }

  class NativeDatabase {
    const ownerId: int
    var journal: seq<Entry>
    var writes: seq<string>

    function View(): Db
      reads this
    {
      Db(journal, writes)
    }

    constructor (ownerId: int)
      ensures this.ownerId == ownerId && View() == Db([], [])
    {
      this.ownerId, journal, writes := ownerId, [], [];
    }

    /** A business write. While the cutover is undecided it is refused; the first one after it marks the journal. */
    method SubmitBusinessSync(write: Option<string>, later: int, markFails: bool, commitFails: bool) returns (ok: bool, marked: bool)
      modifies this`journal, this`writes
      ensures View() == Step(old(View()), ownerId, Business(write, later, markFails, commitFails))
      ensures ok ==> write.Some? && writes == old(writes) + [write.value]
      ensures ok && marked <==> ok && Rank(old(journal)) == 2
      ensures !ok ==> View() == old(View())
      ensures ok <==> write.Some? && !commitFails &&
                      (old(journal) == [] || old(journal)[|old(journal)| - 1].state.CommittedDirty? ||
                       (old(journal)[|old(journal)| - 1].state.CommittedNoWrite? && !markFails))
      ensures ok && old(journal) != [] ==> |journal| == |old(journal)| && journal[..|journal| - 1] == old(journal)[..|journal| - 1]
      ensures ok && old(journal) != [] ==>
                var e := old(journal)[|old(journal)| - 1];
                if e.state.CommittedNoWrite? then MarkedAfter(e, journal[|journal| - 1], later) else journal[|journal| - 1] == e
    {
      var saved := journal;
      var latest := Latest(journal);
      marked := false;
      if latest.Some? {
        var e := latest.value;
        if e.state.LegacyActive? || e.state.Prepared? {
          return false, false;
        }
        if e.state.CommittedNoWrite? {
          if markFails {
            return false, false;
          }
          journal := journal[..|journal| - 1] + [Dirtied(e, later)];
          marked := true;
        }
      }
      if write.None? || commitFails {
        journal := saved;
        return false, marked;
      }
      writes := writes + [write.value];
      return true, marked;
    }

    method AdvanceCutoverJournal(owner: int, epoch: int, expected: int, target: State, evidence: Evidence,
                                 updatedAt: int, writeFails: bool, commitFails: bool) returns (ok: bool)
      modifies this`journal
      ensures View() == Step(old(View()), ownerId, Advance(owner, epoch, expected, target, evidence, updatedAt, writeFails, commitFails))
      ensures ok <==> AdvanceArguments(owner, ownerId, epoch, evidence, updatedAt) &&
                      AdvanceAllowed(old(journal), epoch, expected, target, evidence) && !writeFails && !commitFails
      ensures ok <==> && owner > 0 && owner == ownerId && epoch > 0 && updatedAt > 0 && !writeFails && !commitFails
                      && evidence.highWater >= 0 && evidence.schemaVersion > 0 && evidence.keyId != ""
                      && if old(journal) == [] then expected == -1 && target.LegacyActive?
                         else MovesOn(old(journal)[|old(journal)| - 1], epoch, expected, target, evidence)
      ensures ok && |old(journal)| <= 1 ==> journal == [Entry(epoch, target, evidence, target.CommittedDirty?, updatedAt)]
    {
      if owner <= 0 || owner != ownerId || epoch <= 0 || evidence.highWater < 0 ||
         evidence.schemaVersion <= 0 || evidence.keyId == "" || updatedAt <= 0
      {
        return false;
      }
      var latest := Latest(journal);
      var current, next := if latest.None? then -1 else Number(latest.value.state), Number(target);
      if current != expected || (current >= 0 && latest.value.epoch != epoch) ||
         !((current == -1 && next == 0) || next == current || next == current + 1)
      {
        return false;
      }
      if next == current && latest.value.evidence != evidence {
        return false;
      }
      if writeFails || commitFails {
        return false;
      }
      journal := Upsert(journal, Entry(epoch, target, evidence, next == 3, updatedAt));
      return true;
    }
  }

  function Dirtied(e: Entry, later: int): Entry {
    e.(state := CommittedDirty, dirty := true, updatedAt := if later > e.updatedAt + 1 then later else e.updatedAt + 1)
  }

  function Step(db: Db, self: int, op: Op): Db {
    match op
    case Business(write, later, markFails, commitFails) =>
      if write.None? || commitFails || 0 <= Rank(db.journal) <= 1 || (Rank(db.journal) == 2 && markFails) then db
      else
        Db(if Rank(db.journal) == 2
           then db.journal[..|db.journal| - 1] + [Dirtied(db.journal[|db.journal| - 1], later)] else db.journal,
           db.writes + [write.value])
    case Advance(owner, epoch, expected, target, evidence, updatedAt, writeFails, commitFails) =>
      if !AdvanceArguments(owner, self, epoch, evidence, updatedAt) || !AdvanceAllowed(db.journal, epoch, expected, target, evidence)
         || writeFails || commitFails then db
      else db.(journal := Upsert(db.journal, Entry(epoch, target, evidence, target.CommittedDirty?, updatedAt)))
  }

  function Run(db: Db, self: int, ops: seq<Op>): Db
    decreases |ops|
  {
    if ops == [] then db else Run(Step(db, self, ops[0]), self, ops[1..])
  }

  // ---- what every run keeps ----

  /**
   There is one epoch at most, it is marked dirty exactly in the last state, and only in that
   state can writes have followed the `before` that were there when the journal appeared.
   */
  ghost predicate Inv(db: Db, before: nat) {
    && |db.journal| <= 1
    && (db.journal != [] ==>
          var e := db.journal[0];
          && (e.dirty <==> e.state.CommittedDirty?)
          && before <= |db.writes|
          && (|db.writes| > before ==> e.state.CommittedDirty?))
  }

  /** How one step may change the journal: not at all, by one state, or by repeating its own entry. */
  ghost predicate Forward(j: seq<Entry>, j': seq<Entry>) {
    && Rank(j) <= Rank(j') <= Rank(j) + 1
    && (j != [] ==> j' != [] && j'[|j'| - 1].epoch == j[|j| - 1].epoch)
    && (j != [] && Rank(j') == Rank(j) ==> j'[|j'| - 1].evidence == j[|j| - 1].evidence)
  }

  /** The number of writes when the journal appeared, as known after one more step. */
  function Baseline(db: Db, before: nat): nat {
    if db.journal == [] then |db.writes| else before
  }

  lemma StepKeepsInv(db: Db, self: int, op: Op, before: nat)
    requires Inv(db, before)
    ensures var db' := Step(db, self, op);
            Inv(db', Baseline(db, before)) && Forward(db.journal, db'.journal) && db.writes <= db'.writes
  {
  }

  ghost predicate ReachesFrom(j: seq<Entry>, j': seq<Entry>) {
    Rank(j) <= Rank(j') && (j != [] ==> j' != [] && j'[|j'| - 1].epoch == j[|j| - 1].epoch)
  }

  lemma {:induction false} RunKeepsBaseline(db: Db, self: int, ops: seq<Op>, before: nat) returns (baseline: nat)
    requires Inv(db, before)
    ensures Inv(Run(db, self, ops), baseline) && ReachesFrom(db.journal, Run(db, self, ops).journal)
    ensures db.journal != [] ==> baseline == before
    decreases |ops|
  {
    if ops == [] {
      baseline := before;
    } else {
      StepKeepsInv(db, self, ops[0], before);
      baseline := RunKeepsBaseline(Step(db, self, ops[0]), self, ops[1..], Baseline(db, before));
    }
  }

  lemma {:induction false} RunSplit(db: Db, self: int, ops: seq<Op>, k: nat)
    requires k <= |ops|
    ensures Run(db, self, ops) == Run(Run(db, self, ops[..k]), self, ops[k..])
    decreases k
  {
    if k > 0 {
      RunSplit(Step(db, self, ops[0]), self, ops[1..], k - 1);
      assert ops[..k][0] == ops[0] && ops[..k][1..] == ops[1..][..k - 1] && ops[1..][k - 1..] == ops[k..];
    } else {
      assert ops[..0] == [] && ops[0..] == ops;
    }
  }

  /** At the end of the run the last entry is dirty, in the last state, if anything was written after `ops[..k]`. */
  ghost predicate DirtyIfWritten(db: Db, self: int, ops: seq<Op>, k: nat)
    requires k <= |ops|
  {
    var mid, end := Run(db, self, ops[..k]), Run(db, self, ops);
    mid.journal != [] && |end.writes| > |mid.writes| ==>
      end.journal != [] && end.journal[|end.journal| - 1].dirty && end.journal[|end.journal| - 1].state.CommittedDirty?
  }

  lemma WritesMakeDirty(db: Db, self: int, ops: seq<Op>, before: nat, k: nat)
    requires Inv(db, before) && k <= |ops|
    ensures DirtyIfWritten(db, self, ops, k)
  {
    var mid := Run(db, self, ops[..k]);
    var _ := RunKeepsBaseline(db, self, ops[..k], before);
    RunSplit(db, self, ops, k);
    if mid.journal != [] {
      var _ := RunKeepsBaseline(mid, self, ops[k..], |mid.writes|);
    }
  }

  /**
   In every run: the state only moves up, the epoch never changes, dirty holds exactly in the
   last state, and any write after the journal has appeared makes it dirty.
   */
  lemma RunKeepsInv(db: Db, self: int, ops: seq<Op>, before: nat)
    requires Inv(db, before)
    ensures var end := Run(db, self, ops);
            |end.journal| <= 1 && ReachesFrom(db.journal, end.journal) &&
            (end.journal != [] ==> (end.journal[0].dirty <==> end.journal[0].state.CommittedDirty?))
    ensures forall k: nat :: k <= |ops| ==> DirtyIfWritten(db, self, ops, k)
  {
    var _ := RunKeepsBaseline(db, self, ops, before);
    forall k: nat | k <= |ops|
      ensures DirtyIfWritten(db, self, ops, k)
    {
      WritesMakeDirty(db, self, ops, before, k);
    }
  }

  /** States are never skipped: every state between two that a run passes through is passed through too. */
  lemma {:induction false} NoStateIsSkipped(db: Db, self: int, ops: seq<Op>, before: nat, rank: int) returns (k: nat)
    requires Inv(db, before) && Rank(db.journal) <= rank <= Rank(Run(db, self, ops).journal)
    ensures k <= |ops| && Rank(Run(db, self, ops[..k]).journal) == rank
    decreases |ops|
  {
    if Rank(db.journal) == rank {
      k := 0;
    } else {
      StepKeepsInv(db, self, ops[0], before);
      k := NoStateIsSkipped(Step(db, self, ops[0]), self, ops[1..], Baseline(db, before), rank);
      k := k + 1;
      assert ops[..k][0] == ops[0] && ops[..k][1..] == ops[1..][..k - 1];
    }
  }
}
