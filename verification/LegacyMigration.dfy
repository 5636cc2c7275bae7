/**
 Moving a legacy message store into the native database: a snapshot import, then batches of an
 ordered change log with a checkpoint, and the two search tables kept beside the messages.

 Each call runs in one transaction; `failsAt` names the statement, if any, that the database
 refuses, and a refused call leaves every table as it was. Tables hold one account's rows.
 */
module LegacyMigration {
  import opened WireFormat

  /** A message row: its content, and every other column as one value. */
  datatype Row = Row(columns: string, content: string)

  /** A row of the full-text table, and of its identity mirror. */
  datatype Search = Search(msgId: string, content: string, pinyin: string, initials: string)

  datatype Incoming = Incoming(owner: int, msgId: string, row: Row, pinyin: string, initials: string)

  datatype Entity = MessageEntity | ConversationEntity | OtherEntity
  datatype Operation = Upsert | Delete | OtherOperation
  datatype Payload = Payload(row: Row, pinyin: string, initials: string)

  /** `key` is the message id, or the decimal conversation id, parsed as `conversation` when it is one. */
  datatype Change = Change(owner: int, changeSeq: int, entity: Entity, operation: Operation, key: string,
                           conversation: Option<int>, payloadVersion: int, payload: Option<Payload>)

  datatype Tables = Tables(messages: map<string, Row>, fts: seq<Search>, identity: seq<Search>, checkpoints: map<int, int>)

  // ---- queries ----

  function Rows(table: seq<Search>, msgId: string): seq<Search> {
    if table == [] then []
    else
      var last := table[|table| - 1];
      Rows(table[..|table| - 1], msgId) + if last.msgId == msgId then [last] else []
  }

  /** `DELETE ... WHERE msg_id = ?` */
  function Without(table: seq<Search>, msgId: string): seq<Search> {
    if table == [] then []
    else
      var last := table[|table| - 1];
      Without(table[..|table| - 1], msgId) + if last.msgId == msgId then [] else [last]
  }

  function Entry(msgId: string, row: Row, pinyin: string, initials: string): seq<Search> {
    if row.content == "" then [] else [Search(msgId, row.content, pinyin, initials)]
  }

  // ---- the snapshot import ----

  function Imported(t: Tables, m: Incoming): Tables {
    if m.msgId in t.messages then t
    else
      var entry := Entry(m.msgId, m.row, m.pinyin, m.initials);
      t.(messages := t.messages[m.msgId := m.row], fts := t.fts + entry, identity := t.identity + entry)
  }

  /** A message is refused if it is malformed, or contradicts what is stored under its id. */
  predicate ImportFails(t: Tables, owner: int, m: Incoming) {
    || m.msgId == "" || m.owner != owner
    || (m.msgId in t.messages &&
        (t.messages[m.msgId] != m.row || Rows(t.identity, m.msgId) != Entry(m.msgId, m.row, m.pinyin, m.initials)))
    || (m.msgId !in t.messages && m.row.content != "" && Rows(t.identity, m.msgId) != [])
  }

  function ImportedAll(t: Tables, batch: seq<Incoming>): Tables {
    if batch == [] then t else Imported(ImportedAll(t, batch[..|batch| - 1]), batch[|batch| - 1])
  }

  ghost predicate ImportPasses(t: Tables, owner: int, batch: seq<Incoming>) {
    batch == [] ||
    (var init := batch[..|batch| - 1];
     ImportPasses(t, owner, init) && !ImportFails(ImportedAll(t, init), owner, batch[|batch| - 1]))
  }

  // ---- the change log ----

  predicate WellFormed(c: Change) {
    && !c.entity.OtherEntity? && !c.operation.OtherOperation? && c.key != ""
    && (c.operation.Upsert? ==> c.payloadVersion == 1 && c.payload.Some?)
    && (c.operation.Delete? ==> c.payloadVersion == 0 && c.payload.None?)
    && (c.entity.ConversationEntity? ==> c.conversation.Some? && c.conversation.value > 0)
  }

  /** A batch of this owner, well formed, with strictly increasing numbers after `after`. */
  ghost predicate BatchOk(owner: int, after: int, changes: seq<Change>) {
    && (forall i :: 0 <= i < |changes| ==> changes[i].owner == owner && WellFormed(changes[i]) && changes[i].changeSeq > after)
    && (forall i, j :: 0 <= i < j < |changes| ==> changes[i].changeSeq < changes[j].changeSeq)
  }

  function Applied(t: Tables, c: Change): Tables {
    if !c.entity.MessageEntity? then t
    else
      var fts, identity := Without(t.fts, c.key), Without(t.identity, c.key);
      if c.payload.None? then t.(messages := t.messages - {c.key}, fts := fts, identity := identity)
      else
        var p := c.payload.value;
        var entry := Entry(c.key, p.row, p.pinyin, p.initials);
        t.(messages := t.messages[c.key := p.row], fts := fts + entry, identity := identity + entry)
  }

  function AppliedAll(t: Tables, changes: seq<Change>): Tables {
    if changes == [] then t else Applied(AppliedAll(t, changes[..|changes| - 1]), changes[|changes| - 1])
  }

  function Checkpoint(t: Tables, epoch: int): int {
    if epoch in t.checkpoints then t.checkpoints[epoch] else 0
  }

  datatype Outcome = Refused | Replayed(current: int) | Committed(checkpoint: int)

  function LastSeq(changes: seq<Change>, after: int): int {
    if changes == [] then after else changes[|changes| - 1].changeSeq
  }

  /** What a delta batch does when no statement fails. */
  ghost function BatchOutcome(t: Tables, owner: int, epoch: int, after: int, changes: seq<Change>): Outcome {
    var current := Checkpoint(t, epoch);
    if owner <= 0 || epoch <= 0 || after < 0 || !BatchOk(owner, after, changes) then Refused
    else if changes != [] && after < current && LastSeq(changes, after) <= current then Replayed(current)
    else if current != after then Refused
    else if changes == [] then Replayed(current)
    else Committed(LastSeq(changes, after))
  }

  function AfterBatch(t: Tables, epoch: int, changes: seq<Change>, o: Outcome): Tables {
    if o.Committed? then
      var t' := AppliedAll(t, changes);
      t'.(checkpoints := t'.checkpoints[epoch := o.checkpoint])
    else t
  }

  class MigrationImporter {
    var messages: map<string, Row>
    var fts: seq<Search>
    var identity: seq<Search>
    var checkpoints: map<int, int>

    function View(): Tables
      reads this
    {
      Tables(messages, fts, identity, checkpoints)
    }

    method Restore(t: Tables)
      modifies this
      ensures View() == t
    {
      messages, fts, identity, checkpoints := t.messages, t.fts, t.identity, t.checkpoints;
    }

    method ImportBatch(owner: int, batch: seq<Incoming>, failsAt: int) returns (ok: bool)
      modifies this
      ensures ok ==> ImportPasses(old(View()), owner, batch) && View() == ImportedAll(old(View()), batch)
      ensures !ok ==> View() == old(View())
      ensures !(0 <= failsAt < |batch|) && ImportPasses(old(View()), owner, batch) ==> ok
    {
      var start := View();
      for i := 0 to |batch|
        invariant ImportPasses(start, owner, batch[..i]) && View() == ImportedAll(start, batch[..i])
        invariant !(0 <= failsAt < i)
      {
        var m := batch[i];
        assert batch[..i + 1][..i] == batch[..i];
        if failsAt == i || m.msgId == "" || m.owner != owner {
          ImportStops(start, owner, batch, i);
          Restore(start);
          return false;
        }
        var entry := Entry(m.msgId, m.row, m.pinyin, m.initials);
        if m.msgId in messages {
          if messages[m.msgId] != m.row || Rows(identity, m.msgId) != entry {
            ImportStops(start, owner, batch, i);
            Restore(start);
            return false;
          }
        } else {
          if entry != [] && Rows(identity, m.msgId) != [] {
            ImportStops(start, owner, batch, i);
            Restore(start);
            return false;
          }
          messages := messages[m.msgId := m.row];
          fts := fts + entry;
          identity := identity + entry;
        }
      }
      assert batch[..|batch|] == batch;
      return true;
    }

    method SeedLegacyDeltaCheckpoint(epoch: int, baseline: int, updatedAt: int, insertFails: bool) returns (ok: bool)
      modifies this`checkpoints
      ensures ok <==> epoch > 0 && baseline >= 0 && updatedAt > 0 &&
                      if epoch in old(checkpoints) then old(checkpoints)[epoch] == baseline else !insertFails
      ensures checkpoints == if ok && epoch !in old(checkpoints) then old(checkpoints)[epoch := baseline] else old(checkpoints)
    {
      if epoch <= 0 || baseline < 0 || updatedAt <= 0 {
        return false;
      }
      if epoch in checkpoints {
        return checkpoints[epoch] == baseline;
      }
      if insertFails {
        return false;
      }
      checkpoints := checkpoints[epoch := baseline];
      return true;
    }

    method ApplyLegacyDeltaBatch(owner: int, epoch: int, expectedAfter: int, changes: seq<Change>, failsAt: int)
      returns (ok: bool, committed: int)
      modifies this
      ensures var o := BatchOutcome(old(View()), owner, epoch, expectedAfter, changes);
              && (ok ==> !o.Refused? && View() == AfterBatch(old(View()), epoch, changes, o) && committed == Checkpoint(View(), epoch))
              && (!ok ==> View() == old(View()) && (o.Refused? || (o.Committed? && 0 <= failsAt <= |changes|)))
    {
      if owner <= 0 || epoch <= 0 || expectedAfter < 0 {
        return false, 0;
      }
      var current := Checkpoint(View(), epoch);
      var valid, prev := CheckBatch(owner, expectedAfter, changes);
      if !valid {
        return false, 0;
      }
      if changes != [] && expectedAfter < current && prev <= current {
        return true, current;
      }
      if current != expectedAfter {
        return false, 0;
      }
      if changes == [] {
        return true, current;
      }
      var start := View();
      for i := 0 to |changes|
        invariant View() == AppliedAll(start, changes[..i])
        invariant !(0 <= failsAt < i)
      {
        if failsAt == i {
          Restore(start);
          return false, 0;
        }
        assert changes[..i + 1][..i] == changes[..i];
        ApplyChange(changes[i]);
      }
      assert changes[..|changes|] == changes;
      if failsAt == |changes| {
        Restore(start);
        return false, 0;
      }
      checkpoints := checkpoints[epoch := prev];
      return true, prev;
    }

    method CheckBatch(owner: int, after: int, changes: seq<Change>) returns (valid: bool, prev: int)
      ensures valid == BatchOk(owner, after, changes)
      ensures valid ==> prev == LastSeq(changes, after)
    {
      prev := after;
      for i := 0 to |changes|
        invariant BatchOk(owner, after, changes[..i]) && prev == LastSeq(changes[..i], after) >= after
        invariant forall j :: 0 <= j < i ==> changes[j].changeSeq <= prev
      {
        var c := changes[i];
        if c.owner != owner || c.changeSeq <= prev || !WellFormed(c) {
          assert i > 0 ==> changes[i - 1].changeSeq == prev;
          return false, prev;
        }
        prev := c.changeSeq;
      }
      assert changes[..|changes|] == changes;
      return true, prev;
    }

    /** The old search rows go first, then the row is deleted or written with fresh search rows. */
    method ApplyChange(c: Change)
      requires WellFormed(c)
      modifies this`messages, this`fts, this`identity
      ensures View() == Applied(old(View()), c)
    {
      if c.entity.MessageEntity? {
        fts := Without(fts, c.key);
        identity := Without(identity, c.key);
        if c.operation.Delete? {
          messages := messages - {c.key};
        } else {
          var p := c.payload.value;
          messages := messages[c.key := p.row];
          if p.row.content != "" {
            fts := fts + [Search(c.key, p.row.content, p.pinyin, p.initials)];
            identity := identity + [Search(c.key, p.row.content, p.pinyin, p.initials)];
          }
        }
      }
    }
  }

  lemma {:induction false} ImportStops(t: Tables, owner: int, batch: seq<Incoming>, i: nat)
    requires i < |batch|
    ensures ImportFails(ImportedAll(t, batch[..i]), owner, batch[i]) ==> !ImportPasses(t, owner, batch)
    decreases |batch|
  {
    var init := batch[..|batch| - 1];
    if i < |init| {
      ImportStops(t, owner, init, i);
      assert init[..i] == batch[..i];
    }
  }

  // ---- what a log of changes means ----

  /** The last change of a log to the message `msgId`. */
  function LastChange(changes: seq<Change>, msgId: string): Option<Change> {
    if changes == [] then None
    else
      var c := changes[|changes| - 1];
      if c.entity.MessageEntity? && c.key == msgId then Some(c) else LastChange(changes[..|changes| - 1], msgId)
  }

  /** After a log each message is as its last change left it, and as it was if the log does not name it. */
  lemma {:induction false} LogMeaning(t: Tables, changes: seq<Change>, msgId: string)
    ensures var c, m := LastChange(changes, msgId), AppliedAll(t, changes).messages;
            if c.None? then (msgId in m <==> msgId in t.messages) && (msgId in m ==> m[msgId] == t.messages[msgId])
            else if c.value.payload.None? then msgId !in m
            else msgId in m && m[msgId] == c.value.payload.value.row
  {
    if changes != [] {
      LogMeaning(t, changes[..|changes| - 1], msgId);
    }
  }

  lemma {:induction false} AppliedAppend(t: Tables, a: seq<Change>, b: seq<Change>)
    ensures AppliedAll(t, a + b) == AppliedAll(AppliedAll(t, a), b)
  {
    if b == [] {
      assert a + b == a;
    } else {
      var init := b[..|b| - 1];
      AppliedAppend(t, a, init);
      assert (a + b)[..|a + b| - 1] == a + init;
    }
  }

  lemma {:induction false} AppliedKeepsCheckpoints(t: Tables, changes: seq<Change>, other: map<int, int>)
    ensures AppliedAll(t, changes).checkpoints == t.checkpoints
    ensures AppliedAll(t.(checkpoints := other), changes) == AppliedAll(t, changes).(checkpoints := other)
  {
    if changes != [] {
      AppliedKeepsCheckpoints(t, changes[..|changes| - 1], other);
    }
  }

  // ---- runs of batches cut from one log ----

  ghost predicate Ordered(log: seq<Change>) {
    forall i, j :: 0 <= i < j < |log| ==> log[i].changeSeq < log[j].changeSeq
  }

  /** The changes numbered above `a` and up to `b`. */
  function Between(log: seq<Change>, a: int, b: int): seq<Change> {
    if log == [] then []
    else
      var c := log[|log| - 1];
      Between(log[..|log| - 1], a, b) + if a < c.changeSeq <= b then [c] else []
  }

  /** One call: the batch was cut from the log behind `after`; `failed` says whether a statement failed. */
  datatype Call = Call(after: int, changes: seq<Change>, failed: bool)

  ghost predicate CutFrom(log: seq<Change>, call: Call) {
    call.changes == Between(log, call.after, LastSeq(call.changes, call.after))
  }

  ghost function Next(t: Tables, owner: int, epoch: int, call: Call): Tables {
    var o := BatchOutcome(t, owner, epoch, call.after, call.changes);
    if call.failed then t else AfterBatch(t, epoch, call.changes, o)
  }

  ghost function Run(t: Tables, owner: int, epoch: int, calls: seq<Call>): Tables {
    if calls == [] then t else Next(Run(t, owner, epoch, calls[..|calls| - 1]), owner, epoch, calls[|calls| - 1])
  }

  lemma {:induction false} EmptyBetween(log: seq<Change>, a: int, b: int)
    requires forall i :: 0 <= i < |log| ==> !(a < log[i].changeSeq <= b)
    ensures Between(log, a, b) == []
  {
    if log != [] {
      EmptyBetween(log[..|log| - 1], a, b);
    }
  }

  lemma JoinSnoc(left: seq<Change>, right: seq<Change>, last: Change, inLeft: bool, inRight: bool)
    requires inLeft ==> right == [] && !inRight
    ensures (left + if inLeft then [last] else []) + (right + if inRight then [last] else []) ==
            left + right + if inLeft || inRight then [last] else []
  {
  }

  /** Neighbouring pieces of an ordered log join without a gap or an overlap. */
  lemma {:induction false} BetweenJoins(log: seq<Change>, a: int, b: int, c: int)
    requires Ordered(log) && a <= b <= c
    ensures Between(log, a, b) + Between(log, b, c) == Between(log, a, c)
  {
    if log != [] {
      var init, last := log[..|log| - 1], log[|log| - 1];
      BetweenJoins(init, a, b, c);
      var left, right := Between(init, a, b), Between(init, b, c);
      if a < last.changeSeq <= b {
        EmptyBetween(init, b, c);
      }
      JoinSnoc(left, right, last, a < last.changeSeq <= b, b < last.changeSeq <= c);
    }
  }

  /** `t` is `base` with the log applied up to its checkpoint. */
  ghost predicate AtCheckpoint(t: Tables, base: Tables, epoch: int, log: seq<Change>) {
    var start, cp := Checkpoint(base, epoch), Checkpoint(t, epoch);
    start <= cp && t == AppliedAll(base, Between(log, start, cp)).(checkpoints := t.checkpoints)
  }

  lemma StepAtCheckpoint(t: Tables, base: Tables, owner: int, epoch: int, log: seq<Change>, call: Call)
    requires Ordered(log) && CutFrom(log, call) && AtCheckpoint(t, base, epoch, log)
    ensures AtCheckpoint(Next(t, owner, epoch, call), base, epoch, log)
  {
    var o := BatchOutcome(t, owner, epoch, call.after, call.changes);
    if !call.failed && o.Committed? {
      var start, cp := Checkpoint(base, epoch), Checkpoint(t, epoch);
      var before := Between(log, start, cp);
      BetweenJoins(log, start, cp, o.checkpoint);
      AppliedAppend(base, before, call.changes);
      AppliedKeepsCheckpoints(AppliedAll(base, before), call.changes, t.checkpoints);
    }
  }

  /**
   Whatever the order of batches, replays, mismatches and failures: the tables are the baseline
   with exactly the changes up to the checkpoint applied, each once and in order.
   */
  lemma {:induction false} RunAtCheckpoint(base: Tables, owner: int, epoch: int, log: seq<Change>, calls: seq<Call>)
    requires Ordered(log) && forall i :: 0 <= i < |calls| ==> CutFrom(log, calls[i])
    ensures AtCheckpoint(Run(base, owner, epoch, calls), base, epoch, log)
  {
    if calls == [] {
      var start := Checkpoint(base, epoch);
      EmptyBetween(log, start, start);
    } else {
      RunAtCheckpoint(base, owner, epoch, log, calls[..|calls| - 1]);
      StepAtCheckpoint(Run(base, owner, epoch, calls[..|calls| - 1]), base, owner, epoch, log, calls[|calls| - 1]);
    }
  }

  // ---- the search tables ----

  /** One row in each search table, matching the message, if it has content; none otherwise. */
  predicate SearchOkAt(t: Tables, msgId: string) {
    && Rows(t.identity, msgId) == Rows(t.fts, msgId)
    && if msgId in t.messages && t.messages[msgId].content != ""
       then |Rows(t.fts, msgId)| == 1 && Rows(t.fts, msgId)[0].content == t.messages[msgId].content
       else Rows(t.fts, msgId) == []
  }

  ghost predicate SearchOk(t: Tables) {
    forall msgId :: SearchOkAt(t, msgId)
  }

  lemma {:induction false} RowsAppend(a: seq<Search>, b: seq<Search>, msgId: string)
    ensures Rows(a + b, msgId) == Rows(a, msgId) + Rows(b, msgId)
  {
    if b == [] {
      assert a + b == a;
    } else {
      RowsAppend(a, b[..|b| - 1], msgId);
      assert (a + b)[..|a + b| - 1] == a + b[..|b| - 1];
    }
  }

  lemma {:induction false} RowsWithout(table: seq<Search>, gone: string, msgId: string)
    ensures Rows(Without(table, gone), msgId) == if msgId == gone then [] else Rows(table, msgId)
  {
    if table != [] {
      var init, last := table[..|table| - 1], table[|table| - 1];
      RowsWithout(init, gone, msgId);
      RowsAppend(Without(init, gone), if last.msgId == gone then [] else [last], msgId);
    }
  }

  lemma ImportKeepsSearch(t: Tables, owner: int, m: Incoming)
    requires SearchOk(t) && !ImportFails(t, owner, m)
    ensures SearchOk(Imported(t, m))
  {
    if m.msgId !in t.messages {
      var entry := Entry(m.msgId, m.row, m.pinyin, m.initials);
      forall msgId
        ensures SearchOkAt(Imported(t, m), msgId)
      {
        assert SearchOkAt(t, msgId);
        RowsAppend(t.fts, entry, msgId);
        RowsAppend(t.identity, entry, msgId);
      }
    }
  }

  function NewRows(c: Change): seq<Search> {
    if c.payload.None? then [] else Entry(c.key, c.payload.value.row, c.payload.value.pinyin, c.payload.value.initials)
  }

  lemma RowsReplaced(table: seq<Search>, c: Change, msgId: string)
    ensures Rows(Without(table, c.key) + NewRows(c), msgId) == if msgId == c.key then NewRows(c) else Rows(table, msgId)
  {
    RowsWithout(table, c.key, msgId);
    RowsAppend(Without(table, c.key), NewRows(c), msgId);
  }

  lemma ChangeKeepsSearch(t: Tables, c: Change)
    requires SearchOk(t)
    ensures SearchOk(Applied(t, c))
  {
    if c.entity.MessageEntity? {
      assert Applied(t, c).fts == Without(t.fts, c.key) + NewRows(c);
      assert Applied(t, c).identity == Without(t.identity, c.key) + NewRows(c);
      forall msgId
        ensures SearchOkAt(Applied(t, c), msgId)
      {
        assert SearchOkAt(t, msgId);
        RowsReplaced(t.fts, c, msgId);
        RowsReplaced(t.identity, c, msgId);
      }
    }
  }

  lemma {:induction false} BatchKeepsSearch(t: Tables, changes: seq<Change>)
    requires SearchOk(t)
    ensures SearchOk(AppliedAll(t, changes))
  {
    if changes != [] {
      BatchKeepsSearch(t, changes[..|changes| - 1]);
      ChangeKeepsSearch(AppliedAll(t, changes[..|changes| - 1]), changes[|changes| - 1]);
    }
  }

  lemma {:induction false} ImportBatchKeepsSearch(t: Tables, owner: int, batch: seq<Incoming>)
    requires SearchOk(t) && ImportPasses(t, owner, batch)
    ensures SearchOk(ImportedAll(t, batch))
  {
    if batch != [] {
      ImportBatchKeepsSearch(t, owner, batch[..|batch| - 1]);
      ImportKeepsSearch(ImportedAll(t, batch[..|batch| - 1]), owner, batch[|batch| - 1]);
    }
  }

  // ---- what stands in the search tables ----

  /** The one search row of a message with content; none without. */
  predicate Indexed(rows: seq<Search>, msgId: string, row: Row, pinyin: string, initials: string) {
    if row.content == "" then rows == []
    else |rows| == 1 && rows[0].msgId == msgId && rows[0].content == row.content && rows[0].pinyin == pinyin && rows[0].initials == initials
  }

  lemma OneChangeIndexes(t: Tables, c: Change, msgId: string)
    ensures var t' := Applied(t, c);
            if !c.entity.MessageEntity? || c.key != msgId then Rows(t'.fts, msgId) == Rows(t.fts, msgId) && Rows(t'.identity, msgId) == Rows(t.identity, msgId)
            else if c.payload.None? then Rows(t'.fts, msgId) == [] == Rows(t'.identity, msgId)
            else
              var p := c.payload.value;
              Indexed(Rows(t'.fts, msgId), msgId, p.row, p.pinyin, p.initials) && Indexed(Rows(t'.identity, msgId), msgId, p.row, p.pinyin, p.initials)
  {
    if c.entity.MessageEntity? {
      assert Applied(t, c).fts == Without(t.fts, c.key) + NewRows(c);
      assert Applied(t, c).identity == Without(t.identity, c.key) + NewRows(c);
      RowsReplaced(t.fts, c, msgId);
      RowsReplaced(t.identity, c, msgId);
    }
  }

  /**
   After a log both search tables have for each message what its last change carries: text, pinyin
   and initials of an upsert, nothing after a deletion, and what they had if the log does not name it.
   */
  lemma {:induction false} LogIndexes(t: Tables, changes: seq<Change>, msgId: string)
    ensures var c, t' := LastChange(changes, msgId), AppliedAll(t, changes);
            if c.None? then Rows(t'.fts, msgId) == Rows(t.fts, msgId) && Rows(t'.identity, msgId) == Rows(t.identity, msgId)
            else if c.value.payload.None? then Rows(t'.fts, msgId) == [] == Rows(t'.identity, msgId)
            else
              var p := c.value.payload.value;
              Indexed(Rows(t'.fts, msgId), msgId, p.row, p.pinyin, p.initials) && Indexed(Rows(t'.identity, msgId), msgId, p.row, p.pinyin, p.initials)
  {
    if changes != [] {
      var init, c := changes[..|changes| - 1], changes[|changes| - 1];
      LogIndexes(t, init, msgId);
      OneChangeIndexes(AppliedAll(t, init), c, msgId);
    }
  }

  lemma OneImportIndexes(t: Tables, owner: int, m: Incoming)
    requires SearchOk(t) && !ImportFails(t, owner, m)
    ensures var t' := Imported(t, m);
            && m.msgId in t'.messages && t'.messages[m.msgId] == m.row
            && Indexed(Rows(t'.fts, m.msgId), m.msgId, m.row, m.pinyin, m.initials)
            && Indexed(Rows(t'.identity, m.msgId), m.msgId, m.row, m.pinyin, m.initials)
  {
    assert SearchOkAt(t, m.msgId);
    if m.msgId !in t.messages {
      RowsAppend(t.fts, Entry(m.msgId, m.row, m.pinyin, m.initials), m.msgId);
      RowsAppend(t.identity, Entry(m.msgId, m.row, m.pinyin, m.initials), m.msgId);
    }
  }

  lemma OtherImportKeeps(t: Tables, m: Incoming, msgId: string)
    requires m.msgId != msgId || m.msgId in t.messages
    ensures var t' := Imported(t, m);
            && (msgId in t'.messages <==> msgId in t.messages) && (msgId in t.messages ==> t'.messages[msgId] == t.messages[msgId])
            && Rows(t'.fts, msgId) == Rows(t.fts, msgId) && Rows(t'.identity, msgId) == Rows(t.identity, msgId)
  {
    if m.msgId !in t.messages {
      RowsAppend(t.fts, Entry(m.msgId, m.row, m.pinyin, m.initials), msgId);
      RowsAppend(t.identity, Entry(m.msgId, m.row, m.pinyin, m.initials), msgId);
    }
  }

  /** After an import every message of it stands as it was sent, in the message table and in both search tables. */
  lemma {:induction false} ImportIndexes(t: Tables, owner: int, batch: seq<Incoming>, i: nat)
    requires SearchOk(t) && ImportPasses(t, owner, batch) && i < |batch|
    ensures var m, t' := batch[i], ImportedAll(t, batch);
            && m.msgId in t'.messages && t'.messages[m.msgId] == m.row
            && Indexed(Rows(t'.fts, m.msgId), m.msgId, m.row, m.pinyin, m.initials)
            && Indexed(Rows(t'.identity, m.msgId), m.msgId, m.row, m.pinyin, m.initials)
    decreases |batch|
  {
    var init, last := batch[..|batch| - 1], batch[|batch| - 1];
    ImportBatchKeepsSearch(t, owner, init);
    if i < |init| {
      ImportIndexes(t, owner, init, i);
      OtherImportKeeps(ImportedAll(t, init), last, batch[i].msgId);
    } else {
      OneImportIndexes(ImportedAll(t, init), owner, last);
    }
  }

  /** A message that is stored or was in the batch before is told again without contradiction. */
  predicate Importable(t: Tables, owner: int, batch: seq<Incoming>, i: nat)
    requires i < |batch|
  {
    var m := batch[i];
    && m.msgId != "" && m.owner == owner
    && (m.msgId in t.messages ==> t.messages[m.msgId] == m.row && Indexed(Rows(t.identity, m.msgId), m.msgId, m.row, m.pinyin, m.initials))
    && (m.msgId !in t.messages ==> forall j :: 0 <= j < i && batch[j].msgId == m.msgId ==> SameMessage(batch[j], m))
  }

  predicate SameMessage(a: Incoming, b: Incoming) {
    a.row == b.row && (a.row.content != "" ==> a.pinyin == b.pinyin && a.initials == b.initials)
  }

  lemma {:induction false} ImportKeepsStored(t: Tables, batch: seq<Incoming>, msgId: string)
    requires msgId in t.messages || forall i :: 0 <= i < |batch| ==> batch[i].msgId != msgId
    ensures var t' := ImportedAll(t, batch);
            && (msgId in t'.messages <==> msgId in t.messages) && (msgId in t.messages ==> t'.messages[msgId] == t.messages[msgId])
            && Rows(t'.identity, msgId) == Rows(t.identity, msgId)
  {
    if batch != [] {
      ImportKeepsStored(t, batch[..|batch| - 1], msgId);
      OtherImportKeeps(ImportedAll(t, batch[..|batch| - 1]), batch[|batch| - 1], msgId);
    }
  }

  lemma LastImportable(t: Tables, owner: int, init: seq<Incoming>, m: Incoming)
    requires SearchOk(t) && ImportPasses(t, owner, init)
    ensures ImportFails(ImportedAll(t, init), owner, m) <==> !Importable(t, owner, init + [m], |init|)
  {
    var t', id := ImportedAll(t, init), m.msgId;
    ImportBatchKeepsSearch(t, owner, init);
    assert SearchOkAt(t', id);
    if id in t.messages || forall i :: 0 <= i < |init| ==> init[i].msgId != id {
      ImportKeepsStored(t, init, id);
    } else {
      var i :| 0 <= i < |init| && init[i].msgId == id;
      forall j | 0 <= j < |init| && init[j].msgId == id
        ensures SameMessage(init[j], init[i])
      {
        ImportIndexes(t, owner, init, i);
        ImportIndexes(t, owner, init, j);
      }
      ImportIndexes(t, owner, init, i);
      assert (init + [m])[i] == init[i];
    }
  }

  /** An import passes if and only if each of its messages can be told without contradiction. */
  lemma {:induction false} ImportPassesIff(t: Tables, owner: int, batch: seq<Incoming>)
    requires SearchOk(t)
    ensures ImportPasses(t, owner, batch) <==> forall i :: 0 <= i < |batch| ==> Importable(t, owner, batch, i)
  {
    if batch != [] {
      var init, m := batch[..|batch| - 1], batch[|batch| - 1];
      ImportPassesIff(t, owner, init);
      forall i | 0 <= i < |init|
        ensures Importable(t, owner, init, i) <==> Importable(t, owner, batch, i)
      {
        assert forall j :: 0 <= j <= i ==> init[j] == batch[j];
      }
      if ImportPasses(t, owner, init) {
        LastImportable(t, owner, init, m);
        assert init + [m] == batch;
      }
    }
  }

  /** In every run of delta batches over consistent tables the search tables stay consistent. */
  lemma {:induction false} RunKeepsSearch(base: Tables, owner: int, epoch: int, calls: seq<Call>)
    requires SearchOk(base)
    ensures SearchOk(Run(base, owner, epoch, calls))
  {
    if calls != [] {
      var t, call := Run(base, owner, epoch, calls[..|calls| - 1]), calls[|calls| - 1];
      RunKeepsSearch(base, owner, epoch, calls[..|calls| - 1]);
      BatchKeepsSearch(t, call.changes);
      var t' := Next(t, owner, epoch, call);
      forall msgId
        ensures SearchOkAt(t', msgId)
      {
        assert SearchOkAt(t, msgId) && SearchOkAt(AppliedAll(t, call.changes), msgId);
      }
    }
  }

  /** Importing a snapshot a second time changes nothing. */
  lemma ImportIsIdempotent(t: Tables, batch: seq<Incoming>)
    ensures forall i :: 0 <= i < |batch| ==> batch[i].msgId in ImportedAll(t, batch).messages
    ensures forall msgId :: msgId in t.messages ==>
              msgId in ImportedAll(t, batch).messages && ImportedAll(t, batch).messages[msgId] == t.messages[msgId]
    ensures ImportedAll(ImportedAll(t, batch), batch) == ImportedAll(t, batch)
  {
    ImportKeeps(t, batch);
    AllPresent(ImportedAll(t, batch), batch);
  }

  lemma {:induction false} ImportKeeps(t: Tables, batch: seq<Incoming>)
    ensures forall i :: 0 <= i < |batch| ==> batch[i].msgId in ImportedAll(t, batch).messages
    ensures forall msgId :: msgId in t.messages ==>
              msgId in ImportedAll(t, batch).messages && ImportedAll(t, batch).messages[msgId] == t.messages[msgId]
  {
    if batch != [] {
      ImportKeeps(t, batch[..|batch| - 1]);
    }
  }

  lemma {:induction false} AllPresent(t: Tables, batch: seq<Incoming>)
    requires forall i :: 0 <= i < |batch| ==> batch[i].msgId in t.messages
    ensures ImportedAll(t, batch) == t
  {
    if batch != [] {
      AllPresent(t, batch[..|batch| - 1]);
    }
  }

  // ---- what a batch is answered ----

  /** A change of this owner that can be carried out: to a message or a conversation, with a payload exactly if it writes one. */
  predicate Sensible(c: Change, owner: int) {
    && c.owner == owner && c.key != "" && (c.entity.MessageEntity? || (c.entity.ConversationEntity? && c.conversation.Some? && c.conversation.value > 0))
    && match c.operation
       case Upsert => c.payloadVersion == 1 && c.payload.Some?
       case Delete => c.payloadVersion == 0 && c.payload.None?
       case OtherOperation => false
  }

  /** The changes are sensible and numbered upwards from above `after`. */
  ghost predicate Numbered(changes: seq<Change>, owner: int, after: int) {
    && (forall i :: 0 <= i < |changes| ==> Sensible(changes[i], owner) && after < changes[i].changeSeq)
    && (forall i, j :: 0 <= i < j < |changes| ==> changes[i].changeSeq < changes[j].changeSeq)
  }

  lemma BatchOkMeaning(owner: int, after: int, changes: seq<Change>)
    ensures BatchOk(owner, after, changes) <==> Numbered(changes, owner, after)
  {
    if BatchOk(owner, after, changes) {
      forall i | 0 <= i < |changes|
        ensures Sensible(changes[i], owner) && after < changes[i].changeSeq
      {
        assert changes[i].owner == owner && WellFormed(changes[i]);
      }
    } else if Numbered(changes, owner, after) {
      forall i | 0 <= i < |changes|
        ensures changes[i].owner == owner && WellFormed(changes[i]) && changes[i].changeSeq > after
      {
        assert Sensible(changes[i], owner);
      }
    }
  }

  /**
   A batch is carried out if it continues exactly at the checkpoint, 0 for a new epoch; it is told to
   be done already if it lies wholly at or below the checkpoint; everything else is refused.
   */
  lemma BatchAnswer(t: Tables, owner: int, epoch: int, after: int, changes: seq<Change>)
    ensures var o, current := BatchOutcome(t, owner, epoch, after, changes), if epoch in t.checkpoints then t.checkpoints[epoch] else 0;
            var fine := owner > 0 && epoch > 0 && after >= 0 && Numbered(changes, owner, after);
            && (o.Committed? <==> fine && changes != [] && after == current)
            && (o.Replayed? <==> fine && if changes == [] then after == current
                                         else after < current && changes[|changes| - 1].changeSeq <= current)
            && (o.Committed? ==> o.checkpoint == changes[|changes| - 1].changeSeq) && (o.Replayed? ==> o.current == current)
  {
    BatchOkMeaning(owner, after, changes);
  }

  /** What a batch that is carried out leaves of the checkpoints. */
  lemma BatchMovesCheckpoint(t: Tables, epoch: int, changes: seq<Change>, o: Outcome)
    ensures AfterBatch(t, epoch, changes, o).checkpoints == if o.Committed? then t.checkpoints[epoch := o.checkpoint] else t.checkpoints
    ensures !o.Committed? ==> AfterBatch(t, epoch, changes, o) == t
  {
    AppliedKeepsCheckpoints(t, changes, t.checkpoints);
  }
}
