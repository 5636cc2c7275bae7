/**
 The server's message table: idempotent saving with a sequence number per conversation,
 and the history pages cut from it.

 Rows are kept in insertion order (the table's autoincrement id). All writes run on one
 writer thread, so a save is one atomic step that commits or rolls back.
 */
module MessageStore {
  import opened WireFormat

  const INT64_MAX: int := 0x7fff_ffff_ffff_ffff
  const INT32_MAX: int := 0x7fff_ffff

  datatype Message = Message(msgId: string, sender: int, receiver: int, kind: int, content: string)
  datatype Stored = Stored(message: Message, conversation: int, seqNo: nat)
  datatype Page = Page(rows: seq<Stored>, hasMore: bool, minSeq: nat)

  // ---- conversations ----

  /** The smaller account id in the high half, the larger in the low half; 0 if either is invalid. */
  function ConversationId(a: int, b: int): int {
    if a <= 0 || b <= 0 then 0
    else (if a < b then a else b) * 0x1_0000_0000 + (if a > b then a else b)
  }

  predicate Account(id: int) {
    0 < id <= INT32_MAX
  }

  /** Both accounts can be read off: the smaller in the high half. */
  lemma ConversationNamesBoth(a: int, b: int)
    requires a <= 2147483647 && b <= 2147483647
    ensures ConversationId(a, b) != 0 <==> a > 0 && b > 0
    ensures a > 0 && b > 0 ==>
              ConversationId(a, b) / 4294967296 == (if a <= b then a else b) && ConversationId(a, b) % 4294967296 == (if a <= b then b else a)
  {
  }

  /** Both ends name the same conversation, and no other pair of accounts shares it. */
  lemma ConversationIdentifiesPair(a: int, b: int, c: int, d: int)
    requires Account(a) && Account(b) && Account(c) && Account(d)
    ensures ConversationId(a, b) == ConversationId(c, d) <==> (a == c && b == d) || (a == d && b == c)
  {
    var lo, hi := if a < b then a else b, if a > b then a else b;
    var lo', hi' := if c < d then c else d, if c > d then c else d;
    assert ConversationId(a, b) == lo * 0x1_0000_0000 + hi && ConversationId(c, d) == lo' * 0x1_0000_0000 + hi';
    if lo * 0x1_0000_0000 + hi == lo' * 0x1_0000_0000 + hi' {
      assert lo == lo' && hi == hi';
    }
  }

  // ---- queries ----

  function Find(table: seq<Stored>, msgId: string): Option<Stored> {
    if table == [] then None
    else if table[0].message.msgId == msgId then Some(table[0])
    else Find(table[1..], msgId)
  }

  lemma {:induction false} FindMeaning(table: seq<Stored>, msgId: string)
    ensures Find(table, msgId).None? <==> forall i :: 0 <= i < |table| ==> table[i].message.msgId != msgId
    ensures Find(table, msgId).Some? ==> Find(table, msgId).value in table && Find(table, msgId).value.message.msgId == msgId
  {
    if table != [] && table[0].message.msgId != msgId {
      FindMeaning(table[1..], msgId);
      assert forall i :: 1 <= i < |table| ==> table[i] == table[1..][i - 1];
    }
  }

  function MaxSeq(table: seq<Stored>, conversation: int): nat {
    if table == [] then 0
    else
      var last := table[|table| - 1];
      var m := MaxSeq(table[..|table| - 1], conversation);
      if last.conversation == conversation && last.seqNo > m then last.seqNo else m
  }

  function Count(table: seq<Stored>, conversation: int): nat {
    if table == [] then 0
    else Count(table[..|table| - 1], conversation) +
         if table[|table| - 1].conversation == conversation then 1 else 0
  }

  /** Every row carries the position of its message within its conversation; ids are unique. */
  ghost predicate WellNumbered(table: seq<Stored>) {
    && (forall i :: 0 <= i < |table| ==> table[i].seqNo == Count(table[..i], table[i].conversation) + 1)
    && (forall i, j :: 0 <= i < j < |table| ==> table[i].message.msgId != table[j].message.msgId)
  }

  // ---- saving ----

  function NewRow(table: seq<Stored>, m: Message): Stored {
    var conversation := ConversationId(m.sender, m.receiver);
    Stored(m, conversation, MaxSeq(table, conversation) + 1)
  }

  /** The table after a save that did not fail. */
  function Saved(table: seq<Stored>, m: Message): seq<Stored> {
    if Find(table, m.msgId).Some? then table else table + [NewRow(table, m)]
  }

  class Database {
    var messages: seq<Stored>

    constructor ()
      ensures messages == []
    {
      messages := [];
    }

    /**
     One write task. `readFails`, `insertFails` and `commitFails` are the outcomes of the SQL
     statements; the commit of the read-only path is not checked. On failure nothing is kept.
     */
    method SaveMessage(m: Message, readFails: bool, insertFails: bool, commitFails: bool)
      returns (ok: bool, seqNo: nat)
      requires WellNumbered(messages)
      modifies this
      ensures WellNumbered(messages)
      ensures !ok ==> messages == old(messages)
      ensures ok ==> messages == Saved(old(messages), m)
      ensures ok ==> Find(messages, m.msgId).Some? && seqNo == Find(messages, m.msgId).value.seqNo
      ensures ok <==> !readFails && (Find(old(messages), m.msgId).Some? || (!insertFails && !commitFails))
    {
      var conversation := ConversationId(m.sender, m.receiver);
      if readFails {
        return false, 0;
      }
      var existing := Find(messages, m.msgId);
      if existing.Some? {
        return true, existing.value.seqNo;
      }
      seqNo := MaxSeq(messages, conversation) + 1;
      if insertFails || commitFails {
        return false, seqNo;
      }
      ghost var table := messages;
      SaveKeepsNumbering(table, m);
      FindNewest(table, NewRow(table, m));
      messages := messages + [Stored(m, conversation, seqNo)];
      assert messages == Saved(table, m);
      return true, seqNo;
    }

    /** The paging rule of the history handler. */
    method OnMessages(userId: int, peerId: int, before: int, wanted: int) returns (page: Page)
      ensures page == HistoryPage(messages, ConversationId(userId, peerId), Cursor(before), Clamp(wanted))
      ensures var limit := if wanted <= 0 then 20 else if wanted < 100 then wanted else 100;
              page.rows == Older(messages, ConversationId(userId, peerId), if before > 0 then before else 9223372036854775807, limit) &&
              (page.hasMore <==> |page.rows| == limit)
      ensures page.minSeq == if page.rows == [] then 0 else page.rows[|page.rows| - 1].seqNo
    {
      var beforeSeq := if before > 0 then before else INT64_MAX;
      var limit := if wanted > 0 then wanted else 20;
      if limit > 100 {
        limit := 100;
      }
      var rows := Older(messages, ConversationId(userId, peerId), beforeSeq, limit);
      page := Page(rows, |rows| == limit, if rows == [] then 0 else rows[|rows| - 1].seqNo);
    }
  }

  lemma {:induction false} FindNewest(table: seq<Stored>, row: Stored)
    requires Find(table, row.message.msgId).None?
    ensures Find(table + [row], row.message.msgId) == Some(row)
  {
    if table != [] {
      assert (table + [row])[1..] == table[1..] + [row];
      FindNewest(table[1..], row);
    }
  }

  /** Rows are never renumbered: a stored message is found unchanged in any longer table. */
  lemma {:induction false} FindIsStable(table: seq<Stored>, more: seq<Stored>, msgId: string)
    requires Find(table, msgId).Some?
    ensures Find(table + more, msgId) == Find(table, msgId)
  {
    assert (table + more)[0] == table[0];
    if table[0].message.msgId != msgId {
      assert (table + more)[1..] == table[1..] + more;
      FindIsStable(table[1..], more, msgId);
    }
  }

  lemma {:induction false} MaxSeqIsCount(table: seq<Stored>, conversation: int)
    requires WellNumbered(table)
    ensures MaxSeq(table, conversation) == Count(table, conversation)
  {
    if table != [] {
      var init := table[..|table| - 1];
      PrefixWellNumbered(table, |table| - 1);
      MaxSeqIsCount(init, conversation);
    }
  }

  lemma PrefixWellNumbered(table: seq<Stored>, n: nat)
    requires WellNumbered(table) && n <= |table|
    ensures WellNumbered(table[..n])
  {
    forall i | 0 <= i < n
      ensures table[..n][i].seqNo == Count(table[..n][..i], table[..n][i].conversation) + 1
    {
      assert table[..n][..i] == table[..i];
    }
  }

  lemma SaveKeepsNumbering(table: seq<Stored>, m: Message)
    requires WellNumbered(table)
    ensures WellNumbered(Saved(table, m))
  {
    if Find(table, m.msgId).None? {
      var row := NewRow(table, m);
      MaxSeqIsCount(table, row.conversation);
      FindMeaning(table, m.msgId);
      var longer := table + [row];
      forall i | 0 <= i < |longer|
        ensures longer[i].seqNo == Count(longer[..i], longer[i].conversation) + 1
      {
        assert longer[..i] == table[..i];
        assert i == |table| ==> table[..i] == table;
      }
    }
  }

  // ---- the numbers of a conversation are exactly 1..n ----

  lemma {:induction false} CountIsMonotone(table: seq<Stored>, n: nat, conversation: int)
    requires n <= |table|
    ensures Count(table[..n], conversation) <= Count(table, conversation)
    ensures n < |table| && table[n].conversation == conversation ==>
              Count(table[..n], conversation) < Count(table, conversation)
    decreases |table| - n
  {
    if n == |table| {
      assert table[..n] == table;
    } else {
      assert table[..n + 1][..n] == table[..n];
      CountIsMonotone(table, n + 1, conversation);
    }
  }

  lemma {:induction false} SeqExists(table: seq<Stored>, conversation: int, k: nat) returns (i: nat)
    requires WellNumbered(table) && 1 <= k <= Count(table, conversation)
    ensures i < |table| && table[i].conversation == conversation && table[i].seqNo == k
  {
    var last := |table| - 1;
    if table[last].conversation == conversation && Count(table[..last], conversation) + 1 == k {
      i := last;
    } else {
      PrefixWellNumbered(table, last);
      i := SeqExists(table[..last], conversation, k);
    }
  }

  /** In every conversation each of 1..n names one message, and no other number is used. */
  lemma SeqsAreExactlyOneToN(table: seq<Stored>, conversation: int, k: nat)
    requires WellNumbered(table)
    ensures (exists i :: 0 <= i < |table| && table[i].conversation == conversation && table[i].seqNo == k) <==>
            1 <= k <= Count(table, conversation)
    ensures forall i, j :: 0 <= i < j < |table| && table[i].conversation == table[j].conversation ==>
              table[i].seqNo < table[j].seqNo
  {
    if 1 <= k <= Count(table, conversation) {
      var i := SeqExists(table, conversation, k);
    }
    forall i | 0 <= i < |table|
      ensures table[i].conversation == conversation ==> 1 <= table[i].seqNo <= Count(table, conversation)
    {
      CountIsMonotone(table, i, conversation);
    }
    forall i, j | 0 <= i < j < |table| && table[i].conversation == table[j].conversation
      ensures table[i].seqNo < table[j].seqNo
    {
      assert table[..j][..i] == table[..i] && table[..j][i] == table[i];
      CountIsMonotone(table[..j], i, table[i].conversation);
    }
  }

  // ---- pages ----

  function Cursor(before: int): int {
    if before > 0 then before else INT64_MAX
  }

  function Clamp(wanted: int): (limit: nat)
    ensures 1 <= limit <= 100
  {
    if wanted <= 0 then 20 else if wanted > 100 then 100 else wanted
  }

  /** At most `limit` rows below the cursor, scanning from the newest row. */
  function Older(table: seq<Stored>, conversation: int, before: int, limit: nat): seq<Stored> {
    if table == [] || limit == 0 then []
    else
      var row, init := table[|table| - 1], table[..|table| - 1];
      if row.conversation == conversation && row.seqNo < before
      then [row] + Older(init, conversation, before, limit - 1)
      else Older(init, conversation, before, limit)
  }

  function HistoryPage(table: seq<Stored>, conversation: int, before: int, limit: nat): Page {
    var rows := Older(table, conversation, before, limit);
    Page(rows, |rows| == limit, if rows == [] then 0 else rows[|rows| - 1].seqNo)
  }

  /** The newest sequence number below the cursor. */
  function Top(table: seq<Stored>, conversation: int, before: int): nat {
    var n := Count(table, conversation);
    if before <= 0 then 0 else if before <= n then before - 1 else n
  }

  /** Rows whose numbers run downwards from `top` without a hole. */
  ghost predicate Descends(rows: seq<Stored>, table: seq<Stored>, conversation: int, top: nat) {
    |rows| <= top &&
    forall i :: 0 <= i < |rows| ==> rows[i] in table && rows[i].conversation == conversation && rows[i].seqNo == top - i
  }

  /** A page holds exactly the `limit` newest messages below the cursor, newest first. */
  lemma {:induction false} PageIsExact(table: seq<Stored>, conversation: int, before: int, limit: nat)
    requires WellNumbered(table)
    ensures var top, rows := Top(table, conversation, before), Older(table, conversation, before, limit);
            |rows| == (if limit < top then limit else top) && Descends(rows, table, conversation, top)
  {
    if table != [] && limit > 0 {
      var last := |table| - 1;
      var row, init := table[last], table[..last];
      PrefixWellNumbered(table, last);
      if row.conversation == conversation && row.seqNo < before {
        PageIsExact(init, conversation, before, limit - 1);
      } else {
        PageIsExact(init, conversation, before, limit);
      }
    }
  }

  /** Asking for page after page, each below the last message received, until has_more is false. */
  function History(table: seq<Stored>, conversation: int, before: int, limit: nat): seq<Stored>
    requires WellNumbered(table) && limit > 0
    decreases Top(table, conversation, before)
  {
    var page := HistoryPage(table, conversation, before, limit);
    PageIsExact(table, conversation, before, limit);
    if page.hasMore then page.rows + History(table, conversation, page.minSeq, limit) else page.rows
  }

  /** Paging visits every message below the cursor exactly once, newest first, and stops. */
  lemma {:induction false} HistoryIsComplete(table: seq<Stored>, conversation: int, before: int, limit: nat)
    requires WellNumbered(table) && limit > 0
    ensures var top, all := Top(table, conversation, before), History(table, conversation, before, limit);
            |all| == top && Descends(all, table, conversation, top)
    decreases Top(table, conversation, before)
  {
    var page := HistoryPage(table, conversation, before, limit);
    PageIsExact(table, conversation, before, limit);
    if page.hasMore {
      HistoryIsComplete(table, conversation, page.minSeq, limit);
    }
  }

  /** Messages that arrive while a client pages do not disturb the pages still to come. */
  lemma {:induction false} PageIgnoresNewer(table: seq<Stored>, m: Message, conversation: int, before: int, limit: nat)
    requires WellNumbered(table) && before <= Count(table, conversation) + 1
    ensures Older(Saved(table, m), conversation, before, limit) == Older(table, conversation, before, limit)
  {
    if Find(table, m.msgId).None? {
      var row := NewRow(table, m);
      MaxSeqIsCount(table, row.conversation);
      assert (table + [row])[..|table|] == table;
    }
  }
}
