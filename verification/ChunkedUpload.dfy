/**
 Resumable uploads: the server's session with its chunk records and temporary file, and the
 client's draft. Chunks may arrive in any order and any number of times.

 A chunk is recorded before its bytes are written, so a write that fails leaves a record without
 its bytes, and a retry is answered as a duplicate. `hash` is the digest both sides use.
 */
module ChunkedUpload {
  import opened WireFormat

  const MAX_SIZE: int := 0x6400000

  // ---- geometry, with chunks of 1 MiB ----

  function Offset(i: int): int {
    i * 0x10_0000
  }

  function ChunkCount(size: int): int {
    (size + 0xf_ffff) / 0x10_0000
  }

  function ChunkSize(size: int, i: int): int {
    if size - Offset(i) < 0x10_0000 then size - Offset(i) else 0x10_0000
  }

  /** The chunk a byte belongs to. */
  function IndexOf(p: nat): nat {
    p / 0x10_0000
  }

  /** The chunks partition the file: every byte is in exactly one, and no chunk is empty or out of range. */
  lemma ChunksPartition(size: int, p: nat, i: nat)
    requires 0 < size
    ensures 0 <= i < ChunkCount(size) ==> 0 < ChunkSize(size, i) && Offset(i) + ChunkSize(size, i) <= size
    ensures 0 <= i < ChunkCount(size) && p < size ==> (Offset(i) <= p < Offset(i) + ChunkSize(size, i) <==> i == IndexOf(p))
    ensures p < size ==> IndexOf(p) < ChunkCount(size)
    ensures Offset(ChunkCount(size) - 1) + ChunkSize(size, ChunkCount(size) - 1) == size
  {
  }

  function SourceChunk(source: seq<byte>, i: nat): seq<byte>
    requires i < ChunkCount(|source|)
  {
    ChunksPartition(|source|, 0, i);
    source[Offset(i)..Offset(i) + ChunkSize(|source|, i)]
  }

  // ---- the file ----

  function Extended(f: seq<byte>, n: nat): (r: seq<byte>)
    ensures |r| == if |f| < n then n else |f|
    ensures forall p :: 0 <= p < |r| ==> r[p] == if p < |f| then f[p] else 0
  {
    if |f| < n then f + seq(n - |f|, _ => 0) else f
  }

  /** Seeking and writing: a gap reads as zeros, bytes behind the data stay. */
  function WriteAt(f: seq<byte>, at: nat, data: seq<byte>): (r: seq<byte>)
    ensures |r| == if |f| < at + |data| then at + |data| else |f|
    ensures forall p :: 0 <= p < |r| ==> r[p] == if at <= p < at + |data| then data[p - at] else if p < |f| then f[p] else 0
  {
    var g := Extended(f, at + |data|);
    g[..at] + data + g[at + |data|..]
  }

  /**
   A write does all of its work, or fails behind its first `landed` bytes. If the file could not be
   opened for reading and writing it is opened for writing alone, which truncates it.
   */
  datatype Write = Whole(truncates: bool) | Broken(truncates: bool, landed: nat)

  function Landed(data: seq<byte>, w: Write): nat {
    if w.Whole? || w.landed > |data| then |data| else w.landed
  }

  function Written(f: seq<byte>, at: nat, data: seq<byte>, w: Write): seq<byte> {
    var g := if w.truncates then [] else f;
    if Landed(data, w) == 0 then g else WriteAt(g, at, data[..Landed(data, w)])
  }

  // ---- the session ----

  datatype SessionState = Open | Finalized | Cancelled
  datatype Session = Session(uploader: int, device: string, fileSize: int, sha: string, expiresAt: int,
                             state: SessionState, fileId: string, chunks: map<int, string>, tmp: seq<byte>)

  datatype StoreResult = Stored | Duplicate | Conflict | Rejected

  function Store(s: Session, index: int, sha: string, now: int): StoreResult {
    if !s.state.Open? || s.expiresAt < now then Rejected
    else if index in s.chunks then if s.chunks[index] == sha then Duplicate else Conflict
    else Stored
  }

  /** The checks of a chunk request in the order they are made; 200 when all pass. */
  function ChunkStatus(s: Session, user: int, device: string, index: int, declared: int, shaLength: nat, now: int): int {
    if s.uploader != user || s.device != device then 403
    else if s.state.Cancelled? then 410
    else if !s.state.Open? then 409
    else if s.expiresAt < now then 410
    else if index < 0 || index >= ChunkCount(s.fileSize) then 400
    else if declared != ChunkSize(s.fileSize, index) then 400
    else if shaLength != 64 then 400
    else 200
  }

  function WithChunk(s: Session, index: nat, sha: string, body: seq<byte>, w: Write): Session {
    s.(chunks := s.chunks[index := sha], tmp := Written(s.tmp, Offset(index), body, w))
  }

  /** The session after a chunk request that passed the checks and whose body matches. */
  function AfterChunk(s: Session, index: nat, sha: string, body: seq<byte>, now: int, w: Write): Session {
    if Store(s, index, sha, now).Stored? then WithChunk(s, index, sha, body, w) else s
  }

  /** A session lives for a day. */
  function NewSession(user: int, device: string, size: int, sha: string, now: int): Session {
    Session(user, device, size, sha, now + 86400, Open, "", map[], [])
  }

  function AfterCancel(s: Session): Session {
    if s.state.Open? then s.(state := Cancelled) else s
  }

  function AfterFinalize(s: Session, hash: seq<byte> -> string, fileId: string): Session {
    if s.state.Open? && Finalizable(s, hash) then s.(state := Finalized, fileId := fileId) else s
  }

  predicate Complete(s: Session) {
    |s.chunks| == ChunkCount(s.fileSize)
  }

  predicate Owns(s: Session, user: int, device: string) {
    s.uploader == user && s.device == device
  }

  /** A chunk of the right owner, place and length for an open session that has not expired. */
  predicate Welcome(s: Session, user: int, device: string, index: int, declared: int, sha: string, body: seq<byte>, now: int) {
    && Owns(s, user, device) && s.state.Open? && now <= s.expiresAt
    && 0 <= index && index * 1048576 < s.fileSize && |sha| == 64 && |body| == declared
    && (if (index + 1) * 1048576 <= s.fileSize then |body| == 1048576 else |body| == s.fileSize - index * 1048576)
  }

  class HttpFileServer {
    const hash: seq<byte> -> string
    var sessions: map<string, Session>

    constructor (hash: seq<byte> -> string)
      ensures this.hash == hash && sessions == map[]
    {
      this.hash, sessions := hash, map[];
    }

    /**
     `friend` is the friendship check, `instant` whether a proof of possession is asked for instead,
     `open` the session the database finds for the same file.
     */
    method HandleCreateUpload(user: int, device: string, name: string, friend: bool, instant: bool, size: int, sha: string,
                              open: Option<string>, newId: string, now: int, insertFails: bool) returns (status: int, id: string, received: set<int>)
      requires open.Some? ==> open.value in sessions && sessions[open.value].state.Open? &&
                              sessions[open.value].fileSize == size && sessions[open.value].sha == sha
      requires newId !in sessions
      modifies this
      ensures status == if name == "" || |name| > 255 || |sha| != 64 || size <= 0 || size > 100 * 1048576 then 400
                        else if !friend then 403
                        else if !instant && open.None? && insertFails then 500 else 200
      ensures status != 200 ==> sessions == old(sessions)
      ensures status == 200 && instant ==> id == "" && received == {} && sessions == old(sessions)
      ensures status == 200 && !instant ==>
                id in sessions && received == sessions[id].chunks.Keys && sessions[id].state.Open? &&
                sessions[id].fileSize == size && sessions[id].sha == sha
      ensures status == 200 && !instant && open.Some? ==> id == open.value && sessions == old(sessions)
      ensures status == 200 && !instant && open.None? ==>
                id == newId && sessions == old(sessions)[id := Session(user, device, size, sha, now + 86400, Open, "", map[], [])]
      ensures status == 200 && !instant && open.None? ==> sessions[id] == NewSession(user, device, size, sha, now)
    {
      if name == "" || |name| > 255 || |sha| != 64 || size <= 0 || size > MAX_SIZE {
        return 400, "", {};
      }
      if !friend {
        return 403, "", {};
      }
      if instant {
        return 200, "", {};
      }
      if open.Some? {
        return 200, open.value, sessions[open.value].chunks.Keys;
      }
      if insertFails {
        return 500, "", {};
      }
      sessions := sessions[newId := Session(user, device, size, sha, now + 86400, Open, "", map[], [])];
      return 200, newId, {};
    }

    method HandleUploadChunk(user: int, device: string, id: string, index: int, declared: int, sha: string,
                             body: seq<byte>, now: int, later: int, recordFails: bool, w: Write) returns (status: int)
      modifies this
      ensures id !in old(sessions) ==> status == 404 && sessions == old(sessions)
      ensures id in old(sessions) ==>
                var s := old(sessions)[id];
                var checked := ChunkStatus(s, user, device, index, declared, |sha|, now);
                if checked != 200 then status == checked && sessions == old(sessions)
                else if |body| != declared || hash(body) != sha then status == 400 && sessions == old(sessions)
                else if recordFails then status == 409 && sessions == old(sessions)
                else
                  && sessions == old(sessions)[id := AfterChunk(s, index, sha, body, later, w)]
                  && status == match Store(s, index, sha, later)
                               case Stored => if w.Whole? then 200 else 500
                               case Duplicate => 200
                               case _ => 409
      ensures status == 404 <==> id !in old(sessions)
      ensures status == 403 <==> id in old(sessions) && !Owns(old(sessions)[id], user, device)
      ensures status == 410 <==>
              id in old(sessions) && Owns(old(sessions)[id], user, device) &&
              (old(sessions)[id].state.Cancelled? || (old(sessions)[id].state.Open? && old(sessions)[id].expiresAt < now))
      ensures status == 200 <==>
              id in old(sessions) && Welcome(old(sessions)[id], user, device, index, declared, sha, body, now) && hash(body) == sha &&
              !recordFails && later <= old(sessions)[id].expiresAt &&
              if index in old(sessions)[id].chunks then old(sessions)[id].chunks[index] == sha else w.Whole?
      ensures status == 500 <==>
              id in old(sessions) && Welcome(old(sessions)[id], user, device, index, declared, sha, body, now) && hash(body) == sha &&
              !recordFails && later <= old(sessions)[id].expiresAt && index !in old(sessions)[id].chunks && w.Broken?
      ensures status == 409 <==>
              id in old(sessions) && Owns(old(sessions)[id], user, device) &&
              var s := old(sessions)[id];
              || s.state.Finalized?
              || (&& Welcome(s, user, device, index, declared, sha, body, now) && hash(body) == sha
                  && (recordFails || s.expiresAt < later || (index in s.chunks && s.chunks[index] != sha)))
      ensures status in {200, 400, 403, 404, 409, 410, 500}
      ensures sessions == if status in {200, 500} && index !in old(sessions)[id].chunks
                          then var s := old(sessions)[id];
                               old(sessions)[id := s.(chunks := s.chunks[index := sha], tmp := Written(s.tmp, index * 1048576, body, w))]
                          else old(sessions)
    {
      if id !in sessions {
        return 404;
      }
      var s := sessions[id];
      if s.uploader != user || s.device != device {
        return 403;
      }
      if s.state.Cancelled? {
        return 410;
      }
      if !s.state.Open? {
        return 409;
      }
      if s.expiresAt < now {
        return 410;
      }
      if index < 0 || index >= ChunkCount(s.fileSize) {
        return 400;
      }
      var expected := if 0x10_0000 < s.fileSize - index * 0x10_0000 then 0x10_0000 else s.fileSize - index * 0x10_0000;
      if declared != expected || |sha| != 64 {
        return 400;
      }
      if |body| != expected || hash(body) != sha {
        return 400;
      }
      var result := if recordFails then Rejected else Store(s, index, sha, later);
      if result.Conflict? || result.Rejected? {
        assert sessions[id := s] == sessions;
        return 409;
      }
      if result.Stored? {
        sessions := sessions[id := s.(chunks := s.chunks[index := sha])];
        sessions := sessions[id := sessions[id].(tmp := Written(s.tmp, index * 0x10_0000, body, w))];
        if w.Broken? {
          return 500;
        }
      }
      assert result.Duplicate? ==> sessions[id := s] == sessions;
      return 200;
    }

    /** `fileId` is derived from the upload id, so every retry names the same one. */
    method HandleFinalizeUpload(user: int, device: string, id: string, fileId: string) returns (status: int, result: string)
      modifies this
      ensures status == 200 <==>
              id in old(sessions) && old(sessions)[id].uploader == user && old(sessions)[id].device == device &&
              Finalizable(old(sessions)[id], hash)
      ensures status == 200 <==>
              id in old(sessions) && Owns(old(sessions)[id], user, device) &&
              (old(sessions)[id].state.Finalized? ||
               (old(sessions)[id].state.Open? && Full(old(sessions)[id]) && hash(old(sessions)[id].tmp) == old(sessions)[id].sha))
      ensures status != 200 ==>
              status == (if id !in old(sessions) then 404
                         else if old(sessions)[id].uploader != user || old(sessions)[id].device != device then 403
                         else if old(sessions)[id].state.Cancelled? then 410 else 409)
      ensures status == 200 ==>
                var s := old(sessions)[id];
                && result == (if s.state.Finalized? then s.fileId else fileId)
                && sessions == old(sessions)[id := s.(state := Finalized, fileId := result)]
      ensures status != 200 ==> sessions == old(sessions)
      ensures id in old(sessions) && Owns(old(sessions)[id], user, device) ==>
                id in sessions && sessions[id] == AfterFinalize(old(sessions)[id], hash, fileId)
    {
      if id !in sessions {
        return 404, "";
      }
      var s := sessions[id];
      if s.uploader != user || s.device != device {
        return 403, "";
      }
      if s.state.Cancelled? {
        return 410, "";
      }
      if s.state.Finalized? {
        assert sessions[id := s] == sessions;
        return 200, s.fileId;
      }
      if |s.chunks| != ChunkCount(s.fileSize) {
        return 409, "";
      }
      if |s.tmp| != s.fileSize || hash(s.tmp) != s.sha {
        return 409, "";
      }
      sessions := sessions[id := s.(state := Finalized, fileId := fileId)];
      return 200, fileId;
    }

    method CancelUpload(id: string)
      modifies this
      ensures sessions == if id in old(sessions) && old(sessions)[id].state.Open?
                          then old(sessions)[id := old(sessions)[id].(state := Cancelled)] else old(sessions)
      ensures id in old(sessions) ==> id in sessions && sessions[id] == AfterCancel(old(sessions)[id])
    {
      if id in sessions && sessions[id].state.Open? {
        sessions := sessions[id := sessions[id].(state := Cancelled)];
      }
    }
  }

  /** As many chunks as a file of this size has, and all its bytes. */
  predicate Full(s: Session) {
    (|s.chunks| - 1) * 1048576 < s.fileSize <= |s.chunks| * 1048576 && |s.tmp| == s.fileSize
  }

  predicate Finalizable(s: Session, hash: seq<byte> -> string) {
    s.state.Finalized? || (s.state.Open? && Complete(s) && |s.tmp| == s.fileSize && hash(s.tmp) == s.sha)
  }

  // ---- the client ----

  datatype DraftState = DraftPending | DraftUploading | DraftFinalized | DraftSent | DraftCancelled | DraftFailed
  datatype Draft = Draft(uploadId: string, chunkCount: int, done: seq<int>, state: DraftState)

  function DoneWith(done: seq<int>, index: int): seq<int> {
    if done == [] then [index]
    else if done[0] == index then done
    else if done[0] > index then [index] + done
    else [done[0]] + DoneWith(done[1..], index)
  }

  ghost predicate Sorted(done: seq<int>) {
    forall i, j :: 0 <= i < j < |done| ==> done[i] < done[j]
  }

  class MediaService {
    var draft: Draft

    constructor (draft: Draft)
      ensures this.draft == draft
    {
      this.draft := draft;
    }

    /** Reads chunk `index` of the local file; `readable` is the outcome of opening and reading it. */
    method ReadChunk(file: seq<byte>, index: int, readable: bool) returns (r: Option<seq<byte>>)
      requires 0 <= index
      ensures r == if index < ChunkCount(|file|) && readable then Some(SourceChunk(file, index)) else None
    {
      var offset := index * 0x10_0000;
      var size := if 0x10_0000 < |file| - offset then 0x10_0000 else |file| - offset;
      if size <= 0 || !readable {
        return None;
      }
      return Some(file[offset..offset + size]);
    }

    method MarkUploadChunkDone(index: int) returns (ok: bool)
      requires Sorted(draft.done)
      modifies this
      ensures ok <==> 0 <= index < old(draft).chunkCount && !old(draft).state.DraftSent? && !old(draft).state.DraftCancelled?
      ensures draft == if ok then old(draft).(done := DoneWith(old(draft).done, index)) else old(draft)
      ensures Sorted(draft.done)
    {
      if index < 0 || index >= draft.chunkCount || draft.state.DraftSent? || draft.state.DraftCancelled? {
        return false;
      }
      DoneStaysSorted(draft.done, index);
      var done := InsertDone(draft.done, index);
      draft := draft.(done := done);
      return true;
    }
  }

  method InsertDone(done: seq<int>, index: int) returns (r: seq<int>)
    requires Sorted(done)
    ensures r == DoneWith(done, index)
  {
    if index in done {
      AlreadyDone(done, index);
      return done;
    }
    var at := 0;
    while at < |done| && done[at] < index
      invariant 0 <= at <= |done|
      invariant done[..at] + DoneWith(done[at..], index) == DoneWith(done, index)
    {
      at := at + 1;
    }
    return done[..at] + [index] + done[at..];
  }

  lemma {:induction false} AlreadyDone(done: seq<int>, index: int)
    requires Sorted(done) && index in done
    ensures DoneWith(done, index) == done
  {
    if done[0] != index {
      AlreadyDone(done[1..], index);
    }
  }

  lemma {:induction false} DoneMembers(done: seq<int>, index: int, x: int)
    ensures x in DoneWith(done, index) <==> x in done || x == index
  {
    if done != [] && done[0] < index {
      DoneMembers(done[1..], index, x);
    }
  }

  lemma {:induction false} DoneStaysSorted(done: seq<int>, index: int)
    requires Sorted(done)
    ensures Sorted(DoneWith(done, index))
  {
    if done != [] && done[0] < index {
      DoneStaysSorted(done[1..], index);
      var rest := DoneWith(done[1..], index);
      forall j | 0 <= j < |rest|
        ensures done[0] < rest[j]
      {
        DoneMembers(done[1..], index, rest[j]);
      }
    }
  }

  // ---- counting ----

  /** `n` different numbers below `n` are all of them. */
  lemma {:induction false} Pigeonhole(s: set<int>, n: nat)
    requires forall x :: x in s ==> 0 <= x < n
    ensures |s| <= n && (|s| == n ==> forall x :: 0 <= x < n ==> x in s)
  {
    if n == 0 {
      assert forall x :: x !in s;
      assert s == {};
    } else {
      Pigeonhole(s - {n - 1}, n - 1);
      if n - 1 in s {
        assert s == s - {n - 1} + {n - 1};
      } else {
        assert s - {n - 1} == s;
      }
    }
  }

  lemma {:induction false} DistinctCount(done: seq<int>, n: nat)
    requires Sorted(done) && forall i :: 0 <= i < |done| ==> 0 <= done[i] < n
    ensures |done| <= n && (|done| == n ==> forall x :: 0 <= x < n ==> x in done)
  {
    var s := set x | x in done;
    SortedSize(done, s);
    Pigeonhole(s, n);
    assert forall x :: x in s <==> x in done;
  }

  lemma {:induction false} SortedSize(done: seq<int>, s: set<int>)
    requires Sorted(done) && s == set x | x in done
    ensures |s| == |done|
  {
    if done != [] {
      SortedSize(done[1..], s - {done[0]});
    }
  }

  // ---- the temporary file ----

  ghost predicate Shaped(s: Session, source: seq<byte>) {
    && s.fileSize == |source| > 0 && PartOf(s.tmp, source)
    && (forall i :: i in s.chunks ==> 0 <= i < ChunkCount(|source|))
  }

  predicate Right(tmp: seq<byte>, source: seq<byte>, p: nat)
    requires p < |source|
  {
    p < |tmp| && tmp[p] == source[p]
  }

  /** The file holds the source wherever a chunk was recorded. */
  ghost predicate Intact(s: Session, source: seq<byte>) {
    forall p: nat :: p < |source| && IndexOf(p) in s.chunks ==> Right(s.tmp, source, p)
  }

  /** Byte `p`, which chunk `i` did not bring, is nevertheless right after its write. */
  predicate Spared(s: Session, source: seq<byte>, i: nat, w: Write, p: nat)
    requires i < ChunkCount(|source|) && p < |source|
  {
    if w.truncates then p < Offset(i) && Landed(SourceChunk(source, i), w) > 0 && source[p] == 0 else Right(s.tmp, source, p)
  }

  /** The chunk is recorded, and a byte of it or of an earlier one is lost in the write and not spared by chance. */
  ghost predicate Harms(s: Session, source: seq<byte>, i: nat, sha: string, now: int, w: Write)
    requires i < ChunkCount(|source|)
  {
    Store(s, i, sha, now).Stored? &&
    exists p: nat :: p < |source| && (IndexOf(p) == i || IndexOf(p) in s.chunks) &&
      !(Offset(i) <= p < Offset(i) + Landed(SourceChunk(source, i), w)) && !Spared(s, source, i, w, p)
  }

  /** Nothing but bytes of the source, and zeros. */
  ghost predicate PartOf(f: seq<byte>, source: seq<byte>) {
    |f| <= |source| && forall p :: 0 <= p < |f| ==> f[p] == source[p] || f[p] == 0
  }

  lemma WriteStaysPart(f: seq<byte>, source: seq<byte>, at: nat, data: seq<byte>, w: Write)
    requires PartOf(f, source) && at + |data| <= |source| && data == source[at..at + |data|]
    ensures PartOf(Written(f, at, data, w), source)
  {
    var part := data[..Landed(data, w)];
    forall p | at <= p < at + |part|
      ensures part[p - at] == source[p]
    {
    }
  }

  lemma ChunkKeepsShape(s: Session, source: seq<byte>, i: nat, sha: string, now: int, w: Write)
    requires Shaped(s, source) && i < ChunkCount(|source|)
    ensures Shaped(AfterChunk(s, i, sha, SourceChunk(source, i), now, w), source)
  {
    ChunksPartition(|source|, 0, i);
    WriteStaysPart(s.tmp, source, Offset(i), SourceChunk(source, i), w);
  }

  lemma ByteWritten(f: seq<byte>, source: seq<byte>, at: nat, data: seq<byte>, w: Write, p: nat)
    requires p < |source| && at + |data| <= |source| && data == source[at..at + |data|]
    ensures var g, n := Written(f, at, data, w), Landed(data, w);
            if at <= p < at + n then Right(g, source, p)
            else if w.truncates then Right(g, source, p) <==> p < at && n > 0 && source[p] == 0
            else (Right(f, source, p) ==> Right(g, source, p)) && (at <= p ==> (Right(g, source, p) <==> Right(f, source, p)))
  {
  }

  /** What the file has after chunk `i` was written, byte by byte. */
  lemma ByteAfter(s: Session, source: seq<byte>, i: nat, sha: string, w: Write, p: nat)
    requires i < ChunkCount(|source|) && p < |source|
    ensures var chunk := SourceChunk(source, i);
            var tmp := WithChunk(s, i, sha, chunk, w).tmp;
            if Offset(i) <= p < Offset(i) + Landed(chunk, w) then Right(tmp, source, p)
            else (Spared(s, source, i, w, p) ==> Right(tmp, source, p)) &&
                 (w.truncates || Offset(i) <= p ==> (Right(tmp, source, p) <==> Spared(s, source, i, w, p)))
  {
    ChunksPartition(|source|, 0, i);
    ByteWritten(s.tmp, source, Offset(i), SourceChunk(source, i), w, p);
  }

  /** A chunk request leaves the file right at all recorded chunks, if and only if it does no harm. */
  lemma ChunkKeepsFile(s: Session, source: seq<byte>, i: nat, sha: string, now: int, w: Write)
    requires Shaped(s, source) && Intact(s, source) && i < ChunkCount(|source|)
    ensures Intact(AfterChunk(s, i, sha, SourceChunk(source, i), now, w), source) <==> !Harms(s, source, i, sha, now, w)
  {
    if Store(s, i, sha, now).Stored? {
      var s', chunk := WithChunk(s, i, sha, SourceChunk(source, i), w), SourceChunk(source, i);
      forall p: nat | p < |source| && IndexOf(p) in s'.chunks
        ensures Right(s'.tmp, source, p) <==> (Offset(i) <= p < Offset(i) + Landed(chunk, w)) || Spared(s, source, i, w, p)
      {
        ChunksPartition(|source|, p, i);
        ByteAfter(s, source, i, sha, w, p);
      }
    }
  }

  /** Once as many chunks are recorded as there are, the file is the source if and only if no byte was lost. */
  lemma CompleteMeansEqual(s: Session, source: seq<byte>)
    requires Shaped(s, source) && Complete(s)
    ensures s.tmp == source <==> Intact(s, source)
  {
    Pigeonhole(s.chunks.Keys, ChunkCount(|source|));
    if Intact(s, source) {
      forall p: nat | p < |source|
        ensures Right(s.tmp, source, p)
      {
        ChunksPartition(|source|, p, 0);
        assert IndexOf(p) in s.chunks;
      }
      assert Right(s.tmp, source, |source| - 1);
      forall p | 0 <= p < |source|
        ensures s.tmp[p] == source[p]
      {
        assert Right(s.tmp, source, p);
      }
      assert s.tmp == source;
    }
  }

  // ---- client and server together ----

  /** The file, the sessions the server has for it, and the client's draft. */
  datatype World = World(source: seq<byte>, sessions: map<string, Session>, draft: Draft)

  /**
   `Chunk` is a chunk request that reached the server, whether or not its response came back;
   `Mark` is a response or a listing that says the server has the chunk; `Collect` removes an
   expired session; `Adopt` starts the draft over on another session. Session ids are fresh.
   */
  datatype Action =
    | Create(id: string, user: int, device: string, now: int)
    | Chunk(id: string, index: nat, now: int, write: Write)
    | CancelSession(id: string)
    | Collect(id: string, now: int)
    | Adopt(id: string)
    | Mark(index: nat)
    | Finalize(fileId: string)

  ghost predicate Enabled(w: World, a: Action) {
    match a
    case Create(id, _, _, _) => id !in w.sessions && id != w.draft.uploadId
    case Chunk(id, index, _, _) => id in w.sessions && index < ChunkCount(|w.source|)
    case CancelSession(id) => id in w.sessions
    case Collect(id, now) => id in w.sessions && !w.sessions[id].state.Finalized? && w.sessions[id].expiresAt < now
    case Adopt(id) => id in w.sessions
    case Mark(index) => w.draft.uploadId in w.sessions && index in w.sessions[w.draft.uploadId].chunks
    case Finalize(_) => w.draft.uploadId in w.sessions && w.draft.state.DraftUploading? && |w.draft.done| == w.draft.chunkCount
  }

  ghost function Next(w: World, hash: seq<byte> -> string, a: Action): World
    requires Enabled(w, a)
  {
    match a
    case Create(id, user, device, now) =>
      w.(sessions := w.sessions[id := NewSession(user, device, |w.source|, hash(w.source), now)])
    case Chunk(id, index, now, write) =>
      var body := SourceChunk(w.source, index);
      w.(sessions := w.sessions[id := AfterChunk(w.sessions[id], index, hash(body), body, now, write)])
    case CancelSession(id) => w.(sessions := w.sessions[id := AfterCancel(w.sessions[id])])
    case Collect(id, _) => w.(sessions := w.sessions - {id})
    case Adopt(id) => w.(draft := Draft(id, ChunkCount(|w.source|), [], DraftUploading))
    case Mark(index) => w.(draft := w.draft.(done := DoneWith(w.draft.done, index)))
    case Finalize(fileId) =>
      w.(sessions := w.sessions[w.draft.uploadId := AfterFinalize(w.sessions[w.draft.uploadId], hash, fileId)])
  }

  ghost predicate Run(w: World, hash: seq<byte> -> string, actions: seq<Action>, end: World)
    decreases |actions|
  {
    if actions == [] then end == w
    else Enabled(w, actions[0]) && Run(Next(w, hash, actions[0]), hash, actions[1..], end)
  }

  ghost predicate SessionOk(s: Session, source: seq<byte>, hash: seq<byte> -> string) {
    Shaped(s, source) && s.sha == hash(source)
  }

  /** The client has marked only chunks that the server has recorded. */
  ghost predicate DraftOk(w: World) {
    Sorted(w.draft.done) && w.draft.chunkCount == ChunkCount(|w.source|) &&
    forall i :: 0 <= i < |w.draft.done| ==> Recorded(w, w.draft.done[i])
  }

  predicate Recorded(w: World, index: int) {
    w.draft.uploadId in w.sessions ==> index in w.sessions[w.draft.uploadId].chunks
  }

  ghost predicate Inv(w: World, hash: seq<byte> -> string) {
    |w.source| > 0 && DraftOk(w) && forall id :: id in w.sessions ==> SessionOk(w.sessions[id], w.source, hash)
  }

  lemma WriteKeepsInv(w: World, hash: seq<byte> -> string, id: string, s: Session)
    requires Inv(w, hash) && SessionOk(s, w.source, hash)
    requires if id in w.sessions then w.sessions[id].chunks.Keys <= s.chunks.Keys else id != w.draft.uploadId
    ensures Inv(w.(sessions := w.sessions[id := s]), hash)
  {
    var sessions := w.sessions[id := s];
    forall other | other in sessions
      ensures SessionOk(sessions[other], w.source, hash)
    {
      assert other == id || sessions[other] == w.sessions[other];
    }
    var w' := w.(sessions := sessions);
    forall i | 0 <= i < |w.draft.done|
      ensures Recorded(w', w.draft.done[i])
    {
      var d := w.draft.done[i];
      assert Recorded(w, d);
      if w.draft.uploadId in w.sessions {
        assert d in w.sessions[w.draft.uploadId].chunks.Keys;
      }
    }
  }

  lemma CollectKeepsInv(w: World, hash: seq<byte> -> string, id: string)
    requires Inv(w, hash)
    ensures Inv(w.(sessions := w.sessions - {id}), hash)
  {
    var w' := w.(sessions := w.sessions - {id});
    forall i | 0 <= i < |w.draft.done|
      ensures Recorded(w', w.draft.done[i])
    {
      assert Recorded(w, w.draft.done[i]);
    }
  }

  lemma MarkKeepsInv(w: World, hash: seq<byte> -> string, index: nat)
    requires Inv(w, hash) && Enabled(w, Mark(index))
    ensures Inv(Next(w, hash, Mark(index)), hash)
  {
    var done := DoneWith(w.draft.done, index);
    DoneStaysSorted(w.draft.done, index);
    var w' := Next(w, hash, Mark(index));
    forall i | 0 <= i < |done|
      ensures Recorded(w', done[i])
    {
      DoneMembers(w.draft.done, index, done[i]);
    }
  }

  lemma StepKeepsInv(w: World, hash: seq<byte> -> string, a: Action)
    requires Inv(w, hash) && Enabled(w, a)
    ensures Inv(Next(w, hash, a), hash)
  {
    match a
    case Create(id, user, device, now) => WriteKeepsInv(w, hash, id, Next(w, hash, a).sessions[id]);
    case Chunk(id, index, now, write) =>
      var body := SourceChunk(w.source, index);
      assert SessionOk(w.sessions[id], w.source, hash);
      ChunkKeepsShape(w.sessions[id], w.source, index, hash(body), now, write);
      WriteKeepsInv(w, hash, id, AfterChunk(w.sessions[id], index, hash(body), body, now, write));
    case CancelSession(id) =>
      assert SessionOk(w.sessions[id], w.source, hash);
      WriteKeepsInv(w, hash, id, w.sessions[id].(state := Cancelled));
    case Mark(index) => MarkKeepsInv(w, hash, index);
    case Finalize(fileId) =>
      var id := w.draft.uploadId;
      assert SessionOk(w.sessions[id], w.source, hash);
      WriteKeepsInv(w, hash, id, w.sessions[id].(state := Finalized, fileId := fileId));
    case Collect(id, _) => CollectKeepsInv(w, hash, id);
    case Adopt(_) =>
  }

  lemma {:induction false} RunKeepsInv(w: World, hash: seq<byte> -> string, actions: seq<Action>, end: World)
    requires Inv(w, hash) && Run(w, hash, actions, end)
    ensures Inv(end, hash)
    decreases |actions|
  {
    if actions != [] {
      StepKeepsInv(w, hash, actions[0]);
      RunKeepsInv(Next(w, hash, actions[0]), hash, actions[1..], end);
    }
  }

  lemma RunStep(w: World, hash: seq<byte> -> string, a: Action, actions: seq<Action>, end: World)
    requires Enabled(w, a) && Run(Next(w, hash, a), hash, actions, end)
    ensures Run(w, hash, [a] + actions, end)
  {
    assert ([a] + actions)[1..] == actions;
  }

  // ---- writes that fail ----

  ghost predicate AllIntact(w: World) {
    forall id :: id in w.sessions ==> Intact(w.sessions[id], w.source)
  }

  ghost predicate HarmsOne(w: World, hash: seq<byte> -> string, a: Action)
    requires Enabled(w, a)
  {
    a.Chunk? && Harms(w.sessions[a.id], w.source, a.index, hash(SourceChunk(w.source, a.index)), a.now, a.write)
  }

  ghost predicate NeverHarms(w: World, hash: seq<byte> -> string, actions: seq<Action>)
    decreases |actions|
  {
    actions == [] ||
    (Enabled(w, actions[0]) && !HarmsOne(w, hash, actions[0]) && NeverHarms(Next(w, hash, actions[0]), hash, actions[1..]))
  }

  /** A step keeps all files right if and only if it is not a chunk that harms one. */
  lemma StepKeepsIntact(w: World, hash: seq<byte> -> string, a: Action)
    requires Inv(w, hash) && AllIntact(w) && Enabled(w, a)
    ensures AllIntact(Next(w, hash, a)) <==> !HarmsOne(w, hash, a)
  {
    var w' := Next(w, hash, a);
    if a.Chunk? {
      var s := w.sessions[a.id];
      assert SessionOk(s, w.source, hash) && Intact(s, w.source);
      ChunkKeepsFile(s, w.source, a.index, hash(SourceChunk(w.source, a.index)), a.now, a.write);
      assert AllIntact(w') <==> Intact(w'.sessions[a.id], w.source);
    } else {
      forall id | id in w'.sessions
        ensures Intact(w'.sessions[id], w.source)
      {
        assert id in w.sessions ==> Intact(w.sessions[id], w.source);
      }
    }
  }

  lemma {:induction false} RunKeepsIntact(w: World, hash: seq<byte> -> string, actions: seq<Action>, end: World)
    requires Inv(w, hash) && AllIntact(w) && Run(w, hash, actions, end) && NeverHarms(w, hash, actions)
    ensures AllIntact(end)
    decreases |actions|
  {
    if actions != [] {
      StepKeepsInv(w, hash, actions[0]);
      StepKeepsIntact(w, hash, actions[0]);
      RunKeepsIntact(Next(w, hash, actions[0]), hash, actions[1..], end);
    }
  }

  /** Byte `p` belongs to a recorded chunk of the session, and reads as something else than the source. */
  ghost predicate Damaged(w: World, id: string, p: nat) {
    id in w.sessions && p < |w.source| && IndexOf(p) in w.sessions[id].chunks && Byte(w.sessions[id].tmp, p) != w.source[p]
  }

  function Byte(tmp: seq<byte>, p: nat): byte {
    if p < |tmp| then tmp[p] else 0
  }

  lemma StepKeepsDamage(w: World, hash: seq<byte> -> string, a: Action, id: string, p: nat)
    requires Inv(w, hash) && Enabled(w, a) && Damaged(w, id, p) && id in Next(w, hash, a).sessions
    ensures Damaged(Next(w, hash, a), id, p)
  {
    if a.Chunk? && a.id == id {
      assert SessionOk(w.sessions[id], w.source, hash);
      ChunksPartition(|w.source|, p, a.index);
    }
  }

  /**
   Nothing repairs a damaged byte: whatever is retried, the session keeps it for as long as it
   exists, although a repeated chunk is answered as stored.
   */
  lemma {:induction false} DamageStays(w: World, hash: seq<byte> -> string, actions: seq<Action>, end: World, id: string, p: nat)
    requires Inv(w, hash) && Run(w, hash, actions, end) && Damaged(w, id, p)
    requires forall a :: a in actions ==> !(a.Collect? && a.id == id)
    ensures Damaged(end, id, p) && !Intact(end.sessions[id], end.source)
    decreases |actions|
  {
    if actions != [] {
      var a := actions[0];
      assert a in actions;
      StepKeepsInv(w, hash, a);
      StepKeepsDamage(w, hash, a, id, p);
      DamageStays(Next(w, hash, a), hash, actions[1..], end, id, p);
    } else {
      assert !Right(w.sessions[id].tmp, w.source, p);
    }
  }

  /**
   In every run the client asks to finalize only a complete session. Its file is the source if and
   only if no recorded byte was lost, and, if the digest tells the two apart, an open session
   passes the server's checks exactly then. No byte is lost in runs in which no write does harm.
   */
  lemma FinalizesOnlyTheWholeFile(w: World, hash: seq<byte> -> string, actions: seq<Action>, end: World, fileId: string)
    requires Inv(w, hash) && Run(w, hash, actions, end) && Enabled(end, Finalize(fileId))
    ensures var s := end.sessions[end.draft.uploadId];
            && Complete(s) && (s.tmp == end.source <==> Intact(s, end.source))
            && (s.state.Open? && (hash(s.tmp) == hash(end.source) ==> s.tmp == end.source) ==>
                  (Finalizable(s, hash) <==> Intact(s, end.source)))
            && (AllIntact(w) && NeverHarms(w, hash, actions) ==> Intact(s, end.source))
  {
    RunKeepsInv(w, hash, actions, end);
    var s := end.sessions[end.draft.uploadId];
    assert SessionOk(s, end.source, hash);
    DoneCoversAll(end, s);
    CompleteMeansEqual(s, end.source);
    if AllIntact(w) && NeverHarms(w, hash, actions) {
      RunKeepsIntact(w, hash, actions, end);
    }
  }

  function NewUpload(source: seq<byte>, hash: seq<byte> -> string, user: int, device: string, now: int): Session {
    Session(user, device, |source|, hash(source), now + 86400, Open, "", map[], [])
  }

  /** The only chunk is recorded, and none of its bytes were written. */
  function LostUpload(source: seq<byte>, hash: seq<byte> -> string, user: int, device: string, now: int): Session {
    NewUpload(source, hash, user, device, now).(chunks := map[0 := hash(source)])
  }

  lemma OneChunk(source: seq<byte>)
    requires 0 < |source| <= 0x10_0000
    ensures ChunkCount(|source|) == 1 && SourceChunk(source, 0) == source
  {
  }

  /**
   For a file of one chunk: its write fails, the retry is answered as stored, the client marks the
   chunk and asks to finalize, and the server refuses; nothing is left that the client could send.
   */
  lemma LostWriteBlocks(source: seq<byte>, hash: seq<byte> -> string, id: string, user: int, device: string, now: int)
    returns (actions: seq<Action>, end: World)
    requires 0 < |source| <= 0x10_0000 && id != ""
    ensures Run(World(source, map[], Draft("", 1, [], DraftPending)), hash, actions, end)
    ensures end.source == source && end.draft.uploadId == id && id in end.sessions && end.sessions[id].state.Open?
    ensures Complete(end.sessions[id]) && forall fileId :: Enabled(end, Finalize(fileId)) && Next(end, hash, Finalize(fileId)) == end
    ensures forall later, write :: Enabled(end, Chunk(id, 0, later, write)) && Next(end, hash, Chunk(id, 0, later, write)) == end
  {
    OneChunk(source);
    var lost, draft := LostUpload(source, hash, user, device, now), Draft(id, 1, [], DraftUploading);
    var broken := World(source, map[id := lost], draft);
    end := World(source, map[id := lost], draft.(done := [0]));
    var uploading := RunToUploading(source, hash, id, user, device, now, broken);
    RunStep(broken, hash, Mark(0), [], end);
    RunStep(broken, hash, Chunk(id, 0, now, Whole(false)), [Mark(0)] + [], end);
    var rest := [Chunk(id, 0, now, Whole(false))] + ([Mark(0)] + []);
    actions := uploading + rest;
    RunsJoin(World(source, map[], Draft("", 1, [], DraftPending)), hash, uploading, broken, rest, end);
  }

  lemma RunToUploading(source: seq<byte>, hash: seq<byte> -> string, id: string, user: int, device: string, now: int, broken: World)
    returns (actions: seq<Action>)
    requires 0 < |source| <= 0x10_0000 && id != ""
    requires broken == World(source, map[id := LostUpload(source, hash, user, device, now)], Draft(id, 1, [], DraftUploading))
    ensures Run(World(source, map[], Draft("", 1, [], DraftPending)), hash, actions, broken)
  {
    OneChunk(source);
    var start := World(source, map[], Draft("", 1, [], DraftPending));
    var created := start.(sessions := map[id := NewUpload(source, hash, user, device, now)]);
    var adopted := created.(draft := broken.draft);
    assert Next(adopted, hash, Chunk(id, 0, now, Broken(false, 0))) == broken;
    RunStep(adopted, hash, Chunk(id, 0, now, Broken(false, 0)), [], broken);
    actions := [Chunk(id, 0, now, Broken(false, 0))] + [];
    RunStep(created, hash, Adopt(id), actions, broken);
    actions := [Adopt(id)] + actions;
    RunStep(start, hash, Create(id, user, device, now), actions, broken);
    actions := [Create(id, user, device, now)] + actions;
  }

  lemma {:induction false} RunsJoin(w: World, hash: seq<byte> -> string, a: seq<Action>, mid: World, b: seq<Action>, end: World)
    requires Run(w, hash, a, mid) && Run(mid, hash, b, end)
    ensures Run(w, hash, a + b, end)
    decreases |a|
  {
    if a == [] {
      assert a + b == b;
    } else {
      assert (a + b)[0] == a[0] && (a + b)[1..] == a[1..] + b;
      RunsJoin(Next(w, hash, a[0]), hash, a[1..], mid, b, end);
    }
  }

  lemma DoneCoversAll(w: World, s: Session)
    requires DraftOk(w) && |w.draft.done| == w.draft.chunkCount && w.draft.uploadId in w.sessions
    requires s == w.sessions[w.draft.uploadId] && Shaped(s, w.source)
    ensures Complete(s)
  {
    var n := ChunkCount(|w.source|);
    forall i | 0 <= i < |w.draft.done|
      ensures 0 <= w.draft.done[i] < n
    {
      assert Recorded(w, w.draft.done[i]);
    }
    DistinctCount(w.draft.done, n);
    Pigeonhole(s.chunks.Keys, n);
    forall x | x in w.draft.done
      ensures x in s.chunks
    {
      var i :| 0 <= i < |w.draft.done| && w.draft.done[i] == x;
      assert Recorded(w, w.draft.done[i]);
    }
    var all := set x | x in w.draft.done;
    SortedSize(w.draft.done, all);
    SubsetSize(all, s.chunks.Keys);
  }

  lemma SubsetSize(a: set<int>, b: set<int>)
    requires a <= b
    ensures |a| <= |b|
  {
    assert b == a + (b - a);
  }
}
