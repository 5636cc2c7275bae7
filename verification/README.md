# Jitong instant messaging: a verified model

This project models the stateful core of an instant-messaging client and server written in
C++, and proves what its protocols and algorithms are for. SQL tables are maps or sequences,
a transaction is one step that takes effect or does not, and every outcome the program cannot
choose (a failing statement, a timeout, the clock, random values, what the network delivers)
is a parameter or an action of a run.

Each component is one module. Where the source changes state step by step, the module has a
class with the source's fields; its methods are proved against specification functions, and
the properties are proved about those functions, usually for every run. What an operation answers,
and what it leaves in each field, is also stated without these functions, in the terms of the
tables and arguments alone.

| module | component |
|---|---|
| `WireFormat` | fixed-width integer fields |
| `FrameCodec` | framing of the byte stream |
| `SecureChannel`, `SecureSession` | the client's encrypted channel; two ends and a hostile network |
| `SecureOpening`, `SecureStream` | handshake and records together; records and framing together |
| `Sha256`, `Sha256Constants`, `Sha256Example` | streaming SHA-256 against FIPS 180-4; the constants as roots of primes; the hash of "abc" |
| `Utf8`, `SearchHighlight` | UTF-8 reading and measuring; search highlighting |
| `MessageStore` | the server's message table and history pages |
| `SyncGaps` | arrived sequence numbers and gaps |
| `ClientRepository`, `ClientAnswers` | the client's tables; what their operations answer and leave |
| `ClientRuns`, `UnreadCounters` | runs of these operations; the unread counters |
| `Delivery`, `DeliveryFiling` | client, server and network together; under which conversations the client files its messages |
| `DeliverySettles`, `DeliveryRefusals` | when the client takes what the server sends; runs in which it does not |
| `LegacyMigration`, `CutoverJournal` | migration batches and search tables; the cutover journal |
| `ChunkedUpload` | resumable uploads, server and client |
| `RefreshRotation`, `TokenPersistence` | refresh tokens on the server; the client's stored session |
| `SlidingWindow`, `LoginRateLimiter`, `AiRequestLimiter` | sliding windows and the two limiters |
| `ReadPool` | the pool of read connections |

Some properties hold only under a condition, which is stated exactly:

* An incoming message keeps the unread counters right if and only if it is not of the kind
  `UnreadCounters.Miscounts` (`MergeKeepsCounters`): a new roaming copy above the read position,
  a late number for an incoming message that had none, or the first message of a conversation
  that has no number. `RoamingCopyMiscounts`, `LateNumberMiscounts` and
  `FirstWithoutNumberMiscounts` give an input for each; `ReadRepairsCounter` says that reading
  the conversation makes its counter right again. The runtime passes on no message without a
  number (`client_core/src/runtime/ClientRuntime.cpp:490-491`), so the third input reaches the
  repository only through its own interface, and the second only there or after an import.
* An acknowledgement or a whole round trip is taken by the client if and only if no misfiled
  message sits on its number (`DeliverySettles.AcksAreAccepted`, `RoundTripSettles`). The server
  recognises a repeated message by its id alone (`im_server/src/db/Database.cpp:904-918`) and
  pushes the request it was just given, not the message it stored
  (`im_server/src/handlers/MessageHandler.cpp:136-152`). A sender that uses one id for two
  receivers therefore makes the second receiver store a message under a number of another
  conversation, which the unique index
  (`client_core/src/storage/migrations/001_initial.sql:57`) then holds against the message that
  really has this number: `DeliveryRefusals.ReusedIdBlocks` is such a run. As long as every pushed
  request is the message stored under its id, no acknowledgement is refused in any run
  (`DeliverySettles.HonestRunsAcceptAcks`).
* A copy of a stored message is taken if and only if, besides, its id is not filed elsewhere and its
  conversation is open or can be opened (`DeliverySettles.CopiesAreAccepted`). The message service
  takes a draft under any conversation (`client_core/src/message/MessageService.cpp:36-40`), while
  copies are filed under their peer (`client_core/src/runtime/ClientRuntime.cpp:492`) and a peer has
  one conversation (`client_core/src/storage/migrations/001_initial.sql:70`). The app's list of
  friends names another conversation
  (`jitong_android/app/src/main/java/com/jitong/im/ui/NativeAppRoot.kt:184,266-269`). After such a
  draft the client refuses the server's copy of it and whatever the peer writes:
  `DeliveryRefusals.OtherConversationRefuses` is such a run, without any push and for every
  conversation other than the peer's. With honest pushes the copies refused are exactly the
  displaced ones, and there are none if every draft names its peer as conversation
  (`HonestRunsAcceptAll`); once the server has all that the client has, all copies fit if and only if
  every message is filed under its peer (`CopiesFitIffInPlace`). `ReliableDelivery` and
  `NumbersAreForever` hold wherever drafts are filed.
* A chunk upload leaves the server's file right if and only if it does no harm, that is, unless
  the chunk is recorded and its write loses a byte that is not there by chance: one of its own when
  the write fails, one of an earlier chunk when the file had to be opened anew and was truncated
  (`ChunkedUpload.ChunkKeepsFile`). The chunk is recorded before it is written
  (`im_server/src/media/HttpFileServer.cpp:228-246`), so the retry is answered as stored and writes
  nothing: a damaged byte stays for as long as the session exists (`DamageStays`), and the upload
  is refused at the end (`LostWriteBlocks` is such a run). The client's request to finalize
  succeeds if and only if nothing was lost (`FinalizesOnlyTheWholeFile`).
* A round of filling gaps ends as many absences as messages were asked for and taken by the
  repository (`SyncGaps.RoundShrinks`); it leaves everything as it was if and only if none was
  (`RoundOutcome`).
* A used refresh token that is presented again revokes its family if and only if the statement
  that revokes it is carried out; the outcome is not looked at
  (`RefreshRotation.ReuseRevokesFamily`, `im_server/src/db/Database.cpp:1761-1781`).
* A saved token session is given back if and only if its tokens and session id are non-empty
  and its expiry times positive (`TokenPersistence.SavedIsRestored`).
* A token manager's memory stays in step with its store if and only if no load finds a session
  without a pending request while the manager has one of its own (`TokenPersistence.StepKeepsInStep`);
  `PendingCarriedOver` shows the session of one account with the request of another. The manager
  does not check for this, and `client_core/src/account/AccountSession.cpp:143` loads before the
  state machine is asked. The store itself is right in every run (`FreshLoadRestores`).
* Opening a closed read pool again is safe if and only if no reader still holds a connection
  (`ReadPool.ReopenKeepsInv`). The key is wiped by the first opening
  (`client_core/src/storage/ReadPool.cpp:52-65`), so a later one fails, and it takes away the slot
  a reader still has to return: `ReopenWhileReading` is such a run. The only caller opens each pool
  once (`client_core/src/storage/NativeDatabase.cpp:152-153`).

## Model

| member | source | states |
|---|---|---|
| WireFormat.BigEndianRoundTrip | client_core/src/transport/FrameCodec.cpp:8-23 | a number that fits is read back from its big-endian bytes |
| WireFormat.BigEndianCanonical | client_core/src/transport/FrameCodec.cpp:16-23 | every byte string is the encoding of its value, and of no other |
| WireFormat.LittleEndianRoundTrip | client_core/include/client_core/Protocol.h:134-149 | the same for the little-endian type field |
| WireFormat.LittleEndianCanonical | client_core/include/client_core/Protocol.h:134-149 | every byte string is the encoding of its little-endian value |
| FrameCodec.EncodeLength | client_core/src/transport/FrameCodec.cpp:8-14 | writes the big-endian length into four bytes of the buffer and changes no other |
| FrameCodec.DecodeLength | client_core/src/transport/FrameCodec.cpp:16-23 | the shifts and ors compute the big-endian value of the first four bytes |
| FrameCodec.EncodeType32 | client_core/include/client_core/Protocol.h:134-140 | writes the little-endian type into four bytes of the buffer and changes no other |
| FrameCodec.DecodeType32 | client_core/include/client_core/Protocol.h:142-149 | the shifts and ors compute the little-endian value of the first four bytes |
| FrameCodec.EncodeFrame | client_core/src/transport/FrameCodec.cpp:25-42 | length, type and payload laid out as on the wire; a body over 10 MiB is refused |
| FrameCodec.Drain | client_core/src/transport/FrameCodec.cpp:65-101 | the reader's loop computes the one-pass meaning of its buffer |
| FrameCodec.FrameReader.Feed | client_core/src/transport/FrameCodec.cpp:58-102 | frames, pending bytes and status are those of parsing everything pending at once; a null buffer changes nothing |
| FrameCodec.ParseEncoded | client_core/src/transport/FrameCodec.cpp:25-42 | encoded frames in front of any bytes are read back first, unchanged and in order |
| FrameCodec.ParseSound | client_core/src/transport/FrameCodec.cpp:58-102 | what was parsed, encoded again, is exactly the front of the input |
| FrameCodec.ParseIsDecomposition | client_core/src/transport/FrameCodec.cpp:65-101 | a parse without error is the only way to write the input as whole frames and an incomplete rest (both directions) |
| FrameCodec.CorruptIffBadHeader | client_core/src/transport/FrameCodec.cpp:73-78 | a parse fails exactly when whole frames are followed by a length out of range |
| FrameCodec.ParseAppend | client_core/src/transport/FrameCodec.cpp:58-102 | parsing may stop and go on with more bytes at any point |
| FrameCodec.SplitNeverMatters | client_core/src/transport/FrameCodec.cpp:58-102 | every way of cutting a stream into feeds, up to the first bad length, gives the frames and rest of a single feed |
| FrameCodec.StreamRoundTrip | client_core/src/transport/FrameCodec.cpp:25-102 | any cut of concatenated encoded frames gives back the original list with nothing pending |
| SecureChannel.ClientSecureChannel.BuildClientHello | client_core/src/transport/ClientSecureChannel.cpp:309-368 | starts over from a reset state and awaits the server hello, or fails |
| SecureChannel.ClientSecureChannel.HandleServerHello | client_core/src/transport/ClientSecureChannel.cpp:372-527 | the checks in order, the error of the first that fails, the session fields taken over and the keys derived, also when the closing hash fails |
| SecureChannel.ClientSecureChannel.HandleServerFinished | client_core/src/transport/ClientSecureChannel.cpp:531-587 | established exactly for the expected verification value, failed with the right error otherwise |
| SecureChannel.ClientSecureChannel.Reset | client_core/src/transport/ClientSecureChannel.cpp:261-285 | sequences, status, error and session are as at the start |
| SecureChannel.ClientSecureChannel.Encrypt | client_core/src/transport/ClientSecureChannel.cpp:591-656 | the new state and the frame, or the error that closes the channel |
| SecureChannel.ClientSecureChannel.Decrypt | client_core/src/transport/ClientSecureChannel.cpp:658-740 | the new state and the message, or the error of the first check that fails |
| SecureChannel.TranscriptBinds | client_core/src/transport/ClientSecureChannel.cpp:415-425 | equal signed transcripts have equal client hello, server key, nonce, session id and key id |
| SecureChannel.NonceBinds | client_core/src/transport/ClientSecureChannel.cpp:618-626 | under one prefix, equal nonces mean equal sequence numbers |
| SecureChannel.AadBinds | client_core/src/transport/ClientSecureChannel.cpp:628-633 | for session ids of 16 bytes, equal associated data mean equal session id and sequence number |
| SecureChannel.SealedForOnePlace | client_core/src/transport/ClientSecureChannel.cpp:628-711 | a body sealed in one session for one number is accepted in no other session and for no other number, even under the same keys and prefixes |
| SecureChannel.SealedIsOpened | client_core/src/transport/ClientSecureChannel.cpp:591-740 | what a record says in the clear, and that the other end's next step opens it to the same message |
| SecureChannel.HelloErrors | client_core/src/transport/ClientSecureChannel.cpp:372-527 | each error of a server hello exactly for its cause |
| SecureChannel.FrameErrors | client_core/src/transport/ClientSecureChannel.cpp:666-695 | each error of a frame exactly for its cause |
| SecureChannel.FinishedErrors | client_core/src/transport/ClientSecureChannel.cpp:531-588 | the channel opens exactly for the expected hash of the right length; each error for its cause |
| SecureChannel.AadBytes | client_core/src/transport/ClientSecureChannel.cpp:628-633 | the associated data byte by byte: label, version 1, session id, sequence number |
| SecureChannel.NonceBytes | client_core/src/transport/ClientSecureChannel.cpp:618-626 | a nonce is the four bytes of the prefix and the eight of the sequence number |
| SecureChannel.TranscriptBytes | client_core/src/transport/ClientSecureChannel.cpp:415-425 | where each part of the signed transcript stands |
| SecureChannel.ClosingHashes | client_core/src/transport/ClientSecureChannel.cpp:503-590 | each closing hash is under its own key, over both payloads in order, and the server's covers the client's |
| SecureChannel.SealsIff | client_core/src/transport/ClientSecureChannel.cpp:591-660 | a message is sealed exactly on an open channel, for a kind that is not 1036 to 1040, with a number left and a working cipher; what stays unchanged |
| SecureChannel.OpensIff | client_core/src/transport/ClientSecureChannel.cpp:661-740 | a frame is opened exactly if it is the next of this session and its body is sealed with the peer's key for this place, with an ordinary kind |
| SecureChannel.PlaintextRoundTrip | client_core/src/transport/ClientSecureChannel.cpp:610-616 | type and payload are read back from the plaintext |
| SecureSession.AcceptsOnlyTheNext | client_core/src/transport/ClientSecureChannel.cpp:658-740 | whatever frame arrives, only the next message of the other end can be accepted |
| SecureSession.RunKeepsInv | client_core/src/transport/ClientSecureChannel.cpp:591-740 | the numbering and prefix invariant holds in every run against the network |
| SecureSession.RecordsAreAPrefix | client_core/src/transport/ClientSecureChannel.cpp:591-740 | each end has accepted a prefix of what the other sent; sequences are exactly 1..n and nonces pairwise distinct |
| SecureSession.FaithfulDelivery | client_core/src/transport/ClientSecureChannel.cpp:591-740 | frames that arrive unchanged and in order are all accepted |
| SecureSession.RejectionIsFinal | client_core/src/transport/ClientSecureChannel.cpp:287-291 | after any rejection the channel produces and accepts nothing until reset |
| SecureSession.HandshakeIsAuthentic | client_core/src/transport/ClientSecureChannel.cpp:372-587 | if only the honest server signs under trusted keys, a channel with keys has the session that server opened for this very hello |
| SecureOpening.FinishedBinds | client_core/src/transport/ClientSecureChannel.cpp:546-575 | equal verification values mean equal sessions, keys included |
| SecureOpening.OpensWithTheServer | client_core/src/transport/ClientSecureChannel.cpp:372-587 | whatever is delivered, a channel that is open holds exactly a session of the server |
| SecureOpening.OpenChannelDelivers | client_core/src/transport/ClientSecureChannel.cpp:372-740 | from the hello on: the channel opens only to a session of the server, and then each end accepts a prefix of what the other sends, numbered 1..n with distinct nonces |
| SecureStream.RecordsRoundTrip | client_core/src/transport/ClientSecureChannel.cpp:591-740 | messages encrypted one after the other are decrypted to the same list |
| SecureStream.StreamDelivers | client_core/src/transport/FrameCodec.cpp:58-102 | messages encrypted, framed and cut into arbitrary pieces are read by the other end exactly and in order, with nothing left over |
| Sha256.Sha256.Transform | protocol/sha256.h:84-115 | one block is compressed as section 6.2.2 says |
| Sha256.Sha256.MessageSchedule | protocol/sha256.h:86-97 | the 64 words are the message schedule of the block |
| Sha256.Sha256.Update | protocol/sha256.h:30-43 | the input taken in since the reset grows by exactly this input; buffer index and counters stay in bounds |
| Sha256.Sha256.Final | protocol/sha256.h:45-70 | the digest is that of everything taken in since the reset |
| Sha256.Sha256Hex | protocol/sha256.h:126-139 | the lower-case hexadecimal FIPS 180-4 hash of the input |
| Sha256.Sha256.MarkEnd | protocol/sha256.h:47-54 | the 0x80 byte and, if the length no longer fits, the zeros of one more block |
| Sha256.PaddedLength | protocol/sha256.h:45-60 | the padded message is a whole number of blocks |
| Sha256.ZerosNeeded | protocol/sha256.h:49-55 | the zeros written in one or two blocks are as many as section 5.1.1 asks for |
| Sha256.PaddedOf | protocol/sha256.h:45-60 | the bytes written are the padded message of section 5.1.1 |
| Sha256.IteratedIsBlocks | protocol/sha256.h:84-115 | compressing block after block is the iterated hash of section 6.2 |
| Sha256Constants.TableIsRoots | protocol/sha256.h:73-82 | each word of the table is the fraction of the cube root of its prime, 2 to 311 |
| Sha256Constants.InitialIsRoots | protocol/sha256.h:18-28 | each word of the initial value is the fraction of the square root of its prime, 2 to 19 |
| Sha256Example.AbcHash | client_core/tests/test_protocol.cpp:73-74 | the hash of "abc" is the one the tests name |
| Utf8.Utf16Units | client_core/src/search/SearchService.cpp:15-23 | the loop counts the UTF-16 units of the whole sequences before a byte |
| Utf8.UnitsTable | client_core/src/search/SearchService.cpp:15-23 | also on malformed text a sequence is as long as its first byte says, and one that is cut off is not counted |
| Utf8.NextCodePoint | client_core/src/search/SearchService.cpp:31-39 | the loop reads the sequence at the cursor, or finds it malformed |
| Utf8.DecodeTable | client_core/src/search/SearchService.cpp:31-39 | what is read at any place of any bytes: which sequences are accepted, and their value, length and width |
| Utf8.EncodeTable | client_core/src/search/SearchService.cpp:31-39 | the bytes the readers are measured against are those of the table in RFC 3629, section 3 |
| Utf8.DecodeEncoded | client_core/src/search/SearchService.cpp:31-39 | a scalar value anywhere in a valid text is read back with its length and width |
| Utf8.PrefixFree | client_core/src/search/SearchService.cpp:24-30 | no encoding is a proper prefix of another |
| Utf8.EncodedPrefix | client_core/src/search/SearchService.cpp:24-30 | an encoded text is a prefix of another exactly when the text is |
| Utf8.UnitsOfText | client_core/src/search/SearchService.cpp:15-23 | the measure of a valid text is its UTF-16 length |
| SearchHighlight.AddContentRanges | client_core/src/search/SearchService.cpp:24-30 | one range per byte match of the keyword, in order |
| SearchHighlight.LowerIsFold | client_core/src/search/SearchService.cpp:25-26 | lower-casing bytes of a valid text is folding its ASCII letters |
| SearchHighlight.MatchAtBoundary | client_core/src/search/SearchService.cpp:24-30 | where a character begins, a byte match is a character match (both directions) |
| SearchHighlight.NoMatchInside | client_core/src/search/SearchService.cpp:24-30 | a valid keyword never matches inside a character |
| SearchHighlight.MatchesAreOccurrences | client_core/src/search/SearchService.cpp:24-30 | the byte matches are the offsets of the character matches |
| SearchHighlight.ContentRangesAreOccurrences | client_core/src/search/SearchService.cpp:15-30 | for valid text and keyword the ranges are the UTF-16 spans of the folded occurrences, one each |
| SearchHighlight.OccurrencesMeaning | client_core/src/search/SearchService.cpp:24-30 | occurrences are exactly the places where the keyword stands, ascending |
| SearchHighlight.OnlyHitsAreMarked | client_core/src/search/SearchService.cpp:15-30 | every range of the content spans characters that equal the keyword but for ASCII case |
| SearchHighlight.EveryHitIsMarked | client_core/src/search/SearchService.cpp:15-30 | wherever the keyword stands, its UTF-16 span is among the ranges |
| SearchHighlight.AddInitialRanges | client_core/src/search/SearchService.cpp:44-58 | the ranges of keyword matches in the initials, none for malformed text or a length mismatch |
| SearchHighlight.ValidTextHasSpans | client_core/src/search/SearchService.cpp:46-50 | a valid text is read to the end and every indexable character gives its UTF-16 span |
| SearchHighlight.IndexPlacesMeaning | client_core/src/search/SearchService.cpp:40-43 | the places of the indexable characters are exactly these, ascending |
| SearchHighlight.IndexableBlocks | client_core/src/search/SearchService.cpp:40-43 | exactly digits, Latin letters and three blocks of Han characters have initials |
| SearchHighlight.InitialRangesCoverMatches | client_core/src/search/SearchService.cpp:44-58 | with one initial for each indexable character every match gives one range, from the first UTF-16 unit of its first character to the last of its last |
| SearchHighlight.NormalizeRanges | client_core/src/search/SearchService.cpp:59-62 | the result is strictly ascending and has exactly the ranges of the input |
| SearchHighlight.NormalFormUnique | client_core/src/search/SearchService.cpp:59-62 | such a list is determined by its ranges |
| MessageStore.ConversationIdentifiesPair | im_server/src/db/Database.h:285-296 | both ends name one conversation, and no other pair of accounts shares it |
| MessageStore.ConversationNamesBoth | im_server/src/db/Database.h:285-296 | the smaller account is the high half, the larger the low one; 0 exactly for an invalid account |
| MessageStore.Database.SaveMessage | im_server/src/db/Database.cpp:890-980 | a known id returns its stored number; a new one is appended with the next number; a failure keeps the table; numbering is kept |
| MessageStore.SaveKeepsNumbering | im_server/src/db/Database.cpp:904-980 | saving keeps ids unique and every row numbered by its position in its conversation |
| MessageStore.SeqsAreExactlyOneToN | im_server/src/db/Database.cpp:921-933 | the numbers of a conversation are exactly 1..n, each for one message, rising with insertion |
| MessageStore.FindIsStable | im_server/src/db/Database.cpp:904-918 | a stored message is found unchanged in every longer table |
| MessageStore.Database.OnMessages | im_server/src/handlers/RoamHandler.cpp:29-52 | the newest messages below the cursor, 20 if no number is asked for and at most 100; has_more exactly for a full page; min_seq that of the last row |
| MessageStore.PageIsExact | im_server/src/db/Database.cpp:1135-1155 | a page has exactly the newest messages below the cursor, as many as fit, newest first |
| MessageStore.HistoryIsComplete | im_server/src/handlers/RoamHandler.cpp:36-49 | paging by min_seq until has_more is false visits every message once, in decreasing order, and ends |
| MessageStore.PageIgnoresNewer | im_server/src/db/Database.cpp:1135-1155 | a message saved meanwhile does not change the pages still to come |
| SyncGaps.SyncTracker.AddArrived | client_core/include/client_core/sync/SyncTracker.h:141-158 | ranges stay sorted, disjoint and not adjacent, and cover exactly the old numbers and the new range |
| SyncGaps.SyncTracker.ObserveSeq | client_core/include/client_core/sync/SyncTracker.h:65-72 | one number is added, and the result says whether the contiguous watermark rose |
| SyncGaps.SyncTracker.ComputeGaps | client_core/include/client_core/sync/SyncTracker.h:161-173 | the gaps cover exactly the numbers missing below the largest arrived one |
| SyncGaps.ContiguousIsExact | client_core/include/client_core/sync/SyncTracker.h:112-117 | everything up to the watermark arrived and the next number did not |
| SyncGaps.CanonicalForm | client_core/include/client_core/sync/SyncTracker.h:141-158 | ranges that cover the same numbers are equal, so arrival order and restarts do not matter |
| SyncGaps.LoadMessageSeqRanges | client_core/src/storage/NativeRepository.cpp:1344-1366 | the ranges read from the message table are in canonical form and cover exactly its numbers |
| SyncGaps.GapRequestFillsItsTop | client_core/src/runtime/ClientRuntime.cpp:624-627 | the answer has exactly the top min(100, width) missing numbers, and exactly those whose messages are taken stop being missing |
| SyncGaps.RoundShrinks | client_core/src/runtime/ClientRuntime.cpp:502-555 | one request and its answer remove exactly as many missing numbers as were asked for and taken |
| SyncGaps.RoundOutcome | client_core/src/runtime/ClientRuntime.cpp:530-555 | a round leaves the ranges as they were if and only if it takes nothing that was asked for |
| SyncGaps.RoundsEnd | client_core/src/runtime/ClientRuntime.cpp:577-636 | whatever gaps are asked for in whatever order, and whatever is refused or lost, at most as many rounds take something as numbers are missing |
| SyncGaps.CaughtUp | client_core/include/client_core/sync/SyncTracker.h:112-117 | the watermark equals the largest arrived number exactly when nothing is missing |
| ClientRepository.NativeRepository.CommitOutgoingDraft | client_core/src/storage/NativeRepository.cpp:614-732 | the new tables, the allocated order, the cases that fail; a known id changes nothing |
| ClientRepository.NativeRepository.ClaimOutbox | client_core/src/storage/NativeRepository.cpp:428-467 | the attempts answered name the picked rows in order, and each has a row on exactly this attempt leased to now plus lease; one unsendable row undoes the whole claim |
| ClientRepository.NativeRepository.FinishOutboxAttempt | client_core/src/storage/NativeRepository.cpp:469-482 | the row changes only for its current, unfinished, not halted attempt |
| ClientRepository.NativeRepository.CancelOutbox | client_core/src/storage/NativeRepository.cpp:484-493 | the row is halted and no other changes |
| ClientRepository.NativeRepository.CommitIncomingMessage | client_core/src/storage/NativeRepository.cpp:495-612 | insert or fill in, counters, outbox and conflicts of an incoming message |
| ClientRepository.NativeRepository.FinishProjection | client_core/src/storage/NativeRepository.cpp:92-123 | a message that arrives in the conversation on screen is read at once |
| ClientRepository.NativeRepository.CommitAck | client_core/src/storage/NativeRepository.cpp:734-813 | zero fields are filled in, a conflicting number is refused, a final status empties the outbox row |
| ClientRepository.NativeRepository.MarkConversationRead | client_core/src/storage/NativeRepository.cpp:815-869 | the read position becomes the larger one and the counter is counted anew from it |
| ClientRepository.NativeRepository.MaxLocalOrder | client_core/src/storage/NativeRepository.cpp:636-646 | the largest local order in use, 0 for an empty table |
| ClientRepository.LeaseNext | client_core/src/storage/NativeRepository.cpp:450-464 | updating the picked rows one by one by message id leases exactly them |
| ClientRepository.ClaimAnswers | client_core/src/storage/NativeRepository.cpp:437-464 | what a claim answers is what it writes: attempt number, order and lease of each row |
| ClientAnswers.AnsweredAttemptFinishes | client_core/src/storage/NativeRepository.cpp:469-482 | the result of an answered attempt takes effect if and only if its lease does not end at the largest instant there is |
| ClientAnswers.AckLeaves | client_core/src/storage/NativeRepository.cpp:751-812 | an acknowledgement fills in each zero field with the value offered, number, time and status; other messages stay, and exactly its outbox rows go if the status is final |
| ClientAnswers.MergeLeaves | client_core/src/storage/NativeRepository.cpp:513-612 | an incoming message is stored as it is, or fills in the zero fields of the one that is there |
| ClientAnswers.DraftLeaves | client_core/src/storage/NativeRepository.cpp:614-732 | a draft is stored as written and queued once, unfinished and due; its conversation is open |
| ClientAnswers.DraftOrderIsNew | client_core/src/storage/NativeRepository.cpp:634-657 | its order is above the last one given and every queued row, and above every stored message unless one has the largest number there is |
| ClientAnswers.DraftPassesIff | client_core/src/storage/NativeRepository.cpp:614-732 | exactly when a new draft is accepted, from the inputs' fields |
| ClientAnswers.KnownDraftPassesIff | client_core/src/storage/NativeRepository.cpp:76-90 | a known id is accepted, and changes nothing, exactly for the same message |
| ClientAnswers.MergePassesIff | client_core/src/storage/NativeRepository.cpp:513-612 | exactly when an incoming message is taken |
| ClientAnswers.AckPassesIff | client_core/src/storage/NativeRepository.cpp:734-790 | exactly when an acknowledgement is taken |
| ClientAnswers.ClaimPassesIff | client_core/src/storage/NativeRepository.cpp:428-467 | exactly when a claim is answered |
| ClientAnswers.ReadLeaves | client_core/src/storage/NativeRepository.cpp:815-869 | the read position becomes the larger one, the counter counts the incoming messages above it, nothing else changes |
| ClientAnswers.MergeCounts | client_core/src/storage/NativeRepository.cpp:545-612 | what an incoming message makes of the counter of its conversation |
| ClientRuns.StepRow | client_core/src/storage/NativeRepository.cpp:428-813 | all the ways in which any operation can change an outbox row |
| ClientRuns.RunKeepsSound | client_core/src/storage/NativeRepository.cpp:428-813 | in every run the outbox is ordered by local order with one row per message |
| ClientRuns.DraftOrdersIncrease | client_core/src/storage/NativeRepository.cpp:636-657 | of two drafts of a run the later has the larger local order |
| ClientRuns.ClaimsInOrder | client_core/src/storage/NativeRepository.cpp:437-441 | claims take rows that are due and have attempts left, in local order, and pass over none |
| ClientRuns.LeaseIsExclusive | client_core/src/storage/NativeRepository.cpp:428-467 | in every run a claimed row is not claimed again before its lease ends, unless its own attempt finished |
| ClientRuns.LateResultIgnored | client_core/src/storage/NativeRepository.cpp:469-482 | in every run a late result never changes a row claimed for a later attempt |
| ClientRuns.AttemptFinishesOnce | client_core/src/storage/NativeRepository.cpp:469-482 | of all results for one attempt at most one takes effect |
| ClientRuns.TerminalIsNeverClaimed | client_core/src/storage/NativeRepository.cpp:437-441 | in every run a message whose attempt ended for good is never claimed again |
| ClientRuns.CancelledIsNeverClaimed | client_core/src/storage/NativeRepository.cpp:484-493 | nor is a cancelled one |
| ClientRuns.MessagesRefine | client_core/src/storage/NativeRepository.cpp:513-813 | in every run a stored message keeps its identity and only its zero fields are ever filled in |
| ClientRuns.OnlyConfirmationDequeues | client_core/src/storage/NativeRepository.cpp:428-813 | a message leaves the outbox only through an operation that confirms it |
| ClientRuns.StepQueued | client_core/src/storage/NativeRepository.cpp:428-813 | a message is queued after a step exactly if it was and the step did not confirm it |
| UnreadCounters.MergeKeepsCounters | client_core/src/storage/NativeRepository.cpp:545-612 | an incoming message keeps every counter exact if and only if it is not one that miscounts |
| UnreadCounters.UnreadIsExact | client_core/src/storage/NativeRepository.cpp:92-123 | in every run without roaming merges, with positive numbers, each counter is the number of incoming messages above the read position |
| UnreadCounters.ReadSeqNeverFalls | client_core/src/storage/NativeRepository.cpp:815-869 | in every run no read position moves back |
| UnreadCounters.ReadRepairsCounter | client_core/src/storage/NativeRepository.cpp:815-869 | reading a conversation makes its counter exact after any run whatever |
| UnreadCounters.RoamingCopyMiscounts | client_core/src/storage/NativeRepository.cpp:92-123 | a new roaming copy above the read position is not counted: an input |
| UnreadCounters.LateNumberMiscounts | client_core/src/storage/NativeRepository.cpp:545-612 | a number that comes late is not counted: an input |
| UnreadCounters.FirstWithoutNumberMiscounts | client_core/src/storage/NativeRepository.cpp:92-123 | the first message of a conversation is counted without a number: an input |
| UnreadCounters.CountAfterWrite | client_core/src/storage/NativeRepository.cpp:113-121 | writing one row moves a count by what that row contributes |
| Delivery.StepKeepsInv | client_core/src/runtime/ClientRuntime.cpp:638-671 | every step of client, server and network keeps the delivery invariant |
| Delivery.DraftKeeps | client_core/src/message/MessageService.cpp:30-67 | so does preparing a draft |
| Delivery.ClaimKeeps | client_core/src/runtime/ClientRuntime.cpp:327-348 | so does claiming for transmission |
| Delivery.ServeKeeps | im_server/src/handlers/MessageHandler.cpp:130-157 | so does serving a request of this client, saved or not, with the reply and the push it causes |
| Delivery.SendKeeps | im_server/src/handlers/MessageHandler.cpp:130-157 | so does serving anybody else's request, also one that reuses an id the server has, and its push |
| Delivery.ReplyKeeps | client_core/src/message/MessageService.cpp:103-132 | so does a reply, in every verdict |
| Delivery.CopyKeeps | client_core/src/runtime/ClientRuntime.cpp:483-508 | so does a copy from a history page or a pushed request, whether or not it is the stored message |
| Delivery.ReliableDelivery | im_server/src/handlers/MessageHandler.cpp:130-156 | in every run: stored once, one number in all accepting replies, the client shows no other, a message leaves the outbox only when the server holds exactly it, and shows as being sent exactly as long as it is queued |
| Delivery.NumbersAreForever | client_core/src/storage/NativeRepository.cpp:756-777 | in every run a number once known to the server or the client never changes |
| DeliveryFiling.RunKeepsFiled | client_core/src/storage/NativeRepository.cpp:495-732 | in every run a message is filed under its peer unless it is a draft, and a conversation is its own peer's unless a draft opened it for another |
| DeliveryFiling.RunKeepsInPlace | client_core/src/message/MessageService.cpp:36-40 | if every draft names its peer, every message is filed under its peer in every run |
| DeliveryFiling.TakenByDraft | client_core/src/storage/migrations/001_initial.sql:61-70 | only a draft under another conversation can keep a peer's conversation from being opened |
| DeliverySettles.AcksAreAccepted | client_core/src/storage/NativeRepository.cpp:751-777 | an acknowledgement is refused if and only if a misfiled message sits on its number |
| DeliverySettles.CopiesAreAccepted | client_core/src/storage/NativeRepository.cpp:513-612 | a copy of a stored message is refused if and only if its id was filed elsewhere, its conversation cannot be opened, or a misfiled message sits on its number |
| DeliverySettles.ReplySettles | client_core/src/message/MessageService.cpp:103-132 | an accepting reply settles its message if and only if the number is not blocked: out of the outbox, with the number, shown as delivered or not |
| DeliverySettles.RoundTripSettles | im_server/src/handlers/MessageHandler.cpp:130-157 | one complete round trip, also a repeated one, empties the outbox row, shows the server's number and shows as delivered exactly if the peer was online, if and only if the number is not blocked |
| DeliverySettles.RefusedAttemptIsLast | client_core/src/message/MessageService.cpp:103-132 | in every run an attempt that is claimed, sent and refused for good halts its row |
| DeliverySettles.StrangeCopiesAreIgnored | client_core/src/runtime/ClientRuntime.cpp:488-491 | a copy without id or number, or of other accounts, changes nothing |
| DeliverySettles.StrangeRepliesAreIgnored | client_core/src/runtime/ClientRuntime.cpp:638-648 | a reply to a message that is not awaited, not the client's own or of another peer changes nothing |
| DeliverySettles.AwaitedAfterReply | client_core/src/runtime/ClientRuntime.cpp:652-659 | after a reply its attempt stays awaited exactly if the server failed or a misfiled message sits on its number |
| DeliverySettles.RowOfCopy | client_core/src/runtime/ClientRuntime.cpp:488-494 | the row a copy is stored as, field by field |
| DeliverySettles.AnswerOfServer | im_server/src/handlers/MessageHandler.cpp:130-156 | verdict, number and addressee of every reply |
| DeliverySettles.PushMisfiles | im_server/src/handlers/MessageHandler.cpp:136-152 | a push of a new id misfiles it if and only if it is not the stored message |
| DeliverySettles.HonestRunsAcceptAcks | im_server/src/db/Database.cpp:904-918 | in every run whose pushes are the stored messages no acknowledgement is refused, wherever drafts are filed |
| DeliverySettles.HonestRunsAcceptAll | client_core/src/runtime/ClientRuntime.cpp:483-508 | in such runs exactly the displaced copies are refused, and none if every draft names its peer as conversation |
| DeliverySettles.CopiesFitIffInPlace | client_core/src/storage/NativeRepository.cpp:76-90 | in such runs, once the server has all the client has: every copy is taken if and only if every message is filed under its peer |
| DeliveryRefusals.ReusedIdBlocks | client_core/src/storage/migrations/001_initial.sql:57-58 | a run in which a reused id keeps a message in the outbox |
| DeliveryRefusals.OtherConversationRefuses | client_core/src/storage/migrations/001_initial.sql:61-70 | for every conversation other than the peer's a run, without pushes, after whose draft the client refuses the server's copy of it and the peer's message |
| LegacyMigration.MigrationImporter.ImportBatch | client_core/src/storage/MigrationImporter.cpp:174-335 | all messages imported, or nothing; a contradicting duplicate is refused |
| LegacyMigration.MigrationImporter.SeedLegacyDeltaCheckpoint | client_core/src/storage/MigrationImporter.cpp:460-497 | the checkpoint is set once; repeating the same value succeeds, another fails |
| LegacyMigration.MigrationImporter.ApplyLegacyDeltaBatch | client_core/src/storage/MigrationImporter.cpp:499-680 | refused, replayed or committed; the tables and the checkpoint in each case |
| LegacyMigration.MigrationImporter.CheckBatch | client_core/src/storage/MigrationImporter.cpp:521-548 | a batch passes exactly if owner, form and strictly increasing numbers are right |
| LegacyMigration.MigrationImporter.ApplyChange | client_core/src/storage/MigrationImporter.cpp:608-664 | old search rows go, then the row is deleted or written with fresh ones |
| LegacyMigration.LogMeaning | client_core/src/storage/MigrationImporter.cpp:608-664 | after a log each message is as its last change left it, or untouched |
| LegacyMigration.LogIndexes | client_core/src/storage/MigrationImporter.cpp:608-664 | after a log both search tables have for each message the text, pinyin and initials of its last change, or nothing after a deletion |
| LegacyMigration.BatchOkMeaning | client_core/src/storage/MigrationImporter.cpp:521-548 | what makes the changes of a batch sensible and numbered upwards |
| LegacyMigration.BatchAnswer | client_core/src/storage/MigrationImporter.cpp:499-606 | exactly when a batch is carried out, told to be done already, or refused |
| LegacyMigration.BatchMovesCheckpoint | client_core/src/storage/MigrationImporter.cpp:665-680 | the checkpoint moves to the last number of a batch that is carried out |
| LegacyMigration.BetweenJoins | client_core/src/storage/MigrationImporter.cpp:549-557 | neighbouring pieces of the log join without gap or overlap |
| LegacyMigration.RunAtCheckpoint | client_core/src/storage/MigrationImporter.cpp:499-680 | in every run of batches, replays, mismatches and failures the tables are the baseline with the log applied up to the checkpoint |
| LegacyMigration.RunKeepsSearch | client_core/src/storage/MigrationImporter.cpp:608-664 | in every run both search tables have one matching row per message with content and none otherwise |
| LegacyMigration.ImportBatchKeepsSearch | client_core/src/storage/MigrationImporter.cpp:287-320 | so they have after an import |
| LegacyMigration.ImportIndexes | client_core/src/storage/MigrationImporter.cpp:287-320 | after an import each of its messages stands as sent, in the message table and with text, pinyin and initials in both search tables |
| LegacyMigration.ImportPassesIff | client_core/src/storage/MigrationImporter.cpp:174-299 | an import passes exactly if each message has an id and the owner and contradicts neither the tables nor an earlier one |
| LegacyMigration.ImportIsIdempotent | client_core/src/storage/MigrationImporter.cpp:287-299 | after an import all its messages are there, importing again changes nothing, and an import overwrites nothing |
| CutoverJournal.NativeDatabase.SubmitBusinessSync | client_core/src/storage/NativeDatabase.cpp:262-316 | refused before the commitment; the first write marks the journal in its own transaction |
| CutoverJournal.NativeDatabase.AdvanceCutoverJournal | client_core/src/storage/NativeDatabase.cpp:726-806 | succeeds exactly for the expected state, the same epoch and one step up or an identical repetition |
| CutoverJournal.UpsertMeaning | client_core/src/storage/NativeDatabase.cpp:776-801 | writing an entry replaces exactly the row of its epoch, or adds it, and rows stay in the order of their epochs |
| CutoverJournal.RunKeepsInv | client_core/src/storage/NativeDatabase.cpp:262-806 | in every run the state only rises, the epoch stays, dirty holds exactly in the last state, and any write after the journal has appeared makes it dirty |
| CutoverJournal.NoStateIsSkipped | client_core/src/storage/NativeDatabase.cpp:766-771 | every state between two of a run is passed through |
| ChunkedUpload.ChunksPartition | im_server/src/media/HttpFileServer.cpp:135-198 | chunk offsets and sizes partition the file exactly |
| ChunkedUpload.HttpFileServer.HandleCreateUpload | im_server/src/media/HttpFileServer.cpp:106-173 | an open session for the same file is reused and its chunks are listed, otherwise an empty one is made, or nothing when its insert fails |
| ChunkedUpload.HttpFileServer.HandleUploadChunk | im_server/src/media/HttpFileServer.cpp:175-250 | status and new session for every check, duplicate, conflict, failing record, failing or truncating write |
| ChunkedUpload.HttpFileServer.HandleFinalizeUpload | im_server/src/media/HttpFileServer.cpp:278-334 | succeeds exactly for a finalized session or a complete one whose size and digest match |
| ChunkedUpload.HttpFileServer.CancelUpload | im_server/src/db/Database.cpp:1529-1555 | an open session is cancelled; a finalized or cancelled one stays as it is |
| ChunkedUpload.WriteAt | im_server/src/media/HttpFileServer.cpp:232-246 | every byte of the file after seeking and writing |
| ChunkedUpload.MediaService.ReadChunk | client_core/src/media/MediaService.cpp:49-60 | the chunk's bytes, none beyond the last chunk |
| ChunkedUpload.MediaService.MarkUploadChunkDone | client_core/src/storage/NativeRepository.cpp:1482-1525 | refused for a draft sent or cancelled; otherwise the index is added once and the list stays sorted |
| ChunkedUpload.Pigeonhole | im_server/src/media/HttpFileServer.cpp:297-306 | n different indices below n are all of them |
| ChunkedUpload.ChunkKeepsFile | im_server/src/media/HttpFileServer.cpp:228-246 | any chunk, in any order and however often, keeps the file equal to the source wherever a chunk is recorded, if and only if its write loses no byte of it or of an earlier chunk |
| ChunkedUpload.CompleteMeansEqual | im_server/src/media/HttpFileServer.cpp:297-306 | when the recorded indices number chunkCount the file is the source byte for byte, if and only if no recorded byte was lost |
| ChunkedUpload.StepKeepsIntact | im_server/src/media/HttpFileServer.cpp:106-334 | a step of client or server keeps every file right if and only if it is not such a chunk |
| ChunkedUpload.DamageStays | im_server/src/db/Database.cpp:1443-1455 | in every run a damaged byte stays for as long as its session exists, whatever is retried |
| ChunkedUpload.LostWriteBlocks | im_server/src/media/HttpFileServer.cpp:228-246 | for every file of one chunk a run in which a failed write makes the upload impossible to finish |
| ChunkedUpload.FinalizesOnlyTheWholeFile | client_core/src/media/MediaService.cpp:198-244 | in every run the client finalizes only a complete session; its file is the source, and the server's checks pass, if and only if no byte was lost; none is lost when no write does harm |
| RefreshRotation.TokenService.Issue | im_server/src/auth/TokenService.cpp:89-125 | a new session of generation 1, or nothing when a hash is taken |
| RefreshRotation.TokenService.RotateRefresh | im_server/src/auth/TokenService.cpp:147-201 | cached, denied, punished or exchanged: answer and new state |
| RefreshRotation.TokenService.RotateRefreshToken | im_server/src/db/Database.cpp:1694-1741 | history row and conditional update together, or neither |
| RefreshRotation.RunKeepsInv | im_server/src/db/Database.cpp:1613-1801 | in every run no hash of the history is current and a generation is one plus its family's history rows |
| RefreshRotation.ExchangedForOnePair | im_server/src/auth/TokenService.cpp:147-201 | in every run all successful answers to one refresh token carry the same pair |
| RefreshRotation.AnsweredIffExchangeable | im_server/src/auth/TokenService.cpp:147-187 | a request without a kept answer is answered exactly if some session holds the token, is unrevoked, unexpired and of the same device, and the database does not refuse |
| RefreshRotation.KeptAnswerIsRepeated | im_server/src/auth/TokenService.cpp:157-165 | a kept answer is repeated exactly to the same token and device |
| RefreshRotation.ExchangeLeaves | im_server/src/auth/TokenService.cpp:176-201 | what an exchange leaves of session, history and kept answers, field by field |
| RefreshRotation.ExchangesAreLawful | im_server/src/auth/TokenService.cpp:147-201 | in every run each exchange was made for a session that was then unrevoked, unexpired and of the requesting device |
| RefreshRotation.KeptAnswersAreBounded | im_server/src/auth/TokenService.cpp:195-200 | at most 1024 answers are kept |
| RefreshRotation.ReuseRevokesFamily | im_server/src/auth/TokenService.cpp:167-175 | a used token presented after its cached answer expired is refused, and revokes its family if and only if the revoking statement is carried out |
| RefreshRotation.RevokedForever | im_server/src/db/Database.cpp:1761-1801 | in every run revoked is never undone |
| RefreshRotation.RevocationMarks | im_server/src/db/Database.cpp:1781-1801 | a revocation of a session, a user or a family marks exactly those sessions and changes nothing else |
| TokenPersistence.TokenManager.LoadFromStore | client_core/src/account/TokenManager.cpp:40-83 | takes up exactly what the store holds, unless it has expired; a request of the manager's own stays unless one is stored |
| TokenPersistence.TokenManager.Adopt | client_core/src/account/TokenManager.cpp:99-111 | memory and store change together or not at all; like every operation of the manager it is a step of the runs below |
| TokenPersistence.TokenManager.Rotate | client_core/src/account/TokenManager.cpp:113-130 | the same for a rotation |
| TokenPersistence.TokenManager.BeginRefresh | client_core/src/account/TokenManager.cpp:150-164 | a pending request is joined, otherwise one is stored and remembered |
| TokenPersistence.TokenManager.CompleteRefresh | client_core/src/account/TokenManager.cpp:166-172 | the pending request is forgotten in memory and store, or kept in both |
| TokenPersistence.PrintParse | client_core/src/account/TokenManager.cpp:14-25 | a printed number is read back exactly if it is positive |
| TokenPersistence.ParseMeaning | client_core/src/account/TokenManager.cpp:14-25 | exactly white space, an optional plus sign and digits of a positive 64-bit number are read |
| TokenPersistence.KeysDiffer | client_core/src/account/TokenManager.cpp:34-38 | keys are equal exactly for equal account and field, whatever the account contains |
| TokenPersistence.SavedIsRestored | client_core/src/account/TokenManager.cpp:40-96 | a saved session is given back exactly if it is one the loader accepts |
| TokenPersistence.AccountsAreIsolated | client_core/src/account/TokenManager.cpp:34-38 | writes under one account's keys never change what another account's keys describe |
| TokenPersistence.FreshLoadRestores | client_core/src/account/TokenManager.cpp:40-172 | in every run of applied, refused and interrupted operations, restarts and changes of account, a fresh load has the session and pending request of the account's last applied operation |
| TokenPersistence.OthersUnchanged | client_core/src/account/TokenManager.cpp:34-38 | no operation for one account changes what is stored for another |
| TokenPersistence.StepKeepsInStep | client_core/src/account/TokenManager.cpp:40-172 | an operation keeps memory and store in step if and only if it is not a load that carries a request over |
| TokenPersistence.MemoryStaysInStep | client_core/src/account/TokenManager.cpp:40-172 | so memory and store agree in every run without such a load |
| TokenPersistence.PendingCarriedOver | client_core/src/account/TokenManager.cpp:69-74 | for any two accounts a run in which one's session gets the other's request |
| TokenPersistence.InterruptedOp | client_core/src/account/TokenManager.cpp:99-172 | wherever any operation is cut short, the store gives back for every account the state of before or after it |
| SlidingWindow.DropOldCounts | im_server/src/auth/LoginRateLimiter.cpp:20-25 | pruning a sorted queue keeps exactly the instants not before the cut-off |
| SlidingWindow.EveryWindow | im_server/src/ai/AiRequestLimiter.cpp:27-31 | a bound on windows that end at an event bounds every window |
| LoginRateLimiter.LoginRateLimiter.Allow | im_server/src/auth/LoginRateLimiter.cpp:32-49 | denies exactly when the whole history has a block for the address or the pair that still holds |
| LoginRateLimiter.LoginRateLimiter.RecordFailure | im_server/src/auth/LoginRateLimiter.cpp:51-71 | the history grows by the failure and every bucket follows it |
| LoginRateLimiter.LoginRateLimiter.RecordSuccess | im_server/src/auth/LoginRateLimiter.cpp:73-78 | the pair's failures no longer count |
| LoginRateLimiter.BlockEndMeaning | im_server/src/auth/LoginRateLimiter.cpp:51-69 | the stored end of the block is in the future exactly when some failure was the limit-th of its window and still blocks |
| LoginRateLimiter.DeniedMeaning | im_server/src/auth/LoginRateLimiter.cpp:32-78 | a login is refused exactly if its limit of failures of the address, or of the pair without a success since, lie within a window and the last still blocks, told by the events alone, for addresses without line breaks |
| LoginRateLimiter.CleanupTracks | im_server/src/auth/LoginRateLimiter.cpp:80-93 | dropping idle buckets changes no answer, now or later |
| LoginRateLimiter.PairKeysDiffer | im_server/src/auth/LoginRateLimiter.cpp:15-18 | pairs whose address has no line break, as no printed network address has, have different keys |
| LoginRateLimiter.LineBreakIsAmbiguous | im_server/src/auth/LoginRateLimiter.cpp:15-18 | only an address with a line break could share a key with a pair of a shorter address; the server never produces one (im_server/src/session/Session.cpp:126) |
| AiRequestLimiter.AiRequestLimiter.TryAcquire | im_server/src/ai/AiRequestLimiter.cpp:12-35 | the answer the whole history of acceptances demands; rate, replay and in-flight bounds are kept |
| AiRequestLimiter.AnswerMeaning | im_server/src/ai/AiRequestLimiter.cpp:12-35 | each answer exactly for its cause: a repetition within the window, the user in flight, the queue full, the last minute used up |
| AiRequestLimiter.AiRequestLimiter.Release | im_server/src/ai/AiRequestLimiter.cpp:37-40 | the user is no longer in flight |
| AiRequestLimiter.MinuteBound | im_server/src/ai/AiRequestLimiter.cpp:27-31 | every closed minute holds at most perMinute acceptances of a user |
| AiRequestLimiter.AcceptKeepsNoReplay | im_server/src/ai/AiRequestLimiter.cpp:18-23 | two acceptances of one request are more than the replay window apart |
| ReadPool.ReadPool.Open | client_core/src/storage/ReadPool.cpp:32-68 | all connections idle and fresh, or none; a closed pool opens only while it has its key, and the key is gone afterwards |
| ReadPool.ReadPool.FindIdle | client_core/src/storage/ReadPool.cpp:105-114 | the first idle slot in cyclic order |
| ReadPool.ReadPool.Enter | client_core/src/storage/ReadPool.cpp:99-138 | closing, busy, waiting or a slot, and the new state |
| ReadPool.ReadPool.Wake | client_core/src/storage/ReadPool.cpp:122-138 | closing, timeout or a slot after a wait |
| ReadPool.ReadPool.GiveBack | client_core/src/storage/ReadPool.cpp:148-154 | the slot is idle, no other changes, and the count is one less |
| ReadPool.NoneIdleMeansAllBusy | client_core/src/storage/ReadPool.cpp:105-114 | no slot is found exactly when all are busy |
| ReadPool.FoundIsFirst | client_core/src/storage/ReadPool.cpp:105-114 | the slot found is the first idle one going round from the last |
| ReadPool.EnterMeaning | client_core/src/storage/ReadPool.cpp:99-138 | what a reader is told and which slot is lent, with the whole new state |
| ReadPool.WakeMeaning | client_core/src/storage/ReadPool.cpp:122-138 | the same for a reader that waited |
| ReadPool.RunKeepsInv | client_core/src/storage/ReadPool.cpp:70-155 | in every interleaving each busy slot has one holder, m_active counts the busy slots, and a returned slot is in bounds |
| ReadPool.FinishCloseKeepsInv | client_core/src/storage/ReadPool.cpp:70-85 | connections are destroyed only when nobody holds or awaits one |
| ReadPool.WakingSucceeds | client_core/src/storage/ReadPool.cpp:122-132 | a reader woken in an open pool because a slot is idle always gets one |
| ReadPool.ReopenKeepsInv | client_core/src/storage/ReadPool.cpp:32-68 | opening again is safe if and only if the pool is open or no reader holds a connection |
| ReadPool.FirstOpenIsSafe | client_core/src/storage/ReadPool.cpp:32-68 | while the pool has its key nothing was lent, so opening it is safe |
| ReadPool.ReopenWhileReading | client_core/src/storage/ReadPool.cpp:32-155 | a run from the new pool in which opening during a close fails and takes away the slot a reader has to return |

## Left out

- Sockets, TLS, threads, timers and the event loops around the modelled steps: library-driven input and output.
- OpenSSL, SQLCipher and protobuf internals: cryptography is symbolic and ideal, key derivation and digests of uploads are parameters, messages are given parsed, and reading a serialised record gives it back.
- The server's own half of the channel: its peer is the client's code with the two directions exchanged.
- Media messages in `Delivery`: messages are text, since a repeated media request is checked against its upload record before the save.
- SecureOpening.OpenChannelDelivers: it is assumed that nobody but a session of the server computes the verification value the client expects, and that key derivation has no collisions.
- SecureChannel.ClientSecureChannel.HandleServerHello: the X25519 outcome and the parsed hello are parameters, so key agreement itself is not modelled.
- Delivery.ReliableDelivery: claimed attempts are sent one by one in any interleaving, which allows more runs than the send loop has; ids drawn by the client are random, so others are assumed to use one only after the server has it.
- Several accounts in one client database, conversation previews, media columns and the max-seen watermark: they add columns to the same transactions.
- ClientRepository.NativeRepository.CommitOutgoingDraft: the search rows and the conversation preview written in the same transaction are not in the tables modelled.
- ClientRepository.NativeRepository.CommitIncomingMessage: filling in missing media columns, the search rows of live messages and the max-seen watermark are not in the tables modelled.
- ClientRepository.NativeRepository.FinishProjection: the conversation preview is not modelled.
- ClientRepository.NativeRepository.CommitAck: the time of the conversation preview is not modelled.
- ClientRepository.NativeRepository.MarkConversationRead: the read watermark kept in a row of its own is not modelled, only the conversation's read position.
- LegacyMigration.MigrationImporter.ImportBatch: the conversation summary written beside the messages is not modelled.
- SyncGaps.RoundShrinks: which messages of an answer are taken is a parameter, and the numbers that arrived are taken to be numbers of this conversation; `DeliverySettles` says when both are so.
- Retry back-off with jitter, page budgets and timers of gap requests: the retry time is chosen by the run.
- LegacyMigration.MigrationImporter.ApplyLegacyDeltaBatch: changes to conversations and the clean-up of outbox and media rows change no modelled table; parsing of JSON payloads is given.
- CutoverJournal.NativeDatabase.SubmitBusinessSync: the listener and the case of a caller that stops waiting before the outcome is known are not modelled.
- ChunkedUpload.HttpFileServer.HandleCreateUpload: whether an upload is answered at once from a file the server has is a parameter; the contents of the challenge are not modelled.
- ChunkedUpload.HttpFileServer.HandleUploadChunk: recording a chunk and writing its bytes, completely or not, are one step, so no other request comes between the two.
- ChunkedUpload.HttpFileServer.HandleFinalizeUpload: moving the file to its final place, and a failure of that, are not modelled.
- RefreshRotation.ReuseRevokesFamily: statements that only read are taken to succeed.
- RefreshRotation.ExchangedForOnePair: random tokens are assumed to have hashes that were never seen; the look-up and the update of one request are separated only by a possible revocation.
- LoginRateLimiter.LoginRateLimiter.Allow: clocks start at 0 and do not go back, and the window and the address block are not negative.
- Sha256.Sha256.Final: for 2^61 bytes or more the standard defines no hash.
- ReadPool.ReadPool.Enter: running the caller's function and catching its exceptions happen outside the lock and are not modelled.
- Account state machines, friends, presence, HTTP model clients, regex redaction and logging: settled by reading one branch.
