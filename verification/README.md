# DBMesh in Dafny

DBMesh is a MySQL routing proxy: it accepts client connections, classifies each
statement, plans which backend may serve it, borrows a pooled connection to that
backend and forwards the response. This project models the four parts whose
correctness is not visible from any single function, and proves what holds of them
for every input, every interleaving and every command history.

* **Connection pool** (`PoolSteps`, `PoolRuns`, `PoolOwnership`, `PoolCapacity`,
  `PoolAccounting`, `ConnectionPool`). Each stretch of strand code between two
  suspension points is one atomic step on a `PoolState`; the class `Pool` performs
  those steps on its own fields. A run is any sequence of events: acquires that are
  granted, connect or queue; connects that succeed or fail; timers; resumptions;
  releases, stray and repeated ones included; warming; reaping; draining.
* **SQL scanners and routing** (`SqlText`, `CommentScanner`, `StatementSplitter`,
  `QueryClassifier`, `ScannerAgreement`, `LetterCase`, `LexByText`, `StatementWords`,
  `SchemaExtractor`, `SchemaScan`, `SchemaNames`, `CommentedSchema`,
  `BackendRegistry`, `RoutingPolicies`, `BackendSelector`, `RoutingEngine`,
  `SessionState`, `Session`). A reference lexer cuts SQL into code, comments and
  literals; the hand-written scanners are shown to agree with it and with each
  other. On top stands the write-safety theorem over whole command histories.
* **Wire protocol** (`Codec`, `Framing`, `Packets`, `Handshake`, `HandshakePackets`, `WireLayout`,
  `ResultProxy`). Writers and readers of the MySQL Client/Server Protocol undo each
  other, and result forwarding stops exactly at the response boundary.
* **Registry and policies** (`BackendRegistry`, `RoutingPolicies`). The group index
  refines the by-id map, and the policies' shares are exact.

Every loop of the modelled code is a method with a loop, proved equal to a function
of its input; the properties are lemmas about those functions. Objects whose fields
change are classes whose methods state the whole new value.

## Where the code does less than its comments say

The model follows the code. Each of these is a proved statement, and where a
property fails the exact condition under which it holds is proved beside it.

* Writing a payload whose size is a positive multiple of 0xFFFFFF never ends: after
  the payload the loop sends empty packets for ever (`WriteEndsExactlyWhen`,
  `EndlessWriteSends`).
* The pool exceeds its maximum when connects overlap, by exactly the overlap minus
  one (`CapacityInEveryRun`, `CapacityIsTight`).
* A waiter stays queued beside usable capacity exactly after a closing release or a
  warmed connection (`StrandedExactlyBy`).
* Drain is absorbing exactly when no connect is in flight across it
  (`DrainAbsorbsExactlyWhenIdle`), and a connection handed to a waiter is alive exactly
  before drain (`HandedIsLiveExactlyBeforeDrain`).
* The query counter of a connection is written after release was called, when it may be
  gone at any moment (`SafeToWriteExactlyWhileHeld`).
* A pin is honoured whatever the registry says (`PinIsNeverChecked`,
  `PlanIsFitExactlyWhen`), and a plan keeps the role REPLICA when the selection fell
  back to a primary (`RoleMismatchExactlyOnFallback`).
* The failover policy's "config order" is the order the index was filled in, which may
  be the reverse (`IndexMayReverseConfigOrder`); its test of the state never decides
  (`FailoverTakesHead`), so its choice is settled exactly when there is one candidate
  (`FailoverIsOrderFreeExactlyWhen`).
* Round robin is unfair across the wrap of its counter exactly when the number of
  candidates does not divide 2^64 (`FairAcrossWrapExactlyWhen`), and, since all groups and
  both roles share one counter, may never choose some candidate at all
  (`SharedCounterReachesAllExactlyWhen`).
* An ERR packet among the rows does not end the forwarding
  (`ResultSetForwardedExactlyWhen`); forwarding hangs at a payload of endless size, which
  the client receives whole and followed by empty packets (`HangsAtFirstUnsendable`,
  `HangingClientReceives`); a packet of several frames is sent again from its last
  frame's sequence number (`ResentUnchangedExactlyWhen`).
* The schema extractor does not skip comments, unlike the classifier: a comment may name
  a schema or hide one (`CommentDecidesSchema`, `CommentHidesSchema`).
  `ExtractorTakesCommentForBlankExactlyWhen` says which comments are harmless where no name
  is pending; between a keyword and its name even those hide it
  (`CommentInNameHidesIt`, `NoCommentBeforeNameIsBlank`).
* `SET autocommit = 0`, with a blank before the equals sign, turns autocommit on, since the
  normalised prefix is too short to hold the spelling looked for (`AutocommitExactly`,
  `SpacedAutocommitTurnsOn`); no plan depends on it anyway
  (`SetNeverChangesPlans`).
* `USE` behind leading white space, or followed by a line break, switches to a
  different name (`UseSwitchesExactlyWhen`); a batch that begins with a session-local statement is
  answered locally as a whole, so its other statements reach no backend
  (`LocalBatchIsNotRouted`).
* A handshake response is lost in translation when neither length flag is set, or
  its auth response is longer than its length style can say
  (`HandshakeResponseRoundTripExactly`).

## Model

| member | source | states |
|---|---|---|
| PoolSteps.ReapSpec | pool/src/connection_pool.cpp:220-232 | one reaper pass closes exactly min(expired idle, excess over the minimum) connections, the earliest expired of the free list; the rest keep their order, active ones are untouched, and the minimum is not crossed |
| PoolSteps.ReleaseKeepsStructure | pool/src/connection_pool.cpp:116-148 | a release of any connection, held or not, keeps the containers a partition and the state fields and counters in agreement |
| PoolSteps.ReleaseOutcome | pool/src/connection_pool.cpp:116-148 | a connection that is not active is left alone; an unhealthy or closed one, and any one of a pool shutting down, is in no container afterwards; every other goes to the first waiter or, if nobody waits, to the end of the free list |
| PoolRuns.StructureInEveryRun | pool/src/connection_pool.cpp:29-201 | in every reachable state free list and active set are duplicate-free, disjoint and together exactly all tracked connections; state fields and published counters agree with them, whatever clients release |
| PoolRuns.StepKeepsProtocol | pool/src/connection_pool.cpp:91-111 | every event keeps queued waiters in arrival order without results, and never changes what an ended acquire returned |
| PoolRuns.WaiterProtocolInEveryRun | pool/src/connection_pool.cpp:91-111 | over every run each waiter ever created is in exactly one of asleep, woken, ended, and ends once |
| PoolOwnership.OwnershipInEveryRun | pool/src/connection_pool.cpp:63-148 | before drain, active connections are in bijection with owners: a client, a release in flight, or one woken waiter |
| PoolOwnership.PoolInvariants | pool/src/connection_pool.cpp:29-201 | structure, waiter protocol and ownership together, for every run from the empty pool |
| PoolOwnership.HandOffReachesEarliest | pool/src/connection_pool.cpp:130-140 | a hand-off goes to the earliest waiter still queued and changes nobody else's result |
| PoolOwnership.HandedUntilResumed | pool/src/connection_pool.cpp:97-105 | over any run without its resumption a waiter keeps the connection handed to it and stays woken |
| PoolOwnership.LateReleaseIsNotLost | pool/src/connection_pool.cpp:97-140 | whether or not the waiter's timer has expired, and whatever happens between the hand-off and the resumption, the acquire returns the released connection and its caller owns it |
| PoolOwnership.HandedIsLiveExactlyBeforeDrain | pool/src/connection_pool.cpp:182-201 | in every reachable state a handed connection is active, and tracked, if and only if the pool has not been drained |
| PoolOwnership.ResumedConnectionIsLiveExactlyBeforeDrain | pool/src/connection_pool.cpp:102-105 | a resuming waiter with a result always succeeds, and the pool still tracks what it returns if and only if no drain came before |
| PoolOwnership.HeldConnectionLivesExactlyUntilDrain | pool/src/connection_pool.cpp:63-201 | over any disciplined run in which its client does not call release, a connection is tracked at the end if and only if the pool was not drained |
| PoolOwnership.SafeToWriteExactlyWhileHeld | protocol/mysql/src/mysql_connection.cpp:333-334 | no continuation without drain loses a connection if and only if its client still holds it; once release is called the write to its query counter may touch a destroyed connection |
| PoolOwnership.HealthyReleaseMayBeLost | pool/src/connection_pool.cpp:116-128 | a healthy and open connection is lost too when a drain comes between the call of release and its handler |
| PoolOwnership.ClosedIsNeverHandedOutAgain | pool/src/connection_pool.cpp:123-128 | once the release of an unhealthy or closed connection has run, in every continuation it is neither tracked nor any waiter's result nor any client's: no acquire ever returns it again |
| PoolCapacity.CapacityInEveryRun | pool/src/connection_pool.cpp:79-89 | tracked connections plus connects in flight never exceed max - 1 plus the peak number of overlapping connects |
| PoolCapacity.NoOverlapNoExcess | pool/src/connection_pool.cpp:79-89 | if connects never overlap the pool never holds more than its maximum |
| PoolCapacity.CapacityIsTight | pool/src/connection_pool.cpp:79-89 | for every maximum and every overlap some run reaches that bound exactly |
| PoolCapacity.StrandedExactlyBy | pool/src/connection_pool.cpp:123-167 | one step leaves a waiter queued beside usable capacity exactly when it closes a connection of a pool at its maximum, or warms one, while somebody waits |
| PoolCapacity.NobodyStrandedInEveryRun | pool/src/connection_pool.cpp:91-148 | over runs without those steps a non-empty queue implies an empty free list and a full pool |
| PoolCapacity.QuietForever | pool/src/connection_pool.cpp:182-201 | after a drain with no connect in flight every continuation keeps all containers empty and rejects every acquire |
| PoolCapacity.DrainAbsorbsExactlyWhenIdle | pool/src/connection_pool.cpp:182-201 | drain is absorbing if and only if no connect was in flight across it |
| PoolCapacity.DrainLeavesAtMostInFlight | pool/src/connection_pool.cpp:182-201 | otherwise at most the connects in flight are ever tracked again |
| PoolAccounting.TotalCountsGrants | pool/src/connection_pool.cpp:68-105 | over every run the acquired total is the number of acquires that returned a connection |
| PoolAccounting.IdleSinceFreed | pool/src/connection_pool.cpp:143-147 | the time the reaper compares is the moment of the release or warm-up that made the connection free, over any run in between |
| PoolAccounting.ExpiredExactlyAfterIdleTime | pool/src/connection_pool.cpp:222-224 | a connection freed at t and free since then is expired at now if and only if now - t exceeds the limit |
| PoolAccounting.LongestIdleIsReused | pool/src/connection_pool.cpp:68-77 | in every run whose clock does not go back, an acquire that reuses a connection takes one that has been free longest |
| ConnectionPool.Pool.Acquire | pool/src/connection_pool.cpp:63-93 | the object performs exactly the acquire step (reject, grant, connect or queue) and stays valid |
| ConnectionPool.Pool.AcquireConnected | pool/src/connection_pool.cpp:81-88 | after a connect the new connection is tracked, active and counted, and the pool stays valid |
| ConnectionPool.Pool.AcquireResumed | pool/src/connection_pool.cpp:100-111 | a woken waiter returns its result, or leaves the queue and times out; the pool stays valid |
| ConnectionPool.Pool.Release | pool/src/connection_pool.cpp:116-148 | the object performs exactly the release step, whose four outcomes ReleaseOutcome states, and stays valid |
| ConnectionPool.Pool.WarmConnected | pool/src/connection_pool.cpp:164-168 | a warmed connection is tracked and free, and the pool stays valid |
| ConnectionPool.Pool.Warm | pool/src/connection_pool.cpp:156-174 | the warming loop, with whatever the strand runs while each connect is pending, computes exactly the warming run, and the pool stays valid |
| PoolSteps.WarmRunUndisturbed | pool/src/connection_pool.cpp:156-174 | undisturbed, warming adds exactly the connections made, all free, up to the first failed connect, the minimum, the maximum or shutdown, and never goes beyond the maximum |
| ConnectionPool.Pool.ReapTick | pool/src/connection_pool.cpp:220-232 | the reaper's loop computes exactly the reap step, and the pool stays valid |
| ConnectionPool.Pool.Drain | pool/src/connection_pool.cpp:182-201 | the drain loop and clears compute exactly the drain step, and the pool stays valid |
| Codec.LittleEndianRoundTrip | protocol/mysql/include/dbmesh/protocol/mysql/codec.h:55-58 | little-endian bytes of any value that fits are read back |
| Codec.LenencIntRoundTrip | protocol/mysql/include/dbmesh/protocol/mysql/codec.h:45-111 | a written 64-bit integer is read back at any position before any bytes, and the position ends exactly past it |
| Codec.LenencStrRoundTrip | protocol/mysql/include/dbmesh/protocol/mysql/codec.h:61-130 | the same for strings of any length |
| Codec.LenencStrPrefixFree | protocol/mysql/include/dbmesh/protocol/mysql/codec.h:61-64 | no string's code is a prefix of another's |
| Codec.NullStrRoundTrip | protocol/mysql/include/dbmesh/protocol/mysql/codec.h:40-120 | a NUL-free string is read back and its NUL consumed |
| Codec.WriteLenencInt | protocol/mysql/include/dbmesh/protocol/mysql/codec.h:45-59 | the writer appends exactly the code of the value |
| Codec.ReadLenencIntLoop | protocol/mysql/include/dbmesh/protocol/mysql/codec.h:88-111 | the reader, loop included, computes value and position, truncated integers reading as 0 |
| Codec.ReadNullStrLoop | protocol/mysql/include/dbmesh/protocol/mysql/codec.h:114-120 | the reader stops at the first NUL or the end |
| WireLayout.LittleEndianByte | protocol/mysql/include/dbmesh/protocol/mysql/codec.h:18-34 | byte number i is the i-th digit to base 256, least significant first |
| WireLayout.FixedWidthIsLittleEndian | protocol/mysql/include/dbmesh/protocol/mysql/codec.h:18-34 | the two-, three- and four-byte writers write exactly those bytes |
| WireLayout.LenencLayout | protocol/mysql/include/dbmesh/protocol/mysql/codec.h:45-59 | one byte up to 250, then mark 252 and two, 253 and three, 254 and eight bytes |
| WireLayout.LenencByFirstByte | protocol/mysql/include/dbmesh/protocol/mysql/codec.h:88-111 | reading goes by the first byte, marks 251, 254 and 255 taking eight bytes; cut off by the end it reads 0 and stops behind the mark |
| Framing.ReadPacketLoop | protocol/mysql/src/packet_framer.cpp:40-84 | the reading loop computes the chain reader on every byte stream, failures included |
| Framing.ReadInvertsFrames | protocol/mysql/src/packet_framer.cpp:40-84 | the reader inverts the prescribed chain for payloads of every size, reports the last sequence number, consumes nothing else |
| WireLayout.FrameLayout | protocol/mysql/src/packet_framer.cpp:93-109 | three length bytes, the sequence number, the payload; a full packet is followed by another with the next number |
| Framing.TruncatedPacketFails | protocol/mysql/src/packet_framer.cpp:40-84 | a stream that ends anywhere inside a packet chain yields a failed read |
| Framing.WriteWhole | protocol/mysql/src/packet_framer.cpp:86-114 | at every size where it ends, the loop itself terminates by what is left to send, and has then sent the prescribed chain |
| Framing.WritePacketSendsFrames | protocol/mysql/src/packet_framer.cpp:86-114 | for every terminating size it ends after one pass per packet, having sent the prescribed chain and advanced the sequence by the chunk count mod 256 |
| Framing.WriteEndsExactlyWhen | protocol/mysql/src/packet_framer.cpp:108-109 | the loop ends if and only if the size is not a positive multiple of 0xFFFFFF |
| Framing.EndlessWriteSends | protocol/mysql/src/packet_framer.cpp:93-109 | at an endless size one pass per prescribed packet sends the whole chain, n further passes send n empty packets more, and the loop is never done |
| Framing.FramingRoundTrip | protocol/mysql/src/packet_framer.cpp:40-114 | writing any list of payloads of terminating size and reading returns them in order and leaves the rest unread |
| Framing.EncodeDecodeExactly | protocol/mysql/src/packet_framer.cpp:17-36 | decode inverts encode exactly for payloads of at most 0xFFFFFF bytes |
| Packets.MakeTextRow | protocol/mysql/include/dbmesh/protocol/mysql/packets.h:93-104 | the row loop appends the code of each value, NULL for empty ones |
| Packets.TextRowRoundTrip | protocol/mysql/include/dbmesh/protocol/mysql/packets.h:93-104 | an encoded row is read back value by value |
| Packets.TextRowInjective | protocol/mysql/include/dbmesh/protocol/mysql/packets.h:93-104 | different lists of strings have different rows |
| Packets.TextRowIsNeverTerminator | protocol/mysql/src/mysql_connection.cpp:219-221 | no encoded row is taken for EOF or begins like ERR |
| WireLayout.RowLayout | protocol/mysql/include/dbmesh/protocol/mysql/packets.h:93-104 | each value is 0xFB if empty, otherwise its length and bytes |
| WireLayout.EofLayout | protocol/mysql/include/dbmesh/protocol/mysql/packets.h:49-57 | an EOF packet is 0xFE, warnings and status |
| WireLayout.ColumnDefLayout | protocol/mysql/include/dbmesh/protocol/mysql/packets.h:69-90 | a column definition byte by byte |
| ResultProxy.SendableExactlyWhen | protocol/mysql/src/mysql_connection.cpp:383-387 | a send returns if and only if the payload's size is not a positive multiple of 0xFFFFFF |
| ResultProxy.ProxyResultLoop | protocol/mysql/src/mysql_connection.cpp:344-379 | the two forwarding loops compute the forwarding function and every byte on the wire, on every packet stream: finished, cut off by the backend, or hanging in a send watched for any number of passes |
| ResultProxy.ResponseByFirstByte | protocol/mysql/src/mysql_connection.cpp:351-358 | a packet that is empty or begins with 0x00, 0xFF or 0xFB is the whole response, whatever follows; after any other at least two packets are read |
| ResultProxy.ResultSetByBytes | protocol/mysql/src/mysql_connection.cpp:360-378 | any other response is everything up to the second packet of fewer than nine bytes that begins with 0xFE, each sent with its sequence number and payload |
| ResultProxy.ForwardsOneResponse | protocol/mysql/src/mysql_connection.cpp:344-379 | a response, whatever follows, is forwarded packet by packet with the sequence numbers received and the remainder unread, if and only if no payload has an endless size |
| ResultProxy.HangsAtFirstUnsendable | protocol/mysql/src/mysql_connection.cpp:344-387 | otherwise forwarding hangs at the first such packet: those before it are through and none after it is read |
| ResultProxy.HangingClientReceives | protocol/mysql/src/packet_framer.cpp:93-109 | the client then has the packets before, the hanging one whole, and one empty packet more for every further pass |
| ResultProxy.SuccessMeansOneResponseExactlyWhen | protocol/mysql/src/mysql_connection.cpp:344-379 | conversely whatever is forwarded to its end is one response if and only if no ERR packet stands behind its first |
| ResultProxy.ResultSetForwardedExactlyWhen | protocol/mysql/src/mysql_connection.cpp:369-377 | a result set ended by EOF or ERR is forwarded alone if and only if it ends with EOF and no payload has an endless size |
| ResultProxy.ErrorAmongRowsOverruns | protocol/mysql/src/mysql_connection.cpp:369-377 | after an ERR among the rows, forwarding that ends has consumed packets beyond the response |
| ResultProxy.ForwardedBytesUnchanged | protocol/mysql/src/mysql_connection.cpp:344-387 | a response of single-frame packets reaches the client as the same bytes |
| ResultProxy.ResentUnchangedExactlyWhen | protocol/mysql/src/mysql_connection.cpp:373-387 | the writer sends a packet just read as the same bytes if and only if it ends at all and the number of full frames is a multiple of 256 |
| ResultProxy.BuiltResultSetIsResponse | protocol/mysql/include/dbmesh/protocol/mysql/packets.h:62-104 | a result set of any columns and rows made by the packet builders is one response: nothing inside it looks like its end |
| Handshake.HandshakeV10RoundTripExactly | protocol/mysql/src/handshake.cpp:26-106 | decode inverts encode if and only if the version is NUL-free and the flags and remaining fields are of the listed kinds |
| WireLayout.V10Layout | protocol/mysql/src/handshake.cpp:26-59 | the encoding field by field as Protocol::HandshakeV10 lays it out |
| WireLayout.V10OfAnyServer | protocol/mysql/src/handshake.cpp:61-106 | the handshake of any server with the two flags is decoded, whatever challenge length it announces and whatever stands in reserved bytes and filler |
| WireLayout.V10Errors | protocol/mysql/src/handshake.cpp:69-79 | which truncation of a handshake yields which error |
| WireLayout.NotV10 | protocol/mysql/src/handshake.cpp:63-64 | an empty packet, or one of another protocol version, is no handshake |
| WireLayout.V10Defaults | protocol/mysql/src/handshake.cpp:81-105 | a handshake that ends behind the lower flags has the default values |
| WireLayout.MiddleByLength | protocol/mysql/src/handshake.cpp:83-89 | which of the middle fields are read from a packet of each length |
| Handshake.HandshakeResponseRoundTripExactly | protocol/mysql/src/handshake.cpp:110-176 | decode inverts encode, up to the default plugin and fields whose flag is off, if and only if strings are NUL-free and the auth response fits its length style |
| WireLayout.ResponseLayout | protocol/mysql/src/handshake.cpp:110-132 | the encoding field by field as Protocol::HandshakeResponse41 lays it out, the optional fields by bits 3 and 19 |
| WireLayout.ResponseOfAnyClient | protocol/mysql/src/handshake.cpp:134-176 | the response of any client is decoded, whatever stands in the reserved bytes, auth responses of any length included where their length is encoded |
| WireLayout.AuthByFlags | protocol/mysql/src/handshake.cpp:151-167 | bit 21 asks for an encoded length, bit 15 for one length byte, neither for no auth response; overruns are errors |
| WireLayout.FlagBits | protocol/mysql/include/dbmesh/protocol/mysql/constants.h:10-28 | the capability flags are the bits the protocol gives them |
| WireLayout.DefaultPlugin | protocol/mysql/src/handshake.cpp:128-129 | the plugin named by default is mysql_native_password |
| WireLayout.ResponseErrors | protocol/mysql/src/handshake.cpp:136-147 | which packets are too short |
| HandshakePackets.WriteV10 | protocol/mysql/src/handshake.cpp:26-59 | the appended buffer is the encoding |
| HandshakePackets.ParseV10 | protocol/mysql/src/handshake.cpp:61-106 | the parser with its byte-copy loops computes the decoding of every packet, truncated ones included |
| HandshakePackets.WriteResponse | protocol/mysql/src/handshake.cpp:110-132 | the appended buffer is the encoding |
| HandshakePackets.ParseResponse | protocol/mysql/src/handshake.cpp:134-176 | the parser computes the decoding of every packet, error cases included |
| CommentScanner.StripComments | routing/src/query_classifier.cpp:44-89 | the scanner's loop computes the stripping function |
| CommentScanner.LexIsLossless | routing/src/query_classifier.cpp:43-89 | cutting into code, comments and literals loses nothing |
| LexByText.LineCommentToken | routing/src/query_classifier.cpp:54-63 | hash sign or two dashes begin a comment up to and including the newline, or to the end |
| LexByText.BlockCommentToken | routing/src/query_classifier.cpp:64-70 | slash-star begins a comment up to the first star-slash, or to the end |
| LexByText.LiteralTokenOf | routing/src/query_classifier.cpp:71-86 | a text between quotes, with doubled quotes and, outside backticks, backslash pairs, is one literal |
| LexByText.CodeToken | routing/src/query_classifier.cpp:71-74 | every other character is code |
| CommentScanner.StripShowsTokens | routing/src/query_classifier.cpp:43-89 | stripping blanks each comment and copies every literal and code character byte for byte |
| CommentScanner.StripIdempotent | routing/src/query_classifier.cpp:44-89 | stripping stripped text changes nothing |
| StatementSplitter.SplitStatements | routing/src/query_classifier.cpp:92-119 | the splitting loop, trimming included, computes the splitting function |
| StatementSplitter.JoinPieces | routing/src/query_classifier.cpp:92-119 | the raw pieces joined with semicolons are the input |
| StatementSplitter.SplitIsFinal | routing/src/query_classifier.cpp:92-119 | every emitted statement is non-blank, trimmed, free of top-level semicolons, and splits into itself |
| LexByText.TrimTakesBlanks | routing/src/query_classifier.cpp:97-102 | trimming takes off the blanks around a statement and nothing else |
| ScannerAgreement.SplitAgreesWithTokens | routing/src/query_classifier.cpp:44-119 | on stripped text a semicolon separates statements exactly when it stood outside comments and literals in the original |
| ScannerAgreement.CteAgreesWithTokens | routing/src/query_classifier.cpp:134-174 | on stripped text the WITH scanner finds exactly the main keyword of the original's tokens: words of code outside parentheses, comments and literals, doubled quotes and unclosed literals included |
| ScannerAgreement.CteIgnoresGroupBody | routing/src/query_classifier.cpp:134-174 | replacing the body of any balanced parenthesised group leaves the classification unchanged |
| ScannerAgreement.CteIgnoresLiteralText | routing/src/query_classifier.cpp:134-174 | replacing any literal by another leaves it unchanged |
| QueryClassifier.ClassifyCte | routing/src/query_classifier.cpp:134-174 | the scanning loop computes the depth-zero keyword search |
| QueryClassifier.ReadFirstKeyword | routing/src/query_classifier.cpp:122-131 | the loops compute the lower-cased leading keyword, empty when it overflows the buffer |
| QueryClassifier.ClassifySql | routing/src/query_classifier.cpp:195-212 | the imperative classifier computes the classification of every text |
| StatementWords.TypeByOpeningWord | routing/src/query_classifier.cpp:178-193 | a statement has the type of its opening word, behind blanks and parentheses, in any letter case and whatever follows, by lists of the words written out |
| StatementWords.NoOpeningWordIsUnknown | routing/src/query_classifier.cpp:180-181 | a statement without an opening word is of no known type |
| StatementWords.TypeOfMainWord | routing/src/query_classifier.cpp:134-174 | a WITH statement has the type of its first main word outside parentheses and literals |
| StatementWords.WritesExactlyByText | routing/src/query_classifier.cpp:178-193 | a statement is a write if and only if it opens with one of the write words, or with WITH and its main word makes it one |
| StatementWords.BatchIsFirstWrite | routing/src/query_classifier.cpp:202-211 | the first write decides the type of a batch |
| StatementWords.BatchIsFirstKnown | routing/src/query_classifier.cpp:202-211 | without a write the first statement of known type does |
| QueryClassifier.BatchEscalates | routing/src/query_classifier.cpp:202-211 | a batch escalates to a write exactly when some statement is one |
| StatementWords.BatchWritesExactly | routing/src/query_classifier.cpp:195-212 | SQL classifies as a write if and only if some statement of its stripped, split batch is a write by its own text |
| LetterCase.ClassifyIgnoresCase | routing/src/query_classifier.cpp:122-212 | changing the case of any letters leaves the classification unchanged |
| SchemaExtractor.ExtractScan | routing/src/schema_extractor.cpp:71-106 | the scan terminates although it moves its own index, and computes the extraction function |
| SchemaExtractor.ReadQualifiedSchemaAt | routing/src/schema_extractor.cpp:44-57 | the reader of qualified names computes name and position |
| SchemaNames.SchemaRoundTrip | routing/src/schema_extractor.cpp:19-106 | for all schema and table names, each bare or quoted, behind any keyword-free text and any of the five keywords, blanks around the dot or not, and whatever follows, the schema comes back as it is written |
| SchemaNames.UnqualifiedNamesNothing | routing/src/schema_extractor.cpp:44-57 | a bare name without a dot behind it names no schema: the scan goes on behind it |
| SchemaNames.KeywordsExactly | routing/src/schema_extractor.cpp:59-97 | the scan knows exactly the five words, as whole words in any letter case |
| CommentedSchema.ClassifierTakesCommentsForBlanks | routing/src/query_classifier.cpp:43-89 | no closed comment before a statement changes its classification |
| CommentedSchema.ExtractorTakesCommentForBlankExactlyWhen | routing/src/schema_extractor.cpp:71-106 | behind any prefix at whose end no word, quote or name is open, a closed comment is a blank to the schema scan, whatever follows, if and only if no keyword in it is followed by a qualified name or by one left open and it leaves no quote open |
| CommentedSchema.CommentInNameHidesIt | routing/src/schema_extractor.cpp:19-57 | while a keyword waits for its name, directly behind it or behind schema or dot, a schema-free comment makes the scan go on behind it as if keyword and beginning had not been there |
| CommentedSchema.NoCommentBeforeNameIsBlank | routing/src/schema_extractor.cpp:19-57 | so no schema-free comment between keyword and name is a blank: it hides a name that is read behind a blank |
| CommentedSchema.CommentDecidesSchema | routing/src/schema_extractor.cpp:71-106 | every closed comment that names a schema by itself decides it, behind any such prefix and whatever follows |
| CommentedSchema.CommentHidesSchema | routing/src/schema_extractor.cpp:77-87 | every closed comment that leaves a string open hides all schemas up to the next apostrophe or backslash |
| CommentedSchema.DecidingAndHidingComments | routing/src/schema_extractor.cpp:71-106 | there are comments of both kinds |
| BackendRegistry.Build | routing/src/backend_registry.cpp:17-23 | the index lists, for each group and without repeats, exactly its by-id entries, filled along some walk of the map |
| BackendRegistry.GroupListsAgree | routing/src/backend_registry.cpp:17-23 | any two such lists of a group hold the same entries: only the order is open |
| BackendRegistry.IndexIsInWalkOrder | routing/src/backend_registry.cpp:20-21 | each group's list is its entries in the order the map is walked, not that of the configuration |
| BackendRegistry.IndexMayReverseConfigOrder | routing/src/backend_registry.cpp:20-21 | of any two backends of a group, both orders are walks of their map, and each puts its first at the head of the list built |
| BackendRegistry.NewEntries | routing/src/backend_registry.cpp:26-28 | emplace makes one new entry per id that reads as the loaded configuration |
| BackendRegistry.LoadedKeepsFirst | routing/src/backend_registry.cpp:26-28 | a loaded configuration holds exactly the configured ids, each with its first configuration |
| BackendRegistry.ValidateBackends | core/src/config.cpp:511-520 | the start-up check accepts exactly the lists of backends with id, host, port and group, no id twice |
| BackendRegistry.Registry.Load | routing/src/backend_registry.cpp:25-34 | the registry reads the first configuration of each id with its id, group, role and weight, healthy and without lag; a list without repeats loses none |
| BackendRegistry.Registry.GetGroupByRole | routing/src/backend_registry.cpp:51-60 | the answer is, without repeats, exactly a full filter of the by-id map |
| BackendRegistry.Registry.Add | routing/src/backend_registry.cpp:62-69 | one backend is added or replaced, read as configured, healthy and without lag; nothing else changes, snapshots and entries taken earlier included |
| BackendRegistry.Registry.Remove | routing/src/backend_registry.cpp:71-79 | one backend goes and nothing else changes; an unknown id leaves the version alone |
| BackendRegistry.Registry.UpdateState | routing/src/backend_registry.cpp:81-86 | one backend's state changes, visible to every snapshot holding the entry, index kept |
| BackendRegistry.Registry.UpdateRole | routing/src/backend_registry.cpp:88-93 | one backend's role changes, index kept |
| BackendRegistry.Registry.UpdateLag | routing/src/backend_registry.cpp:95-99 | one backend's lag changes, index and version kept |
| BackendRegistry.Registry.ApplyAll | routing/src/backend_registry.cpp:25-99 | any sequence of loads, additions, removals and updates leaves the index agreeing with the by-id map and the reading the fold of the updates |
| BackendRegistry.RolesStayConfigured | routing/src/backend_registry.cpp:25-99 | after a load, and updates of health and lag and removals, every backend is read in the group and role it is configured for |
| RoutingPolicies.Counter.RoundRobinTimes | routing/src/routing_policies.cpp:19-24 | n successive calls choose each candidate as often as its position is hit, so any two counts differ by at most one unless the counter wraps on a list whose length does not divide 2^64 |
| RoutingPolicies.RoundRobinIsFair | routing/src/routing_policies.cpp:19-24 | n consecutive picks over m candidates choose each n/m times or once more |
| RoutingPolicies.RoundRobinCountsDifferByOne | routing/src/routing_policies.cpp:22-28 | with the 64-bit counter, any window without wrap, and every window if the list's length divides 2^64, is fair |
| RoutingPolicies.FairAcrossWrapExactlyWhen | routing/src/routing_policies.cpp:22-28 | all windows are fair if and only if the list's length divides 2^64 |
| BackendSelector.Selector.ServeInTurn | routing/src/backend_selector.cpp:11-17 | lists of several groups or roles served in turn by round robin share one counter: each call takes its next value |
| BackendSelector.TurnsOfList | routing/src/backend_selector.cpp:11-17 | served in turn, the j-th of L lists sees the counter at j, j + L, j + 2L and so on, as long as it does not wrap |
| RoutingPolicies.SharedCounterReachesAllExactlyWhen | routing/src/backend_selector.cpp:11-17 | every candidate of a list of m asked at every l-th call is chosen sometime if and only if l and m have no common divisor |
| RoutingPolicies.Weighted | routing/src/routing_policies.cpp:46-58 | the loop returns the drawn candidate and never reaches its fallback |
| RoutingPolicies.WeightedIsExact | routing/src/routing_policies.cpp:46-58 | exactly max(1, weight) of the possible draws choose each candidate |
| RoutingPolicies.LeastSpec | routing/src/routing_policies.cpp:65-103 | the strict-less scan returns the first candidate with the smallest signal, or its initial value if none beats the bound |
| RoutingPolicies.LivePoliciesFollowTheirSignals | routing/src/routing_policies.cpp:65-103 | least-connections follows the connection counts and latency the latencies |
| RoutingPolicies.Failover | routing/src/routing_policies.cpp:114-123 | the first candidate in list order that is neither failed nor draining, else the first |
| RoutingPolicies.FailoverByState | routing/src/routing_policies.cpp:114-123 | failover chooses the first candidate that is healthy, degraded or recovering, else the first |
| RoutingPolicies.EveryCandidateCanBeChosen | routing/src/routing_policies.cpp:17-108 | on any fixed list, every policy but failover chooses each candidate for some draw or counter value |
| BackendSelector.Selector.Candidates | routing/src/backend_selector.cpp:30-43 | the filtered list holds, without repeats, exactly the group's backends that have the role, are usable for it and not too far behind |
| BackendSelector.Selector.Select | routing/src/backend_selector.cpp:47-69 | the outcome is the policy's choice, for its counter and the draw, from a list of exactly the eligible backends, replicas falling back to primaries |
| BackendSelector.SelectedIsInPool | routing/src/backend_selector.cpp:47-69 | a successful selection names an eligible backend, the best by the policy's live signal if it has one |
| BackendSelector.EligibleByFields | routing/src/backend_selector.cpp:23-43 | a backend is eligible if and only if group and role fit, it is healthy or a degraded primary, and a replica under lag control is not too far behind |
| BackendSelector.SchemaPolicyCounts | routing/src/backend_selector.cpp:63-66 | the schema's own policy counts before the default one |
| BackendSelector.FailoverIsOrderFreeExactlyWhen | routing/src/routing_policies.cpp:111-123 | on the selector's candidates failover takes the head of the list, so its choice is independent of the index order if and only if there is only one candidate |
| BackendSelector.SelectFailsExactlyWhenNoneEligible | routing/src/backend_selector.cpp:47-69 | without live signals and with non-empty ids, selection fails if and only if no backend is eligible |
| RoutingEngine.Engine.Plan | routing/src/routing_engine.cpp:14-56 | the composed pipeline returns a plan the registry's reading allows |
| RoutingEngine.SchemaResolved | routing/src/routing_engine.cpp:21-28 | a statement is planned by the schema it names, else by the session's, and by the catch-all if that is not configured |
| RoutingEngine.PlanRoleExactly | routing/src/routing_engine.cpp:31-38 | a plan is for a replica if and only if the SQL is a read outside a transaction and reads are split, by the schema's setting or, without one, by the general one |
| RoutingEngine.PlanNamesEligible | routing/src/routing_engine.cpp:49-55 | a plan without a pin, or of a pinned session's replica read, names an eligible backend of its role in the resolved schema's group, or a primary when no replica is eligible |
| RoutingEngine.UnpinnedPlansExactly | routing/src/routing_engine.cpp:14-56 | without a pin and live signals, a plan comes out for some list order, draw and counter if and only if it carries the statement's type, schema and role and names such a backend |
| RoutingEngine.EveryMemberIsSelectable | routing/src/backend_selector.cpp:63-69 | under every policy each eligible backend is the outcome for some order of the group's list |
| RoutingEngine.PlanIsFitExactlyWhen | routing/src/routing_engine.cpp:40-55 | a plan names a backend fit for its role if and only if it is not the pin or the pin is a live primary of the group |
| RoutingEngine.WritesReachOnlyPrimaries | routing/src/routing_engine.cpp:14-56 | without a pin, a batch with a write, any statement other than a read, or anything in a transaction is planned only for a HEALTHY or DEGRADED primary of the resolved schema's group |
| RoutingEngine.ReplicaServesOnlyReads | routing/src/read_write_router.cpp:5-41 | a plan that names a replica is a read outside transactions, with splitting on, on a healthy replica within its lag limit |
| RoutingEngine.RoleMismatchExactlyOnFallback | routing/src/routing_engine.cpp:49-55 | plan role and backend role disagree if and only if a split read found no eligible replica |
| RoutingEngine.PlanFailsExactlyWhen | routing/src/routing_engine.cpp:14-56 | planning fails if and only if the schema is unknown or nobody eligible is left |
| RoutingEngine.PinIsNeverChecked | routing/src/routing_engine.cpp:37-47 | all primary-bound work of a pinned session, reads without splitting included, goes to the pin for every registry reading |
| Session.SetNeverChangesPlans | protocol/mysql/src/mysql_connection.cpp:246-253 | no SET statement, autocommit or not, changes any plan made after it |
| SessionState.NormalisePrefix | protocol/mysql/src/mysql_connection.cpp:197-213 | the loop computes the upper-cased, blank-collapsed prefix of at most 16 characters |
| SessionState.KindByText | protocol/mysql/src/mysql_connection.cpp:244-270 | each prefix test recognises exactly the statements whose own text, after blanks and up to case, begins with the words meant |
| SessionState.InTransactionExactly | protocol/mysql/src/mysql_connection.cpp:262-271 | a live session is in a transaction if and only if its history has a begin with no later commit or rollback |
| SessionState.CurrentDbExactly | protocol/mysql/src/mysql_connection.cpp:176-182 | in a live session the last packet that asks for a database, by COM_INIT_DB or USE, decides it |
| SessionState.CommandByCode | protocol/mysql/src/mysql_connection.cpp:126-182 | what one packet does to the database, and which packets end the session |
| SessionState.LocalBatchIsNotRouted | protocol/mysql/src/mysql_connection.cpp:244-271 | whatever follows a locally answered statement in the same batch is answered with it and never routed |
| SessionState.AutocommitExactly | protocol/mysql/src/mysql_connection.cpp:246-253 | SET turns autocommit off exactly as SET, blanks, AUTOCOMMIT=0, turns it on whenever else the 16-character prefix holds AUTOCOMMIT, and otherwise leaves it |
| SessionState.OnlySetTouchesAutocommit | protocol/mysql/src/mysql_connection.cpp:244-271 | no other statement touches it, and SET touches nothing else |
| SessionState.SpacedAutocommitTurnsOn | protocol/mysql/src/mysql_connection.cpp:246-253 | with a blank after the name it is turned on whatever follows |
| SessionState.UseSwitchesExactlyWhen | protocol/mysql/src/mysql_connection.cpp:254-261 | USE switches to the database named if and only if nothing precedes the keyword and only spaces and tabs follow it |
| SessionState.FindUseTarget | protocol/mysql/src/mysql_connection.cpp:255-258 | the search and the trimming loop compute the target; none means the exception that ends the connection |
| Session.HistoryIsWriteSafe | protocol/mysql/src/mysql_connection.cpp:262-284 | after any command history, a batch with a write or any statement after an unclosed begin is planned only for a live primary of its group |
| Session.WritesReachConfiguredPrimaries | protocol/mysql/src/mysql_connection.cpp:262-284 | from the configuration to the plan: after a load and updates that keep roles, a write, or anything after an unclosed begin, goes only to a backend configured as a primary of the resolved schema's group |
| Session.EveryReplyIsWriteSafe | protocol/mysql/src/mysql_connection.cpp:112-171 | every plan made by the command loop, at every point of every run and with the registry changing between packets, is write safe |
| Session.Connection.HandleQuery | protocol/mysql/src/mysql_connection.cpp:234-284 | the handler changes the session by exactly its statement and routes exactly the statements no local test recognises |
| Session.Connection.HandleCommand | protocol/mysql/src/mysql_connection.cpp:126-182 | one packet changes the session by exactly its command |
| Session.Connection.CommandLoop | protocol/mysql/src/mysql_connection.cpp:112-124 | over any packets, with any registry updates between them, the session is the run of their steps, every reply is faithful to session and registry as they were then, and every guarded plan is on a live primary of its group |

## Left out

- Sockets, timers, coroutines and thread scheduling: byte streams and nondeterministic events stand for them; write failures and the sending side's exceptions are not modelled, nor is the end a broken connection puts to an endless send.
- Connection identities: a freed connection's address may be reused by the allocator; here identities are never reused.
- The closing of a backend connection and whether it is open: an input of each release; closing itself has no modelled effect.
- The log line of the warming loop.
- Buffers: vectors and strings are sequences that methods reassign; capacity and aliasing are not modelled. 64-bit wrap of position plus length in the length-encoded readers is not modelled: positions are unbounded.
- Characters: text is a sequence of characters with the C locale's tests for ASCII; the scanners treat all others alike.
- Random numbers, clocks and live signals: parameters. The quality of the random numbers is not modelled.
- Memory order of the atomics, and updates landing inside a selection: a selection reads one consistent state of the registry.
- Framing.WritePacket: takes a bound on the passes of its loop, because the loop does not end for some sizes; WriteEndsExactlyWhen says for which, and WriteWhole is the loop without a bound at the others.
- Replies to clients (OK, ERR, statistics, field lists): only whether a command is answered, routed or ends the connection.
- What follows a plan (pool lookup, acquire, forward, release): the pool and the forwarding are modelled as their own parts and not composed with the session.
- SHA-1, the native-password check, random challenge generation: foreign calls.
- Configuration parsing, logging, the schema registry's updates, metrics, listeners and application start-up: they would only add easy members.
