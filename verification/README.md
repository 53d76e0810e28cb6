# A verified model of the telemetry gateway backend

The gateway receives signed telemetry packets over HTTP, stores them, anchors their hashes with a
blockchain client and shows them to WebSocket subscribers. This project models the parts of the
C++ backend that are hardest to see through, and proves what holds of them for all inputs, all runs
and all interleavings. `dafny verify dfyconfig.toml` checks all of it.

Code that updates state in place (repositories, service, server, connection, mock client, buffers
filled by loops) is a class or a method with loops, proved against a specification function; what
the code is for is then proved about that function. Pure code is functions and lemmas.

**Packet text** (`PacketParser`, `PacketPrinter`, `SearchLaws`, `ScannerLaws`, `CanonicalForm`,
`RoundTrip`, `FieldForms`, `Payloads`, `JsonStrings`, `JsonTree`, `PrintedObjects`, `PrintedFields`,
`Decimal`). A regular expression search is the leftmost suffix that the pattern matches at its start; the
brace scanner is an automaton. Main results: the hashed text `deviceId|timestamp|telemetryJson`
determines the three fields of parsed packets; a packet's fields written in any order and with any white
space are parsed to the packet, with the defaults of those left out; parsing a printed record gives its
packet back if and only if the packet is `Recoverable`, a condition on the packet alone; a printed
receipt, record or event shows each value under its own name; escaped text is read back by the standard's
table; the scanner returns a printed object exactly, whatever text surrounds it; every record and event
is one complete object to that scanner.

**Stores** (`TelemetryLog`, `RecordIndex`, `InMemoryRepository`, `SqliteTable`, `SqliteRepository`,
`RepositoryAgreement`, `RepositoryHistories`). `TelemetryLog` is a plain list of records with a
transaction map, and it is what both repositories are compared with. The in-memory class keeps its
vector and four indexes in step with it through every operation. The SQLite store is a table with
never reused ids and a unique transaction column. Main results: both stores answer alike after every
orderly history; each of the three lookups has the exact condition under which they agree; an
attachment keeps them alike if and only if it is orderly; and a two-call history parts them.

**Ingest** (`IngestRules`, `IngestService`, `IngestProtocol`, `MockChain`, `Traceability`). One call
is a function of the store and of what the outside world answers, and the class method does what it
says. Concurrent calls are processes that interleave between locked steps. Main results: the stored
records are exactly those held by accepted calls and by calls between save and rollback; snapshots
are bounded; an uninterrupted call of the protocol is the sequential call; with the mock client an
accepted call is always found by its transaction.

**Codecs** (`Octets`, `HexCodec`, `Base64`, `Sha1`, `Sha1KnownAnswer`, `WebSocketAccept`, `WebSocketFrame`).
The loops are proved against FIPS 180-4, RFC 4648 and RFC 6455, encoders have decoders they are inverse
to, and the digest of "abc" is derived round by round.

**Connections** (`RequestReader`, `Requests`, `Sending`, `Responses`, `Descriptors`, `Ownership`,
`HttpServer`, `Conversations`). A peer is the list of chunks that successive reads return, and sending is a list of outcomes. A trace of calls on
descriptors says which are open. Main results: what is read of a request does not depend on
chunking exactly up to 1 MiB; a written request is parsed to its own method, path, headers and body under
every chunking; a written handshake ends with its client in the list of its path, answered with the accept
value of its own key; starting from no clients, between any two client turns the lists own
exactly the open descriptors; none is used after it was closed, and a listed client was sent whole frames
of exactly its channel's messages.

Five properties are false as one would first state them, and the code's real condition is proved:

- A printed record is not always read back: a key inside `telemetry` shadows a later field
  (`RoundTrip.ShadowedFieldIsLost`), and escaped characters are not unescaped
  (`RoundTrip.EscapedCharacterIsLost`). `RoundTrip.RoundTripIff` gives the exact condition, and
  `RoundTrip.UnshadowedRoundTripIff` what it comes to when `telemetry` mentions no later key.
- The stores answer differently when a device's clock goes back, because one orders by insertion and the
  other by time: `RepositoryHistories.TimeGoingBackSplitsTheStores`; the exact conditions are
  `RepositoryAgreement.BatchAgreesIff` and `RepositoryAgreement.LatestAgreesIff`.
- A second receipt for one record leaves its first hash in the transaction index:
  `TelemetryLog.SecondReceiptLeavesStaleHash`; the exact conditions are `TelemetryLog.AttachKeepsTxExactIff`,
  `RepositoryAgreement.TransactionAgreesIff` for one lookup and `RepositoryHistories.AttachmentAgreesIff`
  for a whole history.
- Escaped text is not always a string of section 7 of RFC 8259: control characters without a letter of their
  own are copied. `JsonStrings.EscapeIsStandardIff` says exactly when it is.
- A request without header lines is refused although its request line is whole:
  `Requests.RequestWithoutHeadersIsRefused`; with header lines it is parsed.

## Model

| member | source | states |
|---|---|---|
| `CanonicalForm.CanonicalUniquelyReadable` | backend-cpp/src/ingest/ingest_service.cpp:54-55 | two parsed packets with the same hashed text have the same device id, timestamp and telemetry, although `\|` and `{` may occur inside fields |
| `CanonicalForm.CanonicalDetermines` | backend-cpp/src/ingest/ingest_service.cpp:54-55 | the same for any packets whose id is quote-free and whose telemetry is a complete object |
| `CanonicalForm.NoObjectAfterQuoteFreeHead` | backend-cpp/src/transport/json_parser.cpp:52-81 | a complete object is never a proper tail of another one cut in quote-free text ending in a bar |
| `RoundTrip.RoundTripIff` | backend-cpp/src/api/http_server.cpp:185-203 | parsing a printed record succeeds and returns its packet if and only if the packet is recoverable, for every record id and receipt |
| `RoundTrip.UnchangedIffUnescaped` | backend-cpp/src/transport/json_parser.cpp:147-180 | escaping leaves a text as it is exactly when it holds none of the seven escaped characters |
| `RoundTrip.UnmentionedIsNotShadowed` | backend-cpp/src/transport/json_parser.cpp:13-20 | a key that stands nowhere in telemetry captures nothing from it |
| `RoundTrip.UnshadowedRoundTripIff` | backend-cpp/src/api/http_server.cpp:185-203 | when telemetry mentions no later key, a record comes back if and only if telemetry is a complete object and no field holds an escaped character |
| `RoundTrip.ShadowedFieldIsLost` | backend-cpp/src/api/http_server.cpp:185-203 | every record with telemetry `{"hash":"x"}` and another hash is read back wrongly |
| `RoundTrip.EscapedCharacterIsLost` | backend-cpp/src/api/http_server.cpp:185-203 | every record with a line break in a transport `a\nb` and telemetry `{}` is read back wrongly |
| `RoundTrip.ParseOfPrinted` | backend-cpp/src/transport/json_parser.cpp:89-133 | what parsing a printed record returns, field by field, also where telemetry shadows a later key |
| `RoundTrip.TelemetryStarts` | backend-cpp/src/transport/json_parser.cpp:35-50 | the three finds of the object search land on telemetry's own first brace in a printed record |
| `RoundTrip.TelemetryFound` | backend-cpp/src/transport/json_parser.cpp:35-85 | the object extracted from a printed record is its telemetry |
| `RoundTrip.LaterSearch` | backend-cpp/src/transport/json_parser.cpp:13-20 | a search for a later key answers with what telemetry shadows it with, else with the printed field |
| `SearchLaws.NoKeyInValue` | backend-cpp/src/transport/json_parser.cpp:13-20 | no key match starts inside a printed, escaped string value |
| `SearchLaws.ReceiptKeyFree` | backend-cpp/src/api/http_server.cpp:170-183 | a printed receipt hides no key but its own three |
| `PacketParser.ExtractStringIsLeftmost` | backend-cpp/src/transport/json_parser.cpp:13-20 | a string search returns a value exactly when the first match in the text captures it |
| `FieldForms.StringIsRead` | backend-cpp/src/transport/json_parser.cpp:13-20 | behind text that does not mention the key, a quote-free text is read whatever white space stands around the colon and whatever follows |
| `FieldForms.NumberIsReadAs` | backend-cpp/src/transport/json_parser.cpp:22-33 | so is a number below 2^64; a larger one is read as nothing |
| `FieldForms.ObjectIsRead` | backend-cpp/src/transport/json_parser.cpp:35-85 | so is a complete object |
| `FieldForms.UnmentionedIsNotRead` | backend-cpp/src/transport/json_parser.cpp:13-50 | a key the payload does not mention is read as nothing by all three searches |
| `Payloads.AnyLayoutIsParsed` | backend-cpp/src/transport/json_parser.cpp:89-133 | the fields of a packet in any order, with any white space, are parsed to the packet; pubKeyId, transport and batchCode may be left out and are then "default-pubkey", "wifi" and empty |
| `Payloads.MissingFieldIsTold` | backend-cpp/src/transport/json_parser.cpp:89-133 | a payload is refused for the first of the five required fields, in the parser's order, that it does not give |
| `Payloads.TooLargeTimestampIsRefused` | backend-cpp/src/transport/json_parser.cpp:22-33 | a timestamp of 2^64 or more counts as missing |
| `Payloads.SpacedPayloadIsParsed` | backend-cpp/src/transport/json_parser.cpp:89-133 | every packet written with a blank behind each colon and without the optional fields is accepted |
| `RoundTrip.TimestampFound` | backend-cpp/src/transport/json_parser.cpp:22-33 | the number search finds a printed record's own timestamp, for every 64-bit value and any telemetry behind it |
| `PacketParser.FindObjectStart` | backend-cpp/src/transport/json_parser.cpp:35-50 | the index found is where the specified object text starts, and is missing exactly when that is |
| `PacketParser.ScanObject` | backend-cpp/src/transport/json_parser.cpp:52-81 | the loop ends at the brace at which the automaton first returns to depth 0, or finds none |
| `PacketParser.ExtractObjectValue` | backend-cpp/src/transport/json_parser.cpp:35-85 | returns the specified object text or nothing |
| `PacketParser.ParseTelemetryPacketJson` | backend-cpp/src/transport/json_parser.cpp:89-133 | fills the packet or reports the first missing field, with the defaults of optional fields |
| `PacketParser.IsHex64` | backend-cpp/src/transport/json_parser.cpp:135-145 | true exactly for 64 hex digits of either case |
| `PacketPrinter.JsonEscape` | backend-cpp/src/transport/json_parser.cpp:147-180 | the loop prints the escape of every character in order |
| `JsonStrings.UnescapeOfEscape` | backend-cpp/src/transport/json_parser.cpp:147-180 | a reader with the escape table of section 7 of RFC 8259 gets every text back |
| `JsonStrings.EscapeInjective` | backend-cpp/src/transport/json_parser.cpp:147-180 | no two texts are printed alike |
| `JsonStrings.EscapeIsStandardIff` | backend-cpp/src/transport/json_parser.cpp:147-180 | the printed text has no raw control character exactly when the text has none but the five with letters |
| `PacketPrinter.ReceiptToJson` | backend-cpp/src/api/http_server.cpp:170-183 | streams null or the object of the receipt's three members |
| `PacketPrinter.RecordToJson` | backend-cpp/src/api/http_server.cpp:185-203 | streams the object whose members are the record's, batchCode only when it is not empty |
| `PrintedFields.ReceiptIsRead` | backend-cpp/src/api/http_server.cpp:170-183 | a printed receipt shows its hash, height and time each under its own name |
| `PrintedFields.RecordReceiptIsRead` | backend-cpp/src/api/http_server.cpp:185-203 | so does a printed record, when telemetry does not mention these names |
| `PrintedFields.RecordIdIsRead` | backend-cpp/src/api/http_server.cpp:185-203 | a printed record shows its own id |
| `PrintedFields.AcceptedEventIsRead` | backend-cpp/src/api/http_server.cpp:463-475 | the event of an accepted call shows its device, record, timestamp, transport and transaction each under its name |
| `PrintedFields.RejectedEventIsRead` | backend-cpp/src/api/http_server.cpp:476-484 | the event of a rejected call shows its device and message |
| `PrintedFields.EventTypeIsRead` | backend-cpp/src/api/http_server.cpp:460-485 | every event says under "type" which kind it is |
| `JsonTree.ScannerReturnsPrintedObject` | backend-cpp/src/transport/json_parser.cpp:35-85 | for any nested tree, extracting the key returns exactly the printed object whatever text follows |
| `JsonTree.ValueIsNeutral` | backend-cpp/src/transport/json_parser.cpp:52-81 | any printed value leaves the scanner at the depth it found, outside strings, with no pending escape and unfinished |
| `JsonTree.StringIsNeutral` | backend-cpp/src/transport/json_parser.cpp:147-180 | so does any escaped and quoted string, whatever braces, quotes or backslashes it holds |
| `JsonTree.ObjectIsComplete` | backend-cpp/src/transport/json_parser.cpp:52-81 | a printed object first returns to depth 0 at its last character |
| `PrintedObjects.RecordIsComplete` | backend-cpp/src/api/http_server.cpp:185-203 | a printed record whose telemetry is a complete object is one complete object, whatever its other fields hold |
| `PrintedObjects.EventIsComplete` | backend-cpp/src/api/http_server.cpp:460-485 | every broadcast event is one complete object, whatever ids, transports, hashes and messages it carries |
| `Decimal.ValueOfPrint` | backend-cpp/src/api/http_server.cpp:185-203 | reading a printed number back gives the number |
| `Decimal.PrintInjective` | backend-cpp/src/ingest/ingest_service.cpp:54-55 | numbers with the same decimal text are equal |
| `Decimal.PrintNext` | backend-cpp/src/api/http_server.cpp:185-203 | numbers are printed in base ten |
| `TelemetryLog.OperationsKeepWellFormed` | backend-cpp/src/storage/in_memory_telemetry_repository.cpp:7-79 | every operation keeps ids increasing and below the next id |
| `TelemetryLog.SaveThenDelete` | backend-cpp/src/storage/in_memory_telemetry_repository.cpp:37-79 | deleting what was just saved restores everything but the id counter |
| `TelemetryLog.DeleteFromGroups` | backend-cpp/src/storage/in_memory_telemetry_repository.cpp:37-79 | a delete takes one record out of its own device and batch groups and changes no other group |
| `TelemetryLog.DeleteKeepsOthers` | backend-cpp/src/storage/in_memory_telemetry_repository.cpp:37-79 | after a delete every other id finds what it found before and the deleted id finds nothing |
| `TelemetryLog.LatestIsLast` | backend-cpp/src/storage/in_memory_telemetry_repository.cpp:81-88 | the latest record of a device is the one that matches with no later match, in both directions |
| `TelemetryLog.SelectMembers` | backend-cpp/src/storage/in_memory_telemetry_repository.cpp:99-116 | a group holds exactly the records that match |
| `TelemetryLog.SelectIncreasing` | backend-cpp/src/storage/in_memory_telemetry_repository.cpp:99-116 | a group is in the order of the ids |
| `TelemetryLog.FindByTransactionExact` | backend-cpp/src/storage/in_memory_telemetry_repository.cpp:90-97 | with an exact index a hash finds a record exactly when that record holds the hash |
| `TelemetryLog.SaveKeepsTxExact` | backend-cpp/src/storage/in_memory_telemetry_repository.cpp:7-23 | saving keeps the transaction index exact |
| `TelemetryLog.DeleteKeepsTxExact` | backend-cpp/src/storage/in_memory_telemetry_repository.cpp:37-79 | deleting keeps the transaction index exact |
| `TelemetryLog.AttachKeepsTxExactIff` | backend-cpp/src/storage/in_memory_telemetry_repository.cpp:25-35 | attaching keeps it exact if and only if the record had no other hash and no other record has this one |
| `TelemetryLog.SecondReceiptLeavesStaleHash` | backend-cpp/src/storage/in_memory_telemetry_repository.cpp:25-35 | a record attached twice is still found by its first hash, with the second receipt |
| `RecordIndex.IndexDetermined` | backend-cpp/src/storage/in_memory_telemetry_repository.cpp:7-79 | the records determine a device or batch index entirely, so no empty list is left behind |
| `RecordIndex.PositionsDetermined` | backend-cpp/src/storage/in_memory_telemetry_repository.cpp:7-79 | the records determine the position index entirely |
| `RecordIndex.PositionRemove` | backend-cpp/src/storage/in_memory_telemetry_repository.cpp:71-76 | erasing at a position removes one id and moves exactly the later ones down by one |
| `RecordIndex.GroupRemove` | backend-cpp/src/storage/in_memory_telemetry_repository.cpp:47-65 | the ids of a group after an erase are the old ones without the erased id |
| `RecordIndex.EraseIdExact` | backend-cpp/src/storage/in_memory_telemetry_repository.cpp:47-65 | erasing an id from its list, and the list when it becomes empty, gives the index of the remaining records |
| `InMemoryRepository.InMemoryTelemetryRepository.Save` | backend-cpp/src/storage/in_memory_telemetry_repository.cpp:7-23 | appends the record under the next id and keeps all four indexes exact |
| `InMemoryRepository.InMemoryTelemetryRepository.AttachReceipt` | backend-cpp/src/storage/in_memory_telemetry_repository.cpp:25-35 | sets the receipt of that one record and its hash, or reports that the record is missing |
| `InMemoryRepository.InMemoryTelemetryRepository.EraseFromIndexes` | backend-cpp/src/storage/in_memory_telemetry_repository.cpp:44-69 | the device and batch indexes match the vector without the record; its hash is gone |
| `InMemoryRepository.InMemoryTelemetryRepository.ShiftPositions` | backend-cpp/src/storage/in_memory_telemetry_repository.cpp:74-76 | the loop makes the position index exact again |
| `InMemoryRepository.InMemoryTelemetryRepository.EraseAndShift` | backend-cpp/src/storage/in_memory_telemetry_repository.cpp:71-76 | the vector loses one record and positions are exact |
| `InMemoryRepository.InMemoryTelemetryRepository.Delete` | backend-cpp/src/storage/in_memory_telemetry_repository.cpp:37-79 | removes exactly that record, keeps every index exact, and reports whether it was there |
| `InMemoryRepository.InMemoryTelemetryRepository.LatestByDevice` | backend-cpp/src/storage/in_memory_telemetry_repository.cpp:81-88 | answers as the plain list does |
| `InMemoryRepository.InMemoryTelemetryRepository.FindByTransaction` | backend-cpp/src/storage/in_memory_telemetry_repository.cpp:90-97 | answers as the plain list does |
| `InMemoryRepository.InMemoryTelemetryRepository.FindByBatch` | backend-cpp/src/storage/in_memory_telemetry_repository.cpp:99-116 | answers as the plain list does, in order, nothing for the empty code |
| `InMemoryRepository.InMemoryTelemetryRepository.FindByIdLocked` | backend-cpp/src/storage/in_memory_telemetry_repository.cpp:123-129 | answers as a search of the plain list does |
| `InMemoryRepository.InMemoryTelemetryRepository.Size` | backend-cpp/src/storage/in_memory_telemetry_repository.cpp:118-121 | the number of records |
| `InMemoryRepository.IndexesDetermined` | backend-cpp/src/storage/in_memory_telemetry_repository.cpp:7-79 | equal records mean equal indexes, so restoring the records restores every index |
| `SqliteTable.OrderByMeaning` | backend-cpp/src/storage/sqlite_telemetry_repository.cpp:205-223 | the ordered result is a permutation of the rows in order of time, then id |
| `SqliteTable.OrderByIsIdentity` | backend-cpp/src/storage/sqlite_telemetry_repository.cpp:205-223 | ordering changes nothing exactly when the rows are in order |
| `SqliteTable.LastOfOrderBy` | backend-cpp/src/storage/sqlite_telemetry_repository.cpp:167-184 | which row a descending query with limit 1 picks |
| `SqliteTable.LatestRowMeans` | backend-cpp/src/storage/sqlite_telemetry_repository.cpp:167-184 | the device query answers with the row that every other row of the device comes before, and with nothing exactly when there is none |
| `SqliteTable.TransactionRowMeans` | backend-cpp/src/storage/sqlite_telemetry_repository.cpp:186-203 | the transaction query answers with the row that holds the hash, and with nothing exactly when none does |
| `SqliteTable.BatchRowsMean` | backend-cpp/src/storage/sqlite_telemetry_repository.cpp:205-223 | the batch query answers with exactly the rows of the batch, ordered |
| `SqliteTable.UpdateMeans` | backend-cpp/src/storage/sqlite_telemetry_repository.cpp:136-152 | an update fails exactly when another row holds the hash, else changes the one row with the id, and keeps ids increasing and hashes unique |
| `SqliteTable.DeleteMeans` | backend-cpp/src/storage/sqlite_telemetry_repository.cpp:154-165 | a delete takes out the row with the id and no other, and keeps the table well formed |
| `SqliteRepository.SqliteTelemetryRepository.Save` | backend-cpp/src/storage/sqlite_telemetry_repository.cpp:108-134 | inserts one row under an id never used before |
| `SqliteRepository.SqliteTelemetryRepository.AttachReceipt` | backend-cpp/src/storage/sqlite_telemetry_repository.cpp:136-152 | throws exactly when there is a row with the id and another row holds the hash; returns false exactly when there is no row; otherwise changes three columns of that row only |
| `SqliteRepository.SqliteTelemetryRepository.Delete` | backend-cpp/src/storage/sqlite_telemetry_repository.cpp:154-165 | leaves exactly the rows with other ids and reports whether there was one with this |
| `SqliteRepository.SqliteTelemetryRepository.LatestByDevice` | backend-cpp/src/storage/sqlite_telemetry_repository.cpp:167-184 | nothing exactly when no row is of the device; else the record of the row that all others of the device come before |
| `SqliteRepository.SqliteTelemetryRepository.FindByTransaction` | backend-cpp/src/storage/sqlite_telemetry_repository.cpp:186-203 | nothing exactly when no row holds the hash; else the record of the one row that does |
| `SqliteRepository.SqliteTelemetryRepository.FindByBatch` | backend-cpp/src/storage/sqlite_telemetry_repository.cpp:205-223 | the cursor loop collects the records of exactly the rows of the batch, in order of time, then id |
| `RepositoryAgreement.RowRoundTripIff` | backend-cpp/src/storage/sqlite_telemetry_repository.cpp:260-285 | reading a stored row back gives the record if and only if none of its texts holds a NUL |
| `RepositoryAgreement.SaveMirrors` | backend-cpp/src/storage/sqlite_telemetry_repository.cpp:108-134 | a save keeps table and list the same |
| `RepositoryAgreement.AttachMirrors` | backend-cpp/src/storage/sqlite_telemetry_repository.cpp:136-152 | so does an attachment of a fresh hash, with the same answer |
| `RepositoryAgreement.DeleteMirrors` | backend-cpp/src/storage/sqlite_telemetry_repository.cpp:154-165 | so does a delete, with the same answer |
| `RepositoryAgreement.BatchAgreesIff` | backend-cpp/src/storage/sqlite_telemetry_repository.cpp:205-223 | the batch answers agree if and only if the batch was saved in time order |
| `RepositoryAgreement.LatestAgreesIff` | backend-cpp/src/storage/sqlite_telemetry_repository.cpp:167-184 | the latest answers agree if and only if the last saved record of the device is its latest |
| `RepositoryAgreement.TransactionAgreesIff` | backend-cpp/src/storage/sqlite_telemetry_repository.cpp:186-203 | the transaction answers agree if and only if the in-memory entry of the hash leads to no record but a holder, and every holder is its own entry |
| `RepositoryHistories.HistoryMirrors` | backend-cpp/src/storage/sqlite_telemetry_repository.cpp:108-165 | after every orderly history the table is the image of the list and its index is exact |
| `RepositoryHistories.RepositoriesAgree` | backend-cpp/src/storage/sqlite_telemetry_repository.cpp:108-235 | after every orderly history of saves, attachments and deletes all lookups and sizes coincide |
| `RepositoryHistories.RepliesAgree` | backend-cpp/src/storage/sqlite_telemetry_repository.cpp:108-165 | every call along such a history answers the same in both stores |
| `RepositoryHistories.TableIsWellFormed` | backend-cpp/src/storage/sqlite_telemetry_repository.cpp:108-165 | after any history at all ids increase, stay below the sequence, and hashes are unique |
| `RepositoryHistories.AttachmentAgreesIff` | backend-cpp/src/storage/sqlite_telemetry_repository.cpp:136-152 | an attachment behind an orderly history keeps its reply and all transaction answers alike if and only if it finds no record, or the record has no other hash and no other live record has this one |
| `RepositoryHistories.TimeGoingBackSplitsTheStores` | backend-cpp/src/storage/sqlite_telemetry_repository.cpp:167-184 | two saves of one device with decreasing timestamps make the stores disagree |
| `IngestRules.RejectionIsInvisibleIff` | backend-cpp/src/ingest/ingest_service.cpp:67-114 | a rejected call changes no answer to any query if and only if it was refused before the save or its rollback was not hindered; the message says more than the failure exactly when something stayed behind |
| `IngestRules.AcceptedIsFound` | backend-cpp/src/ingest/ingest_service.cpp:97-118 | an accepted packet is at once its device's latest, last in its batch, and found by its transaction |
| `IngestRules.HashFixesReading` | backend-cpp/src/ingest/ingest_service.cpp:54-60 | accepted packets with one hash report the same reading, unless their texts collide |
| `IngestRules.ObjectionIsFirstFailure` | backend-cpp/src/ingest/ingest_service.cpp:37-65 | there is no objection exactly when all six demands are met, and an objection names exactly the first demand that is not |
| `IngestRules.RejectionMessage` | backend-cpp/src/ingest/ingest_service.cpp:37-114 | what a rejected call answers: its record id, no receipt, and the message of each failure |
| `IngestRules.HinderedRollbackMessage` | backend-cpp/src/ingest/ingest_service.cpp:70-80 | what each way a rollback can fail adds to the message |
| `IngestService.IngestService.SubmitAndAttach` | backend-cpp/src/ingest/ingest_service.cpp:82-116 | submits and attaches, or says why the record is given up and leaves the store alone |
| `IngestService.IngestService.RollbackBestEffort` | backend-cpp/src/ingest/ingest_service.cpp:70-80 | deletes the record or says in the message that it could not |
| `IngestService.IngestService.Ingest` | backend-cpp/src/ingest/ingest_service.cpp:19-119 | does to the store and answers what the rules say, counts the call, and on an unhindered rejection restores vector and indexes themselves |
| `IngestService.IngestService.Record` | backend-cpp/src/ingest/ingest_service.cpp:133-145 | counts one call; only the time sum may wrap around |
| `IngestService.IngestService.GetMetricsSnapshot` | backend-cpp/src/ingest/ingest_service.cpp:121-131 | total is accepted plus rejected; average and size are current |
| `IngestProtocol.NextKeepsInv` | backend-cpp/src/ingest/ingest_service.cpp:19-145 | every step of every call keeps the protocol's invariant |
| `IngestProtocol.ReachableInv` | backend-cpp/src/ingest/ingest_service.cpp:19-145 | it holds after every interleaving |
| `IngestProtocol.StoredExactlyHeld` | backend-cpp/src/ingest/ingest_service.cpp:67-118 | the stored records are exactly those of accepted calls and of calls past save and not rolled back |
| `IngestProtocol.StepsFindTheirRecord` | backend-cpp/src/ingest/ingest_service.cpp:67-112 | attaching and rolling back always find their record, so no attachment is given up |
| `IngestProtocol.QuiescentSize` | backend-cpp/src/ingest/ingest_service.cpp:121-138 | with no call in flight the store holds as many records as were accepted |
| `IngestProtocol.SnapshotsAreBounded` | backend-cpp/src/ingest/ingest_service.cpp:121-131 | every snapshot adds up, and its size lies between accepted and accepted plus calls in flight |
| `IngestProtocol.AveragesAreBetween` | backend-cpp/src/ingest/ingest_service.cpp:121-145 | every snapshot's average lies between the least and greatest recorded time while the sum fits |
| `IngestProtocol.UninterruptedCall` | backend-cpp/src/ingest/ingest_service.cpp:19-119 | the protocol's steps of one undisturbed call lead to exactly the sequential call's store, id, receipt and counters |
| `MockChain.MockBlockchainClient.SubmitHash` | backend-cpp/src/blockchain/mock_blockchain_client.cpp:10-33 | the n-th submission hashes the payload with the n-th nonce and derives the block height from the hash |
| `MockChain.PayloadFixesNonce` | backend-cpp/src/blockchain/mock_blockchain_client.cpp:14-19 | equal payloads carry equal nonces, whatever bars the other parts hold |
| `MockChain.PayloadDetermines` | backend-cpp/src/blockchain/mock_blockchain_client.cpp:14-19 | the payload starts with the hash and, with hashes in hex, determines all four of its parts |
| `MockChain.HeightOfPrinted` | backend-cpp/src/blockchain/mock_blockchain_client.cpp:21-26 | the height is 100000 + n % 900000 when the first eight digits of the hash print n, whatever follows them |
| `MockChain.NoncesDiffer` | backend-cpp/src/blockchain/mock_blockchain_client.cpp:14-19 | the first 2^64 submissions take different nonces |
| `Traceability.MockReceiptsTicketed` | backend-cpp/src/ingest/ingest_service.cpp:82-118 | in every interleaving each receipt is the hash of its own submission, with a ticket of its own |
| `Traceability.HashesDiffer` | backend-cpp/src/blockchain/mock_blockchain_client.cpp:14-19 | two calls never get the same hash unless texts collide |
| `Traceability.MockRunKeepsTxExact` | backend-cpp/src/storage/in_memory_telemetry_repository.cpp:25-35 | in every such interleaving the transaction index stays exact |
| `Traceability.AcceptedIsTraceable` | backend-cpp/src/ingest/ingest_service.cpp:82-118 | the transaction of an accepted call always finds that id, that packet and that receipt |
| `HexCodec.HexEncode` | backend-cpp/src/utils/hash_utils.cpp:25-36 | the loop writes the two digits of every octet in order |
| `HexCodec.HexNibble` | backend-cpp/src/security/basic_signature_verifier.cpp:44-53 | a value exactly for hex digits, and the value whose digit is the lower-cased character |
| `HexCodec.DecodeHex` | backend-cpp/src/security/basic_signature_verifier.cpp:55-70 | succeeds exactly on even-length text of hex digits and returns the octets |
| `HexCodec.DecodeOfEncode` | backend-cpp/src/security/basic_signature_verifier.cpp:55-70 | decoding what was encoded gives the octets back |
| `HexCodec.EncodeOfDecode` | backend-cpp/src/utils/hash_utils.cpp:25-36 | encoding what was decoded gives the text back in lower case |
| `HexCodec.HashTextIff` | backend-cpp/src/transport/json_parser.cpp:135-145 | the hex text of a digest passes for a hash exactly when it has 32 octets |
| `Base64.AlphabetIsTable` | backend-cpp/src/api/http_server.cpp:289-291 | the alphabet lists Table 1 of RFC 4648 |
| `Base64.Base64Encode` | backend-cpp/src/api/http_server.cpp:289-325 | the loop and the two tails give the specified encoding |
| `Base64.EncodedLength` | backend-cpp/src/api/http_server.cpp:289-325 | four characters for every three octets or part of three |
| `Base64.PaddingIsAtTheEnd` | backend-cpp/src/api/http_server.cpp:310-322 | `=` stands exactly at the end, as often as the last group lacks octets |
| `Base64.DecodeOfEncode` | backend-cpp/src/api/http_server.cpp:289-325 | a strict decoder of section 4 of RFC 4648 recovers the input; it accepts zero pad bits only |
| `Base64.EncodeOfDecode` | backend-cpp/src/api/http_server.cpp:289-325 | every text that decoder accepts is the encoding of its octets |
| `Sha1.PadMessage` | backend-cpp/src/api/http_server.cpp:205-215 | the loops give the padding of section 5.1.1 of FIPS 180-4 |
| `Sha1.PaddingMeetsStandard` | backend-cpp/src/api/http_server.cpp:209-212 | the zero bits satisfy the standard's congruence and are the fewest that do |
| `Sha1.PaddedParts` | backend-cpp/src/api/http_server.cpp:205-215 | the padded message is whole blocks, starts with the message and ends in its bit length, readable below 2^61 octets |
| `Sha1.PaddingIsInjective` | backend-cpp/src/api/http_server.cpp:205-215 | no two messages are padded alike |
| `Sha1.ConstantsAreRoots` | backend-cpp/src/api/http_server.cpp:249-261 | the four constants are the leading bits of the square roots of 2, 3, 5 and 10 |
| `Sha1KnownAnswer.DigestOfAbc` | backend-cpp/src/api/http_server.cpp:205-287 | the digest of "abc" is the one the standard publishes |
| `Sha1.ParsingLosesNothing` | backend-cpp/src/api/http_server.cpp:229-235 | the sixteen words read from a block determine it |
| `Sha1.DigestLosesNothing` | backend-cpp/src/api/http_server.cpp:278-286 | the twenty octets written determine the hash value |
| `Sha1.MajByOr` | backend-cpp/src/api/http_server.cpp:255-257 | the OR form of Maj is the XOR form of section 4.1.1 |
| `Sha1.ChByOr` | backend-cpp/src/api/http_server.cpp:249-251 | the OR form of Ch is the XOR form of section 4.1.1 |
| `Sha1.RotlByShifts` | backend-cpp/src/api/http_server.cpp:217-219 | the shift-and-or form rotates left by 1, 5 and 30 |
| `Sha1.FillSchedule` | backend-cpp/src/api/http_server.cpp:228-238 | the two loops fill the array with the message schedule of the block |
| `Sha1.RunRounds` | backend-cpp/src/api/http_server.cpp:240-269 | the 80-round loop computes the working variables of section 6.1.2 |
| `Sha1.Sha1Digest` | backend-cpp/src/api/http_server.cpp:205-287 | the whole computation returns the SHA-1 of the message |
| `WebSocketAccept.BuildWebSocketAccept` | backend-cpp/src/api/http_server.cpp:594-598 | the Base64 of the SHA-1 of the key and the protocol's GUID |
| `WebSocketAccept.AcceptOfKey` | backend-cpp/src/api/http_server.cpp:594-598 | the key text followed by the GUID of section 1.3 of RFC 6455 is hashed and encoded |
| `WebSocketAccept.AcceptShape` | backend-cpp/src/api/http_server.cpp:594-598 | always 28 characters, the last and no other `=`, from which the digest can be read back |
| `WebSocketAccept.AcceptDeterminesDigest` | backend-cpp/src/api/http_server.cpp:594-598 | two keys get one answer exactly when their digests collide |
| `WebSocketFrame.BuildWebSocketFrame` | backend-cpp/src/api/http_server.cpp:600-621 | one final text frame with the length in 7, 16 or 64 bits, most significant octet first |
| `Octets.HighOctetFirst` | backend-cpp/src/api/http_server.cpp:609-616 | of two octets of a length the higher bits come first |
| `WebSocketFrame.FrameIsRead` | backend-cpp/src/api/http_server.cpp:600-621 | a reader of section 5.2 of RFC 6455 that insists on minimal lengths reads a frame back whatever follows |
| `WebSocketFrame.OnlyFramesAreRead` | backend-cpp/src/api/http_server.cpp:600-621 | anything that reader takes for a payload is the frame of that payload, so lengths are minimal |
| `WebSocketFrame.FrameStreamIsRead` | backend-cpp/src/api/http_server.cpp:600-621 | a stream of frames is read as exactly its payloads with nothing left over |
| `WebSocketFrame.OnlyFrameStreamsAreRead` | backend-cpp/src/api/http_server.cpp:600-621 | and only such streams are read |
| `RequestReader.ReadHttpRequest` | backend-cpp/src/api/http_server.cpp:78-116 | returns the fewest chunks that hold the target, or all there are, and leaves the rest unread; terminates |
| `RequestReader.CountIsFewest` | backend-cpp/src/api/http_server.cpp:85-113 | the chunks taken are the fewest that hold the target |
| `RequestReader.FoundInPrefix` | backend-cpp/src/api/http_server.cpp:93-108 | the blank line found in what was read so far is the stream's own, so the size is computed once and for all |
| `Requests.LengthIsRead` | backend-cpp/src/api/http_server.cpp:65-76 | the first Content-Length line, in any case and with any white space, declares its number, or 0 when it is 2^64 or more |
| `Requests.UnannouncedIsZero` | backend-cpp/src/api/http_server.cpp:65-76 | headers that never bring the name declare 0 |
| `RequestReader.RequestSize` | backend-cpp/src/api/http_server.cpp:78-116 | the result is a stream prefix that reaches the target unless the stream ends, and is under 1 MiB + 4096 |
| `RequestReader.CompleteRequestIsReadIff` | backend-cpp/src/api/http_server.cpp:78-116 | a complete request is returned whole under every chunking if and only if it has at most 1 MiB |
| `RequestReader.WholePrefixIsParsed` | backend-cpp/src/api/http_server.cpp:138-164 | a prefix that holds the whole request is parsed like the stream, up to what follows the body |
| `RequestReader.ChunkingDoesNotMatter` | backend-cpp/src/api/http_server.cpp:78-164 | two chunkings of a complete request of at most 1 MiB give the same line, headers and declared body, and the exact stream when nothing follows |
| `Requests.WrittenRequestIsParsed` | backend-cpp/src/api/http_server.cpp:138-164 | a request whose headers bring no empty line is parsed to its own method, path, headers and body |
| `Requests.LinesBringNoBlank` | backend-cpp/src/api/http_server.cpp:138-164 | header lines without line ends in them bring none |
| `Requests.RequestWithoutHeadersIsRefused` | backend-cpp/src/api/http_server.cpp:147-150 | a request line alone is not taken for a request |
| `Requests.RequestWithBodyIsRead` | backend-cpp/src/api/http_server.cpp:78-164 | a written request that declares the length of its body, up to 1 MiB in all, is read whole and parsed to it under every chunking |
| `Requests.RequestWithoutBodyIsRead` | backend-cpp/src/api/http_server.cpp:78-164 | so is one that declares no length and has no body |
| `Sending.SendAll` | backend-cpp/src/api/http_server.cpp:118-136 | true exactly when all octets were delivered; otherwise the prefix the calls took was |
| `Sending.InterruptionIsInvisible` | backend-cpp/src/api/http_server.cpp:125-128 | an interrupted send anywhere changes nothing about what is delivered |
| `Sending.NothingBehindFailure` | backend-cpp/src/api/http_server.cpp:129-131 | nothing is delivered behind a failed call or one that takes nothing |
| `Sending.PartsAddUp` | backend-cpp/src/api/http_server.cpp:125-134 | partial sends add up |
| `Responses.TrimmedMeans` | backend-cpp/src/api/http_server.cpp:51-63 | trimming leaves the part between white space at both ends, with none at its own ends |
| `Responses.GetHeaderValue` | backend-cpp/src/api/http_server.cpp:623-642 | the loop over lines returns the trimmed value of the first line with the key in any case, or nothing |
| `Responses.HeaderIsFound` | backend-cpp/src/api/http_server.cpp:623-642 | a lookup passes over the lines of other headers and returns a printed header's own value |
| `Responses.AnswerCarriesAccept` | backend-cpp/src/api/http_server.cpp:440-446 | looking the accept header up in the printed upgrade answer gives the accept value of the key |
| `Responses.ReadUpgradeKey` | backend-cpp/src/api/http_server.cpp:430-434 | the trimmed key exactly when the headers ask for an upgrade and bring a key |
| `Responses.EventToJson` | backend-cpp/src/api/http_server.cpp:463-484 | streams the members of an accepted or a rejected call's event |
| `Conversations.LookUpIsRead` | backend-cpp/src/api/http_server.cpp:623-642 | in written headers the lookup finds the first field with the name, in any case |
| `Conversations.UpgradeKeyIs` | backend-cpp/src/api/http_server.cpp:430-434 | a key is taken exactly from headers whose Upgrade is websocket, whose Connection contains upgrade and which bring a key, and it is that key |
| `Conversations.ResponseIsRead` | backend-cpp/src/api/http_server.cpp:583-592 | a client finds in an answer its content type, the length of its body under Content-Length, and that body behind the headers |
| `Conversations.StatusLines` | backend-cpp/src/api/http_server.cpp:29-42 | the status lines of 200, 202, 400 and 404 |
| `Conversations.HandshakeIsListed` | backend-cpp/src/api/http_server.cpp:400-458 | a handshake for either path, with or without a query and under every chunking, ends with the client at the end of that path's list, sent the accept value of its own key |
| `Conversations.BadHandshakeIsRefused` | backend-cpp/src/api/http_server.cpp:434-438 | one without the right headers is answered 400 and closed, both lists unchanged |
| `Conversations.OtherMethodIsClosed` | backend-cpp/src/api/http_server.cpp:426-428 | another method on these paths is closed without an answer |
| `Conversations.UnparsedIsRefused` | backend-cpp/src/api/http_server.cpp:400-411 | what cannot be parsed is answered 400, nothing at all is not answered, and both are closed |
| `Conversations.OtherPathIsRouted` | backend-cpp/src/api/http_server.cpp:413-423 | any other path is answered with what routing gives and closed |
| `HttpServer.HttpServer.BroadcastMessage` | backend-cpp/src/api/http_server.cpp:487-500 | sends the frame to each client, closes those that fail and keeps exactly the others in order |
| `HttpServer.HttpServer.BroadcastIngestEvent` | backend-cpp/src/api/http_server.cpp:460-485 | an accepted call's event goes to the telemetry list, a rejected one's to the alert list, with the text that is printed for it |
| `HttpServer.HttpServer.TryUpgradeWebSocket` | backend-cpp/src/api/http_server.cpp:425-458 | lists the descriptor exactly when the request is a GET with good headers and the answer with its accept value was delivered; answers 400 when the headers are not good |
| `HttpServer.HttpServer.HandleClient` | backend-cpp/src/api/http_server.cpp:400-423 | reads, parses and dispatches one request, sends the answer, and says whether to keep the descriptor open |
| `HttpServer.HttpServer.Stop` | backend-cpp/src/api/http_server.cpp:381-398 | closes every listed descriptor once and empties both lists |
| `HttpServer.HttpServer.Start` | backend-cpp/src/api/http_server.cpp:358-378 | any run of the accept loop is the specified run and keeps ownership, which a new server has |
| `Ownership.KeptMembers` | backend-cpp/src/api/http_server.cpp:487-500 | broadcasting keeps exactly the clients that took the whole frame, without duplicates |
| `Ownership.KeptInOrder` | backend-cpp/src/api/http_server.cpp:487-500 | and keeps them in order |
| `Ownership.BroadcastKeepsOwned` | backend-cpp/src/api/http_server.cpp:487-500 | ownership survives a broadcast in which any clients fail |
| `Ownership.ClientKeepsOwned` | backend-cpp/src/api/http_server.cpp:358-378 | ownership survives a client turn however it ends |
| `Ownership.StopClosesEverything` | backend-cpp/src/api/http_server.cpp:381-398 | after Stop no client descriptor is open |
| `Ownership.EveryPrefixIsOwned` | backend-cpp/src/api/http_server.cpp:358-398 | starting from no clients, between any two turns of any run every open client descriptor is in exactly one list once and every listed one is open |
| `Ownership.RunKeepsOwned` | backend-cpp/src/api/http_server.cpp:358-398 | a run from any owned state ends in one |
| `Ownership.ClosedStaysClosed` | backend-cpp/src/api/http_server.cpp:358-398 | a closed descriptor is not closed, written to or listed again before accept returns it anew |
| `Ownership.ListedClientReadsItsChannel` | backend-cpp/src/api/http_server.cpp:460-500 | a frame reader finds in what a listed client was sent exactly its channel's messages since it joined |
| `Ownership.EventReachesItsChannel` | backend-cpp/src/api/http_server.cpp:460-500 | a call's event reaches exactly the listeners of its channel that take the whole frame, who stay listed; nobody else is sent anything |

## Left out

- Sockets, signals, the file system, process start-up and the listening descriptor: a peer is a list of chunks, a send is a list of outcomes, and only client descriptors are traced.
- Stop in the middle of a client turn, from a signal handler: it is a step between turns.
- SHA-256, the signature check and the public keys: parameters of the service. The fallback hash of builds without OpenSSL is not part of this model.
- Injectivity of SHA-256: no function to 64 hex characters has it, so collision-freedom is assumed of the texts actually hashed only.
- SQLite itself: prepared statements, error codes and file handling; a table with never reused ids, a unique hash column and ordered queries stands for it.
- The Ethereum client: any chain client is one that returns a receipt or fails.
- General regular expressions: each pattern is its leftmost match, and std::regex running out of stack on long text is not modelled.
- HttpServer.HttpServer.HandleClient: routing to the services is not modelled; what it answers and which call it announces is part of the turn.
- Timestamp formatting, the frontend, the firmware, the simulator and the deployment files.
- Allocation failure, and wrap-around of the scanner's depth on texts with 2^31 open braces.
- Locks: a step of the protocol is what one lock covers.
- InMemoryRepository.InMemoryTelemetryRepository.Save: assumes that the 64-bit id counter does not wrap around, which would reuse ids.
- IngestService.IngestService.Record: assumes that the 64-bit call counters do not wrap around; the processing-time sum may.
- IngestService.IngestService.Ingest: a repository call that throws or reports failure is assumed to have left the repository as it was.
- IngestProtocol.StepsFindTheirRecord: holds with ingest as the repository's only writer, starting from empty, and without repository faults.
- SqliteRepository.SqliteTelemetryRepository.Save: assumes that the 63-bit sequence is not used up.
- MockChain.MockBlockchainClient.SubmitHash: assumes a hash of 64 hex digits, as SHA-256 gives; the clock is a parameter.
- RepositoryHistories.RepositoriesAgree: histories have fewer calls than there are positive 64-bit ids.
- WebSocketFrame.FrameIsRead: payloads have fewer than 2^63 octets, the limit of the standard's length field.
- HttpServer.HttpServer.Start: the steps of a run are given in advance, and accept returns only descriptors that are not open.
