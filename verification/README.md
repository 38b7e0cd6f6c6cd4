# Card event pipeline

The system takes card transactions from terminals over TCP and events from clients over HTTP,
drops duplicates, publishes each message to a broker, and lets two consumers write it to
PostgreSQL totals and to MySQL tables. The project follows a transaction along this path, one
module per component:

| module | component |
|---|---|
| `Framing`, `TcpListener` | deframing of a byte stream, the read and drain loop, the output stream |
| `Parser`, `Response` | the fixed layout and the masks, the response to a payload |
| `Dedup`, `Ingestion` | the duplicate filter, the HTTP and TCP handlers and their interleavings |
| `ConnectionTracker` | `acquire` and `release`, one atomic operation at a time |
| `Producer` | the topology that `connect` declares, and routing in it |
| `Calendar`, `Amounts`, `PostgresRows`, `DailyTotals`, `PostgresConsumer` | hour buckets, amounts, rows, the additive UPSERT, the batching consumer |
| `MysqlConsumer` | tables, rows, the batching consumer that settles by table |
| `Pipeline`, `EndToEnd` | the broker with its consumers; the handlers and the pipeline as one system |
| `Transactions`, `Terminals` | a card transaction from its bytes to the rows of both databases; the streams of terminals up to the totals |
| `Text`, `Lists`, `Messages`, `Deliveries` | byte strings and numbers, partial maps over lists, messages, settlement logs |

Code that updates state is a class whose methods are proved against functions on values; the
theorems are about those functions, over whole runs. A connection, the two consumers, the tracker,
the duplicate filter and the broker channel are classes. Runs are lists of steps or events, and
what the outside decides (read boundaries, ticks, database results, broker confirms, lost replies,
map iteration order, scheduling) is left open in them.

The main results, each over every input, run or interleaving:

- framing: `ReadBoundaryIndependence`, `NothingLostIffClean`, `AllHandedOn`, `HandsOnIff`,
  `SameFramesIff`, `OutcomeKeepsFront`;
- responses: `ResponseStream`, `EveryFrameAnswered`, `AliveIff`, `ReplyKeepsTransaction`, `TypeAnswered`,
  `ParseOfComposed`;
- ingestion: `WinsPerWindow`, `DeedsOfInputs`, `ConflictOutcome`, `FreshEventAccepted`;
- connection limits: `GlobalLimit`, `LimitHoldsIff`, `ExactIff`;
- consumers: `ExactlyOnce`, `BatchRefinement`, `BufferIsLeftOver`, `TickSettlesAll`,
  `OnlyGarbageRejected`, `RunNeverOverflows`, `OwnInsertDecides`, `RunAccounts`, `TableIsolation`;
- the whole: `ConnectIff`, `PipelineConservation`, `PgCatchesUp`, `MyCatchesUp`,
  `TotalsOfTransactions`, `TotalsOfValues`, `IdPublishedPerTtl`.

## What the code does where its documents differ

- `src/consumer/postgres.rs:6` and `:10` speak of a midnight bucket and a conflict key of four
  columns. The code keeps the hour (lines 50-58) and its statement names `kicc_port` too, with the
  constant 0 (lines 299 and 306). The model follows the code.
- `API.md:77-78` lets a client take a 409 as success. Over a whole run that is right exactly when,
  for the handler that holds the id, the reply to its SET was not lost, its client did not hang up
  before the message was sent, and the broker did not refuse the message, before the 409 or after
  (`Ingestion.ConflictOutcome`). `ConflictWithoutMessage`, `ConflictBeforeRefusal` and
  `ConflictAfterHangUp` are runs in which it is wrong.
- `src/tcp_listener.rs:117-123` calls what is left in the buffer at the end of a stream an incomplete
  frame. It can hold whole frames: a zero-length header ends the drain, and a frame behind it in the
  same read is handed on only by a further read (`Framing.FrameStaysBehind`). `Framing.AllHandedOn`
  and `Framing.HandsOnIff` say when none stays behind.
- `src/producer.rs:133` says that a negative confirmation of the broker is an error. Line 155 waits
  for the confirmation and does not look at it, and the client library reports a negative one as a
  success. So a 202 may come without a queued message (`Ingestion.AcceptedWithoutMessage`), and
  does so exactly when the broker has rejected the message (`Ingestion.DeedsOfInputs`).
- `src/security.rs:113-114` says that the entry lock rules out races on one IP. `release` gives the
  lock up before it removes the entry, and the per-IP limit holds in all runs exactly when it is
  zero or the global limit is no higher (`ConnectionTracker.LimitHoldsIff`, with the short run
  `RaceBreaksLimit`); `ConnectionTracker.ExactIff` says in which runs the counts are right. The
  global limit of one tracker needs no condition.
- `src/tcp_listener.rs:7` calls type 0200 a cancel request; `src/consumer/postgres.rs:93` books an
  uncancelled 0200 in the card bucket and a 0100 in the other bucket. The model follows the code.
- `API.md:240` and `:251` say that stored card numbers keep their last four digits and stored
  business numbers are cut to six. The MySQL row keeps the first ten bytes of the masked card
  number and the whole business number (`Transactions.CardColumn`, `Transactions.InsertedAsSent`).
- `API.md:229` counts 170 bytes and a filler of 17. The fields take 153 bytes and the filler
  follows within the 170 (`Parser.FieldsTile`).
- `API.md:255` drops payloads shorter than 153 bytes. They are not published, but they are
  answered (`Response.AnsweredIff`).

## Model

| member | source | states |
|---|---|---|
| Framing.FrontStable | src/tcp_listener.rs:242-281 | once the front of a buffer is decided, bytes that arrive behind it change nothing |
| Framing.FrontOfSound | src/tcp_listener.rs:242-281 | the bytes of any sound piece (keep-alive, prefixed payload, fixed payload) are read back as that piece, whatever follows |
| Framing.FixedReadIff | src/tcp_listener.rs:247-280 | a payload in the fixed format is taken off whole exactly when its first four bytes are not all digits |
| Framing.FrontOfFixed | src/tcp_listener.rs:269-280 | without four digits in front, 170 bytes are a frame, or over a lower limit, and fewer bytes wait |
| Framing.DeframeConserves | src/tcp_listener.rs:242-281 | a stream is its pieces' bytes and the rest, and no whole piece is left in the rest |
| Framing.DeframeOfWire | src/tcp_listener.rs:136-148 | framing round trip: the wire image of any list of sound pieces, both formats mixed, deframes to that list |
| Framing.DrainConserves | src/tcp_listener.rs:127-148 | one drain of the buffer loses no byte: pieces and rest make up the buffer |
| Framing.DrainBounds | src/tcp_listener.rs:130-148 | each frame takes at least five bytes; a drain not ended by a zero-length header leaves less than max(170, 4 + limit) bytes |
| Framing.BytesConserved | src/tcp_listener.rs:98-155 | for every stream and every split into reads, received bytes are exactly headers, payloads and discarded bytes, in order, followed by the buffer |
| Framing.KeptIsReference | src/tcp_listener.rs:98-155 | when nothing was discarded, pieces so far followed by the reference cut of the buffer are the reference cut of all bytes received |
| Framing.ReadBoundaryIndependence | src/tcp_listener.rs:98-155 | for a stream with no frame over the limit, at every point and for every split, the frames emitted followed by those of the buffer are the frames of all bytes received |
| Framing.AllHandedOn | src/tcp_listener.rs:127-148 | for a stream with no frame over the limit and none behind a zero-length header, every split hands on every frame |
| Framing.HandsOnIff | src/tcp_listener.rs:98-148 | a stream with no frame over the limit has all frames handed on by every split exactly when no run of zero-length headers in front of a frame has at least as many headers as the stream takes reads from the first of them on |
| Framing.OneReadHandsOnIff | src/tcp_listener.rs:127-148 | for a stream of at most one read: exactly when no frame stands behind a zero-length header |
| Framing.FrameStaysBehind | src/tcp_listener.rs:251-254 | one read with a keep-alive and a whole frame hands on no frame |
| Framing.NothingLostIffClean | src/tcp_listener.rs:255-277 | every split keeps every byte exactly when no frame of the stream is over the limit |
| Framing.OutcomeKeepsFront | src/tcp_listener.rs:98-155 | whatever the split, the frames in front of the first frame over the limit are handed on or still in the buffer, in order |
| Framing.NoFrameBehindSuffices | src/tcp_listener.rs:255-277 | if no frame stands at any byte behind the first frame over the limit, every split yields the frames of the stream cut whole |
| Framing.FrameBehindDiffers | src/tcp_listener.rs:255-277 | a frame behind it, within one read, makes the frames depend on the split |
| Framing.SameFramesIff | src/tcp_listener.rs:255-277 | when the first frame over the limit comes within the last 4096 bytes, every split yields the same frames exactly when none is over the limit or no frame stands behind it |
| Framing.DiscardDependsOnReads | src/tcp_listener.rs:255-259 | over the limit the frames depend on the reads: the same nine bytes give one frame or none |
| Parser.OffsetsAreEnds | src/parser.rs:44-63 | every field starts where the one before it ends, and the last one ends at byte 153 |
| Parser.FieldsTile | src/parser.rs:44-63 | every byte below 153 lies in exactly one field and no field reaches beyond |
| Parser.ParseOfComposed | src/parser.rs:34-105 | fixed-layout round trip: twenty trimmed values that fit, space-padded, are parsed back, card and business number masked, business number raw in the table key |
| Parser.PublishedLayout | src/parser.rs:44-103 | for every payload of 153 bytes or more, the bytes from which each of the twenty members is read |
| Parser.MessageHeader | src/parser.rs:79-106 | id, event type, times and raw business number of the message, from the bytes of the payload |
| Parser.CardMaskHides | src/security.rs:165-175 | a masked card number keeps its length, its first six and last four bytes, and shows a star for every byte between |
| Parser.OtherMasks | src/security.rs:165-185 | short and already masked card numbers stay; of a longer business number six bytes stay and four stars follow |
| Parser.MasksIdempotent | src/security.rs:165-185 | masking a masked card or business number changes nothing |
| Response.BuildResponse | src/tcp_listener.rs:214-233 | the two slice writes give the response that is described byte by byte; a type that is not four bytes long panics |
| Response.AnsweredIff | src/tcp_listener.rs:161-233 | a payload has a response exactly when it is too short to parse or its trimmed type is empty or four bytes long |
| Response.ComposedPanics | src/tcp_listener.rs:224-226 | a payload written from twenty values panics exactly when its type is one to three bytes long |
| Response.PanicWitness | src/tcp_listener.rs:224-226 | a payload that panics: blank but for the type "1" |
| Response.ReplyHead | src/tcp_listener.rs:223-230 | the first eight bytes stay, so the response is framed like the request |
| Response.OtherFieldsKept | src/tcp_listener.rs:223-230 | every field but the type and the response code is read from the response unchanged |
| Response.RewrittenFields | src/tcp_listener.rs:217-230 | the type reads as the mapped type and the response code as "00" |
| Response.TypeAnswered | src/tcp_listener.rs:217-230 | an answered 0100 carries 0110, a 0200 carries 0210, and any other type is sent back byte by byte; the code is "00" |
| Response.ShortReply | src/tcp_listener.rs:214-233 | a payload too short to parse is sent back with nothing but the code "00" written, if it reaches that far |
| Response.ReplyKeepsTransaction | src/tcp_listener.rs:207-233 | parsing the response gives the same message with the type mapped and the code "00" |
| Response.ReplyIdempotent | src/tcp_listener.rs:214-233 | the response to a response is that response |
| TcpListener.Connection.ExtractFrame | src/tcp_listener.rs:242-281 | what is returned, what is left in the buffer and what is thrown away, for each thing that can stand at its front |
| TcpListener.Connection.OnRead | src/tcp_listener.rs:127-148 | the drain loop writes the responses of the drained frames in order, counts frames and bytes, and stops at a panic |
| TcpListener.Connection.HandleConnection | src/tcp_listener.rs:88-155 | output, counters and buffer of a whole connection are those of feeding its reads one by one |
| TcpListener.AnswersMatch | src/tcp_listener.rs:130-148 | one answer per request frame, in order, with the same header flag and length |
| TcpListener.OutputIsWire | src/tcp_listener.rs:136-147 | the bytes written are the wire image of the answers |
| TcpListener.ResponseStream | src/tcp_listener.rs:130-148 | response stream round trip: deframing all output of a connection that did not panic gives exactly one response per request frame and no byte over |
| TcpListener.EveryFrameAnswered | src/tcp_listener.rs:127-148 | for a stream with no frame over the limit and none behind a zero-length header, every frame is answered, however its bytes arrive |
| TcpListener.AliveIff | src/tcp_listener.rs:130-148 | the connection survives exactly when every frame is too short to parse or has a trimmed type that is empty or four bytes long |
| Dedup.DedupChecker.IsNew | src/dedup.rs:42-70 | answer and key store after an atomic set-if-absent, for each way the connection can fail |
| Dedup.AnswerUp | src/dedup.rs:42-70 | an id of 1 to 512 bytes is answered when the store answers: a duplicate if its own key is held, else new, and held from then on for the time to live |
| Dedup.AnswerFailed | src/dedup.rs:42-70 | all other answers are failures, and a lost reply leaves the same keys as one that arrived |
| Ingestion.AppState.Publish | src/producer.rs:134-158 | a publish succeeds exactly when a confirmation arrives, positive or negative; the message is queued exactly when the broker took it |
| Ingestion.AppState.HandleEvent | src/receiver.rs:46-159 | each status says exactly how far the event got, what was queued and what was marked |
| Ingestion.AppState.ProcessFrame | src/tcp_listener.rs:161-208 | new, duplicate and failed frames get the same response; only a new one is published |
| Ingestion.FramePasses | src/tcp_listener.rs:189-205 | a parsed frame passes the duplicate filter exactly when its transaction number is not blank, the store answers, and the number is not held; a blank one is answered but never published |
| Ingestion.RequestAnswered | src/receiver.rs:46-76 | a request is answered 422 exactly when its id is not 1 to 128 letters, digits, hyphens and underscores or its type not 1 to 64 bytes |
| Ingestion.CheckAnswered | src/receiver.rs:87-113 | a valid event on a free id wins, on a held id gets 409, and with a failing store 503 |
| Ingestion.ConfirmationAnswered | src/receiver.rs:132-158 | a confirmation of either kind gives 202, none gives 500, and a TCP handler sends no status |
| Ingestion.FreshEventAccepted | src/receiver.rs:78-158 | after every run a valid event of any allowed length on a free id can get through: it wins, is sent, is queued and answered 202 |
| Ingestion.TerminalNeverDrops | src/tcp_listener.rs:98-148 | in no run is a TCP handler dropped in the middle, so a terminal that hangs up does not stop its transaction |
| Ingestion.WinsSpaced | src/dedup.rs:42-70 | in every interleaving two SETs that took effect for one id are at least the time to live apart |
| Ingestion.WinsPerWindow | src/dedup.rs:42-70 | wins of one id in a half-open window number at most its length divided by the time to live, rounded up |
| Ingestion.EveryHandler | src/receiver.rs:87-158 | in every interleaving each publish attempt follows the handler's own, only win; a 202 follows a publish attempt; after 409, 422 or 503 nothing was sent |
| Ingestion.DeedsOfInputs | src/receiver.rs:132-158 | in every interleaving the broker has a handler's message exactly when it took it at the handler's send; a mark without a known win is exactly a lost reply; a 202 means a queued message exactly when the broker has not rejected it |
| Ingestion.DuplicateIff | src/dedup.rs:58-69 | an id is a duplicate exactly when one SET for it took effect less than the time to live ago |
| Ingestion.ConflictOutcome | src/receiver.rs:87-142 | every 409 in every interleaving has a holder that marked the id less than the time to live before; over the whole run, once the fate of the holder's message is settled, the broker has it exactly when the reply to the SET was not lost, the client did not hang up before the send, and the broker did not refuse it |
| Ingestion.ConflictIsSuccess | src/receiver.rs:103-113 | in runs without such losses the holder's message is queued as soon as its fate is settled |
| Ingestion.ConflictBeforeRefusal | src/receiver.rs:103-142 | a run in which a client gets 409 and the broker refuses the holder's message afterwards |
| Ingestion.ConflictAfterHangUp | src/receiver.rs:87-113 | a run in which a client hangs up before its message is sent and gets 409 for its retry |
| Ingestion.AcceptedWithoutMessage | src/producer.rs:153-157 | a run in which a client gets 202 and nothing is queued |
| Ingestion.ConflictWithoutMessage | src/receiver.rs:132-142 | a run in which a retry gets 409 although nothing was queued |
| ConnectionTracker.GlobalLimit | src/security.rs:115-137 | in every interleaving live guards of one tracker never exceed the limit, and its total is the live guards plus the acquires between `fetch_add` and their decision |
| ConnectionTracker.PerIpCounts | src/security.rs:115-144 | in every interleaving a stored count exceeds neither the per-IP limit nor the guards whose decrement is pending, and an entry lock has one holder |
| ConnectionTracker.ExactIff | src/security.rs:135-144 | the counts are exact throughout a run exactly when no step of it removes an entry that was counted up again |
| ConnectionTracker.QuietRuns | src/security.rs:115-144 | when no acquire of an IP starts between `drop(count)` and `remove`, counts equal pending guards, stay within the limit, and the subtraction never saturates |
| ConnectionTracker.LimitHoldsIff | src/security.rs:115-144 | in every run and for every IP the live guards stay within the per-IP limit exactly when that limit is zero or the global limit is no higher |
| ConnectionTracker.RaceBreaksLimit | src/security.rs:135-144 | a run with two live guards of one IP under a per-IP limit of one |
| ConnectionTracker.Tracker.Acquire | src/security.rs:115-133 | an uninterrupted acquire is its atomic steps, and succeeds exactly when both limits allow it |
| ConnectionTracker.Tracker.Release | src/security.rs:135-144 | an uninterrupted release is its atomic steps |
| Producer.DeclarePairIff | src/producer.rs:88-117 | one turn of the loop succeeds exactly when the two names are free or declared alike, and adds two queues and two bindings |
| Producer.ConnectIff | src/producer.rs:57-126 | from a fresh broker `connect` succeeds exactly when the configuration is compatible, and then the topology is exactly the declared one |
| Producer.Reconnect | src/producer.rs:57-126 | connecting again with the same configuration succeeds and changes nothing |
| Producer.QueueOfOtherKind | src/producer.rs:53-126 | on any broker `connect` fails if one of its queues is there with other arguments |
| Producer.Routes | src/producer.rs:88-117 | a publish goes to every main queue and no other; a reject goes to its dead-letter queue and no other |
| Producer.Channel.Connect | src/producer.rs:57-126 | the declaring loop leaves the topology that the declarations describe, or reports an error exactly when they fail |
| Producer.Channel.Publish | src/producer.rs:134-158 | a copy goes to every queue bound to the exchange |
| Calendar.DayNumberCountsDays | src/consumer/postgres.rs:51-57 | day numbers count the days of the proleptic Gregorian calendar from 1970-01-01, across leap years |
| Calendar.MonthsBegin | src/consumer/postgres.rs:51-57 | the day of the year on which each month begins, in common and leap years |
| Calendar.DayOrder | src/consumer/postgres.rs:51-57 | day numbers order dates |
| Calendar.EightDigits | src/consumer/postgres.rs:51 | eight digits are read as a year of four, a month of two and a day of two |
| Calendar.BlanksAreRead | src/consumer/postgres.rs:51 | blanks may stand for the leading zeros of a month and a day |
| Calendar.SignedYear | src/consumer/postgres.rs:51 | a sign takes the year out of its four digits |
| Calendar.DateOfParts | src/consumer/postgres.rs:51 | a date is a year, a month and a day, one behind the other, if they name a day |
| Calendar.HourWritten | src/consumer/postgres.rs:53-54 | the hour of a time is that of its first two bytes, whatever follows |
| Calendar.BucketWritten | src/consumer/postgres.rs:50-58 | any day and time of day, written out, give 86400 seconds for each day since 1970 and 3600 for each hour, less nine hours |
| Calendar.HourBucket | src/consumer/postgres.rs:50-58 | a bucket starts on a full hour, buckets are ordered as (date, hour), and two messages share one exactly when they name the same day and hour; for dates of eight digits exactly when date texts and hours agree |
| Amounts.PaddedAmountSurvives | src/consumer/postgres.rs:61-64 | every amount written as ten zero-padded digits is read back |
| Amounts.NegativeAmount | src/consumer/postgres.rs:61-64 | digits behind a minus sign count against the sum |
| Amounts.ShortAmountBounded | src/consumer/postgres.rs:61-64 | any text of at most ten bytes reads as less than ten thousand million either way |
| DailyTotals.UpsertAdds | src/consumer/postgres.rs:292-316 | the statement succeeds exactly when its rows have distinct keys, and then adds their sums to the table |
| PostgresRows.OneBucket | src/consumer/postgres.rs:84-97 | a message counts once, in exactly one of cancel, card and other |
| PostgresRows.BucketConservation | src/consumer/postgres.rs:211-249 | for any batch, amounts over all keys and buckets add up to the parsed amounts of the convertible messages, counts to their number, and cash stays zero |
| PostgresRows.CardAmountBounded | src/consumer/postgres.rs:84 | a message that reaches the consumer with a table key has an amount of at most ten digits |
| PostgresRows.NoOverflow | src/consumer/postgres.rs:235-242 | in a batch of at most 922,337,203 deliveries no partial sum leaves `i64` and no count leaves `i32` |
| PostgresConsumer.FlushSettles | src/consumer/postgres.rs:220-253 | a flush settles each buffered delivery once: skipped ones with ack, the others by the result of the statement |
| PostgresConsumer.ExactlyOnce | src/consumer/postgres.rs:143-202 | at every loop head the buffer is short of a batch, and deliveries received are exactly those settled once and those buffered |
| PostgresConsumer.BatchRefinement | src/consumer/postgres.rs:150-199 | after any run the table is what one UPSERT per acknowledged message would have made it, whatever the batch size, the ticks and the results |
| PostgresConsumer.BatchingOnlyDelays | src/consumer/postgres.rs:187-197 | when no UPSERT fails, adding the buffered messages one by one gives the table of all messages received |
| PostgresConsumer.BufferIsLeftOver | src/consumer/postgres.rs:150-199 | at every loop head the buffer is what is left of the messages since the last tick when whole batches are taken off, whatever the statements did |
| PostgresConsumer.TickSettlesAll | src/consumer/postgres.rs:194-197 | after a tick the buffer is empty and everything received is settled; if no UPSERT has failed, the table is that of one UPSERT per received message |
| PostgresConsumer.RunsAreProper | src/consumer/postgres.rs:162-234 | in every run every settled unreadable delivery is rejected and every settled message without a row is acknowledged |
| PostgresConsumer.OnlyGarbageRejected | src/consumer/postgres.rs:162-253 | if no UPSERT fails, exactly the unreadable deliveries are rejected, in arrival order |
| PostgresConsumer.RunNeverOverflows | src/consumer/postgres.rs:187-242 | over whole runs no batch overflows, if the batch size is at most 922,337,203 and all messages come from the listeners |
| PostgresConsumer.ToColumns | src/consumer/postgres.rs:256-286 | the twelve arrays are equally long, and index i of each comes from the same row |
| PostgresConsumer.IntoValues | src/consumer/postgres.rs:256 | in whatever order the map is read, its rows have distinct keys and the sums of the map |
| PostgresConsumer.Consumer.Aggregate | src/consumer/postgres.rs:211-249 | the map holds the sums of the batch key by key, the group is the convertible deliveries, the others are acknowledged |
| PostgresConsumer.Consumer.FlushBatch | src/consumer/postgres.rs:205-357 | map, arrays and statement together make the flush of the state machine, and both buffers end empty |
| PostgresConsumer.Consumer.OnDelivery | src/consumer/postgres.rs:162-185 | entry i of one buffer stays paired with entry i of the other; an unreadable delivery is rejected |
| PostgresConsumer.Consumer.Turn | src/consumer/postgres.rs:151-199 | one turn of the select loop is one step of the state machine |
| PostgresConsumer.Consumer.Run | src/consumer/postgres.rs:150-202 | the loop follows the state machine up to the end of the stream or a channel error |
| MysqlConsumer.TablesOfKeys | src/consumer/mysql.rs:76-82 | two business numbers share a table exactly when they agree once trimmed |
| MysqlConsumer.TableOfNumber | src/consumer/mysql.rs:76-82 | any 1 to 20 ASCII digits and letters, with or without blanks around them, name their `kicc_b` table |
| MysqlConsumer.NoTable | src/consumer/mysql.rs:76-82 | nothing else names a table |
| MysqlConsumer.RowOfAnyMessage | src/consumer/mysql.rs:85-109 | the row of any message keeps the business number as it came, and columns of absent members are empty or zero |
| MysqlConsumer.InsertEachByTable | src/consumer/mysql.rs:235-260 | every table gets the rows of its own group, in arrival order |
| MysqlConsumer.GroupsPartition | src/consumer/mysql.rs:227-233 | a group holds only its table's deliveries, and each delivery is in its own group as often as in the batch and in no other |
| MysqlConsumer.OwnInsertDecides | src/consumer/mysql.rs:262-286 | a delivery is acknowledged exactly when the INSERT into its own table succeeds, independent of the other groups |
| MysqlConsumer.RunAccounts | src/consumer/mysql.rs:148-217 | at every loop head deliveries received are exactly those settled once and those buffered, and the tables are what one INSERT per acknowledged message would have made them |
| MysqlConsumer.BufferIsLeftOver | src/consumer/mysql.rs:155-214 | at every loop head the buffer is what is left of the deliveries with a row since the last tick when whole batches are taken off |
| MysqlConsumer.TableIsolation | src/consumer/mysql.rs:221-288 | whatever happens to other tables, a table whose INSERTs never fail holds the rows received for it, in arrival order, up to those still buffered |
| MysqlConsumer.TickSettlesAll | src/consumer/mysql.rs:209-213 | after a tick the buffer is empty and everything received is settled; a table whose INSERTs never failed holds every row received for it |
| MysqlConsumer.RunsAreProper | src/consumer/mysql.rs:167-200 | in every run every settled unreadable delivery is rejected and every settled message without a table is acknowledged |
| MysqlConsumer.OneMoreGroup | src/consumer/mysql.rs:235-286 | settling one group more adds exactly its deliveries to the log, in whatever order the groups come |
| MysqlConsumer.AllInserted | src/consumer/mysql.rs:235-260 | inserting all groups is inserting every passing delivery by itself |
| MysqlConsumer.Consumer.GroupByTable | src/consumer/mysql.rs:230-233 | the map has one group per table, each with the table's deliveries and rows in arrival order |
| MysqlConsumer.Consumer.InsertGroup | src/consumer/mysql.rs:236-286 | a group's rows are appended to its table and its deliveries acknowledged, or neither changes and they are rejected |
| MysqlConsumer.Consumer.FlushBatch | src/consumer/mysql.rs:221-288 | whatever the order of the groups, tables and verdicts are those of the state machine |
| MysqlConsumer.Consumer.OnDelivery | src/consumer/mysql.rs:167-200 | rows and deliveries stay paired; a message without a table is acknowledged, an unreadable one rejected |
| MysqlConsumer.Consumer.Turn | src/consumer/mysql.rs:156-214 | one turn of the select loop is one step of the state machine |
| MysqlConsumer.Consumer.Run | src/consumer/mysql.rs:155-217 | the loop follows the state machine up to the end of the stream or a channel error |
| Pipeline.PipelineConservation | src/main.rs:81-93 | with or without the PostgreSQL queue, after every run from a fresh broker, for each queue published messages are exactly those queued, buffered, acknowledged and rejected; dead-letter queues hold exactly the rejects; the databases account for exactly the acknowledged messages |
| Pipeline.PipelineOnlyDelays | src/consumer/postgres.rs:150-199 | when no UPSERT fails, the totals, the buffer and the queue together are the totals of all published messages |
| Pipeline.TablesOnlyLate | src/consumer/mysql.rs:155-214 | a table whose INSERTs never fail, the buffer and the queue together hold exactly the rows published for it, in order |
| Pipeline.PgCatchesUp | src/consumer/postgres.rs:150-199 | from every reachable state, taking what is queued and a tick settle everything published; if no UPSERT has failed, the totals are those of all published messages |
| Pipeline.MyCatchesUp | src/consumer/mysql.rs:155-214 | the same for the transaction tables, table by table |
| EndToEnd.PublishedAsQueued | src/producer.rs:134-158 | in every run of handlers and consumers the messages published are those the broker took from the handlers, in log order |
| EndToEnd.EventPublished | src/receiver.rs:116-132 | a queued HTTP event is published with its own members, its own time or that of the send, and no table key |
| EndToEnd.TotalsOfTransactions | src/consumer/postgres.rs:150-199 | when no UPSERT fails, totals, buffer and queue together are those of one UPSERT for each card transaction that the broker took from a TCP handler |
| EndToEnd.IdQueuedPerTtl | src/dedup.rs:42-70 | in a run of the handlers an id is queued at most once for each started time to live |
| EndToEnd.IdPublishedPerTtl | src/dedup.rs:42-70 | the same bound for the messages published to the consumers |
| EndToEnd.PublishedFromListeners | src/tcp_listener.rs:161-208 | all that is published is a parsed frame or an HTTP event without a table key |
| EndToEnd.NeverOverflows | src/consumer/postgres.rs:187-242 | with a batch size of at most 922,337,203 no batch of any run of the whole system overflows |
| Terminals.FramesArrive | src/tcp_listener.rs:98-155 | frames that the listener accepts are handed on whole and in order, however their bytes arrive |
| Terminals.TotalsOfValues | src/consumer/postgres.rs:67-104 | from bytes to totals: for any terminals, reads, interleaving of handlers and batches, when no UPSERT fails, totals, buffer and queue are the first totals and the rows of the values sent in the transactions that the broker took |
| Terminals.FrameQueuedOnce | src/tcp_listener.rs:130-148 | each frame of each terminal is queued at most once |
| Transactions.BookedAsSent | src/consumer/postgres.rs:67-104 | a transaction off the wire gets a totals row exactly when it has a business number, an eight-byte date that is read as a day, and an hour, and books its amount once under its own hour, merchant and terminal |
| Transactions.BookedInItsHour | src/consumer/postgres.rs:50-104 | a transaction of any day and time of day is booked under the Unix second at which that hour began in Korea |
| Transactions.InsertedAsSent | src/consumer/mysql.rs:85-109 | a transaction off the wire gets a table row exactly when its business number names a table, each column from its own field |
| Transactions.CardColumn | src/security.rs:165-175 | of a card number of 14 bytes or more the table row keeps the first six and four stars |
| Transactions.DatetimeReads | src/consumer/mysql.rs:63-73 | date and time can be read back from the datetime column |

## Left out

- Text is bytes, exact for ASCII: EUC-KR decoding of Hangul fields, Unicode whitespace in `trim`, and slicing that panics inside a multi-byte character are not modelled.
- Calendar.ParseDate: chrono is not part of this model; its `%Y%m%d` is given here as signs, digits and blanks of eight bytes, all that the only caller lets through.
- PostgresRows.NoOverflow: sums are unbounded integers, so what happens beyond the bound and in the table's own columns is not modelled.
- Producer.Channel.Connect: which declarations were made before an error is not stated.
- Framing.SameFramesIff: beyond the last 4096 bytes one direction remains, `NoFrameBehindSuffices`; which bytes a refusal can reach there depends on the reads that keep-alives in front delay.
- Ingestion.DeedsOfInputs: the broker confirms only what it took and rejects only what it did not take; that its rejection is no error is how the client library (lapin 2.5) answers, and that an HTTP handler may be dropped while it waits is how the server library behaves; neither is part of this model.
- ConnectionTracker.GlobalLimit: speaks of one tracker; a listener that restarts after an accept error makes a new one while old connections still hold guards of the old one.
- MysqlConsumer.Consumer.FlushBatch: the order in which groups are settled is open, so the log agrees with the state machine as a multiset.
- Pipeline.PipelineConservation: two consumers read different queues, and consumption is one message at a time; prefetch, priorities and redelivery are not modelled.
- Database statements are atomic, and their success is open; an UPSERT applied whose reply is lost is not modelled.
- Loss of a broker connection, failed acks and redelivery: claims of exactly-once belong to one uninterrupted run.
- Queue and exchange names that the broker reserves or makes up are not modelled.
- Sockets: the idle timeout, failed reads and failed writes only end a connection earlier.
- JSON: an unreadable body is one kind of delivery; payload members that are not strings read as absent.
- The HTTP rate limiter, the API key, request size limits and routing are library wrappers.
- Configuration (but for which queues are declared), logging, notifications, process start-up, the separate binaries and the unit files.
- The migrations define other tables than the consumers write.
- Time is a parameter: ticks, clocks and expiry are open inputs of the runs.
