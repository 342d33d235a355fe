# Haminfo: a verified model

Haminfo collects APRS packets from an MQTT broker, stores them in PostgreSQL and shows
them on a dashboard. This project models, in Dafny, the two ingest services and the index
and cache layer that reads what they write, and proves what they keep over all runs.

| module | what it models |
|---|---|
| `Common`, `Strings`, `Timestamps` | shared types; the string operations of Python; ISO texts and their order |
| `Store` | the packet table: rows under a key, written by INSERT ... ON CONFLICT DO NOTHING |
| `Counters` | thread-local counters and the flush into the shared statistics |
| `Pipeline`, `PipelineSafety`, `PipelineRuns`, `PipelineReasons`, `PipelineTheorems`, `SavedCountLag` | the Python ingest as a step relation over queues, batches, counters and table; its invariant; why a packet is where it is; what follows in every reachable state; a run that shows the saved count lag |
| `CopyText` | the row encoder, and the decoder of the COPY text format of the PostgreSQL reference (COPY, section "Text Format") as its specification |
| `Queues`, `FanOut`, `Processor`, `Weather` | the queues, the fan-out, the processor thread and the weather thread with its filter, as objects |
| `ProcessorRuns`, `StoredRows` | what any passes of the processor do to its counters and its batch, and to the table, said of the columns of the packets |
| `Refinement` | the processor object against the step relation |
| `Connection`, `ReconnectProtocol` | backoff, guard, health check and callbacks of the broker connection: the object, and any number of threads on it |
| `BatchLoop`, `BatchCounts` | the Rust ingest: the batch loop and its timing; what its counters mean and what the table holds |
| `StationCache`, `LiveFeed` | the bounded last-location cache; the polling broadcaster and its routing |
| `MapQueries`, `TileCache`, `TileAnswers`, `TileEntries`, `MapService` | de-duplicated capped queries, the tile cache, what a map request answers from it and leaves in it, and the request handlers |
| `SqlLexer` | what PostgreSQL reads: tokens, strings and nested comments by its documentation, section 4.1 (Lexical Structure) |
| `SqlScanner`, `SqlComments`, `SqlPieces` | the SQL validator's scanner and comment stripper, each against that lexer |
| `SqlValidator`, `SqlWords`, `SqlRevalidation`, `SqlExamples` | its checks, what its regular expressions find, the query it returns, and queries at which it fails |
| `GeoCoord`, `GeoText`, `GeoFormat`, `GeoSigned` | degrees, minutes and seconds; numerals; printing and reading coordinates, with a hemisphere and without |
| `Countries` | packets per country, by callsign and by grouped prefix |

Transactions that may fail, clocks, rows that a query may answer, cache reads and writes
that may fail, and packets that may not convert are arguments or steps of any value, so
the theorems hold whatever they do.

Where the code differs from what it says of itself, the model follows the code:

- The shared saved count is not exact after shutdown (haminfo/mqtt/processors.py:230): a
  flush that finds no packet counted returns early and leaves saved rows behind.
- A batch whose COPY and INSERT both fail is dropped with a count of 0, not retried
  (haminfo/mqtt/processors.py:484-489).
- A tile entry written by the map request holds only the part of the tile inside the box
  asked for, de-duplicated over the whole box (haminfo-dashboard/src/haminfo_dashboard/queries.py:365-390),
  so an entry is sound, and equals the tile query exactly when `TileEntries` says.
- The comment stripper takes slash, star, slash for a whole comment, ends a comment where an
  inner one ends, and a line comment only at a newline (haminfo/utils/sql_validator.py:149-161);
  PostgreSQL nests comments and ends a line comment at a carriage return too.
- The scanner for a second statement lets a backslash hide a quote and sees quotes in comments
  (haminfo/utils/sql_validator.py:176-191), as PostgreSQL does not.
- The validator checks the text with its newlines and returns it without them
  (haminfo/utils/sql_validator.py:99-123), so a leading line comment swallows the query returned;
  and it checks the text without the default limit, which can make it too long for a second
  validation or complete a final COPY to a dangerous pattern.
- `to_string` removes every minus sign when a hemisphere is printed (haminfo/lat_lon.py:147-149),
  that of an exponent too; without one it prints the minutes of a negative coordinate without
  their sign (haminfo/lat_lon.py:135-140), and reading adds them to the degrees.
- An unknown hemisphere letter raises for both axes; for longitudes the code raises a tuple,
  which Python turns into another error (haminfo/lat_lon.py:305-308).
- The grouped country query counts callsigns without a digit, such as WINLINK, for a country
  (haminfo-dashboard/src/haminfo_dashboard/queries.py:612-623).

## Model

| member | source | states |
|---|---|---|
| `PipelineTheorems.EveryPacketInOnePlace` | haminfo/mqtt/processors.py:262-362 | in every state that any interleaving of N threads reaches, arrival k is in exactly one place of thread k mod N (queue, dropped, rejected, batch, inserted, duplicate, lost, discarded) and in none of another thread; it counts as inserted iff the table holds its row, and as a duplicate only if another row holds its key |
| `PipelineTheorems.QueuesBoundedAndInOrder` | haminfo/mqtt/thread.py:436-443 | queues never hold more than 5000 packets, what a thread has taken and still has queued is in arrival order, and thread i only ever gets arrivals that are i modulo N |
| `PipelineTheorems.OffersAreDealt` | haminfo/mqtt/thread.py:437-438 | in every reachable state what the queue of thread i has been offered, queued, taken or dropped, is the number of arrivals that are i modulo N |
| `PipelineTheorems.RoundRobinIsFair` | haminfo/mqtt/thread.py:437-438 | in every reachable state any two queues have been offered equally many packets, up to one, whatever the threads did with them |
| `PipelineTheorems.CountersAddUp` | haminfo/mqtt/processors.py:224-260 | at every step of every interleaving the shared value plus what the threads still hold equals the true number, for packets, for saved rows and for each packet type |
| `PipelineTheorems.InsertedIsGrowth` | haminfo/mqtt/processors.py:446-450 | the rows that the threads report as inserted are exactly the growth of the table |
| `PipelineTheorems.CountsExactAfterShutdown` | haminfo/mqtt/processors.py:564-596 | once every thread has cleaned up, the shared packet count and every type count are exact |
| `PipelineTheorems.CallsExactAfterShutdown` | haminfo/mqtt/processors.py:242-245 | once every thread has cleaned up, the shared callsign set is exactly the callsigns of the accepted packets |
| `PipelineTheorems.SavedExactIffNothingWithheld` | haminfo/mqtt/processors.py:230-231 | the shared saved count never exceeds the truth after shutdown and is exact iff no stopped thread still holds saved rows |
| `PipelineTheorems.SavedExactIffNoEarlyReturn` | haminfo/mqtt/processors.py:230-231 | after shutdown the shared saved count is exact iff in the whole run no thread took, on its way out, the early return of the flush while it still had saved rows to report |
| `SavedCountLag.SavedCountCanLag` | haminfo/mqtt/processors.py:564-596 | a concrete run of one thread: 500 packets counted, 500 rows in the table, shutdown complete, shared saved count 0 |
| `PipelineTheorems.WeatherInOnePlace` | haminfo/mqtt/processors.py:630-688 | a weather packet is in exactly one of: weather queue, dropped, passed over, counted only, pending report, stored report; any other packet is in none |
| `PipelineTheorems.ReportsStoredOrPending` | haminfo/mqtt/filters.py:214-221 | with a database the report counter equals stored plus pending reports after any sequence of failed and successful saves; without one it equals the reports counted only, and none is stored or pending |
| `PipelineReasons.EveryPlaceHasItsReason` | haminfo/mqtt/processors.py:262-362 | in every reachable state the rejected packets are those that do not convert, everything accepted, saved, lost or discarded converts, accepted and rejected together are as many as were taken out, packets are discarded only without a database and inserted, skipped or lost only with one |
| `PipelineReasons.DroppedOrLostFor` | haminfo/mqtt/processors.py:315-362 | no step drops a packet but an arrival at a queue of 5000, and none loses a packet but an INSERT that fails after a COPY that failed |
| `PipelineSafety.DealtEvenly` | haminfo/mqtt/thread.py:437-438 | of m arrivals, thread i of n has been dealt m / n, plus one if i < m mod n |
| `PipelineSafety.StepMoves` | haminfo/mqtt/processors.py:262-362 | no step of a thread makes a packet appear, disappear or be in two places |
| `PipelineSafety.StepBalances` | haminfo/mqtt/processors.py:224-260 | no step of a thread changes the sum of the shared and its own counters against what it really did |
| `PipelineRuns.StatementFacts` | haminfo/mqtt/processors.py:446-447 | one ON CONFLICT DO NOTHING statement keeps every old row, adds the rows of exactly the fresh packets of the batch, and finds the keys of the skipped ones taken |
| `PipelineRuns.RunsKeepInv` | haminfo/cmds/mqtt_ingest.py:72-112 | every run of the system of N queues, N processors and the weather thread keeps the whole invariant |
| `Store.FirstRowWins` | haminfo/mqtt/processors.py:446-447 | after any statement a key holds its old row, or else the first row offered under it |
| `Store.InsertedKeys` | haminfo/mqtt/processors.py:446-447 | the keys afterwards are the old keys and the offered keys |
| `Store.CountIsGrowth` | haminfo/mqtt/processors.py:449 | the reported row count is exactly the growth of the table |
| `Store.ResaveAddsNothing` | rust-mqtt-ingest/src/db.rs:106 | saving a batch again, after any other statements, changes nothing and reports 0 rows |
| `Store.BatchingIsInvisible` | haminfo/mqtt/processors.py:315-362 | however a stream of rows is cut into batches, the table and the sum of the reported counts are those of one row at a time |
| `Store.InterleavingKeepsTheUnion` | haminfo/mqtt/processors.py:477-482 | over any interleaving of the statements of several threads the final keys are the old ones and everything any thread saved |
| `Counters.FlushConserves` | haminfo/mqtt/processors.py:233-259 | moving the local counts into the shared statistics keeps every sum |
| `Counters.FlushLeavesBehind` | haminfo/mqtt/processors.py:230-231 | after a flush only saved rows can remain local, and they remain iff no packet was counted |
| `CopyText.ChainIsOnePass` | haminfo/mqtt/processors.py:391-395 | the four whole-string replacements, backslash first, equal escaping each character once |
| `CopyText.UnescapeEscape` | haminfo/mqtt/processors.py:391-395 | reading an escaped text by the COPY rules gives the text back; it holds no raw tab, newline or carriage return and is never the NULL marker |
| `CopyText.FieldRoundTrip` | haminfo/mqtt/processors.py:382-396 | a NULL, a timestamp and any text each read back as what was stored |
| `CopyText.CopyRoundTrip` | haminfo/mqtt/processors.py:380-397 | for every batch and every content of its columns, decoding the encoded buffer under the COPY text format gives back the same rows; no line is the end marker and no text is read as NULL |
| `CopyText.EncodeBatch` | haminfo/mqtt/processors.py:380-397 | the nested loops write the buffer of which the round trip is proved |
| `CopyText.EscapeText` | haminfo/mqtt/processors.py:390-396 | the four reassignments produce the escaped text |
| `Processor.MergeKeepsPrepared` | haminfo/mqtt/processors.py:440-446 | the CASE on an empty location leaves prepared packets alone, so both routes offer the same rows |
| `Processor.Database.CopyAndMerge` | haminfo/mqtt/processors.py:401-464 | whole or not at all: on commit exactly the decoded rows are merged first-wins and counted, else the table is unchanged and the result is -1 |
| `Processor.Database.InsertRows` | haminfo/mqtt/processors.py:475-490 | whole or not at all, and a failure is reported as 0 rows |
| `Processor.APRSPacketProcessorThread.FlushLocalStats` | haminfo/mqtt/processors.py:224-260 | the flush of the thread, with its early return, is the flush of which conservation is proved |
| `Processor.APRSPacketProcessorThread.MergePacketTypes` | haminfo/mqtt/processors.py:247-253 | the loop over the local types adds each of them to the shared tallies, in any order, and touches no other |
| `Processor.APRSPacketProcessorThread.SaveWithCopy` | haminfo/mqtt/processors.py:364-464 | through encoder, decoder and staging the table gets the same rows as by plain inserts, or stays as it was with result -1 |
| `Processor.APRSPacketProcessorThread.SaveWithInsert` | haminfo/mqtt/processors.py:466-492 | the same rows by the other route, or none |
| `Processor.APRSPacketProcessorThread.SavePacketsIfNeeded` | haminfo/mqtt/processors.py:315-362 | the whole new state: nothing under the threshold; discarded and counted in stats-only mode; else saved by COPY or INSERT, or lost with a count of 0 if both fail |
| `Processor.APRSPacketProcessorThread.Loop` | haminfo/mqtt/processors.py:262-313 | one pass of the loop takes the first queue entry and leaves the state that the iteration function gives, on the empty queue, on an unconvertible packet and on a converted one; the next rows say what that does to counters, batch and pending table |
| `ProcessorRuns.PassesCount` | haminfo/mqtt/processors.py:272-313 | over any passes of the loop the thread's and the shared counters together grow by the packets taken in: their number, for every text the packets that hold it in the column packet_type, and the callsigns by exactly the texts of their column from_call |
| `ProcessorRuns.IdleShares` | haminfo/mqtt/processors.py:302-311 | after any passes and one that finds the queue empty, the shared statistics alone have grown by exactly that |
| `ProcessorRuns.SharedWhen` | haminfo/mqtt/processors.py:224-313 | a pass shares the counts if it finds the queue empty or reaches 100 packets, or if thread 0 prints, at a multiple of 500; no other pass takes anything off the thread's count |
| `ProcessorRuns.PassesBatch` | haminfo/mqtt/processors.py:290-300 | after any passes the batch holds the last packets taken in, in order, as many as full batches of the threshold leave over |
| `ProcessorRuns.PassPending` | haminfo/mqtt/processors.py:255-258 | a pass leaves the pending sizes of other threads alone, and one on an empty queue that shares counts enters the size of the batch |
| `StoredRows.PassesStore` | haminfo/mqtt/processors.py:315-492 | over any passes with a database the old rows stay, each new row holds the sixteen columns of the first saved packet with its sender and timestamp (NULL if absent or None, the ISO text of a time, any other text as it is), and no saved packet is without a row |
| `StoredRows.AllSavedOrBatched` | haminfo/mqtt/processors.py:315-362 | if in each pass one of the two transactions commits, the packets saved and then those in the batch are all that were taken in, in order |
| `StoredRows.SharedKeyIff` | haminfo/mqtt/processors.py:446-447 | two packets conflict iff they have the same sender and the same time, because different times have different texts |
| `Processor.MergeClearsLocation` | haminfo/mqtt/processors.py:440-446 | the merge leaves no empty location text, makes it NULL, and changes nothing else |
| `Processor.APRSPacketProcessorThread.Cleanup` | haminfo/mqtt/processors.py:564-596 | flush, last save, and its rows added to the shared count directly; nothing stays in the batch |
| `Processor.APRSPacketProcessorThread.constructor` | haminfo/mqtt/processors.py:182-222 | a new thread has the staggered threshold and empty counters, and enters 0 under its index in the pending table |
| `Queues.PacketQueue.PutNowait` | haminfo/mqtt/thread.py:440-443 | a full queue refuses and stays as it is, any other appends |
| `FanOut.MessageRouter.OnMessage` | haminfo/mqtt/thread.py:415-454 | each message that makes a packet goes to the queue rr_index mod N and, if it is weather, also to the weather queue, and full queues drop it; with a single queue a weather packet is put there twice |
| `FanOut.MessageRouter.constructor` | haminfo/mqtt/thread.py:54-72 | the last of several queues is for weather, a single one serves both |
| `FanOut.Wire` | haminfo/cmds/mqtt_ingest.py:72-112 | N separate APRS queues and a weather queue, all of capacity 5000 and empty |
| `FanOut.MessageIsDelivery` | haminfo/mqtt/thread.py:437-452 | handling a message by the object is the delivery step of the step relation |
| `Refinement.IterationRefines` | haminfo/mqtt/processors.py:262-362 | one pass of the object's loop is a run of thread steps from the loop's top to its top, whatever the transactions do |
| `Refinement.CleanupRefines` | haminfo/mqtt/processors.py:564-596 | the object's cleanup is a run of thread steps that ends with the thread stopped |
| `Refinement.LoopStaysReachable` | haminfo/threads/my_thread.py:74-82 | from any reachable state of the whole system a pass of the object's loop leads to a reachable state, so the theorems about all interleavings hold of it |
| `Weather.WeatherPacketFilter.Filter` | haminfo/mqtt/filters.py:119-229 | a good packet appends one report to the list it shares with the thread and counts one; any other appends none |
| `Weather.WeatherPacketProcessorThread.SaveReports` | haminfo/mqtt/processors.py:648-688 | a save that commits stores all pending reports and clears the shared list, one that fails keeps them for the next; nothing is dropped or stored twice |
| `Weather.WeatherPacketProcessorThread.Loop` | haminfo/mqtt/processors.py:630-646 | one pass passes the first packet to the filter and saves at 500 pending reports; a pass on the empty queue saves whatever is pending, so nothing is left pending where the save commits or there is no database |
| `Weather.WeatherPacketProcessorThread.Run` | haminfo/mqtt/processors.py:630-688 | over any number of passes and any fates of the saves, the reports stored and pending are those of the packets taken, in order, and the counter moves with them |
| `Connection.EmptyChecksAlwaysBounded` | haminfo/mqtt/thread.py:289-301 | over every history of callbacks, messages, checks, guard changes and the stop, the counter of empty checks stays below three until the stop |
| `Connection.SilenceEndsInReconnect` | haminfo/mqtt/thread.py:277-301 | a connection silent for over 30 seconds is reconnected no later than the third throttled check, counting those already noted |
| `Connection.MQTTThread.ReconnectClient` | haminfo/mqtt/thread.py:159-204 | refused while stopping or already reconnecting; else flags cleared, slept the capped delay, delay doubled up to 60, client reopened; the slices sum up to the delay or to the stop |
| `Connection.MQTTThread.SlicedSleep` | haminfo/mqtt/thread.py:191-195 | the sliced sleep ends and adds up to exactly the delay unless stopped |
| `Connection.MQTTThread.CheckConnectionHealth` | haminfo/mqtt/thread.py:206-301 | every branch of the health check: throttle, guard, missing flags, dead loop or socket, silence; the next rows say when it reconnects and what that leaves |
| `Connection.ReconnectsIff` | haminfo/mqtt/thread.py:206-301 | a check reconnects iff at least 5 seconds have passed since the last and no reconnect is under way, and there is no client, it is not connected or not subscribed, its loop is dead, its socket closed or missing, or, more than 30 seconds after the start, no message came for 120 seconds or for 30 at the third such check in a row |
| `Connection.SoundIsLeftAlone` | haminfo/mqtt/thread.py:206-301 | any other check leaves client, flags, attempts, delay and the time of the last message as they are |
| `Connection.DueIsReopened` | haminfo/mqtt/thread.py:159-204 | a check that reconnects leaves both flags down, the guard free and a new client, counted as an attempt, with the delay doubled up to 60; with a stop during the sleep no client and the old delay |
| `Connection.LostIsReconnected` | haminfo/mqtt/thread.py:222-235 | whatever happens to a connection that is not connected, or not subscribed, but that the broker accepts it again: a check that throttle and guard let through reconnects it |
| `Connection.LossIsReconnected` | haminfo/mqtt/thread.py:325-413 | that is so after every failed connect, every disconnect with whatever code, every refused connect or subscription |
| `Connection.FreshIsLeftAlone` | haminfo/mqtt/thread.py:206-301 | a subscribed connection in order whose last message is at most 30 seconds old is not reconnected, and its counter of empty checks starts again |
| `Connection.AttemptsAreOpenings` | haminfo/mqtt/thread.py:125-204 | over any history the counted attempts are the clients that checks have opened since the broker last accepted the connection |
| `ReconnectProtocol.OneReconnectAtATime` | haminfo/mqtt/thread.py:161-204 | for any number of threads, at most one is between setting and clearing `reconnecting`, and the flag is up exactly then |
| `ReconnectProtocol.DelayIsExponential` | haminfo/mqtt/thread.py:185-201 | after k reconnects without a successful connect or an unexpected loss the delay, and the one that a sleeping thread sleeps, is min(2^k, 60), so always in 1..60 |
| `ReconnectProtocol.StopIsFinal` | haminfo/mqtt/thread.py:191-201 | once the stop is asked for, the client closed and no thread past its last look at the stop, no interleaving opens a client again |
| `ReconnectProtocol.FlagsConsistent` | haminfo/mqtt/thread.py:325-413 | in every reachable state subscribed implies connected, and outside a reconnect having no client implies neither |
| `BatchLoop.Conservation` | rust-mqtt-ingest/src/main.rs:142-203 | after any run: received = parsed + failed; parsed = inserted + duplicate + rows of failed batches + pending; the batch is shorter than its size; every parsed packet is flushed or pending, in order; a closed channel leaves nothing pending in database mode |
| `BatchCounts.CountersTellTheTruth` | rust-mqtt-ingest/src/main.rs:142-219 | after any run: with a database, inserted is the growth of the table and duplicate the rows of the committed batches less that growth; in stats-only mode, inserted is the number of flushed packets and duplicate 0; in both, batches counts the flushes that did not fail |
| `BatchCounts.TableHoldsFirsts` | rust-mqtt-ingest/src/db.rs:36-106 | after any run with a database the old rows stay, each new row is the first packet of the flushes that did not fail with its sender and timestamp, and each packet of them has such a row |
| `BatchCounts.MessagesAreCounted` | rust-mqtt-ingest/src/main.rs:146-172 | over every timed run received is the messages that came and failed those that did not parse |
| `BatchCounts.NoBatchLeavesEarly` | rust-mqtt-ingest/src/main.rs:188-201 | in any run each batch flushed before the channel closes holds something and is full or a timeout older than the last flush |
| `BatchLoop.TableAfterRun` | rust-mqtt-ingest/src/main.rs:206-219 | with a database the table is the old one plus the committed batches, row by row first-wins |
| `BatchLoop.FlushedWithinTwoTimeouts` | rust-mqtt-ingest/src/main.rs:142-201 | over every timed run no packet waits two batch timeouts before its flush, and none pending is as old as one |
| `BatchLoop.AlmostTwoTimeouts` | rust-mqtt-ingest/src/main.rs:188-201 | that bound is tight: for every timeout and every e up to it there is a timely run in which a packet waits two timeouts less e |
| `BatchLoop.BuildColumns` | rust-mqtt-ingest/src/db.rs:60-76 | the sixteen growing vectors, zipped again, are the packets in order |
| `BatchLoop.Database.InsertBatch` | rust-mqtt-ingest/src/db.rs:36-136 | an empty batch inserts nothing; else whole or not at all, first row of a key first, the result being the growth |
| `BatchLoop.PacketProcessor.Process` | rust-mqtt-ingest/src/main.rs:142-202 | one pass of the loop of the object is the iteration of which the theorems speak |
| `BatchLoop.PacketProcessor.ProcessPackets` | rust-mqtt-ingest/src/main.rs:131-203 | the receive loop of the object ends in the state that the run of its arrivals gives |
| `StationCache.CacheIsMostRecent` | haminfo-dashboard/src/haminfo_dashboard/station_cache.py:74-117 | with an advancing clock and a capacity M of at least 1, after any updates the cache holds the K most recently updated base calls with their latest places, where min(D, max(M - 1000, 0) + 1) <= K <= M |
| `StationCache.HitIsLastLocation` | haminfo-dashboard/src/haminfo_dashboard/station_cache.py:53-72 | a hit is never stale: it is what an unbounded table of last locations holds |
| `StationCache.HitIsLastUpdate` | haminfo-dashboard/src/haminfo_dashboard/station_cache.py:53-72 | and that is country, state and time of the last update that named a country for a callsign of the same base call |
| `Strings.BaseCallOfSsid` | haminfo-dashboard/src/haminfo_dashboard/station_cache.py:63-91 | a callsign with any SSID, in any case, has the base call of the bare one in capitals |
| `StationCache.StationLocationCache.Get` | haminfo-dashboard/src/haminfo_dashboard/station_cache.py:53-72 | hits and misses are counted and the entry of the base call is returned |
| `StationCache.StationLocationCache.Put` | haminfo-dashboard/src/haminfo_dashboard/station_cache.py:74-100 | an update evicts only when full and the call is new, then stores under the base call |
| `StationCache.StationLocationCache.EvictOldest` | haminfo-dashboard/src/haminfo_dashboard/station_cache.py:102-117 | exactly the `count` oldest entries go, the others stay unchanged |
| `LiveFeed.BroadcastsInOrder` | haminfo-dashboard/src/haminfo_dashboard/websocket.py:105-155 | over any run of polls and inserts the broadcasts are in non-decreasing time order and no packet is sent twice |
| `LiveFeed.PassedOverStaysUnsent` | haminfo-dashboard/src/haminfo_dashboard/websocket.py:112-117 | in every run that starts with a poll, a packet in the table that this poll leaves unsent, by its limit of 10 or by its time, is never sent later |
| `LiveFeed.EveryPacketSentOnce` | haminfo-dashboard/src/haminfo_dashboard/websocket.py:105-155 | if each poll has at most 10 newer packets and inserts are newer than the last poll, every packet inserted during a run that ends with a poll has been sent exactly once |
| `LiveFeed.RoutedToLastKnownPlace` | haminfo-dashboard/src/haminfo_dashboard/websocket.py:158-212 | a packet without a country goes to the room of the last place its base call was seen at, whenever the cache knows the station |
| `LiveFeed.RoomsOfLastKnownPlace` | haminfo-dashboard/src/haminfo_dashboard/websocket.py:189-212 | over any updates, a packet without a country of a cached station goes to the country room of x iff x is the country last named for its base call, and to the state room of y iff y is the state last named with it |
| `LiveFeed.RoomsAreRight` | haminfo-dashboard/src/haminfo_dashboard/websocket.py:158-212 | any packet goes to live_feed; to country:x iff its own country is x, or it has none and x is the last known one of its base call, x not empty; to state:y iff y is the state of that place, looked up for an own country US and cached for a packet without one; to no other room, and to none twice |
| `LiveFeed.Feed.BroadcastPacket` | haminfo-dashboard/src/haminfo_dashboard/websocket.py:158-212 | the rooms a packet is emitted to are those, with the cache as it was before, and the update of the cache, in every branch |
| `LiveFeed.Feed.PollPackets` | haminfo-dashboard/src/haminfo_dashboard/websocket.py:105-155 | one poll broadcasts its rows oldest first, all newer than the last time it had, and remembers the newest time |
| `Timestamps.TextOrderIsTimeOrder` | haminfo-dashboard/src/haminfo_dashboard/queries.py:375-377 | comparing ISO texts is comparing times, also where zero microseconds are omitted |
| `Timestamps.IsoFormatInjective` | haminfo/mqtt/processors.py:386-387 | different times print differently |
| `Timestamps.IsoShape` | haminfo/mqtt/processors.py:386-387 | a text has 19 characters or, with microseconds, 26, and its separators where ISO has them |
| `MapQueries.DedupPrefix` | haminfo-dashboard/src/haminfo_dashboard/queries.py:256-271 | de-duplicating a prefix of the rows gives a prefix of the de-duplication |
| `MapQueries.CappedDedupExactIff` | haminfo-dashboard/src/haminfo_dashboard/queries.py:242-291 | de-duplicated capped rows cut to the limit are the newest record of each of the most recent callsigns iff the capped rows hold min(limit, all) callsigns |
| `MapQueries.Deduplicate` | haminfo-dashboard/src/haminfo_dashboard/queries.py:254-291 | the loop with its `seen` set keeps the first row of each callsign |
| `MapQueries.GetMapStationsFast` | haminfo-dashboard/src/haminfo_dashboard/queries.py:1967-2010 | the fast query stops at the limit, and its answer is exact iff the ten-fold fetch held enough callsigns; always if that fetch was not cut |
| `TileCache.GetTilesForBBox` | haminfo-dashboard/src/haminfo_dashboard/queries.py:57-84 | the two loops list all tiles of the box, in order and once |
| `TileCache.TilesCoverBoxOnce` | haminfo-dashboard/src/haminfo_dashboard/queries.py:41-84 | every point of the box lies in exactly one listed tile, its own |
| `TileCache.ColdAnswerExactIff` | haminfo-dashboard/src/haminfo_dashboard/queries.py:353-404 | without cache hits the answer is the de-duplicated capped rows cut to the limit, and that is the newest record of each of the most recent callsigns in the box iff the 20000 rows hold enough callsigns |
| `TileCache.AnswerIsWellFormed` | haminfo-dashboard/src/haminfo_dashboard/queries.py:393-404 | any mix of hits and misses gives distinct callsigns, inside the exact box, newest first, at most `limit` |
| `TileCache.AnswerIsNewest` | haminfo-dashboard/src/haminfo_dashboard/queries.py:337-346 | each answered record is the newest of all merged records of its callsign |
| `TileCache.AnswerIsComplete` | haminfo-dashboard/src/haminfo_dashboard/queries.py:393-404 | a callsign is only left out because its newest merged record is outside the box or older than `limit` answered ones |
| `TileAnswers.OfferedIsCovered` | haminfo-dashboard/src/haminfo_dashboard/queries.py:327-378 | for any mix of hits and misses: every record of a readable entry for the hours, type and tiles asked for is merged, and, if some tile has no such entry, every row of the query, but behind one of its callsign at least as new |
| `TileAnswers.AnswerAccounts` | haminfo-dashboard/src/haminfo_dashboard/queries.py:327-404 | the answer holds only records so offered, inside the box; one offered inside the box is missing only behind an answered record of its callsign at least as new, a limit full of records at least as new, or such a record of its callsign outside the box |
| `TileAnswers.OthersStay` | haminfo-dashboard/src/haminfo_dashboard/queries.py:334-390 | a request writes no entry of other hours, another type or a tile that it did not miss |
| `TileCache.CacheStaysSound` | haminfo-dashboard/src/haminfo_dashboard/queries.py:327-390 | over any run of inserts, expirations, map requests and tile requests every entry holds real packets of its tile and type, one per callsign |
| `TileCache.AnswersAreReal` | haminfo-dashboard/src/haminfo_dashboard/queries.py:327-404 | after any such run an answer holds only stored packets of the asked type inside the box |
| `TileEntries.EntryCompleteIff` | haminfo-dashboard/src/haminfo_dashboard/queries.py:353-390 | the entry that a map request writes for a tile holds all that the tile query would find, and the same stations as its answer, iff for each packet the tile query would find the first of its callsign among the rows of the box lies in the tile and is at least as new |
| `TileEntries.EntryCompleteIffNewest` | haminfo-dashboard/src/haminfo_dashboard/queries.py:353-390 | below the cap of 20000 rows, and if no callsign is in two places at the same time, that holds iff each station the tile query would find has its newest packet in the box in this tile, at least as new |
| `TileEntries.EntryCompleteInside` | haminfo-dashboard/src/haminfo_dashboard/queries.py:353-390 | a tile inside the box, a cap not reached and no callsign in two tiles are enough |
| `TileEntries.OutsideExample` | haminfo-dashboard/src/haminfo_dashboard/queries.py:365-390 | a station in the tile but outside the box leaves the entry empty, and a later request for the place of the station, served from that entry, shows nothing |
| `TileEntries.MovedExample` | haminfo-dashboard/src/haminfo_dashboard/queries.py:365-390 | a station in the tile and the box with a newer packet in another tile of the box leaves the entry empty |
| `MapService.MapService.ReadTiles` | haminfo-dashboard/src/haminfo_dashboard/queries.py:327-351 | the loop over the tiles merges all hits and lists the tiles without a readable entry, in order |
| `MapService.MapService.StoreTiles` | haminfo-dashboard/src/haminfo_dashboard/queries.py:363-390 | each missed tile whose write succeeds gets its bucket of the answer, and no other entry changes |
| `MapService.MapService.GetMapStationsTiled` | haminfo-dashboard/src/haminfo_dashboard/queries.py:294-404 | the whole request: answer and cache are those of which the theorems speak, and the answer accounts for every record offered by the readable entries and, where a tile has none, by the rows |
| `MapService.MapService.GetTileStations` | haminfo-dashboard/src/haminfo_dashboard/queries.py:164-204 | a readable entry is returned as it is, else the tile query is answered and stored |
| `MapService.SortIntoBuckets` | haminfo-dashboard/src/haminfo_dashboard/queries.py:363-382 | each station lands in the bucket of its own tile, if that tile was missed, in row order |
| `SqlScanner.ContainsMultipleStatements` | haminfo/utils/sql_validator.py:167-192 | the loop with its two flags finds text behind a semicolon as its own reading of quotes and backslashes has it; that is the reading of the database for every text without a trap (comment or dollar quote with a quote or semicolon inside, backslash in a standard string or quoted identifier) |
| `SqlScanner.SeparatorsAgree` | haminfo/utils/sql_validator.py:167-192 | in a text without traps a semicolon is outside the quotes of the scanner iff the lexer of PostgreSQL, written from its documentation, reads it as a token |
| `SqlScanner.PlainTextHasNoTraps` | haminfo/utils/sql_validator.py:167-192 | a text without backslash, dollar sign and comment opener has no trap |
| `SqlExamples.QuoteExample` | haminfo/utils/sql_validator.py:167-192 | an accepted query, returned as one statement to the scanner, in which PostgreSQL reads two because its strings know no backslash |
| `SqlExamples.CommentExample` | haminfo/utils/sql_validator.py:167-192 | another one, because a quote in a comment opens no string |
| `SqlComments.StripSqlComments` | haminfo/utils/sql_validator.py:146-164 | the loop ends and returns the text of which the next rows speak |
| `SqlComments.PiecesCover` | haminfo/utils/sql_validator.py:146-164 | the pieces cut off the front and the result are together the text, but for blanks at its end |
| `SqlComments.StripCommentsResult` | haminfo/utils/sql_validator.py:146-164 | the result is a suffix of the text without its trailing blanks, starts with no comment, and stripping it again changes nothing |
| `SqlPieces.RemovesCommentsIff` | haminfo/utils/sql_validator.py:146-164 | every piece removed is read by PostgreSQL as blanks and comments iff no block comment but the last piece is slash, star, slash or has another one opening inside, no line comment has text behind a carriage return, and no removed blank is one for Python only |
| `SqlPieces.ProperMeansAgreement` | haminfo/utils/sql_validator.py:146-164 | then PostgreSQL finds, behind blanks and comments, exactly the text that the stripper returns, or nothing if that is empty |
| `SqlPieces.TameIsProper` | haminfo/utils/sql_validator.py:156-161 | it is enough that the text has no carriage return and no blank of Python only, and that each block comment is closed by a new star before the next one opens |
| `SqlPieces.EarlyCloseExample` | haminfo/utils/sql_validator.py:156-161 | a text that is an open comment, stripped to a SELECT because the star that opens the comment closes it |
| `SqlPieces.NestedExample` | haminfo/utils/sql_validator.py:156-161 | a text that is an open comment, stripped to a SELECT because an inner comment ends |
| `SqlValidator.ValidateQuery` | haminfo/utils/sql_validator.py:59-123 | a query is accepted exactly if none of the six objections holds, a rejection names the first that does, and every accepted query comes back with no semicolon outside the quotes of the scanner but as its last character, none for PostgreSQL either if the text has no trap, no forbidden word, a LIMIT, at most 2011 characters, and no dangerous pattern but a COPY at its end that the default limit completes |
| `SqlValidator.ReturnedIsWellBehaved` | haminfo/utils/sql_validator.py:119-123 | the same of the returned text, no semicolon at all outside the quotes of the scanner where the default limit was added, and exactly when a dangerous pattern appears in it |
| `SqlValidator.LimitedPatternIff` | haminfo/utils/sql_validator.py:119-121 | putting the default limit in the place of final blanks and semicolons makes no dangerous pattern match but COPY, and that one iff the text ends in COPY |
| `SqlWords.AcceptableIff` | haminfo/utils/sql_validator.py:59-123 | a query is accepted iff it is not blank and its normal form has at most 2000 characters, no keyword among its words, no text behind a separator and no part of the form of a dangerous pattern, and it starts with SELECT, in any case, behind blanks and comments |
| `SqlWords.ForbiddenIff` | haminfo/utils/sql_validator.py:87-96 | the search between word boundaries objects to a keyword iff that is one of the longest runs of letters, digits and underscores of the query in capitals |
| `SqlWords.HasPatternIff` | haminfo/utils/sql_validator.py:195-214 | a pattern is found iff the text is something, its head, enough blanks, one of its tails, and something |
| `SqlWords.HasLimitIff` | haminfo/utils/sql_validator.py:119-121 | the default limit is left out iff the five letters of limit, in any case, stand somewhere in the text |
| `SqlValidator.NoNewKeyword` | haminfo/utils/sql_validator.py:119-121 | putting the default limit in the place of final blanks and semicolons makes no keyword a whole word |
| `Strings.NormalizeKeepsText` | haminfo/utils/sql_validator.py:77-78 | normalizing changes blanks only: single spaces between the words, none at the ends |
| `SqlRevalidation.ReturnedStartsSelectIff` | haminfo/utils/sql_validator.py:99-123 | the returned query starts with SELECT after its comments iff the checked one does and no line comment leads it, because the newline that ends the comment is gone |
| `SqlRevalidation.RevalidatesIff` | haminfo/utils/sql_validator.py:59-123 | an accepted query comes back as one that is accepted again iff no line comment leads it and the default limit, if added, makes it neither too long nor completes a final COPY; a second validation changes no more than one blank in front of the limit |
| `SqlExamples.LineCommentExample` | haminfo/utils/sql_validator.py:99-123 | a query that is accepted as a SELECT and whose returned text is all comment, and rejected |
| `SqlExamples.CopyExample` | haminfo/utils/sql_validator.py:119-123 | a query that is accepted and whose returned text has a dangerous pattern, and is rejected |
| `GeoCoord.SplitIsSexagesimal` | haminfo/lat_lon.py:73-93 | the parts add up to the value, degrees and minutes are whole, minutes and seconds below 60 in size and of the sign of the value |
| `GeoCoord.SexagesimalIsUnique` | haminfo/lat_lon.py:73-93 | no other parts do |
| `GeoCoord.UpdateIsIdempotent` | haminfo/lat_lon.py:95-106 | cleaning up twice is cleaning up once, and never moves the coordinate |
| `GeoCoord.RangesAreCongruent` | haminfo/lat_lon.py:268-278 | both ranges stay within their bounds and differ from the value by whole turns |
| `GeoCoord.RangesInvert` | haminfo/lat_lon.py:268-278 | a value already in range is not moved, and either range undoes the other |
| `GeoCoord.HemisphereIsSet` | haminfo/lat_lon.py:230-246 | whatever the fields, setting a hemisphere puts the coordinate on that side, as far from zero as the sizes of its parts say, with consistent fields; a consistent coordinate keeps its distance and is not changed by its own hemisphere |
| `GeoCoord.LettersOfTheAxes` | haminfo/lat_lon.py:221-308 | N and S set a latitude, E and W a longitude, to the positive and the negative side, the letters of the other axis are refused, and the letter printed is that of the side |
| `GeoCoord.Coordinate.constructor` | haminfo/lat_lon.py:259-266 | a new coordinate is consistent; a longitude is first brought into the range from -180 to 180 |
| `GeoCoord.Coordinate.Update` | haminfo/lat_lon.py:95-106 | the object's fields become the consistent ones of its old degree, minute and second |
| `GeoCoord.Coordinate.SetHemisphere` | haminfo/lat_lon.py:289-308 | the fields change as proved above for a letter of the axis, and not at all for any other |
| `GeoFormat.String2GeoCoord` | haminfo/lat_lon.py:314-384 | the consuming loop returns the coordinate that the reading function gives, and fails where it does |
| `GeoFormat.RoundTripIff` | haminfo/lat_lon.py:120-150 | reading what was printed with d% %m% %S% %H gives back the whole coordinate iff its seconds are 0 or at least 0.0001: smaller ones are printed with an exponent whose minus sign is then removed |
| `GeoFormat.ExponentExample` | haminfo/lat_lon.py:147-149 | the coordinate of 0.00005 seconds does not come back |
| `GeoFormat.RotatedRoundTripIff` | haminfo/lat_lon.py:351-366 | the same with the hemisphere in front, which reading moves to the back |
| `GeoSigned.DegreesRoundTrip` | haminfo/lat_lon.py:120-150 | every coordinate printed as D, negative or small, is read back |
| `GeoSigned.DMRoundTripIff` | haminfo/lat_lon.py:135-146 | reading what was printed as d% %M gives the coordinate back iff it is not negative or has no minutes: minutes are printed without a sign, and added to the degrees |
| `GeoSigned.NegativeExample` | haminfo/lat_lon.py:135-146 | -1.5 degrees are printed as -1 30.0 and read as -0.5 |
| `GeoText.FloatRoundTrip` | haminfo/lat_lon.py:145-146 | a plain decimal numeral reads back as the number it prints |
| `GeoText.StrRoundTrip` | haminfo/lat_lon.py:145-146 | every number is read back from its text, negative ones and those with an exponent too |
| `GeoText.LostExponentSign` | haminfo/lat_lon.py:147-149 | a numeral with an exponent whose sign is removed reads as a larger number |
| `Countries.GetCountryFromCallsign` | haminfo-dashboard/src/haminfo_dashboard/utils.py:156-184 | the loop over falling prefix lengths finds the country of the longest listed prefix, and none without a digit |
| `Countries.CountryIsOfLongest` | haminfo-dashboard/src/haminfo_dashboard/utils.py:170-182 | a callsign with one of 0 to 9 belongs to the country of the longest of its first one, two and three capitals that is listed, any other to none |
| `Countries.ByPrefix` | haminfo-dashboard/src/haminfo_dashboard/utils.py:170-184 | that country is the one of the first two capital characters if the base call holds one of 0 to 9, else none |
| `Countries.LookupsAgreeIff` | haminfo-dashboard/src/haminfo_dashboard/queries.py:613-623 | for callsigns in capitals the grouped lookup agrees with it iff the base call holds one of 0 to 9 or the prefix is unknown |
| `Countries.TallyIsGroupedCount` | haminfo-dashboard/src/haminfo_dashboard/queries.py:597-629 | adding up the rows of a grouping counts the calls |
| `Countries.GroupedExceeds` | haminfo-dashboard/src/haminfo_dashboard/queries.py:597-629 | a country's grouped count is its count by callsign plus exactly the digitless callsigns put there |
| `Countries.GroupedCountsExactIff` | haminfo-dashboard/src/haminfo_dashboard/queries.py:597-629 | all countries are counted as by callsign iff the grouped query puts no digitless callsign into a country |
| `Countries.WinlinkExample` | haminfo-dashboard/src/haminfo_dashboard/utils.py:173-176 | with the prefix table of the program, WINLINK is such a callsign |
| `Countries.CountryBreakdown` | haminfo-dashboard/src/haminfo_dashboard/queries.py:610-637 | the answer is the largest counts, each exact, in descending order; no country left out has more; answered, unknown and the packets of the countries cut by the limit add up to all |
| `Countries.TotalIsAll` | haminfo-dashboard/src/haminfo_dashboard/queries.py:601-608 | the rows of a grouping count every packet once |

## Left out

- paho, rumqttc, SQLAlchemy, sqlx, PostGIS and memcached: they appear through what the code relies on, atomic transactions, first-wins conflicts, a cache that may forget, callbacks as events.
- The conversion of a broker message to a row (`_convert_packet_to_dict`, `_prepare_insert_dict`, `AprsPacket::from_json`): whether a packet converts, and to which columns, is an argument.
- Errors of the database for single rows (a text too long for its column, a bad number): they are one of the ways a transaction fails.
- The types of the staging columns: texts of numbers and of places are taken to mean to the database what their values mean.
- INSERT ... SELECT reads the staging table in the order of the copied lines; PostgreSQL does not promise that order for rows with equal keys.
- Timestamps with a time zone or with a year of more than four digits.
- The last save of a stopping thread and the clearing of its batch are one step, as is each callback of the MQTT client.
- Weather in the step relation saves at any moment, more often than the code does; the object `Weather` saves when the code does.
- The order in which Python's dictionaries yield callsigns of equal age to the eviction, and types to the merge: any order is allowed.
- The Rust loop in database mode without a database, which its command never starts, and rows of the feed without a received_at.
- Printing of statistics, log texts, the startup page, Flask routes, Socket.IO transport, configuration and the command line.
- Warm-up and statistics of the station cache, and the expiry times of cache entries: an entry may vanish at any step.
- The sharing of one station cache by several feeds; the thread locks are modelled by steps that are not interrupted.
- Letters and digits outside ASCII: upper-casing, word characters and digits are those of ASCII; blanks are all of Python's.
- SqlScanner.SeparatorsAgree: one direction; a text with a trap can still be read alike, for example with two quotes in one comment.
- PostgreSQL with standard_conforming_strings off, and the continuation of an escape string behind a line break: `SqlLexer` reads single strings with the default setting, and the texts that the validator scans have no line breaks.
- Rounding of floating-point numbers: coordinates, times and delays are reals.
- Numerals that float() accepts and str() never prints, and round trips of formats other than d% %m% %S% %H, H% %d% %m% %S, D and d% %M: `GeoFormat` models how any format is printed and read.
- The great-circle and projection code of haminfo/lat_lon.py, and printing of a latitude and longitude as a pair.
- The raw-table country query and the other dashboard statistics: they group and add up in the same way.
- `validate_table_name`: a lookup in a constant list.
- RepeaterBook, Natural Earth, geocoding, migrations and the deprecated command haminfo/cmds/mqtt_injest.py.
