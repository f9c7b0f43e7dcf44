# The alert receiver, modelled and proved in Dafny

The program listens to two alert servers, cuts their byte streams into XML alerts,
drops repeated alerts, decides whether an alert's polygon covers the station, decodes
or downloads or synthesises the audio, plays it through a queue that also drives the
broadcast relay, and logs, encodes and archives what it did. This project models the
parts of that chain whose correctness is not visible from reading one function, and
proves what they guarantee over all inputs and all runs.

    dafny verify dfyconfig.toml

| file | what it is about |
|---|---|
| `Geofence.dfy`, `GeofenceTheorems.dfy` | the point-in-polygon test: even-odd rule over a fan of triangles, exactly up to the edges that the ray cast miscounts |
| `WorkerQueue.dfy`, `WorkerQueueTheorems.dfy`, `WorkerQueueObject.dfy` | one mutex, one condition variable, one worker, any number of pushers and a destructor, as interleaved steps; one proof for the playback, encoder, archive and download queues |
| `LogFormat.dfy`, `MsLogger.dfy` | what a log entry is and how it is read back; the buffered rotating log as an append-only log |
| `AlertFraming.dfy`, `AlertFramingTheorems.dfy`, `AlertFramingExact.dfy` | cutting chunked streams into messages, and exactly which cuts do no harm |
| `AlertHistory.dfy` | duplicate suppression across two servers |
| `Base64.dfy`, `Base64Theorems.dfy` | the Base64 decoder against section 4 of RFC 4648 |
| `ArchiveMove.dfy` | moving files into a fresh directory |
| `SpeechText.dfy` | preparing a text for the speech synthesiser |
| `DailyWorker.dfy` | one task a day at a scheduled time |
| `Common.dfy`, `Decimal.dfy` | what several modules share; decimal numerals, for the names that the logger and the archive queue make up |

Code that changes state in place is a class or a loop here as well, and each of its
methods is proved equal to a function on values (`Exec`, `Receive`, `Admit`,
`MoveAll`, `Behave`, ...); the theorems are about those functions.

## What the proofs show about the code

Where a natural reading of the code is false, the project states exactly when it is true.

- `is_inside` is the even-odd rule except for one flip per *miscounted* edge: an edge so
  flat that the parallel test drops it, one that crosses beyond the far end of the ray, or
  one with an end on the ray and the other end below it (`InsideExactly`, `EvenOddIff`).
  `LevelVertexMissed` is a covered station that is reported as not covered,
  `LevelVertexFalseAlarm` the converse.
- A callback can still be entered after `quit_` is stored: exactly when its item had been
  taken before (`LateStartsExactly`, `LateStartHappens`). Nothing is taken afterwards.
- A queue with a waiting item can have an empty history, which is what the daily worker's
  waiter reads: exactly while the worker has not come for the item yet, or when it has left
  the loop without taking any item of the open session (`MistakenExactly`,
  `HistoryMissesQueuedItem`). An empty history does mean that no callback is under way.
- After a completed message the buffer is trimmed, so a chunk that ends in a blank inside
  the next message damages that message, which is never handed on as it was sent. Within
  the documented limit of one message per append this is the only way in which chunk
  boundaries matter: the messages handed on are the messages sent, in order and at once, if
  and only if there is no such chunk (`FramingIff`, `NotAsSent`, `BlankCutLosesMessage`).
- A quad with a character outside the alphabet is skipped as a whole, so that line breaks in
  the text cost the quads they fall in (`WritesIff`, `KeptDecodes`).
- The decoder is an exact inverse of the encoder if and only if there is no padding
  (`ExactInverseIff`); otherwise one zero byte is appended per padding character. The other
  way round, exactly the unpadded texts come back (`EncodeOfDecodeIff`).
- `MoveFiles` can lose a file if and only if two different existing files on the list share
  a base name (`ConservesIff`, `LosingCall`).
- A larger log buffer abandons what was pending (`MsLogger.SetBufferSize`). The log can be
  read back entry by entry if and only if no message has a line break in it (`ReadBackIff`).
- `GetNextExecutionTimePoint` yields the least scheduled instant after now if and only if
  the time of day is at most 24:00:00 (`NextIsLeastIff`).
- `DoTask` can run before the instant it was planned for if and only if the waiter is once
  found busy more than 30 seconds before that instant, which takes a change of the schedule
  that wakes the worker (`OnTimeIff`, `HurryRunsEarly`); `EarlyRunFromStart` is such a run
  from the start of the program.
- A change of the schedule is missed by the next wait if and only if it arrives between a
  planning and the next clearing of the flag (`HeededIff`). A change made inside `DoTask`,
  as the program makes it, does, and takes effect one run late
  (`SetFromTaskTakesEffectLate`).
- The destructor of the daily worker does not end the wait: it waits for the deadline, and
  `DoTask` may run once more (`QuitWaitsForDeadline`).

## Model

| member | source | states |
|---|---|---|
| Geofence.GeoUtil.IsInside | libs/geoutil/geoutil.cpp:50-70 | The loop with its early return and its 32-bit counter yields true exactly when the station is near some edge (`IsNear`, in numbers) or the ray hits an odd number of edges; an empty outline throws, because `size()-1` is unsigned. |
| Geofence.GeoUtil.SetAlertArea | libs/geoutil/geoutil.cpp:72-88 | The old outline is dropped and the new points are stored in order; the outline is not closed. |
| Geofence.WrapParity | libs/geoutil/geoutil.cpp:54 | The 32-bit counter may wrap without changing the answer. |
| Geofence.OnlineIff | libs/geoutil/geoutil.cpp:3-18 | The tolerance test means: in the edge's bounding box, and twice the area of the triangle with the edge below 0.16. |
| Geofence.NearIff | libs/geoutil/geoutil.cpp:62 | Some edge of the outline passes the test exactly when the station is near one in that sense. |
| GeofenceTheorems.NearByDistance | libs/geoutil/geoutil.cpp:10-11 | For a proper edge this is: in its box, and closer to its line than 0.16 over its length. |
| GeofenceTheorems.FootIsNearest | libs/geoutil/geoutil.cpp:10 | The distance meant is that to the nearest point of the line. |
| GeofenceTheorems.HitsExactly | libs/geoutil/geoutil.cpp:20-48 | On the station's ray `are_intersecting` is the textbook crossing rule, except exactly on the miscounted edges, wherever the edge lies. |
| GeofenceTheorems.HitsUnfolded | libs/geoutil/geoutil.cpp:29-45 | Its three tests on the station's ray, as areas: sides of the level, sides of the edge, not nearly parallel. |
| GeofenceTheorems.IntersectingSymmetric | libs/geoutil/geoutil.cpp:20-48 | Swapping the ends of the tested edge never changes the answer, for any two segments. |
| GeofenceTheorems.OnlineSymmetric | libs/geoutil/geoutil.cpp:3-18 | The same for the tolerance test. |
| GeofenceTheorems.TriangleParity | libs/geoutil/geoutil.cpp:50-70 | The crossing parity of a triangle tells whether it strictly contains the station, for a station on none of its sides. |
| GeofenceTheorems.FanParity | libs/geoutil/geoutil.cpp:50-70 | Over a chain of vertices every spoke of a fan, from any apex, is crossed twice and cancels mod 2. |
| GeofenceTheorems.InsideExactly | libs/geoutil/geoutil.cpp:50-70 | For every closed outline: near an edge, or the even-odd rule over the triangles of a fan (v, vi, vi+1), flipped once per miscounted edge; v is the first vertex or any other point with no spoke through the station. |
| GeofenceTheorems.ApexExists | libs/geoutil/geoutil.cpp:50-70 | For every outline and every station that is not a vertex there is such a point. |
| GeofenceTheorems.EvenOddDefined | libs/geoutil/geoutil.cpp:50-70 | So the even-odd rule is defined for every closed outline and every station near no edge, and all fans agree on it. |
| GeofenceTheorems.EvenOddIff | libs/geoutil/geoutil.cpp:50-70 | Away from the edges the verdict is the even-odd rule if and only if the ray meets an even number of miscounted edges. |
| GeofenceTheorems.GeneralPositionCountsRight | libs/geoutil/geoutil.cpp:45 | With no vertex level with the station, no nearly flat straddling edge and everything left of the far end of the ray, no edge is miscounted. |
| GeofenceTheorems.InsideInGeneralPosition | libs/geoutil/geoutil.cpp:50-70 | In general position the verdict is true exactly near an edge or inside an odd number of fan triangles. |
| GeofenceTheorems.OutsideBox | libs/geoutil/geoutil.cpp:50-70 | A station strictly above, below or right of every vertex is never covered, with no position hypothesis. |
| GeofenceTheorems.LevelParity | libs/geoutil/geoutil.cpp:50-70 | A chain of vertices changes sides of a level an odd number of times exactly when it ends on the other side. |
| GeofenceTheorems.LeftOfBoxExactly | libs/geoutil/geoutil.cpp:50-70 | Left of the box, a station is covered exactly when an odd number of edges are miscounted. |
| GeofenceTheorems.LeftOfBoxInGeneralPosition | libs/geoutil/geoutil.cpp:50-70 | Left of the box, in general position, it is never covered. |
| GeofenceTheorems.RotationInvariant | libs/geoutil/geoutil.cpp:50-70 | The verdict does not depend on the vertex at which a closed outline starts. |
| GeofenceTheorems.ReversalInvariant | libs/geoutil/geoutil.cpp:50-70 | Nor on the direction in which any outline is listed. |
| GeofenceTheorems.LevelVertexMissed | libs/geoutil/geoutil.cpp:39-43 | A vertex level with the station: a station inside a triangle and near no edge is not covered. |
| GeofenceTheorems.LevelVertexFalseAlarm | libs/geoutil/geoutil.cpp:39-43 | A vertex level with the station: a station left of the bounding box is covered. |
| WorkerQueueTheorems.RunInv | libs/playbackqueue/playbackqueue.cpp:3-49 | Every interleaving of worker, pushers, destructor and spurious wake-ups keeps the invariant (lock ownership, flags, wake-ups, traces, session, quit), for every queue configuration. |
| WorkerQueueTheorems.Conservation | libs/playbackqueue/playbackqueue.cpp:12-37 | At all times pushed = finished ++ in the worker's hands ++ queued; callbacks are entered in push order, one at a time. |
| WorkerQueueTheorems.NoLostWakeup | libs/playbackqueue/playbackqueue.cpp:9-11 | With the lock free, a worker asleep and not notified has an empty queue and no quit. |
| WorkerQueueTheorems.NoDeadlock | libs/playbackqueue/playbackqueue.cpp:5-49 | Whoever holds the lock can go on; with the lock free a worker with work or told to quit can move, and the join ends once it has exited. |
| WorkerQueueTheorems.SessionOpenIffWork | libs/playbackqueue/playbackqueue.cpp:22-36 | With the lock free, the session (the broadcast relay) is open exactly when the queue is non-empty or busy. |
| WorkerQueueTheorems.CallbacksAlternate | libs/playbackqueue/playbackqueue.cpp:22-36 | PlayFirst and OnFinish strictly alternate in every run, starting with PlayFirst. |
| WorkerQueueTheorems.OnFinishSeesItsSession | libs/playbackqueue/playbackqueue.cpp:17-26 | Each OnFinish sees a history equal to the files pushed since its own PlayFirst, in push order. |
| WorkerQueueTheorems.HistoriesPartitionPushes | libs/downloadqueue/downloadqueue.cpp:32-43 | In all four queues the successive histories partition what was pushed, in order; once the queue is idle none is missing from those dropped, nor from those reported by OnFinish. |
| WorkerQueueTheorems.AfterQuit | libs/playbackqueue/playbackqueue.cpp:12-49 | Once quit is stored nothing is taken, and at most one callback is still entered. |
| WorkerQueueTheorems.LateStartsExactly | libs/playbackqueue/playbackqueue.cpp:12-19 | From any reachable state with quit set, a callback is entered later exactly if its item had been taken and not yet started. |
| WorkerQueueTheorems.ShutdownBound | libs/playbackqueue/playbackqueue.cpp:7-29 | From any reachable state with quit set, however the threads interleave, the worker exits within seven of its own steps. |
| WorkerQueueTheorems.Bounded | libs/playbackqueue/playbackqueue.cpp:3-49 | However the threads interleave, each step of the worker, of any thread inside Push and of the destructor lowers a load that only calls and spurious wake-ups raise, by at most a constant: so every schedule is bounded by its calls and spurious wake-ups. |
| WorkerQueueTheorems.StuckIffSettled | libs/playbackqueue/playbackqueue.cpp:3-49 | The threads come to rest exactly when every pushed item has finished and the worker sleeps with an empty queue and history, or the worker has been joined. |
| WorkerQueueTheorems.Finishes | libs/playbackqueue/playbackqueue.cpp:3-49 | From every reachable state, with threads anywhere inside Push or the destructor, the threads get there without a further call. |
| WorkerQueueTheorems.CallbacksOfEachQueue | libs/downloadqueue/downloadqueue.cpp:21-68 | No PlayFirst ever happens in EncQueue, ArchiveQueue and DWQueue, and no OnFinish in DWQueue. |
| WorkerQueueTheorems.ReportsOfEachQueue | libs/encoderQueue/encoderQueue.cpp:22-26 | At rest, PBQueue, EncQueue and ArchiveQueue have reported to OnFinish everything that was pushed, in order and once; DWQueue nothing. |
| WorkerQueueTheorems.MistakenExactly | main.mm:199-226 | With the lock free, the history is what has been taken since it was last dropped; it is empty although the queue is not idle exactly when items wait and the worker has not come for them yet, or has left the loop without taking any of the open session. |
| WorkerQueueTheorems.HistoryTellsIdleIff | main.mm:208-222 | An empty history means a closed session exactly when no item waits or one of the open session has been taken. |
| WorkerQueueObject.QueueObject.Push | libs/playbackqueue/playbackqueue.cpp:32-39 | A call of Push, updating the fields in place, is one pusher's steps of the machine without interruption. |
| WorkerQueueObject.QueueObject.Handle | libs/playbackqueue/playbackqueue.cpp:9-18 | The worker's critical section up to the point where it sleeps, leaves with an item, or ends the loop. |
| WorkerQueueObject.QueueObject.Return | libs/encoderQueue/encoderQueue.cpp:20-28 | The worker's critical section after the callback: busy cleared, OnFinish and the history cleared when the queue is empty. |
| WorkerQueueObject.QueueObject.Close | libs/archiveQueue/archiveQueue.cpp:40-47 | The destructor up to the join. |
| WorkerQueueObject.PushRuns | libs/downloadqueue/downloadqueue.cpp:53-68 | The machine's five pusher steps add the item, notify a sleeping worker and announce exactly an idle queue that has PlayFirst. |
| WorkerQueueObject.HistoryMissesQueuedItem | main.mm:199-226 | A reachable state with the lock free, an empty history and a queued item: the waiter's test would call this queue idle. |
| WorkerQueueObject.LateStartHappens | libs/playbackqueue/playbackqueue.cpp:18-19 | A run in which a callback is entered after quit is stored, for every queue configuration. |
| WorkerQueueObject.EmptyHistoryMeansNotBusy | main.mm:208-222 | With the lock free an empty history means no callback is under way, and a non-empty one means busy or queued. |
| MsLogger.Life | libs/mslogger/mslogger.hpp:158-232 | From construction to destruction, for every buffer size of at least 1 and messages of any length, the files in order hold exactly the formatted entries, every file but the last has outgrown 1048576 bytes, none by more than one buffer, and a reader of the files recovers every entry if and only if no message has a line break. |
| MsLogger.MsLogger.LogToFile | libs/mslogger/mslogger.hpp:188-194 | What is in the files followed by what is pending grows by exactly the formatted entry, which for a reader of the log is one line more, with the label, the time and the message. |
| LogFormat.ReadBackIff | libs/mslogger/mslogger.hpp:192 | The formatted entries read back line by line - label, 22 characters of time, message - give the entries in order, if and only if no message has a line break; every entry ends its line. |
| LogFormat.EntryRead | libs/mslogger/utilities.h:12-35 | An entry without a line break is one line, from which it is recovered. |
| LogFormat.LinesOfAll | libs/mslogger/mslogger.hpp:192 | In general a log has one line per entry and one more per line break in a message. |
| MsLogger.MsLogger.XSPutN | libs/mslogger/mslogger.hpp:197-212 | Fast path and slow path both append exactly the given bytes to the log. |
| MsLogger.MsLogger.Overflow | libs/mslogger/mslogger.hpp:214-223 | Flushes and appends the one character, or nothing at end-of-file. |
| MsLogger.MsLogger.Sync | libs/mslogger/mslogger.hpp:225-232 | Everything pending moves to the files, in order, and nothing else changes. |
| MsLogger.MsLogger.WriteToFile | libs/mslogger/mslogger.hpp:234-270 | The files together grow by exactly the put area, in a new file exactly when the youngest one has outgrown the limit. |
| MsLogger.MsLogger.OpenForWriting | libs/mslogger/mslogger.hpp:239-267 | The stream is open on `filepath_`, the youngest file, which is at most 1 MiB; no byte is lost by rotating, and exactly one new file is begun when the youngest has outgrown the limit, so that the second size test never rotates. |
| MsLogger.MsLogger.FindFile | libs/mslogger/mslogger.hpp:239-247 | The search loop ends, on the open file with room or on the first unused index after files that have all outgrown the limit. |
| MsLogger.MsLogger.RotateIfOversize | libs/mslogger/mslogger.hpp:260-267 | Does nothing on a file of at most 1 MiB, and otherwise moves to the next index. |
| MsLogger.MsLogger.SetBufferSize | libs/mslogger/mslogger.hpp:114-127 | A smaller size is ignored; a larger or equal one keeps the log if and only if nothing was pending. |
| MsLogger.MsLogger.Destroy | libs/mslogger/mslogger.hpp:167-178 | After the destructor the files hold everything. |
| MsLogger.PathInjective | libs/mslogger/mslogger.hpp:129-156 | Equal paths come from equal dates and indices, in spite of the leading zero below ten. |
| MsLogger.PathReads | libs/mslogger/mslogger.hpp:129-156 | A path is directory, slash, date, underscore, the index as a numeral of at least two digits, and the level's extension. |
| MsLogger.PathsDiffer | libs/mslogger/mslogger.hpp:129-156 | No two files of the log directory have the same path. |
| MsLogger.RoomForNext | libs/mslogger/mslogger.hpp:27 | While less than 65535 full files have been written the 16-bit file index does not wrap. |
| MsLogger.IndexWraps | libs/mslogger/mslogger.hpp:27 | The file index returns to 0 after 65535, and only then. |
| AlertFraming.FirstMatchSpec | libs/xmlhandler/xmlhandler.hpp:23 | The pattern's match is the leftmost stretch from `<?xml` and a white-space character to `</alert>`, the shortest from there; none means that no stretch is of this kind. |
| AlertFramingTheorems.MessageIff | libs/xmlhandler/xmlhandler.hpp:23 | The messages of the framing theorems are exactly the texts `<?xml`, a white-space character, any text, `</alert>`, where no earlier `</alert>` is complete. |
| AlertFramingTheorems.CutMessage | libs/xmlhandler/xmlhandler.cpp:19-22 | A message is cut out of any text before it without a `<` and any text after it, and what is left is trimmed. |
| AlertFramingTheorems.TrimSpec | libs/xmlhandler/xmlhandler.cpp:22 | Trimming takes white space from both ends, and all of it. |
| Common.SpacesByCode | libs/xmlhandler/xmlhandler.hpp:23 | White space is the six characters 9 to 13 and 32, here, for trimming, and for the speech text. |
| AlertFraming.XmlHandler.FindMatch | libs/xmlhandler/xmlhandler.cpp:10-27 | Within the limit of one match, the loop queues the match, erases it and trims what is left. |
| AlertFraming.XmlHandler.ProcessMatches | libs/xmlhandler/xmlhandler.cpp:29-33 | At most one match leaves the queue per call, the oldest. |
| AlertFraming.XmlHandler.Append | libs/xmlhandler/xmlhandler.cpp:3-8 | One append as a function on buffers, queue and deliveries; the other hosts' buffers do not change. |
| AlertFramingTheorems.Framing | libs/xmlhandler/xmlhandler.cpp:3-33 | For any interleaving of servers and any fair chunking, each server's messages are handed on as sent, in order, as soon as they are complete; the queue is empty between calls and every call stays within the limit. |
| AlertFramingTheorems.WholeFeed | libs/xmlhandler/xmlhandler.cpp:3-33 | Once all of a server's text has arrived, all of its messages have been handed on. |
| AlertFramingTheorems.ChunkingDoesNotMatter | libs/xmlhandler/xmlhandler.cpp:3-33 | Two runs in which the same text has arrived from a server have handed on the same messages of it. |
| AlertFramingTheorems.CompletingAppend | libs/xmlhandler/xmlhandler.cpp:10-27 | An append that completes one message queues exactly it and keeps what has arrived of the next. |
| AlertFramingTheorems.QuietAppend | libs/xmlhandler/xmlhandler.cpp:10-27 | An append that completes nothing queues nothing and keeps what is pending. |
| AlertFramingTheorems.KeepsNextIff | libs/xmlhandler/xmlhandler.cpp:22 | The trim leaves the received part of the next message intact if and only if the cut is not after a blank inside it. |
| AlertFramingTheorems.TrimKeepsPartIff | libs/xmlhandler/xmlhandler.cpp:22 | The same for the trim alone: white space before a part goes, the part stays if and only if it does not end in white space. |
| AlertFramingTheorems.BlankCutLosesMessage | libs/xmlhandler/xmlhandler.cpp:10-27 | Two whole messages arrive in two chunks cut after a blank, and only the first is handed on. |
| AlertFramingExact.FramingIff | libs/xmlhandler/xmlhandler.cpp:3-33 | For feeds that arrive whole from any number of servers, at most one message completed per chunk: every message is handed on as sent, in order, as soon as it is complete, and nothing else is, if and only if no completing chunk ends after a blank inside the next message. |
| AlertFramingExact.NotAsSent | libs/xmlhandler/xmlhandler.cpp:22 | A message whose received part was shortened by the trim is not matched as it was sent when it is complete, however it is cut further. |
| AlertFramingExact.DamagedDoesNotMatch | libs/xmlhandler/xmlhandler.hpp:23 | A message with fewer characters up to one of its blanks is not matched as it was sent, whatever follows. |
| AlertFramingExact.NeverCompleted | libs/xmlhandler/xmlhandler.cpp:3-33 | In a run in which everything is handed on as sent, a damaged message is never completed. |
| AlertHistory.AlertLog.CheckUpdateHistory | libs/xmlhandler/xmlhandler.hpp:80-89 | The scan from the newest entry says whether the history has a basically same alert, and appends the alert only if not. |
| AlertHistory.SameIsSymmetric | libs/xmlhandler/xmlhandler.hpp:40-47 | The relation is symmetric and reflexive. |
| AlertHistory.TwoAlerts | libs/xmlhandler/xmlhandler.hpp:40-47 | Of two alerts in one language the second is dropped exactly for the same identifier, or the same event at most 900 seconds before or after. |
| AlertHistory.LanguagesApart | libs/xmlhandler/xmlhandler.hpp:41 | Languages do not interfere: what is admitted in one language is what would be admitted if only that language were sent. |
| AlertHistory.SameIsNotTransitive | libs/xmlhandler/xmlhandler.hpp:40-47 | It is not transitive. |
| AlertHistory.RunIndependent | libs/xmlhandler/xmlhandler.hpp:80-89 | Over any interleaving from the servers no two admitted alerts are basically the same. |
| AlertHistory.AllAdmittedIff | libs/xmlhandler/xmlhandler.hpp:80-89 | All alerts are let through if and only if no two of them are basically the same. |
| AlertHistory.RunMaximal | libs/xmlhandler/xmlhandler.hpp:80-89 | Every submitted alert is basically the same as one admitted by then, so that the admitted set is maximal. |
| AlertHistory.RunFromItems | libs/xmlhandler/xmlhandler.hpp:87 | Only submitted alerts are admitted. |
| AlertHistory.RunGrows | libs/xmlhandler/xmlhandler.hpp:80-89 | An admitted alert stays, in its place. |
| AlertHistory.AdmittedApart | libs/xmlhandler/xmlhandler.hpp:40-47 | Within a language an identifier is admitted once, and alerts for one event only more than 900 s apart. |
| AlertHistory.RateBound | libs/xmlhandler/xmlhandler.hpp:40-47 | Any stretch of w whole seconds admits at most w/901 + 1 alerts for one event in one language. |
| AlertHistory.OrderMatters | libs/xmlhandler/xmlhandler.hpp:80-89 | The same three alerts admit two or one, depending on the order in which they arrive. |
| Base64.DecodeAndWrite | libs/decodeutil/decodeutil.cpp:3-55 | No file exactly when the length is no multiple of four; otherwise the file has three bytes a quad and starts with the decoding of the text without its bad quads, three bytes for each good one, and is just that when no quad is bad. |
| Base64.WritesIff | libs/decodeutil/decodeutil.cpp:28-31 | A quad writes three bytes exactly when its first two characters are in the standard's alphabet and its last two are in it or are `=`; otherwise none. |
| Base64.KeptDecodes | libs/decodeutil/decodeutil.cpp:28-31 | A text decodes as the text with exactly its bad quads left out. |
| Base64Theorems.QuadOfOdd | libs/decodeutil/decodeutil.cpp:38-46 | Padding followed by a character, which the standard does not have, writes a zero byte and then the character's value with the two upper bits set. |
| Base64.DecodeQuad | libs/decodeutil/decodeutil.cpp:23-48 | One round of the loop appends what the quad decodes to and stays within the buffer. |
| Base64.WriteQuad | libs/decodeutil/decodeutil.cpp:33-46 | The three writes of an accepted quad, padding as zero bytes. |
| Base64.JoinedSize | libs/decodeutil/decodeutil.cpp:8 | The output fits outputSize, and fills it exactly when no quad is skipped. |
| Base64.TablesByRange | libs/decodeutil/decodeutil.hpp:9-33 | Both tables, row by row, are the ranges of the standard alphabet. |
| Base64.TablesInverse | libs/decodeutil/decodeutil.hpp:9-33 | The two tables undo each other, and only the padding character reads as -1. |
| Base64Theorems.DecodeOfEncode | libs/decodeutil/decodeutil.cpp:14-49 | Decoding the encoding (section 4 of RFC 4648) of any bytes gives them back, followed by one zero byte per padding character; no quad is skipped. |
| Base64Theorems.ExactInverseIff | libs/decodeutil/decodeutil.cpp:34-46 | The decoder is a true inverse if and only if the encoding has no padding. |
| Base64Theorems.EncodeOfDecodeIff | libs/decodeutil/decodeutil.cpp:14-49 | Encoding what a text decodes to gives that text back if and only if it is an unpadded valid text. |
| Base64Theorems.EncodeOfDecode | libs/decodeutil/decodeutil.cpp:14-49 | And then no quad of it is skipped. |
| Base64Theorems.DecodeInjective | libs/decodeutil/decodeutil.cpp:14-49 | No two unpadded valid texts decode to the same bytes. |
| Base64Theorems.WriteEncoded | libs/decodeutil/decodeutil.cpp:51-53 | The file written for an encoding holds the bytes, then the zeros. |
| ArchiveMove.ArchiveQueue.MoveFiles | libs/archiveQueue/archiveQueue.cpp:52-100 | Picks the first unused name; returns true exactly when a rename went through; returning false leaves the disk as it was; unless two different existing files on the list share a base name, every file is conserved whichever renames fail. |
| ArchiveMove.ArchiveQueue.FreshName | libs/archiveQueue/archiveQueue.cpp:55-59 | The search over dir, dir_1, dir_2, ... ends, on the least unused name. |
| ArchiveMove.ArchiveQueue.MoveInto | libs/archiveQueue/archiveQueue.cpp:78-95 | The loop performs exactly the permitted renames and reports whether there was one. |
| ArchiveMove.CandidateInjective | libs/archiveQueue/archiveQueue.cpp:58 | No two candidate names are equal, which is why the search ends. |
| ArchiveMove.CandidateReads | libs/archiveQueue/archiveQueue.cpp:55-58 | The first candidate is the name itself, the others the name, an underscore and the suffix in decimal. |
| ArchiveMove.BaseNameReads | libs/archiveQueue/archiveQueue.cpp:81 | A base name is what follows the last slash of the path, or all of it. |
| ArchiveMove.HoldsMovedNames | libs/archiveQueue/archiveQueue.cpp:79-85 | Afterwards the directory holds exactly the base names of the moved files. |
| ArchiveMove.MoveConserves | libs/archiveQueue/archiveQueue.cpp:79-95 | With no name moved twice every entry is found exactly once afterwards, with its content, in its old place or under its base name in the directory, and nothing else is. |
| ArchiveMove.EntriesRemain | libs/archiveQueue/archiveQueue.cpp:79-85 | In general one entry is lost for each move onto a name that was moved before. |
| ArchiveMove.SurvivesIff | libs/archiveQueue/archiveQueue.cpp:79-85 | For given failures, no entry is lost if and only if no name was moved twice. |
| ArchiveMove.ConservesIff | libs/archiveQueue/archiveQueue.cpp:78-95 | Whichever renames fail, every entry is found exactly once with its content, if and only if no two different existing files on the list share a base name; missing paths, directories and repeated paths do no harm. |
| ArchiveMove.LosingCall | libs/archiveQueue/archiveQueue.cpp:78-95 | Two files of one name from different directories: one remains. |
| ArchiveMove.FreshDirectoryIsEmpty | libs/archiveQueue/archiveQueue.cpp:96-97 | Removing the untouched fresh directory restores the disk. |
| SpeechText.Prepared | helpers.mm:169-175 | The result has no hash and no two adjacent blanks; its words are those of the text with each maximal run of n hashes read as n mod 3 words. |
| SpeechText.HashesByRuns | helpers.mm:171-172 | The two hash replacements together are that reading of runs, and spell as many words as the run lengths mod 3 add up to. |
| SpeechText.UnchangedIff | helpers.mm:169-175 | Exactly the texts without a hash and without adjacent blanks are left alone. |
| SpeechText.PreparingTwiceIsOnce | helpers.mm:169-175 | The function is idempotent. |
| SpeechText.VisibleConserved | helpers.mm:169-175 | Every visible character is kept, except that all hashes go and six letters come for each spoken one. |
| SpeechText.CollapseKeepsWords | helpers.mm:173 | The blank replacement changes only the gaps: the words and their order stay. |
| SpeechText.CollapseCutIff | helpers.mm:173 | It can be applied piece by piece exactly when the text is not cut inside a gap. |
| SpeechText.GapCollapses | helpers.mm:165-173 | A gap of one white-space character stays, a longer one becomes one space, and what is around it is treated on its own. |
| SpeechText.CollapsedHasNoDouble | helpers.mm:165-173 | It leaves no two adjacent blanks, whatever the text. |
| DailyWorker.DailyWorker.Handler | libs/dailyworker/dailyworker.hpp:52-80 | The loop, updating schedule, flags and deadline in place, behaves as the pass-by-pass specification for any sequence of passes. |
| DailyWorker.DailyWorker.GetNextExecutionTimePoint | libs/dailyworker/dailyworker.hpp:82-106 | The result is a whole second after now and within 24 hours at which the local clock shows the scheduled hour, minute and second. |
| DailyWorker.NextInstantShows | libs/dailyworker/dailyworker.hpp:92-99 | The local clock shows the scheduled hour, minute and second at the next instant exactly when these are below 24, 60 and 60. |
| DailyWorker.NextInstantOnly | libs/dailyworker/dailyworker.hpp:92-99 | And there is no other such instant within the 24 hours. |
| DailyWorker.DailyWorker.SetScheduleTime | libs/dailyworker/dailyworker.hpp:108-116 | Stores the schedule and raises the flag. |
| DailyWorker.NextIsLeast | libs/dailyworker/dailyworker.hpp:82-106 | The next instant is the least scheduled instant after now. |
| DailyWorker.NextIsLeastIff | libs/dailyworker/dailyworker.hpp:92-99 | It is so at every clock reading if and only if the time of day is at most 24:00:00. |
| DailyWorker.AtMostOncePerInstant | libs/dailyworker/dailyworker.hpp:52-80 | With the schedule unchanged and any number of postponements a scheduled instant passes before every run since the previous one, and the i-th run comes after i + 1 scheduled instants. |
| DailyWorker.SetFromTaskTakesEffectLate | main.mm:239-245 | A schedule set from inside DoTask applies from the third run on: the first two runs are planned by the old one. |
| DailyWorker.EachDayServedIff | libs/dailyworker/dailyworker.hpp:52-80 | From the start, with the schedule unchanged: every day is served by its own run if and only if no run is a day late. |
| DailyWorker.GoodBehaviour | libs/dailyworker/dailyworker.hpp:52-80 | With schedule changes at any moment, an unpostponed deadline is the planned instant, and no plan is older than the run before it. |
| DailyWorker.OnTimeMeans | libs/dailyworker/dailyworker.hpp:92-99 | A run is not before its planned instant exactly if an instant of its schedule has passed since it was planned. |
| DailyWorker.InstantBetweenRuns | libs/dailyworker/dailyworker.hpp:52-80 | With schedule changes at any moment, before every run that is on time an instant of its schedule has passed since the previous run. |
| DailyWorker.SafeAfterIff | libs/dailyworker/dailyworker.hpp:66-72 | A pass leaves a deadline not before the planned instant exactly if the waiter is free or 30 seconds reach that instant. |
| DailyWorker.EarlyRunPossibleIff | libs/dailyworker/dailyworker.hpp:58-78 | From a state, the next pass can run early exactly if both the deadline and the clock are before the planned instant. |
| DailyWorker.OnTimeIff | libs/dailyworker/dailyworker.hpp:52-80 | Over whole runs, with calls at any moment: at no point can the next pass run early, if and only if the waiter is never busy more than 30 seconds before the instant then planned. |
| DailyWorker.FreeOnCallsNoHurry | libs/dailyworker/dailyworker.hpp:58-71 | It is never so while calls that wake the worker find the waiter free. |
| DailyWorker.HurryRunsEarly | libs/dailyworker/dailyworker.hpp:66-78 | After such a postponement, from any state, a pass 30 seconds later runs early. |
| DailyWorker.EarlyRunFromStart | main.mm:237-245 | From the start, planned for 18:41:40 and changed to 21:25:00 while the waiter is busy, the first run comes 30 seconds after midnight. |
| DailyWorker.WaitInForceIff | libs/dailyworker/dailyworker.hpp:58-77 | The next wait is for the schedule in force exactly if the pass postponed, or no call after its planning and before the next clearing of the flag asks for another schedule. |
| DailyWorker.HeededIff | libs/dailyworker/dailyworker.hpp:52-77 | Over whole runs: every wait is for the schedule in force at that moment if and only if no call asks for another schedule between a planning and the next clearing. |
| DailyWorker.QuitWaitsForDeadline | libs/dailyworker/dailyworker.hpp:42-66 | The pass in which the destructor is called, without a schedule change, ends no earlier than the deadline, still runs DoTask if the waiter is free, and is the last. |
| DailyWorker.QuitEndsOnlyTheLoop | libs/dailyworker/dailyworker.hpp:42-79 | A run that is told to quit in one of its passes is the same run up to that pass, and ends there. |
| Decimal.DigitsInjective | libs/archiveQueue/archiveQueue.cpp:58 | Different numbers have different numerals. |

## Left out

- Floating-point rounding: coordinates are real numbers.
- Cutting the polygon text into points, `atof`, time stamps and `mktime` on time stamps: points and whole seconds are inputs.
- More than one match per append: the iterator of `find_match` runs over the string it changes, and the code declares this unsupported; the model searches the buffer again and requires that nothing is found.
- XML parsing, the walk over info, area and resource elements, and filtering by status and message type (libs/xmlhandler/xmlhandler.cpp:34 and following).
- GeofenceTheorems.InsideExactly: requires a station left of x = 99999.9, from which the ray points to the right; no longitude or latitude in degrees comes near it.
- The re-lock of the queue's own mutex by `GetHistory` inside `OnFinish` (main.mm:117-120 and 69-83): callbacks are opaque events that receive the history.
- What the callbacks do: playing, encoding, zipping, downloading; they are assumed to return.
- Construction of the queues while their thread already runs.
- LogFormat.ReadBackIff: takes the 22 characters of a time stamp as they are in the "C" locale; which time they show is left out.
- MsLogger.Life: the put area is written while less than 65535 full files exist, because the 16-bit file index wraps after that; failing writes, an existing log directory and other writers are not modelled.
- `presize_buffer`, `set_log_dir` and logging to the terminal; the logger's locks, which every public operation holds throughout.
- MsLogger.MsLogger.SetBufferSize: models the sizes and the abandoned bytes, not the C allocation functions.
- Base64.DecodeAndWrite: when quads are skipped the tail of the output buffer is uninitialised memory, so that only the written prefix is stated; a file that cannot be opened is not modelled.
- ArchiveMove.ArchiveQueue.MoveFiles: paths are compared as texts (no links, no `.` or `..`), renames of directories fail, nothing else changes the disk meanwhile, and the suffix does not overflow `int`.
- ArchiveMove.SurvivesIff: requires that no listed path lies in the fresh directory itself, where a move would be onto itself; `ConservesIff` does without.
- SpeechText.Prepared: characters are bytes in the "C" locale, as the library's default white-space class has it.
- DailyWorker.OnTimeIff: a run is dated by the clock reading of its pass, taken before `DoTask` is entered; what passes between that reading and the entry is not modelled.
- Daylight saving time, changes of the clock and of the time zone; the schedule's fields are not negative and fit the C structure.
- DailyWorker.DailyWorker.Handler: a pass takes its outside events by window; that a call of `SetScheduleTime`, which takes no lock, can slip between the test of the wait and the sleep is covered as a wake-up that comes only at the deadline.
- The network client, the speech queue, WAV headers, the relay's serial line, `PBUtil`, settings and URL parsing: input and output, or foreign libraries.
- libs/geoutil/main.cpp and libs/geoutil/driver.cpp: older copies of the same geometry.
