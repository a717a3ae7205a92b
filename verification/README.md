# Verified model of amule-remote-qt

amule-remote-qt controls a remote aMule daemon over the External Connection (EC) protocol. This
project models, in Dafny, the parts of it whose correctness is not visible from any one function,
and proves what they promise:

- **The EC codec** (`Bytes`, `Tags`, `Codec`, `CodecIO`, `WireFormat`): packets are trees of tags of any depth; a
  tag's length field counts its data and its serialized children, but its own child count is charged
  to its parent. `Codec` says what is written and what is accepted; `CodecIO` is the byte buffer,
  the cursor and the recursive loops of the program, proved against it. `RoundTrip` proves exactly
  which packets survive; `Acceptance` proves what is known of arbitrary accepted bytes; `WireFormat`
  says what every byte means, in plain numbers, and what becomes of tags and frames that lie about
  type or length.
- **The client** (`Framing`, `Client`): requests and replies as frames on a socket that delivers
  bytes in chunks of any size, times out, or closes.
- **The worker** (`Worker`, `WorkerRuns`, `WorkerSnapshots`, `WorkerSignals`): the slots of the background worker as
  a class over connection, timer, search and grace period, and theorems about every sequence of slot
  invocations with every combination of successful and failed exchanges.
- **The source map** (`Sources`): incremental updates merged in place, against the history of replies.
- **Completed downloads** (`Retention`, `RetentionLaws`): queue snapshots merged with the finished rows kept on screen.
- **Result filter** (`Text`, `Glob`, `Filter`): globs translated to regular expressions, and the
  comparison that keeps anchored rows on top.
- **Saved searches** (`SavedSearches`, `SavedFormat`): the tab-separated file and the panel that edits it.

`dafny verify dfyconfig.toml` checks the whole project.

In every component the imperative code (classes, loops, in-place updates) is proved equal to a
function of its inputs and old state, and the main results are about those functions.

## What the code does not promise

Where a natural property is false of the code, the project proves exactly when it holds:

- A packet comes back from its own encoding if and only if names have 15 bits, no node has more than
  65535 tags, text has no NUL, no byte array is empty and every tag is shorter than 2^32 bytes
  (`RoundTrip.SurvivesExactly`). A double counts as its decimal text here.
- A connect that fails while a client is held reports Error but keeps the client and its timer. The
  status then lies, and the next full refresh always publishes under it
  (`WorkerRuns.StaleBreaksQuiet`, with `WorkerRuns.RefusedReconnectIsStale` as an example of such a
  run). A quiet run stays quiet whatever the next slot is if and only if it is not in that state
  (`WorkerRuns.QuietUnlessStale`); connecting only while idle avoids it
  (`WorkerRuns.IdleConnectsAreNeverStale`).
- Shutdown keeps `searching_`, so it leaves a search without a client exactly when one was on
  (`WorkerRuns.ShutdownKeepsSearching`).
- "Clear completed" forgets the retained rows but not the last queue: a finished row still listed
  there comes back when the daemon drops it (`Retention.ClearedRowsComeBack`), and so does a deleted
  one (`Retention.DeletedRowsComeBack`).
- Retained rows are forgotten on a Disconnected status only. A connection lost with an Error status
  keeps them, so rows and EC ids of an earlier connection may meet those of the next
  (app/mainwindow.cpp:585-605).
- A finished download with neither hash nor EC id is retained again by every snapshot
  (`Retention.UnidentifiedRowsPileUp`).
- A translated glob is not the glob on names with a line break: `.` stops there and `$` overlooks a
  final one. For every such name some glob and its translation differ, and for no other
  (`Glob.GlobMeansRegexOnLines`); `Glob.GlobMeansRegex` says what the translation matches.
- A saved list is reloaded with nothing but its text fields cleaned if and only if no name is empty or
  begins with white space (`SavedSearches.SavedListsReload`). It is reloaded as it was if and only if,
  in addition, no text field holds a tab, a line feed or a carriage return
  (`SavedSearches.ReloadsUnchanged`); a list loaded from a file may hold carriage returns
  (`SavedSearches.AnyFileNormalizes`).
- ADR-0005 says that a compressed reply is tolerated, and counts a defensive zlib decode among its
  consequences; the code refuses such a reply with a Remote error (core/ec/client.cpp:161-168), and
  so does the model.

## Model

| member | source | states |
|---|---|---|
| Tags.FirstNamed | core/ec/tag.h:66-72 | the lookup behind `child` and `tag` gives the first tag of the name, and nothing only if there is none |
| RoundTrip.IntegersAreSmallest | core/ec/codec.cpp:37-54 | an integer takes the narrowest of the four wire types that holds it, and its bytes are the number |
| RoundTrip.IntegersAreLeftJustified | core/ec/codec.cpp:157-173 | an integer tag with too few data bytes reads as its high bytes, one with too many as its first bytes |
| RoundTrip.ValueReadsBack | core/ec/codec.cpp:57-84 | a value decodes from its own type and data, an empty byte array as Empty, exactly if it is not text, or the decimal text of a double, with a NUL inside; such text is cut there |
| RoundTrip.WireLength | core/ec/codec.cpp:86-118 | the bytes of a tag are exactly 7, plus 2 if it has children, plus its unwrapped length; the child count is not in the tag's own length |
| RoundTrip.HeaderReadsBack | core/ec/codec.cpp:204-229 | wherever a written tag stands, its name, type, length, child count, children and data are found where the reader looks |
| RoundTrip.TagReadsBack | core/ec/codec.cpp:204-236 | at any depth, a sendable tag is read back from any buffer that holds its bytes, and reading stops right behind them |
| RoundTrip.OnlySendableReadsBack | core/ec/codec.cpp:204-236 | conversely, a tag that reads back as itself satisfied every size and shape limit at every node |
| RoundTrip.PacketReadsBack | core/ec/codec.cpp:255-268 | a sendable packet decodes from its payload whatever bytes follow |
| RoundTrip.SurvivesExactly | core/ec/codec.cpp:240-268 | decoding an encoded payload gives the packet if and only if the limits hold and no byte array is empty; it gives the canonical form if and only if the limits hold |
| RoundTrip.EncodingIsPrefixFree | core/ec/codec.cpp:240-247 | encoding is injective on sendable packets, and no payload is the beginning of another's |
| Acceptance.TagOnPrefix | core/ec/codec.cpp:133-139 | cutting a buffer turns a successful read into truncation or leaves it unchanged, never into another tag or error |
| Acceptance.AcceptedPrefixDecides | core/ec/codec.cpp:255-268 | an accepted payload means the same on every buffer starting with the bytes consumed, and every strict prefix of these is reported as truncated |
| Acceptance.TagAccepted | core/ec/codec.cpp:204-236 | any accepted tag used at least 7 bytes for each tag in it; it is well-shaped and rewriting it takes at most 16 bytes more for each |
| Acceptance.ReencodingNormalizes | core/ec/codec.cpp:240-268 | N accepted tags used at least 3 + 7N bytes, and the canonical form of the result has the same bytes as the result; writing and reading it again gives the canonical form exactly when every length fits, always up to 1.3 GB |
| WireFormat.BigEndian | core/ec/codec.cpp:31-35 | numbers have their most significant byte first |
| WireFormat.DecodedMeaning | core/ec/codec.cpp:150-202 | what every type and any data decode to: integers take the first bytes and are filled with zeros, text and doubles end before the first NUL, a port needs six bytes, unknown types stay opaque |
| WireFormat.DecodedText | core/ec/codec.cpp:174-199 | text, and the text of a double, is read as it stands, with or without a NUL behind it, whatever follows the NUL |
| WireFormat.TagBytes | core/ec/codec.cpp:102-118 | each byte of a written tag's header as a number: name and children bit, type, length without its own header and child count, child count |
| WireFormat.FrameBytes | core/ec/codec.cpp:240-253 | the first eleven bytes of a written frame: flags 0x20, payload length, opcode, tag count |
| WireFormat.AnyHeader | core/ec/codec.cpp:204-236 | for any type and length in front of well-formed children: underflow if the length does not cover the children, truncation if it goes beyond the buffer, else the announced rest is decoded by the type |
| WireFormat.AnyLeaf | core/ec/codec.cpp:204-236 | the same for tags without children, which cannot underflow |
| WireFormat.BadTagSpoils | core/ec/codec.cpp:214-220 | the first unreadable child decides the error of its parent, and the first unreadable tag that of the payload |
| CodecIO.TagLen | core/ec/codec.cpp:89-100 | the wrapping 32-bit sum is the true length modulo 2^32 |
| CodecIO.WriteTag | core/ec/codec.cpp:102-118 | appends exactly the bytes of the tag to the buffer |
| CodecIO.Encode | core/ec/codec.cpp:240-253 | the frame is the base flag, the payload length modulo 2^32 and the payload |
| CodecIO.Cursor.Take | core/ec/codec.cpp:133-139 | the next bytes and an advanced position, or truncation and no advance; the position stays in bounds |
| CodecIO.Cursor.TakeBE | core/ec/codec.cpp:141-143 | the next bytes as a big-endian number, or truncation |
| CodecIO.ReadTag | core/ec/codec.cpp:204-236 | terminates on any bytes with the cursor in bounds, and returns the tag, position or error of the specification |
| CodecIO.ReadTags | core/ec/codec.cpp:218-220 | the child loop reads the announced number of tags or reports the first error |
| CodecIO.DecodePayload | core/ec/codec.cpp:255-268 | decodes any byte string to the packet or error of the specification |
| Framing.RawHeader | core/ec/codec.cpp:247-252 | the header of a frame reads as its flags and its payload length modulo 2^32, and the payload follows; no wrap below 2^32 |
| Framing.FrameBoundary | core/ec/client.cpp:149-173 | a frame is read as itself and leaves the stream at the next frame if and only if its payload is shorter than 2^32, malformed and compressed payloads included |
| Framing.FramesStayApart | core/ec/client.cpp:149-173 | a run of arbitrary frames is read as the meaning of each, in order; a bad one costs only its own reply |
| Framing.PacketsArriveInOrder | core/ec/client.cpp:149-173 | the frames of any list of sendable packets are read back as those packets in order, consuming exactly their bytes |
| WireFormat.FrameMeaning | core/ec/client.cpp:161-173 | a complete frame with the zlib bit is a Remote error, well-formed or not; any other gives its packet, or a Remote error if it does not decode |
| WireFormat.CutFrameIsIo | core/ec/client.cpp:149-159 | a stream that ends anywhere inside a frame is an Io error |
| Client.ChunksDoNotMatter | core/ec/client.cpp:176-194 | what a socket delivers depends only on the concatenation of its chunks |
| Client.EcClient.WaitForReadyRead | core/ec/client.cpp:180-185 | waiting moves pending bytes to the socket without losing any; it fails only when nothing more is pending |
| Client.EcClient.Read | core/ec/client.cpp:186-190 | takes some pending bytes off the front, none only if the socket holds none |
| Client.EcClient.ReadExactly | core/ec/client.cpp:176-194 | returns exactly the next n pending bytes and leaves the rest, or fails with Io if and only if fewer are pending, in any chunking |
| Client.EcClient.ReadPacket | core/ec/client.cpp:149-174 | reads one frame off the pending bytes; every result but Io leaves the stream behind that frame |
| Client.StreamInAnyChunks | core/ec/client.cpp:149-194 | the frames of any sendable packets, cut into any chunks, are read as those packets in order, leaving what arrives later |
| Client.EcClient.ReadPackets | core/ec/client.cpp:149-174 | repeated `readPacket` returns the replies of the pending bytes in order up to the first Io error, and without one consumes exactly the bytes of their frames |
| Client.EcClient.ReceivePackets | core/ec/client.cpp:149-194 | packets sent as frames and delivered in any chunks are received as those packets in order, consuming exactly their bytes |
| Client.EcClient.WaitForBytesWritten | core/ec/client.cpp:138-141 | moves bytes from the write buffer to the wire without losing or reordering any |
| Client.EcClient.Exchange | core/ec/client.cpp:134-143 | the request's frame goes out behind what was sent before; the reply is read exactly if all of it went out, else Io |
| Sources.MergeClient | core/ec/queries.cpp:36-63 | for each of the eleven fields, given by tag code: the first child with the code sets it, narrowed to 16 or 32 bits where the code narrows, if its value has the right kind; otherwise the field keeps its value |
| Sources.EntriesPicked | core/ec/queries.cpp:382-390 | the entries merged into a source are all those with an integer value whose low 32 bits are its id, in order and each once |
| Sources.UpdatedIds | core/ec/queries.cpp:377-399 | without a container of code 0x0600 nothing changes; else the sources known are those whose ids the first container lists |
| Sources.SourceMap.MergeListing | core/ec/queries.cpp:380-395 | merging entry by entry and then erasing gives exactly the listed ids, each with its own entries merged in order |
| Sources.SourceMap.FetchClientUpdate | core/ec/queries.cpp:369-400 | a failed exchange or a reply without container changes nothing; otherwise the first container is merged |
| Sources.TableIsHistory | core/ec/queries.cpp:377-399 | after any run of replies the known sources are those of the last listing, and each field is the latest value sent since the source's unbroken stretch of listings began, else the default |
| Worker.EcWorker.Teardown | core/ec/worker.cpp:76-86 | state and signals of a teardown |
| Worker.EcWorker.OnRefresh | core/ec/worker.cpp:245-314 | state and signals of a refresh for every outcome of its eight exchanges |
| Worker.EcWorker.Search | core/ec/worker.cpp:289-313 | the search part of a refresh, with the grace period |
| Worker.EcWorker.RunConnected | core/ec/worker.cpp:88-105 | a command without client is only logged, an Io error tears down, another error is only logged, success refreshes |
| Worker.EcWorker.ConnectToDaemon | core/ec/worker.cpp:35-62 | state and signals of a connect, failed or not |
| Worker.EcWorker.DisconnectFromDaemon | core/ec/worker.cpp:64-67 | a teardown, then a log line |
| Worker.EcWorker.ShutDown | core/ec/worker.cpp:69-74 | timer, client and sources go, the search flag stays, nothing is emitted |
| Worker.EcWorker.BeginSearch | core/ec/worker.cpp:148-170 | starts a search, or takes it back when the command fails |
| Worker.EcWorker.EndSearch | core/ec/worker.cpp:172-178 | ends a search even without a client |
| Worker.EcWorker.ReadPrefs | core/ec/worker.cpp:211-224 | preferences are published or the failure handled |
| Worker.EcWorker.WritePrefs | core/ec/worker.cpp:226-241 | preferences are written and read again |
| WorkerRuns.BetweenSlots | core/ec/worker.cpp:35-105 | in every run before shutdown: timer iff client, searching and sources need a client, the last searchingChanged is `searching_`, the last status is Connected iff a client is held and the last connect did not fail |
| WorkerRuns.TraceIsQuiet | core/ec/worker.cpp:76-105 | unless a connect failed on a held client, only status and log signals come between a status other than Connected and the next Connected |
| WorkerRuns.IdleConnectsAreNeverStale | core/ec/worker.cpp:45-54 | connecting only while idle, the status says Connected exactly while a client is held and the trace is quiet otherwise |
| WorkerRuns.StaleBreaksQuiet | core/ec/worker.cpp:45-50 | after any failed connect on a held client, the next full refresh publishes under an Error status |
| WorkerRuns.RefusedReconnectIsStale | core/ec/worker.cpp:45-50 | a refused connect after a successful one leaves a client under an Error status |
| WorkerRuns.QuietUnlessStale | core/ec/worker.cpp:45-105 | a run that was quiet stays quiet whatever slot follows if and only if no client is held under a failed connect |
| WorkerRuns.DownIsSilent | core/ec/worker.cpp:76-92 | in any run, from the loss of the client until a connect succeeds only status and log signals are emitted and no client is held |
| WorkerRuns.ShutdownKeepsSearching | core/ec/worker.cpp:69-74 | shutdown breaks the invariant exactly when a search was on |
| WorkerSignals.SlotSends | core/ec/worker.cpp:35-314 | for every slot, the statuses, search flags, progress, result lists, preferences and number of log lines it sends, each in order and with the values fetched |
| WorkerSignals.ClientAfter | core/ec/worker.cpp:35-105 | a client is held after a slot exactly if one was held or the login worked, nothing closed it, and neither the command nor the refresh lost it |
| WorkerSignals.SearchAfter | core/ec/worker.cpp:148-313 | a search is on after a slot exactly if it was on or was begun, was not stopped, the client is held and the search did not end by itself |
| WorkerSignals.StatusesOfSlot | core/ec/worker.cpp:35-105 | Connecting is reported exactly by a connect, Connected exactly by one whose login worked, Disconnected exactly by a disconnect, Error exactly when a login failed or a held client was lost otherwise |
| WorkerSignals.RunSends | core/ec/worker.cpp:35-314 | a run sends what is expected of its slots, one after the other |
| WorkerSignals.LastStatusOfRun | core/ec/worker.cpp:35-105 | the last status of a run, slot by slot: Disconnected after a disconnect, Error after a failed login or a loss, Connected after a connect that keeps its client, else the one before |
| WorkerSignals.ReadingEndsSlot | core/ec/worker.cpp:282-313 | a slot that reads its search ends with the six snapshots, the progress, the results and, exactly if the search ended by itself, the flag, in this order |
| WorkerSignals.LossEndsSlot | core/ec/worker.cpp:76-105 | a slot that loses its client ends with a log line, the end of the search if one is on then, and Error, in this order |
| WorkerSnapshots.SplitAtRefresh | core/ec/worker.cpp:88-105 | each slot is its refresh, if it reaches one, behind signals that are no snapshots |
| WorkerSnapshots.WhatLosesTheClient | core/ec/worker.cpp:94-104 | a client is lost exactly by disconnect, shutdown, an Io error of the slot's command or any error of its refresh; another command error leaves connection, timer and sources, and only ends the search it belongs to |
| WorkerSnapshots.SnapshotsAreRefreshes | core/ec/worker.cpp:254-287 | in every run the snapshot signals are complete groups of six in fixed order, one per refresh that fetched all six, with exactly its values, and no others |
| WorkerSnapshots.SourcesOfSession | core/ec/worker.cpp:270-276 | the worker's source table is the table of the update replies since the last connect |
| WorkerSnapshots.GraceIsExact | core/ec/worker.cpp:299-312 | the two grace fields decide exactly whether some stretch of complete reads spans 12 s |
| WorkerSnapshots.SearchEndsExactly | core/ec/worker.cpp:289-313 | a search ends by itself in a slot if and only if the slot completes a stretch of at least 12 s, inside that search, of reads of 100 or more |
| WorkerSnapshots.ThirteenthReadEnds | core/ec/worker.cpp:299-309 | with reads a second apart and all complete, at most 12 leave the search running |
| Retention.MainWindow.OnDownloadsUpdated | app/mainwindow.cpp:695-710 | both loops and the redraw, as a function of the old lists and the new queue |
| Retention.MainWindow.RefreshDownloadView | app/mainwindow.cpp:712-718 | the table shows the queue and then the retained rows without a match in it |
| Retention.MainWindow.ClearCompleted | app/mainwindow.cpp:218-222 | only the retained rows are forgotten |
| Retention.MainWindow.DeleteRows | app/mainwindow.cpp:571-576 | exactly the retained rows with one of the hashes go, in one pass or many |
| Retention.WithoutRows | app/mainwindow.cpp:572-574 | deleting keeps exactly the rows whose hash is not among those deleted |
| Retention.MainWindow.OnDisconnected | app/mainwindow.cpp:585-590 | both lists are forgotten, the table is not redrawn |
| Retention.FinishedIsRetained | app/mainwindow.cpp:664-710 | in every run retained rows are pairwise different and in completed form, and a download seen finished since the last clear, delete or disconnect has a match among them if and only if it has a hash or EC id |
| Retention.RetainedIsReal | app/mainwindow.cpp:685-718 | a retained row is a download seen finished since the last Disconnected status but for status, speed and bytes done, and it is shown itself or by a matching queue row |
| Retention.FirstLoopIdle | app/mainwindow.cpp:698-700 | the first loop appends nothing if and only if every finished row that the daemon dropped is retained already |
| Retention.OneLoopIsEnough | app/mainwindow.cpp:695-710 | without clear or delete and with identified downloads that is always so, and the retained rows depend only on the stream of rows, not on how snapshots divide it |
| Retention.ClearedRowsComeBack | app/mainwindow.cpp:218-222 | exactly when a cleared list is still empty after the next snapshot |
| Retention.SnapshotRetains | app/mainwindow.cpp:695-710 | a snapshot leaves the retained rows alone exactly when each row it finds finished, dropped or listed, has a match among them, and gives a match to each that can be identified |
| Retention.DeletedRowsComeBack | app/mainwindow.cpp:571-576 | exactly when the rows left by a deletion are unchanged by the next snapshot; a deleted finished row that the daemon drops is retained again |
| Retention.UnidentifiedRowsPileUp | app/mainwindow.cpp:666-675 | a finished row with neither hash nor EC id lengthens the retained list at every snapshot |
| RetentionLaws.TableOfRun | app/mainwindow.cpp:695-718 | in every run the last queue is that of the last snapshot since the last disconnect, and the table shows it and then exactly the retained rows it does not match, in order and each once; a disconnect leaves the table alone |
| RetentionLaws.SnapshotAppends | app/mainwindow.cpp:695-707 | in every run a snapshot appends, in completed form and in order, exactly those dropped rows and then queue rows that are finished and match neither a retained row nor one appended before |
| RetentionLaws.DeletionKeeps | app/mainwindow.cpp:571-576 | in every run a deletion keeps exactly the retained rows with other hashes, in order and each once |
| RetentionLaws.FinishedMeans | app/mainwindow.cpp:677-691 | a download is retained exactly if its status is 8 or 9 or all bytes of a non-empty file are done, with status 9, no speed and all bytes done |
| RetentionLaws.SameMeans | app/mainwindow.cpp:664-675 | two finished rows are retained as one exactly if they share a hash that is not all zero or an EC id that is not 0 |
| Glob.GlobToRegex | app/searchfilterproxy.cpp:7-40 | the loop computes the translation character by character |
| Glob.BodyParses | app/searchfilterproxy.cpp:11-37 | the translation of every glob is in the regular expression fragment, one item per glob character |
| Glob.GlobMeansRegex | app/searchfilterproxy.cpp:7-40 | for every glob and name, exactly which names the translation matches |
| Glob.GlobMeansRegexOnLines | app/searchfilterproxy.cpp:7-40 | for a name, every translation agrees with its glob if and only if the name has no line break |
| Glob.DifferingGlob | app/searchfilterproxy.cpp:13-17 | for every name with a line break, a glob on which they differ |
| Glob.StarStopsAtLineBreaks | app/searchfilterproxy.cpp:13-15 | on every name with a line break before its end, `*` and its translation differ |
| Filter.ResultFilter.SetSearchFilter | app/searchfilterproxy.cpp:42-54 | afterwards the compiled pattern belongs to the filter, and is used exactly if it is valid |
| Filter.ResultFilter.FilterAcceptsRow | app/searchfilterproxy.cpp:77-102 | a row is accepted exactly if its counts are in bounds and its name passes |
| Filter.GlobFilterMeansGlob | app/searchfilterproxy.cpp:46-52 | a glob filter always compiles, so any name passes exactly if the glob matches all of it (wildcards stopping at line breaks, a final one overlooked), negation respected; no substring search |
| Filter.AnchoredIsStrictWeak | app/searchfilterproxy.cpp:62-75 | with anchoring, `lessThan` and the view's order are strict weak orders in both directions if the column's comparison is |
| Filter.AnchoredRowsOnTop | app/searchfilterproxy.cpp:64-73 | rows are sorted with anchoring if and only if the anchored ones come first and both groups are sorted by the column, ascending or descending |
| Filter.UnanchoredIsColumn | app/searchfilterproxy.cpp:62-75 | without anchoring, or if all rows or none are anchored, rows are sorted exactly if they are sorted by the column's own comparison in the direction of the sort |
| Filter.OtherFilters | app/searchfilterproxy.cpp:42-54 | a blank filter accepts every name, a valid regular expression is tried as it is whether or not glob is set too, and everything else is a search for the trimmed text anywhere in the name, each subject to negation |
| Filter.BoundsMean | app/searchfilterproxy.cpp:85-90 | sources at least the minimum, at most the maximum unless that is 0, and a complete source if wanted |
| SavedSearches.CleanText | app/savedsearches.cpp:18-24 | tabs and line breaks become blanks, everything else stays |
| SavedSearches.SaveSearches | app/savedsearches.cpp:61-82 | writes one line of eleven fields per search |
| SavedSearches.ReadRecord | app/savedsearches.cpp:38-55 | a line gives its record, or nothing if it is blank or has not eleven fields |
| SavedSearches.LoadSearches | app/savedsearches.cpp:32-59 | reads line by line the records of any text |
| SavedSearches.NumberReadsBack | app/savedsearches.cpp:70-78 | every printed number reads back exactly and is fit to be a field |
| SavedFormat.RecordMeans | app/savedsearches.cpp:38-55 | a line is a record exactly if, blanks around it aside, it has ten tabs; which of the eleven fields becomes what, a flag being set by `1` alone |
| SavedFormat.NumbersMean | app/savedsearches.cpp:47-55 | any numeric field: an optional sign and digits are read as that number if it fits the type, everything else as 0 |
| SavedFormat.LineMeans | app/savedsearches.cpp:66-81 | what stands between the tabs of a saved line: cleaned text, numbers in their shortest form, `1` or `0` for flags |
| SavedSearches.LoadedRecordsAreOk | app/savedsearches.cpp:38-56 | whatever the text, a loaded name is not empty and does not begin with white space, and no text field has a tab or line feed |
| SavedSearches.SavedListsReload | app/savedsearches.cpp:32-82 | loading a saved list gives it back with only its text fields cleaned if and only if no name is empty or begins with white space |
| SavedSearches.ReloadsUnchanged | app/savedsearches.cpp:18-82 | a saved list reloads as it was if and only if the names are fit and no text field holds a tab, line feed or carriage return |
| SavedSearches.TextDeterminesList | app/savedsearches.cpp:65-82 | two lists are saved as the same text if and only if they are the same after cleaning |
| SavedSearches.SavedTextIsStable | app/savedsearches.cpp:32-82 | loading and saving reproduces the saved text of a list if and only if its names are fit |
| SavedSearches.AnyFileNormalizes | app/savedsearches.cpp:32-82 | for any file, loading and saving reaches a text that stays; its records come back cleaned, and unchanged exactly when no loaded text field holds a carriage return |
| SavedSearches.SearchPanel.constructor | app/searchpanel.cpp:28 | the panel starts with the searches of the file |
| SavedSearches.StoredAt | app/searchpanel.cpp:397-402 | storing replaces the first search of the name, or appends when there is none |
| SavedSearches.SearchPanel.OnSaveSearch | app/searchpanel.cpp:376-403 | the search replaces the first of its trimmed name or is appended; the file is the text of the list and reloads to it, text fields cleaned |
| SavedSearches.SearchPanel.OnDeleteSaved | app/searchpanel.cpp:428-433 | one search is removed, the others keep their order; the file is the text of the list and reloads to it, text fields cleaned |

## Left out

- DecodedMeaning: a double is its decimal text. The program turns that text, blanks around it aside, into a number and prints it anew with default precision; neither conversion is modelled.
- SurvivesExactly: for a double it says that the text survives, not that the program's number does. The same holds of the other results on reading back and on rewriting.
- ReadTag: the depth of the C++ call stack is not modelled; recursion is as deep as the bytes say.
- Text in tags is a byte sequence: conversion from and to UTF-8, lossy on malformed input, is not modelled.
- ReadExactly: error messages and the 20-second waits are not modelled; a wait that brings nothing is an arrival of its own, and the run of arrivals is finite.
- TagAccepted: the size of a rewritten double is that of the text it was read from.
- ReadPackets: it is the caller's repetition of `readPacket`, not a function of the program; nothing is said of the stream after an Io error.
- ReadPacket: nothing is said of the stream after an Io error, since the connection is then given up.
- Authentication, password hashing and salts (core/ec/client.cpp:26-58, 86-132): a connect is one exchange that succeeds or fails.
- SlotSends: what a log line says is not modelled, only how many there are.
- OnRefresh: the snapshots other than the source table are opaque values, and the order in which sources are listed (by speed, core/ec/worker.cpp:273-280) is not modelled.
- RunConnected: the commands themselves (core/ec/worker.cpp:109-203) only choose the request; each is an exchange with an outcome. The thread, the event queue and the timer's own schedule are replaced by arbitrary slot sequences, and the held client by a flag.
- SearchEndsExactly: the clock is a parameter that must not run backwards.
- MergeClient: a speed sent as a double is kept as its decimal text.
- The other query parsers and preference reading and writing (core/ec/queries.cpp:69-335, 402-646): field copying.
- RefreshDownloadView: the table model behind the list of rows is not modelled, and a deletion starts after its confirmation.
- GlobMeansRegex: of PCRE only the fragment the translation produces is modelled, with `\n` as the only line break; case folding is an arbitrary relation between characters, and strings are sequences of code points.
- GlobFilterMeansGlob: that the regular expression engine does on this fragment what it means is an assumption, stated as a precondition; user-written expressions are left to the engine.
- SavedListsReload: files, atomic replacement, UTF-8 and the line-end translation of text mode are not modelled; the text is the file.
- OnSaveSearch: the widgets that hold the form and the combo box are not modelled.
- Number formatting for display, tables, delegates, dialogs, the speed graph and translations: display only.
