# libpqxx: a verified model of its stateful core

libpqxx is the C++ client library for PostgreSQL.  This project models the parts
of it in which state, order or encoding make the code hard to get right, and
proves what the library promises about them:

- the **query pipeline** (`src/pipeline.cxx`): queries wait, are sent in batches
  behind a dummy query, and come back one by one; a refused batch is replayed to
  find the culprit.  Modules `Backend` (the server and the transaction, with
  arbitrary answers, timing and link failures), `PipelineState` (the state, its
  invariant and every transition), `Pipeline` (the class itself) and
  `PipelineRuns` (whole runs);
- **cursors** (`src/sql_cursor.cxx`, `src/cursor.cxx`): the client follows a server
  cursor that it cannot see.  Modules `CursorTracking`, `StatelessCursor`,
  `CursorStream` and `QueryEnd`;
- **COPY text** (`src/stream_to.cxx`, `src/stream_from.cxx`): the row printer and the
  row parser, over the glyph scanners of four encoding groups, and the server's reading
  of the format.  Modules `Encodings`, `CopyText` and `CopyFormat`;
- **transactions** (`src/transaction_base.cxx`, `src/transaction.cxx`,
  `src/robusttransaction.cxx`): life cycle, focus, deferred errors, and what is known
  about the outcome of a COMMIT.  Modules `CommitOutcome` and `Transaction`;
- **texts**: `esc_like`, integers and dates.  Modules `LikeEscape`, `Integers` and
  `Dates`.

`Wrappers` and `Buffers` hold small shared definitions.  Code that updates an object
or a buffer step by step is modelled by classes, arrays and loops, each proved
against a function on values; the properties are then proved of those functions.
What comes from outside (answers of the server, how long it takes, when the link is
lost, what a probe says) is a parameter or an arbitrary choice.  `dafny verify
dfyconfig.toml` checks everything.

## Main results

- **Every run of a pipeline** (`PipelineRuns.Run`): for every database, every timing,
  every moment at which the link is lost and every sequence of calls, each result that
  is delivered is what the database answered to that query's own text, once per query,
  executed in id order.  And without trouble with the link, every query that is asked for
  is delivered, or it really failed and the caller is told, or it comes after one that
  really failed.
- **The pipeline's invariant** (`PipelineState.Inv`) holds after every call, also when
  the call ends by exception or the link is lost in the middle of it: the map is three
  consecutive id ranges (finished, in flight, waiting), the counter matches, and nothing
  is in flight behind an error.
- **Replay finds the culprit** (`Pipeline.Pipeline.ObtainDummy`, `Pipeline.Pipeline.Replay`).
- **Cursor tracking refines the server's cursor** over every run of FETCH and MOVE, and
  random access and iterator blocks built on it return exactly the promised rows, in
  whatever order the iterators of a stream are dereferenced.
- **Printer, parser and server agree on COPY text** in every encoding group: the server
  reads what is printed, the parser reads whatever the server can write and undoes the
  printer, and a row that is printed after others have failed reads back as itself if and
  only if they left nothing.
- **The reported outcome of COMMIT is true if and only if** `CommitOutcome.Safe`; when each
  outcome is reported is `CommitOutcome.StatusExactly`.
- **Every run of a transaction** and any number of its foci (`Transaction.Play`,
  `Transaction.EveryRun`): final statuses are final, nothing but ROLLBACK is sent while a
  focus is open, every deferred error comes out once.
- **`esc_like` preserves meaning if and only if** the escape character is a wildcard or the
  text does not hold it; **integers and dates read back exactly**.

## Where the code differs from what one would expect

Each of these is a lemma or a clause of a contract, with the exact condition.

- *Replay.*  If no query of a refused batch fails when it is replayed, the two ends of
  the issued range are crossed (`PipelineState.ReplayedThrough`); the state is sound
  after a replay exactly if some query failed.  The model of the server therefore
  refuses a whole batch only if one of its statements also fails on its own.
- *Flush.*  The documentation of `flush` says that it clears an error state
  (include/pqxx/pipeline.hxx); the code leaves the error mark where it was.  A marked
  pipeline stays marked at the same id, one without anything in flight keeps its state,
  and a mark that appears has its cause in what was in flight.  What is inserted later
  is refused (`PipelineState.MarkIsForGood`, `PipelineRuns.RetryAfterFlush`).
- *A broken connection in place of the dummy query's result* leaves `obtain_dummy` as
  an exception, with the whole batch in flight and no answers to come; the next
  null then marks the batch, and no query has failed (`PipelineState.UnansweredKeeps`).
- *A link that is lost while only the end of a command is awaited* is taken for a
  result too many: a logic error, after which every query in the map is refused, also
  those whose good results are there (`PipelineState.SurplusRefusesAll`).  If it happens
  while the end of a refused batch is awaited, the batch's first query gets that error,
  and the replay starts behind it (`PipelineState.FirstDroppedReplaying`).
- *The last id.*  An error at the very last id cannot be recorded, because its mark is
  the value that stands for "no error" (`PipelineState.LastIdLost`).
- *Cursor displacement.*  An adopted cursor that already stands at the end it is sent
  to reports a displacement that is off by one (`CursorTracking.AdjustTracks` has the
  condition, `CursorTracking.DisplacementCanBeWrong` an instance).
- *Stateless retrieval.*  Backward from `begin == size` to an `end` that is a row, it
  returns one row too many, and in no other case.
- *COPY rows.*  An empty row prints as a line that reads as one empty field.  A row that
  fails leaves its earlier fields in the buffer, and the bad field up to the last special
  character in front of the fault; the next row goes out behind that
  (`CopyText.RowAfterFailures`, `CopyText.FailedRowSpoilsNext`).
- *Escaped characters.*  A backslash in front of a character of several bytes makes the
  parser cut that character in two (`CopyFormat.BackslashSplitsCharacter`); the server
  writes none there.
- *Arithmetic fields.*  The printer asserts that a byte is left over after the digits.
  The lowest value of every signed type and the highest of every unsigned one leave
  none (`CopyText.ExtremesLeaveNoRoom`).
- *Newlines.*  The two-byte scanners accept any trailing byte, so that a printed row can
  have a newline byte inside a character (`CopyText.RowNewline` has the exact condition).
- *Ignoring a negative number of rows* of a cursor stream moves the cursor back and counts
  forward (`CursorStream.CursorStream.Ignore`).
- *Committing a failed transaction.*  The server acknowledges that as a rollback; a basic
  transaction reports it as a commit (`CommitOutcome.FailedTakenForCommitted`).  A robust
  one does not get that far, because its constraints check is refused.
- *Robust commit.*  A connection error on a link that is still open, a probe that says
  "aborted" and a ROLLBACK that works are together reported as a commit
  (`CommitOutcome.AbortedTakenForCommitted`); with a lost link this cannot happen
  (`CommitOutcome.LostLinkIsSafe`).
- *Abort with a deferred error.*  `abort` shows the error as a notice and never sends
  ROLLBACK; `close` clears the error first and does send it.
- *Robust transactions* never register with the connection.
- *Dates.*  A year out of the range of `std::chrono::year` is not refused by itself; where
  the C++ library truncates it, the year 65537 reads as the year 1
  (`Dates.LateYearIsTakenForEarly`).
- *Months* from 20 on, which `std::chrono::month` can hold, are written as others
  (`Dates.MonthTextRight`).

## Model

| member | source | states |
|---|---|---|
| `PipelineRuns.Run` | src/pipeline.cxx:72-456 | For every database, every server timing, every loss of the link and every sequence of insert, retain, resume, complete, flush and retrieve in any id order: each delivered result is good, belongs to a query that was inserted with that text, and is the database's answer to that execution; no id leaves twice; executions follow id order. Without trouble with the link, every retrieve of an open query delivers it, or reports its failure, or the query lies behind the mark; every reported failure is of a text that was executed and failed, and so is the query right below the mark |
| `PipelineRuns.Call` | src/pipeline.cxx:72-184 | Every single call, however it ends, restores the invariant, forgets no text, result or execution, and reports a result, good or bad, only for a query that was in the map and now is not; no other query leaves the map except by a flush; without trouble with the link, a retrieve reports the query's result or the query lies behind the mark |
| `PipelineRuns.ReportsNext` | src/pipeline.cxx:408-418 | Earlier reports stay true as the history grows, and a new one never repeats an id |
| `PipelineRuns.ServedNext` | src/pipeline.cxx:367-418 | If every open query that was asked for has been answered or lies behind the mark, this holds after one more call too |
| `PipelineRuns.RunFailures` | src/pipeline.cxx:336-418 | From the invariant alone: without trouble with the link, the text of every query that was reported as failed, and of the one right below the mark, was executed and failed |
| `PipelineRuns.RunEnds` | src/pipeline.cxx:367-418 | From the invariant alone: a delivered answer is the database's answer at the place where that query's inserted text was executed, and places are ordered like ids |
| `PipelineRuns.RetryAfterFlush` | src/pipeline.cxx:111-123 | Flushing a pipeline with an error mark does not make it usable: a query inserted afterwards never delivers a result |
| `Pipeline.Pipeline.Open` | src/pipeline.cxx:37-42 | Refused exactly if the transaction has an open focus; otherwise a pipeline that satisfies the invariant, with nothing waiting, in flight or recorded |
| `Pipeline.Pipeline.Insert` | src/pipeline.cxx:72-95 | A fresh id and the text on record, unless the focus clashes or ids run out; while at most the retained number waits, nothing is sent or received; afterwards at most that number waits, or an error is recorded, or the server is busy with what is in flight; any other exception means trouble with the link |
| `Pipeline.Pipeline.AddQuery` | src/pipeline.cxx:75-84 | The new query joins the waiting range at its end, is counted, and becomes the first of that range if it was empty |
| `Pipeline.Pipeline.Complete` | src/pipeline.cxx:98-108 | Ends with nothing in flight and the focus released; without an error every query is finished; an exception means trouble with the link |
| `Pipeline.Pipeline.Flush` | src/pipeline.cxx:111-123 | Ends with an empty map, a zero counter and the focus released; with a mark, or with nothing in flight, the mark is exactly what it was; if there is no mark afterwards, everything that was in flight was answered; if there is one, a query failed right below it or the connection broke |
| `Pipeline.Pipeline.IsFinished` | src/pipeline.cxx:139-147 | Fails exactly for an id that is not in the map; a yes means that the result is held; a no that there is none yet, or that a result too many has put the mark below it |
| `Pipeline.Pipeline.Retain` | src/pipeline.cxx:159-172 | A negative number is refused without effect; otherwise it is stored and the old one returned; if that many wait, something is in flight afterwards or there is nothing to send, and if not, nothing happens |
| `Pipeline.Pipeline.Resume` | src/pipeline.cxx:175-184 | After a normal return something is in flight, or no query waits, or an error is recorded, or ids have run out, and what is in flight is not there yet; the set of queries is kept; an exception means trouble with the link |
| `Pipeline.Pipeline.Issue` | src/pipeline.cxx:196-226 | The connection is always free when a batch is sent; then exactly the waiting range goes in flight; it is skipped behind an error; a link lost before the last command's end was seen leaves as a logic error |
| `Pipeline.Pipeline.SendBatch` | src/pipeline.cxx:204-226 | What is sent is the texts from the waiting range to the end of the map, with a dummy exactly if there are several; the server executes them up to a failure or refuses them whole; if sending fails nothing changes, and there was trouble with the link |
| `Pipeline.Pipeline.ObtainResult` | src/pipeline.cxx:236-271 | Raises an error exactly for a result without a query or a second result; otherwise the oldest query in flight gets the next result, or the error of a lost link, or the range is cut off at a missing one |
| `Pipeline.Pipeline.ObtainNext` | src/pipeline.cxx:236-271 | In a sound state it fails only if nothing is in flight and the link is lost before the end of the last command was seen |
| `Pipeline.Pipeline.ObtainDummy` | src/pipeline.cxx:274-364 | The dummy was answered; or the connection broke and the whole batch is left in flight without answers; or the batch was replayed: queries before the culprit hold their own good results, save that the first may hold the loss of the link, the culprit holds the batch's error, all later ones are refused, the counter is the waiting range again, and no focus is left |
| `Pipeline.Pipeline.Replay` | src/pipeline.cxx:345-363 | The replay ends in a sound state if and only if some query failed, and if one of the batch fails on its own or the link is gone, one is found |
| `Pipeline.Pipeline.ReplayOne` | src/pipeline.cxx:347-363 | One query executed on its own, with the focus free: its own result is kept; or it is marked as the culprit, and then the database said no to its text or there was trouble with the link |
| `Pipeline.Pipeline.SpreadError` | src/pipeline.cxx:328-329 | Exactly the queries in flight get the batch's error |
| `Pipeline.Pipeline.Retrieve` | src/pipeline.cxx:367-418 | An unknown id and an id at or above the error mark are refused without effect; a normal return hands out the answer to that query's own text and removes it; a query that leaves by exception has failed, and the exception is the one for its recorded result, which is accounted for; a query below the mark stays only if there was trouble with the link; when one leaves, the server is not left idle; no other query leaves |
| `Pipeline.Pipeline.RetrieveOldest` | src/pipeline.cxx:150-156 | Retrieves the lowest id in the map, with the same guarantees, and fails without effect on an empty map |
| `Pipeline.Pipeline.GetFurtherAvailableResults` | src/pipeline.cxx:421-427 | Terminates, keeps the invariant, never lets the in-flight range grow; fetches no result that a poll has not announced, and returns only when the server is busy or the command is over; an exception means trouble with the link |
| `Pipeline.Pipeline.ReceiveIfAvailable` | src/pipeline.cxx:430-442 | Keeps the invariant; no query is finished while the dummy's result is due; what waits grows only if a batch was replayed; without a dummy it never waits, and it returns when the server is busy or nothing is in flight; an exception means trouble with the link |
| `Pipeline.Pipeline.Receive` | src/pipeline.cxx:445-456 | Terminates; after a normal return every id below the stop is finished or behind an error, and what is still in flight is not there yet; an exception means trouble with the link |
| `Pipeline.Pipeline.Attach` | src/pipeline.cxx:58-62 | Succeeds exactly if the pipeline has the focus or nobody has |
| `Pipeline.Pipeline.SetErrorAt` | include/pqxx/pipeline.hxx:198-202 | The error mark only moves down |
| `PipelineState.InsertedKeeps` | src/pipeline.cxx:72-95 | Adding a query keeps the invariant: ranges, counter, mark, records and the expected replies |
| `PipelineState.IssuedKeeps` | src/pipeline.cxx:196-226 | Sending the waiting range keeps it, whether the server executes the batch up to a failure or refuses it whole |
| `PipelineState.ReceivedKeeps` | src/pipeline.cxx:236-271 | Storing the next reply with the oldest query in flight keeps it: that reply is the answer to that query |
| `PipelineState.CutOffKeeps` | src/pipeline.cxx:241-249 | A null in mid-batch sets the mark at the oldest query in flight, right behind the failed one unless a batch was left without answers, and the unexecuted tail waits again, uncounted |
| `PipelineState.DroppedKeeps` | src/pipeline.cxx:236-271 | A link lost while results are awaited gives its error to the oldest query in flight and keeps the invariant |
| `PipelineState.TroubledStep` | src/pipeline.cxx:424-434 | Input that cannot be read changes nothing on record |
| `PipelineState.ReplayFailedExplained` | src/pipeline.cxx:347-363 | The batch's error is accounted for at the culprit: its text was executed by itself and failed, or there was trouble with the link |
| `PipelineState.TruthfulStable` | src/pipeline.cxx:236-271 | Every result on record stays accounted for: the server's answer to that query's own text, or an error with a cause |
| `PipelineState.SurplusKeeps` | src/pipeline.cxx:257-262 | A link lost while only the end of a command is awaited marks the oldest query in the map and keeps the invariant |
| `PipelineState.SurplusRefusesAll` | src/pipeline.cxx:257-262 | After that every query in the map is at or above the mark |
| `PipelineState.UnansweredKeeps` | src/pipeline.cxx:296-303 | A dummy result that reports a broken connection leaves a sound state with the batch still in flight |
| `PipelineState.MarkIsForGood` | src/pipeline.cxx:111-123 | Every id handed out after a mark lies at or above it, along every further run |
| `PipelineState.ObtainedKeeps` | src/pipeline.cxx:236-271 | With the link up, fetching a result in a sound state never raises one of the two internal errors and ends in a sound state |
| `PipelineState.DummyGoodKeeps` | src/pipeline.cxx:280-312 | A good dummy leaves exactly the batch's own answers to come |
| `PipelineState.BatchFailedReplaying` | src/pipeline.cxx:328-344 | A refused batch is waiting again, counted, with the focus released so that the replay cannot clash with it |
| `PipelineState.FirstDroppedReplaying` | src/pipeline.cxx:328-344 | If the link is lost while the refused batch's end is awaited, the replay is set up soundly from the second query on |
| `PipelineState.ReplayOkKeeps` | src/pipeline.cxx:347-354 | A query that succeeds on replay gets its own answer |
| `PipelineState.ReplayFailedKeeps` | src/pipeline.cxx:356-363 | A query that fails on replay, by the word of the database or for the link, restores the whole invariant with the mark right behind it |
| `PipelineState.ReplayedThrough` | src/pipeline.cxx:347-354 | If every query succeeds on replay the invariant is broken |
| `PipelineState.ReplayOkFails` | src/pipeline.cxx:347-354 | A batch with a statement that fails on its own still has one ahead after each success |
| `PipelineState.ErasedKeeps` | src/pipeline.cxx:408-416 | Taking a finished query out of the map keeps the invariant |
| `PipelineState.FlushedKeeps` | src/pipeline.cxx:111-123 | Emptying the map keeps it, with the records intact |
| `PipelineState.BatchIsTexts` | src/pipeline.cxx:204-218 | Walking the map from the waiting range to its end yields the texts of the waiting ids, in order |
| `PipelineState.OldestIsLeast` | src/pipeline.cxx:150-156 | The first entry of the map is its lowest id |
| `Backend.RunAnswers` | src/pipeline.cxx:196-226 | In a batch executed up to its first failure, the i-th answer is the database's answer to the i-th statement at its own place in the history |
| `CursorTracking.AdjustTracks` | src/sql_cursor.cxx:215-267 | One FETCH or MOVE from any position: no internal error, the record stays true, position and end become known exactly when they can be, and the displacement is right exactly unless the client unknowingly stood at that end |
| `CursorTracking.RunTracks` | src/sql_cursor.cxx:215-301 | Every run of FETCH and MOVE keeps the record true and raises no internal error; a known position stays known |
| `CursorTracking.CursorTrackingRefinesServer` | src/sql_cursor.cxx:129-176 | The same from both starts, created and adopted; a created cursor's position is always the server's |
| `CursorTracking.DisplacementCanBeWrong` | src/sql_cursor.cxx:232-250 | A concrete adopted cursor for which the reported displacement is wrong |
| `CursorTracking.PassedIsCount` | src/sql_cursor.cxx:270-301 | The number of rows that a FETCH returns is the number of rows passed |
| `CursorTracking.SqlCursor.Create` | src/sql_cursor.cxx:129-164 | A declared cursor starts at position 0 with a true record |
| `CursorTracking.SqlCursor.Adopt` | src/sql_cursor.cxx:167-176 | An adopted cursor's record claims nothing that could be false, wherever it stands |
| `CursorTracking.SqlCursor.DoAdjust` | src/sql_cursor.cxx:215-267 | The stepwise update agrees with the specification, error cases and partial updates included |
| `CursorTracking.SqlCursor.Fetch` | src/sql_cursor.cxx:270-283 | Returns exactly the rows that the server passes over and keeps the record true |
| `CursorTracking.SqlCursor.Move` | src/sql_cursor.cxx:286-301 | The same without the rows, with their number |
| `StatelessCursor.StatelessCursor.Retrieve` | src/cursor.cxx:44-62 | From every known position and for every end, also far out of range: fails exactly if the start is out of range; otherwise gives the existing rows from the start up to the end, or down to it, in that order, if and only if the request is not backward from the size to a row; and then that and one row more |
| `StatelessCursor.StatelessCursor.Size` | src/cursor.cxx:36-41 | The number of rows, from any position |
| `StatelessCursor.StatelessCursor.Adopt` | include/pqxx/cursor.hxx:233-240 | After adopting, the position is known, wherever the cursor stood |
| `StatelessCursor.MoveLands` | src/cursor.cxx:59-60 | The MOVE reaches the place before the first row to fetch, or one short of it from the end |
| `StatelessCursor.MoveThenFetch` | src/cursor.cxx:59-61 | MOVE and FETCH together pass exactly the promised slice, except for the one family |
| `StatelessCursor.WantedIsSlice` | src/cursor.cxx:53-54 | Bringing the end into range does not change which rows are asked for |
| `StatelessCursor.OneRowTooManyIsWrong` | src/cursor.cxx:59-61 | In that family the answer is the promised slice and one row more |
| `CursorStream.CursorStream.ServiceIterators` | src/cursor.cxx:167-192 | Every listed iterator between the old read position and the target holds exactly its own block of rows, cut off at the end of the data; all others are unchanged; what is read ends with the block of the last of them, nothing is read if there is none, and nobody behind the target is passed; the stream is done exactly if that block lies past the data |
| `CursorStream.CursorStream.CollectJobs` | src/cursor.cxx:172-181 | The to-do list is sorted and holds exactly the listed iterators in range |
| `CursorStream.CursorStream.ServeNext` | src/cursor.cxx:183-191 | One position is read once and handed to all iterators that stand there |
| `CursorStream.CursorStream.ServeAll` | src/cursor.cxx:183-191 | The whole list is served in order, and reading stops with the last entry's block |
| `CursorStream.CursorStream.FetchBlock` | src/cursor.cxx:106-113 | The next stride of rows; the stream is done exactly if there was none |
| `CursorStream.CursorStream.Ignore` | src/cursor.cxx:116-123 | Skips rows up to the end, done exactly if fewer were left; for a negative number the read position stays right exactly if no row had been passed |
| `CursorStream.CursorStream.Forward` | src/cursor.cxx:126-130 | Positions handed out stay multiples of the stride |
| `CursorStream.CursorStream.InsertIterator` | src/cursor.cxx:133-141 | The doubly linked list stays well formed, with the iterator in front |
| `CursorStream.CursorStream.RemoveIterator` | src/cursor.cxx:144-164 | The list stays well formed and loses exactly that iterator |
| `CursorStream.GridSpacing` | src/cursor.cxx:126-130 | Different positions are at least a stride apart, so that blocks never overlap |
| `CursorStream.FetchedBlock` | src/cursor.cxx:106-113 | A FETCH of one stride, seen from the stream's own start, is the block at the read position |
| `CursorStream.Construct` | src/cursor.cxx:198-205 | In any world of streams and iterators, each stream's list is again exactly its attached iterators, the new one included |
| `CursorStream.Copy` | src/cursor.cxx:208-215 | The same for a copy, which stands where the original stands and holds the same rows |
| `CursorStream.Assign` | src/cursor.cxx:261-284 | The same for assignment, also to itself and between streams |
| `CursorStream.Destroy` | src/cursor.cxx:218-223 | The same after an iterator is gone |
| `CursorStream.Advance` | src/cursor.cxx:245-258 | Refused exactly for a negative number; otherwise the iterator moves to a fresh position of its stream and forgets its rows |
| `CursorStream.Refresh` | src/cursor.cxx:311-316 | The iterator holds its own block, unless it lies behind the read position; the stream has read exactly up to the end of that block, and has passed no iterator of its own that stands further on |
| `CursorStream.RefreshAll` | src/cursor.cxx:167-192 | Any iterators of one stream that it has not passed yet can be dereferenced in any order, and in the end each holds the rows at its own position |
| `QueryEnd.FindQueryEnd` | src/sql_cursor.cxx:60-93 | The end of the last character that is neither blank nor semicolon, or 0; fails exactly where the text is malformed |
| `QueryEnd.QueryEndExactly` | src/sql_cursor.cxx:33-36 | A cut is the one that is made if and only if nothing but spaces, tabs, newlines, carriage returns and semicolons lies behind it, and none of them right before it |
| `QueryEnd.ScanForwards` | src/sql_cursor.cxx:72-91 | The forward scan finds that place in every encoding, while it jumps from one useless character to the next |
| `QueryEnd.ScanBackwards` | src/sql_cursor.cxx:67-71 | The backward byte scan finds it where bytes are characters |
| `QueryEnd.ScansAgree` | src/sql_cursor.cxx:60-93 | On ASCII text all scans agree |
| `QueryEnd.UsefulCount` | src/sql_cursor.cxx:33-36 | The last useful character, determined: useful itself, and only useless ones after it |
| `Encodings.GlyphEnd` | include/pqxx/internal/encodings.hxx:154-287 | A scanner always advances within the text, and an ASCII byte at the start of a character is the whole character |
| `Encodings.ScannerExactly` | include/pqxx/internal/encodings.hxx:154-287 | In each group the scanner accepts exactly the strings of bytes that are one character, by their ranges of bytes |
| `Encodings.GlyphSuffix` | include/pqxx/internal/encodings.hxx:154-287 | Where a character ends does not depend on what comes before it |
| `Encodings.GlyphPrefix` | include/pqxx/internal/encodings.hxx:154-287 | ... nor on what comes after it |
| `Encodings.SplitFlatten` | include/pqxx/internal/encodings.hxx:154-287 | A text is one sequence of characters and no other |
| `Encodings.FindAsciiChar` | include/pqxx/internal/encodings.hxx:100-139 | The search loop agrees with the search one character at a time |
| `Encodings.FindStopsAtFirstHit` | include/pqxx/internal/encodings.hxx:100-139 | On a well-formed text the search stops exactly at the first character that is a needle; bytes inside longer characters are never hits |
| `CopyText.RowRoundTrip` | src/stream_from.cxx:182-286 | In every encoding group, a row prints exactly if every field is well formed, and then reads back as itself exactly if it has a field |
| `CopyFormat.ServerReads` | src/stream_to.cxx:40-58 | The server, reading by the rules of COPY's text format, reads every row that the library prints as that row, nulls included, in every encoding group |
| `CopyFormat.LibraryReads` | src/stream_from.cxx:182-286 | Of every line that means a row by those rules, however the server chooses to escape, the library reads that row |
| `CopyFormat.ParseLines` | src/stream_from.cxx:221-286 | The same behind fields that have already been read |
| `CopyFormat.PrintedRow` | include/pqxx/stream_to.hxx:242-291 | The characters of a printed row mean that row |
| `CopyFormat.BackslashSplitsCharacter` | src/stream_from.cxx:244-275 | In front of a character of several bytes, a backslash makes the library cut that character in two |
| `CopyText.PrintedRowShape` | src/stream_to.cxx:134-152 | A printed row is well formed, no character of it is a newline, and those that are tabs are the separators, one fewer than fields |
| `CopyText.RowNewline` | src/stream_to.cxx:134-152 | A printed row has a newline byte in it if and only if some field has one inside a longer character, which never happens in the ASCII-safe group and in GB18030 |
| `CopyText.NewlineCanBeHidden` | include/pqxx/internal/encodings.hxx:178-207 | It does happen in the two other groups |
| `CopyText.EscapeRoundTrip` | src/stream_to.cxx:40-58 | Exactly the seven special characters are escaped; unescaping undoes it, and no escape looks like a null, a tab or a newline |
| `CopyText.StreamTo.EscapeFieldToBuffer` | src/stream_to.cxx:134-152 | Copying whole stretches prints the same as escaping one character at a time; a malformed field throws and leaves exactly the print up to its last special character in front of the fault |
| `CopyText.StreamTo.WriteBuffer` | src/stream_to.cxx:82-93 | Sends the buffer without its last tab and clears it |
| `CopyText.StreamTo.WriteRow` | include/pqxx/stream_to.hxx:242-247 | Sends exactly the printed row behind whatever earlier failures left; or sends nothing, throws, and leaves exactly its whole fields and the part of the bad one |
| `CopyText.StreamTo.AppendNumber` | include/pqxx/stream_to.hxx:338-354 | The digits go in unescaped; the source's assertion about the room left holds exactly if the text is shorter than its budget |
| `CopyText.NumbersNeedNoEscaping` | include/pqxx/stream_to.hxx:338-354 | The shortcut refines the general path: in every encoding the general path prints a number as the same text |
| `CopyText.ExtremesLeaveNoRoom` | include/pqxx/stream_to.hxx:338-354 | The asserted spare byte is missing for the lowest value of every signed type and for the highest of every unsigned one |
| `CopyText.RowAfterFailures` | src/stream_to.cxx:82-93 | After any number of failed rows, what the next row reads back as; and it reads back as itself if and only if they left nothing |
| `CopyText.LeavesNothing` | src/stream_to.cxx:134-152 | A failed row leaves nothing exactly if its first field is the bad one and the fault comes before any special character |
| `CopyText.PartialIsPrint` | src/stream_to.cxx:134-152 | What a bad field leaves is the print of a well-formed beginning of it |
| `CopyText.FailedRowSpoilsNext` | src/stream_to.cxx:82-93 | A concrete failing row after which the next one is read back with foreign text in it, or not at all |
| `CopyText.StreamFrom.ParseLine` | src/stream_from.cxx:182-286 | Unescaping in place gives the fields that the line means, or its error; for any line, no more is written than was read |
| `CopyText.ParseSkip` | src/stream_from.cxx:227-235 | Copying up to the next tab or backslash in one go reads the same fields |
| `CommitOutcome.CommitIsTruthful` | src/robusttransaction.cxx:136-233 | For every behaviour of server and link, an acknowledged rollback included, the reported status is true of every outcome that agrees with what was observed, if and only if the run is in the stated safe class |
| `CommitOutcome.ProbingIsTruthful` | src/robusttransaction.cxx:168-233 | Once probing starts, the status is true if and only if the deciding probe is neither an "aborted" whose ROLLBACK still works nor a failure, other than a lost link, before anything said "aborted" |
| `CommitOutcome.LostLinkIsSafe` | src/robusttransaction.cxx:136-233 | If the link is lost and probes only answer or lose their link, robust commit is always truthful: committed exactly if some attempt says so, otherwise in doubt, and never aborted |
| `CommitOutcome.AbortedTakenForCommitted` | src/robusttransaction.cxx:205-208 | A concrete run in which an aborted transaction is reported as committed |
| `CommitOutcome.FailedTakenForCommitted` | src/transaction.cxx:60-108 | A failed transaction whose COMMIT is acknowledged as a rollback is reported as committed by a basic transaction |
| `CommitOutcome.BasicDoCommit` | src/transaction.cxx:60-108 | The basic commit reports what the specification says of that run, and sends exactly those commands |
| `CommitOutcome.RobustDoCommit` | src/robusttransaction.cxx:136-233 | The same for the robust commit; it makes at most 500 probes, none without need, and stops at the first decisive one |
| `CommitOutcome.StatusExactly` | src/robusttransaction.cxx:136-233 | Exactly when each status is reported, in terms of what server and link did: committed, if COMMIT came back or the probe that settles the matter says so, or says "aborted" with a working ROLLBACK; aborted, if COMMIT was not sent or failed on an open link, or that probe failed, or said "aborted" and its ROLLBACK failed; in doubt otherwise; for both kinds |
| `CommitOutcome.LogExactly` | src/robusttransaction.cxx:136-233 | COMMIT is sent once, or not at all if the constraints check fails; ROLLBACK follows a failed check and a COMMIT that fails on an open link, and otherwise exactly the probes that said "aborted", in order |
| `CommitOutcome.ResolveEnds` | src/robusttransaction.cxx:187-225 | The first decisive probe alone determines the status; without one it is in doubt |
| `CommitOutcome.FailedProbe` | src/robusttransaction.cxx:91-111 | After a probe that fails for another reason, both outcomes are possible unless an earlier probe said "aborted" |
| `CommitOutcome.ProbeReadsStatus` | src/robusttransaction.cxx:54-72 | Each status word is recognised if and only if it is spelled exactly so |
| `Transaction.Play` | src/transaction_base.cxx:115-573 | Every sequence of exec, deferral, commit, abort, close, and opening and closing of any number of foci does to the object exactly what the pure record of the run says; at most one focus is registered, and it is the one on record |
| `Transaction.EveryRun` | src/transaction_base.cxx:115-573 | At every point of every run: a final status is never left and nothing is sent after it; nothing but ROLLBACK is sent while a focus is open; errors are stored when accepted, and each has come out exactly once or is pending; no ROLLBACK follows an acknowledged COMMIT |
| `Transaction.NextInOrder` | src/transaction_base.cxx:115-421 | Every single call keeps the account of deferred errors and the order of COMMIT and ROLLBACK |
| `Transaction.ClosedIsOver` | src/transaction_base.cxx:372-421 | Closing at the end of any run leaves a transaction that is over and off the connection, with ROLLBACK sent once if it was active |
| `Transaction.Transaction.Commit` | src/transaction_base.cxx:115-186 | COMMIT is sent only in an active transaction without open focus or deferred error, on an open link; every other case throws or returns as documented and changes no status; the connection is released exactly by a successful commit, and a failed one stays registered |
| `Transaction.Transaction.Abort` | src/transaction_base.cxx:189-234 | An active transaction becomes aborted, unregistered and off the connection's record; ROLLBACK is sent exactly if no error was deferred; a committed one is refused |
| `Transaction.Transaction.Close` | src/transaction_base.cxx:372-421 | Terminates in spite of the recursion with abort; afterwards the transaction is neither active nor registered, the connection is free if it was registered, and an active one attempted ROLLBACK exactly once |
| `Transaction.Transaction.Exec` | src/transaction_base.cxx:262-283 | A command is sent only without open focus and deferred error; a deferred error is thrown instead, once |
| `Transaction.Transaction.RegisterPendingError` | src/transaction_base.cxx:489-512 | The first error is kept until it comes out |
| `Transaction.Transaction.TakePendingError` | src/transaction_base.cxx:542-551 | A deferred error comes out once, thrown or as a notice, never both |
| `Transaction.CommitLogInOrder` | src/robusttransaction.cxx:136-233 | In no run of a commit does ROLLBACK follow an acknowledged COMMIT |
| `Transaction.NeverActive` | src/transaction.cxx:60-108 | A commit that was attempted always leaves a final status |
| `Transaction.OpenFocus` | src/transaction_base.cxx:560-565 | At most one focus is registered, and the transaction's pointer agrees with the object's own flag; opening succeeds exactly if none is open |
| `Transaction.CloseFocus` | src/transaction_base.cxx:568-573 | The same after closing |
| `Transaction.Start` | src/transaction.cxx:24-48 | A second basic transaction on a connection is refused; a failed BEGIN leaves the connection as it was |
| `LikeEscape.EscLikePreservesMeaning` | src/connection.cxx:1199-1250 | As a LIKE pattern, the escaped text matches the original and no other string if and only if the escape character is a wildcard or the text does not hold it |
| `LikeEscape.EscLike` | src/connection.cxx:1199-1250 | The loop and both shortcuts put the escape character in front of exactly the wildcards |
| `LikeEscape.EscapedMatchesOnlyText` | src/connection.cxx:1199-1250 | Without a bare escape character in it, a text becomes a pattern for itself alone; an escape character that is a wildcard is never bare |
| `LikeEscape.OnlyMatchIsShort` | src/connection.cxx:1199-1250 | With it, any single match is shorter than the text |
| `LikeEscape.ActiveWildcard` | src/connection.cxx:1199-1250 | A wildcard left active never leaves exactly one match |
| `Integers.ToBuf` | src/strconv.cxx:395-422 | For every integral type and value, lowest included: the canonical decimal at the end of the span, inside its budget, nothing in front touched; a span that is too short is refused |
| `Integers.NonnegToBuf` | src/strconv.cxx:47-62 | The backward loop writes the canonical digits |
| `Integers.BottomToBuf` | src/strconv.cxx:80-111 | The value that cannot be negated is written through its unsigned counterpart |
| `Integers.IntoBuf` | include/pqxx/strconv.hxx:452-475 | The text moves to the front of the span, and overlap does no harm |
| `Integers.DecimalFits` | include/pqxx/internal/conversions.hxx:224-230 | Sign, digits10 and one more digit hold every value of the type |
| `Integers.HighestFillsBuffer` | include/pqxx/internal/conversions.hxx:224-230 | The highest value of an unsigned type of any width uses the budget up: no power of two is a power of ten |
| `Integers.Digits10IsLargest` | include/pqxx/internal/conversions.hxx:224-230 | digits10 is the largest number of digits of which all numbers fit |
| `Integers.DecValue` | src/strconv.cxx:47-62 | The digits stand for the number and have no superfluous zeros |
| `Integers.LowestShort` | src/strconv.cxx:80-111 | The lowest short is written "-32768" |
| `Integers.FromString` | src/strconv.cxx:167-205 | Skips blanks and reads the whole rest, with the error cases |
| `Integers.ParsesNumerals` | src/strconv.cxx:167-205 | Blanks and a numeral are read as the number, or out of range |
| `Integers.ParsesOnlyNumerals` | src/strconv.cxx:167-205 | Nothing else is read as a number |
| `Integers.IntegerRoundTrip` | src/strconv.cxx:388-422 | For every type and value, any blanks and the canonical text read back as the value |
| `Dates.DateRoundTrip` | src/time.cxx:179-224 | The text of a date reads back as that date if and only if the date exists in the calendar, in all years from 32768 BC to 32767 AD |
| `Dates.CalendarExactly` | src/time.cxx:219-222 | A date exists if and only if its month has that many days, and February has the day that makes the months add up to the Gregorian year; 146097 days in four centuries |
| `Dates.KnownDates` | src/time.cxx:179-194 | A leap day and a day before Christ, spelled out |
| `Dates.ReadsDates` | src/time.cxx:197-224 | Any day, month and year is read with the year as the library keeps it, or refused if there is no such date |
| `Dates.DateTextInjective` | src/time.cxx:179-194 | Different dates have different texts, across the missing year zero |
| `Dates.LateYearIsTakenForEarly` | src/time.cxx:211-215 | A year out of range can be read as a different year |
| `Dates.ParsesOnlyDates` | src/time.cxx:197-224 | Nothing else is read as a date: a text that is, holds the month and the day of that date in two digits each and a year of at least four characters that reads as a positive int, and the date exists |
| `Dates.ToBuf` | src/time.cxx:179-194 | Writes exactly what stands for the date within 15 bytes, or refuses a shorter buffer |
| `Dates.WrittenRight` | src/time.cxx:98-108 | What is written is the date's text for every month up to 19, and so for every month that exists |
| `Dates.MonthTextRight` | src/time.cxx:98-108 | A month is written as its number if and only if it is at most 19 |
| `Dates.YearIntoBuf` | src/time.cxx:32-78 | At least four digits of the year as people count it, the lowest year included |
| `Dates.OldestYear` | src/time.cxx:36-46 | The text that the source has for the lowest year is no exception |
| `Dates.FindYearMonthSeparator` | src/time.cxx:153-167 | The first dash, or the end |

## Left out

- libpq, sockets, waiting, notices, connection set-up and large objects.
- `pipeline::cancel` and the pipeline's destructor; other statements on the connection between pipeline calls.
- The query text that is attached to a pipeline result; only result data is modelled.
- The signed overflow of `id + 1` at the last query id.
- Result sets of as many rows as `cursor_base::all()` stands for.
- `icursorstream::set_stride` between reads, and the refusal of a stride below 1: the stride is a constant of at least 1.
- The encoding group "unknown", for which there is no scanner.
- `get_raw_line`, `close` and `complete` of the COPY streams, and raw lines passed from one to the other.
- The `txid_current` query with which a robust transaction starts; subtransactions and nontransactions.
- Floating-point and bool conversion, arrays, ranges and composites.
- `listen`, notifications, `quote_connect_param`, parameters, prepared statements.
- Integers.FromString: the wording of error messages is not modelled, only their kinds.
- Dates.ReadsDates: how `std::chrono::year` keeps an int out of its range is a parameter, because the C++ standard leaves it open.
- CopyText.StreamTo.AppendNumber: the room at the end of the string is a separate array, so that growing and shrinking the string in place is not modelled.
- Transaction.Transaction.Exec: the answer's rows are not modelled, only whether and how the command failed.
