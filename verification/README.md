# A verified model of the odbcpp driver's state machines

odbcpp is a C++ ODBC driver. Its adapter layer (the `odbc/` directory) decides where a cursor lands,
how a value is handed out in pieces, which handles live, who may lock what, when a statement may be
dispatched or cancelled, and what a trace file may show. This project models those decisions and proves
what they keep.

Objects the driver updates in place are classes here (`Cursor`, `Reader`, `PendingInput`, `Table`,
`Connection`, `PreparedMetadata`) whose methods are proved against functions on values; the laws are then
proved about those functions, over every run. Loops in the driver are loops here. The two concurrent
protocols, cancellation and the trace storage gate, and the lock leases are state machines whose steps are
the mutex-protected blocks and atomic operations of the source, for any number of threads. The backend
session, the type converters and the clock are parameters.

The files, by topic:

- Result cursor: `Options`, `MachineWords`, `CursorPosition`, `ResultCursor`, `CursorLaws`, `RowsetTiling`,
  `AddressSpans`, `Bookmarks`, `BookmarkRuns`.
- Retrieval: `Unicode`, `Chunking`, `RowReader`, `RetrievalRuns`, `RetrievalContent`.
- Numeric literals: `DecimalText`, `DecimalValue`, `DecimalAnalysis`, `BitLiteral`.
- Data-at-execution and cancellation: `DataAtExecution`, `DeferredRuns`, `Collector`, `Cancellation`,
  `CancellationProgress`.
- Handles and locks: `HandleForest`, `HandleLifecycle`, `HandleLaws`, `HandleRegistry`, `LockLeases`, `LockOrder`,
  `LockCalls`, `CopyDeadlock`.
- Metadata and transactions: `ParameterMerge`, `MetadataCache`, `MetadataLaws`, `Transactions`, `Connections`.
- Tracing and connection strings: `TraceGate`, `TraceLaws`, `ConnectionText`, `ConnectionString`,
  `ConnectionLaws`, `Masking`.

The modules named `...Laws`, `RetrievalContent` and `CancellationProgress` say what an application sees, in
its own terms and without the functions that the methods are proved against.

Positions follow "Cursor Positioning Rules" in the SQLFetchScroll Function section of the Microsoft ODBC
Programmer's Reference; UTF-8 follows section 3 of RFC 3629 and UTF-16 sections 2.1 and 2.2 of RFC 2781.

## Where the driver does less than one might expect

Each of these is proved with a concrete input and the exact condition under which the law does hold.

- A claimed Need Data attempt is not always abandoned by the canceller: its snapshot may predate the
  publication of the input, or its claim may fall in an SQLParamData call that returns because nothing was
  supplied (`EarlySnapshotStrands`, `ClaimDuringEmptyCallStrands`). While the attempt is idle and no reset
  is owed, it has been abandoned exactly when some claim saw the input outside a call
  (`IdleClaimReleasesIff`). It is never dispatched, and the next call on the statement abandons it
  (`ClaimPreventsDispatch`, `NextCallReleases`).
- SQLCopyDesc locks both its arguments before it looks at their types. Copying descriptor 5 of connection 1
  to environment 9 can wait in a circle with SQLEndTran on that environment (`CopyToEnvironmentDeadlocks`).
  For any registry and any two arguments, a circular wait of the two calls is reachable exactly when the
  copy locks a connection of the environment and, at a higher address, the environment (`DeadlockIff`).
  Calls that name one handle, or no environment, never wait in a circle, in any number of threads
  (`OrdinaryCallsNeverDeadlock`).
- A metadata cache hit need not show what a fresh description would. Publishing replaces a parameter's
  described type but keeps its bound dimensions, which then apply: TINYINT of length 3 described as INTEGER
  shows size 10 on the hit and 3 afresh (`HitCanBeStale`). It shows the same exactly when each parameter had
  no earlier record, one of a compatible type, or bound dimensions that change nothing (`HitsAreSound`).
- Origin resolution and two catalog calls reach the session without ending the metadata epoch, so hits stay
  sound only if those calls leave every description unchanged (`InspectionMustBeSilent`).
- Shutdown deletes the trace storage while a caller still holds a sink that a configuration replaced
  (`SnapshotOutlivesStorage`); having reached its check, it deletes exactly when every sink still held was
  replaced or cleared before (`DeletesIffAllReplaced`).
- The transaction flag can lose track of the session: a statement that ends the transaction with a reply of
  unknown state lets the next one out without BEGIN (`DriftingRun`). `AgreementLostIff` lists exactly the two
  ways, and a dispatched statement is safe whatever the session does exactly when its reply is definite
  (`RightExactlyWhenDefinite`).
- On a forward-only cursor with unread rows, NEXT continues at the first of them exactly when the rowset
  size is that of the previous fetch (`ForwardContinuesIff`); otherwise it skips rows, repeats them or finds
  none.
- The bit-literal classifier clamps exponents at one thousand million, so a literal with that many
  mantissa digits can be misjudged (`ClampCounterexample`); `ClassifyExactIff` is the exact condition, and
  shorter literals are always judged right.
- On an empty result, where the positioning tables say nothing, SQL_FETCH_ABSOLUTE with a negative offset
  and some other requests stay before the start; `CursorPosition.EmptyRule` records what the driver does.

## Model

| member | source | states |
|---|---|---|
| CursorPosition.PositionAbsolute | odbc/odbc_handles.cpp:5034-5062 | the unsigned computation for ABSOLUTE gives the position and 01S06 flag of the integer table for every offset, the minimum SQLLEN included |
| CursorPosition.PositionStatic | odbc/odbc_handles.cpp:5034-5113 | for all seven orientations, every total, rowset size, old size, position and offset, the landing is that of the positioning tables, in 64-bit arithmetic without overflow |
| ResultCursor.Cursor.PublishResult | odbc/odbc_handles.cpp:8227-8242 | a new result starts before its first row and keeps the cursor invariant |
| ResultCursor.Cursor.ClearResult | odbc/odbc_handles.cpp:8394-8430 | the statement has no result and no position |
| ResultCursor.Cursor.LocateRowset | odbc/odbc_handles.cpp:5034-5107 | finds the start of the rowset or that there is none, for static and forward-only cursors |
| ResultCursor.Cursor.Fetch | odbc/odbc_handles.cpp:4859-4875 | the cursor state and return code of a fetch before bound columns are converted; refused fetches, a missing bookmark generation included, change nothing |
| ResultCursor.Cursor.MoveRowset | odbc/odbc_handles.cpp:5114-5146 | commits position, actual row count and selected slot together |
| ResultCursor.Cursor.SelectRow | odbc/odbc_handles.cpp:5412-5460 | SQLSetPos selects a slot exactly when it lies in the fetched rowset of a positioned static cursor |
| ResultCursor.Cursor.CommitBulk | odbc/odbc_handles.cpp:4794-4802 | a bulk fetch leaves the cursor unpositioned |
| ResultCursor.Cursor.RowForGetData | odbc/odbc_handles.cpp:5582-5599 | SQLGetData reads the selected row of the rowset, and that row exists |
| ResultCursor.RowNumber | odbc/odbc_handles.cpp:4576-4602 | a row number that is reported is one of the result's rows |
| ResultCursor.RunNamesRealRows | odbc/odbc_handles.cpp:5114-5146 | over every run of publish, clear, fetch, set-position and bulk fetch the cursor invariant holds, and SQLGetData and the row-number attribute name the same real row |
| ResultCursor.BulkStaysUnpositioned | odbc/odbc_handles.cpp:4794-4802 | after a bulk fetch nothing is positioned until a fetch that does not depend on the old position |
| CursorLaws.FirstIsTheFirstRowset | odbc/odbc_handles.cpp:5063-5064 | FIRST delivers the rowset that starts at row 1 |
| CursorLaws.LastEndsAtTheLastRow | odbc/odbc_handles.cpp:5065-5066 | LAST delivers a rowset that ends with the last row, a full one if there are enough rows |
| CursorLaws.AbsoluteStartsThere | odbc/odbc_handles.cpp:5034-5062 | ABSOLUTE n delivers the rowset that starts at row n, or nothing past the end |
| CursorLaws.AbsoluteCountsFromTheEnd | odbc/odbc_handles.cpp:5034-5062 | ABSOLUTE -n counts from the last row; beyond row 1 it delivers the first rowset only while one rowset reaches that far |
| CursorLaws.RelativeMovesByOffset | odbc/odbc_handles.cpp:5067-5080 | RELATIVE k moves the first row by exactly k, and off a rowset it is ABSOLUTE k |
| CursorLaws.PriorEndsJustBefore | odbc/odbc_handles.cpp:5081-5089 | PRIOR delivers the full rowset just before the current one, and after the end the last one |
| CursorLaws.PriorUndoesNext | odbc/odbc_handles.cpp:5081-5096 | NEXT and then PRIOR of one size come back to the same rowset |
| CursorLaws.OverlapIsReportedIff | odbc/odbc_handles.cpp:5150-5152 | 01S06 is reported exactly when the start asked for lies before row 1 and row 1 is still delivered |
| CursorLaws.BookmarkMovesByOffset | odbc/odbc_handles.cpp:5056-5062 | a bookmark with an offset delivers the rowset that many rows away, or nothing |
| CursorLaws.RefusedIff | odbc/odbc_handles.cpp:4859-4875 | the exact cases in which a fetch is refused, and that it then changes nothing |
| RowsetTiling.NextTiles | odbc/odbc_handles.cpp:5090-5107 | successive NEXT calls read consecutive rows without gap or overlap, for any rowset sizes on a static cursor and one size on a forward-only one |
| RowsetTiling.NoDataIsFinal | odbc/odbc_handles.cpp:5125-5144 | once NEXT returned SQL_NO_DATA it keeps doing so |
| RowsetTiling.NextReadsEverything | odbc/odbc_handles.cpp:5090-5107 | from before the start, as many NEXT calls as there are rows deliver every row once, in order, and the next one finds nothing |
| RowsetTiling.ForwardContinuesIff | odbc/odbc_handles.cpp:5090-5107 | when a forward-only NEXT continues exactly at the first unread row |
| RowsetTiling.ForwardGrowthSkipsRows | odbc/odbc_handles.cpp:5090-5107 | a result of five rows on which a larger second rowset skips rows |
| RowsetTiling.ForwardShrinkRepeatsRows | odbc/odbc_handles.cpp:5090-5107 | a result of five rows on which a smaller second rowset repeats one |
| AddressSpans.FieldPreflightExact | odbc/odbc_handles.cpp:4945-5033 | the division-form check passes exactly when base, offset, every slot and extent stay below the address limit |
| AddressSpans.PreflightColumns | odbc/odbc_handles.cpp:4945-5033 | the preflight loop passes exactly when every bound column is addressable in every slot |
| AddressSpans.FieldAddress | odbc/odbc_handles.cpp:5242-5256 | after a passed preflight the address formed for any slot is the intended one, in range |
| AddressSpans.BulkField | odbc/odbc_handles.cpp:4722-4736 | bulk fetch forms a slot's address exactly when it is in range |
| AddressSpans.LastSlotCoversAll | odbc/odbc_handles.cpp:4722-4736 | checking the last slot is checking all of them |
| AddressSpans.ParameterShift | odbc/odbc_handles.cpp:6160-6177 | array parameters form a slot's address exactly when it is in range |
| AddressSpans.AdvanceBySlot | odbc/odbc_handles.cpp:7165-7176 | the array preflight advances by whole slots without wrapping |
| Bookmarks.DecodesEncoded | odbc/odbc_handles.cpp:89-96 | reading back a written 64-bit value gives it again |
| Bookmarks.EncodesDecoded | odbc/odbc_handles.cpp:92-96 | any eight bytes are the encoding of what they decode to |
| Bookmarks.WriteInteger | odbc/odbc_handles.cpp:89-91 | the shifting loop writes the big-endian bytes in place and touches no others |
| Bookmarks.ReadInteger | odbc/odbc_handles.cpp:92-96 | the accumulating loop decodes eight bytes and stays below 2^64 |
| Bookmarks.BookmarkFor | odbc/odbc_handles.cpp:5508-5514 | the 24-byte token is the statement identity, the generation and the row ordinal |
| Bookmarks.TokenParts | odbc/odbc_handles.cpp:4892-4905 | a token decodes to the three numbers it was made of |
| BookmarkRuns.IdsStayDistinct | odbc/odbc_handles.cpp:4367-4382 | no two statements ever share a bookmark identity |
| BookmarkRuns.AcceptedIff | odbc/odbc_handles.cpp:4892-4905 | over every run, a statement accepts a handed-out token exactly when it handed it out itself and that result is still current, and then at the token's row |
| BookmarkRuns.RunKeepsInv | odbc/odbc_handles.cpp:8212-8218 | generations and identities are never reused |
| BookmarkRuns.TokenReturnsToItsRow | odbc/odbc_handles.cpp:4892-4905 | fetching by an accepted token at offset 0 positions at its row |
| Unicode.NextCodePoint | sdk/src/util/utf8.cpp:5-38 | the decoder loop reads exactly the well-formed sequences |
| Unicode.DecodesEncoding | sdk/src/util/utf8.cpp:5-38 | every scalar value's UTF-8 form decodes to it |
| Unicode.DecodesOnlyEncodings | sdk/src/util/utf8.cpp:5-38 | whatever decodes is the UTF-8 form of the result: no overlong, surrogate or truncated form is accepted |
| Unicode.WideConverts | odbc/unicode.cpp:109-133 | converting the UTF-8 of a text gives the UTF-16 of that text |
| Unicode.WideIsPaired | odbc/unicode.cpp:109-133 | converted text has no lone surrogates |
| Unicode.Utf16RoundTrip | odbc/unicode.cpp:109-133 | decoding the UTF-16 form of a scalar value, as in section 2.2 of RFC 2781, gives it again |
| Unicode.StandardExamples | odbc/unicode.cpp:109-133 | the encodings are those of the examples in RFC 3629 and RFC 2781 |
| Chunking.DrainConserves | odbc/odbc_handles.cpp:5752-5783 | for every sequence of buffer lengths the chunks concatenate to the part of the value delivered so far |
| Chunking.IndicatorIsUnread | odbc/odbc_handles.cpp:5752-5783 | each indicator is the number of bytes still unread before the call |
| Chunking.DrainCompletes | odbc/odbc_handles.cpp:5929-5953 | usable buffers reach the end within as many calls as there are units |
| Chunking.HexChunksAreWholeBytes | odbc/odbc_handles.cpp:5676-5680 | a chunk of hexadecimal text holds whole bytes |
| Chunking.PairsAreNeverSplit | odbc/odbc_handles.cpp:5785-5908 | a chunk never ends between the halves of a surrogate pair |
| RowReader.CountUnits | odbc/odbc_handles.cpp:5785-5908 | validates a cell and counts its UTF-16 units |
| RowReader.StreamIsChunk | odbc/odbc_handles.cpp:5785-5908 | the units streamed into a buffer are the chunk whole conversion would give |
| RowReader.CopyChunk | odbc/odbc_handles.cpp:5929-5953 | one whole-conversion call returns the specified chunk, indicator and progress |
| RowReader.StreamChunk | odbc/odbc_handles.cpp:5785-5908 | one streaming call returns the same chunk, indicator and progress |
| RowReader.Reader.GetValue | odbc/odbc_handles.cpp:5646-5680 | both paths leave the state whole conversion would, and the remaining-unit counter is the UTF-16 length of the unread suffix |
| RowReader.Reader.GetData | odbc/odbc_handles.cpp:5752-5953 | SQLGetData on a column is whole-cell conversion, whichever path ran and whatever other columns were read in between |
| RowReader.Reader.GetBookmarkData | odbc/odbc_handles.cpp:5515-5574 | the bookmark column hands out its 24-byte token like any value |
| RetrievalRuns.GetRunIsDrain | odbc/odbc_handles.cpp:5646-5680 | consecutive calls on one column return its chunks in order and then SQL_NO_DATA for ever |
| RetrievalRuns.RetrievalConserves | odbc/odbc_handles.cpp:5752-5783 | with enough usable buffers a retrieval that starts over delivers parts that concatenate to the value, and the next call reports SQL_NO_DATA |
| RetrievalRuns.PartsAreWholeBytes | odbc/odbc_handles.cpp:5676-5680 | for every row and every buffer lengths, each part of a binary column read as text holds whole bytes |
| RetrievalRuns.PartsEndBetweenCharacters | odbc/odbc_handles.cpp:5785-5908 | for every row and every buffer lengths, no part of a column read as wide text ends inside a surrogate pair |
| RetrievalRuns.PartsReportUnread | odbc/odbc_handles.cpp:5752-5783 | each part's indicator is the number of bytes the earlier parts left unread |
| RetrievalRuns.OtherColumnRestarts | odbc/odbc_handles.cpp:5646-5654 | reading another column abandons a partial retrieval |
| RetrievalRuns.BookmarkRunIsDrain | odbc/odbc_handles.cpp:5561-5574 | a token is delivered chunk by chunk, then SQL_NO_DATA |
| RetrievalContent.TextIsItself | odbc/odbc_handles.cpp:5752-5783 | a text column read as SQL_C_CHAR delivers its own bytes, for every sequence of usable buffers |
| RetrievalContent.RawIsItself | odbc/odbc_handles.cpp:5752-5783 | any column read as SQL_C_BINARY delivers its own bytes |
| RetrievalContent.BinaryTextIsHex | sdk/internal/odbcpp/util/hex.h:30-42 | a binary column read as narrow or wide text delivers two hexadecimal digits for each byte, the high one first |
| RetrievalContent.WideTextIsUtf16 | odbc/odbc_handles.cpp:5785-5908 | a text column read as SQL_C_WCHAR delivers the UTF-16 form of its text |
| RetrievalContent.PartsFillTheBuffer | odbc/odbc_handles.cpp:5929-5953 | a part and its terminator fit the buffer, and an unfinished part leaves no room for two more items |
| RetrievalContent.LastPartIff | odbc/odbc_handles.cpp:5929-5953 | a part is the last one exactly when it leaves nothing unread and had room for its terminator |
| RetrievalContent.NullIsReportedOnce | odbc/odbc_handles.cpp:5688-5697 | a NULL is reported once through the indicator and then SQL_NO_DATA; without an indicator it is an error that changes nothing |
| RetrievalContent.TypeChangeIsRefused | odbc/odbc_handles.cpp:5648-5654 | the target type may not change between the parts of one value |
| DecimalText.ParseReadsSpelling | odbc/odbc_handles.cpp:176-254 | every spelling of the numeric literal grammar is read as what it means |
| DecimalText.ParseSound | odbc/odbc_handles.cpp:176-254 | whatever is read is a spelling of the grammar |
| DecimalValue.DigitsDecideRepresentable | odbc/odbc_handles.cpp:6811-6839 | the whole and fractional digit counts fit exactly when the rational value is representable as DECIMAL(p,s) |
| DecimalAnalysis.DecimalDigits | odbc/odbc_handles.cpp:176-254 | the scanning loops accept the grammar and count digits exactly, up to saturation that no check can see |
| DecimalAnalysis.CheckDecimal | odbc/odbc_handles.cpp:6811-6839 | a character parameter passes exactly when it is a literal whose value is representable, with the error otherwise |
| BitLiteral.Classify | odbc/odbc_handles.cpp:762-821 | the classifier accepts the same language and returns the verdict under the clamped exponent |
| BitLiteral.VerdictIsValueClass | odbc/odbc_handles.cpp:762-821 | without the clamp the verdict is the class of the rational value |
| BitLiteral.ClassifyExactIff | odbc/odbc_handles.cpp:762-821 | the clamp leaves the verdict right exactly when the exponent is within it, the literal is zero or negative, or its leading zeroes lie beyond both exponents or before both |
| BitLiteral.ClassifyExact | odbc/odbc_handles.cpp:762-821 | Zero and One mean 0 and 1 for every literal of fewer than a thousand million digits |
| BitLiteral.ClampCounterexample | odbc/odbc_handles.cpp:762-821 | a spelling of 1 that is judged a fraction |
| DataAtExecution.CallsKeepBoundary | odbc/odbc_handles.cpp:3879-4055 | at every call boundary converted plus raw bytes fit the total, raw bytes are those of the requested piece and converted bytes those of the values |
| DataAtExecution.FinishKeepsBoundary | odbc/odbc_handles.cpp:3960-3990 | converting a piece, scalar or array, keeps the budgets |
| DataAtExecution.PutAppends | odbc/odbc_handles.cpp:3879-3943 | a successful SQLPutData appends exactly the units its argument stands for to the requested piece and changes nothing else; a length of n bytes adds n raw bytes |
| DataAtExecution.PutAcceptedIff | odbc/odbc_handles.cpp:3890-3915 | an undisturbed SQLPutData succeeds exactly when it is the first and only NULL, or adds to data that is not NULL, has a buffer, is well formed for its C type and fits both limits |
| DataAtExecution.ParamProceedsIff | odbc/odbc_handles.cpp:3945-3990 | an undisturbed SQLParamData goes on exactly when the requested piece was supplied and its conversion exists and fits |
| DeferredRuns.DeferredAscends | odbc/odbc_handles.cpp:3992-3994 | the request list is ascending, complete and carries each parameter's token |
| DeferredRuns.EveryRun | odbc/odbc_handles.cpp:3879-4055 | over every run, requests are a prefix of that list, data is taken only for the parameter last asked for, and the one dispatch comes last and binds each parameter to the conversion of the concatenation of its pieces |
| DeferredRuns.CollectedFromCalls | odbc/odbc_handles.cpp:3879-3943 | over every run the collected data of a parameter is the concatenation of what the arguments of its successful SQLPutData calls stand for, NULL exactly when one of them was |
| DeferredRuns.DispatchedFromCalls | odbc/odbc_handles.cpp:3960-4012 | a dispatch binds every deferred parameter to NULL if a call said so, and otherwise to the conversion of what its calls stand for |
| Collector.ScanTerminated | odbc/odbc_handles.cpp:3908-3920 | a null-terminated piece is accepted exactly when it fits what is available |
| Collector.PendingInput.PutDataCall | odbc/odbc_handles.cpp:3879-3943 | success appends exactly the units the argument stands for to the requested piece, or records NULL, and changes nothing else; otherwise it is refused out of sequence without change or abandons the execution |
| Collector.PendingInput.Materialize | odbc/odbc_handles.cpp:3960-3990 | the requested piece becomes a value within the budget and its raw bytes are released |
| Collector.PendingInput.RequestNext | odbc/odbc_handles.cpp:3994-4012 | the next deferred parameter is asked for with its token, or the values are handed over |
| Collector.PendingInput.ParamDataCall | odbc/odbc_handles.cpp:3945-4055 | the whole effect and reply of SQLParamData |
| Collector.ConvertOrdinary | odbc/odbc_handles.cpp:3820-3850 | ordinary parameters are converted under the shared budget, or one of them does not fit |
| Collector.StartCollection | odbc/odbc_handles.cpp:3745-3852 | nothing is collected exactly when no parameter is deferred, that is not NULL and of length -2 or at most -100; a collection that starts holds each token with no data, and the ordinary values within budget, in the state the runs start from |
| Cancellation.RunKeepsInv | odbc/odbc_handles.cpp:3545-3672 | the protocol invariant holds over every interleaving of the owner and any number of cancellers |
| Cancellation.ClaimPreventsDispatch | odbc/odbc_handles.cpp:3640-3647 | a claimed attempt has issued no BEGIN and no query and never will; its input is released at most once |
| Cancellation.DispatchPreventsClaim | odbc/odbc_handles.cpp:4013-4027 | once an attempt has dispatched, its preparing phase is closed and no claim can be made |
| Cancellation.ClaimIsStable | odbc/odbc_handles.cpp:3565-3569 | a claim is never withdrawn, and none is made after the phase is closed |
| Cancellation.IdleClaimReleasesIff | odbc/odbc_handles.cpp:3648-3672 | when an idle claimed input has been released |
| Cancellation.NextCallReleases | odbc/odbc_handles.cpp:3732-3742 | the owner's next call on an idle claimed attempt ends with the input released exactly once and nothing dispatched, whatever cancellers do meanwhile |
| Cancellation.EarlySnapshotStrands | odbc/odbc_handles.cpp:3636-3646 | an interleaving that leaves a claimed attempt idle: the snapshot predates publication |
| Cancellation.ClaimDuringEmptyCallStrands | odbc/odbc_handles.cpp:3956-3959 | another: the claim falls in a call that finds nothing supplied |
| CancellationProgress.CancelInTimeStops | odbc/odbc_handles.cpp:3640-3647 | a cancel whose second step falls before the gate of an attempt that the server can cancel or that is in Need Data stops it: on every continuation nothing is dispatched |
| CancellationProgress.DispatchableIff | odbc/odbc_handles.cpp:4013-4027 | before its gate an attempt can still be dispatched exactly when nobody claimed it, in every mode and reachable state |
| CancellationProgress.UncancelledDispatches | odbc/odbc_handles.cpp:3565-3569 | an execution that nobody cancels has a run to dispatch, in each of the three modes |
| HandleForest.UnderAgrees | odbc/odbc_handles.cpp:9484-9497 | ancestry does not depend on the rest of the registry |
| HandleForest.UnderSomeChild | odbc/odbc_handles.cpp:9484-9497 | a descendant lies below a child |
| HandleLifecycle.AllocStatementKeepsWf | odbc/odbc_handles.cpp:1943-1969 | a new statement and its four implicit descriptors keep the registry well formed |
| HandleLifecycle.DetachKeepsWf | odbc/odbc_handles.cpp:9520-9540 | after detaching, no statement refers to the descriptor and all of them still resolve theirs |
| HandleLifecycle.RemovalKeepsWf | odbc/odbc_handles.cpp:9484-9497 | removing a downward-closed set nobody refers to keeps the registry well formed |
| HandleLifecycle.FreeKeepsWf | odbc/odbc_api.cpp:778-817 | freeing any handle keeps the registry well formed |
| HandleLifecycle.DisconnectKeepsWf | odbc/odbc_api.cpp:1014-1023 | disconnecting keeps the registry well formed |
| HandleLifecycle.AssociateKeepsWf | odbc/odbc_handles.cpp:4461-4493 | associating an application descriptor keeps the registry well formed |
| HandleLifecycle.RunKeepsWf | odbc/odbc_api.cpp:657-746 | over every run of allocation, freeing, disconnecting and association the registry is a typed forest closed under parents and every live statement's descriptors resolve |
| HandleLifecycle.FreeRemovesSubtree | odbc/odbc_api.cpp:778-817 | a successful free removes exactly the handle and its descendants |
| HandleLifecycle.FreeTakesOnlyImplicit | odbc/odbc_api.cpp:778-817 | only a statement takes others with it, its implicit descriptors |
| HandleLaws.AssociateChangesOne | odbc/odbc_handles.cpp:4461-4493 | association succeeds exactly with null, the automatic descriptor or an explicit one of the same connection, changes exactly the row or parameter descriptor asked for, and nothing else |
| HandleLaws.FreeSucceedsIff | odbc/odbc_api.cpp:778-817 | the exact cases in which a handle can be freed |
| HandleLaws.FreedDescriptorIsReplaced | odbc/odbc_handles.cpp:9520-9540 | statements that used a freed descriptor go back to their automatic one, row and parameter side apart; every other survivor is unchanged |
| HandleLaws.FreeLeavesOthers | odbc/odbc_api.cpp:778-817 | freeing any other handle leaves every survivor as it was |
| HandleLaws.AllocStatementMeans | odbc/odbc_api.cpp:705-715 | a statement is allocated exactly on an open connection and starts with its automatic descriptors in use |
| HandleLaws.AllocMeans | odbc/odbc_api.cpp:657-746 | a connection is allocated exactly below an environment whose version is set, a descriptor exactly below an open connection |
| HandleLaws.DisconnectMeans | odbc/odbc_api.cpp:1014-1023 | a disconnected connection keeps its handle and loses everything below it, and nothing else is lost |
| HandleRegistry.Table.CollectSubtree | odbc/odbc_handles.cpp:9484-9497 | the recursive collection terminates and removes exactly the subtree |
| HandleRegistry.Table.CollectChildren | odbc/odbc_handles.cpp:9449-9461 | removes exactly what lies below a handle and keeps the handle |
| HandleRegistry.Table.ConnectionFor | odbc/odbc_handles.cpp:9505-9518 | the walk up finds the connection a handle belongs to |
| HandleRegistry.Table.DetachFromStatements | odbc/odbc_handles.cpp:9520-9540 | the statements of the descriptor's connection, and only they, fall back to their automatic descriptors |
| HandleRegistry.Table.FreeHandle | odbc/odbc_api.cpp:778-817 | every refusal and every success of SQLFreeHandle, with the new registry |
| HandleRegistry.Table.DisconnectHandle | odbc/odbc_api.cpp:1014-1023 | a successful SQLDisconnect leaves the connection without dependents |
| HandleRegistry.Table.SetApplicationDescriptor | odbc/odbc_handles.cpp:4461-4493 | null and the automatic descriptor reset; otherwise only a live explicit descriptor of the same connection is taken |
| HandleRegistry.Table.NewStatement | odbc/odbc_api.cpp:705-715 | refuses a missing or closed connection, else registers the statement and its descriptors |
| LockLeases.LockHandles | odbc/odbc_handles.cpp:9546-9574 | the locks taken are exactly the union of the ancestor chains up to the connection, in ascending order, despite the early break |
| LockLeases.LockChain | odbc/odbc_handles.cpp:9552-9563 | stopping at a handle already taken loses nothing |
| LockLeases.SameConnectionSharesLock | odbc/odbc_handles.cpp:9546-9574 | any two operations under one connection share its lock |
| LockLeases.LeaseEnvironments | odbc/odbc_handles.cpp:9552-9563 | a lease locks an environment only if the call names it |
| LockOrder.RankedIff | odbc/odbc_handles.cpp:9566-9573 | ascending addresses put environments first exactly when none follows another handle |
| LockOrder.LeasesAreRanked | odbc/c_api_guard.h:94-160 | a call that names no environment, or one environment alone, takes its locks in rank order |
| LockCalls.CallsAreDisciplined | odbc/c_api_guard.h:94-160 | entry points, calls inside calls and environment-wide completion, each on the registry it sees, ask only for locks held or ranked above those held |
| LockCalls.ConnectionLocks | odbc/odbc_api.cpp:1158-1163 | environment-wide completion locks exactly the environment's connections |
| LockOrder.NoCircularWait | odbc/odbc_handles.cpp:9566-9573 | no reachable state of any number of threads that request in that way has a circular wait |
| LockCalls.OrdinaryCallsNeverDeadlock | odbc/odbc_api.cpp:1158-1170 | no run of calls that name one handle or no environment, in any number of threads and on any registries, reaches a circular wait |
| CopyDeadlock.DeadlockIff | odbc/odbc_api.cpp:3539-3545 | for every registry, a circular wait of SQLCopyDesc and SQLEndTran on an environment is reachable exactly when the copy locks a connection of it and, at a higher address, the environment |
| CopyDeadlock.CircleIsCrossed | odbc/odbc_api.cpp:1158-1170 | a circle of the two calls means the copy holds a connection and wants its environment |
| CopyDeadlock.CrossedCanDeadlock | odbc/odbc_api.cpp:3539-3545 | an interleaving that reaches the circle |
| CopyDeadlock.CopyToEnvironmentDeadlocks | odbc/odbc_api.cpp:3806 | a registry of three handles in which it happens |
| ParameterMerge.MergeAgain | odbc/odbc_handles.cpp:1691-1726 | describing a parameter again shows the same exactly when it had no earlier record, one of a compatible type, or bound dimensions that change nothing |
| ParameterMerge.TinyIntIsUnsettled | odbc/odbc_handles.cpp:1126-1128 | a TINYINT of length 3 described as INTEGER changes size on the second description |
| ParameterMerge.TypesStay | odbc/odbc_handles.cpp:8325-8333 | publishing a description keeps the types the next one sends |
| ParameterMerge.MergeParameters | odbc/odbc_handles.cpp:8313-8336 | the staging loops show and leave the merged parameters |
| MetadataLaws.UnrelatedIsNative | odbc/odbc_handles.cpp:1691-1705 | a parameter without an earlier record, or with one of an unrelated type, is shown as described |
| MetadataLaws.BoundDimensionsShow | odbc/odbc_handles.cpp:1706-1726 | which bound dimension gives the size and the digits shown, type by type, and that the rest is as described |
| MetadataCache.DescribeKeepsInv | odbc/odbc_handles.cpp:8531-8609 | describing, hit or miss, keeps every statement's record of what was merged sound |
| MetadataCache.HitsAreSound | odbc/odbc_handles.cpp:8535-8542 | over every run whose inspections leave descriptions alone, a hit shows the columns of a fresh description, and its parameters exactly when each was settled when published; no epoch-ending operation ran since, and no other statement can hit |
| MetadataCache.HitCanBeStale | odbc/odbc_handles.cpp:8535-8542 | a run on which a hit shows another parameter size than a fresh description would |
| MetadataCache.InspectionMustBeSilent | odbc/odbc_handles.cpp:2704-2709 | after a call that leaves the epoch the statement still hits, and is right exactly when that call changed no description of it |
| MetadataCache.ParameterTypes | odbc/odbc_handles.cpp:8552-8564 | the types sent are the application's bindings, unspecified elsewhere |
| MetadataCache.PreparedMetadata.BackendCall | odbc/odbc_handles.cpp:2678-2703 | after an epoch-ending backend operation no statement hits, whatever the session became |
| MetadataCache.PreparedMetadata.DescribePrepared | odbc/odbc_handles.cpp:8531-8609 | a hit changes nothing; a miss succeeds exactly when the session answers with one type for each marker, and then shows its columns and the answer merged with the records bound at the call |
| MetadataLaws.DescribeShows | odbc/odbc_handles.cpp:8531-8609 | a successful description shows the session's own columns and one parameter of the described type for each marker, and leaves other statements alone |
| MetadataLaws.RefusedLeavesStatements | odbc/odbc_handles.cpp:8567-8592 | a failed or miscounted description ends the epoch and leaves every statement as it was |
| MetadataLaws.DescribedHits | odbc/odbc_handles.cpp:8594-8608 | after a successful description the statement hits exactly when the session is connected, and describing it again asks nothing |
| MetadataLaws.HitLasts | odbc/odbc_handles.cpp:8535-8542 | a statement keeps hitting through everything that neither ends the epoch nor touches it |
| MetadataLaws.HitEnds | odbc/odbc_handles.cpp:8535-8542 | it stops hitting with every operation that ends the epoch, and when its own text, records or result change |
| MetadataLaws.HitShowsColumns | odbc/odbc_handles.cpp:8535-8542 | over every run a hit shows the very columns the session would describe now |
| Transactions.RunKeepsInv | odbc/odbc_handles.cpp:2781-2873 | over every run an active transaction means connected and manual-commit; unless something drifted the flag is the session's own state, and each statement dispatched in manual-commit mode went into an open transaction |
| Transactions.AgreementLostIff | odbc/odbc_handles.cpp:2817-2829 | an operation breaks the agreement of flag and session exactly when a statement ends the transaction under an indefinite reply, or manual-commit mode is entered with a transaction open |
| Transactions.RightExactlyWhenDefinite | odbc/odbc_handles.cpp:2817-2829 | whatever the session does, a dispatched statement leaves the flag right exactly when its reply is definite |
| Transactions.DispatchIsOpen | odbc/odbc_handles.cpp:2781-2815 | a statement may be dispatched in manual-commit mode only into an open transaction |
| Transactions.ExecuteSends | odbc/odbc_handles.cpp:4101-4158 | what executing one statement sends, message by message: the statement alone under autocommit or in a transaction, else BEGIN and, exactly when it is confirmed, the statement; nothing without a connection |
| Transactions.DriftingRun | odbc/odbc_handles.cpp:4134-4135 | a run on which a statement is dispatched outside any transaction |
| Transactions.EndMeans | odbc/odbc_handles.cpp:2831-2873 | completion sends exactly the COMMIT or ROLLBACK asked for, once, exactly when there is a transaction to complete; success leaves none, failure leaves the flag right or the connection closed |
| Transactions.AutocommitCommitsFirst | odbc/odbc_handles.cpp:2437-2454 | turning autocommit on sends exactly one COMMIT when a transaction is open and then takes effect only if it completes; a change of mode sends nothing else |
| Transactions.DisconnectKeepsWork | odbc/odbc_handles.cpp:2875-2888 | disconnecting closes the connection exactly when it is open, nothing is pending and no transaction of a live session would be lost; otherwise nothing changes |
| Connections.Connection.BeginIfNeeded | odbc/odbc_handles.cpp:2781-2815 | keeps flag and session in agreement, and permits a dispatch in manual-commit mode only into an open transaction |
| Connections.Connection.ReconcileState | odbc/odbc_handles.cpp:2817-2829 | after a definite report the flag is the session's own state; an indefinite one, or autocommit, leaves it alone |
| Connections.Connection.ExecuteScalar | odbc/odbc_handles.cpp:4101-4158 | exactly the messages that must go out do, the statement in manual-commit mode only into an open transaction, and the flag is right afterwards exactly when the reply did not hide the transaction's end |
| Connections.Connection.EndTransaction | odbc/odbc_handles.cpp:2831-2873 | keeps invariant and agreement, sends exactly the completion asked for and only with a transaction open, and leaves none on success |
| Connections.Connection.SetAutocommitMode | odbc/odbc_handles.cpp:2437-2454 | turning autocommit on sends exactly a COMMIT for an open transaction, on an idle session, or is refused with flag and session still in agreement |
| Connections.AggregateMeans | odbc/odbc_api.cpp:1179-1203 | the aggregate that the environment-wide call returns is an error exactly when some child failed, plain success exactly when all were |
| Connections.EndEnvironment | odbc/odbc_api.cpp:1158-1203 | refuses before touching any child, or sends each connected child with an open transaction exactly the completion asked for, once, and returns the aggregate of their codes, an error exactly when some child fails |
| Connections.EndedAsksOnce | odbc/odbc_handles.cpp:2831-2873 | a child with an open transaction is sent exactly the completion asked for, and fails exactly when the backend does |
| TraceGate.NextKeepsInv | odbc/odbc_trace.cpp:746-822 | every step of every thread keeps the gate invariant |
| TraceGate.GateIsSafe | odbc/odbc_trace.cpp:378-402 | in every reachable state the low bits count the admitted users without carry, no user finds the storage deleted, deletion happened only behind a closed gate without users, every sink still held then was replaced or cleared before, and at most one shutdown did anything |
| TraceGate.DeletesIffAllReplaced | odbc/odbc_trace.cpp:772-781 | a shutdown that reaches its check deletes the storage exactly when every sink still held was replaced or cleared by an earlier configuration |
| TraceGate.SnapshotOutlivesStorage | odbc/odbc_trace.cpp:772-781 | a run that deletes the storage while a caller holds a replaced sink |
| TraceGate.TryLockSucceeds | odbc/odbc_trace.cpp:769-773 | shutdown's attempt on the storage mutex cannot fail |
| TraceLaws.AdmittedIff | odbc/odbc_trace.cpp:746-758 | a caller without interference is admitted exactly when the gate is open and the count has room below the closed bit; otherwise nothing changes |
| TraceLaws.TurnIff | odbc/odbc_trace.cpp:746-758 | a turn of the admission loop admits, gives up or tries again, each exactly when |
| TraceLaws.ClosedAdmitsNobody | odbc/odbc_trace.cpp:746-762 | on every continuation a closed gate stays closed and its users only become fewer |
| TraceLaws.AnswersAtOnce | odbc/odbc_trace.cpp:764-769 | shutdown closes the gate and answers AlreadyStopped exactly when it was closed, Busy when it had users |
| TraceLaws.ShutdownAnswers | odbc/odbc_trace.cpp:764-786 | whatever the other threads do, a shutdown that closes an empty gate returns within four steps of its own; it answers Unused exactly when nothing was allocated, Retired exactly when it deleted the storage, Busy while the installed sink is held, and Retired when it was not |
| ConnectionText.ScanPair | odbc/connection_string.cpp:51-98 | a key and a sealed value are read back as that pair, whatever follows the separator |
| ConnectionText.ScanForms | odbc/connection_string.cpp:51-98 | every string splits into junk, pairs or an unterminated brace, losing nothing |
| ConnectionString.ReadValue | odbc/connection_string.cpp:62-99 | a value is read exactly when it is terminated and nothing follows its brace |
| ConnectionString.ParseString | odbc/connection_string.cpp:44-106 | the parser's loops compute the entries of the grammar, the first value of a key winning |
| ConnectionLaws.ParseReadsSettings | odbc/connection_string.cpp:44-106 | every spelling of a list of settings, with blanks, braces and doubled braces, is read back as that list: keys in capitals, values as meant, in order |
| ConnectionLaws.LookupIgnoresCase | odbc/connection_string.cpp:226-239 | looking a parameter up in any letter case yields the value of the first setting of that name |
| ConnectionLaws.TrimReads | odbc/connection_string.cpp:226-232 | blanks around a text are not part of it |
| ConnectionLaws.TrimSplits | odbc/connection_string.cpp:226-232 | every text is its trimmed core with blanks around it |
| ConnectionString.MaskString | odbc/odbc_trace.cpp:893-951 | the masker's loops compute the masked string |
| Masking.MaskIsIdempotent | odbc/odbc_trace.cpp:893-951 | masking twice is masking once, on every string |
| Masking.MaskCommutesWithParse | odbc/odbc_trace.cpp:893-951 | parsing the masked string gives the same entries with exactly the secret values starred |
| Masking.MaskedIsAccepted | odbc/connection_string.cpp:44-106 | whatever the parser accepts it accepts masked, NUL check included |
| Masking.MaskedParameters | odbc/odbc_trace.cpp:678-684 | the parameters are the same, first wins, with exactly the password-like ones starred |
| Masking.RejectedIff | odbc/odbc_trace.cpp:935-939 | the parser rejects exactly unterminated braces and stray text, so the masker gives up only on rejected strings |
| Masking.MaskHidesSecrets | odbc/odbc_trace.cpp:942-946 | strings that differ only in secret values are masked alike |
| ConnectionLaws.SecretIff | odbc/odbc_trace.cpp:678-684 | a key is secret exactly when its trimmed text is PWD or holds PASSWORD, SECRET or TOKEN, in any letter case |
| ConnectionLaws.SecretShowsStars | odbc/odbc_trace.cpp:942-946 | the value of a secret key shows as three stars, whatever its letter case, blanks, value and what follows |

## Left out

- The backend session, SQL dialect and wire protocol: replies are parameters, any that the session could give.
- The type converters: a converter is any function from collected units to bytes; its own limit checks are a refusal that may strike any call.
- Bound-column conversion and the return-code aggregation of bound rows: only addresses and positions are modelled.
- Numeric, date, time and GUID sources of SQLGetData, which are returned in one piece.
- Fixed (4-byte) bookmarks, which name a row without identity or generation.
- 32-bit builds: `size_t`, `uintptr_t` and SQLLEN are 64 bits wide, SQLWCHAR two bytes.
- Allocation failure and exceptions, except where they discard pending state.
- Server-side cancellation once an attempt was dispatched: only local claims and the phase transition are modelled.
- The registry mutex: each registry operation is one step, and statement allocation registers its descriptors in the same step.
- A schema changed by another session: a description depends on the statement, its bound types and this session's state.
- Wrap-around of the 64-bit IPD revision and metadata epoch counters.
- Native type names and catalog text of a described parameter: a parameter is its type, size, digits, nullability and name.
- CopyDeadlock.DeadlockIff: nested calls of the two threads, which repeat locks already held and never wait, are not steps of its runs.
- The table of functions refused while data is needed, and the status and rows-processed arrays of a parameter array.
- Connection attributes, DSN files, TLS, logging, catalog functions and information tables are out of scope.
- ResultCursor.Cursor.Fetch: the return codes of bound-column conversion are not part of it; a fetch is specified up to the position it commits.
- BitLiteral.Classify: literals of 2^60 characters or more are outside its precondition, far above any parameter limit.
- DecimalAnalysis.CheckDecimal: text, precision and scale together must stay below the address limit, as any buffer does.
- Collector.PendingInput.PutDataCall: the address-range checks on the caller's buffer are left to AddressSpans; the buffer's units are given as a sequence.
- BookmarkRuns.AcceptedIff: a statement's bookmark fields are values here, and the compare-and-exchange that assigns an identity is one step.
- LockCalls.OrdinaryCallsNeverDeadlock: locks are named by address and type; a mutex at a reused address counts as the same lock.
