# ScratchBird drivers: a verified model

This project models the parts of the ScratchBird Go driver and command-line tools in which
state, text or bytes are transformed step by step, and proves what these parts are for. Code
that updates variables, objects or buffers is modelled by classes, arrays and loops, each
proved against a function; the theorems are about these functions and hold for every input,
every run or every client.

| area | modules |
|---|---|
| shared | `Wrappers`, `Messages`, `Bits`, `TextSplit`, `Decimal` |
| connection and result sets (Go) | `Session`, `Connection`, `TransactionRuns`, `ResultStream`, `ResultRows` |
| circuit breaker (Go) | `CircuitBreaker` |
| query rewriting (Go) | `ParameterRewriting`, `ParameterPieces` |
| wire formats (Go, C++) | `Wire`, `Frames`, `BindPayload`, `RowCodec`, `SentRows`, `ArrayDecoding` |
| SCRAM-SHA-256 (Go) | `KeyDerivation`, `ScramText`, `Scram` |
| statement lexer and text tools (C++) | `StatementSplitter`, `StatementPrinting`, `StatementLiterals`, `PlaceholderRendering`, `CsvCopy`, `CsvPieces` |
| CRC-32C (C++) | `ShiftRegister`, `Crc32c`, `Polynomials`, `Crc32cDivision` |
| transactional test runner (C++) | `TxnExec`, `TxnCases` |
| schema navigation trees (C++ and Go) | `SchemaPaths`, `SchemaForest`, `SchemaRows`, `SchemaNavigation`, `SchemaTree`, `SchemaPreorder` |

`dafny verify dfyconfig.toml` checks all of it. Each file opens with a comment that says what
it models. "Run", "stream" and "behaviour" below always mean all of them.

Where the code does not meet the property one would expect of it, the code is kept as it is, an
input shows the failure, and the exact condition under which the property holds is proved:

- Replacing `$n` down to `$1` one after the other is simultaneous substitution only for some
  templates: in `$1$11` with `$1` = `0` and `$11` = `0`, the literal put for `$11` turns `$1` into
  `$10`. For literals without a `$` (that of `$1` may hold one),
  `PlaceholderRendering.RendersExactlyWhenSafe` gives the condition on the template. A literal that
  holds `$1` is itself replaced: `$1$2` with the number 0 and the string `$1` becomes `0'0'`
  (`DollarLiteralIsReplaced`). For all literals whatever the condition is that there is no
  placeholder but `$1`: `RendersAllLiteralsExactlyWhen`.
- `QueryMultiContext` takes a socket closed between two messages for the end of the results:
  `ResultStream.TruncationReportedAsSuccess`. `TruncationIsSuccessExactlyWhen` says for every
  stream, with any write faults, when a call whose stream has no READY succeeds: exactly if the
  peer closed the socket and no message before is broken. A frame cut right behind its header
  looks the same to it: `Frames.TruncatedFrame`.
- `QueryMultiContext` does not return one summary per completion for every error-free response: a
  message that it skips behind the last completion yields a further summary
  (`ResultStream.SkippedMessageAddsASummary`), and so does a READY without any completion
  (`BareReadyYieldsOneSummary`). `QueryMultiSplitsTheStream` says that there is one per
  completion exactly if something was completed and nothing but READY follows the last
  completion, and what the further summary is otherwise.
- Two begins in a row succeed when the first answer leaves the driver without an active
  transaction: a READY that reports none, or one whose body does not parse
  (`TransactionRuns.TwoBeginsCanSucceed`). `TwoBeginsSucceedExactlyWhen` gives the condition on
  the messages, and `BeginFollowsReady` what the driver believes after any answer.
- Outcomes of calls from before a half-open episode take its slot counter below zero. A run of
  the circuit breaker can so end with no call out and no request admitted any more exactly if
  at least three successes are needed to close, or if there is no slot at all:
  `CircuitBreaker.StrayOutcomeJams`. The default configuration needs three. The counter is always
  the number of probes out minus the stray outcomes modulo 2^32: `SlotsCountProbes`.
- The column names and the records of a `\copy` file are loaded as they were exported exactly when
  there is a column, no column name holds a quote or a newline, no field holds a newline, and no
  field is the empty string: `CsvCopy.CopyRestoresRecords`. The reader of the header drops doubled
  quotes (`QuotedNameIsChanged`), lines are cut before quotes are looked at, and an empty string
  is written like NULL and becomes NULL (`EmptyStringBecomesNull`). The statements hold the values
  safely (`InsertedValues`), but the names as they are, so that a comma in a name makes two
  columns of it: `ColumnListParts`.
- The element count of a binary array wraps around at 2^64, and then the branch for missing values
  is reached, where building the nulls does not finish: `ArrayDecoding.DecodedArrayIsFull`,
  `WrappedCountGivesNulls`.
- Rewritten placeholders are read back as `$1` to `$n` exactly if the query has no unquoted dollar
  sign of its own and, for positional marks, none is directly followed by a digit:
  `ParameterRewriting.PositionalIsReadBack`, `NamedIsReadBack`. The queries `?1`, `$1?` and
  `$1 :a` fail it: `PositionalIsMisread`, `NamedIsMisread`.
- A SCRAM client gives up on an empty salt, which RFC 5802 does not rule out:
  `Scram.HonestExchangeSucceeds`.

## Model

Paths are relative to the repository root. A method's contract ties its result and the new
state to a specification function; the lemmas say what that function is worth.

| member | source | states |
|---|---|---|
| Connection.Conn.SendMessage | tracks/p3/drivers/go/conn.go:1682-1709 | a request reaches the log exactly if a socket exists and the write does not fail |
| Connection.Conn.Receive | tracks/p3/drivers/go/conn.go:1711-1729 | takes the held-back message before the wire, so the two together lose and reorder nothing |
| Connection.Conn.PushBack | tracks/p3/drivers/go/conn.go:1731-1735 | with nothing held back, undoes the receive before it, so that never more than one message is held back |
| Connection.Conn.HandleAsyncMessage | tracks/p3/drivers/go/conn.go:1764-1815 | asynchronous messages and no others are absorbed, with their effect on the transaction state |
| Connection.Conn.ApplyRuntimeTxnID | tracks/p3/drivers/go/conn.go:1877-1882 | a non-zero id marks the transaction active |
| Connection.Conn.ApplyRuntimeReadyState | tracks/p3/drivers/go/conn.go:1884-1894 | READY decides the state, status 0 clears all three fields |
| Connection.Conn.DrainUntilReady | tracks/p3/drivers/go/conn.go:1943-1979 | skips to READY keeping the last completion, stops at an error |
| Connection.Conn.DrainImmediateReopenBoundary | tracks/p3/drivers/go/conn.go:1906-1941 | absorbs what has arrived and leaves the first message of another kind in place |
| Connection.Conn.BeginTx | tracks/p3/drivers/go/conn.go:852-928 | which begins are refused, adopted without a message, or sent, and the state afterwards |
| Connection.Conn.EndTx | tracks/p3/drivers/go/conn.go:2281-2307 | commit and rollback drop the explicit mark after the answer and drain the reopened boundary |
| Connection.Conn.ResetSession | tracks/p3/drivers/go/conn.go:1188-1209 | rolls back exactly if something may be open, and clears the borrow state |
| Connection.Conn.ClearBorrowReuseState | tracks/p3/drivers/go/conn.go:1338-1349 | what a returned connection forgets |
| Connection.Conn.SavepointRequest | tracks/p3/drivers/go/conn.go:930-985 | the savepoint calls need an open connection, a name and a transaction |
| TransactionRuns.IdAlwaysImpliesActive | tracks/p3/drivers/go/conn.go:1877-1900 | over every run and any server, a transaction id implies an active transaction |
| TransactionRuns.ExplicitAlwaysImpliesActive | tracks/p3/drivers/go/conn.go:852-928 | over every run in which the messages that answer an accepted begin report an active transaction by their READY, the explicit mark implies activity |
| TransactionRuns.BeginFollowsReady | tracks/p3/drivers/go/conn.go:896-928 | after any begin that was sent and accepted, the driver's view is that of the messages through READY, parsable or not; it is consistent exactly if they report activity, and a second begin is refused as active exactly if they report activity or an id |
| TransactionRuns.BeginKeepsExplicit | tracks/p3/drivers/go/conn.go:852-928 | a begin breaks the implication from the explicit mark to activity exactly if it is sent, accepted and answered without a report of activity |
| TransactionRuns.TwoBeginsSucceedExactlyWhen | tracks/p3/drivers/go/conn.go:852-928 | a second begin succeeds exactly if the first answer left no activity and no id, its options are supported, its request is written and its answer reaches READY |
| TransactionRuns.TwoBeginsCanSucceed | tracks/p3/drivers/go/conn.go:1884-1979 | against a READY that reports no transaction, or one whose body does not parse, two begins in a row succeed |
| TransactionRuns.NoSecondBeginWithoutEnd | tracks/p3/drivers/go/conn.go:852-928 | between two successful begins of a run with such answers lies a commit, rollback or reset, or a step that read a message which reports the end |
| TransactionRuns.ResetThenBegin | tracks/p3/drivers/go/conn.go:1188-1209 | after a successful reset a default begin is refused as active exactly if the reset sent a rollback and the messages through READY leave an id |
| TransactionRuns.ResetOutcome | tracks/p3/drivers/go/conn.go:1188-1209 | a reset succeeds exactly on an open connection whose rollback, if one is sent, is written and answered up to READY; it drops the explicit mark in any case, and a connection that is not open forgets everything |
| TransactionRuns.ResetSendsRollback | tracks/p3/drivers/go/conn.go:1197-1205 | a reset sends one rollback exactly if the connection is open, something may be open on it and the write does not fail, and nothing else |
| TransactionRuns.BeginSends | tracks/p3/drivers/go/conn.go:852-928 | a begin sends its one request exactly if the connection is open, nothing is active and the options are supported |
| TransactionRuns.BeginIsUnderstood | tracks/p3/drivers/go/conn.go:875-916 | a server that reads the flags, the level, the access mode and the read committed mode of that request gets the options that were asked for |
| TransactionRuns.BeginAdopts | tracks/p3/drivers/go/conn.go:859-874 | an active transaction without an id is taken over without a message exactly for the default options, once |
| TransactionRuns.EndSends | tracks/p3/drivers/go/conn.go:2281-2307 | a commit or rollback sends its request whenever it can be written |
| TransactionRuns.SavepointSends | tracks/p3/drivers/go/conn.go:930-985 | a savepoint call sends its request exactly on an open connection with a name and a transaction |
| TransactionRuns.StepSends | tracks/p3/drivers/go/conn.go:852-1209 | no step of a run sends anything but the one request of its call |
| TransactionRuns.TxnIsAsLastReported | tracks/p3/drivers/go/conn.go:1764-1894 | the state behind READY in closed form: the id of the last message that reports one, activity as last reported, and the explicit mark unless some message reported an end |
| TransactionRuns.DrainReturnsLast | tracks/p3/drivers/go/conn.go:1943-1979 | waiting for READY returns the last completion before it |
| TransactionRuns.ExchangeOutcome | tracks/p3/drivers/go/conn.go:1943-1979 | when a request fails, and with which error: the first obstacle in the stream, or how it ends |
| TransactionRuns.ReopenLeavesTheRest | tracks/p3/drivers/go/conn.go:1906-1941 | draining a reopened boundary without an error takes asynchronous messages and READY only, and leaves the first message of another kind in front |
| ResultRows.Rows.NextRow | tracks/p3/drivers/go/rows.go:112-186 | the receive loop with its flags and push-back is the pure step of the cursor, and terminates |
| ResultRows.Rows.MarkResultSetBoundary | tracks/p3/drivers/go/rows.go:188-212 | peeks one message past a completion and puts it back where it was |
| ResultRows.Rows.NextResultSet | tracks/p3/drivers/go/rows.go:99-110 | moves on exactly at a boundary |
| ResultRows.Rows.Close | tracks/p3/drivers/go/rows.go:56-78 | terminates although messages are pushed back |
| ResultRows.CollectSets | tracks/p3/drivers/go/exec_surfaces.go:78-116 | the nested loops that collect all result sets |
| ResultRows.QueryMulti | tracks/p3/drivers/go/exec_surfaces.go:69-116 | the same with the deferred close |
| ResultStream.RowAtFront | tracks/p3/drivers/go/rows.go:126-186 | the row at the front of the stream is returned with an entry for each cell, in order, nothing for a NULL and else the decoded data; it is malformed exactly if the counts differ, and otherwise undecodable exactly if some cell does not decode |
| ResultStream.CollectSetsSplitsTheStream | tracks/p3/drivers/go/exec_surfaces.go:78-116 | for every error-free stream of result sets, further items and READY, with asynchronous messages and suspensions anywhere: one summary per completion with exactly its rows, one for what follows the last completion or if there is none, every suspension resumed, READY consumed and nothing behind it |
| ResultStream.QueryMultiSplitsTheStream | tracks/p3/drivers/go/exec_surfaces.go:69-116 | the same for the whole call, which returns one summary per completion exactly if something was completed and nothing follows the last completion; the transaction state is that of all messages in wire order |
| ResultStream.CleanStreamsRespond | tracks/p3/drivers/go/rows.go:112-212 | every stream that reaches READY without an error, a malformed body or a row that does not fit is of that form |
| ResultStream.SkippedMessageAddsASummary | tracks/p3/drivers/go/rows.go:188-212 | a skipped message behind the only completion yields a second, empty summary |
| ResultStream.BareReadyYieldsOneSummary | tracks/p3/drivers/go/exec_surfaces.go:84-112 | a READY behind nothing but asynchronous messages still yields one empty summary |
| ResultStream.AsyncMessageAddsNone | tracks/p3/drivers/go/rows.go:188-212 | an asynchronous message behind the last completion adds no summary |
| ResultStream.SucceedsExactlyWhen | tracks/p3/drivers/go/rows.go:112-212 | for every cursor and stream, write faults included: collecting succeeds exactly if no message is broken and the stream has a READY or the peer closed the socket, and the cursor is done exactly if there was a READY; the error otherwise is that of the first broken message, or of the end of the stream |
| ResultStream.TruncationIsSuccessExactlyWhen | tracks/p3/drivers/go/exec_surfaces.go:69-116 | the same for the whole call, its error included, and without a READY it succeeds exactly if the peer closed the socket behind unbroken messages |
| ResultStream.TruncationReportedAsSuccess | tracks/p3/drivers/go/rows.go:112-124 | this occurs in the middle of a result set |
| ResultStream.CloseConsumesThroughReady | tracks/p3/drivers/go/rows.go:56-78 | inside a set or at a boundary of a clean stream, close consumes exactly through READY |
| ResultStream.CloseSucceedsExactlyWhen | tracks/p3/drivers/go/rows.go:56-78 | for every cursor and stream, when close succeeds, and the exact error otherwise |
| ResultStream.CloseFromEveryReachablePoint | tracks/p3/drivers/go/rows.go:56-110 | so it does after any calls of the row and result set operations on a fresh cursor over a clean stream |
| CircuitBreaker.Circuit.AllowRequest | tracks/p3/drivers/go/circuit_breaker.go:91-125 | the admission decision and the change to half-open |
| CircuitBreaker.Circuit.AllowHalfOpenRequest | tracks/p3/drivers/go/circuit_breaker.go:127-139 | a slot is taken exactly while there is one |
| CircuitBreaker.Circuit.RecordSuccess | tracks/p3/drivers/go/circuit_breaker.go:142-161 | the new state in each of the three states |
| CircuitBreaker.Circuit.RecordFailure | tracks/p3/drivers/go/circuit_breaker.go:164-194 | the new state in each of the three states |
| CircuitBreaker.Circuit.ResetCircuit | tracks/p3/drivers/go/circuit_breaker.go:197-207 | closes and forgets |
| CircuitBreaker.Circuit.Execute | tracks/p3/drivers/go/circuit_breaker.go:240-253 | with no other call in between, an admitted call records its one outcome and a refused one none |
| CircuitBreaker.SlotsCountProbes | tracks/p3/drivers/go/circuit_breaker.go:127-194 | over every interleaving the slot counter is the number of probes out minus stray outcomes modulo 2^32; without strays the probes stay within the maximum |
| CircuitBreaker.FailuresAreTheTrailingRun | tracks/p3/drivers/go/circuit_breaker.go:164-194 | in Closed the count is the trailing run of failures, and opens the breaker exactly at the threshold |
| CircuitBreaker.SuccessesAndChanges | tracks/p3/drivers/go/circuit_breaker.go:142-161 | half-open closes exactly at the success threshold; the callback hears a path of permitted changes |
| CircuitBreaker.NothingAdmittedBeforeRecovery | tracks/p3/drivers/go/circuit_breaker.go:91-125 | while open and before the recovery timeout nothing is admitted, whatever is recorded |
| CircuitBreaker.AdmitsExactlyAfterRecovery | tracks/p3/drivers/go/circuit_breaker.go:91-125 | over every run: while open, the next request is admitted exactly if the recovery timeout has passed since the last failure recorded and there is a slot |
| CircuitBreaker.StrayOutcomeJams | tracks/p3/drivers/go/circuit_breaker.go:91-194 | some run from the start ends half-open, with no call out and every request refused, if and only if there is no slot or more than two successes are needed to close |
| StatementSplitter.TrimCopy | tracks/p3/drivers/cli/isql_common.h:29-41 | removes exactly the blanks at both ends |
| StatementSplitter.SplitStatements | tracks/p3/drivers/cli/isql_common.h:67-175 | the one-pass lexer with its flags and tag is the recursive split at statement ends |
| StatementSplitter.LexerIsLawful | tracks/p3/drivers/cli/isql_common.h:84-160 | the lexer's decisions do not depend on text behind the statement end, in spite of its lookahead |
| StatementSplitter.StreamingLaw | tracks/p3/drivers/cli/isql_common.h:67-175 | splitting a + b is splitting a, then its remainder followed by b |
| StatementPrinting.StreamingSplit | tracks/p3/drivers/cli/isql_common.h:67-175 | feeding any cut of an input piece by piece finds the statements and remainder of the whole |
| StatementPrinting.PrintThenSplit | tracks/p3/drivers/cli/isql_common.h:29-175 | statements written with newline and semicolon are split back, in both comment modes, for every input |
| StatementPrinting.BareSemicolonIsNotEnough | tracks/p3/drivers/cli/isql_common.h:84-110 | without the newline a line comment swallows the semicolon |
| StatementPrinting.TrimIsExact | tracks/p3/drivers/cli/isql_common.h:29-41 | trimming takes the white space at both ends and nothing else |
| StatementLiterals.PieceIsSkipped | tracks/p3/drivers/cli/isql_common.h:84-160 | text in single, double or back quotes, in dollar quotes of any tag, and in any of the comments moves the end of the statement by its length, whatever stands in it and behind it; so does a character that opens none of these |
| StatementLiterals.StatementIsItsPieces | tracks/p3/drivers/cli/isql_common.h:67-175 | a semicolon behind any sequence of such pieces ends the statement, and one inside a piece does not |
| StatementLiterals.EveryStatementIsPieces | tracks/p3/drivers/cli/isql_common.h:67-175 | every statement that is cut off consists of such pieces |
| PlaceholderRendering.ReplaceAllInPlace | tracks/p3/drivers/cli/sbdriver_conformance.cpp:693-708 | replaces every occurrence found from left to right, behind the inserted text each time |
| PlaceholderRendering.RenderSqlWithParams | tracks/p3/drivers/cli/sbdriver_conformance.cpp:710-722 | one pass per placeholder, highest index first, and the text as it is if the parameters are no array |
| PlaceholderRendering.SafeIsSubstituted | tracks/p3/drivers/cli/sbdriver_conformance.cpp:710-722 | for safe templates, and literals of which none but the first holds a '$', the passes are simultaneous substitution |
| PlaceholderRendering.UnsafeIsNot | tracks/p3/drivers/cli/sbdriver_conformance.cpp:710-722 | every unsafe template goes wrong with literals that are all 0 or all 1 |
| PlaceholderRendering.RendersExactlyWhenSafe | tracks/p3/drivers/cli/sbdriver_conformance.cpp:710-722 | rendering is simultaneous substitution for all such literals if and only if the template is safe |
| PlaceholderRendering.InsertedIsReplaced | tracks/p3/drivers/cli/sbdriver_conformance.cpp:710-722 | with another placeholder than `$1`, safe or not, the number 0 and the string `$1` go wrong |
| PlaceholderRendering.RendersAllLiteralsExactlyWhen | tracks/p3/drivers/cli/sbdriver_conformance.cpp:710-722 | rendering is simultaneous substitution for all literals whatever if and only if there is no placeholder but `$1` |
| PlaceholderRendering.DollarLiteralIsReplaced | tracks/p3/drivers/cli/sbdriver_conformance.cpp:675-722 | the safe template `$1$2` goes wrong with the string `$1` |
| PlaceholderRendering.CanonicalTextIsTemplate | tracks/p3/drivers/cli/sbdriver_conformance.cpp:710-722 | every text whose digit runs behind '$' are canonical indices is such a template |
| ParameterRewriting.RewritePositionalParams | tracks/p3/drivers/go/query.go:168-199 | the loop with its builder, quote flag and argument index |
| ParameterRewriting.PositionalReplacesMarks | tracks/p3/drivers/go/query.go:168-199 | succeeds exactly if the unquoted marks are as many as the arguments; only these change, the k-th into `$k` |
| ParameterRewriting.MarkPiecesAreTheText | tracks/p3/drivers/go/query.go:168-199 | cutting at the marks loses nothing and cuts outside quotes only |
| ParameterRewriting.PositionalIsReadBack | tracks/p3/drivers/go/query.go:168-199 | for every accepted query, a reader of the output finds 1..n exactly if the query has no unquoted dollar sign and no mark is followed by a digit |
| ParameterRewriting.PositionalIsMisread | tracks/p3/drivers/go/query.go:168-199 | `?1` and `$1?` are not read back |
| ParameterRewriting.HasNamedParams | tracks/p3/drivers/go/query.go:101-121 | finds a parameter outside quotes and casts |
| ParameterRewriting.HasParamsMeansParams | tracks/p3/drivers/go/query.go:101-166 | it finds one exactly when rewriting replaces one |
| ParameterRewriting.RewriteNamedParams | tracks/p3/drivers/go/query.go:123-166 | the loop, with the bound arguments in the order of their occurrences |
| ParameterRewriting.NamedReplacesParams | tracks/p3/drivers/go/query.go:123-166 | the k-th parameter becomes `$k` and nothing else changes; the first without an argument is reported |
| ParameterRewriting.LookupIsLast | tracks/p3/drivers/go/query.go:123-132 | a name stands for the last argument of that name |
| ParameterRewriting.BoundByName | tracks/p3/drivers/go/query.go:148-160 | the k-th argument bound is the last one that has the name of the k-th parameter |
| ParameterRewriting.NameIsLongest | tracks/p3/drivers/go/query.go:148-156 | a name begins with a letter or an underscore and goes on as far as it can |
| ParameterRewriting.SigilsAreTrimmed | tracks/p3/drivers/go/query.go:126-130 | an argument's name counts without the sigils in front of it |
| ParameterPieces.NamedRewritesItsPieces | tracks/p3/drivers/go/query.go:101-166 | for every text spelt out as quoted text, casts, parameters and other characters: exactly the parameters are numbered, in order, the first without an argument is reported, and detection finds one exactly if there is one |
| ParameterPieces.EveryTextIsPieces | tracks/p3/drivers/go/query.go:101-166 | every text is spelt out so, with an unclosed quote at its end or none |
| ParameterRewriting.ParamPiecesAreTheText | tracks/p3/drivers/go/query.go:123-166 | the pieces and the parameters are the whole text |
| ParameterRewriting.NoParamsLeft | tracks/p3/drivers/go/query.go:101-166 | the output has no named parameters |
| ParameterRewriting.NamedIsReadBack | tracks/p3/drivers/go/query.go:123-166 | for every accepted query, a reader of the output finds 1..n exactly if the query has no unquoted dollar sign |
| ParameterRewriting.NamedIsMisread | tracks/p3/drivers/go/query.go:123-166 | `$1 :a` is not read back |
| Decimal.IntToString | tracks/p3/drivers/go/query.go:201-213 | fills a 20-byte buffer from the end with the decimal numeral; a negative value gives nothing |
| Decimal.CanonicalIsDec | tracks/p3/drivers/go/query.go:201-213 | the numerals written are exactly those without superfluous zeros |
| CsvCopy.WriteRecord | tracks/p3/drivers/cli/sb_isql.cpp:2382-2418 | the line written for the column names and for a record |
| CsvCopy.ParseLine | tracks/p3/drivers/cli/sb_isql.cpp:2474-2498 | the character loop with its quote flag and the field it pushes last |
| CsvCopy.ParseHeader | tracks/p3/drivers/cli/sb_isql.cpp:2443-2460 | the character loop of the header, where a doubled quote means nothing |
| CsvCopy.LineRoundTrip | tracks/p3/drivers/cli/sb_isql.cpp:2400-2497 | parsing the line of any record of at least one field gives its texts back |
| CsvPieces.LineIsWritten | tracks/p3/drivers/cli/sb_isql.cpp:2382-2418 | the line of a record is one field for each text, between commas, quoted as a whole exactly if the text holds a comma, a quote or a newline |
| CsvPieces.LineIsItsFields | tracks/p3/drivers/cli/sb_isql.cpp:2474-2498 | for any line, written by the export or not: one text for each field between unquoted commas, with the quotes of its sections dropped and doubled ones halved; a quote left open takes in one more comma |
| CsvPieces.EveryLineIsFields | tracks/p3/drivers/cli/sb_isql.cpp:2474-2498 | every line consists of such fields |
| CsvPieces.HeaderIsItsFields | tracks/p3/drivers/cli/sb_isql.cpp:2443-2460 | any header line is read as one name for each field with every quote dropped |
| CsvPieces.EveryHeaderIsFields | tracks/p3/drivers/cli/sb_isql.cpp:2443-2460 | every header line consists of such fields |
| CsvCopy.FileRoundTrip | tracks/p3/drivers/cli/sb_isql.cpp:2400-2498 | the data rows are read back if and only if no field holds a newline |
| CsvCopy.CopyRoundTrip | tracks/p3/drivers/cli/sb_isql.cpp:2382-2498 | the column names and the texts of a whole file are read back if and only if there is a column, no column name holds a quote or a newline, and no field holds a newline |
| CsvCopy.BuildInsertBase | tracks/p3/drivers/cli/sb_isql.cpp:2462-2468 | the loop that writes the column names |
| CsvCopy.ColumnListParts | tracks/p3/drivers/cli/sb_isql.cpp:2462-2468 | the column list has one part for each name if and only if no name holds a comma |
| CsvCopy.BuildInsert | tracks/p3/drivers/cli/sb_isql.cpp:2499-2516 | the loop that writes NULL for an empty text and a quoted literal for any other |
| CsvCopy.InsertedValues | tracks/p3/drivers/cli/sb_isql.cpp:2499-2516 | a server reads these literals as the texts, whatever quotes they hold, and an empty text as NULL |
| CsvCopy.CopyRestoresRecords | tracks/p3/drivers/cli/sb_isql.cpp:2382-2516 | names and records of a whole file are loaded as they were exported if and only if there is a column, no column name holds a quote or a newline, no field holds a newline, and no field is the empty string |
| CsvCopy.EmptyStringBecomesNull | tracks/p3/drivers/cli/sb_isql.cpp:2404-2405 | the empty string comes back as NULL |
| CsvCopy.QuotedNameIsChanged | tracks/p3/drivers/cli/sb_isql.cpp:2443-2460 | a column name with a quote in it is imported as another one |
| Wire.NumInvertsLE | tracks/p3/drivers/go/protocol.go:297-300 | little-endian numbers are read back if they fit |
| Wire.Put | tracks/p3/drivers/go/protocol.go:470-505 | copies at the running offset into a buffer of the announced length |
| Frames.EncodeMessage | tracks/p3/drivers/go/protocol.go:290-303 | fills the frame field by field |
| Frames.Reader.Fill | tracks/p3/drivers/go/protocol.go:333-348 | reads exactly n bytes or tells an ended stream from a broken one |
| Frames.Reader.ReadMessage | tracks/p3/drivers/go/protocol.go:333-349 | one frame off the stream, or the error |
| Frames.HeaderRoundTrip | tracks/p3/drivers/go/protocol.go:290-331 | a header is read back; the length field holds the low 32 bits of the payload length |
| Frames.FrameLayout | tracks/p3/drivers/go/protocol.go:290-303 | at which offset of a frame each field stands, byte by byte |
| Frames.HeaderIsRefused | tracks/p3/drivers/go/protocol.go:305-331 | a complete header is refused exactly for another magic, then another version, then a length above the maximum |
| Frames.FrameRoundTrip | tracks/p3/drivers/go/protocol.go:290-349 | a frame in front of anything is read back, leaving exactly the rest, if and only if its payload is within the maximum size |
| Frames.StreamRoundTrip | tracks/p3/drivers/go/protocol.go:290-349 | any concatenation of frames is read back in order |
| Frames.ReadIsEncoded | tracks/p3/drivers/go/protocol.go:305-349 | nothing but encoded frames is accepted |
| Frames.StreamIsItsMessages | tracks/p3/drivers/go/protocol.go:305-349 | any stream is the encoding of the messages read from it and a rest at which reading fails |
| Frames.TruncatedFrame | tracks/p3/drivers/go/protocol.go:333-349 | a frame cut short is never read as a message, and which error is reported at which cut |
| BindPayload.PayloadLength | tracks/p3/drivers/go/protocol.go:457-467 | the length computed beforehand is the length of the encoding |
| BindPayload.BuildBindPayload | tracks/p3/drivers/go/protocol.go:450-506 | the buffer is filled exactly and the final offset is its length |
| BindPayload.BindRoundTrip | tracks/p3/drivers/go/protocol.go:450-506 | a server decodes names, formats, values with NULL told from data, and result formats, if and only if counts and lengths fit |
| BindPayload.BuildSblrExecutePayload | tracks/p3/drivers/go/protocol.go:526-558 | the buffer is filled exactly and the final offset is its length |
| BindPayload.SblrRoundTrip | tracks/p3/drivers/go/protocol.go:526-558 | a server decodes hash, bytecode and values if and only if they fit |
| RowCodec.ParseRowDescription | tracks/p3/drivers/go/protocol.go:738-784 | the offset parser with its bounds checks |
| RowCodec.DescriptionRoundTrip | tracks/p3/drivers/go/protocol.go:738-784 | a canonical description of any number of columns is parsed back if and only if its fields fit |
| RowCodec.ParseDataRow | tracks/p3/drivers/go/protocol.go:786-829 | the offset parser with its bitmap and both kinds of error |
| RowCodec.BitmapRoundTrip | tracks/p3/drivers/go/protocol.go:806-809 | bit i of the bitmap is set exactly for a NULL in column i |
| RowCodec.RowRoundTrip | tracks/p3/drivers/go/protocol.go:786-829 | a canonical row of any number of columns is parsed back if and only if count and lengths fit |
| RowCodec.WrongCountIsRefused | tracks/p3/drivers/go/protocol.go:796-798 | a row of another width is refused |
| SentRows.DescriptionIsRead | tracks/p3/drivers/go/protocol.go:738-784 | every description that is sent, with any flag byte and any ignored and trailing bytes, is read as the columns it says |
| SentRows.DescriptionIsSent | tracks/p3/drivers/go/protocol.go:738-784 | nothing else is accepted as a description |
| SentRows.RowIsRead | tracks/p3/drivers/go/protocol.go:786-829 | every row that is sent, with a bitmap of any length, NULLs marked there or by a negative length, and any trailing bytes, is read as the cells it says |
| SentRows.RowIsSent | tracks/p3/drivers/go/protocol.go:786-829 | nothing else is accepted as a row |
| SentRows.RowIsRefused | tracks/p3/drivers/go/protocol.go:786-798 | a row is refused for its count exactly if it has a front and the count in it differs |
| ArrayDecoding.CountValues | tracks/p3/drivers/cli/sbdriver_conformance.cpp:170-177 | the loop that multiplies in size_t and stops at a zero |
| ArrayDecoding.TotalIsProduct | tracks/p3/drivers/cli/sbdriver_conformance.cpp:170-177 | its result is the product modulo 2^64 |
| ArrayDecoding.BuildNestedArray | tracks/p3/drivers/cli/sbdriver_conformance.cpp:132-147 | the recursion with its shared cursor is row-major nesting, and the cursor ends at the product or at the last value |
| ArrayDecoding.DecodeArrayBinary | tracks/p3/drivers/cli/sbdriver_conformance.cpp:149-258 | all branches and bounds checks of the decoder |
| ArrayDecoding.RowMajor | tracks/p3/drivers/cli/sbdriver_conformance.cpp:132-147 | the entry at a multi-index is the value at its mixed-radix offset, and there are no other entries |
| ArrayDecoding.IndexOffset | tracks/p3/drivers/cli/sbdriver_conformance.cpp:132-147 | every offset below the product is that of an index within bounds |
| ArrayDecoding.OffsetIndex | tracks/p3/drivers/cli/sbdriver_conformance.cpp:132-147 | every index within bounds is that of its offset |
| ArrayDecoding.NullsMeanTooFew | tracks/p3/drivers/cli/sbdriver_conformance.cpp:136-139 | the branch for missing values is taken exactly when there are fewer values than the product |
| ArrayDecoding.ArrayRoundTrip | tracks/p3/drivers/cli/sbdriver_conformance.cpp:149-258 | a canonical encoding is decoded if and only if the number of values is the product modulo 2^64 |
| ArrayDecoding.SentIsDecoded | tracks/p3/drivers/cli/sbdriver_conformance.cpp:149-258 | the same for every way to send the values, a flag being any byte: decoded into their row-major nesting if the number is right, and else refused |
| ArrayDecoding.DecodedIsSent | tracks/p3/drivers/cli/sbdriver_conformance.cpp:149-258 | what is accepted is of one of the six kinds and was sent so |
| ArrayDecoding.DecodedArrayIsFull | tracks/p3/drivers/cli/sbdriver_conformance.cpp:149-258 | a decoded array has no null exactly when the product of its dimensions is below 2^64 |
| ArrayDecoding.WrappedCountGivesNulls | tracks/p3/drivers/cli/sbdriver_conformance.cpp:149-258 | dimensions with the product 2^64 pass every check without any value, so that the branch for missing values is reached |
| Crc32c.Crc32cCompute | tracks/p3/drivers/cli/crc32c.cpp:7-20 | the nested loops compute the checksum function |
| Crc32c.ChecksumContinues | tracks/p3/drivers/cli/crc32c.cpp:7-8 | a checksum given as `initial` continues over a concatenation |
| Crc32c.BurstsAreDetected | tracks/p3/drivers/cli/crc32c.cpp:7-20 | messages that differ inside one window of 32 bits, at any bit offset, have different checksums |
| Crc32c.FourByteChangesAreDetected | tracks/p3/drivers/cli/crc32c.cpp:7-20 | so do messages that differ inside four consecutive bytes |
| Polynomials.DivisionLaw | tracks/p3/drivers/cli/crc32c.cpp:7-20 | long division of polynomials over GF(2): the message is quotient times generator plus remainder |
| Crc32cDivision.ChecksumIsRemainder | tracks/p3/drivers/cli/crc32c.cpp:7-20 | the checksum, complemented and least significant bit first, is the remainder of the message and 32 zeros, with the complemented initial value added in front, by the generator 0x11EDC6F41 of section 12.1 of RFC 3720 |
| Bits.XorIsBitwise | tracks/p3/drivers/go/scram.go:120-126 | the exclusive or of two bytes sets the bits in which they differ |
| KeyDerivation.XorBytes | tracks/p3/drivers/go/scram.go:120-126 | byte-wise exclusive or |
| KeyDerivation.XorSeqTwice | tracks/p3/drivers/go/scram.go:120-126 | which undoes itself |
| KeyDerivation.Pbkdf2F | tracks/p3/drivers/go/scram.go:149-166 | the in-place loop is U1 XOR ... XOR Uc, section 2.2 of RFC 5802; counts below one act as one |
| KeyDerivation.HiIsXorOfIterates | tracks/p3/drivers/go/scram.go:149-166 | for any sequence of HMAC iterates of the block, the result is their exclusive or |
| KeyDerivation.BlockNumber | tracks/p3/drivers/go/scram.go:150-155 | the block number is appended to the salt in four bytes, most significant first |
| KeyDerivation.Pbkdf2Sha256 | tracks/p3/drivers/go/scram.go:139-147 | the blocks in order, cut to the key length |
| ScramText.EscapeRoundTrip | tracks/p3/drivers/go/scram.go:87-90 | escaped names are invertible, section 5.1 of RFC 5802, and hold no comma |
| ScramText.ParseScramAttrs | tracks/p3/drivers/go/scram.go:92-107 | the loop over the parts with its two reasons to drop one |
| ScramText.TwoAttrs | tracks/p3/drivers/go/scram.go:92-107 | values without commas survive attribute splitting, the empty one included |
| ScramText.PartIsIgnored | tracks/p3/drivers/go/scram.go:92-107 | a part without a name or shorter than three bytes changes nothing |
| ScramText.LaterValueWins | tracks/p3/drivers/go/scram.go:92-107 | of two values of one name the later counts, unless it is empty |
| ScramText.ParseInt | tracks/p3/drivers/go/scram.go:128-137 | the digit loop in 64-bit arithmetic |
| ScramText.ParseIntOfDec | tracks/p3/drivers/go/scram.go:128-137 | a decimal count is read back if and only if it is below 2^63 |
| Scram.ScramClient.ClientFirstMessage | tracks/p3/drivers/go/scram.go:38-41 | the first message, and the bare part that is signed later |
| Scram.ScramClient.HandleServerFirst | tracks/p3/drivers/go/scram.go:43-72 | the checks in order, the client-final message and the expected server signature |
| Scram.ScramClient.VerifyServerFinal | tracks/p3/drivers/go/scram.go:74-85 | the decision on the verifier |
| Scram.NameArrives | tracks/p3/drivers/go/scram.go:38-41 | a server reads the user name and nonce, whatever the name |
| Scram.ProofIsAccepted | tracks/p3/drivers/go/scram.go:54-60 | the proof uncovers the client key to the holder of StoredKey |
| Scram.OnlyTheSignatureIsAccepted | tracks/p3/drivers/go/scram.go:74-85 | of all signatures the client accepts its own computation only, and which error any other gets |
| Scram.SaltedIsStandard | tracks/p3/drivers/go/scram.go:52-53 | the client salts the password as section 2.2 of RFC 5802 defines Hi |
| Scram.RefusalsAreExact | tracks/p3/drivers/go/scram.go:43-53 | which server-first messages are refused, and with which error, for any attribute values without commas |
| Scram.HonestExchangeSucceeds | tracks/p3/drivers/go/scram.go:38-85 | for every name, password and nonce: the client answers if and only if the salt is not empty; then the server accepts the proof and the client the verifier |
| Scram.NonceAndOrderAreChecked | tracks/p3/drivers/go/scram.go:43-50 | a nonce that does not extend the client's is refused, and no verifier counts before the answer |
| TxnExec.CheckCase | tracks/p3/drivers/cli/txn_exec_parity.cpp:258-321 | which cases are refused and for what |
| TxnExec.RunTxnExecCase | tracks/p3/drivers/cli/txn_exec_parity.cpp:253-430 | the calls made to the client, in order, and the outcome |
| TxnExec.RunIsBracketed | tracks/p3/drivers/cli/txn_exec_parity.cpp:323-427 | for every client behaviour and case: a successful begin is followed by exactly one commit or rollback before verification and cleanup; refused cases make no call |
| TxnExec.TransactionOutcome | tracks/p3/drivers/cli/txn_exec_parity.cpp:323-401 | against a snapshot store: a case that rolls back, rolls back to its savepoint or is not committed leaves the committed data as it was, any other applies its statement once |
| TxnExec.RunOutcome | tracks/p3/drivers/cli/txn_exec_parity.cpp:253-430 | the same for whole runs whose verification and cleanup only read |
| TxnCases.PlanIsTheFields | tracks/p3/drivers/cli/txn_exec_parity.cpp:258-321 | which cases are accepted, and what a run is to do, in terms of the fields of the case |
| TxnCases.RunSucceedsExactlyWhen | tracks/p3/drivers/cli/txn_exec_parity.cpp:253-430 | a run succeeds exactly if its case is accepted, every call that its fields ask for is answered well, and the affected and returned rows are those its fields expect; it then made these calls, in this order |
| TxnCases.RunFollowsScript | tracks/p3/drivers/cli/txn_exec_parity.cpp:253-430 | whatever the client answers, a run makes these calls as far as it gets, and no others but a rollback where the transaction goes wrong |
| TxnCases.MismatchIsReported | tracks/p3/drivers/cli/txn_exec_parity.cpp:374-420 | a mismatch is reported only with the number that the field expects and the different one that the client replied |
| TxnCases.CommittedData | tracks/p3/drivers/cli/txn_exec_parity.cpp:253-430 | against a snapshot store the statement is applied to the committed data, once, exactly if the case is accepted, its txn_end is absent or commit, it does not roll back to its savepoint, and its calls and affected rows are right |
| SchemaPaths.SplitSchemaPath | tracks/p3/drivers/cli/metadata_shaping.cpp:45-62 | the trimmed parts that are not empty |
| SchemaPaths.NormalizeSchemaPath | tracks/p3/drivers/go/metadata.go:299-310 | joins them with dots |
| SchemaPaths.SegmentsAreTrimmedParts | tracks/p3/drivers/cli/metadata_shaping.cpp:45-62 | the segments of a path are its parts between dots, in order, without the white space around them, and a blank part is none |
| SchemaPaths.SegmentsOfJoin | tracks/p3/drivers/cli/metadata_shaping.cpp:45-74 | a normalized path is split into its segments |
| SchemaPaths.JoinInjective | tracks/p3/drivers/cli/metadata_shaping.cpp:151-177 | different paths have different keys |
| SchemaNavigation.SchemaPathsForNavigation | tracks/p3/drivers/cli/metadata_shaping.cpp:106-139 | the first occurrences of the paths, with or without their parents |
| SchemaNavigation.NavigationListsMentions | tracks/p3/drivers/cli/metadata_shaping.cpp:106-139 | the list holds exactly the paths that the names mention, with expansion also those above them, each once, in the order of their first mention, outer before inner |
| SchemaNavigation.MetadataExpandSchemaNames | tracks/p3/drivers/go/metadata.go:209-297 | of the first occurrences of the paths, with or without their parents, those that match the pattern |
| SchemaNavigation.NavigationListsAgree | tracks/p3/drivers/go/metadata.go:209-297 | the Go list is the part of the C++ list that matches, and all of it under a pattern that matches everything |
| SchemaNavigation.NavigationHasSameChildren | tracks/p3/drivers/cli/metadata_shaping.cpp:106-139 | neither removing duplicates nor adding parents changes the tree |
| SchemaForest.ChildrenAreInFirstSeenOrder | tracks/p3/drivers/cli/metadata_shaping.cpp:158-187 | siblings are distinct and in the order of their first mention |
| SchemaForest.ChildrenStep | tracks/p3/drivers/cli/metadata_shaping.cpp:158-187 | visiting a name adds it to the children of the name before it if it is new, and changes nothing else |
| SchemaTree.FindOrCreate | tracks/p3/drivers/cli/metadata_shaping.cpp:164-182 | the step on the nodes in memory: no node is made twice, and the nodes still stand for the tree |
| SchemaTree.InsertPath | tracks/p3/drivers/cli/metadata_shaping.cpp:156-188 | the loop over the segments of a path |
| SchemaTree.MetadataBuildSchemaTree | tracks/p3/drivers/go/metadata.go:232-272 | the linked nodes are the tree over the inputs, terminal exactly where an input ends |
| SchemaTree.AppendRowsDepthFirst | tracks/p3/drivers/cli/metadata_shaping.cpp:76-102 | appends the preorder of a node |
| SchemaTree.BuildSchemaTreeRows | tracks/p3/drivers/cli/metadata_shaping.cpp:141-216 | the rows are the preorder of the tree over the names, behind the row of the database |
| SchemaTree.BuildersAgree | tracks/p3/drivers/go/metadata.go:232-272 | the C++ rows without expansion are the preorder of the Go tree of the same names |
| SchemaTree.RowsOfNames | tracks/p3/drivers/cli/metadata_shaping.cpp:141-216 | each dotted prefix once, parents first, path spelt by parent and name, roots under the database, terminal exactly for inputs, or for all names with expansion |
| SchemaPreorder.RowsSpeakOfNames | tracks/p3/drivers/cli/metadata_shaping.cpp:141-216 | the rows in terms of the names alone: the database row under its trimmed name or `default`, then one row for each path that is mentioned, terminal exactly where an input ends, or everywhere with expansion, in preorder with siblings in the order of their first mention |
| SchemaRows.EachNameOnce | tracks/p3/drivers/cli/metadata_shaping.cpp:76-102 | the rows list every name of the tree once |
| SchemaRows.TreeRowsAreRight | tracks/p3/drivers/cli/metadata_shaping.cpp:76-102 | what each row says about its path |
| SchemaRows.TreeRowsParentsFirst | tracks/p3/drivers/cli/metadata_shaping.cpp:76-102 | a parent's row comes before its children's |

## Left out

- TransactionRuns.ExplicitAlwaysImpliesActive: needs that the messages which answer an accepted begin report an active transaction; `BeginKeepsExplicit` says that a begin answered otherwise breaks it.
- TransactionRuns.NoSecondBeginWithoutEnd: needs the same; `TwoBeginsSucceedExactlyWhen` says when it fails for two begins in a row.
- Scram.HonestExchangeSucceeds: states acceptance for iteration counts below 2^63, since beyond that the two sides iterate a different number of times and an uninterpreted hash says nothing.
- TxnExec.TransactionOutcome: assumes a statement under test that is none of the three savepoint commands and, like every other text, does not end or begin a transaction by itself (a `COMMIT` sent as a statement counts as a plain one), and a store in which a failed commit commits nothing.
- TxnExec.RunOutcome: assumes the same, and that verification and cleanup, if present, only read; what they change outside a transaction is up to them.
- TxnCases.CommittedData: assumes the same of the statement under test, of verification and of cleanup.
- ResultStream.CollectSetsSplitsTheStream: states nothing for streams with error responses, after which the driver does not read on to READY; `SucceedsExactlyWhen` covers these.
- Connection.Conn.Receive: takes the next message of a given sequence; sockets, TLS, deadlines, dialing, keepalive and the cancel goroutine are not part of this model.
- Connection.Conn.SendMessage: leaves out the sequence number and the header fields; requests are logged as values, with write failures as an input.
- Connection.Conn.BeginTx: without a socket the source dials first (tracks/p3/drivers/go/conn.go:1668-1680), and the model reports that the connection is not open.
- Connection.Conn.SavepointRequest: likewise does not dial.
- Connection.Conn.HandleAsyncMessage: leaves out the parameter table, the attachment id, the last plan and bytecode, and the notification handlers.
- Connection.Conn.DrainUntilReady: leaves out that a cancelled context ends the loop.
- Connection.Conn.ClearBorrowReuseState: leaves out the last plan and bytecode.
- ResultRows.Rows.Close: leaves out the cancel callback.
- ResultRows.QueryMulti: starts behind the sending of the query.
- Messages reach the connection as already parsed values; the parsers of READY, TXN_STATUS, PARAMETER_STATUS and COMMAND_COMPLETE bodies are left out, those of row descriptions and rows are in `RowCodec`.
- Column codecs are one uninterpreted total function from a column and bytes to a value or nothing.
- BatchInsert, CopyIn and CopyOut, some of whose loops pass over READY without applying it.
- CircuitBreaker.Circuit.AllowRequest: is one atomic step; races between the atomic operations inside one method are left out, and the clock is a parameter.
- CircuitBreaker.Circuit.Execute: its contract has no other call between admission and outcome; runs with calls in between are those of `Event`, where the two are separate steps.
- StatementSplitter.SplitStatements: character classes are those of the "C" locale; so are trimming and case folding everywhere.
- ScramText.ParseScramAttrs: strings are sequences of characters that stand for bytes; UTF-8 decoding of the iteration count is left out, since any byte that is not a digit is refused either way.
- KeyDerivation.Pbkdf2F: HMAC, SHA-256 and base64 are parameters, of which only digest lengths, decoding and the absence of commas are used.
- BindPayload.BuildBindPayload: a parameter that is null has no data, where the source allows data that is ignored.
- ArrayDecoding.DecodeArrayBinary: floating-point values stay the bits they were read as, and allocation failure for huge counts is left out.
- TxnExec.CheckCase: fields that the source requires to be strings are strings; the exception for other JSON types, and the wording of messages, are left out.
- SchemaPaths.NormalizeSchemaPath: covers ASCII names, on which the trimming of C++ and Go agrees.
- SchemaTree.InsertPath: is the segment loop of both builders, with the set of paths to mark on the way, which is empty for Go.
- ArrayDecoding.WrappedCountGivesNulls: gives the nulls as a value, where the code runs out of memory while it builds 2^64 of them.
- PlaceholderRendering.RendersExactlyWhenSafe: speaks of texts in which every digit run behind a `$` is the index of a parameter, without leading zeros; so does `RendersAllLiteralsExactlyWhen`.
- CsvCopy.CopyRestoresRecords: ends at the statements; what a server makes of the unquoted table and column names, and of a statement that it refuses, is left out.
- PlaceholderRendering.RenderSqlWithParams: gets the literals as text; JSON values and their quoting are left out.
- SchemaNavigation.MetadataExpandSchemaNames: gets the pattern as a predicate; its translation into a regular expression is left out.
- schemaPathsFromObjectResolver and the other metadata queries.
- The table-driven CRC of the backup tool, one entry of whose table breaks its linearity.
- Variable substitution in the interactive tool, which does not terminate on a lone vertical bar.
- Telemetry, leak detection, pipelining, configuration, SQLSTATE tables, prepared-transaction texts and the Firebird catalog emulation.
