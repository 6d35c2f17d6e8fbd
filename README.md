# PostgreSQL bulk writer, modelled in Dafny

This project models SymmetricDS's `PostgresBulkDatabaseWriter`. The writer loads the INSERT events of a replicated batch into a PostgreSQL table through one `COPY ... FROM STDIN` channel. Any other kind of event first ends that channel and then goes to the base writer, which applies it row by row.

The model has two parts.

- **Row and command codecs.** They are written as loops and proved against functional specifications:
  - `encode` rewrites the bytes of a binary column as octal escapes. The proofs show that the output is printable ASCII, that every backslash opens a three-digit escape, and that the bytea escape format of the PostgreSQL manual (section 8.4.2) reads back exactly the bytes that were encoded.
  - `removeIllegalCharacters` drops every NUL character and keeps everything else in order.
  - `createCopyMgrSql` builds the COPY command from the quoted non-blank column names. The proofs give the exact text of the command, and show that, when neither the quote token nor any column name contains a comma, its column list splits back into the quoted names.
  - Hex decoding follows section 8 of RFC 4648.
- **The bulk session.** This is a class (`PostgresBulk.PostgresBulkDatabaseWriter`) with the Java fields `copyIn`, `loadedRows`, `needsBinaryConversion` and the statistics ROWCOUNT and LINENUMBER.
  - The driver's `CopyIn` and `CopyManager` are classes. The ghost state of a `CopyIn` records the rows it buffered and sent, the rows a completed COPY loaded into the table, and every call made on it with whether it raised an error.
  - Rows a completed COPY loaded become part of the session's transaction; the framework commits or rolls that back later, which is not part of this model.
  - The base writer's `start`/`write`/`end` are methods of the writer. Ghost logs record what the base writer applied and each `end` call with its outcome.
  - The driver calls, the base writer's `write` and its `end` calls may fail, chosen by the environment, so the contracts of the methods that call them cover both the normal and the exceptional return. The base writer's `start` is modelled without a failure (see "Left out").
  - Java's `try`/`finally` ordering is kept, including a `finally` whose exception replaces a pending one.
  - The writer's invariant `Valid()` states five things: the channel held in `copyIn` is one of the channels the writer opened; every other channel is no longer active; every channel that is no longer active holds no rows; no event was ever applied row by row while a channel was held; and the loaded-row counter is never negative.

Facts about the code that the model states:
- `end(Batch, inError)` resets no statistics. Only a failed `copyIn.endCopy()` inside `endCopy` sets ROWCOUNT and LINENUMBER to 0 (`PostgresBulkDatabaseWriter.java:188-189`).
- A failed `flushCopy` resets nothing.
- When the flush fails and the end step then succeeds, the flush's exception still propagates out of the `finally`. When the end step fails, its exception replaces the flush's.
- The command is built as `)FROM STDIN ...`, with no space before `FROM`.
- With no non-blank column name, the final `replace` overwrites the `(` itself, giving `COPY <name>)FROM STDIN ...`. `CopyCommand.CopySql` states exactly that.

## Model

Every source path below is `symmetric-client/src/main/java/org/jumpmind/symmetric/io/PostgresBulkDatabaseWriter.java`.

| member | source | states |
|---|---|---|
| ByteaEscape.OctalString | symmetric-client/src/main/java/org/jumpmind/symmetric/io/PostgresBulkDatabaseWriter.java:255-259 | `Integer.toString(i, 8)` is a non-empty string of octal digits that denotes the value, in canonical form: a string starting with `0` is exactly `"0"` |
| ByteaEscape.Unescape | symmetric-client/src/main/java/org/jumpmind/symmetric/io/PostgresBulkDatabaseWriter.java:250-265 | the server-side reader of the escape format, the partner of encode: what it decodes is never longer than the text |
| ByteaEscape.EncodeByteForm | symmetric-client/src/main/java/org/jumpmind/symmetric/io/PostgresBulkDatabaseWriter.java:253-262 | bytes 0-31, 92 and 127-255 become a backslash and three octal digits of their value (so 0-7 read `\00d`); every other byte is the single character 32-126 it codes; 4 characters or 1 |
| ByteaEscape.EscapeBytesLength | symmetric-client/src/main/java/org/jumpmind/symmetric/io/PostgresBulkDatabaseWriter.java:250-265 | output length is the pass-through count plus 4 times the escaped count, and the two counts add up to the input length |
| ByteaEscape.EscapeBytesPrintable | symmetric-client/src/main/java/org/jumpmind/symmetric/io/PostgresBulkDatabaseWriter.java:253-262 | every output character lies in 32..126 |
| ByteaEscape.EscapeBytesBackslashes | symmetric-client/src/main/java/org/jumpmind/symmetric/io/PostgresBulkDatabaseWriter.java:253-262 | every backslash in the output is followed by three octal digits, the first at most 3 |
| ByteaEscape.UnescapeEscapeBytes | symmetric-client/src/main/java/org/jumpmind/symmetric/io/PostgresBulkDatabaseWriter.java:250-265 | PostgreSQL's bytea escape-format reader decodes the output back to exactly the input bytes |
| ByteaEscape.EscapeBytesInjective | symmetric-client/src/main/java/org/jumpmind/symmetric/io/PostgresBulkDatabaseWriter.java:250-265 | distinct byte sequences never encode to the same text |
| ByteaEscape.Encode | symmetric-client/src/main/java/org/jumpmind/symmetric/io/PostgresBulkDatabaseWriter.java:250-265 | the builder loop produces the concatenated per-byte encodings specified by EscapeBytes |
| IllegalCharacters.RemoveIllegalCharacters | symmetric-client/src/main/java/org/jumpmind/symmetric/io/PostgresBulkDatabaseWriter.java:130-138 | the loop keeping characters above 0 yields the input with its NULs dropped (WithoutNul) |
| IllegalCharacters.WithoutNulHasNoNul | symmetric-client/src/main/java/org/jumpmind/symmetric/io/PostgresBulkDatabaseWriter.java:132-136 | the result holds no NUL |
| IllegalCharacters.WithoutNulContents | symmetric-client/src/main/java/org/jumpmind/symmetric/io/PostgresBulkDatabaseWriter.java:130-138 | every non-NUL character keeps its number of occurrences and no NUL is left |
| IllegalCharacters.WithoutNulLength | symmetric-client/src/main/java/org/jumpmind/symmetric/io/PostgresBulkDatabaseWriter.java:130-138 | the result is shorter than the input by exactly its number of NULs, so never longer |
| IllegalCharacters.WithoutNulAppend | symmetric-client/src/main/java/org/jumpmind/symmetric/io/PostgresBulkDatabaseWriter.java:132-136 | the filter works piecewise over a concatenation, so kept characters stay in their order |
| IllegalCharacters.WithoutNulUnchanged | symmetric-client/src/main/java/org/jumpmind/symmetric/io/PostgresBulkDatabaseWriter.java:130-138 | the text comes back unchanged if and only if it holds no NUL |
| IllegalCharacters.WithoutNulIdempotent | symmetric-client/src/main/java/org/jumpmind/symmetric/io/PostgresBulkDatabaseWriter.java:130-138 | removing NULs twice equals removing them once |
| CopyCommand.CreateCopyMgrSql | symmetric-client/src/main/java/org/jumpmind/symmetric/io/PostgresBulkDatabaseWriter.java:226-248 | the command is `COPY ` + name + `(` + the quoted non-blank names joined by `,` + `)` + the CSV suffix; with no such name only `)` follows the name |
| CopyCommand.CloseColumnList | symmetric-client/src/main/java/org/jumpmind/symmetric/io/PostgresBulkDatabaseWriter.java:245 | replacing the last character of `COPY name(` plus the appended fragments with `)` gives the command head, the `(` itself being replaced when no name was appended |
| CopyCommand.FragmentsJoin | symmetric-client/src/main/java/org/jumpmind/symmetric/io/PostgresBulkDatabaseWriter.java:236-245 | what the loop appends is the comma-joined quoted names plus one trailing comma, which the replace at the end overwrites |
| CopyCommand.ColumnListReadsBack | symmetric-client/src/main/java/org/jumpmind/symmetric/io/PostgresBulkDatabaseWriter.java:236-244 | when neither quote nor names hold a comma, the column list splits back into exactly the quoted non-blank names in column order |
| CopyCommand.SplitJoin | symmetric-client/src/main/java/org/jumpmind/symmetric/io/PostgresBulkDatabaseWriter.java:242-245 | comma-joined parts without commas split back into the parts |
| CopyCommand.IsBlankMeaning | symmetric-client/src/main/java/org/jumpmind/symmetric/io/PostgresBulkDatabaseWriter.java:238 | a name is blank exactly when each of its characters is Java whitespace (the empty name included) |
| CopyCommand.BlankNames | symmetric-client/src/main/java/org/jumpmind/symmetric/io/PostgresBulkDatabaseWriter.java:238 | examples: the empty name and names of spaces, tabs, line breaks or Unicode spaces are blank, and no-break spaces are not; and in general, no name containing an ASCII letter or digit is blank |
| CopyCommand.NonWhitespaceNotBlank | symmetric-client/src/main/java/org/jumpmind/symmetric/io/PostgresBulkDatabaseWriter.java:238 | a name with at least one character that is not Java whitespace is not blank |
| CopyCommand.NonBlankNamesBlank | symmetric-client/src/main/java/org/jumpmind/symmetric/io/PostgresBulkDatabaseWriter.java:236-244 | no kept column name is blank, no more names are kept than there are columns, and none is kept exactly when every name is blank |
| HexCodec.HexDecodeEncode | symmetric-client/src/main/java/org/jumpmind/symmetric/io/PostgresBulkDatabaseWriter.java:94 | base16 decoding inverts base16 encoding |
| HexCodec.HexDecode | symmetric-client/src/main/java/org/jumpmind/symmetric/io/PostgresBulkDatabaseWriter.java:94 | a successful decoding has one byte per two characters |
| HexCodec.HexDecodeShape | symmetric-client/src/main/java/org/jumpmind/symmetric/io/PostgresBulkDatabaseWriter.java:94 | every character of a string that decodes is a hex digit |
| HexCodec.HexDecodeDefined | symmetric-client/src/main/java/org/jumpmind/symmetric/io/PostgresBulkDatabaseWriter.java:94 | decoding succeeds if and only if the length is even and every character is a hex digit |
| RowFormat.FindBinaryColumn | symmetric-client/src/main/java/org/jumpmind/symmetric/io/PostgresBulkDatabaseWriter.java:77-82 | the loop with break reports true exactly when some column is binary |
| RowFormat.ConvertValue | symmetric-client/src/main/java/org/jumpmind/symmetric/io/PostgresBulkDatabaseWriter.java:93-97 | converting a field fails exactly for HEX text that does not decode, and then with a decoding error |
| RowFormat.ConvertColumns | symmetric-client/src/main/java/org/jumpmind/symmetric/io/PostgresBulkDatabaseWriter.java:89-100 | the conversion loop can only stop at a missing field or a decoding error |
| RowFormat.ConvertColumnsFailure | symmetric-client/src/main/java/org/jumpmind/symmetric/io/PostgresBulkDatabaseWriter.java:89-100 | the conversion loop fails if and only if some binary column lacks its field or holds a non-null text that does not decode |
| RowFormat.ConvertColumnsFields | symmetric-client/src/main/java/org/jumpmind/symmetric/io/PostgresBulkDatabaseWriter.java:89-100 | a conversion that succeeds keeps the row's length, rewrites each non-null field of a binary column to its converted text and leaves every other field, null ones included, as it was |
| RowFormat.ConvertColumnsErrStays | symmetric-client/src/main/java/org/jumpmind/symmetric/io/PostgresBulkDatabaseWriter.java:89-100 | the first error ends the loop: later columns do not change it |
| RowFormat.ConvertBinaryColumns | symmetric-client/src/main/java/org/jumpmind/symmetric/io/PostgresBulkDatabaseWriter.java:89-100 | overwriting parsedData[i] in place leaves the array equal to the specified conversion, or reports the error it stops at |
| RowFormat.FormattedRow | symmetric-client/src/main/java/org/jumpmind/symmetric/io/PostgresBulkDatabaseWriter.java:88-102 | a row fails only when conversion is needed, with a missing field or a decoding error; a formatted row holds no NUL |
| RowFormat.FormatRow | symmetric-client/src/main/java/org/jumpmind/symmetric/io/PostgresBulkDatabaseWriter.java:88-102 | conversion when needed, CSV escaping and NUL removal produce the specified row or error |
| CopyChannel.CopyIn.WriteToCopy | symmetric-client/src/main/java/org/jumpmind/symmetric/io/PostgresBulkDatabaseWriter.java:104 | the call is logged with its outcome; a successful write appends the row to the buffered rows of an active channel; a failure leaves the rows or aborts the copy |
| CopyChannel.CopyIn.FlushCopy | symmetric-client/src/main/java/org/jumpmind/symmetric/io/PostgresBulkDatabaseWriter.java:144 | the call is logged with its outcome; a successful flush moves the buffered rows to the sent rows |
| CopyChannel.CopyIn.EndCopy | symmetric-client/src/main/java/org/jumpmind/symmetric/io/PostgresBulkDatabaseWriter.java:185 | the call is logged with its outcome; the channel always ends inactive and empty; on success every row it held is loaded into the table |
| CopyChannel.CopyIn.CancelCopy | symmetric-client/src/main/java/org/jumpmind/symmetric/io/PostgresBulkDatabaseWriter.java:217 | the call is logged; the channel ends inactive, its rows are discarded and nothing is loaded |
| CopyChannel.CopyManager.OpenCopyIn | symmetric-client/src/main/java/org/jumpmind/symmetric/io/PostgresBulkDatabaseWriter.java:171 | a channel that opens is fresh, active, empty and carries the command |
| PostgresBulk.PostgresBulkDatabaseWriter.constructor | symmetric-client/src/main/java/org/jumpmind/symmetric/io/PostgresBulkDatabaseWriter.java:60-65 | a new writer holds no channel and has loaded no rows |
| PostgresBulk.PostgresBulkDatabaseWriter.Start | symmetric-client/src/main/java/org/jumpmind/symmetric/io/PostgresBulkDatabaseWriter.java:199-202 | the target table becomes whatever the base writer's lookup resolved; nothing else changes |
| PostgresBulk.PostgresBulkDatabaseWriter.BaseWrite | symmetric-client/src/main/java/org/jumpmind/symmetric/io/PostgresBulkDatabaseWriter.java:116 | the base writer either applies the event, logged with whether a channel was held, or raises its error and applies nothing |
| PostgresBulk.PostgresBulkDatabaseWriter.BaseEndTable | symmetric-client/src/main/java/org/jumpmind/symmetric/io/PostgresBulkDatabaseWriter.java:209 | the teardown call is logged with the table, its outcome and whether a channel was still held; its only error is the base writer's |
| PostgresBulk.PostgresBulkDatabaseWriter.BaseEndBatch | symmetric-client/src/main/java/org/jumpmind/symmetric/io/PostgresBulkDatabaseWriter.java:223 | the teardown call is logged with the in-error flag, its outcome and whether a channel was still held; its only error is the base writer's |
| PostgresBulk.PostgresBulkDatabaseWriter.UpdateNeedsBinaryConversion | symmetric-client/src/main/java/org/jumpmind/symmetric/io/PostgresBulkDatabaseWriter.java:75-83 | needsBinaryConversion becomes: encoding not NONE, a target table, and a binary column in it |
| PostgresBulk.PostgresBulkDatabaseWriter.StartCopy | symmetric-client/src/main/java/org/jumpmind/symmetric/io/PostgresBulkDatabaseWriter.java:164-176 | a channel is opened only when none is held and there is a target table, with that table's COPY command; an open failure holds none |
| PostgresBulk.PostgresBulkDatabaseWriter.Flush | symmetric-client/src/main/java/org/jumpmind/symmetric/io/PostgresBulkDatabaseWriter.java:140-150 | nothing happens without an active channel; otherwise the buffered rows are sent, or the flush error is raised and the rows are kept or the copy aborted |
| PostgresBulk.EndCopyOutcome | symmetric-client/src/main/java/org/jumpmind/symmetric/io/PostgresBulkDatabaseWriter.java:180-193 | the error endCopy raises after its channel calls: the end step's failure if it failed, else the flush's failure if it failed, else none, each as an if-and-only-if |
| PostgresBulk.AfterThreshold | symmetric-client/src/main/java/org/jumpmind/symmetric/io/PostgresBulkDatabaseWriter.java:120-123 | the counter after the threshold check is unchanged or 0, and below a positive threshold when it started non-negative |
| PostgresBulk.PostgresBulkDatabaseWriter.EndCopy | symmetric-client/src/main/java/org/jumpmind/symmetric/io/PostgresBulkDatabaseWriter.java:178-197 | the reference is cleared and the channel left inactive and empty whatever fails; the calls made are the flush, then the end step unless the flush aborted the copy; the error raised is EndCopyOutcome of those calls; statistics are reset exactly when the end step failed; the held rows are loaded exactly when the end step succeeded |
| PostgresBulk.PostgresBulkDatabaseWriter.CopyRow | symmetric-client/src/main/java/org/jumpmind/symmetric/io/PostgresBulkDatabaseWriter.java:85-108 | an INSERT reuses the held channel or opens one; on success the formatted row is buffered and logged and loadedRows grows by 1; an unformattable row raises its translated cause and leaves the channel as it was or as just opened; a failed write is logged and keeps the rows or aborts the copy; on any failure loadedRows is unchanged |
| PostgresBulk.PostgresBulkDatabaseWriter.WriteRow | symmetric-client/src/main/java/org/jumpmind/symmetric/io/PostgresBulkDatabaseWriter.java:86-107 | on the held channel: the formatted row is appended and counted, or the formatting error is raised with the channel untouched, or the failed write is logged with the rows kept or the copy aborted |
| PostgresBulk.PostgresBulkDatabaseWriter.WriteRowByRow | symmetric-client/src/main/java/org/jumpmind/symmetric/io/PostgresBulkDatabaseWriter.java:111-117 | the channel is ended before the base writer runs; an error of endCopy is raised and the base writer does not run; otherwise the base writer applies the event with no channel held, or raises its own error |
| PostgresBulk.PostgresBulkDatabaseWriter.FinishWrite | symmetric-client/src/main/java/org/jumpmind/symmetric/io/PostgresBulkDatabaseWriter.java:120-127 | the channel's call log grows by exactly one flush when loadedRows has reached the threshold and a channel is active, and by nothing otherwise; after a successful flush loadedRows becomes 0 and ROWCOUNT and LINENUMBER grow by one; a failed flush raises FlushFailed, leaves loadedRows and the statistics unchanged and leaves the channel's rows as the driver left them (kept while active, none once aborted) |
| PostgresBulk.PostgresBulkDatabaseWriter.WriteInsert | symmetric-client/src/main/java/org/jumpmind/symmetric/io/PostgresBulkDatabaseWriter.java:74-127 | the binary-conversion flag is recomputed, then the row is written as in CopyAndFinish: the channel's calls are the write, then a flush exactly when the counter reaches the threshold; a failed flush leaves the row counted and in the channel while it is active; CopyRow's failure cases are passed through unchanged |
| PostgresBulk.PostgresBulkDatabaseWriter.CopyAndFinish | symmetric-client/src/main/java/org/jumpmind/symmetric/io/PostgresBulkDatabaseWriter.java:85-127 | on success the channel's log grows by the row's successful write followed by a successful flush exactly when loadedRows + 1 reaches the threshold, and loadedRows is the counter after that threshold; a FlushFailed error happens only at the threshold, after the row was counted and written, with the row still pending while the channel is active; every other failure leaves loadedRows unchanged, as CopyRow says |
| PostgresBulk.PostgresBulkDatabaseWriter.WriteOther | symmetric-client/src/main/java/org/jumpmind/symmetric/io/PostgresBulkDatabaseWriter.java:74-127 | the row-by-row path followed by the threshold check and the statistics increment; an error of endCopy is the error raised, and then the context entry is not set and the base writer applies nothing (only the rows a successful end step completed are added); once endCopy succeeds the context entry is `default`, and a base writer failure adds only the completed rows |
| PostgresBulk.PostgresBulkDatabaseWriter.BulkWrite | symmetric-client/src/main/java/org/jumpmind/symmetric/io/PostgresBulkDatabaseWriter.java:68-128 | an unhandled event is only counted; ROWCOUNT and LINENUMBER grow by one on every normal return; loadedRows is below a positive threshold afterwards; INSERTs stream into one channel, whose log grows by the row's write and then a flush exactly when the counter reaches the threshold; a failed flush happens only there and leaves the row counted and pending while the channel is active; a format or write failure leaves it as CopyRow says; other kinds end it, raising endCopy's error, before the fallback write: after that error the context entry is unchanged and nothing is applied row by row |
| PostgresBulk.PostgresBulkDatabaseWriter.WriteEvents | symmetric-client/src/main/java/org/jumpmind/symmetric/io/PostgresBulkDatabaseWriter.java:68-128 | bulkWrite applied to a run of events until one fails: when all complete, loadedRows equals CounterAfter of the run's kinds and the statistics count every event |
| PostgresBulk.PostgresBulkDatabaseWriter.EndTable | symmetric-client/src/main/java/org/jumpmind/symmetric/io/PostgresBulkDatabaseWriter.java:204-211 | the channel is always ended, and the base teardown always runs afterwards, with no channel held, and is logged; the base writer's error wins, else endCopy's error is raised; statistics are reset exactly when the end step failed |
| PostgresBulk.PostgresBulkDatabaseWriter.EndBatch | symmetric-client/src/main/java/org/jumpmind/symmetric/io/PostgresBulkDatabaseWriter.java:213-224 | in error, the held channel sees exactly one cancelCopy call, which discards its rows (any cancel error is swallowed), and the reference is cleared; otherwise the channel is untouched; the base end always runs after that cancel, which the log shows as a channel held only outside an error, and its outcome is the result |
| PostgresBulk.CounterAfterBounded | symmetric-client/src/main/java/org/jumpmind/symmetric/io/PostgresBulkDatabaseWriter.java:120-123 | over any run of completed events, the counter stays within 0 and a positive threshold |
| PostgresBulk.CounterAfterAppend | symmetric-client/src/main/java/org/jumpmind/symmetric/io/PostgresBulkDatabaseWriter.java:105-123 | the counter after two runs is the second run's counter started where the first ended |
| PostgresBulk.CounterAfterInsertsBelow | symmetric-client/src/main/java/org/jumpmind/symmetric/io/PostgresBulkDatabaseWriter.java:105-123 | fewer INSERTs than the threshold, from 0, leave the counter equal to their number |
| PostgresBulk.CounterAfterThresholdInserts | symmetric-client/src/main/java/org/jumpmind/symmetric/io/PostgresBulkDatabaseWriter.java:105-123 | exactly threshold-many INSERTs from 0 flush and leave the counter 0, so what follows counts afresh |

## Left out

- `open(DataContext)` (lines 153-162) unwraps the JDBC connection and builds the `CopyManager`. These are driver calls. The writer is constructed with a `CopyManager` already in place.
- The PostgreSQL driver's copy protocol is not modelled. `CopyIn` and `CopyManager` are abstract classes that may fail. Two of their behaviours here are modelling choices: `endCopy` and `cancelCopy` always leave the channel inactive, and a failed write or flush either keeps the rows or aborts the copy.
- `CsvUtils.escapeCsvData`, `Base64.decodeBase64` and `Table.getQualifiedTableName` are kept as function-valued parameters of the writer. Their escaping and decoding rules are not assumed.
- HexCodec.HexDigitValue accepts only ASCII hex digits. Commons `Hex.decodeHex` uses `Character.digit`, which also accepts other Unicode digit characters.
- `String.getBytes()` depends on the platform charset. It is left out, and a row is the character sequence written to the channel.
- The LOADMILLIS timers and the debug logging are left out: they are wall-clock time and output.
- `getSqlTemplate().translate` is modelled as wrapping the cause in `SqlError`. Errors of the base writer are passed through as `BaseWriterError`.
- CopyChannel.CopyIn.CancelCopy: `end(Batch, inError)` catches only `SQLException`. The model treats every failure of the cancel as caught.
- Java `int` overflow of `loadedRows` and of the statistics after 2^31 rows is not modelled. The counters are unbounded integers.
- RowFormat.FormatRow copies the parsed fields into a fresh array. The Java code overwrites the array cached inside `CsvData`, so a later reader of that event would see the converted fields. That aliasing is not modelled.
- Null column names are not modelled. A column name is always a string, and `StringUtils.isNotBlank(null)` is false, the same as for an empty name.
- `start(Table)` (lines 199-202) only calls the base writer. `Start` takes the table that writer's lookup resolves as a parameter, and its answer is chosen by the environment; the lookup itself is not modelled.
- PostgresBulk.PostgresBulkDatabaseWriter.WriteEvents: the loop that feeds events to `bulkWrite` belongs to the framework, not to this class. The model stops at the first error and states the counter only for runs that complete. It also requires a target table, so a run of events without one (which `bulkWrite` only counts, or which are CREATEs) is not covered by it.
- PostgresBulk.PostgresBulkDatabaseWriter.Start: the base writer's `start(Table)` may also raise an error; the model gives it no failure outcome, and always sets the target table to what the lookup resolved.
- The field `bulkWriterToUse` stands for the context entry CONTEXT_BULK_WRITER_TO_USE set at line 115. The model writes it but reads it nowhere, since the framework code that reads it is not part of this model.
- The binary encoding is a field of the writer rather than a property read from the batch on each call.
