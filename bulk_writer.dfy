/**
 * The PostgreSQL bulk-load session (PostgresBulkDatabaseWriter): INSERT events
 * are streamed through one COPY channel, every other event first closes the
 * channel and then goes to the base writer's row-by-row path, and the channel
 * is flushed whenever the count of loaded rows reaches the threshold.
 *
 * The base writer (super.write, super.end) is a collaborator that may fail;
 * the ghost log `applied` records what reached the target, in order.
 */
module PostgresBulk {
  import opened Types
  import CopyCommand
  import opened RowFormat
  import opened CopyChannel

  /** What reached the target table. */
  datatype Applied =
    | Copied(rows: seq<string>)                  // the rows a completed COPY loaded into the table
    | RowByRow(data: CsvData, whileCopying: bool)  // an event the base writer applied, and whether a channel was held then

  /** What a successful end of the channel c adds to the log: the rows it holds, if it is still active. */
  ghost function Completing(c: CopyIn?): seq<Applied>
    reads c
  {
    if c != null && c.active then [Copied(c.sent + c.buffered)] else []
  }

  /** A call of the base writer's end(table), whether it completed, and whether a channel was still held. */
  datatype TableEnd = TableEnd(table: Table, ok: bool, whileCopying: bool)

  /** A call of the base writer's end(batch, inError), whether it completed, and whether a channel was still held. */
  datatype BatchEnd = BatchEnd(inError: bool, ok: bool, whileCopying: bool)

  /**
   * The channel calls endCopy makes: none on a channel that is no longer
   * active, otherwise the flush, and then the end step unless the failed
   * flush already aborted the COPY.
   */
  ghost predicate EndCopyCalls(wasActive: bool, made: seq<Call>)
  {
    if !wasActive then made == []
    else made == [FlushCall(false)] || (|made| == 2 && made[0].FlushCall? && made[1].EndCall?)
  }

  /**
   * The error endCopy raises after the calls it made: the failure of the end
   * step, which replaces a failure of the flush in the finally block, else the
   * failure of the flush, else none.
   */
  function EndCopyOutcome(made: seq<Call>): (r: Outcome)
    ensures r == Failure(SqlError(EndFailed)) <==> EndCall(false) in made
    ensures r == Failure(SqlError(FlushFailed)) <==> FlushCall(false) in made && EndCall(false) !in made
    ensures r.Success? <==> FlushCall(false) !in made && EndCall(false) !in made
  {
    if EndCall(false) in made then Failure(SqlError(EndFailed))
    else if FlushCall(false) in made then Failure(SqlError(FlushFailed))
    else Success
  }

  /** The row counter after the threshold check: below a positive threshold, either unchanged or restarted. */
  function AfterThreshold(loadedRows: int, maxRowsBeforeFlush: int): (r: int)
    ensures r == loadedRows || r == 0
    ensures 0 <= loadedRows && 1 <= maxRowsBeforeFlush ==> 0 <= r < maxRowsBeforeFlush
  {
    if loadedRows >= maxRowsBeforeFlush then 0 else loadedRows
  }

  /**
   * The row counter after a run of handled events that all completed, each
   * call's threshold check applied in turn: an INSERT adds one, any other
   * kind nothing.
   */
  function CounterAfter(start: int, kinds: seq<DataEventType>, maxRowsBeforeFlush: int): int
  {
    if kinds == [] then start
    else
      var before := CounterAfter(start, kinds[..|kinds| - 1], maxRowsBeforeFlush);
      AfterThreshold(before + (if kinds[|kinds| - 1] == Insert then 1 else 0), maxRowsBeforeFlush)
  }

  /** Starting below a positive threshold, the counter stays below it after every run of events. */
  lemma {:induction false} CounterAfterBounded(start: int, kinds: seq<DataEventType>, maxRowsBeforeFlush: int)
    requires 0 <= start < maxRowsBeforeFlush
    ensures 0 <= CounterAfter(start, kinds, maxRowsBeforeFlush) < maxRowsBeforeFlush
  {
    if kinds != [] {
      CounterAfterBounded(start, kinds[..|kinds| - 1], maxRowsBeforeFlush);
    }
  }

  /** The counter after two runs in a row is the counter of the second run started where the first ended. */
  lemma {:induction false} CounterAfterAppend(start: int, first: seq<DataEventType>, second: seq<DataEventType>,
                                              maxRowsBeforeFlush: int)
    ensures CounterAfter(start, first + second, maxRowsBeforeFlush)
         == CounterAfter(CounterAfter(start, first, maxRowsBeforeFlush), second, maxRowsBeforeFlush)
    decreases |second|
  {
    if second == [] {
      assert first + second == first;
    } else {
      assert (first + second)[..|first + second| - 1] == first + second[..|second| - 1];
      CounterAfterAppend(start, first, second[..|second| - 1], maxRowsBeforeFlush);
    }
  }

  /** Fewer INSERTs than the threshold, from a fresh counter, are all still counted. */
  lemma {:induction false} CounterAfterInsertsBelow(n: nat, maxRowsBeforeFlush: int)
    requires n < maxRowsBeforeFlush
    ensures CounterAfter(0, seq(n, _ => Insert), maxRowsBeforeFlush) == n
  {
    if n > 0 {
      assert seq(n, _ => Insert)[..n - 1] == seq(n - 1, _ => Insert);
      CounterAfterInsertsBelow(n - 1, maxRowsBeforeFlush);
    }
  }

  /**
   * From a fresh counter, exactly maxRowsBeforeFlush INSERTs trigger the
   * flush and leave the counter at 0, so the next run starts afresh.
   */
  lemma CounterAfterThresholdInserts(maxRowsBeforeFlush: int, rest: seq<DataEventType>)
    requires maxRowsBeforeFlush >= 1
    ensures CounterAfter(0, seq(maxRowsBeforeFlush, _ => Insert), maxRowsBeforeFlush) == 0
    ensures CounterAfter(0, seq(maxRowsBeforeFlush, _ => Insert) + rest, maxRowsBeforeFlush)
         == CounterAfter(0, rest, maxRowsBeforeFlush)
  {
    var m := maxRowsBeforeFlush;
    assert seq(m, _ => Insert)[..m - 1] == seq(m - 1, _ => Insert);
    CounterAfterInsertsBelow(m - 1, m);
    CounterAfterAppend(0, seq(m, _ => Insert), rest, m);
  }

  /** bulkWrite acts on an event only with a target table, or for a CREATE. */
  predicate Handles(targetTable: Option<Table>, kind: DataEventType)
  {
    targetTable.Some? || kind == Create
  }

  /** The kinds of a run of events, in order. */
  function Kinds(events: seq<CsvData>): (r: seq<DataEventType>)
    ensures |r| == |events| && forall k :: 0 <= k < |events| ==> r[k] == events[k].eventType
  {
    seq(|events|, k requires 0 <= k < |events| => events[k].eventType)
  }

  class PostgresBulkDatabaseWriter {
    const maxRowsBeforeFlush: int
    /** The driver's copy manager, prepared by open(DataContext). */
    const copyManager: CopyManager
    /** The platform's DatabaseInfo: quote token and separators. */
    const dbInfo: DatabaseInfo
    /** Table.getQualifiedTableName(quote, catalogSeparator, schemaSeparator). */
    const qualifiedTableName: (Table, string, string, string) -> string
    /** CsvUtils.escapeCsvData(fields, '\n', '\'', ESCAPE_MODE_DOUBLED). */
    const escapeCsvData: seq<Option<string>> -> string
    /** Base64.decodeBase64 applied to the field's text. */
    const decodeBase64: string -> seq<byte>

    var copyIn: CopyIn?
    var loadedRows: int
    var needsBinaryConversion: bool
    /** The table the base writer resolved for the current table scope. */
    var targetTable: Option<Table>
    /** The current batch's binary encoding. */
    var binaryEncoding: BinaryEncoding
    /** The batch statistics ROWCOUNT and LINENUMBER. */
    var rowCount: int
    var lineNumber: int
    /** The context entry CONTEXT_BULK_WRITER_TO_USE. */
    var bulkWriterToUse: Option<string>

    /** Every channel this session opened. */
    ghost var channels: set<CopyIn>
    ghost var applied: seq<Applied>
    /** The calls of super.end(table) and super.end(batch, inError), with their outcomes. */
    ghost var tableEnds: seq<TableEnd>
    ghost var batchEnds: seq<BatchEnd>

    /**
     * At most one channel is active, the one held in copyIn; no event was
     * ever applied row by row while a channel was held.
     */
    ghost predicate Valid()
      reads this, channels
    {
      (copyIn != null ==> copyIn in channels)
      && (forall c :: c in channels && c != copyIn ==> !c.active)
      && (forall c :: c in channels ==> c.Valid())
      && (forall i :: 0 <= i < |applied| && applied[i].RowByRow? ==> !applied[i].whileCopying)
      && 0 <= loadedRows
    }

    constructor (maxRowsBeforeFlush: int, copyManager: CopyManager, dbInfo: DatabaseInfo,
                 qualifiedTableName: (Table, string, string, string) -> string,
                 escapeCsvData: seq<Option<string>> -> string, decodeBase64: string -> seq<byte>,
                 binaryEncoding: BinaryEncoding)
      ensures Valid()
      ensures this.maxRowsBeforeFlush == maxRowsBeforeFlush && this.copyManager == copyManager && this.dbInfo == dbInfo
      ensures this.qualifiedTableName == qualifiedTableName && this.escapeCsvData == escapeCsvData
      ensures this.decodeBase64 == decodeBase64 && this.binaryEncoding == binaryEncoding
      ensures copyIn == null && loadedRows == 0 && !needsBinaryConversion && targetTable.None?
      ensures rowCount == 0 && lineNumber == 0 && bulkWriterToUse.None?
      ensures channels == {} && applied == [] && tableEnds == [] && batchEnds == []
    {
      this.maxRowsBeforeFlush := maxRowsBeforeFlush;
      this.copyManager := copyManager;
      this.dbInfo := dbInfo;
      this.qualifiedTableName := qualifiedTableName;
      this.escapeCsvData := escapeCsvData;
      this.decodeBase64 := decodeBase64;
      this.binaryEncoding := binaryEncoding;
      copyIn := null;
      loadedRows := 0;
      needsBinaryConversion := false;
      targetTable := None;
      rowCount, lineNumber := 0, 0;
      bulkWriterToUse := None;
      channels, applied, tableEnds, batchEnds := {}, [], [], [];
    }

    /** The command a channel for table t is opened with. */
    function CopyCommandFor(t: Table): string
    {
      CopyCommand.CopySql(qualifiedTableName(t, dbInfo.delimiterToken, dbInfo.catalogSeparator, dbInfo.schemaSeparator),
                          dbInfo.delimiterToken, t.columns)
    }

    /** The row an INSERT streams into table t. */
    function RowFor(data: CsvData, t: Table): Result<string, Cause>
      reads this`binaryEncoding
    {
      FormattedRow(data.rowData, t.columns, NeedsBinaryConversion(binaryEncoding, Some(t)), binaryEncoding,
                   escapeCsvData, decodeBase64)
    }

    /**
     * start(table): delegates to the base writer, which looks the table up
     * at the target; `resolved` is what that lookup found and `started` the
     * base writer's answer, both chosen by the base writer.
     */
    method Start(table: Table, resolved: Option<Table>) returns (started: bool)
      requires Valid()
      modifies this`targetTable
      ensures Valid()
      ensures targetTable == resolved
    {
      targetTable := resolved;
      started :| true;
    }

    /** super.write(data): the base writer applies the event row by row. */
    method BaseWrite(data: CsvData) returns (r: Outcome)
      modifies this`applied
      ensures r.Success? ==> applied == old(applied) + [RowByRow(data, copyIn != null)]
      ensures r.Failure? ==> r.error == BaseWriterError && applied == old(applied)
    {
      var fails: bool :| true;
      if fails {
        r := Failure(BaseWriterError);
      } else {
        applied := applied + [RowByRow(data, copyIn != null)];
        r := Success;
      }
    }

    /** super.end(table): the base writer's per-table teardown. */
    method BaseEndTable(table: Table) returns (r: Outcome)
      modifies this`tableEnds
      ensures tableEnds == old(tableEnds) + [TableEnd(table, r.Success?, copyIn != null)]
      ensures r.Failure? ==> r.error == BaseWriterError
    {
      var fails: bool :| true;
      r := if fails then Failure(BaseWriterError) else Success;
      tableEnds := tableEnds + [TableEnd(table, r.Success?, copyIn != null)];
    }

    /** super.end(batch, inError): the base writer's batch teardown. */
    method BaseEndBatch(inError: bool) returns (r: Outcome)
      modifies this`batchEnds
      ensures batchEnds == old(batchEnds) + [BatchEnd(inError, r.Success?, copyIn != null)]
      ensures r.Failure? ==> r.error == BaseWriterError
    {
      var fails: bool :| true;
      r := if fails then Failure(BaseWriterError) else Success;
      batchEnds := batchEnds + [BatchEnd(inError, r.Success?, copyIn != null)];
    }

    /** startCopy: opens a channel only when none is held and there is a target table. */
    method StartCopy() returns (r: Outcome)
      requires Valid()
      modifies this`copyIn, this`channels
      ensures Valid()
      ensures old(copyIn) != null || targetTable.None? ==> r == Success && copyIn == old(copyIn) && channels == old(channels)
      ensures old(copyIn) == null && targetTable.Some? ==>
        if r.Success? then
          copyIn != null && fresh(copyIn) && channels == old(channels) + {copyIn}
          && copyIn.sql == CopyCommandFor(targetTable.value) && copyIn.active
          && Pending(copyIn) == [] && copyIn.completed == [] && copyIn.calls == []
        else
          r == Failure(SqlError(OpenFailed)) && copyIn == null && channels == old(channels)
    {
      r := Success;
      if copyIn == null && targetTable.Some? {
        var t := targetTable.value;
        var sql := CopyCommand.CreateCopyMgrSql(
          qualifiedTableName(t, dbInfo.delimiterToken, dbInfo.catalogSeparator, dbInfo.schemaSeparator),
          dbInfo.delimiterToken, t.columns);
        var c := copyManager.OpenCopyIn(sql);
        if c == null {
          r := Failure(SqlError(OpenFailed));
        } else {
          copyIn := c;
          channels := channels + {c};
        }
      }
    }

    /** flush: pushes the buffered rows of an active channel; nothing without one. */
    method Flush() returns (r: Outcome)
      requires Valid()
      modifies copyIn
      ensures Valid()
      ensures copyIn == null || !old(copyIn.active) ==> r == Success && (copyIn != null ==> unchanged(copyIn))
      ensures copyIn != null && old(copyIn.active) ==>
        copyIn.calls == old(copyIn.calls) + [FlushCall(r.Success?)] && copyIn.completed == old(copyIn.completed)
        && (r.Success? ==> copyIn.active && copyIn.sent == old(copyIn.sent + copyIn.buffered) && copyIn.buffered == [])
        && (r.Failure? ==>
              (r.error == SqlError(FlushFailed)
               && (copyIn.active ==> Pending(copyIn) == old(Pending(copyIn)))
               && (!copyIn.active ==> Pending(copyIn) == [])))
    {
      r := Success;
      if copyIn != null && copyIn.active {
        var ok := copyIn.FlushCopy();
        if !ok {
          r := Failure(SqlError(FlushFailed));
        }
      }
    }

    /**
     * endCopy: flushes, ends the channel if it is still active and always
     * drops the reference.  A failure of the end step resets the statistics
     * and is the error raised, replacing a failure of the flush; `made` is
     * what it called on the channel.
     */
    method EndCopy() returns (r: Outcome, ghost made: seq<Call>)
      requires Valid()
      modifies this`copyIn, this`rowCount, this`lineNumber, this`applied, copyIn
      ensures Valid()
      ensures copyIn == null
      ensures old(copyIn) == null ==> made == [] && applied == old(applied)
      ensures old(copyIn) != null ==>
        old(copyIn).calls == old(copyIn.calls) + made && EndCopyCalls(old(copyIn.active), made)
        && !old(copyIn).active && Pending(old(copyIn)) == []
      ensures r == EndCopyOutcome(made)
      ensures if EndCall(false) in made then rowCount == 0 && lineNumber == 0
              else rowCount == old(rowCount) && lineNumber == old(lineNumber)
      ensures applied == old(applied) + (if EndCall(true) in made then old(Completing(copyIn)) else [])
      ensures r.Success? ==> applied == old(applied) + old(Completing(copyIn))
    {
      r, made := Success, [];
      if copyIn != null {
        var c := copyIn;
        ghost var pending := Completing(c);
        ghost var rows := c.sent + c.buffered;
        var flushed := Flush();
        assert c.active ==> old(c.active) && c.sent + c.buffered == rows;
        made := if old(c.active) then [FlushCall(flushed.Success?)] else [];
        if c.active {
          var ok := c.EndCopy();
          made := made + [EndCall(ok)];
          if ok {
            applied := applied + pending;
          } else {
            rowCount := 0;
            lineNumber := 0;
            r := Failure(SqlError(EndFailed));
          }
        }
        copyIn := null;
        if r.Success? {
          r := flushed;
        }
      }
    }

    /** The INSERT case of bulkWrite: startCopy, then the row is formatted and written; a failure raises its translated cause. */
    method CopyRow(data: CsvData) returns (r: Outcome)
      requires Valid() && targetTable.Some?
      requires needsBinaryConversion == NeedsBinaryConversion(binaryEncoding, targetTable)
      modifies this`copyIn, this`channels, this`loadedRows, copyIn
      ensures Valid()
      ensures old(copyIn) != null ==> copyIn == old(copyIn) && channels == old(channels)
      ensures old(copyIn) == null && copyIn != null ==>
        fresh(copyIn) && channels == old(channels) + {copyIn} && copyIn.sql == CopyCommandFor(targetTable.value)
      ensures old(copyIn) == null && copyIn == null ==> channels == old(channels)
      ensures r.Success? ==>
        (RowFor(data, targetTable.value).Ok? && copyIn != null && copyIn.active
         && Pending(copyIn) == old(Pending(copyIn)) + [RowFor(data, targetTable.value).value]
         && copyIn.buffered == (if old(copyIn) == null then [] else old(copyIn.buffered)) + [RowFor(data, targetTable.value).value]
         && loadedRows == old(loadedRows) + 1)
      ensures r.Failure? ==>
        (loadedRows == old(loadedRows)
         && r.error in {SqlError(OpenFailed), SqlError(IndexOutOfBounds), SqlError(DecodeFailed), SqlError(WriteFailed)})
      ensures r == Failure(SqlError(OpenFailed)) ==> old(copyIn) == null && copyIn == null
      ensures RowFor(data, targetTable.value).Err? ==>
        r == Failure(SqlError(OpenFailed)) || r == Failure(SqlError(RowFor(data, targetTable.value).error))
      // a row that cannot be formatted leaves the channel as it was, or as just opened
      ensures r == Failure(SqlError(IndexOutOfBounds)) || r == Failure(SqlError(DecodeFailed)) ==>
        (copyIn != null && (old(copyIn) != null ==> unchanged(copyIn))
         && (old(copyIn) == null ==> copyIn.active && Pending(copyIn) == [] && copyIn.calls == []))
      // a failed write keeps the channel's rows or aborts the COPY
      ensures r == Failure(SqlError(WriteFailed)) ==>
        (copyIn != null && RowFor(data, targetTable.value).Ok?
         && copyIn.calls == old(CallsOf(copyIn)) + [WriteCall(RowFor(data, targetTable.value).value, false)]
         && (copyIn.active ==> Pending(copyIn) == old(Pending(copyIn)))
         && (!copyIn.active ==> Pending(copyIn) == []))
      ensures r.Success? ==>
        copyIn.calls == old(CallsOf(copyIn)) + [WriteCall(RowFor(data, targetTable.value).value, true)]
    {
      r := StartCopy();
      if r.Success? {
        r := WriteRow(data);
      }
    }

    /** The try block of the INSERT case, on the held channel: the row is formatted and written, then counted. */
    method WriteRow(data: CsvData) returns (r: Outcome)
      requires Valid() && targetTable.Some? && copyIn != null
      requires needsBinaryConversion == NeedsBinaryConversion(binaryEncoding, targetTable)
      modifies this`loadedRows, copyIn
      ensures Valid()
      ensures r.Success? ==>
        (RowFor(data, targetTable.value).Ok? && copyIn.active
         && copyIn.buffered == old(copyIn.buffered) + [RowFor(data, targetTable.value).value]
         && copyIn.sent == old(copyIn.sent)
         && copyIn.calls == old(copyIn.calls) + [WriteCall(RowFor(data, targetTable.value).value, true)]
         && loadedRows == old(loadedRows) + 1)
      ensures r.Failure? ==>
        (loadedRows == old(loadedRows)
         && r.error in {SqlError(IndexOutOfBounds), SqlError(DecodeFailed), SqlError(WriteFailed)})
      ensures RowFor(data, targetTable.value).Err? ==> r == Failure(SqlError(RowFor(data, targetTable.value).error))
      ensures r == Failure(SqlError(IndexOutOfBounds)) || r == Failure(SqlError(DecodeFailed)) ==> unchanged(copyIn)
      ensures r == Failure(SqlError(WriteFailed)) ==>
        (RowFor(data, targetTable.value).Ok?
         && copyIn.calls == old(copyIn.calls) + [WriteCall(RowFor(data, targetTable.value).value, false)]
         && (copyIn.active ==> Pending(copyIn) == old(Pending(copyIn)))
         && (!copyIn.active ==> Pending(copyIn) == []))
    {
      r := Success;
      var t := targetTable.value;
      var row := FormatRow(data.rowData, t.columns, needsBinaryConversion, binaryEncoding, escapeCsvData, decodeBase64);
      if row.Err? {
        r := Failure(SqlError(row.error));
        return;
      }
      var ok := copyIn.WriteToCopy(row.value);
      if !ok {
        r := Failure(SqlError(WriteFailed));
        return;
      }
      loadedRows := loadedRows + 1;
    }

    /**
     * The other cases of bulkWrite: endCopy, whose error is raised before the
     * base writer runs; else the base writer applies the event row by row.
     */
    method WriteRowByRow(data: CsvData) returns (r: Outcome, ghost made: seq<Call>)
      requires Valid()
      modifies this`copyIn, this`rowCount, this`lineNumber, this`applied, this`bulkWriterToUse, copyIn
      ensures Valid()
      ensures copyIn == null
      ensures old(copyIn) == null ==> made == []
      ensures old(copyIn) != null ==>
        old(copyIn).calls == old(copyIn.calls) + made && EndCopyCalls(old(copyIn.active), made)
        && !old(copyIn).active && Pending(old(copyIn)) == []
      ensures if EndCall(false) in made then rowCount == 0 && lineNumber == 0
              else rowCount == old(rowCount) && lineNumber == old(lineNumber)
      ensures EndCopyOutcome(made).Failure? ==>
        (r == EndCopyOutcome(made) && bulkWriterToUse == old(bulkWriterToUse)
         && applied == old(applied) + (if EndCall(true) in made then old(Completing(copyIn)) else []))
      ensures EndCopyOutcome(made).Success? ==>
        (bulkWriterToUse == Some("default")
         && (r.Failure? ==> r.error == BaseWriterError && applied == old(applied) + old(Completing(copyIn))))
      ensures r.Success? ==>
        (bulkWriterToUse == Some("default")
         && applied == old(applied) + old(Completing(copyIn)) + [RowByRow(data, false)])
    {
      r, made := EndCopy();
      if r.Failure? {
        return;
      }
      bulkWriterToUse := Some("default");
      r := BaseWrite(data);
    }

    /**
     * The close of a handled bulkWrite: once the loaded rows reach the
     * maximum, flush and restart the count; then the statistics count the
     * event, unless the flush raised an error.
     */
    method FinishWrite() returns (r: Outcome)
      requires Valid()
      modifies this`loadedRows, this`rowCount, this`lineNumber, copyIn
      ensures Valid()
      ensures r.Success? ==> rowCount == old(rowCount) + 1 && lineNumber == old(lineNumber) + 1
      ensures r.Failure? ==> rowCount == old(rowCount) && lineNumber == old(lineNumber)
      ensures r.Success? ==> loadedRows == AfterThreshold(old(loadedRows), maxRowsBeforeFlush)
      ensures r.Failure? ==> r == Failure(SqlError(FlushFailed)) && loadedRows == old(loadedRows)
      ensures r.Failure? ==> old(loadedRows) >= maxRowsBeforeFlush && copyIn != null && old(copyIn.active)
      ensures copyIn == null || !old(copyIn.active) ==> copyIn != null ==> unchanged(copyIn)
      ensures r.Success? && copyIn != null && old(copyIn.active) ==>
        (copyIn.active && Pending(copyIn) == old(Pending(copyIn)) && copyIn.completed == old(copyIn.completed)
         && (old(loadedRows) >= maxRowsBeforeFlush ==> copyIn.buffered == []))
      // the channel sees a flush only at the threshold, and a failed flush is left as the driver left it
      ensures copyIn != null ==>
        copyIn.calls == old(copyIn.calls)
                        + (if old(loadedRows) >= maxRowsBeforeFlush && old(copyIn.active) then [FlushCall(r.Success?)] else [])
      ensures r.Failure? ==>
        (copyIn.completed == old(copyIn.completed)
         && (copyIn.active ==> Pending(copyIn) == old(Pending(copyIn)))
         && (!copyIn.active ==> Pending(copyIn) == []))
    {
      r := Success;
      if loadedRows >= maxRowsBeforeFlush {
        r := Flush();
        if r.Failure? {
          return;
        }
        loadedRows := 0;
      }
      rowCount, lineNumber := rowCount + 1, lineNumber + 1;
    }

    /** The opening of bulkWrite's handled case: whether the target table has a binary column to convert. */
    method UpdateNeedsBinaryConversion()
      modifies this`needsBinaryConversion
      ensures needsBinaryConversion == NeedsBinaryConversion(binaryEncoding, targetTable)
    {
      needsBinaryConversion := false;
      if binaryEncoding != NoEncoding && targetTable.Some? {
        needsBinaryConversion := FindBinaryColumn(targetTable.value.columns);
      }
    }

    /** The INSERT case once the binary-conversion flag is set: the row goes into the channel, then the threshold check and the statistics. */
    method CopyAndFinish(data: CsvData) returns (r: Outcome)
      requires Valid() && targetTable.Some?
      requires needsBinaryConversion == NeedsBinaryConversion(binaryEncoding, targetTable)
      modifies this`copyIn, this`channels, this`loadedRows, this`rowCount, this`lineNumber, copyIn
      ensures Valid()
      ensures r.Success? ==> rowCount == old(rowCount) + 1 && lineNumber == old(lineNumber) + 1
      ensures r.Failure? ==> rowCount == old(rowCount) && lineNumber == old(lineNumber)
      ensures r.Success? ==> loadedRows == AfterThreshold(old(loadedRows) + 1, maxRowsBeforeFlush)
      ensures r.Failure? && r.error != SqlError(FlushFailed) ==> loadedRows == old(loadedRows)
      // the row is written, then the threshold flush runs only when the counter reaches the maximum
      ensures r.Success? ==>
        (RowFor(data, targetTable.value).Ok? && copyIn != null
         && copyIn.calls == old(CallsOf(copyIn)) + [WriteCall(RowFor(data, targetTable.value).value, true)]
                            + (if old(loadedRows) + 1 >= maxRowsBeforeFlush then [FlushCall(true)] else []))
      // a failed threshold flush: the row was counted and the channel is left as the driver left it
      ensures r == Failure(SqlError(FlushFailed)) ==>
        (old(loadedRows) + 1 >= maxRowsBeforeFlush && loadedRows == old(loadedRows) + 1
         && RowFor(data, targetTable.value).Ok? && copyIn != null
         && copyIn.calls == old(CallsOf(copyIn)) + [WriteCall(RowFor(data, targetTable.value).value, true), FlushCall(false)]
         && (copyIn.active ==> Pending(copyIn) == old(Pending(copyIn)) + [RowFor(data, targetTable.value).value])
         && (!copyIn.active ==> Pending(copyIn) == []))
      ensures old(copyIn) != null ==> copyIn == old(copyIn) && channels == old(channels)
      ensures old(copyIn) == null && copyIn != null ==>
        fresh(copyIn) && channels == old(channels) + {copyIn} && copyIn.sql == CopyCommandFor(targetTable.value)
      ensures old(copyIn) == null && copyIn == null ==> channels == old(channels)
      ensures r.Success? ==>
        (RowFor(data, targetTable.value).Ok? && copyIn != null && copyIn.active
         && Pending(copyIn) == old(Pending(copyIn)) + [RowFor(data, targetTable.value).value])
      ensures r.Success? && old(loadedRows) + 1 >= maxRowsBeforeFlush ==> copyIn != null && copyIn.buffered == []
      ensures r.Failure? ==>
        r.error in {SqlError(OpenFailed), SqlError(IndexOutOfBounds), SqlError(DecodeFailed), SqlError(WriteFailed), SqlError(FlushFailed)}
      ensures r == Failure(SqlError(OpenFailed)) ==> old(copyIn) == null && copyIn == null
      ensures RowFor(data, targetTable.value).Err? ==>
        r == Failure(SqlError(OpenFailed)) || r == Failure(SqlError(RowFor(data, targetTable.value).error))
      // a row that cannot be formatted leaves the channel as it was, or as just opened
      ensures r == Failure(SqlError(IndexOutOfBounds)) || r == Failure(SqlError(DecodeFailed)) ==>
        (copyIn != null && (old(copyIn) != null ==> unchanged(copyIn))
         && (old(copyIn) == null ==> copyIn.active && Pending(copyIn) == [] && copyIn.calls == []))
      // a failed write keeps the channel's rows or aborts the COPY
      ensures r == Failure(SqlError(WriteFailed)) ==>
        (copyIn != null && RowFor(data, targetTable.value).Ok?
         && copyIn.calls == old(CallsOf(copyIn)) + [WriteCall(RowFor(data, targetTable.value).value, false)]
         && (copyIn.active ==> Pending(copyIn) == old(Pending(copyIn)))
         && (!copyIn.active ==> Pending(copyIn) == []))
    {
      r := CopyRow(data);
      if r.Success? {
        r := FinishWrite();
      }
    }

    /** An INSERT with a target table: the binary-conversion flag is set, the row goes into the channel, then the threshold check and the statistics. */
    method WriteInsert(data: CsvData) returns (r: Outcome)
      requires Valid() && targetTable.Some?
      modifies this`copyIn, this`channels, this`loadedRows, this`needsBinaryConversion, this`rowCount, this`lineNumber, copyIn
      ensures needsBinaryConversion == NeedsBinaryConversion(binaryEncoding, targetTable)
      ensures Valid()
      ensures r.Success? ==> rowCount == old(rowCount) + 1 && lineNumber == old(lineNumber) + 1
      ensures r.Failure? ==> rowCount == old(rowCount) && lineNumber == old(lineNumber)
      ensures r.Success? ==> loadedRows == AfterThreshold(old(loadedRows) + 1, maxRowsBeforeFlush)
      ensures r.Failure? && r.error != SqlError(FlushFailed) ==> loadedRows == old(loadedRows)
      // the row is written, then the threshold flush runs only when the counter reaches the maximum
      ensures r.Success? ==>
        (RowFor(data, targetTable.value).Ok? && copyIn != null
         && copyIn.calls == old(CallsOf(copyIn)) + [WriteCall(RowFor(data, targetTable.value).value, true)]
                            + (if old(loadedRows) + 1 >= maxRowsBeforeFlush then [FlushCall(true)] else []))
      // a failed threshold flush: the row was counted and the channel is left as the driver left it
      ensures r == Failure(SqlError(FlushFailed)) ==>
        (old(loadedRows) + 1 >= maxRowsBeforeFlush && loadedRows == old(loadedRows) + 1
         && RowFor(data, targetTable.value).Ok? && copyIn != null
         && copyIn.calls == old(CallsOf(copyIn)) + [WriteCall(RowFor(data, targetTable.value).value, true), FlushCall(false)]
         && (copyIn.active ==> Pending(copyIn) == old(Pending(copyIn)) + [RowFor(data, targetTable.value).value])
         && (!copyIn.active ==> Pending(copyIn) == []))
      ensures old(copyIn) != null ==> copyIn == old(copyIn) && channels == old(channels)
      ensures old(copyIn) == null && copyIn != null ==>
        fresh(copyIn) && channels == old(channels) + {copyIn} && copyIn.sql == CopyCommandFor(targetTable.value)
      ensures old(copyIn) == null && copyIn == null ==> channels == old(channels)
      ensures r.Success? ==>
        (RowFor(data, targetTable.value).Ok? && copyIn != null && copyIn.active
         && Pending(copyIn) == old(Pending(copyIn)) + [RowFor(data, targetTable.value).value])
      ensures r.Success? && old(loadedRows) + 1 >= maxRowsBeforeFlush ==> copyIn != null && copyIn.buffered == []
      ensures r.Failure? ==>
        r.error in {SqlError(OpenFailed), SqlError(IndexOutOfBounds), SqlError(DecodeFailed), SqlError(WriteFailed), SqlError(FlushFailed)}
      ensures r == Failure(SqlError(OpenFailed)) ==> old(copyIn) == null && copyIn == null
      ensures RowFor(data, targetTable.value).Err? ==>
        r == Failure(SqlError(OpenFailed)) || r == Failure(SqlError(RowFor(data, targetTable.value).error))
      // a row that cannot be formatted leaves the channel as it was, or as just opened
      ensures r == Failure(SqlError(IndexOutOfBounds)) || r == Failure(SqlError(DecodeFailed)) ==>
        (copyIn != null && (old(copyIn) != null ==> unchanged(copyIn))
         && (old(copyIn) == null ==> copyIn.active && Pending(copyIn) == [] && copyIn.calls == []))
      // a failed write keeps the channel's rows or aborts the COPY
      ensures r == Failure(SqlError(WriteFailed)) ==>
        (copyIn != null && RowFor(data, targetTable.value).Ok?
         && copyIn.calls == old(CallsOf(copyIn)) + [WriteCall(RowFor(data, targetTable.value).value, false)]
         && (copyIn.active ==> Pending(copyIn) == old(Pending(copyIn)))
         && (!copyIn.active ==> Pending(copyIn) == []))
    {
      UpdateNeedsBinaryConversion();
      r := CopyAndFinish(data);
    }

    /**
     * Any other event with a target table, or a CREATE: the channel is ended,
     * the base writer applies the event, then the threshold check and the
     * statistics.
     */
    method WriteOther(data: CsvData) returns (r: Outcome, ghost made: seq<Call>)
      requires Valid()
      modifies this`copyIn, this`loadedRows, this`needsBinaryConversion, this`rowCount, this`lineNumber,
               this`applied, this`bulkWriterToUse, copyIn
      ensures Valid()
      ensures needsBinaryConversion == NeedsBinaryConversion(binaryEncoding, targetTable)
      ensures copyIn == null
      ensures old(copyIn) == null ==> made == []
      ensures old(copyIn) != null ==>
        old(copyIn).calls == old(copyIn.calls) + made && EndCopyCalls(old(copyIn.active), made)
        && !old(copyIn).active && Pending(old(copyIn)) == []
      ensures r.Success? ==> loadedRows == AfterThreshold(old(loadedRows), maxRowsBeforeFlush)
      ensures r.Failure? ==> loadedRows == old(loadedRows)
      // an error of endCopy is raised before the context entry is set or the base writer runs
      ensures EndCopyOutcome(made).Failure? ==>
        (r == EndCopyOutcome(made) && bulkWriterToUse == old(bulkWriterToUse)
         && applied == old(applied) + (if EndCall(true) in made then old(Completing(copyIn)) else []))
      ensures EndCopyOutcome(made).Success? ==> bulkWriterToUse == Some("default")
      ensures EndCopyOutcome(made).Success? && r.Failure? ==>
        r.error == BaseWriterError && applied == old(applied) + old(Completing(copyIn))
      ensures r.Failure? ==>
        if EndCall(false) in made then rowCount == 0 && lineNumber == 0
        else rowCount == old(rowCount) && lineNumber == old(lineNumber)
      ensures r.Success? ==> rowCount == old(rowCount) + 1 && lineNumber == old(lineNumber) + 1
      ensures r.Success? ==>
        (bulkWriterToUse == Some("default")
         && applied == old(applied) + old(Completing(copyIn)) + [RowByRow(data, false)])
    {
      UpdateNeedsBinaryConversion();
      r, made := WriteRowByRow(data);
      if r.Success? {
        r := FinishWrite();
      }
    }

    /**
     * bulkWrite: an INSERT is formatted and written to the channel (opened if
     * needed); any other event closes the channel and goes to the base
     * writer.  Then the threshold check may flush and reset the row counter,
     * and the statistics count the event.
     */
    method BulkWrite(data: CsvData) returns (r: Outcome, ghost made: seq<Call>)
      requires Valid()
      modifies this`copyIn, this`channels, this`loadedRows, this`needsBinaryConversion, this`rowCount,
               this`lineNumber, this`bulkWriterToUse, this`applied, copyIn
      ensures Valid()
      // an event without a target table, other than CREATE, is only counted
      ensures !Handles(targetTable, data.eventType) ==>
        (r == Success && copyIn == old(copyIn) && (copyIn != null ==> unchanged(copyIn))
         && channels == old(channels) && applied == old(applied) && loadedRows == old(loadedRows)
         && needsBinaryConversion == old(needsBinaryConversion) && bulkWriterToUse == old(bulkWriterToUse))
      ensures Handles(targetTable, data.eventType) ==>
        needsBinaryConversion == NeedsBinaryConversion(binaryEncoding, targetTable)
      // the statistics count every completed call; only a failed end of the channel resets them
      ensures r.Success? ==> rowCount == old(rowCount) + 1 && lineNumber == old(lineNumber) + 1
      ensures r.Failure? && r.error != SqlError(EndFailed) ==> rowCount == old(rowCount) && lineNumber == old(lineNumber)
      ensures r == Failure(SqlError(EndFailed)) ==> rowCount == 0 && lineNumber == 0
      // the threshold check
      ensures r.Success? && Handles(targetTable, data.eventType) ==>
        loadedRows == AfterThreshold(old(loadedRows) + (if data.eventType == Insert then 1 else 0), maxRowsBeforeFlush)
      ensures r.Success? && Handles(targetTable, data.eventType) && maxRowsBeforeFlush >= 1 ==>
        loadedRows < maxRowsBeforeFlush
      ensures r.Failure? && !(data.eventType == Insert && r.error == SqlError(FlushFailed)) ==> loadedRows == old(loadedRows)
      // INSERT: stream into the held channel, or a fresh one
      ensures data.eventType == Insert && targetTable.Some? ==>
        (applied == old(applied) && bulkWriterToUse == old(bulkWriterToUse)
         && (old(copyIn) != null ==> copyIn == old(copyIn) && channels == old(channels))
         && (old(copyIn) == null && copyIn != null ==>
               fresh(copyIn) && channels == old(channels) + {copyIn} && copyIn.sql == CopyCommandFor(targetTable.value))
         && (r.Success? ==>
               RowFor(data, targetTable.value).Ok? && copyIn != null && copyIn.active
               && Pending(copyIn) == old(Pending(copyIn)) + [RowFor(data, targetTable.value).value])
         && (r.Success? && old(loadedRows) + 1 >= maxRowsBeforeFlush ==> copyIn != null && copyIn.buffered == [])
         && (r.Failure? ==> r.error in {SqlError(OpenFailed), SqlError(IndexOutOfBounds), SqlError(DecodeFailed),
                                        SqlError(WriteFailed), SqlError(FlushFailed)})
         && (r == Failure(SqlError(OpenFailed)) ==> old(copyIn) == null && copyIn == null))
      // the row is written, then the threshold flush runs only when the counter reaches the maximum
      ensures data.eventType == Insert && targetTable.Some? && r.Success? ==>
        (RowFor(data, targetTable.value).Ok? && copyIn != null
         && copyIn.calls == old(CallsOf(copyIn)) + [WriteCall(RowFor(data, targetTable.value).value, true)]
                            + (if old(loadedRows) + 1 >= maxRowsBeforeFlush then [FlushCall(true)] else []))
      // a failed threshold flush: the row was counted and the channel is left as the driver left it
      ensures data.eventType == Insert && targetTable.Some? && r == Failure(SqlError(FlushFailed)) ==>
        (old(loadedRows) + 1 >= maxRowsBeforeFlush && loadedRows == old(loadedRows) + 1
         && RowFor(data, targetTable.value).Ok? && copyIn != null
         && copyIn.calls == old(CallsOf(copyIn)) + [WriteCall(RowFor(data, targetTable.value).value, true), FlushCall(false)]
         && (copyIn.active ==> Pending(copyIn) == old(Pending(copyIn)) + [RowFor(data, targetTable.value).value])
         && (!copyIn.active ==> Pending(copyIn) == []))
      // a row that cannot be formatted raises its translated cause and writes nothing to the channel
      ensures data.eventType == Insert && targetTable.Some? && RowFor(data, targetTable.value).Err? ==>
        r == Failure(SqlError(OpenFailed)) || r == Failure(SqlError(RowFor(data, targetTable.value).error))
      ensures data.eventType == Insert && targetTable.Some?
              && (r == Failure(SqlError(IndexOutOfBounds)) || r == Failure(SqlError(DecodeFailed))) ==>
        (copyIn != null && (old(copyIn) != null ==> unchanged(copyIn))
         && (old(copyIn) == null ==> copyIn.active && Pending(copyIn) == [] && copyIn.calls == []))
      // a failed write keeps the channel's rows or aborts the COPY
      ensures data.eventType == Insert && targetTable.Some? && r == Failure(SqlError(WriteFailed)) ==>
        (copyIn != null && RowFor(data, targetTable.value).Ok?
         && copyIn.calls == old(CallsOf(copyIn)) + [WriteCall(RowFor(data, targetTable.value).value, false)]
         && (copyIn.active ==> Pending(copyIn) == old(Pending(copyIn)))
         && (!copyIn.active ==> Pending(copyIn) == []))
      // any other kind: the channel is ended, and its error raised, before the base writer runs
      ensures data.eventType == Insert || !Handles(targetTable, data.eventType) ==> made == []
      ensures data.eventType != Insert && Handles(targetTable, data.eventType) ==>
        (copyIn == null && channels == old(channels)
         && (old(copyIn) != null ==>
               old(copyIn).calls == old(copyIn.calls) + made && EndCopyCalls(old(copyIn.active), made)
               && !old(copyIn).active && Pending(old(copyIn)) == [])
         && (EndCopyOutcome(made).Failure? ==>
               r == EndCopyOutcome(made) && bulkWriterToUse == old(bulkWriterToUse)
               && applied == old(applied) + (if EndCall(true) in made then old(Completing(copyIn)) else []))
         && (EndCopyOutcome(made).Success? ==> bulkWriterToUse == Some("default"))
         && (EndCopyOutcome(made).Success? && r.Failure? ==>
               r.error == BaseWriterError && applied == old(applied) + old(Completing(copyIn)))
         && (r.Success? ==>
               bulkWriterToUse == Some("default")
               && applied == old(applied) + old(Completing(copyIn)) + [RowByRow(data, false)]))
    {
      made := [];
      var kind := data.eventType;
      if !(targetTable.Some? || kind == Create) {
        rowCount, lineNumber := rowCount + 1, lineNumber + 1;
        return Success, [];
      }
      if kind == Insert {
        r := WriteInsert(data);
      } else {
        r, made := WriteOther(data);
      }
    }

    /**
     * A run of events of one table scope, given to bulkWrite one at a time
     * until one raises an error: `done` is the number that completed.  While
     * every call completes, the row counter follows CounterAfter and the
     * statistics count every event.
     */
    method WriteEvents(events: seq<CsvData>) returns (r: Outcome, done: nat)
      requires Valid() && targetTable.Some?
      modifies this`copyIn, this`channels, this`loadedRows, this`needsBinaryConversion, this`rowCount,
               this`lineNumber, this`bulkWriterToUse, this`applied, copyIn
      ensures Valid()
      ensures done <= |events| && (r.Success? <==> done == |events|)
      ensures r.Success? ==>
        (loadedRows == CounterAfter(old(loadedRows), Kinds(events), maxRowsBeforeFlush)
         && rowCount == old(rowCount) + |events| && lineNumber == old(lineNumber) + |events|)
    {
      r, done := Success, 0;
      while done < |events|
        invariant done <= |events| && r.Success? && Valid() && targetTable.Some?
        invariant copyIn == null || copyIn == old(copyIn) || fresh(copyIn)
        invariant loadedRows == CounterAfter(old(loadedRows), Kinds(events[..done]), maxRowsBeforeFlush)
        invariant rowCount == old(rowCount) + done && lineNumber == old(lineNumber) + done
        decreases |events| - done
      {
        ghost var made;
        r, made := BulkWrite(events[done]);
        if r.Failure? {
          return;
        }
        assert Kinds(events[..done + 1])[..done] == Kinds(events[..done]);
        done := done + 1;
      }
      assert events[..done] == events;
    }

    /**
     * end(Table): endCopy, and the base writer's teardown in a finally block,
     * whose error wins; `baseOk` is that teardown's outcome.
     */
    method EndTable(table: Table) returns (r: Outcome, ghost made: seq<Call>, ghost baseOk: bool)
      requires Valid()
      modifies this`copyIn, this`rowCount, this`lineNumber, this`applied, this`tableEnds, copyIn
      ensures Valid()
      // the base writer's end runs after the channel is ended
      ensures copyIn == null && tableEnds == old(tableEnds) + [TableEnd(table, baseOk, false)]
      ensures old(copyIn) == null ==> made == []
      ensures old(copyIn) != null ==>
        old(copyIn).calls == old(copyIn.calls) + made && EndCopyCalls(old(copyIn.active), made)
        && !old(copyIn).active && Pending(old(copyIn)) == []
      ensures r == if baseOk then EndCopyOutcome(made) else Failure(BaseWriterError)
      ensures if EndCall(false) in made then rowCount == 0 && lineNumber == 0
              else rowCount == old(rowCount) && lineNumber == old(lineNumber)
      ensures applied == old(applied) + (if EndCall(true) in made then old(Completing(copyIn)) else [])
      ensures r.Success? ==> applied == old(applied) + old(Completing(copyIn))
    {
      var ended;
      ended, made := EndCopy();
      r := BaseEndTable(table);
      baseOk := r.Success?;
      if r.Success? {
        r := ended;
      }
    }

    /**
     * end(Batch, inError): a batch ending in error cancels the held channel,
     * swallowing any error of the cancel and dropping the reference; the base
     * writer's end always runs.
     */
    method EndBatch(inError: bool) returns (r: Outcome, ghost cancelled: bool)
      requires Valid()
      modifies this`copyIn, this`batchEnds, copyIn
      ensures Valid()
      // the base writer's end runs after the cancel, so it sees a channel only outside an error
      ensures batchEnds == old(batchEnds) + [BatchEnd(inError, r.Success?, !inError && old(copyIn) != null)]
      ensures r.Failure? ==> r.error == BaseWriterError
      ensures inError ==> copyIn == null
      ensures inError && old(copyIn) != null ==>
        !old(copyIn).active && Pending(old(copyIn)) == [] && old(copyIn).completed == old(copyIn.completed)
      // the channel sees exactly one cancelCopy, whatever the driver answers
      ensures inError && old(copyIn) != null ==> old(copyIn).calls == old(copyIn.calls) + [CancelCall(cancelled)]
      ensures !inError ==> copyIn == old(copyIn) && (copyIn != null ==> unchanged(copyIn))
    {
      cancelled := false;
      if inError && copyIn != null {
        var ok := copyIn.CancelCopy();
        cancelled := ok;
        // an error of cancelCopy is caught and ignored
        copyIn := null;
      }
      r := BaseEndBatch(inError);
    }
  }
}
