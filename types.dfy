/** Values shared by the bulk writer model: rows, tables, encodings and errors. */
module Types {

  datatype Option<+T> = None | Some(value: T)

  datatype Result<+T, +E> = Ok(value: T) | Err(error: E)

  /** An unsigned byte, the value of `b & 0xff` for a Java `byte`. */
  newtype byte = x: int | 0 <= x < 256

  /** A column of the target table; `name` is the column's declared name. */
  datatype Column = Column(name: string, isBinary: bool)

  /** The target table: its columns in declaration order. */
  datatype Table = Table(catalog: string, schema: string, name: string, columns: seq<Column>)

  /** The batch's binary encoding (NONE, HEX or BASE64). */
  datatype BinaryEncoding = NoEncoding | Hex | Base64

  /** The kind of a captured change event. */
  datatype DataEventType = Insert | Update | Delete | Create | OtherEvent(code: string)

  /** A change event: its kind and its parsed row data, a missing (null) field being `None`. */
  datatype CsvData = CsvData(eventType: DataEventType, rowData: seq<Option<string>>)

  /** The dialect's identifier quote token and separators (DatabaseInfo). */
  datatype DatabaseInfo = DatabaseInfo(delimiterToken: string, catalogSeparator: string, schemaSeparator: string)

  /** What went wrong underneath a translated SQL error. */
  datatype Cause =
    | OpenFailed        // copyManager.copyIn(sql) threw
    | DecodeFailed      // hex decoding of a binary column threw
    | IndexOutOfBounds  // a binary column had no parsed field at its position
    | WriteFailed       // copyIn.writeToCopy threw
    | FlushFailed       // copyIn.flushCopy threw
    | EndFailed         // copyIn.endCopy threw

  datatype Error =
    | SqlError(cause: Cause)  // what getSqlTemplate().translate(ex) raises: a generic error holding its cause
    | BaseWriterError         // raised by the base writer's own write or end and passed through unchanged

  /** How a call returned: normally, or by raising an error. */
  datatype Outcome = Success | Failure(error: Error)
}
