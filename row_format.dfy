/**
 * How the bulk writer turns an INSERT event into the text row it streams
 * (the try block of PostgresBulkDatabaseWriter.bulkWrite): binary columns are
 * decoded from the batch encoding and re-escaped in octal, the fields are
 * CSV-escaped by CsvUtils.escapeCsvData (a parameter here), and the NULs are
 * removed.
 */
module RowFormat {
  import opened Types
  import ByteaEscape
  import HexCodec
  import IllegalCharacters

  predicate HasBinaryColumn(columns: seq<Column>)
  {
    exists k :: 0 <= k < |columns| && columns[k].isBinary
  }

  /** needsBinaryConversion: the batch encoding is not NONE and the table has a binary column. */
  predicate NeedsBinaryConversion(encoding: BinaryEncoding, table: Option<Table>)
  {
    encoding != NoEncoding && table.Some? && HasBinaryColumn(table.value.columns)
  }

  /** The loop over the columns that stops at the first binary one. */
  method FindBinaryColumn(columns: seq<Column>) returns (found: bool)
    ensures found <==> HasBinaryColumn(columns)
  {
    found := false;
    var k := 0;
    while k < |columns|
      invariant 0 <= k <= |columns|
      invariant forall j :: 0 <= j < k ==> !columns[j].isBinary
    {
      if columns[k].isBinary {
        found := true;
        break;
      }
      k := k + 1;
    }
  }

  /** What the text of a non-null binary field becomes: its decoded bytes in octal escapes. */
  function ConvertValue(text: string, encoding: BinaryEncoding, decodeBase64: string -> seq<byte>): (r: Result<string, Cause>)
    ensures r.Err? <==> encoding == Hex && HexCodec.HexDecode(text).None?
    ensures r.Err? ==> r.error == DecodeFailed
  {
    match encoding
    case Hex =>
      (match HexCodec.HexDecode(text)
       case None => Err(DecodeFailed)
       case Some(bytes) => Ok(ByteaEscape.EscapeBytes(bytes)))
    case Base64 => Ok(ByteaEscape.EscapeBytes(decodeBase64(text)))
    case NoEncoding => Ok(text)
  }

  /** One step of the conversion loop: column i of the fields. */
  function ConvertAt(fields: seq<Option<string>>, column: Column, i: nat, encoding: BinaryEncoding,
                     decodeBase64: string -> seq<byte>): (r: Result<seq<Option<string>>, Cause>)
    ensures r.Err? ==> r.error == IndexOutOfBounds || r.error == DecodeFailed
  {
    if !column.isBinary then Ok(fields)
    else if i >= |fields| then Err(IndexOutOfBounds)
    else if fields[i].None? then Ok(fields)
    else
      match ConvertValue(fields[i].value, encoding, decodeBase64)
      case Err(e) => Err(e)
      case Ok(v) => Ok(fields[i := Some(v)])
  }

  /** The fields after the conversion loop has handled columns 0 .. k-1, or the error it stopped at. */
  function ConvertColumns(fields: seq<Option<string>>, columns: seq<Column>, encoding: BinaryEncoding,
                          decodeBase64: string -> seq<byte>, k: nat): (r: Result<seq<Option<string>>, Cause>)
    requires k <= |columns|
    ensures r.Err? ==> r.error == IndexOutOfBounds || r.error == DecodeFailed
  {
    if k == 0 then Ok(fields)
    else
      match ConvertColumns(fields, columns, encoding, decodeBase64, k - 1)
      case Err(e) => Err(e)
      case Ok(done) => ConvertAt(done, columns[k - 1], k - 1, encoding, decodeBase64)
  }

  /** A field fails to convert: it belongs to a binary column and is missing from the row or does not decode. */
  predicate FailsAt(fields: seq<Option<string>>, columns: seq<Column>, encoding: BinaryEncoding,
                    decodeBase64: string -> seq<byte>, i: nat)
    requires i < |columns|
  {
    columns[i].isBinary
    && (i >= |fields| || (fields[i].Some? && ConvertValue(fields[i].value, encoding, decodeBase64).Err?))
  }

  /** The conversion of the first k columns fails exactly when one of them fails on its own. */
  lemma {:induction false} ConvertColumnsFailure(fields: seq<Option<string>>, columns: seq<Column>,
                                                 encoding: BinaryEncoding, decodeBase64: string -> seq<byte>, k: nat)
    requires k <= |columns|
    ensures ConvertColumns(fields, columns, encoding, decodeBase64, k).Err? <==>
      exists i :: 0 <= i < k && FailsAt(fields, columns, encoding, decodeBase64, i)
  {
    if k > 0 {
      ConvertColumnsFailure(fields, columns, encoding, decodeBase64, k - 1);
      var prev := ConvertColumns(fields, columns, encoding, decodeBase64, k - 1);
      var j := k - 1;
      if prev.Ok? {
        ConvertColumnsFields(fields, columns, encoding, decodeBase64, j);
        var done := prev.value;
        assert j < |fields| ==> done[j] == fields[j];
        assert ConvertColumns(fields, columns, encoding, decodeBase64, k) == ConvertAt(done, columns[j], j, encoding, decodeBase64);
        if FailsAt(fields, columns, encoding, decodeBase64, j) {
          assert ConvertColumns(fields, columns, encoding, decodeBase64, k).Err?;
        } else {
          assert forall i :: 0 <= i < j ==> !FailsAt(fields, columns, encoding, decodeBase64, i);
        }
      } else {
        var i :| 0 <= i < j && FailsAt(fields, columns, encoding, decodeBase64, i);
      }
    }
  }

  /**
   * A conversion of the first k columns that succeeds keeps the row's length,
   * rewrites each non-null field of a binary column among them to its
   * converted text and leaves every other field as it was.
   */
  lemma {:induction false} ConvertColumnsFields(fields: seq<Option<string>>, columns: seq<Column>,
                                                encoding: BinaryEncoding, decodeBase64: string -> seq<byte>, k: nat)
    requires k <= |columns|
    ensures ConvertColumns(fields, columns, encoding, decodeBase64, k).Ok? ==>
      var r := ConvertColumns(fields, columns, encoding, decodeBase64, k).value;
      |r| == |fields|
      && (forall i :: 0 <= i < |fields| && !(i < k && columns[i].isBinary && fields[i].Some?) ==> r[i] == fields[i])
      && (forall i :: 0 <= i < k && i < |fields| && columns[i].isBinary && fields[i].Some? ==>
            r[i].Some? && ConvertValue(fields[i].value, encoding, decodeBase64) == Ok(r[i].value))
  {
    if k > 0 {
      ConvertColumnsFields(fields, columns, encoding, decodeBase64, k - 1);
      var prev := ConvertColumns(fields, columns, encoding, decodeBase64, k - 1);
      var j := k - 1;
      if prev.Ok? {
        var done := prev.value;
        assert j < |fields| ==> done[j] == fields[j];
        assert ConvertColumns(fields, columns, encoding, decodeBase64, k) == ConvertAt(done, columns[j], j, encoding, decodeBase64);
      }
    }
  }

  /** Once the loop has stopped at an error, the later columns do not change it. */
  lemma {:induction false} ConvertColumnsErrStays(fields: seq<Option<string>>, columns: seq<Column>,
                                                  encoding: BinaryEncoding, decodeBase64: string -> seq<byte>, k: nat, m: nat)
    requires k <= m <= |columns|
    requires ConvertColumns(fields, columns, encoding, decodeBase64, k).Err?
    ensures ConvertColumns(fields, columns, encoding, decodeBase64, m) == ConvertColumns(fields, columns, encoding, decodeBase64, k)
    decreases m - k
  {
    if k < m {
      ConvertColumnsErrStays(fields, columns, encoding, decodeBase64, k, m - 1);
    }
  }

  /** The row text streamed for an event, or the error that stops it. */
  function FormattedRow(rowData: seq<Option<string>>, columns: seq<Column>, needsConversion: bool, encoding: BinaryEncoding,
                        escapeCsvData: seq<Option<string>> -> string, decodeBase64: string -> seq<byte>): (r: Result<string, Cause>)
    ensures r.Err? ==> needsConversion && (r.error == IndexOutOfBounds || r.error == DecodeFailed)
    ensures r.Ok? ==> '\0' !in r.value
  {
    var converted := if needsConversion then ConvertColumns(rowData, columns, encoding, decodeBase64, |columns|) else Ok(rowData);
    match converted
    case Err(e) => Err(e)
    case Ok(fields) =>
      IllegalCharacters.WithoutNulHasNoNul(escapeCsvData(fields));
      Ok(IllegalCharacters.WithoutNul(escapeCsvData(fields)))
  }

  /** The octal re-encoding of binary fields, overwriting parsedData[i] in place. */
  method ConvertBinaryColumns(parsedData: array<Option<string>>, columns: seq<Column>, encoding: BinaryEncoding,
                              decodeBase64: string -> seq<byte>) returns (failure: Option<Cause>)
    modifies parsedData
    ensures var expected := ConvertColumns(old(parsedData[..]), columns, encoding, decodeBase64, |columns|);
      (failure.None? <==> expected.Ok?)
      && (expected.Ok? ==> parsedData[..] == expected.value)
      && (expected.Err? ==> failure == Some(expected.error))
  {
    ghost var original := parsedData[..];
    for i := 0 to |columns|
      invariant ConvertColumns(original, columns, encoding, decodeBase64, i) == Ok(parsedData[..])
    {
      ghost var before := parsedData[..];
      if columns[i].isBinary {
        if i >= parsedData.Length {
          // parsedData[i] throws ArrayIndexOutOfBoundsException
          ConvertColumnsErrStays(original, columns, encoding, decodeBase64, i + 1, |columns|);
          return Some(IndexOutOfBounds);
        }
        if parsedData[i].Some? {
          var text := parsedData[i].value;
          if encoding == Hex {
            var bytes := HexCodec.HexDecode(text);
            if bytes.None? {
              ConvertColumnsErrStays(original, columns, encoding, decodeBase64, i + 1, |columns|);
              return Some(DecodeFailed);
            }
            var escaped := ByteaEscape.Encode(bytes.value);
            parsedData[i] := Some(escaped);
          } else if encoding == Base64 {
            var escaped := ByteaEscape.Encode(decodeBase64(text));
            parsedData[i] := Some(escaped);
          } else {
            assert before[i := Some(text)] == before;
          }
        }
      }
      assert ConvertAt(before, columns[i], i, encoding, decodeBase64) == Ok(parsedData[..]);
    }
    failure := None;
  }

  /** Builds the row of an INSERT: conversion when needed, CSV escaping, then NUL removal. */
  method FormatRow(rowData: seq<Option<string>>, columns: seq<Column>, needsConversion: bool, encoding: BinaryEncoding,
                   escapeCsvData: seq<Option<string>> -> string, decodeBase64: string -> seq<byte>)
    returns (row: Result<string, Cause>)
    ensures row == FormattedRow(rowData, columns, needsConversion, encoding, escapeCsvData, decodeBase64)
  {
    var parsedData := new Option<string>[|rowData|](i requires 0 <= i < |rowData| => rowData[i]);
    assert parsedData[..] == rowData;
    if needsConversion {
      var failure := ConvertBinaryColumns(parsedData, columns, encoding, decodeBase64);
      if failure.Some? {
        return Err(failure.value);
      }
    }
    var formattedData := escapeCsvData(parsedData[..]);
    formattedData := IllegalCharacters.RemoveIllegalCharacters(formattedData);
    row := Ok(formattedData);
  }
}
