/**
 * The octal escaping the bulk writer applies to the raw bytes of a binary
 * column (PostgresBulkDatabaseWriter.encode), and the decoder of the
 * "bytea Escape Format" of the PostgreSQL manual (section 8.4.2) that reads
 * such text back.
 */
module ByteaEscape {
  import opened Types

  predicate IsOctalDigit(c: char) { '0' <= c <= '7' }

  function OctalDigit(d: int): (c: char)
    requires 0 <= d < 8
    ensures IsOctalDigit(c) && c as int - '0' as int == d
  {
    ('0' as int + d) as char
  }

  function DigitValue(c: char): (d: int)
    requires IsOctalDigit(c)
    ensures 0 <= d < 8 && OctalDigit(d) == c
  {
    c as int - '0' as int
  }

  /** The number a string of octal digits denotes, most significant digit first. */
  function OctalNumber(s: string): nat
    requires forall k :: 0 <= k < |s| ==> IsOctalDigit(s[k])
  {
    if s == [] then 0 else 8 * OctalNumber(s[..|s| - 1]) + DigitValue(s[|s| - 1])
  }

  /** Integer.toString(n, 8): the base-8 digits of n, most significant first, no leading zeros. */
  function OctalString(n: nat): (r: string)
    ensures 1 <= |r| && forall k :: 0 <= k < |r| ==> IsOctalDigit(r[k])
    ensures OctalNumber(r) == n
    ensures r[0] == '0' ==> r == "0"
  {
    if n < 8 then [OctalDigit(n)]
    else
      var r := OctalString(n / 8) + [OctalDigit(n % 8)];
      assert r[..|r| - 1] == OctalString(n / 8);
      r
  }

  /** The bytes that encode writes as an escape rather than as themselves. */
  predicate IsEscaped(b: byte) { b <= 31 || b == 92 || b >= 127 }

  /** What encode appends for one byte: the branches of its loop body. */
  function EncodeByte(b: byte): string
  {
    var i := b as int;
    if 0 <= i <= 7 then "\\00" + OctalString(i)
    else if 8 <= i <= 31 then "\\0" + OctalString(i)
    else if i == 92 || i >= 127 then "\\" + OctalString(i)
    else [i as char]
  }

  /** A backslash followed by exactly three octal digits giving the value i. */
  function OctalEscape(i: int): string
    requires 0 <= i < 256
  {
    ['\\', OctalDigit(i / 64), OctalDigit(i / 8 % 8), OctalDigit(i % 8)]
  }

  /** The text encode produces for a byte sequence: each byte's text, in order. */
  function EscapeBytes(data: seq<byte>): string
  {
    if data == [] then [] else EncodeByte(data[0]) + EscapeBytes(data[1..])
  }

  function EscapedCount(data: seq<byte>): nat
  {
    if data == [] then 0 else (if IsEscaped(data[0]) then 1 else 0) + EscapedCount(data[1..])
  }

  function PassThroughCount(data: seq<byte>): nat
  {
    if data == [] then 0 else (if IsEscaped(data[0]) then 0 else 1) + PassThroughCount(data[1..])
  }

  function Prepend(b: byte, rest: Option<seq<byte>>): Option<seq<byte>>
  {
    match rest
    case None => None
    case Some(r) => Some([b] + r)
  }

  /**
   * PostgreSQL's reading of a bytea value in escape format: a backslash
   * followed by three octal digits (the first at most 3) is that byte, two
   * backslashes are one backslash byte, any other backslash is invalid input,
   * and every other character is its own byte.  Characters outside ASCII
   * depend on the server encoding and are refused here.
   */
  function Unescape(s: string): (r: Option<seq<byte>>)
    ensures r.Some? ==> |r.value| <= |s|
    decreases |s|
  {
    if s == [] then Some([])
    else if s[0] == '\\' then
      if |s| >= 4 && '0' <= s[1] <= '3' && IsOctalDigit(s[2]) && IsOctalDigit(s[3]) then
        Prepend((64 * DigitValue(s[1]) + 8 * DigitValue(s[2]) + DigitValue(s[3])) as byte, Unescape(s[4..]))
      else if |s| >= 2 && s[1] == '\\' then
        Prepend(92, Unescape(s[2..]))
      else None
    else if s[0] as int < 128 then
      Prepend(s[0] as int as byte, Unescape(s[1..]))
    else None
  }

  lemma OctalValue(i: int)
    requires 0 <= i < 256
    ensures 0 <= i / 64 < 4
    ensures 64 * (i / 64) + 8 * (i / 8 % 8) + i % 8 == i
  {
    assert i == 8 * (i / 8) + i % 8;
    assert i / 8 == 8 * (i / 8 / 8) + i / 8 % 8;
    assert i / 8 / 8 == i / 64;
  }

  /**
   * The byte mapping of encode: bytes 0-31, 92 and 127-255 become a backslash
   * and three octal digits (so bytes 0-7 read "\00d" and 8-31 read "\0dd");
   * every other byte, 32-126 except 92, is the one printable character it codes.
   */
  lemma EncodeByteForm(b: byte)
    ensures IsEscaped(b) ==> EncodeByte(b) == OctalEscape(b as int)
    ensures b <= 7 ==> EncodeByte(b) == ['\\', '0', '0', OctalDigit(b as int)]
    ensures !IsEscaped(b) ==> 32 <= b <= 126 && b != 92 && EncodeByte(b) == [b as int as char]
    ensures |EncodeByte(b)| == if IsEscaped(b) then 4 else 1
  {
    var i := b as int;
    if i <= 7 {
      assert OctalString(i) == [OctalDigit(i)];
      assert i / 64 == 0 && i / 8 % 8 == 0 && i % 8 == i;
    } else if i <= 31 {
      assert OctalString(i / 8) == [OctalDigit(i / 8)];
      assert i / 64 == 0 && i / 8 % 8 == i / 8;
    } else if i == 92 || i >= 127 {
      assert i / 8 >= 8;
      assert i / 8 / 8 == i / 64 < 8;
      assert OctalString(i / 8) == [OctalDigit(i / 64)] + [OctalDigit(i / 8 % 8)];
    }
  }

  lemma {:induction false} EscapeBytesAppend(data: seq<byte>, b: byte)
    ensures EscapeBytes(data + [b]) == EscapeBytes(data) + EncodeByte(b)
  {
    if data == [] {
      assert [b][1..] == [];
    } else {
      assert (data + [b])[1..] == data[1..] + [b];
      EscapeBytesAppend(data[1..], b);
    }
  }

  /** Every escaped byte costs four characters and every other byte one. */
  lemma {:induction false} EscapeBytesLength(data: seq<byte>)
    ensures |EscapeBytes(data)| == PassThroughCount(data) + 4 * EscapedCount(data)
    ensures PassThroughCount(data) + EscapedCount(data) == |data|
  {
    if data != [] {
      EncodeByteForm(data[0]);
      EscapeBytesLength(data[1..]);
    }
  }

  /** The output is printable ASCII: every character lies in 32..126. */
  lemma {:induction false} EscapeBytesPrintable(data: seq<byte>)
    ensures forall k :: 0 <= k < |EscapeBytes(data)| ==> 32 <= EscapeBytes(data)[k] as int <= 126
  {
    if data != [] {
      var e, t := EncodeByte(data[0]), EscapeBytes(data[1..]);
      EncodeByteForm(data[0]);
      EscapeBytesPrintable(data[1..]);
      assert EscapeBytes(data) == e + t;
      forall k | 0 <= k < |e + t| ensures 32 <= (e + t)[k] as int <= 126 {
        if k >= |e| {
          assert (e + t)[k] == t[k - |e|];
        }
      }
    }
  }

  /**
   * Every backslash opens an escape of exactly three octal digits, the first
   * at most 3; so no digit of an escape is a backslash.
   */
  ghost predicate BackslashesOpenEscapes(s: string)
  {
    forall k :: 0 <= k < |s| && s[k] == '\\' ==>
      k + 3 < |s| && '0' <= s[k + 1] <= '3' && IsOctalDigit(s[k + 2]) && IsOctalDigit(s[k + 3])
  }

  /** The property survives concatenation: an escape never straddles the two parts. */
  lemma BackslashesOpenEscapesConcat(a: string, b: string)
    requires BackslashesOpenEscapes(a) && BackslashesOpenEscapes(b)
    ensures BackslashesOpenEscapes(a + b)
  {
    var s := a + b;
    forall k | 0 <= k < |s| && s[k] == '\\'
      ensures k + 3 < |s| && '0' <= s[k + 1] <= '3' && IsOctalDigit(s[k + 2]) && IsOctalDigit(s[k + 3])
    {
      if k >= |a| {
        var j := k - |a|;
        assert b[j] == s[k];
        assert s[k + 1] == b[j + 1] && s[k + 2] == b[j + 2] && s[k + 3] == b[j + 3];
      } else {
        assert a[k] == s[k];
        assert s[k + 1] == a[k + 1] && s[k + 2] == a[k + 2] && s[k + 3] == a[k + 3];
      }
    }
  }

  /** The text of a single byte: its only backslash, if any, opens its escape. */
  lemma EncodeByteBackslashes(b: byte)
    ensures BackslashesOpenEscapes(EncodeByte(b))
  {
    EncodeByteForm(b);
    if IsEscaped(b) {
      var i := b as int;
      OctalValue(i);
      var e := EncodeByte(b);
      assert e[1] == OctalDigit(i / 64) && e[2] == OctalDigit(i / 8 % 8) && e[3] == OctalDigit(i % 8);
    }
  }

  /** In the output of encode, every backslash opens a three-digit octal escape. */
  lemma {:induction false} EscapeBytesBackslashes(data: seq<byte>)
    ensures BackslashesOpenEscapes(EscapeBytes(data))
  {
    if data != [] {
      EncodeByteBackslashes(data[0]);
      EscapeBytesBackslashes(data[1..]);
      BackslashesOpenEscapesConcat(EncodeByte(data[0]), EscapeBytes(data[1..]));
    }
  }

  /** PostgreSQL reads one byte's text back as that byte, then goes on with the rest. */
  lemma UnescapeEncodeByte(b: byte, t: string)
    ensures Unescape(EncodeByte(b) + t) == Prepend(b, Unescape(t))
  {
    var s := EncodeByte(b) + t;
    EncodeByteForm(b);
    if IsEscaped(b) {
      var i := b as int;
      OctalValue(i);
      assert s[1] == OctalDigit(i / 64) && s[2] == OctalDigit(i / 8 % 8) && s[3] == OctalDigit(i % 8);
      assert s[4..] == t;
      assert (64 * DigitValue(s[1]) + 8 * DigitValue(s[2]) + DigitValue(s[3])) as byte == b;
    } else {
      assert s[1..] == t;
    }
  }

  /** PostgreSQL reads back exactly the bytes that were encoded. */
  lemma {:induction false} UnescapeEscapeBytes(data: seq<byte>)
    ensures Unescape(EscapeBytes(data)) == Some(data)
  {
    if data != [] {
      UnescapeEncodeByte(data[0], EscapeBytes(data[1..]));
      UnescapeEscapeBytes(data[1..]);
      assert [data[0]] + data[1..] == data;
    }
  }

  /** Distinct byte sequences never encode to the same text. */
  lemma EscapeBytesInjective(a: seq<byte>, b: seq<byte>)
    requires EscapeBytes(a) == EscapeBytes(b)
    ensures a == b
  {
    UnescapeEscapeBytes(a);
    UnescapeEscapeBytes(b);
  }

  /** encode(byte[]): appends each byte's text to a builder. */
  method Encode(byteData: seq<byte>) returns (sb: string)
    ensures sb == EscapeBytes(byteData)
  {
    sb := "";
    for k := 0 to |byteData|
      invariant sb == EscapeBytes(byteData[..k])
    {
      var i := byteData[k] as int;
      ghost var before := sb;
      if 0 <= i <= 7 {
        sb := sb + ("\\00" + OctalString(i));
      } else if 8 <= i <= 31 {
        sb := sb + ("\\0" + OctalString(i));
      } else if i == 92 || i >= 127 {
        sb := sb + ("\\" + OctalString(i));
      } else {
        sb := sb + [i as char];
      }
      assert sb == before + EncodeByte(byteData[k]);
      assert byteData[..k + 1] == byteData[..k] + [byteData[k]];
      EscapeBytesAppend(byteData[..k], byteData[k]);
    }
    assert byteData[..|byteData|] == byteData;
  }
}
