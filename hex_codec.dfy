/**
 * Base16 decoding of a HEX-encoded binary column (section 8 of RFC 4648),
 * as the writer applies it with Hex.decodeHex before re-encoding the bytes.
 */
module HexCodec {
  import opened Types

  /** The value of a hexadecimal digit, either case; None for any other character. */
  function HexDigitValue(c: char): (v: Option<int>)
    ensures v.Some? ==> 0 <= v.value < 16
  {
    if '0' <= c <= '9' then Some(c as int - '0' as int)
    else if 'a' <= c <= 'f' then Some(c as int - 'a' as int + 10)
    else if 'A' <= c <= 'F' then Some(c as int - 'A' as int + 10)
    else None
  }

  /** Decodes pairs of digits, high nibble first; an odd length or a non-digit fails. */
  function HexDecode(s: string): (r: Option<seq<byte>>)
    ensures r.Some? ==> 2 * |r.value| == |s|
    decreases |s|
  {
    if |s| % 2 == 1 then None
    else if s == [] then Some([])
    else
      match (HexDigitValue(s[0]), HexDigitValue(s[1]), HexDecode(s[2..]))
      case (Some(hi), Some(lo), Some(rest)) => Some([(16 * hi + lo) as byte] + rest)
      case _ => None
  }

  /** The lower-case digit of a nibble. */
  function HexDigit(v: int): (c: char)
    requires 0 <= v < 16
    ensures HexDigitValue(c) == Some(v)
  {
    if v < 10 then ('0' as int + v) as char else ('a' as int + v - 10) as char
  }

  /** Base16 encoding, two lower-case digits per byte. */
  function HexEncode(data: seq<byte>): (s: string)
    ensures |s| == 2 * |data|
  {
    if data == [] then [] else [HexDigit(data[0] as int / 16), HexDigit(data[0] as int % 16)] + HexEncode(data[1..])
  }

  /** Decoding an encoding gives back the bytes. */
  lemma {:induction false} HexDecodeEncode(data: seq<byte>)
    ensures HexDecode(HexEncode(data)) == Some(data)
  {
    if data != [] {
      var s := HexEncode(data);
      HexDecodeEncode(data[1..]);
      assert s[2..] == HexEncode(data[1..]);
      assert [data[0]] + data[1..] == data;
    }
  }

  /** Every character of a string that decodes is a hex digit. */
  lemma {:induction false} HexDecodeShape(s: string)
    requires HexDecode(s).Some?
    ensures forall k :: 0 <= k < |s| ==> HexDigitValue(s[k]).Some?
  {
    if s != [] {
      HexDecodeShape(s[2..]);
      forall k | 2 <= k < |s| ensures HexDigitValue(s[k]).Some? {
        assert s[k] == s[2..][k - 2];
      }
    }
  }

  /** Decoding succeeds exactly on the strings of even length made of hex digits only. */
  lemma {:induction false} HexDecodeDefined(s: string)
    ensures HexDecode(s).Some? <==> |s| % 2 == 0 && forall k :: 0 <= k < |s| ==> HexDigitValue(s[k]).Some?
  {
    if HexDecode(s).Some? {
      HexDecodeShape(s);
    } else if |s| % 2 == 0 && s != [] {
      HexDecodeDefined(s[2..]);
      if HexDigitValue(s[0]).Some? && HexDigitValue(s[1]).Some? {
        var k :| 0 <= k < |s| - 2 && HexDigitValue(s[2..][k]).None?;
        assert s[k + 2] == s[2..][k];
      }
    }
  }
}
