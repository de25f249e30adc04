/**
 * The text that `sprintf_s(..., "%02x ", b)` produces for a byte (two lowercase
 * hexadecimal digits and a space), its concatenation over a packet, the parser
 * that reads such text back, and the C-string view `%s` takes of a buffer.
 * Characters are ASCII codes stored in bytes, as in the source's BYTE buffers.
 */
module HexFormat {
  import opened Win

  datatype Option<T> = None | Some(value: T)

  const NUL: Byte := 0
  const SPACE: Byte := 0x20

  /** The lowercase ASCII hexadecimal digits '0'-'9' and 'a'-'f'. */
  predicate IsHexDigit(c: Byte) {
    (0x30 <= c <= 0x39) || (0x61 <= c <= 0x66)
  }

  /** The lowercase ASCII digit `printf` uses for the nibble d. */
  function HexDigit(d: int): (c: Byte)
    requires 0 <= d < 16
    ensures IsHexDigit(c) && DigitValue(c) == d
  {
    if d < 10 then 0x30 + d else 0x61 + (d - 10)
  }

  /** The value of a lowercase hexadecimal digit. */
  function DigitValue(c: Byte): (d: int)
    requires IsHexDigit(c)
    ensures 0 <= d < 16
  {
    if c <= 0x39 then c - 0x30 else c - 0x61 + 10
  }

  lemma DigitRoundTrip(c: Byte)
    requires IsHexDigit(c)
    ensures HexDigit(DigitValue(c)) == c
  {
  }

  /** The three characters "%02x " prints for one byte. */
  function HexPair(x: Byte): (pair: seq<Byte>)
    ensures |pair| == 3 && pair[2] == SPACE
    ensures IsHexDigit(pair[0]) && IsHexDigit(pair[1])
    ensures DigitValue(pair[0]) * 16 + DigitValue(pair[1]) == x
  {
    [HexDigit(x / 16), HexDigit(x % 16), SPACE]
  }

  /** The text of a whole packet: one HexPair per byte, in order. */
  function HexText(bytes: seq<Byte>): (text: seq<Byte>)
    ensures |text| == 3 * |bytes|
  {
    if bytes == [] then [] else HexPair(bytes[0]) + HexText(bytes[1..])
  }

  /** Reads text made of "hh " groups back into bytes; None for any other text. */
  function ParseHex(text: seq<Byte>): (r: Option<seq<Byte>>)
    ensures r.Some? ==> 3 * |r.value| == |text|
  {
    if text == [] then Some([])
    else if |text| < 3 || !IsHexDigit(text[0]) || !IsHexDigit(text[1]) || text[2] != SPACE then None
    else match ParseHex(text[3..])
      case None => None
      case Some(rest) => Some([DigitValue(text[0]) * 16 + DigitValue(text[1])] + rest)
  }

  /** The three-byte packet 01 02 03 prints as "01 02 03 ". */
  lemma ThreeByteDump()
    ensures HexText([0x01, 0x02, 0x03]) == [0x30, 0x31, 0x20, 0x30, 0x32, 0x20, 0x30, 0x33, 0x20]
  {
  }

  /** Appending a byte appends its pair: the text grows three characters per byte. */
  lemma {:induction false} HexTextAppend(bytes: seq<Byte>, x: Byte)
    ensures HexText(bytes + [x]) == HexText(bytes) + HexPair(x)
  {
    if bytes == [] {
      assert [x][1..] == [];
    } else {
      assert (bytes + [x])[1..] == bytes[1..] + [x];
      HexTextAppend(bytes[1..], x);
    }
  }

  /** Positions [3k, 3k+3) of the text hold the pair of byte k. */
  lemma {:induction false} HexTextAt(bytes: seq<Byte>, k: nat)
    requires k < |bytes|
    ensures HexText(bytes)[3 * k .. 3 * k + 3] == HexPair(bytes[k])
  {
    if k > 0 {
      HexTextAt(bytes[1..], k - 1);
      assert HexText(bytes) == HexPair(bytes[0]) + HexText(bytes[1..]);
      assert HexText(bytes)[3 * k .. 3 * k + 3] == HexText(bytes[1..])[3 * (k - 1) .. 3 * (k - 1) + 3];
    }
  }

  /** The text never contains a NUL, so `%s` prints all of it. */
  lemma {:induction false} HexTextHasNoNul(bytes: seq<Byte>)
    ensures NUL !in HexText(bytes)
  {
    if bytes != [] {
      HexTextHasNoNul(bytes[1..]);
    }
  }

  /** Round trip: parsing the hex dump of a packet gives back the packet. */
  lemma {:induction false} ParseHexText(bytes: seq<Byte>)
    ensures ParseHex(HexText(bytes)) == Some(bytes)
  {
    if bytes != [] {
      var x := bytes[0];
      var text := HexText(bytes);
      assert text[..3] == HexPair(x);
      assert text[3..] == HexText(bytes[1..]);
      ParseHexText(bytes[1..]);
      assert DigitValue(HexDigit(x / 16)) * 16 + DigitValue(HexDigit(x % 16)) == x;
      assert [x] + bytes[1..] == bytes;
    }
  }

  /** The converse: any text the parser accepts is exactly the dump of what it returns. */
  lemma {:induction false} HexTextOfParse(text: seq<Byte>)
    requires ParseHex(text).Some?
    ensures HexText(ParseHex(text).value) == text
  {
    if text != [] {
      var rest := ParseHex(text[3..]).value;
      var x: Byte := DigitValue(text[0]) * 16 + DigitValue(text[1]);
      HexTextOfParse(text[3..]);
      assert ParseHex(text).value == [x] + rest;
      assert ([x] + rest)[1..] == rest;
      assert x / 16 == DigitValue(text[0]) && x % 16 == DigitValue(text[1]);
      DigitRoundTrip(text[0]);
      DigitRoundTrip(text[1]);
      assert HexPair(x) == text[..3];
      assert text == text[..3] + text[3..];
    }
  }

  /** What `%s` prints of a buffer: the characters before the first NUL. */
  function CString(s: seq<Byte>): (r: seq<Byte>)
    ensures r <= s && NUL !in r
    ensures |r| < |s| ==> s[|r|] == NUL
  {
    if s == [] || s[0] == NUL then [] else [s[0]] + CString(s[1..])
  }

  /** A NUL-free text followed by a NUL reads back as that text, whatever follows. */
  lemma {:induction false} CStringOfTerminated(text: seq<Byte>, rest: seq<Byte>)
    requires NUL !in text
    ensures CString(text + [NUL] + rest) == text
  {
    var s := text + [NUL] + rest;
    if text != [] {
      assert s[0] == text[0] != NUL;
      assert s[1..] == text[1..] + [NUL] + rest;
      CStringOfTerminated(text[1..], rest);
      assert [text[0]] + text[1..] == text;
    }
  }
}
