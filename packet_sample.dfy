/**
 * The packet-printing half of the sample client: `GetPacketData` renders a
 * packet as hex text into a fixed 0x10000-byte buffer, and the two packet
 * callbacks filter by packet id and print either the dump or a "too large"
 * line. The two global string buffers and the console are the state of a
 * `PacketConsole` object.
 */
module PacketSample {
  import opened Win
  import opened HexFormat

  /** DEFAULT_BUFFER_SIZE: the capacity of each string buffer. */
  const DEFAULT_BUFFER_SIZE: nat := 0x10000

  /**
   * The most bytes a buffer can take: each byte uses three positions and the
   * loop gives up once one position or less is left, 0x10000 = 3 * 21845 + 1.
   */
  const MAX_FORMATTED: nat := 21845

  // Client-to-server packet ids.
  const POE_C2S_HEARTBEAT: Byte := 0x0d
  const POE_C2S_MOVE_BEGIN: Byte := 0xd4
  const POE_C2S_MOVE_SUSTAIN: Byte := 0xd6
  const POE_C2S_MOVE_END: Byte := 0xd8
  const POE_C2S_FLASK_DRINK: Byte := 0x36
  // Server-to-client packet ids.
  const POE_S2C_LOGIN: Byte := 0x02
  const POE_S2C_CHARACTERS: Byte := 0x04
  const POE_S2C_TRANSITION: Byte := 0x05
  const POE_S2C_HEARTBEAT: Byte := 0x22
  const POE_S2C_CHAT: Byte := 0x0a
  const POE_S2C_ENTITY_POSITION_UPDATE: Byte := 0xe5
  const POE_S2C_ENTITY_STATE_UPDATE: Byte := 0x0e
  const POE_S2C_FLASK_DRINK_EFFECT: Byte := 0xf4

  function Min(a: nat, b: nat): nat {
    if a <= b then a else b
  }

  /**
   * How many bytes of the packet reach the buffer: the loop stops at the
   * claimed length, at the first unreadable byte, or when the buffer is full.
   */
  function RenderedCount(length: Dword, readable: nat): (n: nat)
    ensures n <= length && n <= readable && n <= MAX_FORMATTED
    ensures n == length || n == readable || n == MAX_FORMATTED
  {
    Min(Min(length, readable), MAX_FORMATTED)
  }

  /** GetPacketData succeeds: every claimed byte is readable and fits. */
  predicate Fits(length: Dword, readable: nat)
    ensures Fits(length, readable) <==> RenderedCount(length, readable) == length
  {
    length <= readable && length <= MAX_FORMATTED
  }

  /**
   * The buffer after the bytes have been written: their text, the NUL the last
   * `sprintf_s` left behind it, and the old content after that. Writing no byte
   * leaves the buffer as it was, without even a NUL.
   */
  function Formatted(before: seq<Byte>, bytes: seq<Byte>): (after: seq<Byte>)
    requires 3 * |bytes| < |before|
    ensures |after| == |before|
  {
    if bytes == [] then before else HexText(bytes) + [NUL] + before[3 * |bytes| + 1..]
  }

  /** The layout of a formatted buffer, position by position. */
  lemma FormattedLayout(before: seq<Byte>, bytes: seq<Byte>)
    requires 3 * |bytes| < |before|
    ensures forall k :: 0 <= k < |bytes| ==> Formatted(before, bytes)[3 * k .. 3 * k + 3] == HexPair(bytes[k])
    ensures bytes != [] ==> Formatted(before, bytes)[3 * |bytes|] == NUL
    ensures forall i :: 3 * |bytes| < i < |before| ==> Formatted(before, bytes)[i] == before[i]
    ensures bytes == [] ==> Formatted(before, bytes) == before
  {
    var after := Formatted(before, bytes);
    forall k | 0 <= k < |bytes|
      ensures after[3 * k .. 3 * k + 3] == HexPair(bytes[k])
    {
      HexTextAt(bytes, k);
      assert after[3 * k .. 3 * k + 3] == HexText(bytes)[3 * k .. 3 * k + 3];
    }
  }

  /** What `%s` prints of a formatted buffer is the dump, and it parses back to the packet. */
  lemma FormattedPrints(before: seq<Byte>, bytes: seq<Byte>)
    requires 3 * |bytes| < |before| && bytes != []
    ensures CString(Formatted(before, bytes)) == HexText(bytes)
    ensures ParseHex(CString(Formatted(before, bytes))) == Some(bytes)
  {
    HexTextHasNoNul(bytes);
    CStringOfTerminated(HexText(bytes), before[3 * |bytes| + 1..]);
    ParseHexText(bytes);
  }

  /** A buffer that holds a NUL still holds one after formatting, so `%s` stays inside it. */
  lemma FormattedTerminated(before: seq<Byte>, bytes: seq<Byte>)
    requires 3 * |bytes| < |before| && NUL in before
    ensures NUL in Formatted(before, bytes)
  {
    if bytes != [] {
      assert Formatted(before, bytes)[3 * |bytes|] == NUL;
    }
  }

  /** One more `sprintf_s` turns the buffer for `bytes` into the buffer for `bytes + [x]`. */
  lemma FormattedStep(before: seq<Byte>, bytes: seq<Byte>, x: Byte)
    requires 3 * |bytes| + 3 < |before|
    ensures
      var j := 3 * |bytes|;
      Formatted(before, bytes)[j := HexDigit(x / 16)][j + 1 := HexDigit(x % 16)][j + 2 := SPACE][j + 3 := NUL]
      == Formatted(before, bytes + [x])
  {
    HexTextAppend(bytes, x);
  }

  /**
   * `sprintf_s(str + at, size, "%02x ", x)`: writes the two digits, the space and
   * the terminating NUL, and returns the three characters written. The caller's
   * `size` must be a true bound of the buffer and leave room for all four.
   */
  method PrintHexByte(str: array<Byte>, at: nat, size: nat, x: Byte) returns (written: Dword)
    requires 4 <= size && at + size <= str.Length
    modifies str
    ensures written == 3
    ensures str[..] == old(str[..])[at := HexDigit(x / 16)][at + 1 := HexDigit(x % 16)][at + 2 := SPACE][at + 3 := NUL]
  {
    str[at] := HexDigit(x / 16);
    str[at + 1] := HexDigit(x % 16);
    str[at + 2] := SPACE;
    str[at + 3] := NUL;
    written := 3;
  }

  /**
   * GetPacketData: renders the first `packetLength` bytes of the packet into
   * `str`. `packet` holds the bytes that can be read; reading past them faults,
   * and the structured-exception handler turns the fault into `false`.
   */
  method GetPacketData(packetLength: Dword, packet: seq<Byte>, str: array<Byte>) returns (ok: bool)
    requires str.Length == DEFAULT_BUFFER_SIZE
    modifies str
    ensures ok <==> Fits(packetLength, |packet|)
    ensures str[..] == Formatted(old(str[..]), packet[..RenderedCount(packetLength, |packet|)])
  {
    var i: Dword := 0;
    var j: Dword := 0;
    while i < packetLength
      invariant i <= packetLength && i <= |packet| && i <= MAX_FORMATTED
      invariant j == 3 * i
      invariant str[..] == Formatted(old(str[..]), packet[..i])
    {
      if DEFAULT_BUFFER_SIZE - j <= 1 {
        return false;
      }
      if i >= |packet| {
        // LocalPacketBuffer[i] is unreadable: the fault ends the call with false.
        return false;
      }
      FormattedStep(old(str[..]), packet[..i], packet[i]);
      assert packet[..i] + [packet[i]] == packet[..i + 1];
      var written := PrintHexByte(str, j, DEFAULT_BUFFER_SIZE - j, packet[i]);
      j := j + written;
      i := i + 1;
    }
    return true;
  }

  /** Receive packets whose ids are rendered: all but the heartbeat and entity state updates. */
  predicate ReceiveDisplayed(id: Byte)
    ensures !ReceiveDisplayed(id) <==> id in {POE_S2C_HEARTBEAT, POE_S2C_ENTITY_STATE_UPDATE}
  {
    id != POE_S2C_HEARTBEAT && id != POE_S2C_ENTITY_STATE_UPDATE
  }

  /** Send packets whose ids are rendered: all but the heartbeat. */
  predicate SendDisplayed(id: Byte)
    ensures !SendDisplayed(id) <==> id == POE_C2S_HEARTBEAT
  {
    id != POE_C2S_HEARTBEAT
  }

  datatype Direction = Sent | Received

  /** A console line: the full dump of a packet, or only its id and length. */
  datatype Message =
    | Dump(direction: Direction, id: Byte, length: Dword, text: seq<Byte>)
    | TooLarge(direction: Direction, id: Byte, length: Dword)

  /** The console line printed for a displayed packet, given the buffer after GetPacketData. */
  function Line(direction: Direction, id: Byte, length: Dword, readable: nat, buffer: seq<Byte>): (line: Message)
    ensures line.direction == direction && line.id == id && line.length == length
    ensures line.Dump? <==> Fits(length, readable)
  {
    if Fits(length, readable) then Dump(direction, id, length, CString(buffer))
    else TooLarge(direction, id, length)
  }

  /** The sample client's two global string buffers and what it has printed. */
  class PacketConsole {
    const sendBuffer: array<Byte>
    const receiveBuffer: array<Byte>
    var output: seq<Message>

    ghost predicate Valid()
      reads this, sendBuffer, receiveBuffer
    {
      && sendBuffer.Length == DEFAULT_BUFFER_SIZE
      && receiveBuffer.Length == DEFAULT_BUFFER_SIZE
      && sendBuffer != receiveBuffer
      && NUL in sendBuffer[..]
      && NUL in receiveBuffer[..]
    }

    /** Globals start zero-filled. */
    constructor ()
      ensures Valid() && fresh(sendBuffer) && fresh(receiveBuffer) && output == []
      ensures forall i :: 0 <= i < DEFAULT_BUFFER_SIZE ==> sendBuffer[i] == NUL && receiveBuffer[i] == NUL
    {
      sendBuffer := new Byte[DEFAULT_BUFFER_SIZE](_ => NUL);
      receiveBuffer := new Byte[DEFAULT_BUFFER_SIZE](_ => NUL);
      output := [];
      new;
      assert sendBuffer[..][0] == NUL && receiveBuffer[..][0] == NUL;
    }

    /** HandlePacketReceive: print a received packet unless its id is filtered out. */
    method HandlePacketReceive(length: Dword, packetId: Byte, packet: seq<Byte>)
      requires Valid()
      modifies receiveBuffer, this`output
      ensures Valid()
      ensures sendBuffer[..] == old(sendBuffer[..])
      ensures !ReceiveDisplayed(packetId) ==> output == old(output) && receiveBuffer[..] == old(receiveBuffer[..])
      ensures ReceiveDisplayed(packetId) ==>
        && receiveBuffer[..] == Formatted(old(receiveBuffer[..]), packet[..RenderedCount(length, |packet|)])
        && output == old(output) + [Line(Received, packetId, length, |packet|, receiveBuffer[..])]
      ensures ReceiveDisplayed(packetId) && Fits(length, |packet|) && length > 0 ==>
        output[|output| - 1] == Dump(Received, packetId, length, HexText(packet[..length]))
    {
      if packetId != POE_S2C_HEARTBEAT && packetId != POE_S2C_ENTITY_STATE_UPDATE {
        ghost var before := receiveBuffer[..];
        var ok := GetPacketData(length, packet, receiveBuffer);
        FormattedTerminated(before, packet[..RenderedCount(length, |packet|)]);
        if ok {
          output := output + [Dump(Received, packetId, length, CString(receiveBuffer[..]))];
          if length > 0 {
            FormattedPrints(before, packet[..length]);
          }
        } else {
          output := output + [TooLarge(Received, packetId, length)];
        }
      }
    }

    /** HandlePacketSend: print a sent packet unless it is a heartbeat. */
    method HandlePacketSend(length: Dword, packetId: Byte, packet: seq<Byte>)
      requires Valid()
      modifies sendBuffer, this`output
      ensures Valid()
      ensures receiveBuffer[..] == old(receiveBuffer[..])
      ensures !SendDisplayed(packetId) ==> output == old(output) && sendBuffer[..] == old(sendBuffer[..])
      ensures SendDisplayed(packetId) ==>
        && sendBuffer[..] == Formatted(old(sendBuffer[..]), packet[..RenderedCount(length, |packet|)])
        && output == old(output) + [Line(Sent, packetId, length, |packet|, sendBuffer[..])]
      ensures SendDisplayed(packetId) && Fits(length, |packet|) && length > 0 ==>
        output[|output| - 1] == Dump(Sent, packetId, length, HexText(packet[..length]))
    {
      if packetId != POE_C2S_HEARTBEAT {
        ghost var before := sendBuffer[..];
        var ok := GetPacketData(length, packet, sendBuffer);
        FormattedTerminated(before, packet[..RenderedCount(length, |packet|)]);
        if ok {
          output := output + [Dump(Sent, packetId, length, CString(sendBuffer[..]))];
          if length > 0 {
            FormattedPrints(before, packet[..length]);
          }
        } else {
          output := output + [TooLarge(Sent, packetId, length)];
        }
      }
    }
  }
}
