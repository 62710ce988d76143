// The ticket codec of the sample program: DecodeHexBuffer and the ticket printer.
// Characters are 8-bit code units, as in the C source.

module Hex {
  import opened Buffers

  const UINT16: nat := 0x1_0000
  const UINT32: nat := 0x1_0000_0000
  const TICKET_CAPACITY: nat := 10240

  type Nibble = x: int | 0 <= x < 16

  predicate IsHexChar(c: Byte) {
    '0' as int <= c <= '9' as int || 'A' as int <= c <= 'F' as int || 'a' as int <= c <= 'f' as int
  }

  function ToUpper(c: Byte): Byte { if 'a' as int <= c <= 'z' as int then c - 0x20 else c }

  function DecodeHexChar(c: Byte): (v: Nibble)
    ensures EncodeDigit(v) == ToUpper(c) <==> IsHexChar(c)
    ensures !IsHexChar(c) ==> v == 0
  {
    if c >= '0' as int && c <= '9' as int then c - '0' as int
    else if c >= 'A' as int && c <= 'F' as int then 10 + c - 'A' as int
    else if c >= 'a' as int && c <= 'f' as int then 10 + c - 'a' as int
    else 0
  }

  /** The digit that %X prints for a nibble. */
  function EncodeDigit(v: Nibble): Byte { if v < 10 then '0' as int + v else 'A' as int + v - 10 }

  /** The shift and or of two nibbles in a byte. */
  function ShiftOr(hi: Nibble, lo: Nibble): (b: Byte)
    ensures b == hi * 16 + lo
  {
    var h, l := hi as bv8, lo as bv8;
    ShiftOrIsSum(h, l);
    ((h << 4) | l) as int
  }

  lemma ShiftOrIsSum(hi: bv8, lo: bv8)
    requires hi < 16 && lo < 16
    ensures ((hi << 4) | lo) as int == (hi as int) * 16 + (lo as int)
  {}

  function DecodePair(hi: Byte, lo: Byte): Byte { ShiftOr(DecodeHexChar(hi), DecodeHexChar(lo)) }

  /** What DecodeHexBuffer leaves in a buffer of `capacity` bytes. */
  function Decoded(hex: seq<Byte>, capacity: nat): seq<Byte> {
    var len := |hex| % UINT32 / 2;
    if len > capacity then []
    else seq(len, i requires 0 <= i < len => DecodePair(hex[i * 2], hex[i * 2 + 1]))
  }

  method DecodeHexBuffer(hexBuffer: seq<Byte>, outBufferLen: nat, outBuffer: array<Byte>) returns (written: nat)
    requires outBufferLen < UINT32 && outBufferLen <= outBuffer.Length
    modifies outBuffer
    ensures var pairs := |hexBuffer| % UINT32 / 2; written == if pairs <= outBufferLen then pairs else 0
    ensures forall i :: 0 <= i < written ==>
      outBuffer[i] == DecodeHexChar(hexBuffer[i * 2]) * 16 + DecodeHexChar(hexBuffer[i * 2 + 1])
    ensures outBuffer[..written] == Decoded(hexBuffer, outBufferLen)
    ensures outBuffer[written..] == old(outBuffer[written..])
  {
    var hexBufferLen := |hexBuffer| % UINT32 / 2;
    if hexBufferLen > outBufferLen {
      return 0;
    }
    for i := 0 to hexBufferLen
      invariant forall k :: 0 <= k < i ==> outBuffer[k] == DecodePair(hexBuffer[k * 2], hexBuffer[k * 2 + 1])
      invariant forall k :: i <= k < outBuffer.Length ==> outBuffer[k] == old(outBuffer[k])
    {
      outBuffer[i] := DecodePair(hexBuffer[i * 2], hexBuffer[i * 2 + 1]);
    }
    return hexBufferLen;
  }

  /** The last character of a string of odd length is ignored. */
  lemma OddCharacterIsIgnored(hex: seq<Byte>, last: Byte, capacity: nat)
    requires |hex| % 2 == 0 && |hex| + 1 < UINT32
    ensures Decoded(hex + [last], capacity) == Decoded(hex, capacity)
  {
    var longer := hex + [last];
    assert |longer| % UINT32 / 2 == |hex| % UINT32 / 2 == |hex| / 2;
    forall i | 0 <= i < |hex| / 2
      ensures DecodePair(longer[i * 2], longer[i * 2 + 1]) == DecodePair(hex[i * 2], hex[i * 2 + 1])
    {
      assert longer[i * 2] == hex[i * 2] && longer[i * 2 + 1] == hex[i * 2 + 1];
    }
  }

  /** Two uppercase digits a byte. */
  function Printed(ticket: seq<Byte>): (text: seq<Byte>)
    ensures |text| == 2 * |ticket|
  {
    if ticket == [] then []
    else
      var last := ticket[|ticket| - 1];
      Printed(ticket[..|ticket| - 1]) + [EncodeDigit(last / 16), EncodeDigit(last % 16)]
  }

  lemma {:induction false} PrintedAt(ticket: seq<Byte>, i: nat)
    requires i < |ticket|
    ensures Printed(ticket)[i * 2] == EncodeDigit(ticket[i] / 16)
    ensures Printed(ticket)[i * 2 + 1] == EncodeDigit(ticket[i] % 16)
  {
    if i < |ticket| - 1 {
      PrintedAt(ticket[..|ticket| - 1], i);
    }
  }

  /** The loop that prints a received ticket. */
  method PrintTicket(ticket: seq<Byte>) returns (text: seq<Byte>)
    ensures text == Printed(ticket)
  {
    text := [];
    for i := 0 to |ticket|
      invariant text == Printed(ticket[..i])
    {
      assert ticket[..i + 1][..i] == ticket[..i];
      text := text + [EncodeDigit(ticket[i] / 16), EncodeDigit(ticket[i] % 16)];
    }
    assert ticket[..|ticket|] == ticket;
  }

  lemma ByteDecodes(b: Byte)
    ensures DecodePair(EncodeDigit(b / 16), EncodeDigit(b % 16)) == b
  {}

  /** A text whose pairs decode to the bytes decodes to them when they fit. */
  lemma PairsDecode(text: seq<Byte>, bytes: seq<Byte>, capacity: nat)
    requires |text| == 2 * |bytes| < UINT32
    requires forall i :: 0 <= i < |bytes| ==> DecodePair(text[i * 2], text[i * 2 + 1]) == bytes[i]
    ensures Decoded(text, capacity) == if |bytes| <= capacity then bytes else []
  {
    if |bytes| <= capacity {
      var back := Decoded(text, capacity);
      assert |back| == |bytes|;
      forall i | 0 <= i < |bytes| ensures back[i] == bytes[i] {
        assert back[i] == DecodePair(text[i * 2], text[i * 2 + 1]);
      }
    }
  }

  /**
   * Decoding what was printed gives back the ticket exactly when it fits the buffer; a longer
   * one decodes to nothing, as far as a 32-bit length can tell. The 16-bit cast keeps the length.
   */
  lemma TicketRoundTrip(ticket: seq<Byte>)
    ensures Decoded(Printed(ticket), TICKET_CAPACITY) == ticket <==> |ticket| <= TICKET_CAPACITY
    ensures TICKET_CAPACITY < |ticket| < UINT32 / 2 ==> Decoded(Printed(ticket), TICKET_CAPACITY) == []
    ensures |Decoded(Printed(ticket), TICKET_CAPACITY)| < UINT16
  {
    var text := Printed(ticket);
    DecodedFits(text, TICKET_CAPACITY);
    if |ticket| < UINT32 / 2 {
      forall i | 0 <= i < |ticket| ensures DecodePair(text[i * 2], text[i * 2 + 1]) == ticket[i] {
        PrintedAt(ticket, i);
        ByteDecodes(ticket[i]);
      }
      PairsDecode(text, ticket, TICKET_CAPACITY);
    }
  }

  lemma DecodedFits(hex: seq<Byte>, capacity: nat)
    ensures |Decoded(hex, capacity)| <= capacity
  {}

  function Upper(hex: seq<Byte>): seq<Byte> { seq(|hex|, i requires 0 <= i < |hex| => ToUpper(hex[i])) }

  predicate AllHex(hex: seq<Byte>) { forall i :: 0 <= i < |hex| ==> IsHexChar(hex[i]) }

  /** The `i`-th pair of a text is the uppercase of the `i`-th pair of a hex string. */
  predicate PairUpper(hex: seq<Byte>, text: seq<Byte>, i: nat)
    requires i * 2 + 1 < |hex| == |text|
  {
    text[i * 2] == ToUpper(hex[i * 2]) && text[i * 2 + 1] == ToUpper(hex[i * 2 + 1])
  }

  predicate PairHex(hex: seq<Byte>, i: nat)
    requires i * 2 + 1 < |hex|
  {
    IsHexChar(hex[i * 2]) && IsHexChar(hex[i * 2 + 1])
  }

  lemma UpperByPairs(hex: seq<Byte>, text: seq<Byte>)
    requires |hex| == |text| && |hex| % 2 == 0
    ensures text == Upper(hex) <==> forall i :: 0 <= i < |hex| / 2 ==> PairUpper(hex, text, i)
  {
    if forall i :: 0 <= i < |hex| / 2 ==> PairUpper(hex, text, i) {
      forall j | 0 <= j < |hex| ensures text[j] == Upper(hex)[j] {
        assert PairUpper(hex, text, j / 2);
      }
    }
  }

  lemma HexByPairs(hex: seq<Byte>)
    requires |hex| % 2 == 0
    ensures AllHex(hex) <==> forall i :: 0 <= i < |hex| / 2 ==> PairHex(hex, i)
  {
    if forall i :: 0 <= i < |hex| / 2 ==> PairHex(hex, i) {
      forall j | 0 <= j < |hex| ensures IsHexChar(hex[j]) {
        assert PairHex(hex, j / 2);
      }
    }
  }

  /** One byte: printing its decoding restores both characters exactly when both are hex. */
  lemma PairRestored(hi: Byte, lo: Byte)
    ensures var b := DecodePair(hi, lo);
      EncodeDigit(b / 16) == ToUpper(hi) && EncodeDigit(b % 16) == ToUpper(lo) <==> IsHexChar(hi) && IsHexChar(lo)
  {
    assert DecodePair(hi, lo) / 16 == DecodeHexChar(hi) && DecodePair(hi, lo) % 16 == DecodeHexChar(lo);
  }

  /**
   * Printing the decoding of a string gives its uppercase form exactly when the string
   * is hex throughout, of even length, and fits the buffer.
   */
  lemma HexRoundTrip(hex: seq<Byte>, capacity: nat)
    requires capacity < UINT32
    ensures Printed(Decoded(hex, capacity)) == Upper(hex)
       <==> |hex| < UINT32 && |hex| % 2 == 0 && AllHex(hex) && |hex| / 2 <= capacity
  {
    var bytes := Decoded(hex, capacity);
    var text := Printed(bytes);
    if |text| == |hex| && |hex| < UINT32 && |hex| / 2 <= capacity {
      forall i | 0 <= i < |hex| / 2 ensures PairUpper(hex, text, i) <==> PairHex(hex, i) {
        PrintedAt(bytes, i);
        PairRestored(hex[i * 2], hex[i * 2 + 1]);
      }
      UpperByPairs(hex, text);
      HexByPairs(hex);
    }
  }
}
