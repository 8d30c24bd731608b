/**
 * A float on the wire: its four in-memory bytes (little-endian machine order),
 * each written as two lower-case hex characters, high nibble first.
 * A float is modelled by its IEEE 754 binary32 bit pattern
 * (section 3.4 of IEEE 754-2019, binary interchange formats).
 */
module FloatConverter {
  import opened HexDigits

  type byte = x: int | 0 <= x < 0x100

  /** The bit pattern of a binary32 value, read as an unsigned 32-bit integer. */
  type Bits32 = x: int | 0 <= x < 0x1_0000_0000

  /** The bit pattern of 1.0f. */
  const OneBits: Bits32 := 0x3F80_0000

  /** The quiet NaN the C++ library produces for numeric_limits<float>::quiet_NaN(). */
  const QuietNaNBits: Bits32 := 0x7FC0_0000

  /** Exponent field all ones and a non-zero fraction field. */
  predicate IsNaN(f: Bits32) {
    (f / 0x80_0000) % 0x100 == 0xFF && f % 0x80_0000 != 0
  }

  /** The bytes of `value` as memcpy lays them out on a little-endian machine. */
  function MemoryBytes(value: Bits32): (bytes: seq<byte>)
    ensures |bytes| == 4
    ensures bytes[0] as int + 0x100 * bytes[1] as int + 0x1_0000 * bytes[2] as int + 0x100_0000 * bytes[3] as int == value
  {
    var q0 := value / 0x100;
    var q1 := q0 / 0x100;
    var q2 := q1 / 0x100;
    assert value == value % 0x100 + 0x100 * q0;
    assert q0 == q0 % 0x100 + 0x100 * q1;
    assert q1 == q1 % 0x100 + 0x100 * q2;
    [value % 0x100, q0 % 0x100, q1 % 0x100, q2]
  }

  /** The value whose memory bytes are `bytes` (memcpy back into a float). */
  function FromMemoryBytes(bytes: seq<byte>): Bits32
    requires |bytes| == 4
  {
    bytes[0] as int + 0x100 * bytes[1] as int + 0x1_0000 * bytes[2] as int + 0x100_0000 * bytes[3] as int
  }

  lemma MemoryBytesRoundTrip(value: Bits32)
    ensures FromMemoryBytes(MemoryBytes(value)) == value
  {
  }

  /**
   * The character for a nibble: '0' + n below ten, 'a' + (n - 10) otherwise,
   * truncated to an unsigned char as the C++ return type does.
   */
  function ToHexDigit(nibble: nat): (c: char)
    ensures nibble < 16 ==> IsLowerHexDigit(c) && HexDigitValue(c) == nibble
    ensures nibble < 10 ==> c == ('0' as int + nibble) as char
    ensures 10 <= nibble < 16 ==> c == ('a' as int + nibble - 10) as char
  {
    if nibble < 10 then ('0' as int + nibble) as char
    else (('a' as int + (nibble - 10)) % 0x100) as char
  }

  /** Two characters per byte, high nibble first, bytes in order. */
  function HexOfBytes(bytes: seq<byte>): (s: seq<char>)
    ensures |s| == 2 * |bytes|
  {
    if bytes == [] then []
    else
      var last := bytes[|bytes| - 1];
      HexOfBytes(bytes[..|bytes| - 1]) + [ToHexDigit(last / 16), ToHexDigit(last % 16)]
  }

  /** The eight characters the converter produces for a float. */
  function HexOfFloat(value: Bits32): seq<char> {
    HexOfBytes(MemoryBytes(value))
  }

  /** Reads pairs of hex characters back into bytes: the inverse of HexOfBytes. */
  function BytesOfHex(s: seq<char>): (bytes: seq<byte>)
    requires |s| % 2 == 0 && AllHex(s)
    ensures |bytes| == |s| / 2
  {
    if s == [] then []
    else
      var n := |s|;
      assert AllHex(s[..n - 2]);
      BytesOfHex(s[..n - 2]) + [HexDigitValue(s[n - 2]) * 16 + HexDigitValue(s[n - 1])]
  }

  /** Characters 2i and 2i+1 are the high and the low nibble of byte i. */
  lemma {:induction false} HexOfBytesAt(bytes: seq<byte>, i: nat)
    requires i < |bytes|
    ensures HexOfBytes(bytes)[2 * i] == ToHexDigit(bytes[i] / 16)
    ensures HexOfBytes(bytes)[2 * i + 1] == ToHexDigit(bytes[i] % 16)
    decreases |bytes|
  {
    var n := |bytes|;
    if i < n - 1 {
      HexOfBytesAt(bytes[..n - 1], i);
    }
  }

  /** The converter's output has two characters per byte, all of them lower-case hex digits. */
  lemma {:induction false} HexOfBytesIsLowerHex(bytes: seq<byte>)
    ensures |HexOfBytes(bytes)| == 2 * |bytes|
    ensures forall k :: 0 <= k < |HexOfBytes(bytes)| ==> IsLowerHexDigit(HexOfBytes(bytes)[k])
  {
    var s := HexOfBytes(bytes);
    forall k | 0 <= k < |s| ensures IsLowerHexDigit(s[k]) {
      var i := k / 2;
      assert bytes[i] / 16 < 16 && bytes[i] % 16 < 16;
      HexOfBytesAt(bytes, i);
    }
  }

  lemma ByteHexRoundTrip(b: byte)
    ensures IsHexDigit(ToHexDigit(b / 16)) && IsHexDigit(ToHexDigit(b % 16))
    ensures HexDigitValue(ToHexDigit(b / 16)) * 16 + HexDigitValue(ToHexDigit(b % 16)) == b
  {
  }

  /** Turning each character pair back into hi * 16 + lo gives back every byte. */
  lemma {:induction false} HexOfBytesRoundTrip(bytes: seq<byte>)
    ensures AllHex(HexOfBytes(bytes))
    ensures BytesOfHex(HexOfBytes(bytes)) == bytes
    decreases |bytes|
  {
    if bytes != [] {
      var n := |bytes|;
      var front := bytes[..n - 1];
      var b := bytes[n - 1];
      var hi, lo := ToHexDigit(b / 16), ToHexDigit(b % 16);
      HexOfBytesRoundTrip(front);
      ByteHexRoundTrip(b);
      assert HexOfBytes(bytes) == HexOfBytes(front) + [hi, lo];
      BytesOfHexSnoc(HexOfBytes(front), hi, lo);
      FrontSnoc(bytes);
    }
  }

  lemma FrontSnoc<T>(s: seq<T>)
    requires s != []
    ensures s[..|s| - 1] + [s[|s| - 1]] == s
  {
  }

  lemma {:induction false} BytesOfHexSnoc(t: seq<char>, hi: char, lo: char)
    requires |t| % 2 == 0 && AllHex(t) && IsHexDigit(hi) && IsHexDigit(lo)
    ensures AllHex(t + [hi, lo])
    ensures BytesOfHex(t + [hi, lo]) == BytesOfHex(t) + [HexDigitValue(hi) * 16 + HexDigitValue(lo)]
  {
    var s := t + [hi, lo];
    assert s[..|s| - 2] == t;
  }

  /** Encoding then decoding a float restores its bit pattern exactly, NaN payloads included. */
  lemma FloatHexRoundTrip(value: Bits32)
    ensures |HexOfFloat(value)| == 8 && AllHex(HexOfFloat(value))
    ensures FromMemoryBytes(BytesOfHex(HexOfFloat(value))) == value
  {
    HexOfBytesRoundTrip(MemoryBytes(value));
  }

  /** 1.0f lies in memory as 00 00 80 3f. */
  lemma OneEncoding()
    ensures HexOfFloat(OneBits) == "0000803f"
  {
    assert MemoryBytes(OneBits) == [0x00, 0x00, 0x80, 0x3F];
    HexOfFourBytes(0x00, 0x00, 0x80, 0x3F);
    assert ToHexDigit(8) == '8' && ToHexDigit(3) == '3' && ToHexDigit(15) == 'f' && ToHexDigit(0) == '0';
  }

  /** The quiet NaN is a NaN and lies in memory as 00 00 c0 7f. */
  lemma QuietNaNEncoding()
    ensures IsNaN(QuietNaNBits)
    ensures HexOfFloat(QuietNaNBits) == "0000c07f"
  {
    assert MemoryBytes(QuietNaNBits) == [0x00, 0x00, 0xC0, 0x7F];
    HexOfFourBytes(0x00, 0x00, 0xC0, 0x7F);
    assert ToHexDigit(12) == 'c' && ToHexDigit(7) == '7' && ToHexDigit(15) == 'f' && ToHexDigit(0) == '0';
  }

  lemma HexOfFourBytes(b0: byte, b1: byte, b2: byte, b3: byte)
    ensures HexOfBytes([b0, b1, b2, b3]) ==
      [ToHexDigit(b0 / 16), ToHexDigit(b0 % 16), ToHexDigit(b1 / 16), ToHexDigit(b1 % 16),
       ToHexDigit(b2 / 16), ToHexDigit(b2 % 16), ToHexDigit(b3 / 16), ToHexDigit(b3 % 16)]
  {
    assert [b0][..0] == [];
    assert HexOfBytes([b0]) == [ToHexDigit(b0 / 16), ToHexDigit(b0 % 16)];
    assert [b0, b1][..1] == [b0];
    assert HexOfBytes([b0, b1]) == HexOfBytes([b0]) + [ToHexDigit(b1 / 16), ToHexDigit(b1 % 16)];
    assert [b0, b1, b2][..2] == [b0, b1];
    assert HexOfBytes([b0, b1, b2]) == HexOfBytes([b0, b1]) + [ToHexDigit(b2 / 16), ToHexDigit(b2 % 16)];
    assert [b0, b1, b2, b3][..3] == [b0, b1, b2];
    assert HexOfBytes([b0, b1, b2, b3]) == HexOfBytes([b0, b1, b2]) + [ToHexDigit(b3 / 16), ToHexDigit(b3 % 16)];
  }

  /** Appending a byte appends its two characters. */
  lemma HexOfBytesSnoc(bytes: seq<byte>, b: byte)
    ensures HexOfBytes(bytes + [b]) == HexOfBytes(bytes) + [ToHexDigit(b / 16), ToHexDigit(b % 16)]
  {
    assert (bytes + [b])[..|bytes|] == bytes;
  }

  /** Eight characters; 2i and 2i+1 are the high and the low nibble of memory byte i. */
  lemma HexOfFloatLayout(value: Bits32)
    ensures |HexOfFloat(value)| == 8
    ensures forall i :: 0 <= i < 4 ==>
              HexOfFloat(value)[2 * i] == ToHexDigit(MemoryBytes(value)[i] / 16) &&
              HexOfFloat(value)[2 * i + 1] == ToHexDigit(MemoryBytes(value)[i] % 16)
  {
    forall i | 0 <= i < 4
      ensures HexOfFloat(value)[2 * i] == ToHexDigit(MemoryBytes(value)[i] / 16)
      ensures HexOfFloat(value)[2 * i + 1] == ToHexDigit(MemoryBytes(value)[i] % 16)
    {
      HexOfBytesAt(MemoryBytes(value), i);
    }
  }

  /** The loop of convertFloat: push the high then the low nibble of each memory byte. */
  method ConvertFloat(value: Bits32) returns (convertedData: seq<char>)
    ensures convertedData == HexOfFloat(value)
    ensures |convertedData| == 8
    ensures forall i :: 0 <= i < 4 ==>
              convertedData[2 * i] == ToHexDigit(MemoryBytes(value)[i] / 16) &&
              convertedData[2 * i + 1] == ToHexDigit(MemoryBytes(value)[i] % 16)
  {
    var bytes := MemoryBytes(value);
    convertedData := [];
    for i := 0 to 4
      invariant convertedData == HexOfBytes(bytes[..i])
    {
      HexOfBytesSnoc(bytes[..i], bytes[i]);
      assert bytes[..i + 1] == bytes[..i] + [bytes[i]];
      convertedData := convertedData + [ToHexDigit(bytes[i] / 16)];
      convertedData := convertedData + [ToHexDigit(bytes[i] % 16)];
    }
    assert bytes[..4] == bytes;
    HexOfFloatLayout(value);
  }
}
