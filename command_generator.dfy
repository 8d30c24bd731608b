/**
 * The command-data generator: a fixed register header followed by two floats,
 * all written as lower-case hex text.
 */
module CommandGenerator {
  import opened FloatConverter
  import opened HexDigits

  /**
   * 01 00 0A puts the controller into position mode; 0c 02 20 announces two
   * float32 registers starting at register 0x20.
   */
  const PositionModeHeader: seq<byte> := [0x01, 0x00, 0x0A, 0x0C, 0x02, 0x20]

  /** The same nibble-to-character rule as the float converter uses, on an unsigned char. */
  function NibbleToHexChar(nibble: byte): (c: char)
    ensures c == ToHexDigit(nibble)
  {
    if nibble < 10 then ('0' as int + nibble) as char
    else (('a' as int + (nibble - 10)) % 0x100) as char
  }

  /** Distinct nibbles give distinct characters. */
  lemma NibbleToHexCharInjective(a: byte, b: byte)
    requires a < 16 && b < 16
    requires NibbleToHexChar(a) == NibbleToHexChar(b)
    ensures a == b
  {
    assert HexDigitValue(NibbleToHexChar(a)) == a;
    assert HexDigitValue(NibbleToHexChar(b)) == b;
  }

  /** The command data a fresh generator holds: header text, then the two floats. */
  function InitialCommandData(float1: Bits32, float2: Bits32): seq<char> {
    HexOfBytes(PositionModeHeader) + HexOfFloat(float1) + HexOfFloat(float2)
  }

  /**
   * The data is 28 characters: the header "01000a0c0220", then eight characters
   * for each float, from which the float's memory bytes can be read back.
   */
  lemma InitialCommandDataLayout(float1: Bits32, float2: Bits32)
    ensures |InitialCommandData(float1, float2)| == 28
    ensures InitialCommandData(float1, float2)[..12] == "01000a0c0220"
    ensures InitialCommandData(float1, float2)[12..20] == HexOfFloat(float1)
    ensures InitialCommandData(float1, float2)[20..] == HexOfFloat(float2)
    ensures AllHex(InitialCommandData(float1, float2)[12..20])
    ensures FromMemoryBytes(BytesOfHex(InitialCommandData(float1, float2)[12..20])) == float1
    ensures AllHex(InitialCommandData(float1, float2)[20..])
    ensures FromMemoryBytes(BytesOfHex(InitialCommandData(float1, float2)[20..])) == float2
  {
    HeaderText();
    var d := InitialCommandData(float1, float2);
    var h, a, b := HexOfBytes(PositionModeHeader), HexOfFloat(float1), HexOfFloat(float2);
    assert |h| == 12 && |a| == 8 && |b| == 8;
    assert d[..12] == h;
    assert d[12..20] == a;
    assert d[20..] == b;
    FloatHexRoundTrip(float1);
    FloatHexRoundTrip(float2);
  }

  lemma HeaderText()
    ensures HexOfBytes(PositionModeHeader) == "01000a0c0220"
  {
    HeaderTextFront();
    assert ToHexDigit(2) == '2' && ToHexDigit(12) == 'c';
    HexOfBytesSnoc([0x01, 0x00, 0x0A], 0x0C);
    assert [0x01, 0x00, 0x0A] + [0x0C] == [0x01, 0x00, 0x0A, 0x0C];
    assert 0x0C / 16 == 0 && 0x0C % 16 == 12;
    assert HexOfBytes([0x01, 0x00, 0x0A, 0x0C]) == "01000a0c";
    HeaderTextBack();
  }

  /** The hex of the header's first three bytes. */
  lemma HeaderTextFront()
    ensures HexOfBytes([0x01, 0x00, 0x0A]) == "01000a"
  {
    assert ToHexDigit(0) == '0' && ToHexDigit(1) == '1' && ToHexDigit(10) == 'a';
    HexOfBytesSnoc([], 0x01);
    assert [] + [0x01] == [0x01];
    assert HexOfBytes([0x01]) == "01";
    HexOfBytesSnoc([0x01], 0x00);
    assert HexOfBytes([0x01, 0x00]) == "0100";
    HexOfBytesSnoc([0x01, 0x00], 0x0A);
  }

  /** The hex of the header's last two bytes, after its first four. */
  lemma HeaderTextBack()
    requires HexOfBytes([0x01, 0x00, 0x0A, 0x0C]) == "01000a0c"
    ensures HexOfBytes(PositionModeHeader) == "01000a0c0220"
  {
    assert ToHexDigit(0) == '0' && ToHexDigit(2) == '2';
    HexOfBytesSnoc([0x01, 0x00, 0x0A, 0x0C], 0x02);
    assert [0x01, 0x00, 0x0A, 0x0C] + [0x02] == [0x01, 0x00, 0x0A, 0x0C, 0x02];
    assert HexOfBytes([0x01, 0x00, 0x0A, 0x0C, 0x02]) == "01000a0c02";
    HexOfBytesSnoc([0x01, 0x00, 0x0A, 0x0C, 0x02], 0x20);
    assert [0x01, 0x00, 0x0A, 0x0C, 0x02] + [0x20] == PositionModeHeader;
  }

  class CommandGenerator {
    var commandPrefix: seq<char>
    var commandData: seq<char>
    var fullCommand: seq<char>

    /** The prefix and the full command are left empty; only the data is built. */
    constructor (float1: Bits32, float2: Bits32)
      ensures commandData == InitialCommandData(float1, float2)
      ensures commandPrefix == [] && fullCommand == []
    {
      commandPrefix, commandData, fullCommand := [], [], [];
      new;
      commandData := ConvertToASCII(PositionModeHeader);
      AppendFloatsToCommandData(float1, float2);
    }

    function GetCommand(): (command: seq<char>)
      reads this
      ensures command == commandData
    {
      commandData
    }

    method AppendFloatsToCommandData(float1: Bits32, float2: Bits32)
      modifies this`commandData
      ensures commandData == old(commandData) + HexOfFloat(float1) + HexOfFloat(float2)
    {
      var floats := [float1, float2];
      for k := 0 to 2
        invariant commandData == old(commandData) + (if k == 0 then [] else HexOfFloat(float1))
                                                  + (if k == 2 then HexOfFloat(float2) else [])
      {
        var encodedFloat := ConvertFloat(floats[k]);
        commandData := commandData + encodedFloat;
      }
    }

    method BuildAndStoreCommand()
      modifies this`fullCommand
      ensures fullCommand == commandPrefix + commandData
    {
      fullCommand := commandPrefix;
      fullCommand := fullCommand + commandData;
    }

    /** Two characters per input byte, high nibble first, in input order. */
    method ConvertToASCII(hexData: seq<byte>) returns (asciiData: seq<char>)
      ensures asciiData == HexOfBytes(hexData)
      ensures |asciiData| == 2 * |hexData|
    {
      asciiData := [];
      for k := 0 to |hexData|
        invariant asciiData == HexOfBytes(hexData[..k])
      {
        assert hexData[..k + 1][..k] == hexData[..k];
        asciiData := asciiData + [NibbleToHexChar(hexData[k] / 16)];
        asciiData := asciiData + [NibbleToHexChar(hexData[k] % 16)];
      }
      assert hexData[..|hexData|] == hexData;
    }
  }
}
