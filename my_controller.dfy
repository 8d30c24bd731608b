/**
 * The serial-to-CAN bridge protocol: the text of every command line the host
 * sends, the decoding of the three floats in a reply, and the controller object
 * through which the motion code talks to the motor.
 */
module MyController {
  import opened Common
  import opened HexDigits
  import opened FloatConverter
  import CommandGenerator

  // ---------------------------------------------------------------- frames

  const WritePrefix := "can send 8001 01000a0c0220"
  const WriteOnlyPrefix := "can send 01 01000a0c0220"
  const ReadSuffix := "1c0301\n"
  const RezeroPrefix := "can send 0001 0db102"

  function StopFrame(): string {
    "can send 0001 010000\n"
  }

  function BrakeFrame(): string {
    "can send 0001 01000f\n"
  }

  /** Position mode with two floats, then a request to read three registers from 0x01. */
  function WriteFrame(float1: Bits32, float2: Bits32): string {
    WritePrefix + HexOfFloat(float1) + HexOfFloat(float2) + ReadSuffix
  }

  /** The same two floats to CAN id 01, which asks for no reply. */
  function WriteOnlyFrame(float1: Bits32, float2: Bits32): string {
    WriteOnlyPrefix + HexOfFloat(float1) + HexOfFloat(float2) + "\n"
  }

  function CustomFrame(): string {
    "can send 0001 " + "0db10200004040" + "\n"
  }

  function RezeroFrame(float1: Bits32): string {
    RezeroPrefix + HexOfFloat(float1) + "\n"
  }

  function QueryFrame(): string {
    "can send 8001 " + ReadSuffix
  }

  /** Reads a float field back from the eight characters at `start`. */
  function FieldAt(line: string, start: nat): Option<Bits32>
    requires start + 8 <= |line|
  {
    var field := line[start..start + 8];
    if AllHex(field) then Some(FromMemoryBytes(BytesOfHex(field))) else None
  }

  /**
   * The write line is 49 characters: the fixed mode prefix, the two floats at
   * characters 26 and 34 (each readable back bit for bit) and the read-back suffix.
   */
  lemma WriteFrameLayout(float1: Bits32, float2: Bits32)
    ensures |WriteFrame(float1, float2)| == 49
    ensures WriteFrame(float1, float2)[..26] == "can send 8001 01000a0c0220"
    ensures FieldAt(WriteFrame(float1, float2), 26) == Some(float1)
    ensures FieldAt(WriteFrame(float1, float2), 34) == Some(float2)
    ensures WriteFrame(float1, float2)[42..] == "1c0301\n"
  {
    var line := WriteFrame(float1, float2);
    var a, b := HexOfFloat(float1), HexOfFloat(float2);
    FloatHexRoundTrip(float1);
    FloatHexRoundTrip(float2);
    assert line == WritePrefix + a + b + ReadSuffix;
    assert line[26..34] == a;
    assert line[34..42] == b;
  }

  /** The write-only line is 41 characters: floats at 24 and 32, then only a newline. */
  lemma WriteOnlyFrameLayout(float1: Bits32, float2: Bits32)
    ensures |WriteOnlyFrame(float1, float2)| == 41
    ensures WriteOnlyFrame(float1, float2)[..24] == "can send 01 01000a0c0220"
    ensures FieldAt(WriteOnlyFrame(float1, float2), 24) == Some(float1)
    ensures FieldAt(WriteOnlyFrame(float1, float2), 32) == Some(float2)
    ensures WriteOnlyFrame(float1, float2)[40..] == "\n"
  {
    var line := WriteOnlyFrame(float1, float2);
    var a, b := HexOfFloat(float1), HexOfFloat(float2);
    FloatHexRoundTrip(float1);
    FloatHexRoundTrip(float2);
    assert line == WriteOnlyPrefix + a + b + "\n";
    assert line[24..32] == a;
    assert line[32..40] == b;
  }

  /** The rezero line is 29 characters with the new position at character 20. */
  lemma RezeroFrameLayout(float1: Bits32)
    ensures |RezeroFrame(float1)| == 29
    ensures RezeroFrame(float1)[..20] == "can send 0001 0db102"
    ensures FieldAt(RezeroFrame(float1), 20) == Some(float1)
    ensures RezeroFrame(float1)[28..] == "\n"
  {
    var line := RezeroFrame(float1);
    FloatHexRoundTrip(float1);
    assert line[20..28] == HexOfFloat(float1);
  }

  /** The custom command is the rezero command for 3.0f (bit pattern 0x40400000). */
  lemma CustomIsRezeroToThree()
    ensures CustomFrame() == RezeroFrame(0x4040_0000)
  {
    assert HexOfFloat(0x4040_0000) == "00004040" by {
      assert MemoryBytes(0x4040_0000) == [0x00, 0x00, 0x40, 0x40];
      HexOfFourBytes(0x00, 0x00, 0x40, 0x40);
      assert ToHexDigit(0) == '0' && ToHexDigit(4) == '4';
    }
  }

  /** The write data between the CAN id and the suffix is what the command generator builds. */
  lemma WriteFrameCarriesGeneratorData(float1: Bits32, float2: Bits32)
    ensures WriteFrame(float1, float2) ==
            "can send 8001 " + CommandGenerator.InitialCommandData(float1, float2) + ReadSuffix
  {
    CommandGenerator.HeaderText();
  }

  /** A position-hold frame with a NaN position and 1.0f velocity, written out. */
  lemma NaNAndOneWriteFrame()
    ensures WriteFrame(QuietNaNBits, OneBits) == "can send 8001 01000a0c02200000c07f0000803f1c0301\n"
  {
    QuietNaNEncoding();
    OneEncoding();
  }

  // ---------------------------------------------------------------- decoding

  datatype DecodeError = ShortReply | NotHex

  /** The reply offsets of position, velocity and torque. */
  const PositionOffset := 18
  const VelocityOffset := 26
  const TorqueOffset := 34
  const ReplyLength := 42

  function Concat(parts: seq<seq<char>>): seq<char> {
    if parts == [] then [] else Concat(parts[..|parts| - 1]) + parts[|parts| - 1]
  }

  function Reverse<T>(s: seq<T>): (r: seq<T>)
    ensures |r| == |s|
    ensures forall i :: 0 <= i < |s| ==> r[i] == s[|s| - 1 - i]
  {
    if s == [] then [] else [s[|s| - 1]] + Reverse(s[..|s| - 1])
  }

  /** The four two-character parts of the group at `start`, in buffer order. */
  function Parts(buf: seq<char>, start: nat): seq<seq<char>>
    requires start + 8 <= |buf|
  {
    [buf[start..start + 2], buf[start + 2..start + 4], buf[start + 4..start + 6], buf[start + 6..start + 8]]
  }

  /**
   * Parse the concatenated parts as one unsigned 32-bit hex number and take its
   * bits as the float. A value too large for 32 bits saturates, as the stream
   * extraction does; a string that is empty or holds a non-hex character is a
   * parse error.
   */
  function HexStringToFloat(hexParts: seq<seq<char>>): (r: Result<Bits32, DecodeError>)
    ensures r.Success? <==> Concat(hexParts) != [] && AllHex(Concat(hexParts))
    ensures r.Success? && ParseHex(Concat(hexParts)) < 0x1_0000_0000 ==> r.value == ParseHex(Concat(hexParts))
  {
    var s := Concat(hexParts);
    if s == [] || !AllHex(s) then Failure(NotHex)
    else
      var x := ParseHex(s);
      Success(if x < 0x1_0000_0000 then x else 0xFFFF_FFFF)
  }

  /** One float of the reply: the group's parts reversed, then parsed. */
  function GroupValue(buf: seq<char>, start: nat): Result<Bits32, DecodeError>
    requires start + 8 <= |buf|
  {
    HexStringToFloat(Reverse(Parts(buf, start)))
  }

  /** Position, velocity and torque bit patterns of a reply buffer. */
  function DecodeReply(buf: seq<char>): (r: Result<seq<Bits32>, DecodeError>)
    ensures r.Success? ==> |r.value| == 3
    ensures r == Failure(ShortReply) <==> |buf| < ReplyLength
  {
    if |buf| < ReplyLength then Failure(ShortReply)
    else
      var position :- GroupValue(buf, PositionOffset);
      var velocity :- GroupValue(buf, VelocityOffset);
      var torque :- GroupValue(buf, TorqueOffset);
      Success([position, velocity, torque])
  }

  /** The two lower-case hex characters of one byte, high nibble first. */
  function HexPair(b: byte): seq<char> {
    [ToHexDigit(b / 16), ToHexDigit(b % 16)]
  }

  lemma ConcatFour(a: seq<char>, b: seq<char>, c: seq<char>, d: seq<char>)
    ensures Concat([a, b, c, d]) == a + b + c + d
  {
    var ps := [a, b, c, d];
    assert ps[..3] == [a, b, c] && [a, b, c][..2] == [a, b] && [a, b][..1] == [a] && [a][..0] == [];
    calc {
      Concat(ps);
      Concat([a, b, c]) + d;
      Concat([a, b]) + c + d;
      Concat([a]) + b + c + d;
      Concat([]) + a + b + c + d;
    }
  }

  /** The hex pairs of four bytes, most significant first, parse to the 32-bit value. */
  lemma ParseFourPairs(b0: byte, b1: byte, b2: byte, b3: byte)
    ensures AllHex(HexPair(b3) + HexPair(b2) + HexPair(b1) + HexPair(b0))
    ensures ParseHex(HexPair(b3) + HexPair(b2) + HexPair(b1) + HexPair(b0)) ==
            b0 + 0x100 * b1 + 0x1_0000 * b2 + 0x100_0000 * b3
  {
    ByteHexRoundTrip(b0);
    ByteHexRoundTrip(b1);
    ByteHexRoundTrip(b2);
    ByteHexRoundTrip(b3);
    var s3 := [] + HexPair(b3);
    var s2 := s3 + HexPair(b2);
    var s1 := s2 + HexPair(b1);
    ParseHexPair([], ToHexDigit(b3 / 16), ToHexDigit(b3 % 16));
    ParseHexPair(s3, ToHexDigit(b2 / 16), ToHexDigit(b2 % 16));
    ParseHexPair(s2, ToHexDigit(b1 / 16), ToHexDigit(b1 % 16));
    ParseHexPair(s1, ToHexDigit(b0 / 16), ToHexDigit(b0 % 16));
    assert s3 == HexPair(b3);
  }

  /** The reversed parts of a group, glued together. */
  lemma ReversedPartsText(buf: seq<char>, start: nat)
    requires start + 8 <= |buf|
    ensures Concat(Reverse(Parts(buf, start))) ==
            buf[start + 6..start + 8] + buf[start + 4..start + 6] + buf[start + 2..start + 4] + buf[start..start + 2]
  {
    var ps := Parts(buf, start);
    assert Reverse(ps) == [ps[3], ps[2], ps[1], ps[0]];
    ConcatFour(ps[3], ps[2], ps[1], ps[0]);
  }

  /** Reversing the parts of an encoded float gives the hex of its 32-bit value. */
  lemma GroupRoundTrip(buf: seq<char>, start: nat, value: Bits32)
    requires start + 8 <= |buf|
    requires buf[start..start + 8] == HexOfFloat(value)
    ensures GroupValue(buf, start) == Success(value)
  {
    var bs := MemoryBytes(value);
    HexOfFloatLayout(value);
    assert buf[start..start + 2] == HexPair(bs[0]) by {
      assert buf[start] == HexOfFloat(value)[0] && buf[start + 1] == HexOfFloat(value)[1];
    }
    assert buf[start + 2..start + 4] == HexPair(bs[1]) by {
      assert buf[start + 2] == HexOfFloat(value)[2] && buf[start + 3] == HexOfFloat(value)[3];
    }
    assert buf[start + 4..start + 6] == HexPair(bs[2]) by {
      assert buf[start + 4] == HexOfFloat(value)[4] && buf[start + 5] == HexOfFloat(value)[5];
    }
    assert buf[start + 6..start + 8] == HexPair(bs[3]) by {
      assert buf[start + 6] == HexOfFloat(value)[6] && buf[start + 7] == HexOfFloat(value)[7];
    }
    ReversedPartsText(buf, start);
    ParseFourPairs(bs[0], bs[1], bs[2], bs[3]);
  }

  /**
   * Decoding a reply whose three groups were produced by the float converter
   * gives back the three bit patterns exactly.
   */
  lemma DecodeReplyRoundTrip(buf: seq<char>, position: Bits32, velocity: Bits32, torque: Bits32)
    requires |buf| >= ReplyLength
    requires buf[18..26] == HexOfFloat(position)
    requires buf[26..34] == HexOfFloat(velocity)
    requires buf[34..42] == HexOfFloat(torque)
    ensures DecodeReply(buf) == Success([position, velocity, torque])
  {
    GroupRoundTrip(buf, 18, position);
    GroupRoundTrip(buf, 26, velocity);
    GroupRoundTrip(buf, 34, torque);
  }

  /** The loop of the conversion lambda: collect four parts, reverse them, parse. */
  method ConvertToFloat(buf: seq<char>, start: nat) returns (f: Result<Bits32, DecodeError>)
    requires start + 8 <= |buf|
    ensures f == GroupValue(buf, start)
  {
    var parts: seq<seq<char>> := [];
    for j := 0 to 4
      invariant |parts| == j
      invariant forall k :: 0 <= k < j ==> parts[k] == buf[start + k * 2..start + k * 2 + 2]
    {
      parts := parts + [buf[start + j * 2..start + j * 2 + 2]];
    }
    assert parts == Parts(buf, start);
    parts := Reverse(parts);
    f := HexStringToFloat(parts);
  }

  /** The decoding half of sendReadCommand, on the buffer the read delivered. */
  method ReadFloats(buf: seq<char>) returns (floats: Result<seq<Bits32>, DecodeError>)
    ensures floats == DecodeReply(buf)
  {
    if |buf| < ReplyLength {
      return Failure(ShortReply);
    }
    var position := ConvertToFloat(buf, PositionOffset);
    if position.Failure? {
      return Failure(position.error);
    }
    var velocity := ConvertToFloat(buf, VelocityOffset);
    if velocity.Failure? {
      return Failure(velocity.error);
    }
    var torque := ConvertToFloat(buf, TorqueOffset);
    if torque.Failure? {
      return Failure(torque.error);
    }
    floats := Success([position.value, velocity.value, torque.value]);
  }

  // ---------------------------------------------------------------- the controller

  /** A commanded value, or NaN: "leave this one as it is". */
  datatype Cmd = Val(x: real) | Unchanged

  datatype Command =
    | Stop
    | Brake
    | Write(position: Cmd, velocity: Cmd)
    | WriteOnly(position: Cmd, velocity: Cmd)
    | Custom
    | Rezero(to: real)
    | Query

  /** Position, velocity and torque, as decoded from one reply. */
  datatype Reading = Reading(position: real, velocity: real, torque: real)

  function CmdBits(c: Cmd, toFloat: real -> Bits32): Bits32 {
    match c
    case Val(x) => toFloat(x)
    case Unchanged => QuietNaNBits
  }

  /** The line a command puts on the wire, given the rounding of reals to floats. */
  function Frame(c: Command, toFloat: real -> Bits32): string {
    match c
    case Stop => StopFrame()
    case Brake => BrakeFrame()
    case Write(p, v) => WriteFrame(CmdBits(p, toFloat), CmdBits(v, toFloat))
    case WriteOnly(p, v) => WriteOnlyFrame(CmdBits(p, toFloat), CmdBits(v, toFloat))
    case Custom => CustomFrame()
    case Rezero(p) => RezeroFrame(toFloat(p))
    case Query => QueryFrame()
  }

  /**
   * The CAN destination of a command. 8001 (the high bit asks the bridge for a
   * reply) goes exactly with the two commands after which the host reads.
   */
  function CanId(c: Command): (id: string)
    ensures id == "8001" <==> c.Write? || c.Query?
  {
    match c
    case Write(_, _) => "8001"
    case Query => "8001"
    case WriteOnly(_, _) => "01"
    case _ => "0001"
  }

  function FrameHead(c: Command): string {
    "can send " + CanId(c) + " "
  }

  lemma LiteralHead(line: string, head: string)
    requires |head| <= |line| && forall i :: 0 <= i < |head| ==> line[i] == head[i]
    ensures line[..|head|] == head
  {
  }

  /** Every command line opens with "can send <id> ". */
  lemma FrameShape(c: Command, toFloat: real -> Bits32)
    ensures |FrameHead(c)| < |Frame(c, toFloat)|
    ensures Frame(c, toFloat)[..|FrameHead(c)|] == FrameHead(c)
  {
    if c.Write? || c.WriteOnly? || c.Rezero? {
      FloatFrameShape(c, toFloat);
    } else {
      FixedFrameShape(c, toFloat);
    }
  }

  lemma FloatFrameShape(c: Command, toFloat: real -> Bits32)
    requires c.Write? || c.WriteOnly? || c.Rezero?
    ensures |FrameHead(c)| < |Frame(c, toFloat)|
    ensures Frame(c, toFloat)[..|FrameHead(c)|] == FrameHead(c)
  {
    match c
    case Write(p, v) => WriteFrameShape(p, v, toFloat);
    case WriteOnly(p, v) => WriteOnlyFrameShape(p, v, toFloat);
    case Rezero(p) => RezeroFrameShape(p, toFloat);
  }

  lemma WriteFrameShape(p: Cmd, v: Cmd, toFloat: real -> Bits32)
    ensures |FrameHead(Write(p, v))| < |Frame(Write(p, v), toFloat)|
    ensures Frame(Write(p, v), toFloat)[..|FrameHead(Write(p, v))|] == FrameHead(Write(p, v))
  {
    WriteHead(CmdBits(p, toFloat), CmdBits(v, toFloat));
    assert FrameHead(Write(p, v)) == "can send 8001 ";
  }

  lemma WriteOnlyFrameShape(p: Cmd, v: Cmd, toFloat: real -> Bits32)
    ensures |FrameHead(WriteOnly(p, v))| < |Frame(WriteOnly(p, v), toFloat)|
    ensures Frame(WriteOnly(p, v), toFloat)[..|FrameHead(WriteOnly(p, v))|] == FrameHead(WriteOnly(p, v))
  {
    WriteOnlyHead(CmdBits(p, toFloat), CmdBits(v, toFloat));
    assert FrameHead(WriteOnly(p, v)) == "can send 01 ";
  }

  lemma RezeroFrameShape(p: real, toFloat: real -> Bits32)
    ensures |FrameHead(Rezero(p))| < |Frame(Rezero(p), toFloat)|
    ensures Frame(Rezero(p), toFloat)[..|FrameHead(Rezero(p))|] == FrameHead(Rezero(p))
  {
    RezeroHead(toFloat(p));
    assert FrameHead(Rezero(p)) == "can send 0001 ";
  }

  lemma FixedFrameShape(c: Command, toFloat: real -> Bits32)
    requires !(c.Write? || c.WriteOnly? || c.Rezero?)
    ensures |FrameHead(c)| < |Frame(c, toFloat)|
    ensures Frame(c, toFloat)[..|FrameHead(c)|] == FrameHead(c)
  {
    LiteralHead(Frame(c, toFloat), FrameHead(c));
  }

  /** ... and closes with the newline that ends the bridge's input line. */
  lemma FrameEnd(c: Command, toFloat: real -> Bits32)
    ensures |Frame(c, toFloat)| >= 21
    ensures Frame(c, toFloat)[|Frame(c, toFloat)| - 1] == '\n'
  {
    match c
    case Write(p, v) => WriteFrameLayout(CmdBits(p, toFloat), CmdBits(v, toFloat));
    case WriteOnly(p, v) => WriteOnlyFrameLayout(CmdBits(p, toFloat), CmdBits(v, toFloat));
    case Rezero(p) => RezeroFrameLayout(toFloat(p));
    case _ => FixedFrameEnd(c, toFloat);
  }

  lemma FixedFrameEnd(c: Command, toFloat: real -> Bits32)
    requires !(c.Write? || c.WriteOnly? || c.Rezero?)
    ensures |Frame(c, toFloat)| >= 21
    ensures Frame(c, toFloat)[|Frame(c, toFloat)| - 1] == '\n'
  {
  }

  lemma WriteHead(float1: Bits32, float2: Bits32)
    ensures |WriteFrame(float1, float2)| == 49
    ensures WriteFrame(float1, float2)[..14] == "can send 8001 "
  {
    WriteFrameLayout(float1, float2);
    assert WriteFrame(float1, float2)[..14] == WriteFrame(float1, float2)[..26][..14];
  }

  lemma WriteOnlyHead(float1: Bits32, float2: Bits32)
    ensures |WriteOnlyFrame(float1, float2)| == 41
    ensures WriteOnlyFrame(float1, float2)[..12] == "can send 01 "
  {
    WriteOnlyFrameLayout(float1, float2);
    assert WriteOnlyFrame(float1, float2)[..12] == WriteOnlyFrame(float1, float2)[..24][..12];
  }

  lemma RezeroHead(float1: Bits32)
    ensures |RezeroFrame(float1)| == 29
    ensures RezeroFrame(float1)[..14] == "can send 0001 "
  {
    RezeroFrameLayout(float1);
    assert RezeroFrame(float1)[..14] == RezeroFrame(float1)[..20][..14];
  }

  /**
   * The controller as the motion code sees it: every command sent is logged,
   * and each read returns the next reading of the actuator, here an oracle.
   */
  class Controller {
    const replies: nat -> Reading
    var sent: seq<Command>
    var replyAt: nat

    constructor (replies: nat -> Reading)
      ensures this.replies == replies && sent == [] && replyAt == 0
    {
      this.replies := replies;
      sent, replyAt := [], 0;
    }

    method SendStopCommand()
      modifies this
      ensures sent == old(sent) + [Stop] && replyAt == old(replyAt)
    {
      sent := sent + [Stop];
    }

    method SendBrakeCommand()
      modifies this
      ensures sent == old(sent) + [Brake] && replyAt == old(replyAt)
    {
      sent := sent + [Brake];
    }

    method SendWriteCommand(float1: Cmd, float2: Cmd)
      modifies this
      ensures sent == old(sent) + [Write(float1, float2)] && replyAt == old(replyAt)
    {
      sent := sent + [Write(float1, float2)];
    }

    /** The bytes drained after a write-only command are discarded, not read as a sample. */
    method SendWriteOnlyCommand(float1: Cmd, float2: Cmd)
      modifies this
      ensures sent == old(sent) + [WriteOnly(float1, float2)] && replyAt == old(replyAt)
    {
      sent := sent + [WriteOnly(float1, float2)];
    }

    method SendCustomCommand()
      modifies this
      ensures sent == old(sent) + [Custom] && replyAt == old(replyAt)
    {
      sent := sent + [Custom];
    }

    method SendRezeroCommand(float1: real)
      modifies this
      ensures sent == old(sent) + [Rezero(float1)] && replyAt == old(replyAt)
    {
      sent := sent + [Rezero(float1)];
    }

    method SendQueryCommand()
      modifies this
      ensures sent == old(sent) + [Query] && replyAt == old(replyAt)
    {
      sent := sent + [Query];
    }

    method SendReadCommand() returns (state: Reading)
      modifies this
      ensures state == replies(old(replyAt))
      ensures replyAt == old(replyAt) + 1 && sent == old(sent)
    {
      state := replies(replyAt);
      replyAt := replyAt + 1;
    }
  }
}
