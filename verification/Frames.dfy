/**
 The frames that travel inside one conversation, and how the two readers tell them apart.
 One write is taken to arrive as one frame.
 */
module Frames {
  import opened Basics

  /** What a reader makes of a frame. */
  datatype Frame =
    | Hello
    | Linkdown(name: int)
    | Data(bytes: seq<byte>)

  const HELLO_SIZE: nat := 40

  function HelloBytes(): (b: seq<byte>)
    ensures |b| == HELLO_SIZE
  {
    seq(HELLO_SIZE, i => 0)
  }

  /** A zero byte, then the low sixteen bits of the conversation id, least significant byte first. */
  function LinkdownBytes(convid: u32): seq<byte> {
    [0, convid % 256, convid / 256 % 256]
  }

  function LittleEndian16(lo: byte, hi: byte): int {
    lo + 256 * hi
  }

  predicate LooksLikeHello(b: seq<byte>) {
    |b| == HELLO_SIZE && b[0] == 0 && b[1] == 0
  }

  /** The dispatch in the server's reader. */
  function ServerRead(b: seq<byte>): Frame {
    if LooksLikeHello(b) then Hello
    else if |b| == 3 && b[0] == 0 then Linkdown(LittleEndian16(b[1], b[2]))
    else Data(b)
  }

  /** The dispatch in the client's reader, which knows no LINKDOWN. */
  function ClientRead(b: seq<byte>): Frame {
    if LooksLikeHello(b) then Hello else Data(b)
  }

  function Write(f: Frame): seq<byte>
    requires f.Linkdown? ==> 0 <= f.name < U32_RANGE
  {
    match f
    case Hello => HelloBytes()
    case Linkdown(c) => LinkdownBytes(c)
    case Data(b) => b
  }

  /** The first byte of an IP packet holds a non-zero version number in its upper half. */
  predicate IsIpPacket(b: seq<byte>) {
    |b| > 0 && b[0] / 16 != 0
  }

  lemma SixteenBits(c: u32)
    ensures LittleEndian16(c % 256, c / 256 % 256) == c % 65536
  {
  }

  /** Reading undoes writing, except that a LINKDOWN keeps only the low sixteen bits of the id. */
  lemma ServerReadsWhatWasWritten(f: Frame)
    requires f.Linkdown? ==> 0 <= f.name < U32_RANGE
    requires f.Data? ==> IsIpPacket(f.bytes)
    ensures ServerRead(Write(f)) == if f.Linkdown? then Linkdown(f.name % 65536) else f
    ensures ServerRead(Write(f)) == f <==> (f.Linkdown? ==> f.name < 65536)
  {
    if f.Linkdown? {
      SixteenBits(f.name);
    }
  }

  /** A frame that reads as LINKDOWN is the one LINKDOWN frame for the id it names. */
  lemma WriteUndoesLinkdownRead(b: seq<byte>)
    requires ServerRead(b).Linkdown?
    ensures 0 <= ServerRead(b).name < 65536 && LinkdownBytes(ServerRead(b).name) == b
  {
    var name := ServerRead(b).name;
    assert name % 256 == b[1] && name / 256 % 256 == b[2];
    assert LinkdownBytes(name) == [0, b[1], b[2]] == b;
  }

  /** The frames themselves: forty zero bytes, and a LINKDOWN with the low byte of the id first. */
  lemma FramesByExample()
    ensures |HelloBytes()| == 40 && forall i :: 0 <= i < 40 ==> HelloBytes()[i] == 0
    ensures LinkdownBytes(0x1234) == [0, 0x34, 0x12] && ServerRead([0, 0x34, 0x12]) == Linkdown(0x1234)
    ensures LinkdownBytes(0x56789) == [0, 0x89, 0x67]
    ensures ServerRead(HelloBytes()) == Hello && ClientRead(HelloBytes()) == Hello
    ensures ClientRead([0, 0x34, 0x12]) == Data([0, 0x34, 0x12])
    ensures forall b: byte :: IsIpPacket([b]) <==> b >= 16
    ensures forall b :: |b| == 40 && b[0] == 0 && b[1] == 1 ==> ServerRead(b) == Data(b) && ClientRead(b) == Data(b)
  {
  }

  /** No IP packet, of any length, is taken for a hello or a LINKDOWN: both sides pass it on unchanged. */
  lemma IpPacketsPassThrough(b: seq<byte>)
    requires IsIpPacket(b)
    ensures ServerRead(b) == Data(b) && ClientRead(b) == Data(b)
    ensures b[0] >= 16
  {
  }
}
