/** The ArtDmx packet of the Art-Net 4 specification ("ArtDmx packet definition"),
    the mapping of universes to Port-Addresses, and the sequence counter. */
module Packet {
  import opened Prelude
  import opened Fixtures

  const HEADER_LENGTH := 18
  const ID: seq<Byte> := [0x41, 0x72, 0x74, 0x2d, 0x4e, 0x65, 0x74, 0x00]
  const OP_OUTPUT_DMX := 0x5000
  const PROTOCOL_VERSION := 14

  type Word = x: int | 0 <= x < 0x10000

  function Low(w: Word): Byte { w % 256 }
  function High(w: Word): Byte { w / 256 }

  predicate LengthOk(n: nat) { 2 <= n <= 512 && n % 2 == 0 }

  const LENGTH_INVALID := "GOLC_ARTNET_DMX_LENGTH_INVALID"

  /** `EncodeArtDMX`.  The opcode goes out low byte first, the length high byte
      first; bit 7 of the Net byte is always zero. */
  method EncodeArtDmx(sequence: Byte, physical: Byte, portAddress: Word, data: seq<Byte>)
    returns (r: Result<seq<Byte>, string>)
    ensures r.Ok? <==> LengthOk(|data|)
    ensures r.Ok? ==> r.value == Wire(Dmx(sequence, physical, portAddress % 0x8000, data))
    ensures r.Err? ==> r.error == LENGTH_INVALID
  {
    if |data| < 2 || |data| > 512 || |data| % 2 != 0 { return Err(LENGTH_INVALID); }
    var buf := new Byte[HEADER_LENGTH + |data|](i => 0);
    PutHeader(buf, sequence, physical, portAddress, data);
    hide Fields, ID;
    forall i | 0 <= i < |data| { buf[HEADER_LENGTH + i] := data[i]; }
    assert buf[HEADER_LENGTH..] == data;
    assert buf[..] == buf[..HEADER_LENGTH] + buf[HEADER_LENGTH..];
    return Ok(buf[..]);
  }

  method PutHeader(buf: array<Byte>, sequence: Byte, physical: Byte, portAddress: Word, data: seq<Byte>)
    requires buf.Length >= HEADER_LENGTH && LengthOk(|data|)
    modifies buf
    ensures buf[..HEADER_LENGTH] == ID + Fields(Dmx(sequence, physical, portAddress % 0x8000, data))
  {
    PortBytes(portAddress);
    forall i | 0 <= i < 8 { buf[i] := ID[i]; }
    buf[8], buf[9] := Low(OP_OUTPUT_DMX), High(OP_OUTPUT_DMX);
    buf[10], buf[11] := 0, 14;
    buf[12], buf[13] := sequence, physical;
    buf[14], buf[15] := portAddress % 0x100, (portAddress / 0x100) % 0x80;
    buf[16], buf[17] := High(|data|), Low(|data|);
    hide Low, High, LengthOk;
    assert buf[..8] == ID;
    assert buf[8..18] == Fields(Dmx(sequence, physical, portAddress % 0x8000, data));
    assert buf[..18] == buf[..8] + buf[8..18];
  }

  lemma PortBytes(portAddress: Word)
    ensures Low(portAddress % 0x8000) == portAddress % 0x100
    ensures High(portAddress % 0x8000) == (portAddress / 0x100) % 0x80
  {
  }

  // ----- The wire format as a receiver reads it ------------------------------------------

  /** The contents of a packet: a 15-bit Port-Address and an even number of levels. */
  datatype Dmx = Dmx(sequence: Byte, physical: Byte, portAddress: Word, data: seq<Byte>)

  predicate WellFormed(m: Dmx) { m.portAddress < 0x8000 && LengthOk(|m.data|) }

  function Fields(m: Dmx): seq<Byte>
    requires LengthOk(|m.data|)
  {
    [Low(OP_OUTPUT_DMX), High(OP_OUTPUT_DMX), 0, PROTOCOL_VERSION, m.sequence, m.physical,
     Low(m.portAddress), High(m.portAddress), High(|m.data|), Low(|m.data|)]
  }

  function Wire(m: Dmx): seq<Byte>
    requires LengthOk(|m.data|)
  {
    ID + Fields(m) + m.data
  }

  function WordAt(b: seq<Byte>, low: nat, high: nat): Word
    requires low < |b| && high < |b|
  {
    (b[high] as int) * 256 + b[low] as int
  }

  /** A strict reader of the format. */
  function Parse(b: seq<Byte>): Option<Dmx> {
    if |b| < HEADER_LENGTH || b[..8] != ID || WordAt(b, 8, 9) != OP_OUTPUT_DMX
       || WordAt(b, 11, 10) != PROTOCOL_VERSION || WordAt(b, 14, 15) >= 0x8000
       || WordAt(b, 17, 16) != |b| - HEADER_LENGTH || !LengthOk(WordAt(b, 17, 16))
    then None
    else Some(Dmx(b[12], b[13], WordAt(b, 14, 15), b[HEADER_LENGTH..]))
  }

  lemma WordBytes(w: Word)
    ensures High(w) * 256 + Low(w) == w
  {
  }

  lemma BytesWord(low: Byte, high: Byte)
    ensures Low(high * 256 + low) == low && High(high * 256 + low) == high
  {
  }

  lemma WireShape(m: Dmx)
    requires LengthOk(|m.data|)
    ensures var b := Wire(m);
            && |b| == HEADER_LENGTH + |m.data| && b[..8] == ID && b[8..18] == Fields(m) && b[18..] == m.data
  {
  }

  /** Every byte of a packet, as the specification lists them: the identifier "Art-Net", the
      opcode 0x5000 low byte first, protocol version 14, sequence, physical port, the
      address low byte first, the length high byte first, and the data. */
  lemma WireBytes(m: Dmx)
    requires LengthOk(|m.data|)
    ensures var b := Wire(m);
            && |b| == 18 + |m.data|
            && b[..8] == [0x41, 0x72, 0x74, 0x2d, 0x4e, 0x65, 0x74, 0x00]
            && b[8..12] == [0x00, 0x50, 0x00, 0x0e]
            && b[12..18] == [m.sequence, m.physical, m.portAddress % 256, m.portAddress / 256,
                             |m.data| / 256, |m.data| % 256]
            && b[18..] == m.data
  {
    WireShape(m);
    var b := Wire(m);
    assert b[8..18][..4] == b[8..12] && b[8..18][4..] == b[12..18];
  }

  lemma ParseOfWire(m: Dmx)
    requires WellFormed(m)
    ensures Parse(Wire(m)) == Some(m)
  {
    var b := Wire(m);
    WireShape(m);
    hide Wire;
    assert forall i :: 8 <= i < 18 ==> b[i] == b[8..18][i - 8];
    WordBytes(OP_OUTPUT_DMX);
    WordBytes(m.portAddress);
    WordBytes(|m.data|);
  }

  lemma WireOfParse(b: seq<Byte>)
    requires Parse(b).Some?
    ensures Wire(Parse(b).value) == b
  {
    var m := Parse(b).value;
    BytesWord(b[8], b[9]);
    BytesWord(b[11], b[10]);
    BytesWord(b[14], b[15]);
    BytesWord(b[17], b[16]);
    assert Fields(m) == b[8..18];
    assert b == b[..8] + b[8..18] + b[18..];
  }

  /** Printing and reading are inverse on exactly the well-formed contents. */
  lemma WireFormat(m: Dmx, b: seq<Byte>)
    ensures Parse(b) == Some(m) <==> WellFormed(m) && Wire(m) == b
  {
    if Parse(b) == Some(m) {
      WireOfParse(b);
    } else if WellFormed(m) && Wire(m) == b {
      ParseOfWire(m);
    }
  }

  /** What is sent is read back unchanged exactly when the address fits 15 bits; the
      level of channel o is the byte at 18 + o. */
  lemma RoundTrip(sequence: Byte, physical: Byte, portAddress: Word, data: seq<Byte>)
    requires LengthOk(|data|)
    ensures var b := Wire(Dmx(sequence, physical, portAddress % 0x8000, data));
            && (Parse(b) == Some(Dmx(sequence, physical, portAddress, data)) <==> portAddress < 0x8000)
            && (forall o :: 0 <= o < |data| ==> b[HEADER_LENGTH + o] == data[o])
  {
    var m := Dmx(sequence, physical, portAddress % 0x8000, data);
    ParseOfWire(m);
    WireShape(m);
    hide Wire;
    forall o | 0 <= o < |data| ensures Wire(m)[HEADER_LENGTH + o] == data[o] {
      assert Wire(m)[18..][o] == data[o];
    }
  }

  // ----- Port-Addresses -------------------------------------------------------------------

  /** Net 0, Sub-Net bits 4 to 7 and Universe bits 0 to 3 of the flat universe number;
      shifts of negative numbers round down, as division does here. */
  function PortAddress(universe: int): Word {
    (universe / 16 % 16) * 16 + universe % 16
  }

  lemma SplitNibbles(u: int)
    ensures (u / 16 % 16) * 16 + u % 16 == u % 256
  {
    assert u == (u / 16) * 16 + u % 16;
    assert u / 16 == (u / 16 / 16) * 16 + u / 16 % 16;
    assert u / 16 / 16 == u / 256;
  }

  /** The low byte of the universe number: Net 0, Sub-Net in the high nibble, Universe in
      the low one. */
  lemma AddressIsLowByte(u: int)
    ensures PortAddress(u) == u % 256
    ensures PortAddress(u) / 256 == 0 && PortAddress(u) / 16 == u / 16 % 16 && PortAddress(u) % 16 == u % 16
  {
    SplitNibbles(u);
  }

  lemma SameAddressIff(u: int, v: int)
    ensures PortAddress(u) == PortAddress(v) <==> u % 256 == v % 256
  {
    SplitNibbles(u);
    SplitNibbles(v);
  }

  /** Two different valid universes never share a Port-Address. */
  lemma ValidUniversesDistinct(u: int, v: int)
    requires 1 <= u <= 255 && 1 <= v <= 255 && u != v
    ensures PortAddress(u) != PortAddress(v)
  {
    SameAddressIff(u, v);
  }

  // ----- Sequence numbers -------------------------------------------------------------------

  function NextSeq(prev: Byte): (r: Byte)
    ensures r != 0
  {
    if prev == 0 || prev == 255 then 1 else prev + 1
  }

  /** The counter after k packets. */
  function SeqAfter(k: nat): Byte {
    if k == 0 then 0 else NextSeq(SeqAfter(k - 1))
  }

  /** The k-th packet carries ((k - 1) mod 255) + 1. */
  lemma {:induction false} KthSequence(k: nat)
    requires k > 0
    ensures SeqAfter(k) == (k - 1) % 255 + 1
  {
    if k > 1 {
      KthSequence(k - 1);
      assert (k - 1) % 255 == if (k - 2) % 255 == 254 then 0 else (k - 2) % 255 + 1;
    }
  }
}
