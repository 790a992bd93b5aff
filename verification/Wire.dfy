/** Frames as bytes: lltdWire.c's header writers, and the decoder they are inverse to. */
module Wire {
  import opened Protocol

  const HEADER_LENGTH: nat := 32
  const HELLO_HEADER_LENGTH: nat := 14

  /** The fields of lltd_demultiplex_header_t, in wire order. */
  datatype Header = Header(
    ethDest: Mac, ethSource: Mac, etherType: u16, version: byte, tos: byte, reserved: byte, opcode: byte,
    realDest: Mac, realSource: Mac, seqNumber: u16)

  datatype Frame = Frame(header: Header, body: seq<byte>)

  function EncodeHeader(h: Header): (s: seq<byte>)
    ensures |s| == HEADER_LENGTH
  {
    h.ethDest + h.ethSource + Be16(h.etherType) + [h.version] + [h.tos] + [h.reserved] + [h.opcode]
    + h.realDest + h.realSource + Be16(h.seqNumber)
  }

  function Encode(f: Frame): seq<byte> {
    EncodeHeader(f.header) + f.body
  }

  /** The header the code sees when it casts a buffer. */
  function DecodeHeader(s: seq<byte>): Header {
    Header(MacAt(s, 0), MacAt(s, 6), U16At(s, 12), ByteAt(s, 14), ByteAt(s, 15), ByteAt(s, 16), ByteAt(s, 17),
           MacAt(s, 18), MacAt(s, 24), U16At(s, 30))
  }

  function Decode(s: seq<byte>): Frame
    requires |s| >= HEADER_LENGTH
  {
    Frame(DecodeHeader(s), s[HEADER_LENGTH..])
  }

  lemma FrameRoundTrip(f: Frame)
    ensures Decode(Encode(f)) == f
  {
    var h, s := f.header, Encode(f);
    var t := EncodeHeader(h);
    assert forall k :: 0 <= k < HEADER_LENGTH ==> s[k] == t[k];
    HeaderRoundTrip(h, f.body);
    assert s[HEADER_LENGTH..] == f.body;
  }

  lemma HeaderRoundTrip(h: Header, rest: seq<byte>)
    ensures DecodeHeader(EncodeHeader(h) + rest) == h
  {
    var s := EncodeHeader(h) + rest;
    assert s[0..6] == h.ethDest && s[6..12] == h.ethSource && s[12..14] == Be16(h.etherType);
    assert s[14..18] == [h.version, h.tos, h.reserved, h.opcode];
    assert s[18..24] == h.realDest && s[24..30] == h.realSource && s[30..32] == Be16(h.seqNumber);
    MacSlice(s, 0);
    MacSlice(s, 6);
    MacSlice(s, 18);
    MacSlice(s, 24);
    U16Slice(s, 12, h.etherType);
    U16Slice(s, 30, h.seqNumber);
    assert s[14..18][0] == s[14] && s[14..18][1] == s[15] && s[14..18][2] == s[16] && s[14..18][3] == s[17];
  }

  /** Where each field of a frame lies on the wire. */
  lemma HeaderLayout(f: Frame)
    ensures var s, h := Encode(f), f.header;
            && |s| == 32 + |f.body| && s[32..] == f.body
            && s[0..6] == h.ethDest && s[6..12] == h.ethSource
            && s[12] == h.etherType / 256 && s[13] == h.etherType % 256
            && s[14] == h.version && s[15] == h.tos && s[16] == h.reserved && s[17] == h.opcode
            && s[18..24] == h.realDest && s[24..30] == h.realSource
            && s[30] == h.seqNumber / 256 && s[31] == h.seqNumber % 256
  {
    var t := EncodeHeader(f.header);
    assert forall k | 0 <= k < 32 :: Encode(f)[k] == t[k];
    assert t[0..6] == f.header.ethDest && t[6..12] == f.header.ethSource;
    assert t[18..24] == f.header.realDest && t[24..30] == f.header.realSource;
    assert Encode(f)[0..6] == t[0..6] && Encode(f)[6..12] == t[6..12];
    assert Encode(f)[18..24] == t[18..24] && Encode(f)[24..30] == t[24..30];
  }

  lemma MacSlice(s: seq<byte>, i: nat)
    requires i + 6 <= |s|
    ensures MacAt(s, i) == s[i..i + 6]
  {
  }

  lemma U16Slice(s: seq<byte>, i: nat, x: u16)
    requires i + 2 <= |s| && s[i..i + 2] == Be16(x)
    ensures U16At(s, i) == x
  {
    assert s[i..i + 2][0] == s[i] && s[i..i + 2][1] == s[i + 1];
  }

  /** setHelloHeader's fields, in wire order. */
  function HelloHeader(generation: u16, currentMapper: Mac, apparentMapper: Mac): (s: seq<byte>)
    ensures |s| == HELLO_HEADER_LENGTH
  {
    Be16(generation) + currentMapper + apparentMapper
  }

  // ----- writing into a buffer ------------------------------------------------------------------

  /** after is before with bytes written at offset: n bytes, nothing else touched. */
  ghost predicate Written(before: seq<byte>, after: seq<byte>, offset: nat, n: nat, bytes: seq<byte>) {
    && n == |bytes|
    && |after| == |before|
    && offset + n <= |before|
    && after[..offset + n] == before[..offset] + bytes
    && after[offset + n..] == before[offset + n..]
  }

  /** Two writes in a row are one write of both pieces. */
  lemma WrittenInRow(a: seq<byte>, b: seq<byte>, c: seq<byte>, offset: nat, n: nat, x: seq<byte>, m: nat, y: seq<byte>)
    requires Written(a, b, offset, n, x) && Written(b, c, offset + n, m, y)
    ensures Written(a, c, offset, n + m, x + y)
  {
    assert c[offset + n + m..] == b[offset + n..][m..] == a[offset + n..][m..] == a[offset + n + m..];
    assert a[..offset] + x + y == a[..offset] + (x + y);
  }

  /** memcpy */
  method Copy(buffer: array<byte>, offset: nat, bytes: seq<byte>)
    requires offset + |bytes| <= buffer.Length
    modifies buffer
    ensures Written(old(buffer[..]), buffer[..], offset, |bytes|, bytes)
  {
    for i := 0 to |bytes|
      invariant buffer[..offset] == old(buffer[..offset])
      invariant buffer[offset..offset + i] == bytes[..i]
      invariant buffer[offset + i..] == old(buffer[offset + i..])
    {
      buffer[offset + i] := bytes[i];
      assert buffer[offset..offset + i + 1] == buffer[offset..offset + i] + [bytes[i]];
      assert buffer[offset + i + 1..] == buffer[offset + i..][1..];
    }
    assert bytes[..|bytes|] == bytes;
    assert buffer[..][..offset + |bytes|] == buffer[..offset] + buffer[offset..offset + |bytes|];
  }

  /** setLltdHeaderEx: every header field but the reserved byte. */
  method SetLltdHeaderEx(buffer: array<byte>, ethSource: Mac, ethDest: Mac, realSource: Mac, realDest: Mac,
                         seqNumber: u16, opcode: byte, tos: byte)
      returns (n: nat)
    requires buffer.Length >= HEADER_LENGTH
    modifies buffer
    ensures Written(old(buffer[..]), buffer[..], 0, n,
                    EncodeHeader(Header(ethDest, ethSource, LLTD_ETHER_TYPE, 1, tos, old(buffer[16]), opcode,
                                        realDest, realSource, seqNumber)))
  {
    ghost var s0 := buffer[..];
    Copy(buffer, 0, ethDest);
    ghost var s1 := buffer[..];
    Copy(buffer, 6, ethSource);
    ghost var s2 := buffer[..];
    WrittenInRow(s0, s1, s2, 0, 6, ethDest, 6, ethSource);
    Copy(buffer, 12, Be16(LLTD_ETHER_TYPE) + [1, tos]);
    ghost var s3 := buffer[..];
    WrittenInRow(s0, s2, s3, 0, 12, ethDest + ethSource, 4, Be16(LLTD_ETHER_TYPE) + [1, tos]);
    ghost var front := ethDest + ethSource + (Be16(LLTD_ETHER_TYPE) + [1, tos]) + [s0[16]];
    assert s3[16..][0] == s0[16..][0];
    assert s3[..17] == s3[..16] + [s3[16]];
    assert s3[17..] == s3[16..][1..] == s0[16..][1..] == s0[17..];
    assert Written(s0, s3, 0, 17, front);
    Copy(buffer, 17, [opcode] + realDest + realSource + Be16(seqNumber));
    WrittenInRow(s0, s3, buffer[..], 0, 17, front, 15, [opcode] + realDest + realSource + Be16(seqNumber));
    assert front + ([opcode] + realDest + realSource + Be16(seqNumber))
        == EncodeHeader(Header(ethDest, ethSource, LLTD_ETHER_TYPE, 1, tos, s0[16], opcode, realDest, realSource, seqNumber));
    return HEADER_LENGTH;
  }

  /** setLltdHeader: the same address for the Ethernet and the real endpoints. */
  method SetLltdHeader(buffer: array<byte>, source: Mac, destination: Mac, seqNumber: u16, opcode: byte, tos: byte)
      returns (n: nat)
    requires buffer.Length >= HEADER_LENGTH
    modifies buffer
    ensures Written(old(buffer[..]), buffer[..], 0, n,
                    EncodeHeader(Header(destination, source, LLTD_ETHER_TYPE, 1, tos, old(buffer[16]), opcode,
                                        destination, source, seqNumber)))
  {
    n := SetLltdHeaderEx(buffer, source, destination, source, destination, seqNumber, opcode, tos);
  }

  /** setHelloHeader */
  method SetHelloHeader(buffer: array<byte>, offset: nat, apparentMapper: Mac, currentMapper: Mac, generation: u16)
      returns (n: nat)
    requires offset + HELLO_HEADER_LENGTH <= buffer.Length
    modifies buffer
    ensures Written(old(buffer[..]), buffer[..], offset, n, HelloHeader(generation, currentMapper, apparentMapper))
  {
    ghost var s0 := buffer[..];
    Copy(buffer, offset, Be16(generation));
    ghost var s1 := buffer[..];
    Copy(buffer, offset + 2, currentMapper);
    WrittenInRow(s0, s1, buffer[..], offset, 2, Be16(generation), 6, currentMapper);
    s1 := buffer[..];
    Copy(buffer, offset + 8, apparentMapper);
    WrittenInRow(s0, s1, buffer[..], offset, 8, Be16(generation) + currentMapper, 6, apparentMapper);
    return HELLO_HEADER_LENGTH;
  }

  /** A buffer from malloc and memset. */
  method Zeroed(size: nat) returns (buffer: array<byte>)
    ensures fresh(buffer) && buffer.Length == size
    ensures forall i | 0 <= i < size :: buffer[i] == 0
  {
    buffer := new byte[size](_ => 0);
  }
}
