/** Byte-level vocabulary and the constants of lltdProtocol.h. */
module Protocol {

  type byte = x: int | 0 <= x < 0x100
  type u16 = x: int | 0 <= x < 0x1_0000
  type u32 = x: int | 0 <= x < 0x1_0000_0000

  /** An ethernet_address_t. */
  type Mac = s: seq<byte> | |s| == 6 witness [0, 0, 0, 0, 0, 0]

  const BROADCAST: Mac := [0xFF, 0xFF, 0xFF, 0xFF, 0xFF, 0xFF]
  const ZERO_MAC: Mac := [0, 0, 0, 0, 0, 0]

  const LLTD_ETHER_TYPE: u16 := 0x88D9

  const TOS_DISCOVERY: byte := 0
  const TOS_QUICK_DISCOVERY: byte := 1

  const OPCODE_DISCOVER: byte := 0x00
  const OPCODE_HELLO: byte := 0x01
  const OPCODE_EMIT: byte := 0x02
  const OPCODE_TRAIN: byte := 0x03
  const OPCODE_PROBE: byte := 0x04
  const OPCODE_ACK: byte := 0x05
  const OPCODE_QUERY: byte := 0x06
  const OPCODE_QUERY_RESP: byte := 0x07
  const OPCODE_RESET: byte := 0x08
  const OPCODE_CHARGE: byte := 0x09
  const OPCODE_QUERY_LARGE_TLV: byte := 0x0B
  const OPCODE_QUERY_LARGE_TLV_RESP: byte := 0x0C

  /** The six-byte comparison decides equality of addresses. */
  predicate SameAddress(a: Mac, b: Mac)
    ensures SameAddress(a, b) <==> a == b
  {
    a[0] == b[0] && a[1] == b[1] && a[2] == b[2] && a[3] == b[3] && a[4] == b[4] && a[5] == b[5]
  }

  // ----- network byte order ---------------------------------------------------------------------

  function Be16(x: u16): (s: seq<byte>)
    ensures |s| == 2
  {
    [x / 0x100, x % 0x100]
  }

  function Be32(x: u32): (s: seq<byte>)
    ensures |s| == 4
  {
    Be16(x / 0x1_0000) + Be16(x % 0x1_0000)
  }

  /** Byte i of a receive buffer; a buffer is read as zero past its end. */
  function ByteAt(s: seq<byte>, i: nat): byte {
    if i < |s| then s[i] else 0
  }

  function U16At(s: seq<byte>, i: nat): u16 {
    ByteAt(s, i) * 0x100 + ByteAt(s, i + 1)
  }

  function U32At(s: seq<byte>, i: nat): u32 {
    U16At(s, i) * 0x1_0000 + U16At(s, i + 2)
  }

  function MacAt(s: seq<byte>, i: nat): Mac {
    [ByteAt(s, i), ByteAt(s, i + 1), ByteAt(s, i + 2), ByteAt(s, i + 3), ByteAt(s, i + 4), ByteAt(s, i + 5)]
  }

  lemma U16RoundTrip(pre: seq<byte>, x: u16, post: seq<byte>)
    ensures U16At(pre + Be16(x) + post, |pre|) == x
  {
    var s := pre + Be16(x) + post;
    assert s[|pre|] == x / 0x100 && s[|pre| + 1] == x % 0x100;
  }

  lemma U32RoundTrip(pre: seq<byte>, x: u32, post: seq<byte>)
    ensures U32At(pre + Be32(x) + post, |pre|) == x
  {
    var hi, lo := Be16(x / 0x1_0000), Be16(x % 0x1_0000);
    var s := pre + Be32(x) + post;
    assert s == pre + hi + (lo + post) == (pre + hi) + lo + post;
    U16RoundTrip(pre, x / 0x1_0000, lo + post);
    U16RoundTrip(pre + hi, x % 0x1_0000, post);
  }
}
