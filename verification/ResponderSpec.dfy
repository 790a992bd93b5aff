/** Specification of the per-interface responder: what parseFrame does to an interface and what it sends. */
module ResponderSpec {
  import opened Protocol
  import opened Wire
  import opened Wrappers
  import opened TlvOps

  /** Answers of the port layer during one call of parseFrame. */
  datatype Env = Env(station: Station, mtu: Option<nat>, icon: Option<seq<byte>>, friendlyName: Option<seq<byte>>,
                     hwId: seq<byte>)

  const DEFAULT_MTU: nat := 1500

  function Mtu(env: Env): nat {
    if env.mtu == None || env.mtu == Some(0) then DEFAULT_MTU else env.mtu.value
  }

  datatype Mapper = Mapper(realAddress: Mac, apparentAddress: Mac)

  /** A seen probe; kind is 1 for Probe and 0 for Train. */
  datatype ProbeDesc = ProbeDesc(kind: u16, realSource: Mac, source: Mac, dest: Mac)

  /**
   * What an interface remembers.  The probe log is newest first.  An unknown mapper has no address:
   * the two that a Reset leaves behind in the code are not part of the state.
   */
  datatype Iface = Iface(log: seq<ProbeDesc>, mapper: Option<Mapper>, seqNo: u16, genTopology: u16, genQuick: u16,
                         icon: Option<seq<byte>>)

  const FRESH := Iface([], None, 0, 0, 0, None)

  // ----- pieces ---------------------------------------------------------------------------------

  predicate Accepts(st: Iface, f: Frame) {
    st.mapper.None? || st.mapper.value.realAddress == f.header.realSource
  }

  function Lock(m: Option<Mapper>, f: Frame): (r: Option<Mapper>)
    ensures r.Some?
  {
    if m.Some? then m else Some(Mapper(f.header.realSource, f.header.ethSource))
  }

  function Reply(env: Env, dest: Mac, seqNumber: u16, opcode: byte, tos: byte, body: seq<byte>): Frame {
    Frame(Header(dest, env.station.mac, LLTD_ETHER_TYPE, 1, tos, 0, opcode, dest, env.station.mac, seqNumber), body)
  }

  /** A mapper behind a bridge is answered by broadcast. */
  function ReplyTo(f: Frame): Mac {
    if f.header.realSource != f.header.ethSource then BROADCAST else f.header.realSource
  }

  // ----- Discover -------------------------------------------------------------------------------

  function WithGeneration(st: Iface, tos: byte, g: u16): Iface {
    if tos == TOS_QUICK_DISCOVERY then st.(genQuick := g) else st.(genTopology := g)
  }

  function HelloBody(f: Frame, env: Env): seq<byte> {
    HelloHeader(U16At(f.body, 0), f.header.realSource, f.header.ethSource)
    + EncodeTlvs(HelloTlvs(env.station)) + [END_OF_PROPERTIES]
  }

  function Hello(f: Frame, env: Env): Frame {
    Reply(env, BROADCAST, 0, OPCODE_HELLO, f.header.tos, HelloBody(f, env))
  }

  function OnDiscover(st: Iface, f: Frame, env: Env): (Iface, seq<Frame>) {
    if !Accepts(st, f) then (st, [])
    else
      var st1 := WithGeneration(st.(mapper := Lock(st.mapper, f)), f.header.tos, U16At(f.body, 0));
      if f.header.tos == TOS_DISCOVERY || f.header.tos == TOS_QUICK_DISCOVERY
      then (st1.(seqNo := f.header.seqNumber), [Hello(f, env)])
      else (st1, [])
  }

  // ----- Emit -----------------------------------------------------------------------------------

  const EMITEE_LENGTH: nat := 14

  datatype Emitee = Emitee(kind: byte, pause: byte, source: Mac, dest: Mac)

  /** Entry i as the code finds it, its 16-bit offset wrapping. */
  function EmiteeAt(body: seq<byte>, i: nat): Emitee {
    var o := 2 + (EMITEE_LENGTH * i) % 0x1_0000;
    Emitee(ByteAt(body, o), ByteAt(body, o + 1), MacAt(body, o + 2), MacAt(body, o + 8))
  }

  predicate KnownKind(e: Emitee) { e.kind == 0 || e.kind == 1 }

  /** The Probe or Train an entry asks for, spoofing the entry's source on the wire. */
  function ProbeFrame(e: Emitee, m: Mapper, env: Env): Frame {
    Frame(Header(e.dest, e.source, LLTD_ETHER_TYPE, 1, TOS_DISCOVERY, 0,
                 if e.kind == 1 then OPCODE_PROBE else OPCODE_TRAIN, m.realAddress, env.station.mac, 0), [])
  }

  function AckFrame(m: Mapper, seqNo: u16, env: Env): Frame {
    Frame(Header(m.apparentAddress, env.station.mac, LLTD_ETHER_TYPE, 1, TOS_DISCOVERY, 0, OPCODE_ACK, m.realAddress, env.station.mac,
                 seqNo), [])
  }

  function EmitOne(e: Emitee, ack: bool, m: Mapper, seqNo: u16, env: Env): seq<Frame> {
    if KnownKind(e) then [ProbeFrame(e, m, env)] + (if ack then [AckFrame(m, seqNo, env)] else []) else []
  }

  /** The frames the first i entries cause. */
  function EmitFirst(f: Frame, i: nat, m: Mapper, env: Env): seq<Frame> {
    if i == 0 then []
    else
      EmitFirst(f, i - 1, m, env)
      + EmitOne(EmiteeAt(f.body, i - 1), i == U16At(f.body, 0), m, f.header.seqNumber, env)
  }

  function OnEmit(st: Iface, f: Frame, env: Env): (Iface, seq<Frame>) {
    var m := Lock(st.mapper, f);
    (st.(seqNo := f.header.seqNumber, mapper := m), EmitFirst(f, U16At(f.body, 0), m.value, env))
  }

  // ----- Probe and Train ------------------------------------------------------------------------

  function DescOf(f: Frame): ProbeDesc {
    ProbeDesc(if f.header.opcode == OPCODE_PROBE then 1 else 0, f.header.realSource, f.header.ethSource, f.header.ethDest)
  }

  predicate SameOrigin(a: ProbeDesc, b: ProbeDesc) {
    a.source == b.source && a.realSource == b.realSource
  }

  predicate Seen(log: seq<ProbeDesc>, d: ProbeDesc) {
    exists i :: 0 <= i < |log| && SameOrigin(d, log[i])
  }

  function OnProbe(st: Iface, f: Frame, env: Env): (Iface, seq<Frame>) {
    if f.header.realDest != env.station.mac || Seen(st.log, DescOf(f)) then (st, [])
    else (st.(log := [DescOf(f)] + st.log), [])
  }

  // ----- Query ----------------------------------------------------------------------------------

  const DESC_LENGTH: nat := 20
  const QUERY_RESP_OVERHEAD: nat := 34

  function EncodeDesc(d: ProbeDesc): (s: seq<byte>)
    ensures |s| == DESC_LENGTH
  {
    Be16(d.kind) + d.realSource + d.source + d.dest
  }

  function EncodeDescs(ds: seq<ProbeDesc>): (s: seq<byte>)
    ensures |s| == DESC_LENGTH * |ds|
  {
    if ds == [] then [] else EncodeDescs(ds[..|ds| - 1]) + EncodeDesc(ds[|ds| - 1])
  }

  function MaxDescs(mtu: nat): nat {
    if mtu > QUERY_RESP_OVERHEAD then (mtu - QUERY_RESP_OVERHEAD) / DESC_LENGTH else 0
  }

  /** How many descriptors a response carries, in its 16-bit count. */
  function NumDescs(log: seq<ProbeDesc>, mtu: nat): (n: u16)
    ensures n <= |log| && n <= MaxDescs(mtu)
  {
    (if |log| > MaxDescs(mtu) then MaxDescs(mtu) else |log|) % 0x1_0000
  }

  function QueryResp(st: Iface, f: Frame, env: Env): Frame {
    var n := NumDescs(st.log, Mtu(env));
    Reply(env, ReplyTo(f), f.header.seqNumber, OPCODE_QUERY_RESP, TOS_DISCOVERY, Be16(n) + EncodeDescs(st.log[..n]))
  }

  function OnQuery(st: Iface, f: Frame, env: Env): (Iface, seq<Frame>) {
    (st.(seqNo := f.header.seqNumber, mapper := Some(Mapper(f.header.realSource, f.header.ethSource)), log := []),
     [QueryResp(st, f, env)])
  }

  // ----- QueryLargeTlv --------------------------------------------------------------------------

  const HW_ID_LENGTH: nat := 64

  /** The 64-byte buffer the hardware id is written into, zero where the port wrote nothing. */
  function HwIdBuffer(id: seq<byte>): (s: seq<byte>)
    ensures |s| == HW_ID_LENGTH
  {
    seq(HW_ID_LENGTH, i requires 0 <= i => ByteAt(id, i))
  }

  /** The first 16-bit zero of the buffer at or after i ends the id. */
  function HwIdEnd(s: seq<byte>, i: nat): (n: nat)
    requires |s| == HW_ID_LENGTH && i % 2 == 0 && i <= HW_ID_LENGTH
    ensures i <= n <= HW_ID_LENGTH
    decreases HW_ID_LENGTH - i
  {
    if i + 1 >= HW_ID_LENGTH then HW_ID_LENGTH
    else if s[i] == 0 && s[i + 1] == 0 then i
    else HwIdEnd(s, i + 2)
  }

  function HwIdData(env: Env): seq<byte> {
    var s := HwIdBuffer(env.hwId);
    s[..HwIdEnd(s, 0)]
  }

  function MaxPayload(mtu: nat): u16 {
    if mtu > QUERY_RESP_OVERHEAD then (mtu - QUERY_RESP_OVERHEAD) % 0x1_0000 else 0
  }

  /** x | 0x8000 */
  function WithMoreFlag(x: u16): u16 { if x >= 0x8000 then x else x + 0x8000 }

  /** The bytes of one response and its length field. */
  function Chunk(data: seq<byte>, offset: u16, payload: u16): (r: (seq<byte>, u16))
    ensures |r.0| <= payload
  {
    if |data| > offset + payload then (data[offset..offset + payload], WithMoreFlag(payload))
    else if |data| > offset then (data[offset..], |data| - offset)
    else ([], 0)
  }

  function LargeTlvFrame(bytes: seq<byte>, length: u16, f: Frame, env: Env): Frame {
    Reply(env, ReplyTo(f), f.header.seqNumber, OPCODE_QUERY_LARGE_TLV_RESP, TOS_DISCOVERY, Be16(length) + bytes)
  }

  function LargeTlvResp(data: seq<byte>, f: Frame, env: Env): Frame {
    var (bytes, length) := Chunk(data, U16At(f.body, 2), MaxPayload(Mtu(env)));
    LargeTlvFrame(bytes, length, f, env)
  }

  function OrElse<T>(a: Option<T>, b: Option<T>): Option<T> { if a.Some? then a else b }

  function BytesOf(o: Option<seq<byte>>): seq<byte> { if o.Some? then o.value else [] }

  /** The icon is asked of the port once and then kept. */
  function IconAfter(st: Iface, f: Frame, env: Env): Option<seq<byte>> {
    if ByteAt(f.body, 0) == TLV_ICON_IMAGE then OrElse(st.icon, env.icon) else st.icon
  }

  function LargeTlvData(st: Iface, f: Frame, env: Env): seq<byte> {
    var kind := ByteAt(f.body, 0);
    if kind == TLV_ICON_IMAGE then BytesOf(IconAfter(st, f, env))
    else if kind == TLV_FRIENDLY_NAME then BytesOf(env.friendlyName)
    else if kind == TLV_HW_ID then HwIdData(env)
    else []
  }

  /** A zero sequence number is ignored. */
  function OnQueryLargeTlv(st: Iface, f: Frame, env: Env): (Iface, seq<Frame>) {
    if f.header.seqNumber == 0 then (st, [])
    else
      (st.(seqNo := f.header.seqNumber, mapper := Lock(st.mapper, f), icon := IconAfter(st, f, env)),
       [LargeTlvResp(LargeTlvData(st, f, env), f, env)])
  }

  // ----- parseFrame -----------------------------------------------------------------------------

  /** Discover is examined under every type of service; the rest is dispatched on service, then opcode. */
  function Parse(st: Iface, f: Frame, env: Env): (Iface, seq<Frame>) {
    var op := f.header.opcode;
    if op == OPCODE_DISCOVER then OnDiscover(st, f, env)
    else if f.header.tos == TOS_DISCOVERY then
      if op == OPCODE_EMIT then OnEmit(st, f, env)
      else if op == OPCODE_TRAIN || op == OPCODE_PROBE then OnProbe(st, f, env)
      else if op == OPCODE_QUERY then OnQuery(st, f, env)
      else if op == OPCODE_QUERY_LARGE_TLV then OnQueryLargeTlv(st, f, env)
      else if op == OPCODE_RESET then (FRESH, [])
      else (st, [])
    else if f.header.tos == TOS_QUICK_DISCOVERY then
      if op == OPCODE_QUERY_LARGE_TLV then OnQueryLargeTlv(st, f, env)
      else if op == OPCODE_RESET then (st.(mapper := None, genQuick := 0), [])
      else (st, [])
    else (st, [])
  }

  // ----- buffers --------------------------------------------------------------------------------

  const HELLO_OVERHEAD: nat := 46

  predicate IsAnswered(f: Frame) {
    f.header.opcode == OPCODE_DISCOVER && (f.header.tos == TOS_DISCOVERY || f.header.tos == TOS_QUICK_DISCOVERY)
  }

  predicate IsQuery(f: Frame) { f.header.tos == TOS_DISCOVERY && f.header.opcode == OPCODE_QUERY }

  /**
   * Hello and QueryResp are written into a buffer of MTU bytes without a check of its size: the Hello must
   * fit it, and the fixed part of a QueryResp.  No other frame asks anything of the MTU.
   */
  predicate BufferHolds(f: Frame, env: Env) {
    && (IsAnswered(f) ==> HELLO_OVERHEAD + HelloSize(env.station) <= Mtu(env))
    && (IsQuery(f) ==> QUERY_RESP_OVERHEAD <= Mtu(env))
  }

  // ----- runs of one interface ------------------------------------------------------------------

  datatype Input = Input(frame: Frame, env: Env)

  function Respond(st: Iface, x: Input): (Iface, seq<Frame>) { Parse(st, x.frame, x.env) }
}
