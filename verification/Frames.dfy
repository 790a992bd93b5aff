/** What a received frame makes an interface send and remember, field by field and byte by byte. */
module Frames {
  import opened Protocol
  import opened Wire
  import opened Wrappers
  import opened TlvOps
  import opened ResponderSpec
  import opened ResponderProperties

  /** The fields every answer shares: sent by us, to one address, in version 1 without reserved bits. */
  predicate FromUs(h: Header, ours: Mac, dest: Mac, opcode: byte, tos: byte, seqNumber: u16) {
    && h.ethDest == dest && h.realDest == dest && h.ethSource == ours && h.realSource == ours
    && h.etherType == 0x88D9 && h.version == 1 && h.reserved == 0
    && h.opcode == opcode && h.tos == tos && h.seqNumber == seqNumber
  }

  /** A frame relayed by a bridge, its two sources differing, is answered to everyone. */
  function AnswerTo(h: Header): Mac {
    if h.ethSource == h.realSource then h.realSource else [0xFF, 0xFF, 0xFF, 0xFF, 0xFF, 0xFF]
  }

  // ----- Emit -----------------------------------------------------------------------------------

  /** The entries an Emit acts on: those of kind 0 and 1. */
  function Active(es: seq<Emitee>): seq<Emitee> {
    if es == [] then []
    else Active(es[..|es| - 1]) + (if es[|es| - 1].kind == 0 || es[|es| - 1].kind == 1 then [es[|es| - 1]] else [])
  }

  /** The frame of one entry: from the entry's source to its destination, a Probe for kind 1 and a Train for kind 0. */
  predicate SentFor(fr: Frame, e: Emitee, mapperReal: Mac, ours: Mac) {
    var h := fr.header;
    && h.ethDest == e.dest && h.ethSource == e.source
    && h.realDest == mapperReal && h.realSource == ours
    && h.etherType == 0x88D9 && h.version == 1 && h.tos == 0 && h.reserved == 0
    && h.opcode == (if e.kind == 1 then 0x04 else 0x03)
    && h.seqNumber == 0 && fr.body == []
  }

  /** The Ack: to the mapper's apparent address, for its real one, under the number of the Emit. */
  predicate AckTo(fr: Frame, mapperReal: Mac, mapperApparent: Mac, ours: Mac, seqNumber: u16) {
    var h := fr.header;
    && h.ethDest == mapperApparent && h.ethSource == ours
    && h.realDest == mapperReal && h.realSource == ours
    && h.etherType == 0x88D9 && h.version == 1 && h.tos == 0 && h.reserved == 0 && h.opcode == 0x05
    && h.seqNumber == seqNumber && fr.body == []
  }

  lemma {:induction false} ProbesFields(es: seq<Emitee>, m: Mapper, env: Env)
    ensures |ProbesOf(es, m, env)| == |Active(es)|
    ensures forall j | 0 <= j < |Active(es)| :: SentFor(ProbesOf(es, m, env)[j], Active(es)[j], m.realAddress, env.station.mac)
  {
    if es != [] { ProbesFields(es[..|es| - 1], m, env); }
  }

  /** An interface's mapper after a frame that locks an unknown one to its two sources. */
  function Locked(st: Iface, h: Header): Mapper {
    if st.mapper.Some? then st.mapper.value else Mapper(h.realSource, h.ethSource)
  }

  /**
   * An Emit sends, for its entries of kind 0 and 1 in order, the frames those describe, and after them one
   * Ack exactly if the last entry is of such a kind.  It locks an unknown mapper and keeps the rest.
   */
  lemma EmitFields(st: Iface, f: Frame, es: seq<Emitee>, env: Env)
    requires f.header.tos == 0 && f.header.opcode == 0x02 && |es| <= 4682 && f.body == EncodeEmit(es)
    ensures var out, m := Parse(st, f, env).1, Locked(st, f.header);
            var n, acked := |Active(es)|, es != [] && (es[|es| - 1].kind == 0 || es[|es| - 1].kind == 1);
            && |out| == n + (if acked then 1 else 0)
            && (forall j | 0 <= j < n :: SentFor(out[j], Active(es)[j], m.realAddress, env.station.mac))
            && (acked ==> AckTo(out[n], m.realAddress, m.apparentAddress, env.station.mac, f.header.seqNumber))
    ensures Parse(st, f, env).0 == st.(seqNo := f.header.seqNumber, mapper := Some(Locked(st, f.header)))
  {
    EmitRefines(st, f, es, env);
    ProbesFields(es, Locked(st, f.header), env);
  }

  /** Kind, source and destination as a receiver reads them off a Probe or Train. */
  function ReadBack(fr: Frame): (byte, Mac, Mac) {
    (if fr.header.opcode == 0x04 then 1 else 0, fr.header.ethSource, fr.header.ethDest)
  }

  /** The entries can be read back from the bytes sent. */
  lemma EmitReadsBack(st: Iface, f: Frame, es: seq<Emitee>, env: Env, j: nat)
    requires f.header.tos == 0 && f.header.opcode == 0x02 && |es| <= 4682 && f.body == EncodeEmit(es) && j < |Active(es)|
    ensures j < |Parse(st, f, env).1|
    ensures var s := Encode(Parse(st, f, env).1[j]);
            |s| == 32 && s[0..6] == Active(es)[j].dest && s[6..12] == Active(es)[j].source
    ensures ReadBack(Decode(Encode(Parse(st, f, env).1[j])))
         == (Active(es)[j].kind, Active(es)[j].source, Active(es)[j].dest)
  {
    EmitFields(st, f, es, env);
    var fr := Parse(st, f, env).1[j];
    assert SentFor(fr, Active(es)[j], Locked(st, f.header).realAddress, env.station.mac);
    HeaderLayout(fr);
    FrameRoundTrip(fr);
    ActiveKinds(es, j);
  }

  lemma {:induction false} ActiveKinds(es: seq<Emitee>, j: nat)
    requires j < |Active(es)|
    ensures Active(es)[j].kind == 0 || Active(es)[j].kind == 1
  {
    var c := Active(es[..|es| - 1]);
    if j < |c| { ActiveKinds(es[..|es| - 1], j); }
  }

  // ----- Hello ----------------------------------------------------------------------------------

  function Kinds(ts: seq<Tlv>): seq<byte> {
    seq(|ts|, i requires 0 <= i < |ts| => ts[i].kind)
  }

  /** The first 32 bytes, or all of a shorter name. */
  function Cut(s: seq<byte>): seq<byte> { s[..if |s| < 32 then |s| else 32] }

  predicate Holds32(v: seq<byte>, x: u32) { |v| == 4 && U32At(v, 0) == x }

  /** The properties of every station. */
  predicate AnnouncesStation(ts: seq<Tlv>, p: Station) {
    && |ts| >= 8
    && ts[0].value == p.mac
    && |ts[1].value| == 4 && U16At(ts[1].value, 0) == p.characteristics % 0x1_0000 && U16At(ts[1].value, 2) == 0
    && Holds32(ts[2].value, p.ifType)
    && Holds32(ts[3].value, p.ipv4)
    && ts[4].value == p.ipv6
    && ts[5].value == [0, 0, 0, 0, 0, 0x0F, 0x42, 0x40]
    && Holds32(ts[6].value, p.linkSpeed)
    && ts[7].value == Cut(p.hostname)
  }

  /** Those of a Wi-Fi station follow. */
  predicate AnnouncesWifi(ts: seq<Tlv>, p: Station)
    requires p.wifiMode.Some?
  {
    var k := if p.bssid.Some? then 10 else 9;
    && |ts| >= k + 3
    && ts[8].value == [p.wifiMode.value]
    && (p.bssid.Some? ==> ts[9].value == p.bssid.value)
    && ts[k].value == Cut(p.ssid)
    && |ts[k + 1].value| == 2 && U16At(ts[k + 1].value, 0) == p.wifiMaxRate
    && Holds32(ts[k + 2].value, if p.rssi < 0 then p.rssi + 0x1_0000_0000 else p.rssi)
  }

  /** And the closing ones of every station: the quality-of-service flags, and icon and name announced empty. */
  predicate AnnouncesRest(ts: seq<Tlv>) {
    var n := |ts|;
    n >= 3 && ts[n - 3].value == [0xE0, 0, 0, 0] && ts[n - 2].value == [] && ts[n - 1].value == []
  }

  function KindsOwed(p: Station): seq<byte> {
    [0x01, 0x02, 0x03, 0x07, 0x08, 0x0A, 0x0C, 0x0F]
    + (if p.wifiMode.None? then [] else [0x04] + (if p.bssid.Some? then [0x05] else []) + [0x06, 0x09, 0x0D])
    + [0x14, 0x0E, 0x11]
  }

  lemma BigEndian(x: u32)
    ensures Holds32(Be32(x), x)
    ensures U16At(Be32(x), 0) == x / 0x1_0000 && U16At(Be32(x), 2) == x % 0x1_0000
  {
    assert [] + Be32(x) + [] == Be32(x);
    U32RoundTrip([], x, []);
  }

  lemma StationTlvs(p: Station)
    ensures AnnouncesStation(IdentityTlvs(p) + AddressTlvs(p), p)
    ensures Kinds(IdentityTlvs(p) + AddressTlvs(p)) == [0x01, 0x02, 0x03, 0x07, 0x08, 0x0A, 0x0C, 0x0F]
  {
    BigEndian(Shifted16(p.characteristics));
    BigEndian(p.ifType);
    BigEndian(p.ipv4);
    BigEndian(p.linkSpeed);
    var ts := IdentityTlvs(p) + AddressTlvs(p);
    assert Kinds(ts) == [ts[0].kind, ts[1].kind, ts[2].kind, ts[3].kind, ts[4].kind, ts[5].kind, ts[6].kind, ts[7].kind];
    assert p.hostname[..|p.hostname|] == p.hostname;
  }

  lemma WifiParts(p: Station)
    requires p.wifiMode.Some?
    ensures var ts, k := WifiTlvs(p), if p.bssid.Some? then 2 else 1;
            && |ts| == k + 3
            && ts[0] == Tlv(0x04, [p.wifiMode.value])
            && (p.bssid.Some? ==> ts[1] == Tlv(0x05, p.bssid.value))
            && ts[k] == Tlv(0x06, Cut(p.ssid))
            && ts[k + 1].kind == 0x09 && |ts[k + 1].value| == 2 && U16At(ts[k + 1].value, 0) == p.wifiMaxRate
            && ts[k + 2].kind == 0x0D
            && Holds32(ts[k + 2].value, if p.rssi < 0 then p.rssi + 0x1_0000_0000 else p.rssi)
  {
    BigEndian(TwosComplement32(p.rssi));
    assert [] + Be16(p.wifiMaxRate) + [] == Be16(p.wifiMaxRate);
    U16RoundTrip([], p.wifiMaxRate, []);
    assert p.ssid[..|p.ssid|] == p.ssid;
  }

  lemma KindsAppend(a: seq<Tlv>, b: seq<Tlv>)
    ensures Kinds(a + b) == Kinds(a) + Kinds(b)
  {
  }

  lemma WifiKinds(p: Station)
    requires p.wifiMode.Some?
    ensures Kinds(WifiTlvs(p)) == [0x04] + (if p.bssid.Some? then [0x05] else []) + [0x06, 0x09, 0x0D]
  {
    WifiParts(p);
    var ts := WifiTlvs(p);
    if p.bssid.Some? {
      assert Kinds(ts) == [ts[0].kind, ts[1].kind, ts[2].kind, ts[3].kind, ts[4].kind];
    } else {
      assert Kinds(ts) == [ts[0].kind, ts[1].kind, ts[2].kind, ts[3].kind];
    }
  }

  lemma ClosingParts()
    ensures Kinds(ClosingTlvs()) == [0x14, 0x0E, 0x11] && AnnouncesRest(ClosingTlvs())
  {
    var ts := ClosingTlvs();
    assert Kinds(ts) == [ts[0].kind, ts[1].kind, ts[2].kind];
  }

  /** The list announces the station, type by type and value by value. */
  predicate Announces(ts: seq<Tlv>, p: Station) {
    && Kinds(ts) == KindsOwed(p)
    && AnnouncesStation(ts, p)
    && (p.wifiMode.Some? ==> AnnouncesWifi(ts, p))
    && AnnouncesRest(ts)
  }

  lemma StationFirst(a: seq<Tlv>, rest: seq<Tlv>, p: Station)
    requires AnnouncesStation(a, p)
    ensures AnnouncesStation(a + rest, p)
  {
  }

  lemma RestLast(first: seq<Tlv>, c: seq<Tlv>)
    requires AnnouncesRest(c)
    ensures AnnouncesRest(first + c)
  {
  }

  lemma WifiBetween(a: seq<Tlv>, c: seq<Tlv>, p: Station)
    requires |a| == 8 && p.wifiMode.Some?
    ensures AnnouncesWifi(a + WifiTlvs(p) + c, p)
  {
    var w := WifiTlvs(p);
    WifiParts(p);
    assert forall i | 0 <= i < |w| :: (a + w + c)[8 + i] == w[i];
  }

  lemma ListAnnounces(p: Station)
    ensures Announces(HelloTlvs(p), p)
  {
    var a, w, c := IdentityTlvs(p) + AddressTlvs(p), WifiTlvs(p), ClosingTlvs();
    StationTlvs(p);
    ClosingParts();
    KindsAppend(a + w, c);
    KindsAppend(a, w);
    StationFirst(a, w, p);
    StationFirst(a + w, c, p);
    RestLast(a + w, c);
    if p.wifiMode.Some? {
      WifiKinds(p);
      WifiBetween(a, c, p);
    } else {
      assert a + w == a;
    }
  }

  /**
   * A Discover of service 0 or 1 from the mapper, or from anyone while none is known, is answered by one Hello:
   * a broadcast under number 0 that decodes to the Discover's generation and sources and to the station's
   * properties.
   */
  lemma HelloFields(st: Iface, f: Frame, env: Env)
    requires f.header.opcode == 0x00 && (f.header.tos == 0 || f.header.tos == 1)
    requires st.mapper.None? || st.mapper.value.realAddress == f.header.realSource
    ensures var out := Parse(st, f, env).1;
            && |out| == 1
            && FromUs(out[0].header, env.station.mac, [0xFF, 0xFF, 0xFF, 0xFF, 0xFF, 0xFF], 0x01, f.header.tos, 0)
            && var d := DecodeHello(Encode(out[0]));
               && d.Some?
               && d.value.generation == U16At(f.body, 0)
               && d.value.currentMapper == f.header.realSource && d.value.apparentMapper == f.header.ethSource
               && Announces(d.value.tlvs, env.station)
  {
    HelloRoundTrip(f, env);
    ListAnnounces(env.station);
    assert Parse(st, f, env).1 == [Hello(f, env)];
  }

  /** What a Discover leaves behind: nothing from another mapper, else the lock and its service's generation. */
  lemma DiscoverEffects(st: Iface, f: Frame, env: Env)
    requires f.header.opcode == 0x00
    ensures var (st', out) := Parse(st, f, env);
            if st.mapper.Some? && st.mapper.value.realAddress != f.header.realSource then st' == st && out == []
            else
              && st'.mapper == Some(Locked(st, f.header))
              && st'.genQuick == (if f.header.tos == 1 then U16At(f.body, 0) else st.genQuick)
              && st'.genTopology == (if f.header.tos == 1 then st.genTopology else U16At(f.body, 0))
              && st'.log == st.log && st'.icon == st.icon
              && st'.seqNo == (if f.header.tos <= 1 then f.header.seqNumber else st.seqNo)
              && (f.header.tos > 1 ==> out == [])
  {
  }

  // ----- Query ----------------------------------------------------------------------------------

  lemma {:induction false} DecodedAt(s: seq<byte>, n: nat, k: nat)
    requires k < n
    ensures |DecodeDescs(s, n)| == n
    ensures DecodeDescs(s, n)[k] == DescAt(s, 20 * k)
  {
    if k < n - 1 {
      DecodedAt(s, n - 1, k);
    } else if n > 1 {
      DecodedAt(s, n - 1, 0);
    }
  }

  /** The k-th descriptor of a response body: kind, real source, source and destination. */
  predicate Lists(body: seq<byte>, k: nat, d: ProbeDesc) {
    var o := 2 + 20 * k;
    U16At(body, o) == d.kind && MacAt(body, o + 2) == d.realSource && MacAt(body, o + 8) == d.source && MacAt(body, o + 14) == d.dest
  }

  lemma ReadBehind(pre: seq<byte>, s: seq<byte>, i: nat)
    ensures U16At(pre + s, |pre| + i) == U16At(s, i) && MacAt(pre + s, |pre| + i) == MacAt(s, i)
  {
    assert forall k: nat :: ByteAt(pre + s, |pre| + k) == ByteAt(s, k);
  }

  lemma DecodedAll(s: seq<byte>, ds: seq<ProbeDesc>)
    requires s == EncodeDescs(ds)
    ensures DecodeDescs(s, |ds|) == ds
  {
    DescsRoundTrip(ds, []);
    assert s + [] == s;
  }

  lemma DescIn(s: seq<byte>, ds: seq<ProbeDesc>, k: nat)
    requires k < |ds| && DecodeDescs(s, |ds|) == ds
    ensures DescAt(s, 20 * k) == ds[k]
  {
    DecodedAt(s, |ds|, k);
  }

  lemma ListsBehind(pre: seq<byte>, s: seq<byte>, k: nat, d: ProbeDesc)
    requires |pre| == 2 && DescAt(s, 20 * k) == d
    ensures Lists(pre + s, k, d)
  {
    ReadBehind(pre, s, 20 * k);
    ReadBehind(pre, s, 20 * k + 2);
    ReadBehind(pre, s, 20 * k + 8);
    ReadBehind(pre, s, 20 * k + 14);
  }

  lemma RespLists(n: u16, ds: seq<ProbeDesc>)
    requires |ds| == n
    ensures var body := Be16(n) + EncodeDescs(ds); |body| == 2 + 20 * n && U16At(body, 0) == n
    ensures forall k | 0 <= k < n :: Lists(Be16(n) + EncodeDescs(ds), k, ds[k])
  {
    assert [] + Be16(n) + EncodeDescs(ds) == Be16(n) + EncodeDescs(ds);
    U16RoundTrip([], n, EncodeDescs(ds));
    DecodedAll(EncodeDescs(ds), ds);
    forall k | 0 <= k < n ensures Lists(Be16(n) + EncodeDescs(ds), k, ds[k]) {
      DescIn(EncodeDescs(ds), ds, k);
      ListsBehind(Be16(n), EncodeDescs(ds), k, ds[k]);
    }
  }

  /** How many descriptors fit the MTU's rest after 34 bytes, in the 16 bits of the count. */
  function Fitting(size: nat, env: Env): nat {
    var mtu := if env.mtu.None? || env.mtu.value == 0 then 1500 else env.mtu.value;
    var room := if mtu > 34 then (mtu - 34) / 20 else 0;
    (if size < room then size else room) % 0x1_0000
  }

  lemma NewestListed(body: seq<byte>, n: u16, log: seq<ProbeDesc>)
    requires n <= |log| && body == Be16(n) + EncodeDescs(log[..n])
    ensures |body| == 2 + 20 * n && U16At(body, 0) == n
    ensures forall k | 0 <= k < n :: Lists(body, k, log[k])
  {
    RespLists(n, log[..n]);
    assert forall k | 0 <= k < n :: log[..n][k] == log[k];
  }

  lemma FittingIs(log: seq<ProbeDesc>, env: Env)
    ensures NumDescs(log, Mtu(env)) == Fitting(|log|, env)
  {
  }

  lemma QueryRespLists(st: Iface, f: Frame, env: Env)
    ensures var body, n := QueryResp(st, f, env).body, Fitting(|st.log|, env);
            && n <= |st.log| && |body| == 2 + 20 * n && U16At(body, 0) == n
            && forall k | 0 <= k < n :: Lists(body, k, st.log[k])
  {
    FittingIs(st.log, env);
    NewestListed(QueryResp(st, f, env).body, NumDescs(st.log, Mtu(env)), st.log);
  }

  /** A Query is answered by one frame that lists the newest descriptors of the log; the mapper is replaced, the log emptied. */
  lemma QueryFields(st: Iface, f: Frame, env: Env)
    requires f.header.tos == 0 && f.header.opcode == 0x06
    ensures var out, n := Parse(st, f, env).1, Fitting(|st.log|, env);
            && |out| == 1 && n <= |st.log|
            && FromUs(out[0].header, env.station.mac, AnswerTo(f.header), 0x07, 0, f.header.seqNumber)
            && |out[0].body| == 2 + 20 * n && U16At(out[0].body, 0) == n
            && forall k | 0 <= k < n :: Lists(out[0].body, k, st.log[k])
    ensures Parse(st, f, env).0
         == st.(log := [], seqNo := f.header.seqNumber, mapper := Some(Mapper(f.header.realSource, f.header.ethSource)))
  {
    QueryRespLists(st, f, env);
    assert Parse(st, f, env) == OnQuery(st, f, env);
  }

  // ----- QueryLargeTlv --------------------------------------------------------------------------

  /** The hardware id as it is told: its bytes, padded with zeros to 64, up to the first aligned pair of zeros. */
  predicate IsHwId(d: seq<byte>, id: seq<byte>) {
    && |d| % 2 == 0 && |d| <= 64
    && (forall i | 0 <= i < |d| :: d[i] == ByteAt(id, i))
    && (forall i | 0 <= i < |d| && i % 2 == 0 :: ByteAt(id, i) != 0 || ByteAt(id, i + 1) != 0)
    && (|d| < 64 ==> ByteAt(id, |d|) == 0 && ByteAt(id, |d| + 1) == 0)
  }

  lemma {:induction false} HwIdEndIs(s: seq<byte>, i: nat)
    requires |s| == HW_ID_LENGTH && i % 2 == 0 && i <= HW_ID_LENGTH
    ensures var n := HwIdEnd(s, i);
            && n % 2 == 0
            && (forall k | i <= k < n && k % 2 == 0 && k + 1 < 64 :: s[k] != 0 || s[k + 1] != 0)
            && (n < 64 ==> n + 1 < 64 && s[n] == 0 && s[n + 1] == 0)
    decreases HW_ID_LENGTH - i
  {
    if i + 1 < HW_ID_LENGTH && !(s[i] == 0 && s[i + 1] == 0) {
      HwIdEndIs(s, i + 2);
    }
  }

  lemma HwIdIs(env: Env)
    ensures IsHwId(HwIdData(env), env.hwId)
  {
    var s := HwIdBuffer(env.hwId);
    HwIdEndIs(s, 0);
  }

  /** The data a request of some kind is answered from. */
  predicate IsData(data: seq<byte>, kind: byte, st: Iface, env: Env) {
    if kind == 0x0E then data == (if st.icon.Some? then st.icon.value else if env.icon.Some? then env.icon.value else [])
    else if kind == 0x11 then data == (if env.friendlyName.Some? then env.friendlyName.value else [])
    else if kind == 0x13 then IsHwId(data, env.hwId)
    else data == []
  }

  /** A response body: the part at the offset that fits the payload, its length, and the top bit if there is more. */
  predicate Conveys(body: seq<byte>, data: seq<byte>, offset: nat, payload: nat) {
    && |body| >= 2
    && (if |data| > offset + payload then
          && body[2..] == data[offset..offset + payload]
          && U16At(body, 0) == (if payload >= 0x8000 then payload else payload + 0x8000) % 0x1_0000
        else if |data| > offset then body[2..] == data[offset..] && U16At(body, 0) == |data| - offset
        else body == [0, 0])
  }

  function PayloadOf(env: Env): nat {
    var mtu := if env.mtu.None? || env.mtu.value == 0 then 1500 else env.mtu.value;
    if mtu > 34 then (mtu - 34) % 0x1_0000 else 0
  }

  lemma ChunkConveys(data: seq<byte>, offset: u16, env: Env)
    ensures var (bytes, length) := Chunk(data, offset, MaxPayload(Mtu(env)));
            Conveys(Be16(length) + bytes, data, offset, PayloadOf(env))
  {
    var (bytes, length) := Chunk(data, offset, MaxPayload(Mtu(env)));
    assert [] + Be16(length) + bytes == Be16(length) + bytes;
    U16RoundTrip([], length, bytes);
    assert (Be16(length) + bytes)[2..] == bytes;
  }

  /**
   * A QueryLargeTlv under number 0 is ignored.  Any other is answered by one frame that conveys the part
   * asked for of the data of its kind; it locks an unknown mapper, and an icon asked for is kept.
   */
  lemma LargeTlvFields(st: Iface, f: Frame, env: Env) returns (data: seq<byte>)
    requires f.header.opcode == 0x0B && (f.header.tos == 0 || f.header.tos == 1)
    ensures f.header.seqNumber == 0 ==> Parse(st, f, env) == (st, [])
    ensures f.header.seqNumber != 0 ==>
              var (st', out) := Parse(st, f, env);
              && |out| == 1
              && FromUs(out[0].header, env.station.mac, AnswerTo(f.header), 0x0C, 0, f.header.seqNumber)
              && IsData(data, ByteAt(f.body, 0), st, env)
              && Conveys(out[0].body, data, U16At(f.body, 2), PayloadOf(env))
              && st' == st.(seqNo := f.header.seqNumber, mapper := Some(Locked(st, f.header)),
                            icon := if ByteAt(f.body, 0) == 0x0E && st.icon.None? then env.icon else st.icon)
  {
    data := LargeTlvData(st, f, env);
    HwIdIs(env);
    ChunkConveys(data, U16At(f.body, 2), env);
  }

  // ----- Reset and the rest ---------------------------------------------------------------------

  /** A topology Reset forgets everything, a quick one the mapper and its own generation; neither is answered. */
  lemma ResetEffects(st: Iface, f: Frame, env: Env)
    requires f.header.opcode == 0x08 && (f.header.tos == 0 || f.header.tos == 1)
    ensures Parse(st, f, env)
         == (if f.header.tos == 0 then Iface([], None, 0, 0, 0, None) else st.(mapper := None, genQuick := 0), [])
  {
  }

  /** No other frame is answered or changes anything, a Probe or Train to us aside. */
  lemma OthersIgnored(st: Iface, f: Frame, env: Env)
    requires f.header.opcode != 0x00
    requires f.header.tos > 1 || f.header.opcode !in {0x02, 0x03, 0x04, 0x06, 0x08, 0x0B}
             || (f.header.tos == 1 && f.header.opcode !in {0x08, 0x0B})
             || (f.header.opcode in {0x03, 0x04} && f.header.realDest != env.station.mac)
    ensures Parse(st, f, env) == (st, [])
  {
  }

  /** A Probe or Train to us is logged unless its two sources are, and never answered. */
  lemma ProbeEffects(st: Iface, f: Frame, env: Env)
    requires f.header.tos == 0 && (f.header.opcode == 0x03 || f.header.opcode == 0x04) && f.header.realDest == env.station.mac
    ensures var h := f.header;
            Parse(st, f, env)
            == (if exists i :: 0 <= i < |st.log| && st.log[i].source == h.ethSource && st.log[i].realSource == h.realSource
                then st
                else st.(log := [ProbeDesc(if h.opcode == 0x04 then 1 else 0, h.realSource, h.ethSource, h.ethDest)] + st.log),
                [])
  {
  }
}
