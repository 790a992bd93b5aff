/** The property list of a Hello: lltdTlvOps.c's writers over a shared buffer, and the list they spell. */
module TlvOps {
  import opened Protocol
  import opened Wire
  import opened Wrappers

  const TLV_HOST_ID: byte := 0x01
  const TLV_CHARACTERISTICS: byte := 0x02
  const TLV_IF_TYPE: byte := 0x03
  const TLV_WIFI_MODE: byte := 0x04
  const TLV_BSSID: byte := 0x05
  const TLV_SSID: byte := 0x06
  const TLV_IPV4: byte := 0x07
  const TLV_IPV6: byte := 0x08
  const TLV_WIFI_MAX_RATE: byte := 0x09
  const TLV_PERF_COUNTER: byte := 0x0A
  const TLV_LINK_SPEED: byte := 0x0C
  const TLV_WIFI_RSSI: byte := 0x0D
  const TLV_ICON_IMAGE: byte := 0x0E
  const TLV_HOSTNAME: byte := 0x0F
  const TLV_FRIENDLY_NAME: byte := 0x11
  const TLV_HW_ID: byte := 0x13
  const TLV_QOS: byte := 0x14
  const END_OF_PROPERTIES: byte := 0x00

  const PERF_COUNTER_HZ: u32 := 1000000
  const QOS_FLAGS: u16 := 0xE000

  /** A type and a value; no property uses the end marker as its type. */
  datatype RawTlv = Tlv(kind: byte, value: seq<byte>)
  type Tlv = t: RawTlv | t.kind != END_OF_PROPERTIES && |t.value| < 0x100 witness Tlv(1, [])

  function EncodeTlv(t: Tlv): seq<byte> { [t.kind, |t.value|] + t.value }

  function EncodeTlvs(ts: seq<Tlv>): seq<byte> {
    if ts == [] then [] else EncodeTlv(ts[0]) + EncodeTlvs(ts[1..])
  }

  /** Reads properties up to the end marker; None for a list cut short. */
  function ParseTlvs(s: seq<byte>): Option<seq<Tlv>>
    decreases |s|
  {
    if s == [] then None
    else if s[0] == END_OF_PROPERTIES then Some([])
    else if |s| < 2 || |s| - 2 < s[1] then None
    else
      match ParseTlvs(s[2..][s[1]..])
      case None => None
      case Some(ts) => Some([Tlv(s[0], s[2..][..s[1]])] + ts)
  }

  /** A property list is recovered exactly, zero-length values included, whatever follows its end marker. */
  lemma {:induction false} TlvsRoundTrip(ts: seq<Tlv>, rest: seq<byte>)
    ensures ParseTlvs(EncodeTlvs(ts) + [END_OF_PROPERTIES] + rest) == Some(ts)
  {
    var s := EncodeTlvs(ts) + [END_OF_PROPERTIES] + rest;
    if ts != [] {
      var t := ts[0];
      var tail := EncodeTlvs(ts[1..]) + [END_OF_PROPERTIES] + rest;
      assert s == [t.kind, |t.value|] + t.value + tail;
      assert s[2..][s[1]..] == tail && s[2..][..s[1]] == t.value;
      TlvsRoundTrip(ts[1..], rest);
      assert [t] + ts[1..] == ts;
    }
  }

  lemma {:induction false} EncodeTlvsAppend(a: seq<Tlv>, b: seq<Tlv>)
    ensures EncodeTlvs(a + b) == EncodeTlvs(a) + EncodeTlvs(b)
  {
    if a == [] {
      assert a + b == b;
    } else {
      assert (a + b)[1..] == a[1..] + b;
      EncodeTlvsAppend(a[1..], b);
    }
  }

  lemma EncodeOne(t: Tlv)
    ensures EncodeTlvs([t]) == EncodeTlv(t)
  {
    assert EncodeTlvs([t][1..]) == [];
    assert EncodeTlv(t) + [] == EncodeTlv(t);
  }

  // ----- what the port layer reports about the station ------------------------------------------

  type Ipv6 = s: seq<byte> | |s| == 16 witness [0, 0, 0, 0, 0, 0, 0, 0, 0, 0, 0, 0, 0, 0, 0, 0]
  type int8 = x: int | -0x80 <= x < 0x80

  /** Answers of the port layer; a call that fails leaves the zero its caller initialised. */
  datatype Station = Station(
    mac: Mac, characteristics: u32, ifType: u32, ipv4: u32, ipv6: Ipv6, linkSpeed: u32, hostname: seq<byte>,
    wifiMode: Option<byte>, bssid: Option<Mac>, ssid: seq<byte>, wifiMaxRate: u16, rssi: int8)

  function AtMost(s: seq<byte>, n: nat): seq<byte> { if |s| <= n then s else s[..n] }

  /** (uint32_t)(int32_t)x */
  function TwosComplement32(x: int8): u32
  {
    if x < 0 then x + 0x1_0000_0000 else x
  }

  function Shifted16(flags: u32): u32 { (flags * 0x1_0000) % 0x1_0000_0000 }

  /** The first properties every station announces, in order. */
  function IdentityTlvs(p: Station): seq<Tlv> {
    [Tlv(TLV_HOST_ID, p.mac), Tlv(TLV_CHARACTERISTICS, Be32(Shifted16(p.characteristics))), Tlv(TLV_IF_TYPE, Be32(p.ifType)),
     Tlv(TLV_IPV4, Be32(p.ipv4))]
  }

  function AddressTlvs(p: Station): seq<Tlv> {
    [Tlv(TLV_IPV6, p.ipv6), Tlv(TLV_PERF_COUNTER, Be32(0) + Be32(PERF_COUNTER_HZ)), Tlv(TLV_LINK_SPEED, Be32(p.linkSpeed)),
     Tlv(TLV_HOSTNAME, AtMost(p.hostname, 32))]
  }

  /** The BSSID is omitted when there is none. */
  function BssidTlvs(p: Station): seq<Tlv> {
    match p.bssid case None => [] case Some(b) => [Tlv(TLV_BSSID, b)]
  }

  function RadioTlvs(p: Station): seq<Tlv> {
    [Tlv(TLV_WIFI_MAX_RATE, Be16(p.wifiMaxRate)), Tlv(TLV_WIFI_RSSI, Be32(TwosComplement32(p.rssi)))]
  }

  function ModeAndBssid(p: Station): seq<Tlv>
    requires p.wifiMode.Some?
  {
    [Tlv(TLV_WIFI_MODE, [p.wifiMode.value])] + BssidTlvs(p)
  }

  function NetworkTlvs(p: Station): seq<Tlv>
    requires p.wifiMode.Some?
  {
    ModeAndBssid(p) + [Tlv(TLV_SSID, AtMost(p.ssid, 32))]
  }

  /** The properties of a Wi-Fi interface. */
  function WifiTlvs(p: Station): seq<Tlv> {
    if p.wifiMode.None? then [] else NetworkTlvs(p) + RadioTlvs(p)
  }

  /** The closing properties; icon and name are announced empty and fetched with QueryLargeTlv. */
  function ClosingTlvs(): seq<Tlv> {
    [Tlv(TLV_QOS, Be32(Shifted16(QOS_FLAGS))), Tlv(TLV_ICON_IMAGE, []), Tlv(TLV_FRIENDLY_NAME, [])]
  }

  function HelloTlvs(p: Station): seq<Tlv> {
    IdentityTlvs(p) + AddressTlvs(p) + WifiTlvs(p) + ClosingTlvs()
  }

  /** The bytes each part of the list takes. */
  const IDENTITY_SIZE: nat := 26
  const CLOSING_SIZE: nat := 10

  function AddressSize(p: Station): nat { 36 + |AtMost(p.hostname, 32)| }

  function BssidSize(p: Station): nat { if p.bssid.Some? then 8 else 0 }

  function NetworkSize(p: Station): nat { 3 + BssidSize(p) + 2 + |AtMost(p.ssid, 32)| }

  function WifiSize(p: Station): nat { if p.wifiMode.None? then 0 else NetworkSize(p) + 10 }

  /** All of them, with the end marker. */
  function HelloSize(p: Station): nat { IDENTITY_SIZE + AddressSize(p) + WifiSize(p) + CLOSING_SIZE + 1 }

  // ----- writers --------------------------------------------------------------------------------

  /** Written, for the encoding of one property. */
  ghost predicate WrittenTlv(before: seq<byte>, after: seq<byte>, offset: nat, n: nat, t: Tlv) {
    Written(before, after, offset, n, EncodeTlv(t))
  }

  /** The shape every writer shares: type and length, then the value by memcpy. */
  method SetTlv(buffer: array<byte>, offset: nat, kind: byte, value: seq<byte>) returns (n: nat)
    requires kind != END_OF_PROPERTIES && |value| < 0x100
    requires offset + 2 + |value| <= buffer.Length
    modifies buffer
    ensures WrittenTlv(old(buffer[..]), buffer[..], offset, n, Tlv(kind, value))
  {
    ghost var s0 := buffer[..];
    buffer[offset] := kind;
    buffer[offset + 1] := |value|;
    ghost var s1 := buffer[..];
    assert s1[..offset + 2] == s0[..offset] + [kind, |value|];
    assert Written(s0, s1, offset, 2, [kind, |value|]);
    Copy(buffer, offset + 2, value);
    WrittenInRow(s0, s1, buffer[..], offset, 2, [kind, |value|], |value|, value);
    return 2 + |value|;
  }

  method SetHostIdTlv(buffer: array<byte>, offset: nat, p: Station) returns (n: nat)
    requires offset + 8 <= buffer.Length
    modifies buffer
    ensures WrittenTlv(old(buffer[..]), buffer[..], offset, n, Tlv(TLV_HOST_ID, p.mac))
  {
    n := SetTlv(buffer, offset, TLV_HOST_ID, p.mac);
  }

  method SetCharacteristicsTlv(buffer: array<byte>, offset: nat, p: Station) returns (n: nat)
    requires offset + 6 <= buffer.Length
    modifies buffer
    ensures WrittenTlv(old(buffer[..]), buffer[..], offset, n, Tlv(TLV_CHARACTERISTICS, Be32(Shifted16(p.characteristics))))
  {
    n := SetTlv(buffer, offset, TLV_CHARACTERISTICS, Be32((p.characteristics * 0x1_0000) % 0x1_0000_0000));
  }

  method SetPhysicalMediumTlv(buffer: array<byte>, offset: nat, p: Station) returns (n: nat)
    requires offset + 6 <= buffer.Length
    modifies buffer
    ensures WrittenTlv(old(buffer[..]), buffer[..], offset, n, Tlv(TLV_IF_TYPE, Be32(p.ifType)))
  {
    n := SetTlv(buffer, offset, TLV_IF_TYPE, Be32(p.ifType));
  }

  method SetIPv4Tlv(buffer: array<byte>, offset: nat, p: Station) returns (n: nat)
    requires offset + 6 <= buffer.Length
    modifies buffer
    ensures WrittenTlv(old(buffer[..]), buffer[..], offset, n, Tlv(TLV_IPV4, Be32(p.ipv4)))
  {
    n := SetTlv(buffer, offset, TLV_IPV4, Be32(p.ipv4));
  }

  method SetIPv6Tlv(buffer: array<byte>, offset: nat, p: Station) returns (n: nat)
    requires offset + 18 <= buffer.Length
    modifies buffer
    ensures WrittenTlv(old(buffer[..]), buffer[..], offset, n, Tlv(TLV_IPV6, p.ipv6))
  {
    n := SetTlv(buffer, offset, TLV_IPV6, p.ipv6);
  }

  method SetPerfCounterTlv(buffer: array<byte>, offset: nat) returns (n: nat)
    requires offset + 10 <= buffer.Length
    modifies buffer
    ensures WrittenTlv(old(buffer[..]), buffer[..], offset, n, Tlv(TLV_PERF_COUNTER, Be32(0) + Be32(PERF_COUNTER_HZ)))
  {
    n := SetTlv(buffer, offset, TLV_PERF_COUNTER, [0, 0, 0, 0, 0x00, 0x0F, 0x42, 0x40]);
  }

  method SetLinkSpeedTlv(buffer: array<byte>, offset: nat, p: Station) returns (n: nat)
    requires offset + 6 <= buffer.Length
    modifies buffer
    ensures WrittenTlv(old(buffer[..]), buffer[..], offset, n, Tlv(TLV_LINK_SPEED, Be32(p.linkSpeed)))
  {
    n := SetTlv(buffer, offset, TLV_LINK_SPEED, Be32(p.linkSpeed));
  }

  method SetHostnameTlv(buffer: array<byte>, offset: nat, p: Station) returns (n: nat)
    requires offset + 2 + |AtMost(p.hostname, 32)| <= buffer.Length
    modifies buffer
    ensures WrittenTlv(old(buffer[..]), buffer[..], offset, n, Tlv(TLV_HOSTNAME, AtMost(p.hostname, 32)))
  {
    n := SetTlv(buffer, offset, TLV_HOSTNAME, if |p.hostname| > 32 then p.hostname[..32] else p.hostname);
  }

  method SetWirelessTlv(buffer: array<byte>, offset: nat, mode: byte) returns (n: nat)
    requires offset + 3 <= buffer.Length
    modifies buffer
    ensures WrittenTlv(old(buffer[..]), buffer[..], offset, n, Tlv(TLV_WIFI_MODE, [mode]))
  {
    n := SetTlv(buffer, offset, TLV_WIFI_MODE, [mode]);
  }

  /** Nothing is written when the port layer has no BSSID. */
  method SetBssidTlv(buffer: array<byte>, offset: nat, p: Station) returns (n: nat)
    requires offset + BssidSize(p) <= buffer.Length
    modifies buffer
    ensures Written(old(buffer[..]), buffer[..], offset, n, EncodeTlvs(BssidTlvs(p))) && n == BssidSize(p)
  {
    match p.bssid {
      case None =>
        n := 0;
      case Some(b) =>
        n := SetTlv(buffer, offset, TLV_BSSID, b);
        EncodeOne(Tlv(TLV_BSSID, b));
    }
  }

  method SetSsidTlv(buffer: array<byte>, offset: nat, p: Station) returns (n: nat)
    requires offset + 2 + |AtMost(p.ssid, 32)| <= buffer.Length
    modifies buffer
    ensures WrittenTlv(old(buffer[..]), buffer[..], offset, n, Tlv(TLV_SSID, AtMost(p.ssid, 32)))
  {
    n := SetTlv(buffer, offset, TLV_SSID, if |p.ssid| > 32 then p.ssid[..32] else p.ssid);
  }

  method SetWifiMaxRateTlv(buffer: array<byte>, offset: nat, p: Station) returns (n: nat)
    requires offset + 4 <= buffer.Length
    modifies buffer
    ensures WrittenTlv(old(buffer[..]), buffer[..], offset, n, Tlv(TLV_WIFI_MAX_RATE, Be16(p.wifiMaxRate)))
  {
    n := SetTlv(buffer, offset, TLV_WIFI_MAX_RATE, Be16(p.wifiMaxRate));
  }

  method SetWifiRssiTlv(buffer: array<byte>, offset: nat, p: Station) returns (n: nat)
    requires offset + 6 <= buffer.Length
    modifies buffer
    ensures WrittenTlv(old(buffer[..]), buffer[..], offset, n, Tlv(TLV_WIFI_RSSI, Be32(TwosComplement32(p.rssi))))
  {
    n := SetTlv(buffer, offset, TLV_WIFI_RSSI, Be32(if p.rssi < 0 then p.rssi + 0x1_0000_0000 else p.rssi));
  }

  method SetQosCharacteristicsTlv(buffer: array<byte>, offset: nat) returns (n: nat)
    requires offset + 6 <= buffer.Length
    modifies buffer
    ensures WrittenTlv(old(buffer[..]), buffer[..], offset, n, Tlv(TLV_QOS, Be32(Shifted16(QOS_FLAGS))))
  {
    n := SetTlv(buffer, offset, TLV_QOS, Be32(0xE000_0000));
  }

  method SetIconImageTlv(buffer: array<byte>, offset: nat) returns (n: nat)
    requires offset + 2 <= buffer.Length
    modifies buffer
    ensures WrittenTlv(old(buffer[..]), buffer[..], offset, n, Tlv(TLV_ICON_IMAGE, []))
  {
    n := SetTlv(buffer, offset, TLV_ICON_IMAGE, []);
  }

  method SetFriendlyNameTlv(buffer: array<byte>, offset: nat) returns (n: nat)
    requires offset + 2 <= buffer.Length
    modifies buffer
    ensures WrittenTlv(old(buffer[..]), buffer[..], offset, n, Tlv(TLV_FRIENDLY_NAME, []))
  {
    n := SetTlv(buffer, offset, TLV_FRIENDLY_NAME, []);
  }

  method SetEndOfPropertyTlv(buffer: array<byte>, offset: nat) returns (n: nat)
    requires offset + 1 <= buffer.Length
    modifies buffer
    ensures Written(old(buffer[..]), buffer[..], offset, n, [END_OF_PROPERTIES])
  {
    ghost var s0 := buffer[..];
    buffer[offset] := END_OF_PROPERTIES;
    assert buffer[..offset + 1] == s0[..offset] + [END_OF_PROPERTIES];
    return 1;
  }

  // ----- the chain answerHello writes -----------------------------------------------------------

  /** From offset start up to offset, b differs from a by exactly the properties ts. */
  ghost predicate Listed(a: seq<byte>, b: seq<byte>, start: nat, offset: nat, ts: seq<Tlv>) {
    start <= offset && Written(a, b, start, offset - start, EncodeTlvs(ts))
  }

  lemma ListMore(a: seq<byte>, b: seq<byte>, c: seq<byte>, start: nat, offset: nat, ts: seq<Tlv>, n: nat, t: Tlv)
    requires Listed(a, b, start, offset, ts) && WrittenTlv(b, c, offset, n, t)
    ensures Listed(a, c, start, offset + n, ts + [t])
  {
    EncodeOne(t);
    ListJoin(a, b, c, start, offset, ts, n, [t]);
  }

  lemma ListJoin(a: seq<byte>, b: seq<byte>, c: seq<byte>, start: nat, offset: nat, ts: seq<Tlv>, n: nat, us: seq<Tlv>)
    requires Listed(a, b, start, offset, ts) && Written(b, c, offset, n, EncodeTlvs(us))
    ensures Listed(a, c, start, offset + n, ts + us)
  {
    WrittenInRow(a, b, c, start, offset - start, EncodeTlvs(ts), n, EncodeTlvs(us));
    EncodeTlvsAppend(ts, us);
  }

  /** answerHello's chain: who the station is. */
  method SetIdentityTlvs(buffer: array<byte>, start: nat, p: Station) returns (n: nat)
    requires start + IDENTITY_SIZE <= buffer.Length
    modifies buffer
    ensures Written(old(buffer[..]), buffer[..], start, n, EncodeTlvs(IdentityTlvs(p))) && n == IDENTITY_SIZE
  {
    ghost var s0, b, ts := buffer[..], buffer[..], [];
    var offset, k := start, 0;
    k := SetHostIdTlv(buffer, offset, p);
    ListMore(s0, b, buffer[..], start, offset, ts, k, Tlv(TLV_HOST_ID, p.mac));
    offset, b, ts := offset + k, buffer[..], ts + [Tlv(TLV_HOST_ID, p.mac)];
    k := SetCharacteristicsTlv(buffer, offset, p);
    ListMore(s0, b, buffer[..], start, offset, ts, k, Tlv(TLV_CHARACTERISTICS, Be32(Shifted16(p.characteristics))));
    offset, b, ts := offset + k, buffer[..], ts + [Tlv(TLV_CHARACTERISTICS, Be32(Shifted16(p.characteristics)))];
    k := SetPhysicalMediumTlv(buffer, offset, p);
    ListMore(s0, b, buffer[..], start, offset, ts, k, Tlv(TLV_IF_TYPE, Be32(p.ifType)));
    offset, b, ts := offset + k, buffer[..], ts + [Tlv(TLV_IF_TYPE, Be32(p.ifType))];
    k := SetIPv4Tlv(buffer, offset, p);
    ListMore(s0, b, buffer[..], start, offset, ts, k, Tlv(TLV_IPV4, Be32(p.ipv4)));
    offset, b, ts := offset + k, buffer[..], ts + [Tlv(TLV_IPV4, Be32(p.ipv4))];
    assert ts == IdentityTlvs(p);
    return offset - start;
  }

  /** answerHello's chain: addresses, speeds and name. */
  method SetAddressTlvs(buffer: array<byte>, start: nat, p: Station) returns (n: nat)
    requires start + AddressSize(p) <= buffer.Length
    modifies buffer
    ensures Written(old(buffer[..]), buffer[..], start, n, EncodeTlvs(AddressTlvs(p))) && n == AddressSize(p)
  {
    ghost var s0, b, ts := buffer[..], buffer[..], [];
    var offset, k := start, 0;
    k := SetIPv6Tlv(buffer, offset, p);
    ListMore(s0, b, buffer[..], start, offset, ts, k, Tlv(TLV_IPV6, p.ipv6));
    offset, b, ts := offset + k, buffer[..], ts + [Tlv(TLV_IPV6, p.ipv6)];
    k := SetPerfCounterTlv(buffer, offset);
    ListMore(s0, b, buffer[..], start, offset, ts, k, Tlv(TLV_PERF_COUNTER, Be32(0) + Be32(PERF_COUNTER_HZ)));
    offset, b, ts := offset + k, buffer[..], ts + [Tlv(TLV_PERF_COUNTER, Be32(0) + Be32(PERF_COUNTER_HZ))];
    k := SetLinkSpeedTlv(buffer, offset, p);
    ListMore(s0, b, buffer[..], start, offset, ts, k, Tlv(TLV_LINK_SPEED, Be32(p.linkSpeed)));
    offset, b, ts := offset + k, buffer[..], ts + [Tlv(TLV_LINK_SPEED, Be32(p.linkSpeed))];
    k := SetHostnameTlv(buffer, offset, p);
    ListMore(s0, b, buffer[..], start, offset, ts, k, Tlv(TLV_HOSTNAME, AtMost(p.hostname, 32)));
    offset, b, ts := offset + k, buffer[..], ts + [Tlv(TLV_HOSTNAME, AtMost(p.hostname, 32))];
    assert ts == AddressTlvs(p);
    return offset - start;
  }

  /** answerHello's chain: the Wi-Fi properties, for an interface that has a Wi-Fi mode. */
  method SetWifiTlvs(buffer: array<byte>, start: nat, p: Station) returns (n: nat)
    requires p.wifiMode.Some? && start + WifiSize(p) <= buffer.Length
    modifies buffer
    ensures Written(old(buffer[..]), buffer[..], start, n, EncodeTlvs(WifiTlvs(p))) && n == WifiSize(p)
  {
    ghost var s0 := buffer[..];
    n := SetNetworkTlvs(buffer, start, p);
    ghost var s1 := buffer[..];
    var k := SetRadioTlvs(buffer, start + n, p);
    ListJoin(s0, s1, buffer[..], start, start + n, NetworkTlvs(p), k, RadioTlvs(p));
    n := n + k;
  }

  method SetNetworkTlvs(buffer: array<byte>, start: nat, p: Station) returns (n: nat)
    requires p.wifiMode.Some? && start + NetworkSize(p) <= buffer.Length
    modifies buffer
    ensures Written(old(buffer[..]), buffer[..], start, n, EncodeTlvs(NetworkTlvs(p))) && n == NetworkSize(p)
  {
    ghost var s0 := buffer[..];
    n := SetModeAndBssid(buffer, start, p);
    ghost var s1 := buffer[..];
    var k := SetSsidTlv(buffer, start + n, p);
    ListMore(s0, s1, buffer[..], start, start + n, ModeAndBssid(p), k, Tlv(TLV_SSID, AtMost(p.ssid, 32)));
    n := n + k;
  }

  method SetModeAndBssid(buffer: array<byte>, start: nat, p: Station) returns (n: nat)
    requires p.wifiMode.Some? && start + 3 + BssidSize(p) <= buffer.Length
    modifies buffer
    ensures Written(old(buffer[..]), buffer[..], start, n, EncodeTlvs(ModeAndBssid(p))) && n == 3 + BssidSize(p)
  {
    ghost var s0 := buffer[..];
    n := SetWirelessTlv(buffer, start, p.wifiMode.value);
    ghost var s1, mode := buffer[..], Tlv(TLV_WIFI_MODE, [p.wifiMode.value]);
    EncodeOne(mode);
    var k := SetBssidTlv(buffer, start + n, p);
    ListJoin(s0, s1, buffer[..], start, start + n, [mode], k, BssidTlvs(p));
    n := n + k;
  }

  method SetRadioTlvs(buffer: array<byte>, start: nat, p: Station) returns (n: nat)
    requires start + 10 <= buffer.Length
    modifies buffer
    ensures Written(old(buffer[..]), buffer[..], start, n, EncodeTlvs(RadioTlvs(p))) && n == 10
  {
    ghost var s0, b, ts := buffer[..], buffer[..], [];
    var offset, k := start, 0;
    k := SetWifiMaxRateTlv(buffer, offset, p);
    ListMore(s0, b, buffer[..], start, offset, ts, k, Tlv(TLV_WIFI_MAX_RATE, Be16(p.wifiMaxRate)));
    offset, b, ts := offset + k, buffer[..], ts + [Tlv(TLV_WIFI_MAX_RATE, Be16(p.wifiMaxRate))];
    k := SetWifiRssiTlv(buffer, offset, p);
    ListMore(s0, b, buffer[..], start, offset, ts, k, Tlv(TLV_WIFI_RSSI, Be32(TwosComplement32(p.rssi))));
    assert ts + [Tlv(TLV_WIFI_RSSI, Be32(TwosComplement32(p.rssi)))] == RadioTlvs(p);
    return offset + k - start;
  }

  /** answerHello's chain: the closing properties. */
  method SetClosingTlvs(buffer: array<byte>, start: nat) returns (n: nat)
    requires start + CLOSING_SIZE <= buffer.Length
    modifies buffer
    ensures Written(old(buffer[..]), buffer[..], start, n, EncodeTlvs(ClosingTlvs())) && n == CLOSING_SIZE
  {
    ghost var s0, b, ts := buffer[..], buffer[..], [];
    var offset, k := start, 0;
    k := SetQosCharacteristicsTlv(buffer, offset);
    ListMore(s0, b, buffer[..], start, offset, ts, k, Tlv(TLV_QOS, Be32(Shifted16(QOS_FLAGS))));
    offset, b, ts := offset + k, buffer[..], ts + [Tlv(TLV_QOS, Be32(Shifted16(QOS_FLAGS)))];
    k := SetIconImageTlv(buffer, offset);
    ListMore(s0, b, buffer[..], start, offset, ts, k, Tlv(TLV_ICON_IMAGE, []));
    offset, b, ts := offset + k, buffer[..], ts + [Tlv(TLV_ICON_IMAGE, [])];
    k := SetFriendlyNameTlv(buffer, offset);
    ListMore(s0, b, buffer[..], start, offset, ts, k, Tlv(TLV_FRIENDLY_NAME, []));
    assert ts + [Tlv(TLV_FRIENDLY_NAME, [])] == ClosingTlvs();
    return offset + k - start;
  }

  method SetStationTlvs(buffer: array<byte>, start: nat, p: Station) returns (n: nat)
    requires start + IDENTITY_SIZE + AddressSize(p) <= buffer.Length
    modifies buffer
    ensures Written(old(buffer[..]), buffer[..], start, n, EncodeTlvs(IdentityTlvs(p) + AddressTlvs(p)))
    ensures n == IDENTITY_SIZE + AddressSize(p)
  {
    ghost var s0 := buffer[..];
    n := SetIdentityTlvs(buffer, start, p);
    ghost var s1 := buffer[..];
    var k := SetAddressTlvs(buffer, start + n, p);
    ListJoin(s0, s1, buffer[..], start, start + n, IdentityTlvs(p), k, AddressTlvs(p));
    n := n + k;
  }

  /** answerHello's chain under its Wi-Fi test. */
  method SetWifiTlvsIfAny(buffer: array<byte>, start: nat, p: Station) returns (n: nat)
    requires start + WifiSize(p) <= buffer.Length
    modifies buffer
    ensures Written(old(buffer[..]), buffer[..], start, n, EncodeTlvs(WifiTlvs(p))) && n == WifiSize(p)
  {
    if p.wifiMode.Some? {
      n := SetWifiTlvs(buffer, start, p);
    } else {
      n := 0;
    }
  }

  /** answerHello's chain from the Wi-Fi test on, up to the end marker. */
  method SetTrailingTlvs(buffer: array<byte>, start: nat, p: Station) returns (n: nat)
    requires start + WifiSize(p) + CLOSING_SIZE <= buffer.Length
    modifies buffer
    ensures Written(old(buffer[..]), buffer[..], start, n, EncodeTlvs(WifiTlvs(p) + ClosingTlvs()))
    ensures n == WifiSize(p) + CLOSING_SIZE
  {
    ghost var s0 := buffer[..];
    n := SetWifiTlvsIfAny(buffer, start, p);
    ghost var s1 := buffer[..];
    var k := SetClosingTlvs(buffer, start + n);
    ListJoin(s0, s1, buffer[..], start, start + n, WifiTlvs(p), k, ClosingTlvs());
    n := n + k;
  }

  lemma HelloListBytes(p: Station)
    ensures EncodeTlvs(IdentityTlvs(p) + AddressTlvs(p)) + EncodeTlvs(WifiTlvs(p) + ClosingTlvs()) == EncodeTlvs(HelloTlvs(p))
  {
    EncodeTlvsAppend(IdentityTlvs(p) + AddressTlvs(p), WifiTlvs(p) + ClosingTlvs());
    assert IdentityTlvs(p) + AddressTlvs(p) + (WifiTlvs(p) + ClosingTlvs()) == HelloTlvs(p);
  }

  /** The property list of answerHello up to its end marker. */
  method SetHelloTlvs(buffer: array<byte>, start: nat, p: Station) returns (n: nat)
    requires start + HelloSize(p) <= buffer.Length
    modifies buffer
    ensures Written(old(buffer[..]), buffer[..], start, n, EncodeTlvs(HelloTlvs(p))) && n == HelloSize(p) - 1
  {
    ghost var s0 := buffer[..];
    n := SetStationTlvs(buffer, start, p);
    ghost var s1 := buffer[..];
    var k := SetTrailingTlvs(buffer, start + n, p);
    WrittenInRow(s0, s1, buffer[..], start, n, EncodeTlvs(IdentityTlvs(p) + AddressTlvs(p)), k,
                 EncodeTlvs(WifiTlvs(p) + ClosingTlvs()));
    HelloListBytes(p);
    n := n + k;
  }

  /** The whole property list of answerHello. */
  method WriteHelloTlvs(buffer: array<byte>, start: nat, p: Station) returns (n: nat)
    requires start + HelloSize(p) <= buffer.Length
    modifies buffer
    ensures Written(old(buffer[..]), buffer[..], start, n, EncodeTlvs(HelloTlvs(p)) + [END_OF_PROPERTIES])
  {
    ghost var s0 := buffer[..];
    n := SetHelloTlvs(buffer, start, p);
    ghost var s1 := buffer[..];
    var k := SetEndOfPropertyTlv(buffer, start + n);
    WrittenInRow(s0, s1, buffer[..], start, n, EncodeTlvs(HelloTlvs(p)), k, [END_OF_PROPERTIES]);
    n := n + k;
  }
}
