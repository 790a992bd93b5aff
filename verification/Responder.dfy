/**
 * lltdBlock.c in its own form: a linked list of interface records, each with a linked probe log,
 * writing frames into buffers.  Every handler is proved against ResponderSpec.
 */
module Responder {
  import opened Protocol
  import opened Wire
  import opened Wrappers
  import opened TlvOps
  import opened ResponderSpec
  import Machine

  /** A frame handed to the network port: the interface and the bytes. */
  type Wired = (int, seq<byte>)

  function OnWire(ctx: int, fs: seq<Frame>): seq<Wired> {
    if fs == [] then [] else OnWire(ctx, fs[..|fs| - 1]) + [(ctx, Encode(fs[|fs| - 1]))]
  }

  lemma {:induction false} OnWireAppend(ctx: int, a: seq<Frame>, b: seq<Frame>)
    ensures OnWire(ctx, a + b) == OnWire(ctx, a) + OnWire(ctx, b)
    decreases |b|
  {
    if b == [] {
      assert a + b == a;
    } else {
      assert (a + b)[..|a + b| - 1] == a + b[..|b| - 1];
      OnWireAppend(ctx, a, b[..|b| - 1]);
    }
  }

  /** Each frame becomes its bytes under the interface's context, in order. */
  lemma {:induction false} OnWireIs(ctx: int, fs: seq<Frame>, i: nat)
    requires i < |fs|
    ensures |OnWire(ctx, fs)| == |fs|
    ensures OnWire(ctx, fs)[i] == (ctx, Encode(fs[i]))
    decreases |fs|
  {
    var n := |fs| - 1;
    if i < n {
      OnWireIs(ctx, fs[..n], i);
    } else if n > 0 {
      OnWireIs(ctx, fs[..n], 0);
    }
  }

  /** So the frames can be read back from the bytes sent. */
  lemma OnWireDecodes(ctx: int, fs: seq<Frame>, i: nat)
    requires i < |fs|
    ensures |OnWire(ctx, fs)| == |fs| && |OnWire(ctx, fs)[i].1| >= HEADER_LENGTH
    ensures Decode(OnWire(ctx, fs)[i].1) == fs[i]
  {
    OnWireIs(ctx, fs, i);
    FrameRoundTrip(fs[i]);
  }

  /** The same for frames of several interfaces. */
  function WireAll(os: seq<(int, Frame)>): seq<Wired> {
    if os == [] then [] else WireAll(os[..|os| - 1]) + [(os[|os| - 1].0, Encode(os[|os| - 1].1))]
  }

  lemma {:induction false} WireAllAppend(a: seq<(int, Frame)>, b: seq<(int, Frame)>)
    ensures WireAll(a + b) == WireAll(a) + WireAll(b)
    decreases |b|
  {
    if b == [] {
      assert a + b == a;
    } else {
      assert (a + b)[..|a + b| - 1] == a + b[..|b| - 1];
      WireAllAppend(a, b[..|b| - 1]);
    }
  }

  lemma {:induction false} WireLabelled(ctx: int, fs: seq<Frame>)
    ensures WireAll(Machine.Labelled(ctx, fs)) == OnWire(ctx, fs)
  {
    if fs != [] {
      var n := |fs| - 1;
      WireLabelled(ctx, fs[..n]);
      WireAllAppend(Machine.Labelled(ctx, fs[..n]), [(ctx, fs[n])]);
      assert [(ctx, fs[n])][..0] == [];
    }
  }

  function BytesSent(fs: seq<Frame>): seq<seq<byte>> {
    if fs == [] then [] else BytesSent(fs[..|fs| - 1]) + [Encode(fs[|fs| - 1])]
  }

  lemma BytesSentSnoc(fs: seq<Frame>, f: Frame)
    ensures BytesSent(fs + [f]) == BytesSent(fs) + [Encode(f)]
  {
    assert (fs + [f])[..|fs|] == fs;
  }

  /** The bytes on one interface are those of its own frames. */
  lemma {:induction false} OnlyWired(os: seq<(int, Frame)>, ctx: int)
    ensures Machine.Only(WireAll(os), ctx) == BytesSent(Machine.Only(os, ctx))
  {
    if os != [] {
      var n := |os| - 1;
      OnlyWired(os[..n], ctx);
      var w, last := WireAll(os[..n]), (os[n].0, Encode(os[n].1));
      Machine.OnlyAppend(w, [last], ctx);
      assert Machine.Only([last], ctx) == Machine.Only([last][..0], ctx) + if os[n].0 == ctx then [last.1] else [];
      if os[n].0 == ctx {
        BytesSentSnoc(Machine.Only(os[..n], ctx), os[n].1);
      } else {
        assert Machine.Only(os, ctx) == Machine.Only(os[..n], ctx);
      }
    }
  }

  /** All interfaces side by side, each starting fresh. */
  function AllInterfaces(): (map<int, Iface>, (int, Input)) -> (map<int, Iface>, seq<(int, Frame)>) {
    Machine.KeyedStep(Respond, FRESH)
  }

  /**
   * However frames of several interfaces are interleaved, the bytes that leave on one of them are those a new
   * responder sends for its own frames alone.
   */
  lemma WireIsIsolated(ins: seq<(int, Input)>, ctx: int)
    ensures Machine.Only(Serve(map[], ins).1, ctx)
         == BytesSent(Machine.Sent(Respond, FRESH, Machine.Only(ins, ctx)))
  {
    OnlyWired(Machine.Sent(AllInterfaces(), map[], ins), ctx);
    Machine.Isolation(Respond, FRESH, ins, ctx);
  }

  lemma OnWireOne(ctx: int, f: Frame)
    ensures OnWire(ctx, [f]) == [(ctx, Encode(f))]
  {
    assert OnWire(ctx, [f][..0]) == [];
  }

  class Port {
    var sent: seq<Wired>

    constructor ()
      ensures sent == []
    {
      sent := [];
    }

    /** lltd_port_send_frame, succeeding: the first length bytes of the buffer. */
    method SendFrame(ctx: int, buffer: array<byte>, length: nat)
      requires length <= buffer.Length
      modifies this
      ensures sent == old(sent) + [(ctx, buffer[..length])]
    {
      sent := sent + [(ctx, buffer[..length])];
    }
  }

  /** A probe_t: its descriptor and the older one behind it. */
  class ProbeNode {
    const desc: ProbeDesc
    const next: ProbeNode?
    /** The descriptors from this node on. */
    ghost const list: seq<ProbeDesc>

    ghost predicate Valid()
      decreases |list|
    {
      && |list| > 0 && list[0] == desc
      && (if next == null then |list| == 1 else next.list == list[1..] && next.Valid())
    }

    constructor (desc: ProbeDesc, next: ProbeNode?)
      requires next != null ==> next.Valid()
      ensures Valid() && this.desc == desc && this.next == next
      ensures list == [desc] + LogOf(next)
    {
      this.desc, this.next := desc, next;
      list := [desc] + LogOf(next);
    }
  }

  ghost function LogOf(n: ProbeNode?): seq<ProbeDesc> { if n == null then [] else n.list }

  class IfaceState {
    const ifaceCtx: int
    const next: IfaceState?
    var seeList: ProbeNode?
    var seeListCount: nat
    var mapperReal: Mac
    var mapperApparent: Mac
    var mapperKnown: bool
    var mapperSeq: u16
    var mapperGenTopology: u16
    var mapperGenQuick: u16
    var smallIcon: Option<seq<byte>>

    ghost predicate Valid()
      reads this
    {
      (seeList != null ==> seeList.Valid()) && seeListCount == |LogOf(seeList)|
    }

    /** The stale addresses of an unknown mapper are not seen. */
    ghost function View(): Iface
      reads this
    {
      Iface(LogOf(seeList), if mapperKnown then Some(Mapper(mapperReal, mapperApparent)) else None, mapperSeq,
            mapperGenTopology, mapperGenQuick, smallIcon)
    }

    constructor (ctx: int, next: IfaceState?)
      ensures Valid() && ifaceCtx == ctx && this.next == next && View() == FRESH
    {
      ifaceCtx, this.next := ctx, next;
      seeList, seeListCount := null, 0;
      mapperReal, mapperApparent, mapperKnown := ZERO_MAC, ZERO_MAC, false;
      mapperSeq, mapperGenTopology, mapperGenQuick := 0, 0, 0;
      smallIcon := None;
    }

    /** lltd_state_clear_seen_probes */
    method ClearSeenProbes()
      requires Valid()
      modifies this`seeList, this`seeListCount
      ensures Valid() && View() == old(View()).(log := [])
    {
      seeList, seeListCount := null, 0;
    }

    /** mapper_matches */
    method MapperMatches(realSource: Mac) returns (b: bool)
      ensures b == (View().mapper.None? || View().mapper.value.realAddress == realSource)
    {
      if !mapperKnown {
        return true;
      }
      return SameAddress(mapperReal, realSource);
    }

    /** set_active_mapper */
    method SetActiveMapper(f: Frame)
      requires Valid()
      modifies this`mapperReal, this`mapperApparent, this`mapperKnown
      ensures Valid() && View() == old(View()).(mapper := Lock(old(View()).mapper, f))
    {
      if !mapperKnown {
        mapperReal := f.header.realSource;
        mapperApparent := f.header.ethSource;
        mapperKnown := true;
      }
    }

    /** Reading through mapper_generation_for_tos. */
    function GenerationFor(tos: byte): u16
      reads this
    {
      if tos == TOS_QUICK_DISCOVERY then mapperGenQuick else mapperGenTopology
    }

    /** Writing through mapper_generation_for_tos. */
    method SetGenerationFor(tos: byte, g: u16)
      requires Valid()
      modifies this`mapperGenQuick, this`mapperGenTopology
      ensures Valid() && View() == WithGeneration(old(View()), tos, g) && GenerationFor(tos) == g
    {
      if tos == TOS_QUICK_DISCOVERY {
        mapperGenQuick := g;
      } else {
        mapperGenTopology := g;
      }
    }

    /** sendProbeMsg with sends that succeed; only reached once a mapper is known. */
    method SendProbeMsg(e: Emitee, ack: bool, env: Env, port: Port)
      requires Valid() && mapperKnown && KnownKind(e)
      modifies port
      ensures port.sent == old(port.sent) + OnWire(ifaceCtx, EmitOne(e, ack, View().mapper.value, mapperSeq, env))
    {
      var m := Mapper(mapperReal, mapperApparent);
      var probe := Zeroed(HEADER_LENGTH);
      var code := if e.kind == 0x01 then OPCODE_PROBE else OPCODE_TRAIN;
      var n := SetLltdHeaderEx(probe, e.source, e.dest, env.station.mac, mapperReal, 0, code, TOS_DISCOVERY);
      assert probe[..n] == Encode(ProbeFrame(e, m, env));
      assert probe[16] == 0 by { assert EncodeHeader(ProbeFrame(e, m, env).header)[16] == 0; }
      port.SendFrame(ifaceCtx, probe, n);
      OnWireOne(ifaceCtx, ProbeFrame(e, m, env));
      if ack {
        n := SetLltdHeaderEx(probe, env.station.mac, mapperApparent, env.station.mac, mapperReal, mapperSeq, OPCODE_ACK,
                             TOS_DISCOVERY);
        assert probe[..n] == Encode(AckFrame(m, mapperSeq, env));
        port.SendFrame(ifaceCtx, probe, n);
        OnWireOne(ifaceCtx, AckFrame(m, mapperSeq, env));
        OnWireAppend(ifaceCtx, [ProbeFrame(e, m, env)], [AckFrame(m, mapperSeq, env)]);
      } else {
        assert EmitOne(e, ack, m, mapperSeq, env) == [ProbeFrame(e, m, env)];
      }
    }

    /** One round of parseEmit's loop; an entry of unknown kind sends nothing, its Ack included. */
    method EmitEntry(f: Frame, i: nat, offsetEmitee: u16, env: Env, port: Port)
      requires Valid() && mapperKnown && mapperSeq == f.header.seqNumber
      requires offsetEmitee == (EMITEE_LENGTH * i) % 0x1_0000
      modifies port
      ensures port.sent == old(port.sent) + OnWire(ifaceCtx, EmitOne(EmiteeAt(f.body, i), i + 1 == U16At(f.body, 0),
                                                                     View().mapper.value, mapperSeq, env))
    {
      var ack := i == U16At(f.body, 0) - 1;
      var o := 2 + offsetEmitee;
      var e := Emitee(ByteAt(f.body, o), ByteAt(f.body, o + 1), MacAt(f.body, o + 2), MacAt(f.body, o + 8));
      if e.kind == 1 || e.kind == 0 {
        SendProbeMsg(e, ack, env, port);
      }
    }

    /** The loop of parseEmit. */
    method EmitAll(f: Frame, env: Env, port: Port)
      requires Valid() && mapperKnown && mapperSeq == f.header.seqNumber
      modifies port
      ensures port.sent == old(port.sent) + OnWire(ifaceCtx, EmitFirst(f, U16At(f.body, 0), View().mapper.value, env))
    {
      ghost var m := View().mapper.value;
      var offsetEmitee: u16, numDescs := 0, U16At(f.body, 0);
      for i := 0 to numDescs
        invariant offsetEmitee == (EMITEE_LENGTH * i) % 0x1_0000
        invariant port.sent == old(port.sent) + OnWire(ifaceCtx, EmitFirst(f, i, m, env))
      {
        EmitEntry(f, i, offsetEmitee, env, port);
        EmitUnfold(f, i, m, env);
        OnWireGrows(old(port.sent), ifaceCtx, EmitFirst(f, i, m, env),
                    EmitOne(EmiteeAt(f.body, i), i + 1 == U16At(f.body, 0), m, mapperSeq, env), EmitFirst(f, i + 1, m, env));
        OffsetStep(i);
        offsetEmitee := (offsetEmitee + EMITEE_LENGTH) % 0x1_0000;
      }
    }

    /** parseEmit */
    method ParseEmit(f: Frame, env: Env, port: Port)
      requires Valid()
      modifies this, port
      ensures Valid()
      ensures View() == OnEmit(old(View()), f, env).0
      ensures port.sent == old(port.sent) + OnWire(ifaceCtx, OnEmit(old(View()), f, env).1)
    {
      mapperSeq := f.header.seqNumber;
      SetActiveMapper(f);
      EmitAll(f, env, port);
    }

    /** The scan of parseProbe for a descriptor of the same origin. */
    method FindSeen(d: ProbeDesc) returns (found: bool)
      requires Valid()
      ensures found == Seen(LogOf(seeList), d)
    {
      var cur := seeList;
      ghost var k, log := 0, LogOf(seeList);
      while cur != null
        invariant 0 <= k <= |log| && LogOf(cur) == log[k..]
        invariant cur != null ==> cur.Valid()
        invariant forall i | 0 <= i < k :: !SameOrigin(d, log[i])
        decreases |log| - k
      {
        assert cur.desc == log[k];
        if SameAddress(d.source, cur.desc.source) && SameAddress(d.realSource, cur.desc.realSource) {
          return true;
        }
        cur := cur.next;
        k := k + 1;
      }
      return false;
    }

    /** parseProbe */
    method ParseProbe(f: Frame, env: Env)
      requires Valid()
      modifies this
      ensures Valid()
      ensures View() == OnProbe(old(View()), f, env).0
    {
      var forUs := SameAddress(f.header.realDest, env.station.mac);
      if !forUs {
        return;
      }
      var d := ProbeDesc(if f.header.opcode == OPCODE_PROBE then 1 else 0, f.header.realSource, f.header.ethSource,
                         f.header.ethDest);
      var found := FindSeen(d);
      if found {
        return;
      }
      var probe := new ProbeNode(d, seeList);
      seeList := probe;
      seeListCount := seeListCount + 1;
    }

    /** The descriptors of the log's newest entries, written newest first after a header. */
    method WriteDescs(buffer: array<byte>, start: nat, count: nat) returns (offset: nat)
      requires Valid() && count <= |LogOf(seeList)| && start + DESC_LENGTH * count <= buffer.Length
      modifies buffer
      ensures offset == start + DESC_LENGTH * count
      ensures buffer[..offset] == old(buffer[..start]) + EncodeDescs(LogOf(seeList)[..count])
    {
      offset := start;
      var node, remaining := seeList, count;
      ghost var log, k := LogOf(seeList), 0;
      while node != null && remaining > 0
        invariant k + remaining == count && offset == start + DESC_LENGTH * k
        invariant LogOf(node) == log[k..] && (node != null ==> node.Valid())
        invariant buffer[..offset] == old(buffer[..start]) + EncodeDescs(log[..k])
        decreases remaining
      {
        if offset + DESC_LENGTH > buffer.Length {
          break;
        }
        ghost var before := buffer[..offset];
        assert node.desc == log[k];
        Copy(buffer, offset, EncodeDesc(node.desc));
        offset := offset + DESC_LENGTH;
        DescsGrow(old(buffer[..start]), log, k, before, buffer[..offset]);
        node := node.next;
        remaining := remaining - 1;
        k := k + 1;
      }
    }

    /** The count parseQuery declares. */
    method CountDescs(mtu: nat) returns (numDescs: u16)
      requires Valid()
      ensures numDescs == NumDescs(LogOf(seeList), mtu)
    {
      var maxDescs := if mtu > 34 then (mtu - 34) / DESC_LENGTH else 0;
      numDescs := if seeListCount > maxDescs then maxDescs % 0x1_0000 else seeListCount % 0x1_0000;
    }

    /** The response of parseQuery; the buffer is the MTU, which must hold at least an empty response. */
    method SendQueryResp(f: Frame, env: Env, port: Port)
      requires Valid() && Mtu(env) >= QUERY_RESP_OVERHEAD && mapperSeq == f.header.seqNumber
      modifies port
      ensures port.sent == old(port.sent) + OnWire(ifaceCtx, [QueryResp(View(), f, env)])
    {
      var mtu := Mtu(env);
      var buffer := Zeroed(mtu);
      var dest := if !SameAddress(f.header.realSource, f.header.ethSource) then BROADCAST else f.header.realSource;
      var offset := SetLltdHeader(buffer, env.station.mac, dest, mapperSeq, OPCODE_QUERY_RESP, TOS_DISCOVERY);
      assert buffer[..offset] == EncodeHeader(QueryResp(View(), f, env).header);
      ghost var s0 := buffer[..];
      var numDescs := CountDescs(mtu);
      Copy(buffer, offset, Be16(numDescs));
      assert buffer[..offset + 2] == s0[..offset] + Be16(numDescs);
      offset := WriteDescs(buffer, offset + 2, numDescs);
      QueryRespBytes(View(), f, env, numDescs);
      port.SendFrame(ifaceCtx, buffer, offset);
      OnWireOne(ifaceCtx, QueryResp(View(), f, env));
    }

    /** parseQuery */
    method ParseQuery(f: Frame, env: Env, port: Port)
      requires Valid() && Mtu(env) >= QUERY_RESP_OVERHEAD
      modifies this, port
      ensures Valid()
      ensures View() == OnQuery(old(View()), f, env).0
      ensures port.sent == old(port.sent) + OnWire(ifaceCtx, OnQuery(old(View()), f, env).1)
    {
      mapperSeq := f.header.seqNumber;
      mapperReal := f.header.realSource;
      mapperApparent := f.header.ethSource;
      mapperKnown := true;
      SendQueryResp(f, env, port);
      assert QueryResp(View(), f, env) == QueryResp(old(View()), f, env);
      ClearSeenProbes();
    }

    /** Buffer, header, length field and bytes of a QueryLargeTlvResp. */
    method SendChunk(f: Frame, bytes: seq<byte>, length: u16, maxPayload: u16, env: Env, port: Port)
      requires mapperSeq == f.header.seqNumber && |bytes| <= maxPayload
      modifies port
      ensures port.sent == old(port.sent) + OnWire(ifaceCtx, [LargeTlvFrame(bytes, length, f, env)])
    {
      var dest := if !SameAddress(f.header.realSource, f.header.ethSource) then BROADCAST else f.header.realSource;
      var buffer := Zeroed(34 + maxPayload);
      var n := SetLltdHeader(buffer, env.station.mac, dest, mapperSeq, OPCODE_QUERY_LARGE_TLV_RESP, TOS_DISCOVERY);
      ghost var out := LargeTlvFrame(bytes, length, f, env);
      ghost var head := EncodeHeader(out.header);
      assert buffer[..32] == head;
      Copy(buffer, 32, Be16(length));
      assert buffer[..34] == head + Be16(length);
      if |bytes| > 0 {
        Copy(buffer, 34, bytes);
      }
      assert buffer[..34 + |bytes|] == head + Be16(length) + bytes;
      LargeTlvBytes(head, Be16(length), bytes, out);
      port.SendFrame(ifaceCtx, buffer, 34 + |bytes|);
      OnWireOne(ifaceCtx, out);
    }

    /** sendLargeTlvResponse; no data is the empty sequence. */
    method SendLargeTlvResponse(f: Frame, data: seq<byte>, dataOffset: u16, env: Env, port: Port)
      requires mapperSeq == f.header.seqNumber && dataOffset == U16At(f.body, 2)
      modifies port
      ensures port.sent == old(port.sent) + OnWire(ifaceCtx, [LargeTlvResp(data, f, env)])
    {
      var mtu := Mtu(env);
      var maxPayload: u16 := if mtu > 34 then (mtu - 34) % 0x1_0000 else 0;
      var bytesToWrite: u16, length: u16 := 0, 0;
      if |data| == 0 {
      } else if |data| > dataOffset + maxPayload {
        bytesToWrite := maxPayload;
        length := WithMoreFlag(bytesToWrite);
      } else if |data| > dataOffset {
        bytesToWrite := |data| - dataOffset;
        length := bytesToWrite;
      }
      var bytes := if bytesToWrite > 0 then data[dataOffset..dataOffset + bytesToWrite] else [];
      if dataOffset < |data| <= dataOffset + maxPayload {
        assert data[dataOffset..dataOffset + bytesToWrite] == data[dataOffset..];
      }
      assert bytes == Chunk(data, dataOffset, maxPayload).0 && length == Chunk(data, dataOffset, maxPayload).1;
      SendChunk(f, bytes, length, maxPayload, env, port);
    }

    /** The scan for the end of the hardware id. */
    method ReadHwId(env: Env) returns (data: seq<byte>)
      ensures data == HwIdData(env)
    {
      var s := HwIdBuffer(env.hwId);
      var size, i := HW_ID_LENGTH, 0;
      while i + 1 < HW_ID_LENGTH
        invariant 0 <= i <= HW_ID_LENGTH && i % 2 == 0
        invariant size == HW_ID_LENGTH && HwIdEnd(s, 0) == HwIdEnd(s, i)
      {
        if s[i] == 0 && s[i + 1] == 0 {
          size := i;
          break;
        }
        i := i + 2;
      }
      return s[..size];
    }

    /** parseQueryLargeTlv */
    method ParseQueryLargeTlv(f: Frame, env: Env, port: Port)
      requires Valid()
      modifies this, port
      ensures Valid()
      ensures View() == OnQueryLargeTlv(old(View()), f, env).0
      ensures port.sent == old(port.sent) + OnWire(ifaceCtx, OnQueryLargeTlv(old(View()), f, env).1)
    {
      if f.header.seqNumber == 0 {
        return;
      }
      mapperSeq := f.header.seqNumber;
      SetActiveMapper(f);
      var kind, offset := ByteAt(f.body, 0), U16At(f.body, 2);
      var data: seq<byte> := [];
      if kind == TLV_ICON_IMAGE {
        if smallIcon.None? {
          smallIcon := env.icon;
        }
        data := BytesOf(smallIcon);
      } else if kind == TLV_FRIENDLY_NAME {
        data := BytesOf(env.friendlyName);
      } else if kind == TLV_HW_ID {
        data := ReadHwId(env);
      }
      SendLargeTlvResponse(f, data, offset, env, port);
    }

    /** The Hello of answerHello. */
    method SendHello(f: Frame, env: Env, port: Port)
      requires HELLO_OVERHEAD + HelloSize(env.station) <= Mtu(env) && GenerationFor(f.header.tos) == U16At(f.body, 0)
      modifies port
      ensures port.sent == old(port.sent) + OnWire(ifaceCtx, [Hello(f, env)])
    {
      var buffer := Zeroed(Mtu(env));
      var offset := SetLltdHeader(buffer, env.station.mac, BROADCAST, 0, OPCODE_HELLO, f.header.tos);
      ghost var head, s0 := EncodeHeader(Hello(f, env).header), buffer[..];
      assert buffer[..offset] == head;
      var generation := GenerationFor(f.header.tos);
      var n := SetHelloHeader(buffer, offset, f.header.ethSource, f.header.realSource, generation);
      ghost var upper, s1 := HelloHeader(generation, f.header.realSource, f.header.ethSource), buffer[..];
      var m := WriteHelloTlvs(buffer, offset + n, env.station);
      ghost var list := EncodeTlvs(HelloTlvs(env.station)) + [END_OF_PROPERTIES];
      WrittenInRow(s0, s1, buffer[..], offset, n, upper, m, list);
      HelloBytes(f, env, head, upper, list);
      port.SendFrame(ifaceCtx, buffer, offset + n + m);
      OnWireOne(ifaceCtx, Hello(f, env));
    }

    /** answerHello: the slot of the frame's service is filled if it was empty, and its generation is announced. */
    method AnswerHello(f: Frame, env: Env, port: Port)
      requires Valid() && mapperKnown && HELLO_OVERHEAD + HelloSize(env.station) <= Mtu(env)
      requires GenerationFor(f.header.tos) in {0, U16At(f.body, 0)}
      modifies this, port
      ensures Valid()
      ensures View() == WithGeneration(old(View()).(seqNo := f.header.seqNumber), f.header.tos, U16At(f.body, 0))
      ensures port.sent == old(port.sent) + OnWire(ifaceCtx, [Hello(f, env)])
    {
      SetActiveMapper(f);
      mapperSeq := f.header.seqNumber;
      var discoverGeneration := U16At(f.body, 0);
      if GenerationFor(f.header.tos) == 0 && discoverGeneration != 0 {
        SetGenerationFor(f.header.tos, discoverGeneration);
      }
      SendHello(f, env, port);
    }

    /** The Discover part of parseFrame that precedes the dispatch: lock the mapper, store the generation. */
    method NoteDiscover(f: Frame) returns (accepted: bool)
      requires Valid() && f.header.opcode == OPCODE_DISCOVER
      modifies this
      ensures Valid() && accepted == Accepts(old(View()), f)
      ensures View() == if !accepted then old(View()) else WithGeneration(
                old(View()).(mapper := Lock(old(View()).mapper, f)), f.header.tos, U16At(f.body, 0))
      ensures accepted ==> Accepts(View(), f) && mapperKnown && GenerationFor(f.header.tos) == U16At(f.body, 0)
    {
      var generation := U16At(f.body, 0);
      accepted := MapperMatches(f.header.realSource);
      if !accepted {
        return;
      }
      SetActiveMapper(f);
      if GenerationFor(f.header.tos) == 0 && generation != 0 {
        SetGenerationFor(f.header.tos, generation);
      } else if GenerationFor(f.header.tos) != generation {
        SetGenerationFor(f.header.tos, generation);
      }
    }

    /** The two Discover cases of the dispatch. */
    method HandleDiscover(f: Frame, env: Env, port: Port)
      requires Valid() && f.header.opcode == OPCODE_DISCOVER && BufferHolds(f, env)
      modifies this, port
      ensures Valid()
      ensures View() == OnDiscover(old(View()), f, env).0
      ensures port.sent == old(port.sent) + OnWire(ifaceCtx, OnDiscover(old(View()), f, env).1)
    {
      var accepted := NoteDiscover(f);
      if !accepted {
        return;
      }
      if f.header.tos == TOS_DISCOVERY || f.header.tos == TOS_QUICK_DISCOVERY {
        var matches := MapperMatches(f.header.realSource);
        if matches {
          AnswerHello(f, env, port);
        }
      }
    }

    /** parseFrame on the record of its interface. */
    method Handle(f: Frame, env: Env, port: Port)
      requires Valid() && BufferHolds(f, env)
      modifies this, port
      ensures Valid()
      ensures View() == Parse(old(View()), f, env).0
      ensures port.sent == old(port.sent) + OnWire(ifaceCtx, Parse(old(View()), f, env).1)
    {
      var opcode := f.header.opcode;
      if opcode == OPCODE_DISCOVER {
        HandleDiscover(f, env, port);
      } else if f.header.tos == TOS_DISCOVERY {
        if opcode == OPCODE_EMIT {
          ParseEmit(f, env, port);
        } else if opcode == OPCODE_TRAIN || opcode == OPCODE_PROBE {
          ParseProbe(f, env);
        } else if opcode == OPCODE_QUERY {
          ParseQuery(f, env, port);
        } else if opcode == OPCODE_QUERY_LARGE_TLV {
          ParseQueryLargeTlv(f, env, port);
        } else if opcode == OPCODE_RESET {
          ClearSeenProbes();
          smallIcon := None;
          mapperKnown := false;
          mapperSeq := 0;
          mapperGenTopology := 0;
          mapperGenQuick := 0;
        }
      } else if f.header.tos == TOS_QUICK_DISCOVERY {
        if opcode == OPCODE_QUERY_LARGE_TLV {
          ParseQueryLargeTlv(f, env, port);
        } else if opcode == OPCODE_RESET {
          mapperKnown := false;
          mapperGenQuick := 0;
        }
      }
    }
  }

  /** g_iface_states: the linked list of interface records, one for each interface ever seen. */
  class InterfaceList {
    var head: IfaceState?
    /** The records, newest first. */
    ghost var nodes: seq<IfaceState>
    ghost var repr: set<object>

    ghost predicate Valid()
      reads this, repr
    {
      && this in repr
      && head == NodeAt(nodes, 0)
      && Linked(nodes)
      && (forall i | 0 <= i < |nodes| :: nodes[i] in repr && nodes[i].Valid())
    }

    /** The interfaces seen so far, by context; one not seen yet counts as fresh. */
    ghost predicate Shows(world: map<int, Iface>)
      requires Valid()
      reads this, repr
    {
      && Covers(nodes, world.Keys)
      && (forall i | 0 <= i < |nodes| :: world[nodes[i].ifaceCtx] == nodes[i].View())
    }

    constructor ()
      ensures Valid() && nodes == [] && Shows(map[]) && fresh(repr)
    {
      head, nodes, repr := null, [], {this};
    }

    /** The walk of lltd_state_for_iface. */
    method FindNode(ctx: int) returns (cur: IfaceState?, ghost k: nat)
      requires Valid()
      ensures cur == NodeAt(nodes, k) && (cur != null ==> cur.ifaceCtx == ctx)
      ensures cur == null ==> forall i | 0 <= i < |nodes| :: nodes[i].ifaceCtx != ctx
    {
      cur, k := head, 0;
      while cur != null && cur.ifaceCtx != ctx
        invariant 0 <= k <= |nodes| && cur == NodeAt(nodes, k)
        invariant forall i | 0 <= i < k :: nodes[i].ifaceCtx != ctx
        decreases |nodes| - k
      {
        cur := cur.next;
        k := k + 1;
      }
    }

    /** The creation of lltd_state_for_iface. */
    method AddNode(ctx: int) returns (st: IfaceState)
      requires Valid() && forall i | 0 <= i < |nodes| :: nodes[i].ifaceCtx != ctx
      modifies this
      ensures Valid() && fresh(st) && nodes == [st] + old(nodes) && repr == old(repr) + {st}
      ensures st.ifaceCtx == ctx && st.View() == FRESH
    {
      st := new IfaceState(ctx, head);
      head := st;
      repr := repr + {st};
      ghost var was := nodes;
      nodes := [st] + nodes;
      LinkedCons(st, was);
    }

    /** A record for a context without one shows it as fresh. */
    method AddFresh(ctx: int, ghost world: map<int, Iface>) returns (st: IfaceState)
      requires Valid() && Shows(world) && ctx !in world
      modifies this
      ensures Valid() && fresh(st) && nodes == [st] + old(nodes) && repr == old(repr) + {st} && st.ifaceCtx == ctx
      ensures st.View() == FRESH && Shows(world[ctx := FRESH])
    {
      st := AddNode(ctx);
      ghost var world' := world[ctx := FRESH];
      assert world'.Keys == world.Keys + {ctx};
      CoversCons(st, old(nodes), world.Keys);
      forall i | 0 <= i < |nodes| ensures world'[nodes[i].ifaceCtx] == nodes[i].View() {
        if i > 0 {
          assert nodes[i] == old(nodes)[i - 1] && nodes[i].View() == old(nodes[i - 1].View());
        }
      }
    }

    /** lltd_state_for_iface: the record of an interface, created in front of the list if there is none. */
    method StateForIface(ctx: int, ghost world: map<int, Iface>) returns (st: IfaceState, ghost k: nat)
      requires Valid() && Shows(world)
      modifies this
      ensures Valid() && k < |nodes| && st == nodes[k] && st.ifaceCtx == ctx
      ensures fresh(repr - old(repr))
      ensures st.View() == Machine.At(world, FRESH, ctx) && Shows(world[ctx := st.View()])
    {
      var found;
      found, k := FindNode(ctx);
      if found != null {
        st := found;
        assert world[ctx := st.View()] == world;
      } else {
        st := AddFresh(ctx, world);
        k := 0;
      }
    }

    /** The body of parseFrame: the record changes, and with it its context alone. */
    method HandleOn(st: IfaceState, ghost k: nat, f: Frame, env: Env, port: Port, ghost world: map<int, Iface>)
      requires Valid() && Shows(world) && k < |nodes| && st == nodes[k] && BufferHolds(f, env)
      modifies st, port
      ensures Valid() && Shows(world[st.ifaceCtx := Respond(old(st.View()), Input(f, env)).0])
      ensures port.sent == old(port.sent) + OnWire(st.ifaceCtx, Respond(old(st.View()), Input(f, env)).1)
    {
      st.Handle(f, env, port);
      ghost var world' := world[st.ifaceCtx := st.View()];
      assert world'.Keys == world.Keys;
      forall i | 0 <= i < |nodes| ensures world'[nodes[i].ifaceCtx] == nodes[i].View() && nodes[i].Valid() {
        if i != k {
          assert nodes[i].View() == old(nodes[i].View()) && old(nodes[i].Valid());
        }
      }
    }

    /** parseFrame: only the interface of the frame changes, and only it sends. */
    method ParseFrame(f: Frame, ctx: int, env: Env, port: Port, ghost world: map<int, Iface>)
      requires Valid() && Shows(world) && BufferHolds(f, env)
      modifies repr, port
      ensures Valid() && fresh(repr - old(repr))
      ensures Shows(world[ctx := Respond(Machine.At(world, FRESH, ctx), Input(f, env)).0])
      ensures port.sent == old(port.sent) + OnWire(ctx, Respond(Machine.At(world, FRESH, ctx), Input(f, env)).1)
    {
      var st, k := StateForIface(ctx, world);
      HandleOn(st, k, f, env, port, world[ctx := st.View()]);
      MapOverwrite(world, ctx, Machine.At(world, FRESH, ctx), Respond(Machine.At(world, FRESH, ctx), Input(f, env)).0);
    }

    /** One more call of parseFrame. */
    method ParseNext(f: Frame, ctx: int, env: Env, port: Port, ghost w: map<int, Iface>)
        returns (ghost w': map<int, Iface>, ghost more: seq<Wired>)
      requires Valid() && Shows(w) && BufferHolds(f, env)
      modifies repr, port
      ensures Valid() && fresh(repr - old(repr))
      ensures Shows(w') && port.sent == old(port.sent) + more
      ensures (w', more) == OneMore(w, ctx, Input(f, env))
    {
      ParseFrame(f, ctx, env, port, w);
      w', more := OneMore(w, ctx, Input(f, env)).0, OneMore(w, ctx, Input(f, env)).1;
    }

    /** The call for the i-th of some frames. */
    method ParseOneOf(ins: seq<(int, Input)>, i: nat, port: Port, ghost world: map<int, Iface>, ghost w: map<int, Iface>,
                      ghost sent: seq<Wired>)
        returns (ghost w': map<int, Iface>, ghost sent': seq<Wired>)
      requires Valid() && Shows(w) && i < |ins| && BufferHolds(ins[i].1.frame, ins[i].1.env)
      requires (w, sent) == Serve(world, ins[..i])
      modifies repr, port
      ensures Valid() && fresh(repr - old(repr)) && Shows(w')
      ensures |sent| <= |sent'| && sent'[..|sent|] == sent && port.sent == old(port.sent) + sent'[|sent|..]
      ensures (w', sent') == Serve(world, ins[..i + 1])
    {
      ghost var more;
      ServeSnoc(world, ins, i);
      w', more := ParseNext(ins[i].1.frame, ins[i].0, ins[i].1.env, port, w);
      sent' := sent + more;
    }

    /** Any sequence of calls of parseFrame: the list shows, and the port has sent, what the run of all interfaces says. */
    method ParseFrames(ins: seq<(int, Input)>, port: Port, ghost world: map<int, Iface>)
      requires Valid() && Shows(world)
      requires forall i | 0 <= i < |ins| :: BufferHolds(ins[i].1.frame, ins[i].1.env)
      modifies repr, port
      ensures Valid() && fresh(repr - old(repr))
      ensures Shows(Serve(world, ins).0) && port.sent == old(port.sent) + Serve(world, ins).1
    {
      ghost var w, sent: seq<Wired> := world, [];
      for i := 0 to |ins|
        invariant Valid() && fresh(repr - old(repr)) && Shows(w)
        invariant (w, sent) == Serve(world, ins[..i])
        invariant port.sent == old(port.sent) + sent
      {
        w, sent := ParseOneOf(ins, i, port, world, w, sent);
      }
      assert ins[..|ins|] == ins;
    }
  }

  /** The run of all interfaces over some frames: what they are then, and the bytes sent. */
  function Serve(world: map<int, Iface>, ins: seq<(int, Input)>): (map<int, Iface>, seq<Wired>) {
    (Machine.Run(AllInterfaces(), world, ins), WireAll(Machine.Sent(AllInterfaces(), world, ins)))
  }

  /** What one call of parseFrame makes of the interfaces, and sends. */
  function OneMore(w: map<int, Iface>, ctx: int, x: Input): (map<int, Iface>, seq<Wired>) {
    var r := Respond(Machine.At(w, FRESH, ctx), x);
    (w[ctx := r.0], OnWire(ctx, r.1))
  }

  lemma ServeSnoc(world: map<int, Iface>, ins: seq<(int, Input)>, i: nat)
    requires i < |ins|
    ensures var (w, sent) := Serve(world, ins[..i]);
            var (w', more) := OneMore(w, ins[i].0, ins[i].1);
            Serve(world, ins[..i + 1]) == (w', sent + more)
  {
    var w: map<int, Iface> := Machine.Run(AllInterfaces(), world, ins[..i]);
    var fs := Respond(Machine.At(w, FRESH, ins[i].0), ins[i].1).1;
    assert ins[..i + 1] == ins[..i] + [ins[i]];
    Machine.KeyedSnoc(Respond, FRESH, world, ins[..i], ins[i]);
    WireAllAppend(Machine.Sent(AllInterfaces(), world, ins[..i]), Machine.Labelled(ins[i].0, fs));
    WireLabelled(ins[i].0, fs);
  }

  lemma MapOverwrite<K, V>(m: map<K, V>, k: K, v: V, v': V)
    ensures m[k := v][k := v'] == m[k := v']
  {
  }

  /** next pointers follow the sequence, and no context occurs twice. */
  ghost predicate Linked(nodes: seq<IfaceState>) {
    && (forall i | 0 <= i < |nodes| :: nodes[i].next == NodeAt(nodes, i + 1))
    && (forall i, j | 0 <= i < j < |nodes| :: nodes[i].ifaceCtx != nodes[j].ifaceCtx)
  }

  lemma LinkedCons(st: IfaceState, nodes: seq<IfaceState>)
    requires Linked(nodes) && st.next == NodeAt(nodes, 0)
    requires forall i | 0 <= i < |nodes| :: nodes[i].ifaceCtx != st.ifaceCtx
    ensures Linked([st] + nodes)
  {
    var all := [st] + nodes;
    forall i | 0 <= i < |all| ensures all[i].next == NodeAt(all, i + 1) {
      assert i == 0 || all[i] == nodes[i - 1];
    }
  }

  /** The contexts of the records are exactly the keys. */
  ghost predicate Covers(nodes: seq<IfaceState>, keys: set<int>) {
    && (forall i | 0 <= i < |nodes| :: nodes[i].ifaceCtx in keys)
    && (forall c | c in keys :: exists i :: 0 <= i < |nodes| && nodes[i].ifaceCtx == c)
  }

  lemma CoversCons(st: IfaceState, nodes: seq<IfaceState>, keys: set<int>)
    requires Covers(nodes, keys)
    ensures Covers([st] + nodes, keys + {st.ifaceCtx})
  {
    var all := [st] + nodes;
    forall c | c in keys + {st.ifaceCtx} ensures exists i :: 0 <= i < |all| && all[i].ifaceCtx == c {
      if c in keys {
        var i :| 0 <= i < |nodes| && nodes[i].ifaceCtx == c;
        assert all[i + 1].ifaceCtx == c;
      } else {
        assert all[0].ifaceCtx == c;
      }
    }
  }

  ghost function NodeAt(nodes: seq<IfaceState>, i: nat): IfaceState? { if i < |nodes| then nodes[i] else null }

  /** One more descriptor behind those written. */
  lemma DescsGrow(head: seq<byte>, log: seq<ProbeDesc>, k: nat, before: seq<byte>, after: seq<byte>)
    requires k < |log| && before == head + EncodeDescs(log[..k]) && after == before + EncodeDesc(log[k])
    ensures after == head + EncodeDescs(log[..k + 1])
  {
    assert log[..k + 1][..k] == log[..k];
  }

  lemma HelloBytes(f: Frame, env: Env, head: seq<byte>, upper: seq<byte>, list: seq<byte>)
    requires head == EncodeHeader(Hello(f, env).header)
    requires upper == HelloHeader(U16At(f.body, 0), f.header.realSource, f.header.ethSource)
    requires list == EncodeTlvs(HelloTlvs(env.station)) + [END_OF_PROPERTIES]
    ensures head + (upper + list) == Encode(Hello(f, env))
  {
    assert HelloBody(f, env) == upper + list;
  }

  lemma QueryRespBytes(st: Iface, f: Frame, env: Env, n: u16)
    requires n == NumDescs(st.log, Mtu(env))
    ensures var out := QueryResp(st, f, env);
            EncodeHeader(out.header) + Be16(n) + EncodeDescs(st.log[..n]) == Encode(out)
  {
    var out := QueryResp(st, f, env);
    assert out.body == Be16(n) + EncodeDescs(st.log[..n]);
  }

  lemma LargeTlvBytes(head: seq<byte>, length: seq<byte>, bytes: seq<byte>, out: Frame)
    requires head == EncodeHeader(out.header) && out.body == length + bytes
    ensures head + length + bytes == Encode(out)
  {
  }

  lemma OffsetStep(i: nat)
    ensures (EMITEE_LENGTH * (i + 1)) % 0x1_0000 == ((EMITEE_LENGTH * i) % 0x1_0000 + EMITEE_LENGTH) % 0x1_0000
  {
  }

  lemma EmitUnfold(f: Frame, i: nat, m: Mapper, env: Env)
    ensures EmitFirst(f, i + 1, m, env)
         == EmitFirst(f, i, m, env)
            + EmitOne(EmiteeAt(f.body, i), i + 1 == U16At(f.body, 0), m, f.header.seqNumber, env)
  {
  }

  lemma OnWireGrows(was: seq<Wired>, ctx: int, done: seq<Frame>, more: seq<Frame>, all: seq<Frame>)
    requires all == done + more
    ensures was + OnWire(ctx, done) + OnWire(ctx, more) == was + OnWire(ctx, all)
  {
    OnWireAppend(ctx, done, more);
    Regroup(was, OnWire(ctx, done), OnWire(ctx, more));
  }

  lemma Regroup<T>(a: seq<T>, b: seq<T>, c: seq<T>)
    ensures a + (b + c) == a + b + c
  {
  }

}
