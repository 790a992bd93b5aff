/** Laws of the per-interface responder over runs, and the decoders its frames are inverse to. */
module ResponderProperties {
  import opened Protocol
  import opened Wire
  import opened Wrappers
  import opened TlvOps
  import opened ResponderSpec
  import opened Machine

  predicate IsTopologyReset(f: Frame) { f.header.tos == TOS_DISCOVERY && f.header.opcode == OPCODE_RESET }

  predicate IsReset(f: Frame) {
    f.header.opcode == OPCODE_RESET && (f.header.tos == TOS_DISCOVERY || f.header.tos == TOS_QUICK_DISCOVERY)
  }

  // ----- Reset is a fresh start -----------------------------------------------------------------

  lemma ResetStep(st: Iface, reset: Input)
    requires IsTopologyReset(reset.frame)
    ensures Respond(st, reset) == (FRESH, [])
  {
  }

  /** Around a topology Reset the frames sent are those of the run before it and of a new interface after it. */
  lemma ResetIsFreshStart(st: Iface, before: seq<Input>, reset: Input, after: seq<Input>)
    requires IsTopologyReset(reset.frame)
    ensures Sent(Respond, st, before + [reset] + after) == Sent(Respond, st, before) + Sent(Respond, FRESH, after)
    ensures Run(Respond, st, before + [reset] + after) == Run(Respond, FRESH, after)
  {
    ResetStep(Run(Respond, st, before), reset);
    Restart(Respond, st, before, reset, FRESH, after);
  }

  // ----- the mapper lock ------------------------------------------------------------------------

  /** Exactly what makes an interface change a mapper it knows: a Reset, or a Query sent under other addresses. */
  lemma LockBreaksIff(st: Iface, f: Frame, env: Env, m: Mapper)
    requires st.mapper == Some(m)
    ensures Parse(st, f, env).0.mapper != Some(m)
       <==> IsReset(f) || (IsQuery(f) && Mapper(f.header.realSource, f.header.ethSource) != m)
  {
  }

  predicate IsAnsweredDiscover(f: Frame, realAddress: Mac) { IsAnswered(f) && f.header.realSource == realAddress }

  /** The Hellos owed to the Discovers of one mapper. */
  function HellosOwed(ins: seq<Input>, realAddress: Mac): seq<Frame> {
    if ins == [] then []
    else
      var x := ins[|ins| - 1];
      HellosOwed(ins[..|ins| - 1], realAddress)
      + (if IsAnsweredDiscover(x.frame, realAddress) then [Hello(x.frame, x.env)] else [])
  }

  function OnlyHellos(fs: seq<Frame>): seq<Frame> {
    if fs == [] then []
    else OnlyHellos(fs[..|fs| - 1]) + (if fs[|fs| - 1].header.opcode == OPCODE_HELLO then [fs[|fs| - 1]] else [])
  }

  lemma {:induction false} OnlyHellosAppend(a: seq<Frame>, b: seq<Frame>)
    ensures OnlyHellos(a + b) == OnlyHellos(a) + OnlyHellos(b)
    decreases |b|
  {
    if b == [] {
      assert a + b == a;
    } else {
      assert (a + b)[..|a + b| - 1] == a + b[..|b| - 1];
      OnlyHellosAppend(a, b[..|b| - 1]);
    }
  }

  lemma {:induction false} NoHellos(fs: seq<Frame>)
    requires forall i | 0 <= i < |fs| :: fs[i].header.opcode != OPCODE_HELLO
    ensures OnlyHellos(fs) == []
  {
    if fs != [] { NoHellos(fs[..|fs| - 1]); }
  }

  lemma {:induction false} EmitSendsNoHello(f: Frame, i: nat, m: Mapper, env: Env)
    ensures forall k | 0 <= k < |EmitFirst(f, i, m, env)| :: EmitFirst(f, i, m, env)[k].header.opcode != OPCODE_HELLO
  {
    if i > 0 { EmitSendsNoHello(f, i - 1, m, env); }
  }

  /** One frame is answered by a Hello exactly if it is an accepted Discover of a known service, and by no more than one. */
  lemma StepHello(st: Iface, x: Input)
    ensures OnlyHellos(Respond(st, x).1)
         == if IsAnswered(x.frame) && Accepts(st, x.frame) then [Hello(x.frame, x.env)] else []
  {
    var out := Respond(st, x).1;
    EmitSendsNoHello(x.frame, U16At(x.frame.body, 0), Lock(st.mapper, x.frame).value, x.env);
    if IsAnswered(x.frame) && Accepts(st, x.frame) {
      assert out == [Hello(x.frame, x.env)];
      assert OnlyHellos(out[..0]) == [];
    } else {
      NoHellos(out);
    }
  }

  lemma LockedStep(st: Iface, x: Input, m: Mapper)
    requires st.mapper == Some(m) && !IsReset(x.frame) && !IsQuery(x.frame)
    ensures Respond(st, x).0.mapper == Some(m)
    ensures OnlyHellos(Respond(st, x).1)
         == if IsAnsweredDiscover(x.frame, m.realAddress) then [Hello(x.frame, x.env)] else []
  {
    LockBreaksIff(st, x.frame, x.env, m);
    StepHello(st, x);
  }

  /** Without Reset and Query a known mapper stays, and the Hellos are exactly the answers to its own Discovers. */
  lemma {:induction false} MapperLock(st: Iface, ins: seq<Input>, m: Mapper)
    requires st.mapper == Some(m)
    requires forall x | x in ins :: !IsReset(x.frame) && !IsQuery(x.frame)
    ensures Run(Respond, st, ins).mapper == Some(m)
    ensures OnlyHellos(Sent(Respond, st, ins)) == HellosOwed(ins, m.realAddress)
  {
    if ins != [] {
      var c, x := ins[..|ins| - 1], ins[|ins| - 1];
      assert ins == c + [x];
      assert x in ins && forall y | y in c :: y in ins;
      MapperLock(st, c, m);
      RunSnoc(Respond, st, c, x);
      var s := Run(Respond, st, c);
      LockedStep(s, x, m);
      OnlyHellosAppend(Sent(Respond, st, c), Respond(s, x).1);
    }
  }

  // ----- Hello ----------------------------------------------------------------------------------

  datatype HelloInfo = HelloInfo(tos: byte, seqNumber: u16, source: Mac, generation: u16, currentMapper: Mac,
                                 apparentMapper: Mac, tlvs: seq<Tlv>)

  /** Reads a Hello off the wire. */
  function DecodeHello(s: seq<byte>): Option<HelloInfo> {
    if |s| < HEADER_LENGTH + HELLO_HEADER_LENGTH then None
    else
      var h := DecodeHeader(s);
      if h.etherType != LLTD_ETHER_TYPE || h.opcode != OPCODE_HELLO then None
      else
        match ParseTlvs(s[HEADER_LENGTH + HELLO_HEADER_LENGTH..])
        case None => None
        case Some(ts) =>
          Some(HelloInfo(h.tos, h.seqNumber, h.realSource, U16At(s, 32), MacAt(s, 34), MacAt(s, 40), ts))
  }

  lemma HelloUpperRoundTrip(head: seq<byte>, g: u16, current: Mac, apparent: Mac, rest: seq<byte>)
    requires |head| == HEADER_LENGTH
    ensures var s := head + (HelloHeader(g, current, apparent) + rest);
            U16At(s, 32) == g && MacAt(s, 34) == current && MacAt(s, 40) == apparent && s[46..] == rest
  {
    var s := head + (HelloHeader(g, current, apparent) + rest);
    assert s[32..34] == Be16(g) && s[34..40] == current && s[40..46] == apparent;
    U16Slice(s, 32, g);
    MacSlice(s, 34);
    MacSlice(s, 40);
  }

  /** Decoding a Hello gives sequence 0, the generation and addresses of its Discover, and the exact property list. */
  lemma HelloRoundTrip(f: Frame, env: Env)
    ensures DecodeHello(Encode(Hello(f, env)))
         == Some(HelloInfo(f.header.tos, 0, env.station.mac, U16At(f.body, 0), f.header.realSource, f.header.ethSource,
                           HelloTlvs(env.station)))
  {
    var out := Hello(f, env);
    var tail := EncodeTlvs(HelloTlvs(env.station)) + [END_OF_PROPERTIES];
    var s := Encode(out);
    HeaderRoundTrip(out.header, out.body);
    assert out.body == HelloHeader(U16At(f.body, 0), f.header.realSource, f.header.ethSource) + tail;
    HelloUpperRoundTrip(EncodeHeader(out.header), U16At(f.body, 0), f.header.realSource, f.header.ethSource, tail);
    TlvsRoundTrip(HelloTlvs(env.station), []);
    assert tail + [] == tail;
  }

  lemma TwoTlvsLength(a: Tlv, b: Tlv)
    ensures |EncodeTlvs([a, b])| == 4 + |a.value| + |b.value|
  {
    assert [a, b][1..] == [b];
    EncodeOne(b);
  }

  lemma PairsLength(a: Tlv, b: Tlv, c: Tlv, d: Tlv)
    ensures |EncodeTlvs([a, b, c, d])| == 8 + |a.value| + |b.value| + |c.value| + |d.value|
  {
    assert [a, b, c, d] == [a, b] + [c, d];
    EncodeTlvsAppend([a, b], [c, d]);
    TwoTlvsLength(a, b);
    TwoTlvsLength(c, d);
  }

  lemma WifiLength(p: Station)
    ensures |EncodeTlvs(WifiTlvs(p))| == WifiSize(p)
  {
    if p.wifiMode.Some? {
      EncodeTlvsAppend(NetworkTlvs(p), RadioTlvs(p));
      EncodeTlvsAppend(ModeAndBssid(p), [NetworkTlvs(p)[|ModeAndBssid(p)|]]);
      EncodeOne(NetworkTlvs(p)[|ModeAndBssid(p)|]);
      EncodeTlvsAppend([ModeAndBssid(p)[0]], BssidTlvs(p));
      EncodeOne(ModeAndBssid(p)[0]);
      if p.bssid.Some? { EncodeOne(BssidTlvs(p)[0]); }
      TwoTlvsLength(RadioTlvs(p)[0], RadioTlvs(p)[1]);
    }
  }

  lemma TlvPartsLength(p: Station)
    ensures |EncodeTlvs(IdentityTlvs(p))| == IDENTITY_SIZE
    ensures |EncodeTlvs(AddressTlvs(p))| == AddressSize(p)
    ensures |EncodeTlvs(ClosingTlvs())| == CLOSING_SIZE
  {
    var i, a, c := IdentityTlvs(p), AddressTlvs(p), ClosingTlvs();
    PairsLength(i[0], i[1], i[2], i[3]);
    PairsLength(a[0], a[1], a[2], a[3]);
    EncodeTlvsAppend([c[0]], [c[1], c[2]]);
    assert [c[0]] + [c[1], c[2]] == c;
    EncodeOne(c[0]);
    TwoTlvsLength(c[1], c[2]);
  }

  /** The exact length of a Hello, which is at most 206 bytes; it is what BufferHolds asks of the MTU. */
  lemma HelloLength(f: Frame, env: Env)
    ensures |Encode(Hello(f, env))| == HELLO_OVERHEAD + HelloSize(env.station) <= 206
    ensures IsAnswered(f) ==> (BufferHolds(f, env) <==> |Encode(Hello(f, env))| <= Mtu(env))
  {
    var p := env.station;
    TlvPartsLength(p);
    WifiLength(p);
    EncodeTlvsAppend(IdentityTlvs(p), AddressTlvs(p));
    EncodeTlvsAppend(IdentityTlvs(p) + AddressTlvs(p), WifiTlvs(p));
    EncodeTlvsAppend(IdentityTlvs(p) + AddressTlvs(p) + WifiTlvs(p), ClosingTlvs());
  }

  /** The signal strength a reader sign-extends is the one the port reported. */
  lemma RssiRoundTrip(x: int8)
    ensures var w := U32At(Be32(TwosComplement32(x)), 0); x == if w >= 0x8000_0000 then w - 0x1_0000_0000 else w
  {
    var w := TwosComplement32(x);
    assert [] + Be32(w) + [] == Be32(w);
    U32RoundTrip([], w, []);
  }

  /** A Discover moves the generation slot of its own service and no other. */
  lemma GenerationSlots(st: Iface, f: Frame, env: Env)
    requires f.header.opcode == OPCODE_DISCOVER && Accepts(st, f)
    ensures var s := Parse(st, f, env).0;
            if f.header.tos == TOS_QUICK_DISCOVERY
            then s.genQuick == U16At(f.body, 0) && s.genTopology == st.genTopology
            else s.genTopology == U16At(f.body, 0) && s.genQuick == st.genQuick
  {
  }

  // ----- Emit -----------------------------------------------------------------------------------

  function EncodeEmitee(e: Emitee): (s: seq<byte>)
    ensures |s| == EMITEE_LENGTH
  {
    [e.kind, e.pause] + e.source + e.dest
  }

  function EncodeEmitees(es: seq<Emitee>): (s: seq<byte>)
    ensures |s| == EMITEE_LENGTH * |es|
  {
    if es == [] then [] else EncodeEmitees(es[..|es| - 1]) + EncodeEmitee(es[|es| - 1])
  }

  /** The body of an Emit. */
  function EncodeEmit(es: seq<Emitee>): seq<byte>
    requires |es| < 0x1_0000
  {
    Be16(|es|) + EncodeEmitees(es)
  }

  lemma {:induction false} EmiteesPrefix(es: seq<Emitee>, i: nat)
    requires i < |es|
    ensures EncodeEmitees(es)[EMITEE_LENGTH * i..EMITEE_LENGTH * (i + 1)] == EncodeEmitee(es[i])
    decreases |es|
  {
    var n := |es| - 1;
    if i < n {
      EmiteesPrefix(es[..n], i);
      assert EncodeEmitees(es)[..EMITEE_LENGTH * n] == EncodeEmitees(es[..n]);
      assert EncodeEmitees(es)[EMITEE_LENGTH * i..EMITEE_LENGTH * (i + 1)]
          == EncodeEmitees(es[..n])[EMITEE_LENGTH * i..EMITEE_LENGTH * (i + 1)];
    }
  }

  lemma EmiteeIn(pre: seq<byte>, e: Emitee, post: seq<byte>)
    ensures var s, o := pre + EncodeEmitee(e) + post, |pre|;
            Emitee(ByteAt(s, o), ByteAt(s, o + 1), MacAt(s, o + 2), MacAt(s, o + 8)) == e
  {
    var s, o := pre + EncodeEmitee(e) + post, |pre|;
    var t := s[o..o + EMITEE_LENGTH];
    assert t == EncodeEmitee(e);
    assert t[0] == s[o] && t[1] == s[o + 1];
    assert s[o + 2..o + 8] == t[2..8] == e.source;
    assert s[o + 8..o + 14] == t[8..14] == e.dest;
    MacSlice(s, o + 2);
    MacSlice(s, o + 8);
  }

  /** An entry is read back as long as its offset fits the 16-bit running offset, which is entry 4681 and below. */
  lemma EmiteeRoundTrip(es: seq<Emitee>, i: nat)
    requires i < |es| < 0x1_0000 && i <= 4681
    ensures EmiteeAt(EncodeEmit(es), i) == es[i]
  {
    var s, o := EncodeEmit(es), 2 + EMITEE_LENGTH * i;
    EmiteesPrefix(es, i);
    EmiteeOffsetWrapsIff(i);
    assert s[2..] == EncodeEmitees(es);
    assert s[o..o + EMITEE_LENGTH] == s[2..][EMITEE_LENGTH * i..EMITEE_LENGTH * (i + 1)];
    assert s == s[..o] + EncodeEmitee(es[i]) + s[o + EMITEE_LENGTH..];
    EmiteeIn(s[..o], es[i], s[o + EMITEE_LENGTH..]);
  }

  /** Beyond it the offset has wrapped and another place is read. */
  lemma EmiteeOffsetWrapsIff(i: nat)
    ensures (EMITEE_LENGTH * i) % 0x1_0000 != EMITEE_LENGTH * i <==> i > 4681
  {
  }

  /** The Probes and Trains a list of entries asks for, in order, unknown kinds skipped. */
  function ProbesOf(es: seq<Emitee>, m: Mapper, env: Env): seq<Frame> {
    if es == [] then []
    else
      var e := es[|es| - 1];
      ProbesOf(es[..|es| - 1], m, env) + (if KnownKind(e) then [ProbeFrame(e, m, env)] else [])
  }

  lemma EmitCount(es: seq<Emitee>)
    requires |es| < 0x1_0000
    ensures U16At(EncodeEmit(es), 0) == |es|
  {
    U16RoundTrip([], |es|, EncodeEmitees(es));
    assert [] + Be16(|es|) + EncodeEmitees(es) == EncodeEmit(es);
  }

  lemma {:induction false} EmitPrefix(f: Frame, es: seq<Emitee>, i: nat, m: Mapper, env: Env)
    requires i < |es| <= 4682 && f.body == EncodeEmit(es)
    ensures EmitFirst(f, i, m, env) == ProbesOf(es[..i], m, env)
    decreases i
  {
    EmitCount(es);
    if i > 0 {
      EmitPrefix(f, es, i - 1, m, env);
      EmiteeRoundTrip(es, i - 1);
      assert es[..i][..i - 1] == es[..i - 1];
    }
  }

  /** What an Emit of a list of entries should send: their frames in order, and an Ack after a known last entry. */
  function EmitOwed(st: Iface, f: Frame, es: seq<Emitee>, env: Env): seq<Frame> {
    var m := Lock(st.mapper, f).value;
    ProbesOf(es, m, env) + (if es != [] && KnownKind(es[|es| - 1]) then [AckFrame(m, f.header.seqNumber, env)] else [])
  }

  /** An Emit of at most 4682 entries sends that. */
  lemma EmitRefines(st: Iface, f: Frame, es: seq<Emitee>, env: Env)
    requires f.header.tos == TOS_DISCOVERY && f.header.opcode == OPCODE_EMIT
    requires |es| <= 4682 && f.body == EncodeEmit(es)
    ensures Parse(st, f, env).1 == EmitOwed(st, f, es, env)
  {
    var m := Lock(st.mapper, f).value;
    EmitCount(es);
    if es != [] {
      var n := |es| - 1;
      EmitPrefix(f, es, n, m, env);
      EmiteeRoundTrip(es, n);
      assert EmitFirst(f, |es|, m, env)
          == EmitFirst(f, n, m, env) + EmitOne(es[n], true, m, f.header.seqNumber, env);
    }
  }

  /** Entries of the known kind 0 whose bytes, read twelve places late, have the unknown kind 5. */
  function Entries(n: nat): (es: seq<Emitee>)
    ensures |es| == n
  {
    seq(n, i => Emitee(0, 0, ZERO_MAC, [0, 0, 0, 0, 5, 5]))
  }

  lemma FirstEntryByte(es: seq<Emitee>)
    requires 0 < |es| < 0x1_0000
    ensures ByteAt(EncodeEmit(es), 14) == es[0].dest[4]
  {
    var t := EncodeEmitees(es);
    EmiteesPrefix(es, 0);
    assert t[0..EMITEE_LENGTH][12] == t[12];
    assert EncodeEmitee(es[0])[12] == es[0].dest[4];
    assert EncodeEmit(es)[14] == t[12];
  }

  /** Entry 4682 is read at byte 14, inside the first entry. */
  lemma WrappedEntryIsUnknown(n: nat)
    requires 4682 < n < 0x1_0000
    ensures !KnownKind(EmiteeAt(EncodeEmit(Entries(n)), 4682))
  {
    FirstEntryByte(Entries(n));
    assert EmiteeAt(EncodeEmit(Entries(n)), 4682).kind == ByteAt(EncodeEmit(Entries(n)), 14);
  }

  lemma EmitGrowsBy(f: Frame, i: nat, m: Mapper, env: Env)
    requires i > 0
    ensures |EmitFirst(f, i, m, env)|
         == |EmitFirst(f, i - 1, m, env)|
            + if !KnownKind(EmiteeAt(f.body, i - 1)) then 0 else if i == U16At(f.body, 0) then 2 else 1
  {
  }

  /** An entry that sends nothing is missing from the count. */
  lemma {:induction false} EmitShort(f: Frame, n: nat, i: nat, m: Mapper, env: Env)
    requires U16At(f.body, 0) == n && !KnownKind(EmiteeAt(f.body, 4682)) && i <= n
    ensures |EmitFirst(f, i, m, env)| <= i + (if i == n then 1 else 0) - (if i > 4682 then 1 else 0)
    decreases i
  {
    if i > 0 {
      EmitShort(f, n, i - 1, m, env);
      EmitGrowsBy(f, i, m, env);
    }
  }

  lemma {:induction false} EntriesProbes(n: nat, m: Mapper, env: Env)
    ensures |ProbesOf(Entries(n), m, env)| == n
  {
    if n > 0 {
      assert Entries(n)[..n - 1] == Entries(n - 1);
      EntriesProbes(n - 1, m, env);
    }
  }

  /** Longer lists break it: for each length there is one whose Emit leaves a frame out. */
  lemma EmitBreaks(st: Iface, f: Frame, n: nat, env: Env)
    requires f.header.tos == TOS_DISCOVERY && f.header.opcode == OPCODE_EMIT
    requires 4682 < n < 0x1_0000 && f.body == EncodeEmit(Entries(n))
    ensures |Parse(st, f, env).1| < |EmitOwed(st, f, Entries(n), env)|
  {
    var m := Lock(st.mapper, f).value;
    EmitCount(Entries(n));
    WrappedEntryIsUnknown(n);
    EmitShort(f, n, n, m, env);
    EntriesProbes(n, m, env);
    assert Entries(n)[n - 1].kind == 0;
  }

  /** Exactly the lengths for which every list of entries is answered as it should be. */
  lemma EmitLengthIff(st: Iface, h: Header, n: nat, env: Env)
    requires h.tos == TOS_DISCOVERY && h.opcode == OPCODE_EMIT && n < 0x1_0000
    ensures (forall es | |es| == n :: Parse(st, Frame(h, EncodeEmit(es)), env).1 == EmitOwed(st, Frame(h, EncodeEmit(es)), es, env))
       <==> n <= 4682
  {
    if n <= 4682 {
      forall es | |es| == n
        ensures Parse(st, Frame(h, EncodeEmit(es)), env).1 == EmitOwed(st, Frame(h, EncodeEmit(es)), es, env)
      {
        EmitRefines(st, Frame(h, EncodeEmit(es)), es, env);
      }
    } else {
      EmitBreaks(st, Frame(h, EncodeEmit(Entries(n))), n, env);
    }
  }

  /** None of the entries' frames is an Ack. */
  lemma {:induction false} ProbesAreNoAcks(es: seq<Emitee>, m: Mapper, env: Env)
    ensures forall k | 0 <= k < |ProbesOf(es, m, env)| :: ProbesOf(es, m, env)[k].header.opcode in {OPCODE_PROBE, OPCODE_TRAIN}
  {
    if es != [] { ProbesAreNoAcks(es[..|es| - 1], m, env); }
  }

  // ----- Query ----------------------------------------------------------------------------------

  function DescAt(s: seq<byte>, o: nat): ProbeDesc {
    ProbeDesc(U16At(s, o), MacAt(s, o + 2), MacAt(s, o + 8), MacAt(s, o + 14))
  }

  function DecodeDescs(s: seq<byte>, n: nat): seq<ProbeDesc> {
    if n == 0 then [] else DecodeDescs(s, n - 1) + [DescAt(s, DESC_LENGTH * (n - 1))]
  }

  lemma DescRoundTrip(pre: seq<byte>, d: ProbeDesc, post: seq<byte>)
    ensures DescAt(pre + EncodeDesc(d) + post, |pre|) == d
  {
    var s, o := pre + EncodeDesc(d) + post, |pre|;
    var t := s[o..o + DESC_LENGTH];
    assert t == EncodeDesc(d);
    assert s[o..o + 2] == t[..2] == Be16(d.kind);
    assert s[o + 2..o + 8] == t[2..8] == d.realSource && s[o + 8..o + 14] == t[8..14] == d.source;
    assert s[o + 14..o + 20] == t[14..20] == d.dest;
    U16Slice(s, o, d.kind);
    MacSlice(s, o + 2);
    MacSlice(s, o + 8);
    MacSlice(s, o + 14);
  }

  lemma {:induction false} DescsRoundTrip(ds: seq<ProbeDesc>, post: seq<byte>)
    ensures DecodeDescs(EncodeDescs(ds) + post, |ds|) == ds
  {
    if ds != [] {
      var n := |ds| - 1;
      var c, d := EncodeDescs(ds[..n]), EncodeDesc(ds[n]);
      assert EncodeDescs(ds) == c + d;
      assert c + d + post == c + (d + post);
      DescsRoundTrip(ds[..n], d + post);
      DescRoundTrip(c, ds[n], post);
      assert ds[..n] + [ds[n]] == ds;
    }
  }

  lemma DescListRoundTrip(head: seq<byte>, n: u16, ds: seq<ProbeDesc>)
    requires |head| == HEADER_LENGTH && |ds| == n
    ensures var r := head + (Be16(n) + EncodeDescs(ds));
            && U16At(r, HEADER_LENGTH) == n
            && |r| == QUERY_RESP_OVERHEAD + DESC_LENGTH * n
            && DecodeDescs(r[QUERY_RESP_OVERHEAD..], n) == ds
  {
    var r := head + (Be16(n) + EncodeDescs(ds));
    assert r == head + Be16(n) + EncodeDescs(ds);
    U16RoundTrip(head, n, EncodeDescs(ds));
    assert r[QUERY_RESP_OVERHEAD..] == EncodeDescs(ds) + [];
    DescsRoundTrip(ds, []);
  }

  lemma NumDescsFits(log: seq<ProbeDesc>, mtu: nat)
    ensures mtu >= QUERY_RESP_OVERHEAD ==> QUERY_RESP_OVERHEAD + DESC_LENGTH * NumDescs(log, mtu) <= mtu
    ensures MaxDescs(mtu) < 0x1_0000 ==> NumDescs(log, mtu) == if |log| > MaxDescs(mtu) then MaxDescs(mtu) else |log|
  {
  }

  /** A QueryResp declares as many descriptors as it carries, carries the newest of the log, and fits the MTU. */
  lemma QueryRespDecodes(st: Iface, f: Frame, env: Env)
    ensures var r := Encode(QueryResp(st, f, env));
            var n := U16At(r, HEADER_LENGTH);
            && n <= |st.log|
            && |r| == QUERY_RESP_OVERHEAD + DESC_LENGTH * n
            && (Mtu(env) >= QUERY_RESP_OVERHEAD ==> |r| <= Mtu(env))
            && DecodeDescs(r[QUERY_RESP_OVERHEAD..], n) == st.log[..n]
            && (MaxDescs(Mtu(env)) < 0x1_0000 ==> n == if |st.log| > MaxDescs(Mtu(env)) then MaxDescs(Mtu(env)) else |st.log|)
  {
    var q, n := QueryResp(st, f, env), NumDescs(st.log, Mtu(env));
    assert Encode(q) == EncodeHeader(q.header) + (Be16(n) + EncodeDescs(st.log[..n]));
    DescListRoundTrip(EncodeHeader(q.header), n, st.log[..n]);
    NumDescsFits(st.log, Mtu(env));
  }

  // ----- interfaces side by side ----------------------------------------------------------------

  /** Whatever other interfaces receive, an interface sends what its own frames alone make it send. */
  lemma InterfacesAreIsolated(ins: seq<(int, Input)>, ctx: int)
    ensures Only(Sent(KeyedStep(Respond, FRESH), map[], ins), ctx) == Sent(Respond, FRESH, Only(ins, ctx))
    ensures At(Run(KeyedStep(Respond, FRESH), map[], ins), FRESH, ctx) == Run(Respond, FRESH, Only(ins, ctx))
  {
    Isolation(Respond, FRESH, ins, ctx);
  }
}
