/** Fetching the icon with QueryLargeTlv: the mapper's loop against the responder, other traffic in between. */
module Transfer {
  import opened Protocol
  import opened Wire
  import opened Wrappers
  import opened TlvOps
  import opened ResponderSpec
  import opened ResponderProperties
  import opened Machine
  import opened Download

  /** What a reader takes from a response: its declared bytes, and whether it is told to ask again. */
  function ReadPart(r: seq<byte>): Part {
    var w := U16At(r, HEADER_LENGTH);
    var n := w % 0x8000;
    Part(if QUERY_RESP_OVERHEAD + n <= |r| then r[QUERY_RESP_OVERHEAD..QUERY_RESP_OVERHEAD + n] else [], w >= 0x8000)
  }

  /** The 15 bits left beside the flag hold the length exactly when fewer than 32768 bytes are carried. */
  lemma LengthFieldIff(data: seq<byte>, f: Frame, env: Env)
    ensures var offset, payload := U16At(f.body, 2), MaxPayload(Mtu(env));
            ReadPart(Encode(LargeTlvResp(data, f, env))) == PartOf(data, offset, payload)
            <==> |PartOf(data, offset, payload).bytes| < 0x8000
  {
    var offset, payload := U16At(f.body, 2), MaxPayload(Mtu(env));
    var (bytes, length) := Chunk(data, offset, payload);
    var out := LargeTlvResp(data, f, env);
    var head := EncodeHeader(out.header);
    var r := Encode(out);
    assert r == head + Be16(length) + bytes;
    U16RoundTrip(head, length, bytes);
    assert r[QUERY_RESP_OVERHEAD..] == bytes;
    assert bytes == PartOf(data, offset, payload).bytes;
    if |bytes| < 0x8000 {
      assert length % 0x8000 == |bytes|;
      assert r[QUERY_RESP_OVERHEAD..QUERY_RESP_OVERHEAD + |bytes|] == bytes;
    } else {
      assert length % 0x8000 < |bytes|;
    }
  }

  /** The mapper's turn: a request under some header, answered in some environment, then other frames. */
  datatype Turn = Turn(header: Header, env: Env, noise: seq<Input>)

  function Request(t: Turn, offset: u16): Input {
    Input(Frame(t.header, [TLV_ICON_IMAGE, 0] + Be16(offset)), t.env)
  }

  predicate IsTurn(t: Turn, mtu: nat) {
    && t.header.opcode == OPCODE_QUERY_LARGE_TLV
    && (t.header.tos == TOS_DISCOVERY || t.header.tos == TOS_QUICK_DISCOVERY)
    && t.header.seqNumber != 0
    && Mtu(t.env) == mtu
    && forall x | x in t.noise :: !IsTopologyReset(x.frame)
  }

  function PartIn(out: seq<Frame>): Part {
    if out == [] then Part([], false) else ReadPart(Encode(out[0]))
  }

  /** The interface as a server: the response it gives, and the state the turn's other frames leave. */
  function Answer(st: Iface, offset: u16, t: Turn): (Iface, Part) {
    var r := Respond(st, Request(t, offset));
    (Run(Respond, r.0, t.noise), PartIn(r.1))
  }

  /** The icon is cached, or will be by this turn's request. */
  predicate HasIcon(st: Iface, t: Turn, icon: seq<byte>) {
    OrElse(st.icon, t.env.icon) == Some(icon)
  }

  lemma IconStepKept(st: Iface, x: Input)
    requires st.icon.Some? && !IsTopologyReset(x.frame)
    ensures Respond(st, x).0.icon == st.icon
  {
  }

  /** Only a topology Reset drops a cached icon. */
  lemma {:induction false} IconKept(st: Iface, ins: seq<Input>)
    requires st.icon.Some? && forall x | x in ins :: !IsTopologyReset(x.frame)
    ensures Run(Respond, st, ins).icon == st.icon
  {
    if ins != [] {
      var c, x := ins[..|ins| - 1], ins[|ins| - 1];
      assert ins == c + [x] && x in ins && forall y | y in c :: y in ins;
      IconKept(st, c);
      RunSnoc(Respond, st, c, x);
      IconStepKept(Run(Respond, st, c), x);
    }
  }

  lemma RequestSays(t: Turn, offset: u16)
    ensures var b := Request(t, offset).frame.body; ByteAt(b, 0) == TLV_ICON_IMAGE && U16At(b, 2) == offset
  {
    assert [TLV_ICON_IMAGE, 0] + Be16(offset) + [] == [TLV_ICON_IMAGE, 0] + Be16(offset);
    U16RoundTrip([TLV_ICON_IMAGE, 0], offset, []);
  }

  lemma IconRequest(st: Iface, offset: u16, t: Turn, icon: seq<byte>, mtu: nat)
    requires IsTurn(t, mtu) && HasIcon(st, t, icon)
    ensures var x := Request(t, offset);
            && Respond(st, x).0.icon == Some(icon)
            && Respond(st, x).1 == [LargeTlvResp(icon, x.frame, x.env)]
            && U16At(x.frame.body, 2) == offset
  {
    var x := Request(t, offset);
    RequestSays(t, offset);
    assert Respond(st, x) == OnQueryLargeTlv(st, x.frame, x.env);
  }

  lemma PayloadOfMtu(mtu: nat)
    requires 35 <= mtu <= 32801
    ensures MaxPayload(mtu) == mtu - QUERY_RESP_OVERHEAD < 0x8000
  {
  }

  lemma PartIsShort(data: seq<byte>, offset: nat, payload: nat)
    ensures |PartOf(data, offset, payload).bytes| <= payload
  {
  }

  /** For a payload below 32768 a response reads as the part asked for. */
  lemma ResponseReads(icon: seq<byte>, f: Frame, env: Env, offset: u16, mtu: nat)
    requires Mtu(env) == mtu && 35 <= mtu <= 32801 && U16At(f.body, 2) == offset
    ensures PartIn([LargeTlvResp(icon, f, env)]) == PartOf(icon, offset, mtu - QUERY_RESP_OVERHEAD)
  {
    PayloadOfMtu(mtu);
    PartIsShort(icon, offset, mtu - QUERY_RESP_OVERHEAD);
    LengthFieldIff(icon, f, env);
  }

  /** One turn conveys one part of the icon and leaves it cached. */
  lemma OneTurn(st: Iface, offset: u16, t: Turn, icon: seq<byte>, mtu: nat)
    requires IsTurn(t, mtu) && 35 <= mtu <= 32801 && HasIcon(st, t, icon)
    ensures Answer(st, offset, t).0.icon == Some(icon)
    ensures Answer(st, offset, t).1 == PartOf(icon, offset, mtu - QUERY_RESP_OVERHEAD)
  {
    var x := Request(t, offset);
    var r := Respond(st, x);
    IconRequest(st, offset, t, icon, mtu);
    ResponseReads(icon, x.frame, x.env, offset, mtu);
    IconKept(r.0, t.noise);
  }

  function WithIcon(icon: seq<byte>): (Iface, Turn) -> bool { (s: Iface, t: Turn) => HasIcon(s, t, icon) }

  function AtMtu(mtu: nat): Turn -> bool { (t: Turn) => IsTurn(t, mtu) }

  /** The interface serves the icon, whatever comes between the requests. */
  lemma IconIsServed(icon: seq<byte>, mtu: nat)
    requires 35 <= mtu <= 32801
    ensures Serves(Answer, WithIcon(icon), AtMtu(mtu), icon, mtu - QUERY_RESP_OVERHEAD)
  {
    forall s, o: u16, t | AtMtu(mtu)(t) && WithIcon(icon)(s, t)
      ensures Answer(s, o, t).1 == PartOf(icon, o, mtu - QUERY_RESP_OVERHEAD)
      ensures forall u :: WithIcon(icon)(Answer(s, o, t).0, u)
    {
      OneTurn(s, o, t, icon, mtu);
    }
  }

  /** With the icon cached, or first fetched now, the mapper fetches what the icon alone determines. */
  lemma IconIsRead(st: Iface, turns: seq<Turn>, icon: seq<byte>, mtu: nat)
    requires 35 <= mtu <= 32801 && forall k | 0 <= k < |turns| :: IsTurn(turns[k], mtu)
    requires st.icon == Some(icon) || (st.icon == None && (turns != [] ==> turns[0].env.icon == Some(icon)))
    ensures Gather(Answer, st, 0, turns) == Read(icon, mtu - QUERY_RESP_OVERHEAD, 0, |turns|)
  {
    IconIsServed(icon, mtu);
    assert turns != [] ==> HasIcon(st, turns[0], icon);
    GatherIsRead(Answer, WithIcon(icon), AtMtu(mtu), icon, mtu - QUERY_RESP_OVERHEAD, st, 0, turns);
  }

  /**
   * For a payload of at most 32767 bytes a mapper of any number of turns ends with exactly the icon if and only
   * if it has as many as the size takes and the last offset of these fits its 16 bits, as it does for every icon
   * of at most 65536 bytes, whatever other frames but a topology Reset come in between.
   */
  lemma IconReassemblesIff(st: Iface, turns: seq<Turn>, icon: seq<byte>, mtu: nat)
    requires 35 <= mtu <= 32801 && forall k | 0 <= k < |turns| :: IsTurn(turns[k], mtu)
    requires st.icon == Some(icon) || (st.icon == None && (turns != [] ==> turns[0].env.icon == Some(icon)))
    ensures var p := mtu - QUERY_RESP_OVERHEAD;
            var n, g := Requests(|icon|, p), Read(icon, p, 0, |turns|);
            && Gather(Answer, st, 0, turns) == g
            && (g.done && g.bytes == icon <==> n <= |turns| && (n - 1) * p < 0x1_0000)
            && (g.done && g.bytes == icon ==> g.requests == n)
            && (g.done && g.bytes != icon ==> |g.bytes| > |icon|)
            && (|icon| <= 0x1_0000 ==> (n - 1) * p < 0x1_0000)
            && |icon| <= n * p && (n > 1 ==> (n - 1) * p < |icon|)
  {
    IconIsRead(st, turns, icon, mtu);
    ReassemblesIff(icon, mtu - QUERY_RESP_OVERHEAD, |turns|);
  }
}
