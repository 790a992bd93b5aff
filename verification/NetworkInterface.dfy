/**
 * The receive loop's interface record and its rounds, in the form of the code: records updated in
 * place, proved against LoopSpec.
 */
module DarwinLoop {
  import opened Protocol
  import opened Wire
  import opened Sessions
  import opened Automata
  import opened RepeatBand
  import opened LoopSpec
  import opened LoopRuns
  import opened LoopProperties
  import opened Wrappers
  import opened ResponderSpec
  import opened Responder
  import Machine

  /** derive_session_event; the NULL-pointer branches cannot be taken from the loop. */
  method DeriveSessionEvent(f: Frame, table: SessionTable, ourMac: Mac) returns (event: int)
    requires table.Valid()
    ensures event == DeriveEvent(f, table.Contents(), ourMac)
  {
    if f.header.opcode == OPCODE_RESET {
      if SameAddress(f.header.realDest, BROADCAST) {
        return SESS_TOPO_RESET;
      }
      return SESS_RESET;
    }
    if f.header.opcode == OPCODE_HELLO {
      return SESS_HELLO;
    }
    if f.header.opcode == OPCODE_DISCOVER {
      var xid := f.header.seqNumber;
      var existing := table.Find(Key(f.header.realSource, U16At(f.body, 0)));
      var acking := false;
      var stationCount := U16At(f.body, 2);
      if stationCount == 0 {
        acking := true;
      } else {
        for i := 0 to stationCount
          invariant !acking
          invariant forall j | 0 <= j < i :: StationAt(f, j) != ourMac
        {
          if SameAddress(MacAt(f.body, 4 + 14 * i + 6), ourMac) {
            acking := true;
            assert StationAt(f, i) == ourMac;
            break;
          }
        }
      }
      var changedXid := existing != -1 && table.entries[existing].session.seqNumber != xid;
      if existing != -1 && !SameAddress(table.entries[existing].key.mac, f.header.realSource) {
        return SESS_DISCOVER_CONFLICTING;
      }
      if acking {
        return if changedXid then SESS_DISCOVER_ACKING_CHGD_XID else SESS_DISCOVER_ACKING;
      }
      return if changedXid then SESS_DISCOVER_NOACK_CHGD_XID else SESS_DISCOVER_NOACK;
    }
    return -1;
  }

  class NetworkInterface {
    const macAddress: Mac
    const mapping: Automaton
    const enumeration: Automaton
    const session: Automaton
    const mappingState: MappingState
    const band: BandState
    const table: SessionTable
    var lastHelloTxMs: nat
    var mapperHwAddress: Mac
    var mapperGenerationTopology: u16
    var mapperGenerationQuick: u16

    /** The Hellos sendHelloMessage has been asked to send, in order. */
    var hellos: seq<HelloTx>

    ghost function Repr(): set<object> {
      {this, mapping, enumeration, session, mappingState, band, table, table.entries}
    }

    /** Structure only; the properties of the contents are those of the runs. */
    ghost predicate Valid()
      reads Repr()
    {
      && mapping != enumeration && mapping != session && enumeration != session
      && mapping.IsMapping() && enumeration.IsEnumeration() && session.IsSession()
      && table.Valid() && table.allComplete == AllComplete(table.Contents())
    }

    ghost function View(): State
      reads Repr()
    {
      State(mapping.View(), mappingState.View(), enumeration.View(), band.View(), session.View(), table.Contents(),
            Info(lastHelloTxMs, mapperHwAddress, mapperGenerationTopology, mapperGenerationQuick))
    }

    /** deviceAppeared: a zeroed record, the three automata and an empty table. */
    constructor (mac: Mac, t: nat)
      ensures Valid() && fresh(Repr()) && macAddress == mac
      ensures View() == Initial(t) && hellos == []
    {
      macAddress := mac;
      mapping := new Automaton.Mapping(Seconds(t));
      session := new Automaton.Session(Seconds(t));
      enumeration := new Automaton.Enumeration(Seconds(t));
      mappingState := new MappingState();
      band := new BandState();
      table := new SessionTable();
      lastHelloTxMs, mapperHwAddress, mapperGenerationTopology, mapperGenerationQuick := 0, ZERO_MAC, 0, 0;
      hellos := [];
    }

    /** The session table's part of a received Discover; false when the table is full. */
    method NoteSession(f: Frame, event: int, now: nat) returns (found: bool)
      requires Valid() && f.header.opcode == OPCODE_DISCOVER
      requires event == DiscoverEvent(f, table.Contents(), macAddress)
      modifies table, table.entries
      ensures Valid()
      ensures found <==> KeyOf(f) in old(table.Contents()) || |old(table.Contents())| != MAX_ENTRIES
      ensures View() == old(View()).(table := Discovered(old(View()).table, f, macAddress, now))
    {
      var slot := table.Add(Key(f.header.realSource, U16At(f.body, 0)), f.header.seqNumber, now);
      found := slot != -1;
      if found {
        var complete := event == SESS_DISCOVER_ACKING || event == SESS_DISCOVER_ACKING_CHGD_XID;
        assert complete <==> Acknowledges(f, macAddress);
        table.Note(slot, event, now, complete);
      }
      table.UpdateCompleteStatus();
      assert table.Contents() == Discovered(old(table.Contents()), f, macAddress, now);
    }

    /** The table and address part of a received Discover. */
    method NoteDiscover(f: Frame, event: int, now: nat)
      requires Valid() && f.header.opcode == OPCODE_DISCOVER
      requires event == DeriveEvent(f, table.Contents(), macAddress)
      modifies this`mapperHwAddress, this`mapperGenerationTopology, this`mapperGenerationQuick, table, table.entries
      ensures Valid()
      ensures View() == old(View()).(table := TableAfter(old(View()), f, macAddress, now), info := InfoAfter(old(View()), f))
    {
      var generation := U16At(f.body, 0);
      var found := NoteSession(f, event, now);
      if found {
        mapperHwAddress := f.header.realSource;
        if f.header.tos == TOS_QUICK_DISCOVERY {
          mapperGenerationQuick := generation;
        } else {
          mapperGenerationTopology := generation;
        }
      }
    }

    /** The enumeration part of a received Hello or Discover. */
    method NoteEnumeration(f: Frame, t: nat)
      requires Valid()
      modifies enumeration, band
      ensures Valid()
      ensures View() == old(View()).(enumeration := EnumerationAfter(old(View()).enumeration, f, Seconds(t)),
                                     band := BandAfter(old(View()), f, t))
    {
      if f.header.opcode == OPCODE_HELLO {
        band.HelloReceived();
        enumeration.SwitchEnumerationState(ENUM_HELLO, Seconds(t));
      } else if f.header.opcode == OPCODE_DISCOVER {
        if enumeration.currentState == QUIESCENT {
          band.InitStatistics(t);
          band.ChooseTime(t);
        } else {
          band.begun := true;
        }
        enumeration.SwitchEnumerationState(ENUM_NEW_SESSION, Seconds(t));
      }
    }

    /** The mapping part of a received frame: leaving the mapping session ends its table. */
    method NoteMapping(f: Frame, now: nat)
      requires Valid() && mapping.lastTs <= now
      modifies mapping, table, table.entries
      ensures Valid()
      ensures var was := old(View());
              var next := SwitchMapping(was.mapping, f.header.opcode, now);
              View() == was.(mapping := next,
                             table := if was.mapping.state != QUIESCENT && next.state == QUIESCENT then map[] else was.table)
    {
      var prevMappingState := mapping.currentState;
      mapping.SwitchMappingState(f.header.opcode, now);
      if prevMappingState != QUIESCENT && mapping.currentState == QUIESCENT {
        table.Clear();
      }
    }

    /** The timer and session-automaton part of a received frame. */
    method NoteTimers(f: Frame, event: int, now: nat)
      requires Valid() && session.lastTs <= now
      modifies mappingState, session
      ensures Valid()
      ensures View() == old(View()).(
                timers := TimersAfter(old(View()).timers, f, now),
                session := if event >= 0 then SwitchSession(old(View()).session, event, now) else old(View()).session)
    {
      mappingState.ArmInactive(now);
      if f.header.opcode == OPCODE_CHARGE {
        mappingState.Charge(now);
      }
      if event >= 0 {
        session.SwitchSessionState(event, now);
      }
    }

    /** lltdLoop on a received frame, up to the call of parseFrame. */
    method NoteFrame(f: Frame, t: nat)
      requires Valid() && ClockOk(View(), t)
      modifies Repr() - {this}, this`mapperHwAddress, this`mapperGenerationTopology, this`mapperGenerationQuick
      ensures Valid()
      ensures View() == OnFrame(old(View()), f, macAddress, t)
    {
      var now := Seconds(t);
      var event := DeriveSessionEvent(f, table, macAddress);
      if f.header.opcode == OPCODE_DISCOVER {
        NoteDiscover(f, event, now);
      } else if f.header.opcode == OPCODE_RESET {
        table.Clear();
      }
      NoteMapping(f, now);
      NoteTimers(f, event, now);
      NoteEnumeration(f, t);
    }

    /** automata_tick: the mapping timers. */
    method TickMappingTimers(now: nat)
      requires Valid() && mapping.lastTs <= now
      modifies mapping, mappingState, table, table.entries
      ensures Valid()
      ensures View() == TickInactive(old(View()), now)
    {
      if mappingState.inactiveTimeoutTs != 0 && now >= mappingState.inactiveTimeoutTs {
        mappingState.inactiveTimeoutTs := 0;
        mapping.SwitchMappingState(TIMEOUT_INPUT, now);
        mappingState.ResetChargeTimer();
        table.Clear();
      }
      var due := mappingState.CheckCharge(now);
    }

    /** automata_tick: enumeration follows the table. */
    method TickEnumerationState(now: nat)
      requires Valid()
      modifies enumeration, band
      ensures Valid()
      ensures View() == TickEnumeration(old(View()), now)
    {
      var tableEmpty := table.IsEmpty();
      var allComplete := table.allComplete;
      if enumeration.currentState != QUIESCENT {
        if tableEmpty {
          enumeration.currentState := QUIESCENT;
          band.helloTimeoutTs := 0;
          band.blockTimeoutTs := 0;
          band.begun := false;
        } else if allComplete {
          enumeration.SwitchEnumerationState(ENUM_SESS_COMPLETE, now);
        } else {
          enumeration.SwitchEnumerationState(ENUM_SESS_NOT_COMPLETE, now);
        }
      }
    }

    /** automata_tick: the Hello deadline and its suppression. */
    method TickHelloDeadline(t: nat)
      requires Valid() && lastHelloTxMs <= t
      modifies enumeration, band, this`lastHelloTxMs, this`hellos
      ensures Valid()
      ensures View() == TickHello(old(View()), t)
      ensures hellos == old(hellos) + if SendsHello(old(View()), t) then [HelloTx(t, mapperHwAddress, mapperGenerationTopology)] else []
    {
      if enumeration.currentState == PAUSING {
        if band.helloTimeoutTs > 0 && t >= band.helloTimeoutTs {
          var lastTx := lastHelloTxMs;
          if lastTx > 0 && t - lastTx < HELLO_MIN_INTERVAL_MS {
            band.helloTimeoutTs := lastTx + HELLO_MIN_INTERVAL_MS;
          } else {
            hellos := hellos + [HelloTx(t, mapperHwAddress, mapperGenerationTopology)];
            lastHelloTxMs := t;
            band.DoHelloNow(t);
            if band.helloTimeoutTs < t + HELLO_MIN_INTERVAL_MS {
              band.helloTimeoutTs := t + HELLO_MIN_INTERVAL_MS;
            }
            enumeration.SwitchEnumerationState(ENUM_HELLO, Seconds(t));
          }
        }
      }
    }

    /** automata_tick: the block deadline. */
    method TickBlockDeadline(t: nat)
      requires Valid()
      modifies band
      ensures Valid()
      ensures View() == TickBlock(old(View()), t)
    {
      if enumeration.currentState == PAUSING {
        if band.blockTimeoutTs > 0 && t >= band.blockTimeoutTs {
          band.UpdateStatistics(t);
          band.ChooseTime(t);
        }
      }
    }

    /** automata_tick */
    method AutomataTick(t: nat)
      requires Valid() && ClockOk(View(), t)
      modifies Repr() - {session, this}, this`lastHelloTxMs, this`hellos
      ensures Valid()
      ensures View() == Tick(old(View()), t)
      ensures hellos == old(hellos) + TickHellos(old(View()), t)
    {
      var now := Seconds(t);
      TickMappingTimers(now);
      table.ExpireSessions(now);
      TickEnumerationState(now);
      assert View() == BeforeHello(old(View()), t);
      TickHelloDeadline(t);
      TickBlockDeadline(t);
    }

    /** A round of lltdLoop without a frame. */
    method OnTimeout(tickAt: nat, ghost t: nat)
      requires Valid() && Inv(View(), t) && t <= tickAt
      modifies Repr()
      ensures Valid() && View() == Step(old(View()), t, Silence(tickAt), macAddress)
      ensures hellos == old(hellos) + StepHellos(old(View()), t, Silence(tickAt), macAddress)
    {
      AutomataTick(tickAt);
    }

    /** The call of parseFrame: the parser and the automata share no state. */
    method CallParser(f: Frame, ctx: int, env: Env, list: InterfaceList, port: Port, ghost world: map<int, Iface>)
      requires Valid() && list.Valid() && list.Shows(world) && list.repr !! Repr() && BufferHolds(f, env)
      modifies list.repr, port
      ensures Valid() && View() == old(View()) && hellos == old(hellos) && list.repr !! Repr()
      ensures list.Valid() && fresh(list.repr - old(list.repr))
      ensures list.Shows(world[ctx := Respond(Machine.At(world, FRESH, ctx), Input(f, env)).0])
      ensures port.sent == old(port.sent) + OnWire(ctx, Respond(Machine.At(world, FRESH, ctx), Input(f, env)).1)
    {
      list.ParseFrame(f, ctx, env, port, world);
    }

    /** The part of a round with a frame that precedes its tick. */
    method NoteAndParse(f: Frame, at: nat, ctx: int, env: Env, list: InterfaceList, port: Port,
                        ghost world: map<int, Iface>)
      requires Valid() && ClockOk(View(), at)
      requires list.Valid() && list.Shows(world) && list.repr !! Repr() && BufferHolds(f, env)
      modifies Repr(), list.repr, port
      ensures Valid() && View() == OnFrame(old(View()), f, macAddress, at) && hellos == old(hellos)
      ensures list.Valid() && list.repr !! Repr() && fresh(list.repr - old(list.repr))
      ensures list.Shows(world[ctx := Respond(Machine.At(world, FRESH, ctx), Input(f, env)).0])
      ensures port.sent == old(port.sent) + OnWire(ctx, Respond(Machine.At(world, FRESH, ctx), Input(f, env)).1)
    {
      assert port !in Repr();
      NoteFrame(f, at);
      CallParser(f, ctx, env, list, port, world);
    }

    /** The tick of a round with a frame; it leaves the parser alone. */
    method TickAfterParse(tickAt: nat, list: InterfaceList, port: Port, ghost world: map<int, Iface>)
      requires Valid() && ClockOk(View(), tickAt)
      requires list.Valid() && list.Shows(world) && list.repr !! Repr() && port !in Repr()
      modifies Repr()
      ensures Valid() && View() == Tick(old(View()), tickAt)
      ensures hellos == old(hellos) + TickHellos(old(View()), tickAt)
      ensures list.Valid() && list.Shows(world) && list.repr == old(list.repr) && port.sent == old(port.sent)
    {
      AutomataTick(tickAt);
    }

    /** A round of lltdLoop with a frame: the automata, the parser, the tick. */
    method OnReceived(f: Frame, at: nat, tickAt: nat, ctx: int, env: Env, list: InterfaceList, port: Port, ghost t: nat,
                      ghost world: map<int, Iface>)
      requires Valid() && Inv(View(), t) && t <= at <= tickAt
      requires list.Valid() && list.Shows(world) && list.repr !! Repr() && BufferHolds(f, env)
      modifies Repr(), list.repr, port
      ensures Valid() && View() == Step(old(View()), t, Received(f, at, tickAt), macAddress)
      ensures hellos == old(hellos) + StepHellos(old(View()), t, Received(f, at, tickAt), macAddress)
      ensures list.Valid() && list.repr !! Repr() && fresh(list.repr - old(list.repr))
      ensures list.Shows(world[ctx := Respond(Machine.At(world, FRESH, ctx), Input(f, env)).0])
      ensures port.sent == old(port.sent) + OnWire(ctx, Respond(Machine.At(world, FRESH, ctx), Input(f, env)).1)
    {
      assert port !in Repr();
      BeforeTickInv(View(), t, Received(f, at, tickAt), macAddress);
      NoteAndParse(f, at, ctx, env, list, port, world);
      TickAfterParse(tickAt, list, port, world[ctx := Respond(Machine.At(world, FRESH, ctx), Input(f, env)).0]);
    }

    /** A round without a frame leaves the parser alone. */
    method QuietRound(tickAt: nat, list: InterfaceList, port: Port, ghost t: nat, ghost w: map<int, Iface>)
      requires Valid() && Inv(View(), t) && t <= tickAt
      requires list.Valid() && list.Shows(w) && list.repr !! Repr() && port !in Repr()
      modifies Repr()
      ensures Valid() && View() == Step(old(View()), t, Silence(tickAt), macAddress)
      ensures hellos == old(hellos) + StepHellos(old(View()), t, Silence(tickAt), macAddress)
      ensures list.Valid() && list.Shows(w) && list.repr == old(list.repr) && port.sent == old(port.sent)
    {
      OnTimeout(tickAt, t);
    }

    /** Either kind of round. */
    method OneRound(r: Round, ctx: int, list: InterfaceList, port: Port, ghost t: nat, ghost w: map<int, Iface>)
        returns (ghost w': map<int, Iface>, ghost more: seq<Wired>)
      requires Valid() && Inv(View(), t) && Later(r.event, t) && RoundFits(r)
      requires list.Valid() && list.Shows(w) && list.repr !! Repr()
      modifies Repr(), list.repr, port
      ensures Valid() && View() == Step(old(View()), t, r.event, macAddress)
      ensures hellos == old(hellos) + StepHellos(old(View()), t, r.event, macAddress)
      ensures list.Valid() && list.Shows(w') && list.repr !! Repr() && fresh(list.repr - old(list.repr))
      ensures port.sent == old(port.sent) + more && (w', more) == RoundServes(w, ctx, r)
    {
      assert port !in Repr();
      match r.event {
        case Received(f, at, tickAt) =>
          OnReceived(f, at, tickAt, ctx, r.env, list, port, t, w);
        case Silence(tickAt) =>
          QuietRound(tickAt, list, port, t, w);
      }
      w', more := RoundServes(w, ctx, r).0, RoundServes(w, ctx, r).1;
    }

    /** The i-th of some rounds. */
    method RoundOf(rounds: seq<Round>, i: nat, ctx: int, list: InterfaceList, port: Port, ghost start: Start, ghost k: Track)
        returns (ghost k': Track)
      requires Valid() && i < |rounds| && RoundFits(rounds[i])
      requires Tracked(start, rounds, i, ctx, macAddress, View(), k)
      requires list.Valid() && list.Shows(k.world) && list.repr !! Repr()
      requires hellos == k.hellos && port.sent == k.sent
      modifies Repr(), list.repr, port
      ensures Valid() && Tracked(start, rounds, i + 1, ctx, macAddress, View(), k')
      ensures list.Valid() && list.Shows(k'.world) && list.repr !! Repr() && fresh(list.repr - old(list.repr))
      ensures hellos == k'.hellos && port.sent == k'.sent
    {
      TrackedNext(start, rounds, i, ctx, macAddress, View(), k);
      k' := NextTrack(rounds[i], ctx, macAddress, View(), k);
      ghost var world', more := OneRound(rounds[i], ctx, list, port, k.now, k.world);
    }

    /** The loop itself. */
    method Rounds(rounds: seq<Round>, ctx: int, list: InterfaceList, port: Port, ghost start: Start) returns (ghost k: Track)
      requires Valid() && View() == start.state && Inv(start.state, start.t) && Timed(start.t, EventsOf(rounds))
      requires forall i | 0 <= i < |rounds| :: RoundFits(rounds[i])
      requires list.Valid() && list.Shows(start.world) && list.repr !! Repr()
      requires hellos == start.hellos && port.sent == start.sent
      modifies Repr(), list.repr, port
      ensures Valid() && Tracked(start, rounds, |rounds|, ctx, macAddress, View(), k)
      ensures list.Valid() && list.Shows(k.world) && list.repr !! Repr() && fresh(list.repr - old(list.repr))
      ensures hellos == k.hellos && port.sent == k.sent
    {
      k := Track(start.t, start.hellos, start.world, start.sent);
      TrackedStart(start, rounds, ctx, macAddress);
      for i := 0 to |rounds|
        invariant Valid() && Tracked(start, rounds, i, ctx, macAddress, View(), k)
        invariant list.Valid() && list.Shows(k.world) && list.repr !! Repr() && fresh(list.repr - old(list.repr))
        invariant hellos == k.hellos && port.sent == k.sent
      {
        k := RoundOf(rounds, i, ctx, list, port, start, k);
      }
    }

    /**
     * lltdLoop for any number of rounds: automata, table and timers end where the run of the specification ends,
     * the ticks have sent its Hellos, and the parser has answered the frames as the run of all interfaces does.
     */
    method Loop(rounds: seq<Round>, ctx: int, list: InterfaceList, port: Port, ghost t: nat, ghost world: map<int, Iface>)
      requires Valid() && Inv(View(), t) && Timed(t, EventsOf(rounds))
      requires forall i | 0 <= i < |rounds| :: RoundFits(rounds[i])
      requires list.Valid() && list.Shows(world) && list.repr !! Repr()
      modifies Repr(), list.repr, port
      ensures Valid() && View() == Run(old(View()), t, EventsOf(rounds), macAddress)
      ensures hellos == old(hellos) + Hellos(old(View()), t, EventsOf(rounds), macAddress)
      ensures list.Valid() && list.repr !! Repr() && fresh(list.repr - old(list.repr))
      ensures list.Shows(Serve(world, InputsOf(ctx, rounds)).0)
      ensures port.sent == old(port.sent) + Serve(world, InputsOf(ctx, rounds)).1
    {
      ghost var start := Start(View(), t, world, hellos, port.sent);
      ghost var k := Rounds(rounds, ctx, list, port, start);
      TrackedEnd(start, rounds, ctx, macAddress, View(), k);
    }
  }

  /** Where a sequence of rounds starts. */
  datatype Start = Start(state: State, t: nat, world: map<int, Iface>, hellos: seq<HelloTx>, sent: seq<Wired>)

  /** Where it has come to: the clock, the Hellos sent so far, the interfaces and the bytes sent so far. */
  datatype Track = Track(now: nat, hellos: seq<HelloTx>, world: map<int, Iface>, sent: seq<Wired>)

  /** The parser has answered the frames of the first i rounds. */
  ghost predicate Answered(start: Start, rounds: seq<Round>, i: nat, ctx: int, world: map<int, Iface>, sent: seq<Wired>)
    requires i <= |rounds|
  {
    var served := Serve(start.world, InputsOf(ctx, rounds[..i]));
    world == served.0 && sent == start.sent + served.1
  }

  lemma NextAnswered(start: Start, rounds: seq<Round>, i: nat, ctx: int, world: map<int, Iface>, sent: seq<Wired>)
    requires i < |rounds| && Answered(start, rounds, i, ctx, world, sent)
    ensures var (w, more) := RoundServes(world, ctx, rounds[i]); Answered(start, rounds, i + 1, ctx, w, sent + more)
  {
    RoundSnoc(start.world, ctx, rounds, i);
    Regroup(start.sent, Serve(start.world, InputsOf(ctx, rounds[..i])).1, RoundServes(world, ctx, rounds[i]).1);
  }

  /** After the first i rounds. */
  ghost predicate Tracked(start: Start, rounds: seq<Round>, i: nat, ctx: int, mac: Mac, s: State, k: Track) {
    && i <= |rounds|
    && UnderWay(start, EventsOf(rounds), mac, s, k.now, EventsOf(rounds[i..]), k.hellos)
    && Answered(start, rounds, i, ctx, k.world, k.sent)
  }

  ghost function NextTrack(r: Round, ctx: int, mac: Mac, s: State, k: Track): Track
    requires Inv(s, k.now) && Later(r.event, k.now)
  {
    Track(r.event.tickAt, k.hellos + StepHellos(s, k.now, r.event, mac),
          RoundServes(k.world, ctx, r).0, k.sent + RoundServes(k.world, ctx, r).1)
  }

  lemma TrackedStart(start: Start, rounds: seq<Round>, ctx: int, mac: Mac)
    requires Inv(start.state, start.t) && Timed(start.t, EventsOf(rounds))
    ensures Tracked(start, rounds, 0, ctx, mac, start.state, Track(start.t, start.hellos, start.world, start.sent))
  {
    assert rounds[0..] == rounds;
  }

  lemma TrackedNext(start: Start, rounds: seq<Round>, i: nat, ctx: int, mac: Mac, s: State, k: Track)
    requires i < |rounds| && Tracked(start, rounds, i, ctx, mac, s, k)
    ensures Inv(s, k.now) && Later(rounds[i].event, k.now)
    ensures Tracked(start, rounds, i + 1, ctx, mac, Step(s, k.now, rounds[i].event, mac), NextTrack(rounds[i], ctx, mac, s, k))
  {
    EventsTail(rounds, i);
    NextUnderWay(start, EventsOf(rounds), mac, s, k.now, EventsOf(rounds[i..]), k.hellos);
    NextAnswered(start, rounds, i, ctx, k.world, k.sent);
  }

  lemma TrackedEnd(start: Start, rounds: seq<Round>, ctx: int, mac: Mac, s: State, k: Track)
    requires Tracked(start, rounds, |rounds|, ctx, mac, s, k)
    ensures Inv(start.state, start.t) && Timed(start.t, EventsOf(rounds))
    ensures s == Run(start.state, start.t, EventsOf(rounds), mac)
    ensures k.hellos == start.hellos + Hellos(start.state, start.t, EventsOf(rounds), mac)
    ensures k.world == Serve(start.world, InputsOf(ctx, rounds)).0
    ensures k.sent == start.sent + Serve(start.world, InputsOf(ctx, rounds)).1
  {
    assert rounds[..|rounds|] == rounds && rounds[|rounds|..] == [];
  }

  /** s at now is on the way of the run of es, with the rounds rest to come and the Hellos hs sent so far. */
  ghost predicate UnderWay(start: Start, es: seq<Event>, mac: Mac, s: State, now: nat, rest: seq<Event>, hs: seq<HelloTx>) {
    && Inv(start.state, start.t) && Timed(start.t, es) && Inv(s, now) && Timed(now, rest)
    && Run(s, now, rest, mac) == Run(start.state, start.t, es, mac)
    && hs + Hellos(s, now, rest, mac) == start.hellos + Hellos(start.state, start.t, es, mac)
  }

  lemma NextUnderWay(start: Start, es: seq<Event>, mac: Mac, s: State, now: nat, rest: seq<Event>, hs: seq<HelloTx>)
    requires rest != [] && UnderWay(start, es, mac, s, now, rest, hs)
    ensures Later(rest[0], now)
    ensures UnderWay(start, es, mac, Step(s, now, rest[0], mac), rest[0].tickAt, rest[1..],
                     hs + StepHellos(s, now, rest[0], mac))
  {
    var s' := Step(s, now, rest[0], mac);
    Regroup(hs, StepHellos(s, now, rest[0], mac), Hellos(s', rest[0].tickAt, rest[1..], mac));
  }

  /** A round of the loop with the port layer's answers during it. */
  datatype Round = Round(event: Event, env: Env)

  predicate RoundFits(r: Round) { r.event.Received? ==> BufferHolds(r.event.frame, r.env) }

  function EventsOf(rounds: seq<Round>): seq<Event> {
    if rounds == [] then [] else [rounds[0].event] + EventsOf(rounds[1..])
  }

  lemma EventsTail(rounds: seq<Round>, i: nat)
    requires i < |rounds|
    ensures var es := EventsOf(rounds[i..]); es != [] && es[0] == rounds[i].event && es[1..] == EventsOf(rounds[i + 1..])
  {
    assert rounds[i..][1..] == rounds[i + 1..];
  }

  /** The calls of parseFrame that a round makes. */
  function InputOf(ctx: int, r: Round): seq<(int, Input)> {
    if r.event.Received? then [(ctx, Input(r.event.frame, r.env))] else []
  }

  function InputsOf(ctx: int, rounds: seq<Round>): seq<(int, Input)> {
    if rounds == [] then [] else InputsOf(ctx, rounds[..|rounds| - 1]) + InputOf(ctx, rounds[|rounds| - 1])
  }

  function RoundServes(w: map<int, Iface>, ctx: int, r: Round): (map<int, Iface>, seq<Wired>) {
    if r.event.Received? then OneMore(w, ctx, Input(r.event.frame, r.env)) else (w, [])
  }

  lemma InputsSnoc(ctx: int, rounds: seq<Round>, i: nat)
    requires i < |rounds|
    ensures InputsOf(ctx, rounds[..i + 1]) == InputsOf(ctx, rounds[..i]) + InputOf(ctx, rounds[i])
  {
    assert rounds[..i + 1][..i] == rounds[..i];
  }

  lemma ServeOne(world: map<int, Iface>, ins: seq<(int, Input)>, ctx: int, x: Input)
    ensures var (w, sent) := Serve(world, ins);
            var (w', more) := OneMore(w, ctx, x);
            Serve(world, ins + [(ctx, x)]) == (w', sent + more)
  {
    var all := ins + [(ctx, x)];
    assert all[..|ins|] == ins && all[..|ins| + 1] == all;
    ServeSnoc(world, all, |ins|);
  }

  lemma RoundSnoc(world: map<int, Iface>, ctx: int, rounds: seq<Round>, i: nat)
    requires i < |rounds|
    ensures var (w, sent) := Serve(world, InputsOf(ctx, rounds[..i]));
            var (w', more) := RoundServes(w, ctx, rounds[i]);
            Serve(world, InputsOf(ctx, rounds[..i + 1])) == (w', sent + more)
  {
    var ins := InputsOf(ctx, rounds[..i]);
    InputsSnoc(ctx, rounds, i);
    if rounds[i].event.Received? {
      ServeOne(world, ins, ctx, Input(rounds[i].event.frame, rounds[i].env));
    } else {
      assert ins + [] == ins && Serve(world, ins).1 + [] == Serve(world, ins).1;
    }
  }

  // ----- two memories of the mapper -------------------------------------------------------------

  /**
   * The loop records the mapper of every Discover it has room for, the parser only of those it accepts:
   * after a recorded Discover they name the same mapper exactly if the parser accepted it.
   */
  lemma MappersAgreeIff(s: State, t: nat, e: Event, mac: Mac, st: Iface, env: Env)
    requires Inv(s, t) && Later(e, t) && Recorded(s, e)
    ensures var locked := Parse(st, e.frame, env).0.mapper;
            && locked.Some?
            && (Step(s, t, e, mac).info.mapper == locked.value.realAddress <==> Accepts(st, e.frame))
  {
    RoundAnnounces(s, t, e, mac);
  }

  lemma FirstDiscoverLeavesRoom(s: State, t: nat, e: Event, mac: Mac)
    requires Inv(s, t) && Later(e, t) && s.table == map[]
    ensures |Step(s, t, e, mac).table| <= 1
  {
    BeforeTickInv(s, t, e, mac);
    var m, s' := BeforeTick(s, e, mac), Step(s, t, e, mac);
    forall k | k in s'.table ensures k in m.table {
      TickKeepsSessions(m, e.tickAt, k);
    }
    if s'.table != map[] {
      assert s'.table.Keys <= {KeyOf(e.frame)};
      assert |s'.table.Keys - {KeyOf(e.frame)}| == 0;
    }
  }

  lemma ParserKeepsFirst(x1: Input, x2: Input)
    requires x1.frame.header.opcode == x2.frame.header.opcode == OPCODE_DISCOVER
    requires x1.frame.header.realSource != x2.frame.header.realSource
    ensures Respond(Respond(FRESH, x1).0, x2).0.mapper
         == Some(Mapper(x1.frame.header.realSource, x1.frame.header.ethSource))
  {
    var st := Respond(FRESH, x1).0;
    assert st.mapper == Some(Mapper(x1.frame.header.realSource, x1.frame.header.ethSource));
    assert Respond(st, x2).0 == st;
  }

  lemma LoopTakesLast(s: State, t: nat, e1: Event, e2: Event, mac: Mac)
    requires Inv(s, t) && s.table == map[] && Later(e1, t) && Later(e2, e1.tickAt)
    requires e2.Received? && e2.frame.header.opcode == OPCODE_DISCOVER
    ensures Step(Step(s, t, e1, mac), e1.tickAt, e2, mac).info.mapper == e2.frame.header.realSource
  {
    var s1 := Step(s, t, e1, mac);
    FirstDiscoverLeavesRoom(s, t, e1, mac);
    RoundAnnounces(s1, e1.tickAt, e2, mac);
    assert Recorded(s1, e2);
  }

  /** They do differ: after Discovers of two mappers the parser is locked to the first, the loop announces the second. */
  lemma ForeignMapperIsAnnounced(s: State, t: nat, e1: Event, e2: Event, mac: Mac, env1: Env, env2: Env)
    requires Inv(s, t) && s.table == map[] && Later(e1, t) && Later(e2, e1.tickAt) && e1.Received? && e2.Received?
    requires e1.frame.header.opcode == e2.frame.header.opcode == OPCODE_DISCOVER
    requires e1.frame.header.realSource != e2.frame.header.realSource
    ensures Step(Step(s, t, e1, mac), e1.tickAt, e2, mac).info.mapper == e2.frame.header.realSource
    ensures Respond(Respond(FRESH, Input(e1.frame, env1)).0, Input(e2.frame, env2)).0.mapper
         == Some(Mapper(e1.frame.header.realSource, e1.frame.header.ethSource))
  {
    LoopTakesLast(s, t, e1, e2, mac);
    ParserKeepsFirst(Input(e1.frame, env1), Input(e2.frame, env2));
  }
}
