/**
 * Specification of the Darwin receive loop: what one received frame and one tick do to the session
 * map, the three automata, the RepeatBand record and the timers.
 */
module LoopSpec {
  import opened Protocol
  import opened Wire
  import opened Sessions
  import opened Automata
  import opened RepeatBand

  /** The interface fields the loop keeps beside the automata. */
  datatype Info = Info(lastHelloTx: nat, mapper: Mac, genTopology: u16, genQuick: u16)

  datatype State = State(mapping: Auto, timers: Timers, enumeration: Auto, band: Band, session: Auto, table: Table,
                         info: Info)

  /** A Hello sent by the tick: when, and the mapper and generation sendHelloMessage puts in it. */
  datatype HelloTx = HelloTx(at: nat, mapper: Mac, generation: u16)

  /**
   * One round of the loop: a frame, handled at one clock reading and ticked at a later one, or a
   * receive timeout and its tick.  Times are in milliseconds; the seconds clock is their thousandth.
   */
  datatype Event = Received(frame: Frame, at: nat, tickAt: nat) | Silence(tickAt: nat)

  function Seconds(t: nat): nat { t / 1000 }

  function Initial(t: nat): State {
    State(Auto(QUIESCENT, Seconds(t)), Timers(0, 0, 0), Auto(QUIESCENT, Seconds(t)), Band(ALPHA, 0, false, 0, 0),
          Auto(NASCENT, Seconds(t)), map[], Info(0, ZERO_MAC, 0, 0))
  }

  /** The clock has not run backwards since the automata last read it. */
  predicate ClockOk(s: State, t: nat) {
    s.mapping.lastTs <= Seconds(t) && s.session.lastTs <= Seconds(t) && s.info.lastHelloTx <= t
  }

  predicate InRange(s: State) {
    s.mapping.state <= EMIT && s.enumeration.state <= WAIT && s.session.state <= COMPLETE
  }

  // ----- deriving the session event -------------------------------------------------------------

  function Generation(f: Frame): u16 { U16At(f.body, 0) }

  function StationCount(f: Frame): u16 { U16At(f.body, 2) }

  /** The source address of entry i of a Discover's station list, at the stride the code uses. */
  function StationAt(f: Frame, i: nat): Mac { MacAt(f.body, 4 + 14 * i + 6) }

  predicate Acknowledges(f: Frame, mac: Mac) {
    StationCount(f) == 0 || exists i :: 0 <= i < StationCount(f) && StationAt(f, i) == mac
  }

  function KeyOf(f: Frame): Key { Key(f.header.realSource, Generation(f)) }

  predicate ChangedXid(f: Frame, m: Table) {
    KeyOf(f) in m && m[KeyOf(f)].seqNumber != f.header.seqNumber
  }

  /** Event of a Discover; it never is SESS_DISCOVER_CONFLICTING. */
  function DiscoverEvent(f: Frame, m: Table, mac: Mac): (e: byte) {
    if Acknowledges(f, mac) then (if ChangedXid(f, m) then SESS_DISCOVER_ACKING_CHGD_XID else SESS_DISCOVER_ACKING)
    else (if ChangedXid(f, m) then SESS_DISCOVER_NOACK_CHGD_XID else SESS_DISCOVER_NOACK)
  }

  function DeriveEvent(f: Frame, m: Table, mac: Mac): int {
    if f.header.opcode == OPCODE_RESET then (if f.header.realDest == BROADCAST then SESS_TOPO_RESET else SESS_RESET)
    else if f.header.opcode == OPCODE_HELLO then SESS_HELLO
    else if f.header.opcode == OPCODE_DISCOVER then DiscoverEvent(f, m, mac)
    else -1
  }

  // ----- one received frame, up to the parser ---------------------------------------------------

  /** A Discover opens or refreshes its session, then records the event; acknowledging completes it. */
  function Discovered(m: Table, f: Frame, mac: Mac, now: nat): Table {
    var k := KeyOf(f);
    var e := DiscoverEvent(f, m, mac);
    var m' := AddSession(m, k, f.header.seqNumber, now);
    if k in m' then
      m'[k := m'[k].(state := e, lastActivity := now, complete := m'[k].complete || Acknowledges(f, mac))]
    else m'
  }

  function TableAfter(s: State, f: Frame, mac: Mac, now: nat): Table {
    if f.header.opcode == OPCODE_DISCOVER then Discovered(s.table, f, mac, now)
    else if f.header.opcode == OPCODE_RESET then map[]
    else s.table
  }

  function InfoAfter(s: State, f: Frame): Info {
    if f.header.opcode == OPCODE_DISCOVER && (KeyOf(f) in s.table || |s.table| != MAX_ENTRIES) then
      if f.header.tos == TOS_QUICK_DISCOVERY
      then s.info.(mapper := f.header.realSource, genQuick := Generation(f))
      else s.info.(mapper := f.header.realSource, genTopology := Generation(f))
    else s.info
  }

  function TimersAfter(m: Timers, f: Frame, now: nat): Timers {
    var armed := m.(inactiveTs := now + INACTIVE_TIMEOUT_S);
    if f.header.opcode == OPCODE_CHARGE then OnCharge(armed, now) else armed
  }

  function SessionAfter(s: State, f: Frame, mac: Mac, now: nat): Auto
    requires InRange(s) && s.session.lastTs <= now
  {
    var e := DeriveEvent(f, s.table, mac);
    if e >= 0 then SwitchSession(s.session, e, now) else s.session
  }

  function BandAfter(s: State, f: Frame, t: nat): Band {
    if f.header.opcode == OPCODE_HELLO then OnHelloReceived(s.band)
    else if f.header.opcode == OPCODE_DISCOVER then
      if s.enumeration.state == QUIESCENT then ChooseHelloTime(InitStats(t), t) else s.band.(begun := true)
    else s.band
  }

  function EnumerationAfter(a: Auto, f: Frame, now: nat): Auto {
    if f.header.opcode == OPCODE_HELLO then Auto(EnumerationNext(a.state, ENUM_HELLO), now)
    else if f.header.opcode == OPCODE_DISCOVER then Auto(EnumerationNext(a.state, ENUM_NEW_SESSION), now)
    else a
  }

  function OnFrame(s: State, f: Frame, mac: Mac, t: nat): State
    requires InRange(s) && ClockOk(s, t)
  {
    var now := Seconds(t);
    var mapping := SwitchMapping(s.mapping, f.header.opcode, now);
    var table := TableAfter(s, f, mac, now);
    State(mapping,
          TimersAfter(s.timers, f, now),
          EnumerationAfter(s.enumeration, f, now),
          BandAfter(s, f, t),
          SessionAfter(s, f, mac, now),
          if s.mapping.state != QUIESCENT && mapping.state == QUIESCENT then map[] else table,
          InfoAfter(s, f))
  }

  // ----- one tick -------------------------------------------------------------------------------

  function TickInactive(s: State, now: nat): State
    requires InRange(s) && s.mapping.lastTs <= now
  {
    if InactiveDue(s.timers, now) then
      s.(mapping := SwitchMapping(s.mapping, -1, now), timers := Timers(0, 0, 0), table := map[])
    else if ChargeDue(s.timers, now) then s.(timers := ResetCharge(s.timers))
    else s
  }

  function TickExpire(s: State, now: nat): State {
    s.(table := Expire(s.table, now))
  }

  function TickEnumeration(s: State, now: nat): State {
    if s.enumeration.state == QUIESCENT then s
    else if s.table == map[] then
      s.(enumeration := s.enumeration.(state := QUIESCENT),
         band := s.band.(helloTs := 0, blockTs := 0, begun := false))
    else
      var input := if AllComplete(s.table) then ENUM_SESS_COMPLETE else ENUM_SESS_NOT_COMPLETE;
      s.(enumeration := Auto(EnumerationNext(s.enumeration.state, input), now))
  }

  predicate HelloDue(s: State, t: nat) {
    s.enumeration.state == PAUSING && s.band.helloTs > 0 && t >= s.band.helloTs
  }

  /** A due Hello is held back until the minimum interval since the last one has passed. */
  predicate Suppressed(s: State, t: nat) {
    s.info.lastHelloTx > 0 && t < s.info.lastHelloTx + HELLO_MIN_INTERVAL_MS
  }

  predicate SendsHello(s: State, t: nat) {
    HelloDue(s, t) && !Suppressed(s, t)
  }

  function TickHello(s: State, t: nat): State {
    if !HelloDue(s, t) then s
    else if Suppressed(s, t) then s.(band := s.band.(helloTs := s.info.lastHelloTx + HELLO_MIN_INTERVAL_MS))
    else
      var b := DoHello(s.band, t);
      s.(band := b.(helloTs := Max(b.helloTs, t + HELLO_MIN_INTERVAL_MS)),
         info := s.info.(lastHelloTx := t),
         enumeration := Auto(PAUSING, Seconds(t)))
  }

  function TickBlock(s: State, t: nat): State {
    if s.enumeration.state == PAUSING && s.band.blockTs > 0 && t >= s.band.blockTs
    then s.(band := ChooseHelloTime(UpdateStats(s.band, t), t))
    else s
  }

  /** The state in which the tick decides about the Hello. */
  function BeforeHello(s: State, t: nat): State
    requires InRange(s) && ClockOk(s, t)
  {
    TickEnumeration(TickExpire(TickInactive(s, Seconds(t)), Seconds(t)), Seconds(t))
  }

  function Tick(s: State, t: nat): State
    requires InRange(s) && ClockOk(s, t)
  {
    TickBlock(TickHello(BeforeHello(s, t), t), t)
  }

  function TickHellos(s: State, t: nat): seq<HelloTx>
    requires InRange(s) && ClockOk(s, t)
  {
    if SendsHello(BeforeHello(s, t), t) then [HelloTx(t, s.info.mapper, s.info.genTopology)] else []
  }
}
