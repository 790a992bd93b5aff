/** Runs that reach the ends of RepeatBand's arithmetic: any number of Hellos heard in a block, and a starvation that lasts. */
module HelloRuns {
  import opened Protocol
  import opened Wire
  import opened Sessions
  import opened Automata
  import opened RepeatBand
  import opened LoopSpec
  import opened LoopRuns
  import opened LoopProperties

  /** An interface with its address, a Discover that does not acknowledge it, a Hello, and when it starts. */
  datatype Scene = Scene(mac: Mac, discover: Frame, hello: Frame, t: nat)

  predicate Plays(c: Scene) {
    && c.discover.header.opcode == OPCODE_DISCOVER && !Acknowledges(c.discover, c.mac)
    && c.hello.header.opcode == OPCODE_HELLO
  }

  // ----- such scenes exist for every address and time -------------------------------------------

  const SOME_MAPPER: Mac := [2, 0, 0, 0, 0, 1]

  function SomeHeader(opcode: byte): Header {
    Header(BROADCAST, SOME_MAPPER, LLTD_ETHER_TYPE, 1, TOS_DISCOVERY, 0, opcode, BROADCAST, SOME_MAPPER, 1)
  }

  function OtherThan(mac: Mac): Mac { [if mac[0] == 2 then 6 else 2, 0, 0, 0, 0, 7] }

  /** A Discover of generation 1 with one complete station entry, of another station. */
  function ForeignDiscover(mac: Mac): Frame {
    Frame(SomeHeader(OPCODE_DISCOVER), [0, 1, 0, 1] + SOME_MAPPER + OtherThan(mac) + [0, 0])
  }

  lemma ScenesExist(mac: Mac, t: nat)
    ensures Plays(Scene(mac, ForeignDiscover(mac), Frame(SomeHeader(OPCODE_HELLO), []), t))
    ensures |ForeignDiscover(mac).body| == 4 + 14 * StationCount(ForeignDiscover(mac))
  {
    var d := ForeignDiscover(mac);
    assert StationCount(d) == 1;
    assert StationAt(d, 0)[0] == d.body[10] == OtherThan(mac)[0];
  }

  // ----- the rounds -----------------------------------------------------------------------------

  /** Pausing for one incomplete session, with the deadlines of the scene's start. */
  predicate Enumerating(c: Scene, s: State, begun: bool, r: u32) {
    && s.enumeration.state == PAUSING && s.mapping.state == COMMAND && s.mapping.lastTs >= Seconds(c.t)
    && s.band == Band(ALPHA, r, begun, c.t + 120, c.t + 300)
    && s.timers.chargeTs == 0 && s.timers.inactiveTs >= Seconds(c.t) + INACTIVE_TIMEOUT_S
    && s.info.lastHelloTx == 0
    && KeyOf(c.discover) in s.table && |s.table| == 1
    && s.table[KeyOf(c.discover)].lastActivity >= Seconds(c.t) && !s.table[KeyOf(c.discover)].complete
  }

  lemma SingletonKey<T>(s: set<T>, x: T)
    requires |s| == 1 && x in s
    ensures s == {x}
  {
    assert |s - {x}| == 0;
  }

  /** A tick of the first block finds no timer due and no session expired. */
  lemma NothingExpires(c: Scene, m: State, t: nat, begun: bool, r: u32)
    requires MidInv(m, t) && t <= c.t + 300 && Enumerating(c, m, begun, r)
    ensures BeforeHello(m, t).band == m.band && BeforeHello(m, t).enumeration.state == PAUSING
    ensures BeforeHello(m, t).table == m.table && BeforeHello(m, t).mapping == m.mapping
    ensures BeforeHello(m, t).timers == m.timers && BeforeHello(m, t).info == m.info
  {
    var k := KeyOf(c.discover);
    assert Seconds(t) <= Seconds(c.t) + 1;
    assert TickInactive(m, Seconds(t)) == m;
    assert forall j | j in m.table :: j == k by { SingletonKey(m.table.Keys, k); }
    assert Expire(m.table, Seconds(t)) == m.table;
  }

  lemma TickKeepsEnumerating(c: Scene, m: State, t: nat, begun: bool, r: u32)
    requires MidInv(m, t) && t < c.t + 120 && Enumerating(c, m, begun, r)
    ensures Enumerating(c, Tick(m, t), begun, r)
  {
    NothingExpires(c, m, t, begun, r);
  }

  lemma FirstDiscover(c: Scene, s1: State)
    requires Plays(c) && s1 == Step(Initial(c.t), c.t, Received(c.discover, c.t, c.t), c.mac)
    ensures Enumerating(c, s1, false, 0)
  {
    BeforeTickInv(Initial(c.t), c.t, Received(c.discover, c.t, c.t), c.mac);
    var m := OnFrame(Initial(c.t), c.discover, c.mac, c.t);
    assert m.table == Discovered(map[], c.discover, c.mac, Seconds(c.t));
    assert m.table.Keys == {KeyOf(c.discover)};
    TickKeepsEnumerating(c, m, c.t, false, 0);
  }

  /** A repeated Discover refreshes its session and changes nothing else in the table. */
  lemma RepeatedDiscover(c: Scene, m: Table, now: nat)
    requires Plays(c) && KeyOf(c.discover) in m && |m| == 1 && !m[KeyOf(c.discover)].complete
    ensures var m' := Discovered(m, c.discover, c.mac, now);
            && KeyOf(c.discover) in m' && |m'| == 1
            && m'[KeyOf(c.discover)].lastActivity == now && !m'[KeyOf(c.discover)].complete
  {
    var m' := Discovered(m, c.discover, c.mac, now);
    assert m'.Keys == m.Keys;
    assert |m'.Keys| == |m'|;
  }

  lemma SecondDiscover(c: Scene, s1: State, s2: State)
    requires Plays(c) && Inv(s1, c.t) && Enumerating(c, s1, false, 0)
    requires s2 == Step(s1, c.t, Received(c.discover, c.t + 10, c.t + 10), c.mac)
    ensures Enumerating(c, s2, true, 0)
  {
    BeforeTickInv(s1, c.t, Received(c.discover, c.t + 10, c.t + 10), c.mac);
    var m := OnFrame(s1, c.discover, c.mac, c.t + 10);
    RepeatedDiscover(c, s1.table, Seconds(c.t + 10));
    assert m.table == Discovered(s1.table, c.discover, c.mac, Seconds(c.t + 10));
    TickKeepsEnumerating(c, m, c.t + 10, true, 0);
  }

  lemma HeardHello(c: Scene, s: State, t: nat, s': State)
    requires Plays(c) && Inv(s, t) && t <= c.t + 20 && s.band.r + 1 < TWO_32 && Enumerating(c, s, true, s.band.r)
    requires s' == Step(s, t, Received(c.hello, c.t + 20, c.t + 20), c.mac)
    ensures Enumerating(c, s', true, s.band.r + 1)
  {
    BeforeTickInv(s, t, Received(c.hello, c.t + 20, c.t + 20), c.mac);
    var m := OnFrame(s, c.hello, c.mac, c.t + 20);
    TickKeepsEnumerating(c, m, c.t + 20, true, s.band.r + 1);
  }

  // ----- any number of Hellos heard in a block --------------------------------------------------

  function TwoDiscovers(c: Scene): seq<Event> {
    [Received(c.discover, c.t, c.t), Received(c.discover, c.t + 10, c.t + 10)]
  }

  function HelloRounds(c: Scene, n: nat): seq<Event> {
    if n == 0 then [] else [Received(c.hello, c.t + 20, c.t + 20)] + HelloRounds(c, n - 1)
  }

  /** Two Discovers, n Hellos heard, and the tick that ends the block. */
  function Block(c: Scene, n: nat): seq<Event> { TwoDiscovers(c) + HelloRounds(c, n) + [Silence(c.t + 300)] }

  lemma TwoDiscoversRun(c: Scene, s0: State) returns (s: State)
    requires Plays(c) && s0 == Initial(c.t)
    ensures Leads(s0, c.t, TwoDiscovers(c), c.mac, s, c.t + 10) && Enumerating(c, s, true, 0)
  {
    var d, d' := Received(c.discover, c.t, c.t), Received(c.discover, c.t + 10, c.t + 10);
    var s1 := Step(s0, c.t, d, c.mac);
    FirstDiscover(c, s1);
    s := Step(s1, c.t, d', c.mac);
    SecondDiscover(c, s1, s);
    LeadsOne(s1, c.t, d', c.mac);
    assert TwoDiscovers(c)[1..] == [d'];
    LeadsCons(s0, c.t, TwoDiscovers(c), s1, s, c.t + 10, c.mac);
  }

  lemma HelloRoundsSplit(c: Scene, n: nat)
    requires n > 0
    ensures var es := HelloRounds(c, n);
            es != [] && es[0] == Received(c.hello, c.t + 20, c.t + 20) && es[1..] == HelloRounds(c, n - 1)
  {
  }

  lemma {:induction false} HeardHellos(c: Scene, s: State, t: nat, r: nat, n: nat) returns (s1: State, t1: nat)
    requires Plays(c) && Inv(s, t) && t <= c.t + 20 && r + n < TWO_32 && Enumerating(c, s, true, r)
    ensures Leads(s, t, HelloRounds(c, n), c.mac, s1, t1) && t1 <= c.t + 20
    ensures Enumerating(c, s1, true, r + n)
    decreases n
  {
    if n == 0 {
      s1, t1 := s, t;
    } else {
      var s' := Step(s, t, Received(c.hello, c.t + 20, c.t + 20), c.mac);
      HeardHello(c, s, t, s');
      s1, t1 := HeardHellos(c, s', c.t + 20, r + 1, n - 1);
      HelloRoundsSplit(c, n);
      LeadsCons(s, t, HelloRounds(c, n), s', s1, t1, c.mac);
    }
  }

  /** Pausing at the end of a block in which n Hellos were heard. */
  predicate Ended(c: Scene, s: State, n: u32) {
    && s.enumeration.state == PAUSING && s.mapping.state == COMMAND && s.mapping.lastTs >= Seconds(c.t)
    && (s.band.ni == if n > 0 then Estimate(n) else ALPHA)
    && s.band == Band(s.band.ni, 0, true, c.t + 300 + Interval(s.band.ni), c.t + 600)
    && s.info.lastHelloTx == c.t + 300
    && KeyOf(c.discover) in s.table && |s.table| == 1 && !s.table[KeyOf(c.discover)].complete
  }

  lemma BlockEnds(c: Scene, s: State, t: nat, n: u32)
    requires Plays(c) && Inv(s, t) && t <= c.t + 300 && Enumerating(c, s, true, n)
    ensures Ended(c, Step(s, t, Silence(c.t + 300), c.mac), n)
  {
    BeforeTickInv(s, t, Silence(c.t + 300), c.mac);
    NothingExpires(c, s, c.t + 300, true, n);
    assert Step(s, t, Silence(c.t + 300), c.mac) == Tick(s, c.t + 300);
  }

  lemma LastRound(c: Scene, s: State, t: nat, n: u32) returns (s': State)
    requires Plays(c) && Inv(s, t) && t <= c.t + 300 && Enumerating(c, s, true, n)
    ensures Leads(s, t, [Silence(c.t + 300)], c.mac, s', c.t + 300) && Ended(c, s', n)
  {
    s' := Step(s, t, Silence(c.t + 300), c.mac);
    BlockEnds(c, s, t, n);
    LeadsOne(s, t, Silence(c.t + 300), c.mac);
  }

  /** From a new interface of any address, at any time, for every number of Hellos the counter holds. */
  lemma BlockRun(c: Scene, s0: State, n: u32) returns (s: State)
    requires Plays(c) && s0 == Initial(c.t)
    ensures Leads(s0, c.t, Block(c, n), c.mac, s, c.t + 300) && Ended(c, s, n)
  {
    var s1 := TwoDiscoversRun(c, s0);
    var s2, t2 := HeardHellos(c, s1, c.t + 10, 0, n);
    LeadsAppend(s0, c.t, TwoDiscovers(c), s1, c.t + 10, HelloRounds(c, n), s2, t2, c.mac);
    s := LastRound(c, s2, t2, n);
    LeadsAppend(s0, c.t, TwoDiscovers(c) + HelloRounds(c, n), s2, t2, [Silence(c.t + 300)], s, c.t + 300, c.mac);
  }

  /**
   * A new interface that hears n Hellos in its first block ends it with the prescribed estimate exactly if
   * the 32-bit product did not wrap below the cap.
   */
  lemma HeardBlockIsExactIff(c: Scene, s0: State, n: u32) returns (s: State)
    requires Plays(c) && s0 == Initial(c.t) && n > 0
    ensures Leads(s0, c.t, Block(c, n), c.mac, s, c.t + 300)
    ensures s.band.ni == Min(NMAX, ALPHA * n * n) <==> ALPHA * n * n < TWO_32 || (ALPHA * n * n) % TWO_32 >= NMAX
  {
    s := BlockRun(c, s0, n);
    EstimateIsExactIff(n);
  }

  lemma CapInterval(n: nat)
    requires n == 0x1_0000
    ensures Interval(Min(NMAX, ALPHA * n * n)) == 26667
  {
  }

  /** Where 65536 Hellos are heard the estimate is 0 and the next Hello is due after 6 ms instead of 26667. */
  lemma WrappedBlock(c: Scene, s0: State, n: u32) returns (s: State)
    requires Plays(c) && s0 == Initial(c.t) && n == 0x1_0000
    ensures Leads(s0, c.t, Block(c, n), c.mac, s, c.t + 300)
    ensures s.enumeration.state == PAUSING && s.band.ni == 0 && s.band.helloTs == c.t + 300 + 6
    ensures Interval(Min(NMAX, ALPHA * n * n)) == 26667
  {
    EstimateWraps();
    CapInterval(n);
    s := BlockRun(c, s0, n);
  }

  // ----- a starvation that lasts ----------------------------------------------------------------

  /** Starved, and kept so by one incomplete session that its mapper keeps discovering. */
  ghost predicate Stuck(c: Scene, s: State, t: nat) {
    && Inv(s, t) && Starved(s, t, 100)
    && s.mapping.state == COMMAND && Seconds(t) <= s.mapping.lastTs + 4
    && KeyOf(c.discover) in s.table && |s.table| == 1 && !s.table[KeyOf(c.discover)].complete
    && s.band.ni == 180 && s.band.r == 0
  }

  /** The tick of a Discover that comes 100 ms later changes at most the deadlines. */
  lemma StuckTick(c: Scene, m: State, t: nat)
    requires MidInv(m, t) && m.enumeration.state == PAUSING && !InactiveDue(m.timers, Seconds(t))
    requires KeyOf(c.discover) in m.table && |m.table| == 1
    requires var e := m.table[KeyOf(c.discover)]; !e.complete && e.lastActivity == Seconds(t)
    requires t < m.band.helloTs && m.band.r == 0
    ensures Tick(m, t).table == m.table && Tick(m, t).mapping == m.mapping && Tick(m, t).enumeration.state == PAUSING
    ensures Tick(m, t).band.ni == m.band.ni && Tick(m, t).band.r == 0
    ensures TickHellos(m, t) == []
  {
    var k := KeyOf(c.discover);
    var a := TickInactive(m, Seconds(t));
    assert a.table == m.table && a.band == m.band && a.enumeration == m.enumeration && a.mapping == m.mapping;
    assert forall j | j in m.table :: j == k by { SingletonKey(m.table.Keys, k); }
    assert Expire(m.table, Seconds(t)) == m.table;
    assert !AllComplete(m.table);
  }

  const NAG: nat := 100

  lemma StuckFrame(c: Scene, s: State, t: nat)
    requires Plays(c) && Stuck(c, s, t)
    ensures ClockOk(s, t + NAG)
    ensures var m := OnFrame(s, c.discover, c.mac, t + NAG);
            && m.mapping == Auto(COMMAND, Seconds(t + NAG)) && m.enumeration.state == PAUSING
            && m.timers.inactiveTs == Seconds(t + NAG) + INACTIVE_TIMEOUT_S
            && m.table.Keys == s.table.Keys
            && KeyOf(c.discover) in m.table
            && (var e := m.table[KeyOf(c.discover)]; !e.complete && e.lastActivity == Seconds(t + NAG))
            && m.band == s.band.(begun := true)
  {
    var m := OnFrame(s, c.discover, c.mac, t + NAG);
    assert Seconds(t + NAG) <= s.mapping.lastTs + 5;
    assert m.mapping == Auto(COMMAND, Seconds(t + NAG));
    assert m.table == Discovered(s.table, c.discover, c.mac, Seconds(t + NAG));
  }

  lemma StuckRound(c: Scene, s: State, t: nat)
    requires Plays(c) && Stuck(c, s, t)
    ensures var e := Received(c.discover, t + NAG, t + NAG);
            Stuck(c, Step(s, t, e, c.mac), t + NAG) && StepHellos(s, t, e, c.mac) == []
  {
    var e := Received(c.discover, t + NAG, t + NAG);
    StuckFrame(c, s, t);
    BeforeTickInv(s, t, e, c.mac);
    var m := BeforeTick(s, e, c.mac);
    assert |m.table.Keys| == |m.table| && |s.table.Keys| == |s.table|;
    StuckTick(c, m, t + NAG);
    StarvedRound(s, t, e, c.mac, 100);
  }

  /** Further Discovers, one every 100 ms, as many as the sequence is long. */
  predicate Nagging(c: Scene, t: nat, es: seq<Event>)
    decreases |es|
  {
    es == [] || (es[0] == Received(c.discover, t + NAG, t + NAG) && Nagging(c, t + NAG, es[1..]))
  }

  lemma {:induction false} NaggingIsTimed(c: Scene, t: nat, es: seq<Event>)
    requires Nagging(c, t, es)
    ensures Timed(t, es) && EndOf(t, es) == t + NAG * |es|
    decreases |es|
  {
    if es != [] { NaggingIsTimed(c, t + NAG, es[1..]); }
  }

  /** The starvation lasts as long as the mapper keeps discovering: no number of rounds brings a tick Hello. */
  lemma {:induction false} StuckForever(c: Scene, s: State, t: nat, es: seq<Event>)
    requires Plays(c) && Stuck(c, s, t) && Nagging(c, t, es) && Timed(t, es)
    ensures Hellos(s, t, es, c.mac) == []
    decreases |es|
  {
    if es != [] {
      StuckRound(c, s, t);
      StuckForever(c, Step(s, t, es[0], c.mac), t + NAG, es[1..]);
    }
  }

  lemma EndedIsStuck(c: Scene, s: State, n: u32)
    requires Inv(s, c.t + 300) && Ended(c, s, n) && n == 2
    ensures Stuck(c, s, c.t + 300)
  {
    EstimateIsExact(n);
    assert Seconds(c.t + 300) <= Seconds(c.t) + 1;
  }

  /** Starvation is reached and lasts: after two Hellos heard in a block, any number of Discovers brings no tick Hello. */
  lemma StarvationIsReached(c: Scene, s0: State, n: u32, es: seq<Event>) returns (s: State)
    requires Plays(c) && s0 == Initial(c.t) && n == 2 && Nagging(c, c.t + 300, es)
    ensures Leads(s0, c.t, Block(c, n), c.mac, s, c.t + 300)
    ensures var t := c.t + 300; Timed(t, es) && EndOf(t, es) == t + NAG * |es| && Hellos(s, t, es, c.mac) == []
  {
    s := BlockRun(c, s0, n);
    EndedIsStuck(c, s, n);
    NaggingIsTimed(c, c.t + 300, es);
    StuckForever(c, s, c.t + 300, es);
  }
}
