/** What frames and ticks do to sessions, mapping and session automaton, in terms of the frames received. */
module LoopEffects {
  import opened Protocol
  import opened Wire
  import opened Sessions
  import opened Automata
  import opened RepeatBand
  import opened LoopSpec
  import opened LoopRuns
  import opened Completion

  /** Mapping has heard nothing for more than 5 s in Command, or 30 s in Emit. */
  predicate Overdue(a: Auto, now: nat) {
    (a.state == 1 && now > a.lastTs + 5) || (a.state == 2 && now > a.lastTs + 30)
  }

  // ----- mapping --------------------------------------------------------------------------------

  /**
   * A received frame moves mapping: to Quiescent by a Reset or if it is overdue, from Quiescent to Command by a
   * Discover, from Command to Emit by an Emit; no other frame moves it.
   */
  lemma FrameMovesMapping(s: State, t: nat, e: Event, mac: Mac)
    requires Inv(s, t) && Later(e, t) && e.Received?
    ensures ClockOk(s, e.at)
    ensures var a, a', op, now := s.mapping, OnFrame(s, e.frame, mac, e.at).mapping, e.frame.header.opcode, Seconds(e.at);
            && a'.lastTs == now
            && a'.state == (if op == 0x08 || Overdue(a, now) then 0
                            else if a.state == 0 && op == 0x00 then 1
                            else if a.state == 1 && op == 0x02 then 2
                            else a.state)
  {
    LaterInv(s, t, e.at);
  }

  /** A tick leaves mapping as it is, or Quiescent once the inactivity timer is due. */
  lemma TickMovesMapping(m: State, t: nat)
    requires MidInv(m, t)
    ensures Tick(m, t).mapping.state == (if m.timers.inactiveTs != 0 && Seconds(t) >= m.timers.inactiveTs then 0 else m.mapping.state)
    ensures Tick(m, t).mapping.lastTs == (if m.timers.inactiveTs != 0 && Seconds(t) >= m.timers.inactiveTs then Seconds(t) else m.mapping.lastTs)
  {
    var a := TickInactive(m, Seconds(t));
    assert Tick(m, t).mapping == a.mapping;
  }

  /** From a frame at f on: no Reset, each frame within five seconds of the last, each tick within thirty. */
  predicate Lively(es: seq<Event>, f: nat)
    decreases |es|
  {
    es == [] ||
    (var e := es[0];
     && Seconds(e.tickAt) < Seconds(f) + 30
     && (e.Received? ==> e.frame.header.opcode != 0x08 && Seconds(e.at) <= Seconds(f) + 5 && Seconds(e.tickAt) < Seconds(e.at) + 30)
     && Lively(es[1..], if e.Received? then e.at else f))
  }

  predicate HasEmit(es: seq<Event>)
    decreases |es|
  {
    es != [] && ((es[0].Received? && es[0].frame.header.opcode == 0x02) || HasEmit(es[1..]))
  }

  /** In Command or Emit since a frame at time f. */
  predicate Engaged(s: State, f: nat) {
    && (s.mapping.state == 1 || s.mapping.state == 2)
    && s.mapping.lastTs == Seconds(f) && s.timers.inactiveTs == Seconds(f) + 30
  }

  lemma LivelyRound(s: State, t: nat, e: Event, mac: Mac, f: nat)
    requires Inv(s, t) && Later(e, t) && Engaged(s, f) && Lively([e], f)
    ensures Engaged(Step(s, t, e, mac), if e.Received? then e.at else f)
    ensures Step(s, t, e, mac).mapping.state == 2
       <==> s.mapping.state == 2 || (e.Received? && e.frame.header.opcode == 0x02)
  {
    BeforeTickInv(s, t, e, mac);
    var m := BeforeTick(s, e, mac);
    if e.Received? { FrameMovesMapping(s, t, e, mac); }
    TickMovesMapping(m, e.tickAt);
    assert m.timers.inactiveTs == Seconds(if e.Received? then e.at else f) + 30;
    TimersKept(m, e.tickAt);
  }

  lemma TimersKept(m: State, t: nat)
    requires MidInv(m, t) && Seconds(t) < m.timers.inactiveTs
    ensures Tick(m, t).timers.inactiveTs == m.timers.inactiveTs
  {
    assert Tick(m, t).timers == TickInactive(m, Seconds(t)).timers;
  }

  /**
   * Once engaged, mapping stays so while frames come at least every five seconds and none is a Reset; it is in
   * Emit exactly if it was, or an Emit has come.
   */
  lemma {:induction false} LivelyRun(s: State, t: nat, es: seq<Event>, mac: Mac, f: nat)
    requires Inv(s, t) && Timed(t, es) && Engaged(s, f) && Lively(es, f)
    ensures Run(s, t, es, mac).mapping.state == (if s.mapping.state == 2 || HasEmit(es) then 2 else 1)
    decreases |es|
  {
    if es != [] {
      LivelyRound(s, t, es[0], mac, f);
      LivelyRun(Step(s, t, es[0], mac), es[0].tickAt, es[1..], mac, if es[0].Received? then es[0].at else f);
    }
  }

  // ----- sessions -------------------------------------------------------------------------------

  /** A frame that is no Discover keeps every session, unless it is a Reset or finds mapping overdue: then none is kept. */
  lemma FrameKeepsSessions(s: State, t: nat, e: Event, mac: Mac)
    requires Inv(s, t) && Later(e, t) && e.Received? && e.frame.header.opcode != 0x00
    ensures ClockOk(s, e.at)
    ensures OnFrame(s, e.frame, mac, e.at).table
         == if e.frame.header.opcode == 0x08 || Overdue(s.mapping, Seconds(e.at)) then map[] else s.table
  {
    LaterInv(s, t, e.at);
  }

  predicate DiscoverOf(e: Event, k: Key) {
    && e.Received? && e.frame.header.opcode == 0x00
    && e.frame.header.realSource == k.mac && U16At(e.frame.body, 0) == k.generation
  }

  /** The second of the last Discover of a key. */
  function LastSeen(es: seq<Event>, k: Key, before: nat): nat
    decreases |es|
  {
    if es == [] then before else LastSeen(es[1..], k, if DiscoverOf(es[0], k) then Seconds(es[0].at) else before)
  }

  lemma RoundActive(s: State, t: nat, e: Event, mac: Mac, k: Key)
    requires Inv(s, t) && Later(e, t) && k in Step(s, t, e, mac).table
    ensures var a := Step(s, t, e, mac).table[k].lastActivity;
            && Seconds(e.tickAt) <= a + 60
            && (if DiscoverOf(e, k) then a == Seconds(e.at) else k in s.table && a == s.table[k].lastActivity)
  {
    BeforeTickInv(s, t, e, mac);
    KeptByTick(BeforeTick(s, e, mac), e.tickAt, k);
    if e.Received? {
      if e.frame.header.opcode == 0x00 { DiscoverWrites(s, t, e, mac); } else { FrameKeepsSessions(s, t, e, mac); }
    }
  }

  /** On every run a held session was last active at the last Discover of its key, at most 60 s before the last tick. */
  lemma {:induction false} SessionsAreRecent(s: State, t: nat, es: seq<Event>, mac: Mac, k: Key, before: nat)
    requires Inv(s, t) && Timed(t, es) && es != [] && (k in s.table ==> s.table[k].lastActivity == before)
    requires k in Run(s, t, es, mac).table
    ensures Run(s, t, es, mac).table[k].lastActivity == LastSeen(es, k, before)
    ensures Seconds(EndOf(t, es)) <= LastSeen(es, k, before) + 60
    decreases |es|
  {
    var s', e := Step(s, t, es[0], mac), es[0];
    if k in s'.table { RoundActive(s, t, e, mac, k); }
    if |es| == 1 {
      assert es[1..] == [];
    } else {
      SessionsAreRecent(s', e.tickAt, es[1..], mac, k, if DiscoverOf(e, k) then Seconds(e.at) else before);
    }
  }

  /** A silent round keeps a session exactly if it was active within a minute and the inactivity timer is not due. */
  lemma SilentRoundKeeps(s: State, t: nat, e: Event, mac: Mac, k: Key)
    requires Inv(s, t) && Later(e, t) && e.Silence?
    ensures k in Step(s, t, e, mac).table
       <==> k in s.table && Seconds(e.tickAt) <= s.table[k].lastActivity + 60
            && (s.timers.inactiveTs == 0 || Seconds(e.tickAt) < s.timers.inactiveTs)
  {
    BeforeTickInv(s, t, e, mac);
    KeptByTick(s, e.tickAt, k);
  }

  // ----- the session automaton ------------------------------------------------------------------

  /** The session event of a frame: Resets by destination, Hellos, Discovers by whether they name us and change a number. */
  lemma EventOfFrame(f: Frame, m: Table, mac: Mac)
    ensures var k, op := Key(f.header.realSource, U16At(f.body, 0)), f.header.opcode;
            DeriveEvent(f, m, mac)
            == if op == 0x08 then (if f.header.realDest == [0xFF, 0xFF, 0xFF, 0xFF, 0xFF, 0xFF] then 6 else 1)
               else if op == 0x01 then 7
               else if op != 0x00 then -1
               else if k in m && m[k].seqNumber != f.header.seqNumber then (if NamesUs(f, mac) then 5 else 4)
               else if NamesUs(f, mac) then 3 else 2
  {
    NamingAcknowledges(f, mac);
  }

  /**
   * Nascent is 1, Pending 2, Complete 3.  A frame more than a second after the automaton last moved makes it
   * Nascent.  Otherwise a Discover under a new key or its old number makes it Complete or, from Nascent, Pending;
   * under a changed number, Complete from Pending and Pending from Complete; a Reset to us alone ends Pending.
   */
  lemma FrameMovesSession(s: State, t: nat, e: Event, mac: Mac)
    requires Inv(s, t) && Later(e, t) && e.Received?
    ensures ClockOk(s, e.at)
    ensures var f, q, q', now := e.frame, s.session, OnFrame(s, e.frame, mac, e.at).session, Seconds(e.at);
            var k, op, us := Key(f.header.realSource, U16At(f.body, 0)), f.header.opcode, NamesUs(f, mac);
            var changed := k in s.table && s.table[k].seqNumber != f.header.seqNumber;
            if op != 0x00 && op != 0x01 && op != 0x08 then q' == q
            else
              && q'.lastTs == now
              && q'.state == (if now > q.lastTs + 1 then 1
                              else if op == 0x08 then
                                (if q.state == 2 && f.header.realDest != [0xFF, 0xFF, 0xFF, 0xFF, 0xFF, 0xFF] then 1 else q.state)
                              else if op == 0x01 then q.state
                              else if q.state == 1 then (if changed then 1 else if us then 3 else 2)
                              else if q.state == 2 then (if us then 3 else 2)
                              else if changed && !us then 2 else 3)
  {
    EventOfFrame(e.frame, s.table, mac);
    LaterInv(s, t, e.at);
  }

  /** A tick leaves the session automaton alone. */
  lemma TickKeepsSession(m: State, t: nat)
    requires MidInv(m, t)
    ensures Tick(m, t).session == m.session
  {
    BeforeHelloInv(m, t);
  }

  // ----- enumeration ----------------------------------------------------------------------------

  /** A received Discover makes enumeration Pausing; no other frame moves it, and a Hello only restarts its clock. */
  lemma FrameMovesEnumeration(s: State, t: nat, e: Event, mac: Mac)
    requires Inv(s, t) && Later(e, t) && e.Received?
    ensures ClockOk(s, e.at)
    ensures var q, q', op := s.enumeration, OnFrame(s, e.frame, mac, e.at).enumeration, e.frame.header.opcode;
            && q'.state == (if op == 0x00 then 1 else q.state)
            && q'.lastTs == (if op == 0x00 || op == 0x01 then Seconds(e.at) else q.lastTs)
  {
    LaterInv(s, t, e.at);
  }

  /**
   * A tick ends running enumeration if it leaves no session, and disarms the band; if all it leaves are complete
   * it takes Pausing to Wait and Wait to Quiescent; an incomplete one makes it Pausing.
   */
  lemma TickMovesEnumeration(m: State, t: nat)
    requires MidInv(m, t)
    ensures var a, q, left := m.enumeration.state, Tick(m, t).enumeration.state, Tick(m, t).table;
            && (a == 0 || left == map[] ==> q == 0)
            && (a != 0 && left != map[] ==>
                  if forall k | k in left :: left[k].complete then q == (if a == 1 then 2 else 0) else q == 1)
    ensures m.enumeration.state != 0 && Tick(m, t).table == map[] ==>
              var b := Tick(m, t).band; b.helloTs == 0 && b.blockTs == 0 && !b.begun && b.ni == m.band.ni && b.r == m.band.r
    ensures var q := Tick(m, t).enumeration;
            q.lastTs == if m.enumeration.state == 0 || Tick(m, t).table == map[] then m.enumeration.lastTs else Seconds(t)
  {
    BeforeHelloInv(m, t);
  }

  // ----- what is remembered of the mapper -------------------------------------------------------

  /** A Discover with room in the table is remembered: its sender, and its generation in the slot of its service. */
  lemma FrameMovesInfo(s: State, t: nat, e: Event, mac: Mac)
    requires Inv(s, t) && Later(e, t) && e.Received?
    ensures ClockOk(s, e.at)
    ensures var i, h, g := s.info, e.frame.header, U16At(e.frame.body, 0);
            OnFrame(s, e.frame, mac, e.at).info
            == if h.opcode != 0x00 || (Key(h.realSource, g) !in s.table && |s.table| == 16) then i
               else if h.tos == 1 then Info(i.lastHelloTx, h.realSource, i.genTopology, g)
               else Info(i.lastHelloTx, h.realSource, g, i.genQuick)
  {
    LaterInv(s, t, e.at);
  }

  /** A frame rearms the inactivity timer, 30 s; a Charge counts in eight bits and rearms the charge timer, 1 s. */
  lemma FrameMovesTimers(s: State, t: nat, e: Event, mac: Mac)
    requires Inv(s, t) && Later(e, t) && e.Received?
    ensures ClockOk(s, e.at)
    ensures var m, now := s.timers, Seconds(e.at);
            OnFrame(s, e.frame, mac, e.at).timers
            == if e.frame.header.opcode == 0x09 then Timers((m.ctc + 1) % 256, now + 1, now + 30) else m.(inactiveTs := now + 30)
  {
    LaterInv(s, t, e.at);
  }

  /** A tick clears all timers once the inactivity timer is due, and else the charge timer and count once that is. */
  lemma TickMovesTimers(m: State, t: nat)
    requires MidInv(m, t)
    ensures Tick(m, t).timers
         == if m.timers.inactiveTs != 0 && Seconds(t) >= m.timers.inactiveTs then Timers(0, 0, 0)
            else if m.timers.chargeTs != 0 && Seconds(t) >= m.timers.chargeTs then Timers(0, 0, m.timers.inactiveTs)
            else m.timers
  {
    assert Tick(m, t).timers == TickInactive(m, Seconds(t)).timers;
  }

  // ----- the Hello and block parts of a tick ----------------------------------------------------

  /**
   * b is the state with sessions and enumeration up to date.  A due Hello goes out a second after the last at the
   * earliest, and until then waits for that second; a block that is over ends; the deadlines follow.
   */
  lemma TickMovesDeadlines(b: State, t: nat)
    requires Inv(b, t)
    ensures var b', last := TickBlock(TickHello(b, t), t), b.info.lastHelloTx;
            var due := b.enumeration.state == 1 && 0 < b.band.helloTs <= t;
            var sends := due && (last == 0 || t >= last + 1000);
            var ends := b.enumeration.state == 1 && 0 < b.band.blockTs <= t;
            && b'.info.lastHelloTx == (if sends then t else last)
            && b'.band.blockTs == (if ends then t + 300 else b.band.blockTs)
            && b'.band.helloTs == (if ends then t + Interval(b'.band.ni)
                                   else if sends then t + (if Interval(b.band.ni) > 1000 then Interval(b.band.ni) else 1000)
                                   else if due then last + 1000
                                   else b.band.helloTs)
  {
  }

  /** That state has the deadlines the tick began with, unless enumeration ended; and the tick is its two parts on it. */
  lemma TickParts(m: State, t: nat)
    requires MidInv(m, t)
    ensures var b := BeforeHello(m, t);
            && Inv(b, t) && (b.enumeration.state != 0 ==> b.band == m.band) && b.info == m.info
            && Tick(m, t) == TickBlock(TickHello(b, t), t)
            && (TickHellos(m, t) != [] <==> b.enumeration.state == 1 && 0 < b.band.helloTs <= t
                                            && (b.info.lastHelloTx == 0 || t >= b.info.lastHelloTx + 1000))
  {
    BeforeHelloInv(m, t);
  }
}
