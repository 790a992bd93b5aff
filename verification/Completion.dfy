/** When a session is complete, in terms of the Discovers received, and what that does to enumeration. */
module Completion {
  import opened Protocol
  import opened Wire
  import opened Sessions
  import opened Automata
  import opened LoopSpec
  import opened LoopRuns
  import opened LoopProperties
  import opened Opening

  /** The Discover counts no station, or one of the stations it counts, 14 bytes apart, has our source address. */
  predicate NamesUs(f: Frame, mac: Mac) {
    || U16At(f.body, 2) == 0
    || exists i :: 0 <= i < U16At(f.body, 2) && MacAt(f.body, 10 + 14 * i) == mac
  }

  lemma NamingAcknowledges(f: Frame, mac: Mac)
    ensures Acknowledges(f, mac) <==> NamesUs(f, mac)
  {
    if U16At(f.body, 2) != 0 {
      if i :| 0 <= i < StationCount(f) && StationAt(f, i) == mac {
        assert MacAt(f.body, 10 + 14 * i) == mac;
      }
      if i :| 0 <= i < U16At(f.body, 2) && MacAt(f.body, 10 + 14 * i) == mac {
        assert StationAt(f, i) == mac;
      }
    }
  }

  // ----- one Discover ---------------------------------------------------------------------------

  /**
   * The entry of a held Discover: complete exactly if it was before or the Discover names us, under its number,
   * active now, created now if it is new; its last event tells whether it names us and whether its number changed.
   */
  predicate EntryOf(e: Session, was: Table, k: Key, f: Frame, mac: Mac, now: nat) {
    && (e.complete <==> (k in was && was[k].complete) || NamesUs(f, mac))
    && e.seqNumber == f.header.seqNumber
    && e.lastActivity == now
    && e.created == (if k in was then was[k].created else now)
    && e.state == (if k in was && was[k].seqNumber != f.header.seqNumber then (if NamesUs(f, mac) then 5 else 4)
                   else if NamesUs(f, mac) then 3 else 2)
  }

  /** The frame part of a Discover writes its own entry and leaves every other as it was. */
  lemma DiscoverWrites(s: State, t: nat, e: Event, mac: Mac)
    requires Inv(s, t) && Later(e, t) && e.Received? && e.frame.header.opcode == 0x00
    ensures ClockOk(s, e.at)
    ensures var m, k := OnFrame(s, e.frame, mac, e.at).table, Key(e.frame.header.realSource, U16At(e.frame.body, 0));
            if k in m then
              && EntryOf(m[k], s.table, k, e.frame, mac, Seconds(e.at))
              && (forall j | j != k :: (j in m <==> j in s.table) && (j in m ==> m[j] == s.table[j]))
            else m == map[] || (m == s.table && |m| == 16)
  {
    NamingAcknowledges(e.frame, mac);
    LaterInv(s, t, e.at);
  }

  // ----- over runs ------------------------------------------------------------------------------

  predicate NamingDiscover(e: Event, k: Key, mac: Mac) {
    && e.Received? && e.frame.header.opcode == 0x00
    && e.frame.header.realSource == k.mac && U16At(e.frame.body, 0) == k.generation
    && NamesUs(e.frame, mac)
  }

  /** The key is held after every round. */
  ghost predicate HeldThroughout(s: State, t: nat, es: seq<Event>, mac: Mac, k: Key)
    requires Inv(s, t) && Timed(t, es)
    decreases |es|
  {
    es == [] ||
    (k in Step(s, t, es[0], mac).table && HeldThroughout(Step(s, t, es[0], mac), es[0].tickAt, es[1..], mac, k))
  }

  /** Some Discover of the key names us, and from its round on the key is held. */
  ghost predicate NamedSinceOpened(s: State, t: nat, es: seq<Event>, mac: Mac, k: Key)
    requires Inv(s, t) && Timed(t, es)
    decreases |es|
  {
    es != [] &&
    ((NamingDiscover(es[0], k, mac) && HeldThroughout(s, t, es, mac, k))
     || NamedSinceOpened(Step(s, t, es[0], mac), es[0].tickAt, es[1..], mac, k))
  }

  lemma FrameCompletes(s: State, t: nat, e: Event, mac: Mac, k: Key)
    requires Inv(s, t) && Later(e, t)
    ensures ClockOk(s, StartOf(e))
    ensures var m := BeforeTick(s, e, mac).table;
            k in m ==> (m[k].complete <==> (k in s.table && s.table[k].complete) || NamingDiscover(e, k, mac))
  {
    LaterInv(s, t, StartOf(e));
    if IsDiscover(e) {
      DiscoverWrites(s, t, e, mac);
    }
  }

  /** A session held after a round is complete if it was before, or if the round's Discover of its key names us. */
  lemma RoundCompletes(s: State, t: nat, e: Event, mac: Mac, k: Key)
    requires Inv(s, t) && Later(e, t) && k in Step(s, t, e, mac).table
    ensures Step(s, t, e, mac).table[k].complete <==> (k in s.table && s.table[k].complete) || NamingDiscover(e, k, mac)
  {
    BeforeTickInv(s, t, e, mac);
    FrameCompletes(s, t, e, mac, k);
    TickKeepsSessions(BeforeTick(s, e, mac), e.tickAt, k);
  }

  lemma {:induction false} CompleteSince(s: State, t: nat, es: seq<Event>, mac: Mac, k: Key)
    requires Inv(s, t) && Timed(t, es) && k in Run(s, t, es, mac).table
    ensures Run(s, t, es, mac).table[k].complete
       <==> NamedSinceOpened(s, t, es, mac, k)
            || (k in s.table && s.table[k].complete && HeldThroughout(s, t, es, mac, k))
    decreases |es|
  {
    if es != [] {
      var s' := Step(s, t, es[0], mac);
      CompleteSince(s', es[0].tickAt, es[1..], mac, k);
      if k in s'.table {
        RoundCompletes(s, t, es[0], mac, k);
      }
    }
  }

  /** On every run a held session is complete exactly if a Discover of its key since it was opened named us. */
  lemma CompleteIff(s: State, t: nat, es: seq<Event>, mac: Mac, k: Key)
    requires Inv(s, t) && Timed(t, es) && s.table == map[] && k in Run(s, t, es, mac).table
    ensures Run(s, t, es, mac).table[k].complete <==> NamedSinceOpened(s, t, es, mac, k)
  {
    CompleteSince(s, t, es, mac, k);
  }

  // ----- enumeration ends -----------------------------------------------------------------------

  /** A Pausing tick that finds every session complete ends Wait, or Quiescent if none is left, and sends nothing. */
  lemma CompleteTick(m: State, t: nat)
    requires MidInv(m, t) && m.enumeration.state == 1 && forall k | k in m.table :: m.table[k].complete
    ensures Tick(m, t).enumeration.state == (if Tick(m, t).table == map[] then 0 else 2) && TickHellos(m, t) == []
  {
    BeforeHelloInv(m, t);
  }

  /** A Wait tick without a frame before it ends Quiescent and sends nothing. */
  lemma WaitRound(s: State, t: nat, e: Event, mac: Mac)
    requires Inv(s, t) && Later(e, t) && e.Silence? && s.enumeration.state == 2
    ensures Step(s, t, e, mac).enumeration.state == 0 && StepHellos(s, t, e, mac) == []
  {
    BeforeTickInv(s, t, e, mac);
    BeforeHelloInv(s, e.tickAt);
  }

  /**
   * From quiescent enumeration, a Discover that is held and leaves every session complete goes to Wait with its
   * own tick and back with the next silent one; neither sends a Hello.
   */
  lemma CompleteEnds(s: State, t: nat, e: Event, e2: Event, mac: Mac)
    requires Inv(s, t) && Later(e, t) && IsDiscover(e) && s.enumeration.state != 2
    requires Later(e2, e.tickAt) && e2.Silence?
    requires ClockOk(s, e.at) && forall k | k in OnFrame(s, e.frame, mac, e.at).table :: OnFrame(s, e.frame, mac, e.at).table[k].complete
    ensures var s1 := Step(s, t, e, mac);
            && s1.enumeration.state == (if s1.table == map[] then 0 else 2) && StepHellos(s, t, e, mac) == []
            && Step(s1, e.tickAt, e2, mac).enumeration.state == 0 && StepHellos(s1, e.tickAt, e2, mac) == []
  {
    BeforeTickInv(s, t, e, mac);
    CompleteTick(BeforeTick(s, e, mac), e.tickAt);
    var s1 := Step(s, t, e, mac);
    if s1.enumeration.state == 2 {
      WaitRound(s1, e.tickAt, e2, mac);
    } else {
      QuietStays(s1, e.tickAt, e2, mac);
    }
  }

  lemma QuietStays(s: State, t: nat, e: Event, mac: Mac)
    requires Inv(s, t) && Later(e, t) && e.Silence? && s.enumeration.state == 0
    ensures Step(s, t, e, mac).enumeration.state == 0 && StepHellos(s, t, e, mac) == []
  {
    BeforeTickInv(s, t, e, mac);
    BeforeHelloInv(s, e.tickAt);
  }

  /** One Discover that names us, at an interface that holds no session: held, complete, and over with the next silent tick. */
  lemma NamingDiscoverEnds(s: State, t: nat, e: Event, e2: Event, mac: Mac)
    requires Inv(s, t) && Later(e, t) && s.table == map[] && s.mapping.state == QUIESCENT
    requires e.Received? && e.frame.header.opcode == 0x00 && NamesUs(e.frame, mac)
    requires Seconds(e.tickAt) < Seconds(e.at) + 30 && Later(e2, e.tickAt) && e2.Silence?
    ensures var s1 := Step(s, t, e, mac);
            && s1.enumeration.state == 2 && StepHellos(s, t, e, mac) == []
            && Step(s1, e.tickAt, e2, mac).enumeration.state == 0 && StepHellos(s1, e.tickAt, e2, mac) == []
  {
    KeyIsHeldIff(s, t, e, mac);
    DiscoverWrites(s, t, e, mac);
    CompleteEnds(s, t, e, e2, mac);
    BeforeTickInv(s, t, e, mac);
    var k, m := KeyOf(e.frame), BeforeTick(s, e, mac);
    KeptByTick(m, e.tickAt, k);
  }

  /** A tick keeps a session that was active within a minute, unless the inactivity timer is due. */
  lemma KeptByTick(m: State, t: nat, k: Key)
    requires MidInv(m, t)
    ensures k in Tick(m, t).table
       <==> k in m.table && Seconds(t) <= m.table[k].lastActivity + 60
            && (m.timers.inactiveTs == 0 || Seconds(t) < m.timers.inactiveTs)
    ensures k in Tick(m, t).table ==> Tick(m, t).table[k] == m.table[k]
  {
    assert Tick(m, t).table == Expire(TickInactive(m, Seconds(t)).table, Seconds(t));
  }
}
