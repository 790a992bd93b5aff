/** What becomes of a received Discover: when it opens its session and starts enumeration, and when it is lost. */
module Opening {
  import opened Protocol
  import opened Sessions
  import opened Automata
  import opened RepeatBand
  import opened LoopSpec
  import opened LoopRuns
  import opened LoopProperties

  predicate IsDiscover(e: Event) {
    e.Received? && e.frame.header.opcode == OPCODE_DISCOVER
  }

  /** The mapping automaton has waited longer than its state allows: the next input is discarded for the timeout. */
  predicate TimedOut(a: Auto, now: nat)
    requires a.state <= EMIT
  {
    a.state != QUIESCENT && now > a.lastTs + MAPPING_TIMEOUTS[a.state]
  }

  /** After the frame part a Discover's key is held exactly if the table had it or room, and mapping had not timed out. */
  lemma KeyIsHeldIff(s: State, t: nat, e: Event, mac: Mac)
    requires Inv(s, t) && Later(e, t) && IsDiscover(e)
    ensures ClockOk(s, e.at)
    ensures KeyOf(e.frame) in OnFrame(s, e.frame, mac, e.at).table
       <==> (KeyOf(e.frame) in s.table || |s.table| < MAX_ENTRIES) && !TimedOut(s.mapping, Seconds(e.at))
  {
  }

  /**
   * A Discover that finds mapping timed out is lost: its session is opened and cleared again, the round ends
   * with everything quiescent, and its tick sends no Hello.
   */
  lemma LateDiscoverIsLost(s: State, t: nat, e: Event, mac: Mac)
    requires Inv(s, t) && Later(e, t) && IsDiscover(e) && TimedOut(s.mapping, Seconds(e.at))
    ensures Drained(Step(s, t, e, mac)) && StepHellos(s, t, e, mac) == []
  {
    BeforeTickInv(s, t, e, mac);
    var m := BeforeTick(s, e, mac);
    assert m.table == map[] && m.mapping.state == QUIESCENT;
    BeforeHelloInv(m, e.tickAt);
    assert BeforeHello(m, e.tickAt).table == map[];
  }

  // ----- the first Discover ---------------------------------------------------------------------

  predicate StartsEnumeration(s: State, e: Event) { IsDiscover(e) && s.enumeration.state == QUIESCENT }

  /**
   * What a caller can see before the call: mapping has not timed out, the tick comes within the inactivity
   * timeout, and some session the table then holds and keeps is incomplete.
   */
  predicate Begins(s: State, e: Event, mac: Mac)
    requires InRange(s) && IsDiscover(e)
  {
    && !TimedOut(s.mapping, Seconds(e.at))
    && Seconds(e.tickAt) < Seconds(e.at) + INACTIVE_TIMEOUT_S
    && !AllComplete(Expire(Discovered(s.table, e.frame, mac, Seconds(e.at)), Seconds(e.tickAt)))
  }

  lemma TickPausesIff(m: State, t: nat)
    requires MidInv(m, t) && m.enumeration.state == PAUSING
    ensures Tick(m, t).enumeration.state == PAUSING
       <==> !InactiveDue(m.timers, Seconds(t)) && !AllComplete(Expire(m.table, Seconds(t)))
  {
    BeforeHelloInv(m, t);
    assert Expire(map[], Seconds(t)) == map[];
    assert Expire(m.table, Seconds(t)) == map[] ==> AllComplete(Expire(m.table, Seconds(t)));
  }

  lemma DiscoverFrame(s: State, t: nat, e: Event, mac: Mac)
    requires Inv(s, t) && Later(e, t) && StartsEnumeration(s, e)
    ensures ClockOk(s, e.at)
    ensures var m := OnFrame(s, e.frame, mac, e.at);
            && m.enumeration.state == PAUSING
            && m.timers.inactiveTs == Seconds(e.at) + INACTIVE_TIMEOUT_S
            && m.table == if TimedOut(s.mapping, Seconds(e.at)) then map[]
                          else Discovered(s.table, e.frame, mac, Seconds(e.at))
  {
  }

  /** From quiescent enumeration a Discover's round ends Pausing exactly then. */
  lemma EnumerationBeginsIff(s: State, t: nat, e: Event, mac: Mac)
    requires Inv(s, t) && Later(e, t) && StartsEnumeration(s, e)
    ensures Step(s, t, e, mac).enumeration.state == PAUSING <==> Begins(s, e, mac)
  {
    BeforeTickInv(s, t, e, mac);
    DiscoverFrame(s, t, e, mac);
    TickPausesIff(BeforeTick(s, e, mac), e.tickAt);
    assert Expire(map[], Seconds(e.tickAt)) == map[];
  }

  // ----- the loss is reached, and does not last -------------------------------------------------

  /** In Command since the second of a frame at time f, the inactivity timer running from it. */
  predicate Commanded(s: State, f: nat) {
    s.mapping == Auto(COMMAND, Seconds(f)) && s.timers.inactiveTs == Seconds(f) + INACTIVE_TIMEOUT_S
  }

  lemma TickKeepsCommanded(m: State, t: nat, f: nat)
    requires MidInv(m, t) && Commanded(m, f) && Seconds(t) < Seconds(f) + INACTIVE_TIMEOUT_S
    ensures Commanded(Tick(m, t), f)
  {
    var a := TickInactive(m, Seconds(t));
    assert Tick(m, t).mapping == a.mapping && Tick(m, t).timers == a.timers;
  }

  lemma QuietRoundKeepsCommanded(s: State, t: nat, e: Event, mac: Mac, f: nat)
    requires Inv(s, t) && Later(e, t) && e.Silence? && Commanded(s, f) && Seconds(e.tickAt) < Seconds(f) + INACTIVE_TIMEOUT_S
    ensures Commanded(Step(s, t, e, mac), f)
  {
    BeforeTickInv(s, t, e, mac);
    TickKeepsCommanded(s, e.tickAt, f);
  }

  lemma {:induction false} SilenceKeepsCommanded(s: State, t: nat, es: seq<Event>, mac: Mac, f: nat)
    requires Inv(s, t) && Timed(t, es) && AllSilent(es) && Commanded(s, f)
    requires Seconds(EndOf(t, es)) < Seconds(f) + INACTIVE_TIMEOUT_S
    ensures Commanded(Run(s, t, es, mac), f)
    decreases |es|
  {
    if es != [] {
      EndIsLater(es[0].tickAt, es[1..]);
      SilentParts(es);
      QuietRoundKeepsCommanded(s, t, es[0], mac, f);
      SilenceKeepsCommanded(Step(s, t, es[0], mac), es[0].tickAt, es[1..], mac, f);
    }
  }

  lemma SilentParts(es: seq<Event>)
    requires es != [] && AllSilent(es)
    ensures es[0].Silence? && AllSilent(es[1..])
  {
    assert forall e | e in es[1..] :: e in es;
  }

  lemma {:induction false} EndIsLater(t: nat, es: seq<Event>)
    requires Timed(t, es)
    ensures t <= EndOf(t, es) && Seconds(t) <= Seconds(EndOf(t, es))
    decreases |es|
  {
    if es != [] { EndIsLater(es[0].tickAt, es[1..]); }
  }

  lemma DiscoverCommands(s: State, t: nat, e: Event, mac: Mac)
    requires Inv(s, t) && Later(e, t) && IsDiscover(e) && s.mapping.state == QUIESCENT
    requires Seconds(e.tickAt) < Seconds(e.at) + INACTIVE_TIMEOUT_S
    ensures Commanded(Step(s, t, e, mac), e.at)
  {
    BeforeTickInv(s, t, e, mac);
    TickKeepsCommanded(BeforeTick(s, e, mac), e.tickAt, e.at);
  }

  /**
   * From any state with mapping quiescent: a Discover, silence, and a second Discover more than five seconds
   * after the first, while the inactivity timer has not fired at a tick.  The second is lost, and the same
   * Discover repeated is not.
   */
  lemma SilenceLosesDiscover(s: State, t: nat, e1: Event, quiet: seq<Event>, e2: Event, e3: Event, mac: Mac)
    requires Inv(s, t) && s.mapping.state == QUIESCENT
    requires IsDiscover(e1) && IsDiscover(e2) && IsDiscover(e3) && AllSilent(quiet)
    requires Later(e1, t) && Timed(e1.tickAt, quiet) && Later(e2, EndOf(e1.tickAt, quiet)) && Later(e3, e2.tickAt)
    requires Seconds(EndOf(e1.tickAt, quiet)) < Seconds(e1.at) + INACTIVE_TIMEOUT_S
    requires Seconds(e2.at) > Seconds(e1.at) + 5
    ensures var now := EndOf(e1.tickAt, quiet);
            var s1 := Run(Step(s, t, e1, mac), e1.tickAt, quiet, mac);
            var s2 := Step(s1, now, e2, mac);
            && Drained(s2) && StepHellos(s1, now, e2, mac) == []
            && ClockOk(s2, e3.at) && KeyOf(e3.frame) in OnFrame(s2, e3.frame, mac, e3.at).table
  {
    var now := EndOf(e1.tickAt, quiet);
    EndIsLater(e1.tickAt, quiet);
    DiscoverCommands(s, t, e1, mac);
    SilenceKeepsCommanded(Step(s, t, e1, mac), e1.tickAt, quiet, mac, e1.at);
    var s1 := Run(Step(s, t, e1, mac), e1.tickAt, quiet, mac);
    LateDiscoverIsLost(s1, now, e2, mac);
    KeyIsHeldIff(Step(s1, now, e2, mac), e2.tickAt, e3, mac);
  }
}
