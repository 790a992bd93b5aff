/** Runs of the receive loop and the invariant every round restores. */
module LoopRuns {
  import opened Protocol
  import opened Wire
  import opened Sessions
  import opened Automata
  import opened RepeatBand
  import opened LoopSpec

  /** The time at which a round's frame is handled. */
  function StartOf(e: Event): nat { if e.Received? then e.at else e.tickAt }

  predicate Later(e: Event, t: nat) { t <= StartOf(e) <= e.tickAt }

  /** What the round's tick starts from. */
  function BeforeTick(s: State, e: Event, mac: Mac): State
    requires InRange(s) && ClockOk(s, StartOf(e))
  {
    if e.Received? then OnFrame(s, e.frame, mac, e.at) else s
  }

  ghost predicate Coupled(s: State) {
    && (s.enumeration.state != QUIESCENT ==> s.table != map[])
    && (s.table != map[] ==> s.mapping.state != QUIESCENT)
    && (s.enumeration.state == PAUSING ==> !AllComplete(s.table))
    && (s.enumeration.state == WAIT ==> AllComplete(s.table))
  }

  predicate TimersArmed(s: State) {
    && (s.enumeration.state != QUIESCENT ==> s.band.helloTs > 0 && s.band.blockTs > 0)
    && (s.mapping.state != QUIESCENT ==> s.timers.inactiveTs > 0)
  }

  /** Holds whenever the loop is about to receive, t being the last clock reading. */
  ghost predicate Inv(s: State, t: nat) {
    && InRange(s)
    && ClockOk(s, t)
    && Coupled(s)
    && TimersArmed(s)
    && s.session.state in {NASCENT, PENDING, COMPLETE}
    && |s.table| <= MAX_ENTRIES
    && s.band.ni <= NMAX
    && s.timers.inactiveTs <= Seconds(t) + INACTIVE_TIMEOUT_S
  }

  // ----- one round ------------------------------------------------------------------------------

  /** What survives the frame part of a round, when the coupling is broken until the tick. */
  ghost predicate MidInv(s: State, t: nat) {
    && InRange(s)
    && ClockOk(s, t)
    && (s.table != map[] ==> s.mapping.state != QUIESCENT)
    && TimersArmed(s)
    && s.session.state in {NASCENT, PENDING, COMPLETE}
    && |s.table| <= MAX_ENTRIES
    && s.band.ni <= NMAX
    && s.timers.inactiveTs <= Seconds(t) + INACTIVE_TIMEOUT_S
    && (s.enumeration.state == WAIT ==> AllComplete(s.table))
  }

  lemma DiscoveredBound(m: Table, f: Frame, mac: Mac, now: nat)
    requires |m| <= MAX_ENTRIES
    ensures |Discovered(m, f, mac, now)| <= MAX_ENTRIES
  {
    AddKeepsBound(m, KeyOf(f), f.header.seqNumber, now);
  }

  lemma FrameKeepsTable(s: State, f: Frame, mac: Mac, t: nat)
    requires Inv(s, t)
    ensures |OnFrame(s, f, mac, t).table| <= MAX_ENTRIES
    ensures var s' := OnFrame(s, f, mac, t); s'.table != map[] ==> s'.mapping.state != QUIESCENT
    ensures var s' := OnFrame(s, f, mac, t); s'.enumeration.state == WAIT ==> AllComplete(s'.table)
  {
    DiscoveredBound(s.table, f, mac, Seconds(t));
    if f.header.opcode != OPCODE_DISCOVER {
      var s' := OnFrame(s, f, mac, t);
      assert s'.table == s.table || s'.table == map[];
    }
  }

  lemma FrameKeepsMidInv(s: State, f: Frame, mac: Mac, t: nat)
    requires Inv(s, t)
    ensures MidInv(OnFrame(s, f, mac, t), t)
  {
    FrameKeepsTable(s, f, mac, t);
  }

  lemma TickInactiveInv(s: State, t: nat)
    requires MidInv(s, t)
    ensures MidInv(TickInactive(s, Seconds(t)), t)
    ensures InactiveDue(s.timers, Seconds(t)) ==> TickInactive(s, Seconds(t)).mapping.state == QUIESCENT
  {
  }

  lemma TickExpireInv(s: State, t: nat)
    requires MidInv(s, t)
    ensures MidInv(TickExpire(s, Seconds(t)), t)
  {
    ExpireKeepsBound(s.table, Seconds(t));
    assert s.table == map[] ==> Expire(s.table, Seconds(t)) == map[];
  }

  lemma TickEnumerationInv(s: State, t: nat)
    requires MidInv(s, t)
    ensures Inv(TickEnumeration(s, Seconds(t)), t)
  {
  }

  lemma TickHelloInv(s: State, t: nat)
    requires Inv(s, t)
    ensures Inv(TickHello(s, t), t)
  {
  }

  lemma TickBlockInv(s: State, t: nat)
    requires Inv(s, t)
    ensures Inv(TickBlock(s, t), t)
  {
  }

  /** The state the tick decides from is already coupled. */
  lemma BeforeHelloInv(s: State, t: nat)
    requires MidInv(s, t)
    ensures Inv(BeforeHello(s, t), t)
    ensures BeforeHello(s, t).info == s.info && BeforeHello(s, t).session == s.session
  {
    TickInactiveInv(s, t);
    TickExpireInv(TickInactive(s, Seconds(t)), t);
    TickEnumerationInv(TickExpire(TickInactive(s, Seconds(t)), Seconds(t)), t);
  }

  lemma TickInv(s: State, t: nat)
    requires MidInv(s, t)
    ensures Inv(Tick(s, t), t)
  {
    BeforeHelloInv(s, t);
    TickHelloInv(BeforeHello(s, t), t);
    TickBlockInv(TickHello(BeforeHello(s, t), t), t);
  }

  lemma LaterInv(s: State, t: nat, t': nat)
    requires Inv(s, t) && t <= t'
    ensures Inv(s, t')
  {
  }

  lemma LaterMidInv(s: State, t: nat, t': nat)
    requires MidInv(s, t) && t <= t'
    ensures MidInv(s, t')
  {
  }

  /** A round's tick starts from a state in the middle invariant. */
  lemma BeforeTickInv(s: State, t: nat, e: Event, mac: Mac)
    requires Inv(s, t) && Later(e, t)
    ensures InRange(s) && ClockOk(s, StartOf(e))
    ensures MidInv(BeforeTick(s, e, mac), e.tickAt)
  {
    LaterInv(s, t, StartOf(e));
    if e.Received? {
      FrameKeepsMidInv(s, e.frame, mac, e.at);
      LaterMidInv(OnFrame(s, e.frame, mac, e.at), e.at, e.tickAt);
    }
  }

  ghost function Step(s: State, t: nat, e: Event, mac: Mac): (s': State)
    requires Inv(s, t) && Later(e, t)
    ensures Inv(s', e.tickAt)
  {
    BeforeTickInv(s, t, e, mac);
    TickInv(BeforeTick(s, e, mac), e.tickAt);
    Tick(BeforeTick(s, e, mac), e.tickAt)
  }

  ghost function StepHellos(s: State, t: nat, e: Event, mac: Mac): seq<HelloTx>
    requires Inv(s, t) && Later(e, t)
  {
    BeforeTickInv(s, t, e, mac);
    TickHellos(BeforeTick(s, e, mac), e.tickAt)
  }

  // ----- runs -----------------------------------------------------------------------------------

  /** The rounds' clock readings never go backwards, from t on. */
  predicate Timed(t: nat, es: seq<Event>)
    decreases |es|
  {
    es == [] || (Later(es[0], t) && Timed(es[0].tickAt, es[1..]))
  }

  function EndOf(t: nat, es: seq<Event>): nat
    decreases |es|
  {
    if es == [] then t else EndOf(es[0].tickAt, es[1..])
  }

  /** Every round keeps the invariant, so every run ends in a state of the invariant. */
  ghost function Run(s: State, t: nat, es: seq<Event>, mac: Mac): (s': State)
    requires Inv(s, t) && Timed(t, es)
    ensures Inv(s', EndOf(t, es))
    decreases |es|
  {
    if es == [] then s else Run(Step(s, t, es[0], mac), es[0].tickAt, es[1..], mac)
  }

  /** The Hellos the ticks of a run send, in order. */
  ghost function Hellos(s: State, t: nat, es: seq<Event>, mac: Mac): seq<HelloTx>
    requires Inv(s, t) && Timed(t, es)
    decreases |es|
  {
    if es == [] then []
    else StepHellos(s, t, es[0], mac) + Hellos(Step(s, t, es[0], mac), es[0].tickAt, es[1..], mac)
  }

  /** es leads from s at t to s' at t'. */
  ghost predicate Leads(s: State, t: nat, es: seq<Event>, mac: Mac, s': State, t': nat) {
    && Inv(s, t) && Timed(t, es)
    && Run(s, t, es, mac) == s' && EndOf(t, es) == t'
  }

  lemma LeadsOne(s: State, t: nat, e: Event, mac: Mac)
    requires Inv(s, t) && Later(e, t)
    ensures Leads(s, t, [e], mac, Step(s, t, e, mac), e.tickAt)
  {
    var s' := Step(s, t, e, mac);
    assert [e][1..] == [];
    assert Timed(e.tickAt, []) && Run(s', e.tickAt, [], mac) == s';
  }

  lemma LeadsCons(s: State, t: nat, es: seq<Event>, s1: State, s2: State, t2: nat, mac: Mac)
    requires es != [] && Inv(s, t) && Later(es[0], t) && s1 == Step(s, t, es[0], mac)
    requires Leads(s1, es[0].tickAt, es[1..], mac, s2, t2)
    ensures Leads(s, t, es, mac, s2, t2)
  {
    assert Timed(t, es);
  }

  lemma LeadsTail(s: State, t: nat, es: seq<Event>, s2: State, t2: nat, mac: Mac) returns (s1: State)
    requires Leads(s, t, es, mac, s2, t2) && es != []
    ensures Inv(s, t) && Later(es[0], t) && s1 == Step(s, t, es[0], mac)
    ensures Leads(s1, es[0].tickAt, es[1..], mac, s2, t2)
  {
    s1 := Step(s, t, es[0], mac);
  }

  lemma TailOfAppend<T>(a: seq<T>, b: seq<T>)
    requires a != []
    ensures (a + b)[0] == a[0] && (a + b)[1..] == a[1..] + b
  {
  }

  /** Runs compose. */
  lemma {:induction false} LeadsAppend(s: State, t: nat, a: seq<Event>, s1: State, t1: nat, b: seq<Event>, s2: State, t2: nat,
                                       mac: Mac)
    requires Leads(s, t, a, mac, s1, t1) && Leads(s1, t1, b, mac, s2, t2)
    ensures Leads(s, t, a + b, mac, s2, t2)
    decreases |a|
  {
    if a == [] {
      assert a + b == b;
    } else {
      var next := LeadsTail(s, t, a, s1, t1, mac);
      LeadsAppend(next, a[0].tickAt, a[1..], s1, t1, b, s2, t2, mac);
      TailOfAppend(a, b);
      LeadsCons(s, t, a + b, next, s2, t2, mac);
    }
  }
}
