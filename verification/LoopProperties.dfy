/** What every run of the receive loop promises: Hello timing in both directions, drainage, and the session automaton. */
module LoopProperties {
  import opened Protocol
  import opened Wire
  import opened Sessions
  import opened Automata
  import opened RepeatBand
  import opened LoopSpec
  import opened LoopRuns

  // ----- one round and its Hello ----------------------------------------------------------------

  /** The tick of a round sends at most one Hello, and never within the minimum interval of its last one. */
  lemma RoundHello(s: State, t: nat, e: Event, mac: Mac)
    requires Inv(s, t) && Later(e, t)
    ensures var hs := StepHellos(s, t, e, mac);
            var s' := Step(s, t, e, mac);
            if hs == [] then s'.info.lastHelloTx == s.info.lastHelloTx
            else
              && |hs| == 1
              && hs[0].at == e.tickAt == s'.info.lastHelloTx
              && e.tickAt > 0
              && (s.info.lastHelloTx > 0 ==> e.tickAt >= s.info.lastHelloTx + HELLO_MIN_INTERVAL_MS)
  {
    BeforeTickInv(s, t, e, mac);
    BeforeHelloInv(BeforeTick(s, e, mac), e.tickAt);
  }

  lemma HelloNeedsIncompleteSession(s: State, t: nat, e: Event, mac: Mac)
    requires Inv(s, t) && Later(e, t) && StepHellos(s, t, e, mac) != []
    ensures exists k :: k in Step(s, t, e, mac).table && !Step(s, t, e, mac).table[k].complete
  {
    BeforeTickInv(s, t, e, mac);
    var b := BeforeHello(BeforeTick(s, e, mac), e.tickAt);
    BeforeHelloInv(BeforeTick(s, e, mac), e.tickAt);
    assert !AllComplete(b.table) && Step(s, t, e, mac).table == b.table;
  }

  // ----- rate limit -----------------------------------------------------------------------------

  /** Each Hello is at least the minimum interval after the one before; last is 0 when there was none. */
  ghost predicate Spaced(last: nat, hs: seq<HelloTx>)
    decreases |hs|
  {
    hs == [] ||
    (hs[0].at > 0 && (last > 0 ==> hs[0].at >= last + HELLO_MIN_INTERVAL_MS) && Spaced(hs[0].at, hs[1..]))
  }

  lemma {:induction false} RunHellosSpaced(s: State, t: nat, es: seq<Event>, mac: Mac)
    requires Inv(s, t) && Timed(t, es)
    ensures Spaced(s.info.lastHelloTx, Hellos(s, t, es, mac))
    decreases |es|
  {
    if es == [] {
    } else {
      var e, s', hs := es[0], Step(s, t, es[0], mac), StepHellos(s, t, es[0], mac);
      RoundHello(s, t, e, mac);
      RunHellosSpaced(s', e.tickAt, es[1..], mac);
      var rest := Hellos(s', e.tickAt, es[1..], mac);
      if hs == [] {
        assert hs + rest == rest;
      } else {
        assert (hs + rest)[0] == hs[0] && (hs + rest)[1..] == rest;
      }
    }
  }

  lemma {:induction false} SpacedPairs(last: nat, hs: seq<HelloTx>, i: nat, j: nat)
    requires Spaced(last, hs) && i <= j < |hs|
    ensures hs[j].at >= hs[i].at + HELLO_MIN_INTERVAL_MS * (j - i)
    decreases j
  {
    if i > 0 {
      SpacedPairs(hs[0].at, hs[1..], i - 1, j - 1);
    } else if j > 0 {
      SpacedPairs(hs[0].at, hs[1..], 0, j - 1);
    }
  }

  /** Any two tick Hellos of a run are at least a second apart for each step between them. */
  lemma HelloRateLimit(t: nat, es: seq<Event>, mac: Mac, i: nat, j: nat)
    requires Timed(t, es)
    requires i <= j < |Hellos(Initial(t), t, es, mac)|
    ensures var hs := Hellos(Initial(t), t, es, mac); hs[j].at - hs[i].at >= 1000 * (j - i)
  {
    RunHellosSpaced(Initial(t), t, es, mac);
    SpacedPairs(0, Hellos(Initial(t), t, es, mac), i, j);
  }

  function CountWithin(hs: seq<HelloTx>, from: nat, length: nat): nat {
    if hs == [] then 0
    else (if from <= hs[0].at <= from + length then 1 else 0) + CountWithin(hs[1..], from, length)
  }

  lemma {:induction false} SpacedWindow(last: nat, hs: seq<HelloTx>, from: nat, length: nat)
    requires last > 0 && Spaced(last, hs)
    ensures last + 1000 > from + length ==> CountWithin(hs, from, length) == 0
    ensures last >= from && last + 1000 <= from + length ==> CountWithin(hs, from, length) <= (from + length - last) / 1000
    ensures CountWithin(hs, from, length) <= length / 1000 + 1
    decreases |hs|
  {
    if hs != [] {
      SpacedWindow(hs[0].at, hs[1..], from, length);
    }
  }

  /** A window of the given length holds at most one tick Hello for each full second, and one more. */
  lemma HelloWindow(t: nat, es: seq<Event>, mac: Mac, from: nat, length: nat)
    requires Timed(t, es)
    ensures CountWithin(Hellos(Initial(t), t, es, mac), from, length) <= length / 1000 + 1
  {
    var hs := Hellos(Initial(t), t, es, mac);
    RunHellosSpaced(Initial(t), t, es, mac);
    if hs != [] {
      SpacedWindow(hs[0].at, hs[1..], from, length);
    }
  }

  // ----- bounded response -----------------------------------------------------------------------

  /** After every round enumeration is Pausing, the interval is at most i, and ticks are at most g apart. */
  ghost predicate Steady(s: State, t: nat, es: seq<Event>, mac: Mac, i: nat, g: nat)
    requires Inv(s, t) && Timed(t, es)
    decreases |es|
  {
    es == [] ||
    (var s' := Step(s, t, es[0], mac);
     && es[0].tickAt <= t + g
     && s'.enumeration.state == PAUSING
     && Interval(s'.band.ni) <= i
     && Steady(s', es[0].tickAt, es[1..], mac, i, g))
  }

  /** The deadline that keeps the next Hello within 1000 + i of the last one. */
  predicate Promised(s: State, t: nat, i: nat) {
    var last := s.info.lastHelloTx;
    && s.enumeration.state == PAUSING
    && Interval(s.band.ni) <= i
    && last > 0
    && t < last + HELLO_MIN_INTERVAL_MS + i
    && (s.band.helloTs <= last + HELLO_MIN_INTERVAL_MS
        || (s.band.helloTs <= s.band.blockTs && s.band.helloTs < last + HELLO_MIN_INTERVAL_MS + i))
  }

  /** While Pausing, a frame part changes neither deadline nor the estimate. */
  lemma FrameKeepsDeadlines(s: State, t: nat, e: Event, mac: Mac)
    requires Inv(s, t) && Later(e, t) && s.enumeration.state == PAUSING
    ensures ClockOk(s, StartOf(e))
    ensures var m := BeforeTick(s, e, mac);
            && m.enumeration.state == PAUSING
            && m.band.helloTs == s.band.helloTs && m.band.blockTs == s.band.blockTs && m.band.ni == s.band.ni
            && m.info.lastHelloTx == s.info.lastHelloTx
  {
  }

  /** A tick that ends Pausing decided about the Hello with the deadlines it began with. */
  lemma PausingTick(m: State, t: nat)
    requires MidInv(m, t) && Tick(m, t).enumeration.state == PAUSING
    ensures BeforeHello(m, t).enumeration.state == PAUSING
    ensures BeforeHello(m, t).band == m.band && BeforeHello(m, t).info == m.info
  {
  }

  /** The tick's Hello and block parts keep the promise. */
  lemma PromiseTick(b: State, t: nat, tickAt: nat, i: nat, g: nat)
    requires Inv(b, tickAt) && i <= BLOCK_TIME_MS && t <= tickAt <= t + g && Promised(b, t, i)
    requires Interval(TickBlock(TickHello(b, tickAt), tickAt).band.ni) <= i
    ensures Promised(TickBlock(TickHello(b, tickAt), tickAt), tickAt, i)
    ensures SendsHello(b, tickAt) ==> tickAt < b.info.lastHelloTx + HELLO_MIN_INTERVAL_MS + i + g
  {
  }

  lemma PromiseRound(s: State, t: nat, e: Event, mac: Mac, i: nat, g: nat)
    requires Inv(s, t) && Later(e, t) && i <= BLOCK_TIME_MS
    requires Promised(s, t, i) && e.tickAt <= t + g
    requires Step(s, t, e, mac).enumeration.state == PAUSING && Interval(Step(s, t, e, mac).band.ni) <= i
    ensures Promised(Step(s, t, e, mac), e.tickAt, i)
    ensures StepHellos(s, t, e, mac) != [] ==> e.tickAt < s.info.lastHelloTx + HELLO_MIN_INTERVAL_MS + i + g
  {
    BeforeTickInv(s, t, e, mac);
    FrameKeepsDeadlines(s, t, e, mac);
    var m := BeforeTick(s, e, mac);
    PausingTick(m, e.tickAt);
    BeforeHelloInv(m, e.tickAt);
    PromiseTick(BeforeHello(m, e.tickAt), t, e.tickAt, i, g);
  }

  /** Every Hello follows the previous one within b. */
  ghost predicate GapsBelow(last: nat, hs: seq<HelloTx>, b: nat)
    decreases |hs|
  {
    hs == [] || (hs[0].at < last + b && GapsBelow(hs[0].at, hs[1..], b))
  }

  /**
   * While enumeration stays Pausing with an interval i of at most the block time and ticks at most g
   * apart, consecutive Hellos are less than 1000 + i + g ms apart, and the run never outlives the
   * last Hello by 1000 + i ms.
   */
  lemma {:induction false} BoundedResponse(s: State, t: nat, es: seq<Event>, mac: Mac, i: nat, g: nat)
    requires Inv(s, t) && Timed(t, es) && i <= 300
    requires Promised(s, t, i) && Steady(s, t, es, mac, i, g)
    ensures GapsBelow(s.info.lastHelloTx, Hellos(s, t, es, mac), 1000 + i + g)
    ensures EndOf(t, es) < Run(s, t, es, mac).info.lastHelloTx + 1000 + i
    decreases |es|
  {
    if es == [] {
    } else {
      var e, s', hs := es[0], Step(s, t, es[0], mac), StepHellos(s, t, es[0], mac);
      PromiseRound(s, t, e, mac, i, g);
      RoundHello(s, t, e, mac);
      BoundedResponse(s', e.tickAt, es[1..], mac, i, g);
      var rest := Hellos(s', e.tickAt, es[1..], mac);
      if hs == [] {
        assert hs + rest == rest;
      } else {
        assert (hs + rest)[0] == hs[0] && (hs + rest)[1..] == rest;
      }
    }
  }

  /** The promise is in force after any round that sends a Hello and leaves enumeration Pausing. */
  lemma HelloStartsPromise(s: State, t: nat, e: Event, mac: Mac, i: nat)
    requires Inv(s, t) && Later(e, t) && 0 < i <= 300
    requires ClockOk(s, StartOf(e)) && Interval(BeforeTick(s, e, mac).band.ni) <= i
    requires StepHellos(s, t, e, mac) != [] && Interval(Step(s, t, e, mac).band.ni) <= i
    ensures Promised(Step(s, t, e, mac), e.tickAt, i)
  {
    BeforeTickInv(s, t, e, mac);
    BeforeHelloInv(BeforeTick(s, e, mac), e.tickAt);
  }

  /** From any state of a run: once a round has sent a Hello, the rounds that follow are bounded. */
  lemma ResponseAfterHello(s: State, t: nat, e: Event, es: seq<Event>, mac: Mac, i: nat, g: nat)
    requires Inv(s, t) && Later(e, t) && Timed(e.tickAt, es) && 0 < i <= 300
    requires ClockOk(s, StartOf(e)) && Interval(BeforeTick(s, e, mac).band.ni) <= i
    requires StepHellos(s, t, e, mac) != [] && Interval(Step(s, t, e, mac).band.ni) <= i
    requires Steady(Step(s, t, e, mac), e.tickAt, es, mac, i, g)
    ensures var s' := Step(s, t, e, mac);
            && GapsBelow(e.tickAt, Hellos(s', e.tickAt, es, mac), 1000 + i + g)
            && EndOf(e.tickAt, es) < Run(s', e.tickAt, es, mac).info.lastHelloTx + 1000 + i
  {
    HelloStartsPromise(s, t, e, mac, i);
    RoundHello(s, t, e, mac);
    BoundedResponse(Step(s, t, e, mac), e.tickAt, es, mac, i, g);
  }

  // ----- starvation -----------------------------------------------------------------------------

  /** As Steady, but with an interval that outlasts a block by at least the gap between ticks. */
  ghost predicate Crowded(s: State, t: nat, es: seq<Event>, mac: Mac, g: nat)
    requires Inv(s, t) && Timed(t, es)
    decreases |es|
  {
    es == [] ||
    (var s' := Step(s, t, es[0], mac);
     && es[0].tickAt <= t + g
     && s'.enumeration.state == PAUSING
     && Interval(s'.band.ni) >= BLOCK_TIME_MS + g
     && Crowded(s', es[0].tickAt, es[1..], mac, g))
  }

  /** The block deadline comes first, and the Hello deadline only a tick gap or more after it. */
  predicate Starved(s: State, t: nat, g: nat) {
    s.enumeration.state == PAUSING && t < s.band.blockTs && s.band.blockTs + g <= s.band.helloTs
  }

  lemma StarvedRound(s: State, t: nat, e: Event, mac: Mac, g: nat)
    requires Inv(s, t) && Later(e, t)
    requires Starved(s, t, g) && e.tickAt <= t + g
    requires Step(s, t, e, mac).enumeration.state == PAUSING
    requires Interval(Step(s, t, e, mac).band.ni) >= BLOCK_TIME_MS + g
    ensures StepHellos(s, t, e, mac) == [] && Starved(Step(s, t, e, mac), e.tickAt, g)
  {
    BeforeTickInv(s, t, e, mac);
    FrameKeepsDeadlines(s, t, e, mac);
    PausingTick(BeforeTick(s, e, mac), e.tickAt);
  }

  /** Beyond the block time the block timeout pushes the Hello deadline past itself: no Hello is ever sent. */
  lemma {:induction false} Starvation(s: State, t: nat, es: seq<Event>, mac: Mac, g: nat)
    requires Inv(s, t) && Timed(t, es)
    requires Starved(s, t, g) && Crowded(s, t, es, mac, g)
    ensures Hellos(s, t, es, mac) == []
    decreases |es|
  {
    if es != [] {
      StarvedRound(s, t, es[0], mac, g);
      Starvation(Step(s, t, es[0], mac), es[0].tickAt, es[1..], mac, g);
    }
  }

  /** Any tick at which the block times out with so long an interval starts the starvation. */
  lemma BlockStartsStarvation(m: State, t: nat, g: nat)
    requires MidInv(m, t) && t >= m.band.blockTs
    requires Tick(m, t).enumeration.state == PAUSING && Interval(Tick(m, t).band.ni) >= BLOCK_TIME_MS + g
    ensures Starved(Tick(m, t), t, g)
  {
    PausingTick(m, t);
    BeforeHelloInv(m, t);
  }

  // ----- silence --------------------------------------------------------------------------------

  predicate Drained(s: State) {
    s.mapping.state == QUIESCENT && s.table == map[] && s.enumeration.state == QUIESCENT
  }

  predicate AllSilent(es: seq<Event>) { forall e | e in es :: e.Silence? }

  lemma SilentRound(s: State, t: nat, e: Event, mac: Mac, f: nat)
    requires Inv(s, t) && Later(e, t) && e.Silence?
    requires s.timers.inactiveTs <= Seconds(f) + INACTIVE_TIMEOUT_S
    ensures Step(s, t, e, mac).timers.inactiveTs <= Seconds(f) + INACTIVE_TIMEOUT_S
    ensures e.tickAt >= f + 30000 ==> Drained(Step(s, t, e, mac))
  {
    BeforeTickInv(s, t, e, mac);
    TickInactiveInv(s, e.tickAt);
    TickExpireInv(TickInactive(s, Seconds(e.tickAt)), e.tickAt);
  }

  /** Whatever state a frame at time f leaves, a silent run that ticks 30 s later or more ends drained. */
  lemma {:induction false} SilenceDrains(s: State, t: nat, es: seq<Event>, mac: Mac, f: nat)
    requires Inv(s, t) && Timed(t, es) && AllSilent(es) && es != []
    requires s.timers.inactiveTs <= Seconds(f) + INACTIVE_TIMEOUT_S
    requires EndOf(t, es) >= f + 30000
    ensures Drained(Run(s, t, es, mac))
    decreases |es|
  {
    SilentRound(s, t, es[0], mac, f);
    if |es| == 1 {
      assert es[1..] == [];
    } else {
      SilenceDrains(Step(s, t, es[0], mac), es[0].tickAt, es[1..], mac, f);
    }
  }

  lemma OnlyInactivityTouchesTimers(m: State, t: nat)
    requires MidInv(m, t)
    ensures Tick(m, t).timers.inactiveTs in {0, m.timers.inactiveTs}
  {
    assert Tick(m, t).timers == TickInactive(m, Seconds(t)).timers;
  }

  /** After a round with a frame the inactivity timer runs from that frame, or has already fired. */
  lemma FrameArmsTimer(s: State, t: nat, frame: Frame, at: nat, tickAt: nat, mac: Mac)
    requires Inv(s, t) && t <= at <= tickAt
    ensures Step(s, t, Received(frame, at, tickAt), mac).timers.inactiveTs in {0, Seconds(at) + INACTIVE_TIMEOUT_S}
  {
    BeforeTickInv(s, t, Received(frame, at, tickAt), mac);
    var m := BeforeTick(s, Received(frame, at, tickAt), mac);
    OnlyInactivityTouchesTimers(m, tickAt);
    assert m.timers.inactiveTs == Seconds(at) + INACTIVE_TIMEOUT_S;
  }

  /** The round of the last frame, then silence: 30 s after the frame nothing is left. */
  lemma SilenceAfterFrameDrains(s: State, t: nat, frame: Frame, at: nat, tickAt: nat, es: seq<Event>, mac: Mac)
    requires Inv(s, t) && t <= at <= tickAt
    requires Timed(tickAt, es) && AllSilent(es) && es != [] && EndOf(tickAt, es) >= at + 30000
    ensures Drained(Run(Step(s, t, Received(frame, at, tickAt), mac), tickAt, es, mac))
  {
    FrameArmsTimer(s, t, frame, at, tickAt, mac);
    SilenceDrains(Step(s, t, Received(frame, at, tickAt), mac), tickAt, es, mac, at);
  }

  // ----- charge ---------------------------------------------------------------------------------

  /** A charge count is kept only within a second of the last Charge. */
  predicate ChargeOpen(m: Timers, t: nat) {
    if m.chargeTs == 0 then m.ctc == 0 else Seconds(t) < m.chargeTs <= Seconds(t) + 1
  }

  predicate ChargedIn(e: Event) { e.Received? && e.frame.header.opcode == OPCODE_CHARGE }

  /** The charge part of a tick. */
  lemma ChargeTick(m: State, t: nat)
    requires MidInv(m, t)
    requires m.timers.chargeTs == 0 ==> m.timers.ctc == 0
    requires m.timers.chargeTs <= Seconds(t) + 1
    ensures ChargeOpen(Tick(m, t).timers, t)
    ensures Tick(m, t).timers.chargeTs != 0 ==> Tick(m, t).timers.ctc == m.timers.ctc
  {
    assert Tick(m, t).timers == TickInactive(m, Seconds(t)).timers;
  }

  /** The charge part of a received frame, at a second no earlier than the last tick's. */
  lemma ChargeFrame(m: Timers, t: nat, f: Frame, at: nat)
    requires ChargeOpen(m, t) && t <= at
    ensures var m' := TimersAfter(m, f, Seconds(at));
            && (m'.chargeTs == 0 ==> m'.ctc == 0)
            && m'.chargeTs <= Seconds(at) + 1
            && m'.ctc == (if f.header.opcode == OPCODE_CHARGE then (m.ctc + 1) % 0x100 else m.ctc)
  {
  }

  /** A round keeps the count, adds one for a Charge, or drops it once its second is over. */
  lemma ChargeRound(s: State, t: nat, e: Event, mac: Mac)
    requires Inv(s, t) && Later(e, t) && ChargeOpen(s.timers, t)
    ensures var m, m' := s.timers, Step(s, t, e, mac).timers;
            && ChargeOpen(m', e.tickAt)
            && (m'.chargeTs != 0 ==> m'.ctc == (if ChargedIn(e) then (m.ctc + 1) % 0x100 else m.ctc))
  {
    BeforeTickInv(s, t, e, mac);
    if e.Received? {
      ChargeFrame(s.timers, t, e.frame, e.at);
    }
    ChargeTick(BeforeTick(s, e, mac), e.tickAt);
  }

  lemma {:induction false} ChargeCountExpires(s: State, t: nat, es: seq<Event>, mac: Mac)
    requires Inv(s, t) && Timed(t, es) && ChargeOpen(s.timers, t)
    ensures ChargeOpen(Run(s, t, es, mac).timers, EndOf(t, es))
    decreases |es|
  {
    if es != [] {
      ChargeRound(s, t, es[0], mac);
      ChargeCountExpires(Step(s, t, es[0], mac), es[0].tickAt, es[1..], mac);
    }
  }

  // ----- the session automaton and the coupling, at every boundary --------------------------------

  lemma {:induction false} TimedPrefix(t: nat, es: seq<Event>, k: nat)
    requires Timed(t, es) && k <= |es|
    ensures Timed(t, es[..k])
    decreases k
  {
    if k > 0 {
      TimedPrefix(es[0].tickAt, es[1..], k - 1);
      assert es[..k][1..] == es[1..][..k - 1];
    }
  }

  /**
   * After every round: enumeration runs only while a session is held, a session is held only while
   * mapping runs, Pausing means some session is incomplete and Wait that none is, the timers of running
   * automata are armed, at most sixteen sessions are held, and the session automaton is not Temporary.
   */
  lemma EveryBoundary(t: nat, es: seq<Event>, mac: Mac, k: nat)
    requires Timed(t, es) && k <= |es|
    ensures Timed(t, es[..k])
    ensures var s := Run(Initial(t), t, es[..k], mac);
            && Coupled(s) && TimersArmed(s) && |s.table| <= MAX_ENTRIES
            && s.session.state != TEMPORARY && s.band.ni <= NMAX
  {
    TimedPrefix(t, es, k);
  }

  /** The event of a Discover says whether it acknowledges us and whether its key was held under another number. */
  lemma DiscoverEventMeans(f: Frame, m: Table, mac: Mac)
    requires f.header.opcode == OPCODE_DISCOVER
    ensures var e := DeriveEvent(f, m, mac);
            && e != SESS_DISCOVER_CONFLICTING
            && (e == SESS_DISCOVER_ACKING || e == SESS_DISCOVER_ACKING_CHGD_XID <==> Acknowledges(f, mac))
            && (e == SESS_DISCOVER_NOACK_CHGD_XID || e == SESS_DISCOVER_ACKING_CHGD_XID <==> ChangedXid(f, m))
  {
  }

  predicate DiscoversKey(e: Event, k: Key) {
    e.Received? && e.frame.header.opcode == OPCODE_DISCOVER && KeyOf(e.frame) == k
  }

  /** One round: a key that is held afterwards has the number of its Discover, or keeps the one it had. */
  lemma RoundTracksXid(s: State, t: nat, e: Event, mac: Mac, k: Key)
    requires Inv(s, t) && Later(e, t) && k in Step(s, t, e, mac).table
    ensures var n := Step(s, t, e, mac).table[k].seqNumber;
            if DiscoversKey(e, k) then n == e.frame.header.seqNumber else k in s.table && n == s.table[k].seqNumber
  {
    BeforeTickInv(s, t, e, mac);
    var m := BeforeTick(s, e, mac);
    TickKeepsSessions(m, e.tickAt, k);
    if e.Received? {
      FrameTracksXid(s, e.frame, mac, e.at, k);
    }
  }

  lemma FrameTracksXid(s: State, f: Frame, mac: Mac, t: nat, k: Key)
    requires Inv(s, t) && k in OnFrame(s, f, mac, t).table
    ensures var n := OnFrame(s, f, mac, t).table[k].seqNumber;
            if f.header.opcode == OPCODE_DISCOVER && KeyOf(f) == k then n == f.header.seqNumber
            else k in s.table && n == s.table[k].seqNumber
  {
    var table := TableAfter(s, f, mac, Seconds(t));
    assert k in table && OnFrame(s, f, mac, t).table[k] == table[k];
  }

  /** A tick drops sessions and changes none. */
  lemma TickKeepsSessions(m: State, t: nat, k: Key)
    requires MidInv(m, t) && k in Tick(m, t).table
    ensures k in m.table && Tick(m, t).table[k] == m.table[k]
  {
    var b := TickInactive(m, Seconds(t));
    assert Tick(m, t).table == Expire(b.table, Seconds(t));
  }

  /** The number of the last Discover of a key in a run. */
  function LastXid(es: seq<Event>, k: Key, before: int): int
    decreases |es|
  {
    if es == [] then before
    else LastXid(es[1..], k, if DiscoversKey(es[0], k) then es[0].frame.header.seqNumber else before)
  }

  /** On every run a held session carries the number of the last Discover of its key. */
  lemma {:induction false} SessionsTrackXids(s: State, t: nat, es: seq<Event>, mac: Mac, k: Key, before: int)
    requires Inv(s, t) && Timed(t, es) && (k in s.table ==> s.table[k].seqNumber == before)
    ensures k in Run(s, t, es, mac).table ==> Run(s, t, es, mac).table[k].seqNumber == LastXid(es, k, before)
    decreases |es|
  {
    if es != [] {
      var s' := Step(s, t, es[0], mac);
      if k in s'.table {
        RoundTracksXid(s, t, es[0], mac, k);
      }
      SessionsTrackXids(s', es[0].tickAt, es[1..], mac, k,
                        if DiscoversKey(es[0], k) then es[0].frame.header.seqNumber else before);
    }
  }

  /**
   * After any run, the event of the next Discover is a changed-number one exactly if its key is held and
   * the last Discover of that key had another number.
   */
  lemma NextDiscoverEvent(t: nat, es: seq<Event>, mac: Mac, f: Frame)
    requires Timed(t, es) && f.header.opcode == OPCODE_DISCOVER
    ensures var m := Run(Initial(t), t, es, mac).table;
            var e := DeriveEvent(f, m, mac);
            && (e == SESS_DISCOVER_NOACK_CHGD_XID || e == SESS_DISCOVER_ACKING_CHGD_XID
                <==> KeyOf(f) in m && LastXid(es, KeyOf(f), -1) != f.header.seqNumber)
  {
    SessionsTrackXids(Initial(t), t, es, mac, KeyOf(f), -1);
    DiscoverEventMeans(f, Run(Initial(t), t, es, mac).table, mac);
  }

  // ----- what a tick's Hello says ---------------------------------------------------------------

  /** The mapper and generation a Hello of the tick announces. */
  datatype Announced = Announced(mapper: Mac, generation: u16)

  /** A Discover that finds its session or room for it in the table. */
  predicate Recorded(s: State, e: Event) {
    && e.Received? && e.frame.header.opcode == OPCODE_DISCOVER
    && (KeyOf(e.frame) in s.table || |s.table| != MAX_ENTRIES)
  }

  /** A recorded Discover replaces the mapper, and unless it is a quick one the generation. */
  function AnnouncedAfter(a: Announced, s: State, e: Event): Announced {
    if !Recorded(s, e) then a
    else Announced(e.frame.header.realSource,
                   if e.frame.header.tos == TOS_QUICK_DISCOVERY then a.generation else Generation(e.frame))
  }

  ghost function AnnouncedIn(s: State, t: nat, es: seq<Event>, mac: Mac, a: Announced): Announced
    requires Inv(s, t) && Timed(t, es)
    decreases |es|
  {
    if es == [] then a else AnnouncedIn(Step(s, t, es[0], mac), es[0].tickAt, es[1..], mac, AnnouncedAfter(a, s, es[0]))
  }

  lemma FrameAnnounces(s: State, t: nat, e: Event, mac: Mac)
    requires Inv(s, t) && Later(e, t)
    ensures ClockOk(s, StartOf(e))
    ensures var info := BeforeTick(s, e, mac).info;
            AnnouncedAfter(Announced(s.info.mapper, s.info.genTopology), s, e) == Announced(info.mapper, info.genTopology)
  {
    LaterInv(s, t, StartOf(e));
  }

  lemma TickAnnounces(m: State, t: nat)
    requires MidInv(m, t)
    ensures Tick(m, t).info.mapper == m.info.mapper && Tick(m, t).info.genTopology == m.info.genTopology
    ensures TickHellos(m, t) in {[], [HelloTx(t, m.info.mapper, m.info.genTopology)]}
  {
    BeforeHelloInv(m, t);
  }

  lemma RoundAnnounces(s: State, t: nat, e: Event, mac: Mac)
    requires Inv(s, t) && Later(e, t)
    ensures var a := AnnouncedAfter(Announced(s.info.mapper, s.info.genTopology), s, e);
            var info := Step(s, t, e, mac).info;
            && a == Announced(info.mapper, info.genTopology)
            && StepHellos(s, t, e, mac) in {[], [HelloTx(e.tickAt, a.mapper, a.generation)]}
  {
    BeforeTickInv(s, t, e, mac);
    FrameAnnounces(s, t, e, mac);
    TickAnnounces(BeforeTick(s, e, mac), e.tickAt);
  }

  lemma {:induction false} RunAnnounces(s: State, t: nat, es: seq<Event>, mac: Mac)
    requires Inv(s, t) && Timed(t, es)
    ensures var info := Run(s, t, es, mac).info;
            AnnouncedIn(s, t, es, mac, Announced(s.info.mapper, s.info.genTopology)) == Announced(info.mapper, info.genTopology)
    decreases |es|
  {
    if es != [] {
      RoundAnnounces(s, t, es[0], mac);
      RunAnnounces(Step(s, t, es[0], mac), es[0].tickAt, es[1..], mac);
    }
  }

  /**
   * After any run, the Hello of the next round names the mapper of the last recorded Discover and the
   * generation of the last recorded one that was not quick.
   */
  lemma HelloNames(s: State, t: nat, es: seq<Event>, e: Event, mac: Mac)
    requires Inv(s, t) && Timed(t, es) && Later(e, EndOf(t, es))
    ensures var before := Run(s, t, es, mac);
            var a := AnnouncedIn(s, t, es, mac, Announced(s.info.mapper, s.info.genTopology));
            var now := AnnouncedAfter(a, before, e);
            StepHellos(before, EndOf(t, es), e, mac) in {[], [HelloTx(e.tickAt, now.mapper, now.generation)]}
  {
    RunAnnounces(s, t, es, mac);
    RoundAnnounces(Run(s, t, es, mac), EndOf(t, es), e, mac);
  }
}
