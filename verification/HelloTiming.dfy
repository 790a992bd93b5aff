/** When the ticks of a run send Hellos: deadlines, the first Hello, and the exact schedule at long intervals. */
module HelloTiming {
  import opened Protocol
  import opened Automata
  import opened RepeatBand
  import opened LoopSpec
  import opened LoopRuns
  import opened LoopProperties
  import opened Opening

  // ----- the estimate over runs -----------------------------------------------------------------

  /** No block of the run counts more than 9769 Hellos. */
  ghost predicate Moderate(s: State, t: nat, es: seq<Event>, mac: Mac)
    requires Inv(s, t) && Timed(t, es)
    decreases |es|
  {
    es == [] ||
    (BeforeTickInv(s, t, es[0], mac);
     BeforeTick(s, es[0], mac).band.r <= 9769 && Moderate(Step(s, t, es[0], mac), es[0].tickAt, es[1..], mac))
  }

  /** The estimate the protocol prescribes for some number of Hellos heard. */
  ghost predicate Counted(ni: nat) {
    exists r: nat :: 1 <= r && ni == Min(NMAX, ALPHA * r * r)
  }

  lemma CountedFrom(r: nat)
    requires r >= 1
    ensures Counted(Min(NMAX, ALPHA * r * r))
  {
  }

  /** So an interval is that of a lone Hello, 120 ms, or 480 ms and more: none lies near the block time. */
  lemma CountedIntervals(ni: nat)
    requires Counted(ni)
    ensures ALPHA <= ni <= NMAX
    ensures Interval(ni) == 120 || Interval(ni) >= 480
  {
    var r: nat :| 1 <= r && ni == Min(NMAX, ALPHA * r * r);
    if r >= 2 { SquareMonotone(2, r); }
    assert ALPHA * r * r == ALPHA * (r * r);
  }

  /** Nothing before the block timeout touches the estimate or the count of Hellos heard. */
  lemma TickKeepsCounts(m: State, t: nat)
    requires MidInv(m, t)
    ensures var b := TickHello(BeforeHello(m, t), t).band; b.ni == m.band.ni && b.r == m.band.r
  {
  }

  lemma EstimateRound(s: State, t: nat, e: Event, mac: Mac)
    requires Inv(s, t) && Later(e, t) && Counted(s.band.ni)
    requires ClockOk(s, StartOf(e)) && BeforeTick(s, e, mac).band.r <= 9769
    ensures Counted(Step(s, t, e, mac).band.ni)
  {
    BeforeTickInv(s, t, e, mac);
    var m := BeforeTick(s, e, mac);
    CountedFrom(1);
    assert m.band.ni == s.band.ni || m.band.ni == ALPHA;
    TickKeepsCounts(m, e.tickAt);
    if m.band.r > 0 {
      EstimateIsExact(m.band.r);
      CountedFrom(m.band.r);
    }
  }

  /** Over runs with at most 9769 Hellos a block the estimate is always the prescribed one of some count. */
  lemma {:induction false} EstimateStaysCounted(s: State, t: nat, es: seq<Event>, mac: Mac)
    requires Inv(s, t) && Timed(t, es) && Counted(s.band.ni) && Moderate(s, t, es, mac)
    ensures Counted(Run(s, t, es, mac).band.ni)
    decreases |es|
  {
    if es != [] {
      BeforeTickInv(s, t, es[0], mac);
      EstimateRound(s, t, es[0], mac);
      EstimateStaysCounted(Step(s, t, es[0], mac), es[0].tickAt, es[1..], mac);
    }
  }

  /**
   * So with ticks at most 180 ms apart one of two regimes applies after every such run: an interval
   * within the block time, or one that outlasts it by the tick gap.
   */
  lemma EitherRegime(t: nat, es: seq<Event>, mac: Mac, g: nat)
    requires Timed(t, es) && Moderate(Initial(t), t, es, mac) && g <= 180
    ensures var ni := Run(Initial(t), t, es, mac).band.ni;
            && ALPHA <= ni <= NMAX
            && (Interval(ni) <= BLOCK_TIME_MS || Interval(ni) >= BLOCK_TIME_MS + g)
  {
    CountedFrom(1);
    EstimateStaysCounted(Initial(t), t, es, mac);
    CountedIntervals(Run(Initial(t), t, es, mac).band.ni);
  }

  // ----- the deadlines rounds arm ---------------------------------------------------------------

  /** The round's tick ends a block. */
  ghost predicate EndsBlock(s: State, t: nat, e: Event, mac: Mac)
    requires Inv(s, t) && Later(e, t)
  {
    BeforeTickInv(s, t, e, mac);
    var b := BeforeHello(BeforeTick(s, e, mac), e.tickAt);
    b.enumeration.state == PAUSING && e.tickAt >= b.band.blockTs
  }

  /** A first Discover arms the Hello 120 ms and the block 300 ms ahead. */
  lemma FirstDiscoverDeadlines(s: State, t: nat, e: Event, mac: Mac)
    requires Inv(s, t) && Later(e, t) && StartsEnumeration(s, e)
    ensures ClockOk(s, e.at)
    ensures var m := BeforeTick(s, e, mac);
            && m.enumeration.state == PAUSING
            && m.band == Band(45, 0, false, e.at + 120, e.at + 300)
            && m.info.lastHelloTx == s.info.lastHelloTx
  {
    LaterInv(s, t, e.at);
  }

  /** The last two parts of a tick: the tick that ends a block arms by the new estimate, one that only sends by the old. */
  lemma ArmedDeadlines(b: State, t: nat)
    requires Inv(b, t)
    ensures var b' := TickBlock(TickHello(b, t), t).band;
            && (b.enumeration.state == PAUSING && t >= b.band.blockTs ==>
                  && b'.helloTs == t + Interval(b'.ni) && b'.blockTs == t + BLOCK_TIME_MS && b'.ni <= NMAX)
            && (!(b.enumeration.state == PAUSING && t >= b.band.blockTs) && SendsHello(b, t) ==>
                  b'.helloTs == t + Max(Interval(b.band.ni), HELLO_MIN_INTERVAL_MS))
            && (!(b.enumeration.state == PAUSING && t >= b.band.blockTs) && !SendsHello(b, t) ==>
                  b'.helloTs in {b.band.helloTs, b.info.lastHelloTx + HELLO_MIN_INTERVAL_MS})
  {
  }

  /**
   * Every deadline a round arms: the tick that ends a block puts the Hello its new interval ahead, which is
   * 6 to 26667 ms, and one that only sends a Hello puts the next a second to 26667 ms ahead.
   */
  lemma RoundDeadlines(s: State, t: nat, e: Event, mac: Mac)
    requires Inv(s, t) && Later(e, t)
    ensures var b := Step(s, t, e, mac).band;
            && (EndsBlock(s, t, e, mac) ==>
                  && b.helloTs == e.tickAt + Interval(b.ni) && b.blockTs == e.tickAt + 300
                  && e.tickAt + 6 <= b.helloTs <= e.tickAt + 26667)
            && (!EndsBlock(s, t, e, mac) && StepHellos(s, t, e, mac) != [] ==>
                  e.tickAt + 1000 <= b.helloTs <= e.tickAt + 26667)
  {
    BeforeTickInv(s, t, e, mac);
    var b := BeforeHello(BeforeTick(s, e, mac), e.tickAt);
    BeforeHelloInv(BeforeTick(s, e, mac), e.tickAt);
    ArmedDeadlines(b, e.tickAt);
    IntervalBounds(b.band.ni);
    if EndsBlock(s, t, e, mac) { IntervalBounds(Step(s, t, e, mac).band.ni); }
  }

  lemma FrameDeadline(s: State, t: nat, e: Event, mac: Mac)
    requires Inv(s, t) && Later(e, t) && s.band.helloTs <= t + 26667
    ensures ClockOk(s, StartOf(e)) && BeforeTick(s, e, mac).band.helloTs <= e.tickAt + 26667
  {
    LaterInv(s, t, StartOf(e));
    if StartsEnumeration(s, e) { FirstDiscoverDeadlines(s, t, e, mac); }
  }

  /** The tick keeps a deadline, moves it to a second after a Hello, or arms what a block timeout or a Hello does. */
  lemma DeadlineRound(s: State, t: nat, e: Event, mac: Mac)
    requires Inv(s, t) && Later(e, t) && s.band.helloTs <= t + 26667
    ensures Step(s, t, e, mac).band.helloTs <= e.tickAt + 26667
  {
    BeforeTickInv(s, t, e, mac);
    var b := BeforeHello(BeforeTick(s, e, mac), e.tickAt);
    BeforeHelloInv(BeforeTick(s, e, mac), e.tickAt);
    RoundDeadlines(s, t, e, mac);
    FrameDeadline(s, t, e, mac);
    ArmedDeadlines(b, e.tickAt);
  }

  /** In no state of a run is the Hello deadline more than 26667 ms ahead. */
  lemma {:induction false} DeadlineStaysNear(s: State, t: nat, es: seq<Event>, mac: Mac)
    requires Inv(s, t) && Timed(t, es) && s.band.helloTs <= t + 26667
    ensures Run(s, t, es, mac).band.helloTs <= EndOf(t, es) + 26667
    decreases |es|
  {
    if es != [] {
      DeadlineRound(s, t, es[0], mac);
      DeadlineStaysNear(Step(s, t, es[0], mac), es[0].tickAt, es[1..], mac);
    }
  }

  // ----- the next Hello at short intervals ------------------------------------------------------

  /** The deadlines that bring the next Hello by d, whether or not one was sent before. */
  predicate Upcoming(s: State, t: nat, i: nat, d: nat) {
    var last := s.info.lastHelloTx;
    && s.enumeration.state == PAUSING
    && t < d
    && (last > 0 ==> last + HELLO_MIN_INTERVAL_MS + i <= d)
    && ((s.band.helloTs <= s.band.blockTs && s.band.helloTs <= d)
        || (last > 0 && s.band.helloTs <= last + HELLO_MIN_INTERVAL_MS))
  }

  lemma UpcomingTick(m: State, t: nat, tickAt: nat, i: nat, g: nat, d: nat)
    requires MidInv(m, tickAt) && t <= tickAt <= t + g && i <= BLOCK_TIME_MS && Upcoming(m, t, i, d)
    requires Tick(m, tickAt).enumeration.state == PAUSING && Interval(Tick(m, tickAt).band.ni) <= i
    ensures if TickHellos(m, tickAt) == [] then Upcoming(Tick(m, tickAt), tickAt, i, d)
            else TickHellos(m, tickAt)[0].at < d + g
  {
    PausingTick(m, tickAt);
  }

  /** Steady at an interval i within the block time, the next Hello comes before d + g. */
  lemma {:induction false} UpcomingHello(s: State, t: nat, es: seq<Event>, mac: Mac, i: nat, g: nat, d: nat)
    requires Inv(s, t) && Timed(t, es) && i <= BLOCK_TIME_MS
    requires Upcoming(s, t, i, d) && Steady(s, t, es, mac, i, g)
    ensures var hs := Hellos(s, t, es, mac); if hs == [] then EndOf(t, es) < d else hs[0].at < d + g
    decreases |es|
  {
    if es != [] {
      var e := es[0];
      BeforeTickInv(s, t, e, mac);
      FrameKeepsDeadlines(s, t, e, mac);
      UpcomingTick(BeforeTick(s, e, mac), t, e.tickAt, i, g, d);
      if StepHellos(s, t, e, mac) == [] {
        UpcomingHello(Step(s, t, e, mac), e.tickAt, es[1..], mac, i, g, d);
      }
    }
  }

  /** The Hello owed to a first Discover: 120 ms after it, or what an earlier Hello's spacing allows. */
  function FirstDue(at: nat, last: nat, i: nat): nat {
    if last == 0 then at + 120 else Max(at + 120, last + 1000 + i)
  }

  /** The tick of the round that starts enumeration leaves the estimate of a lone Hello. */
  lemma FirstRoundEstimate(s: State, t: nat, e: Event, mac: Mac)
    requires Inv(s, t) && Later(e, t) && StartsEnumeration(s, e)
    ensures Step(s, t, e, mac).band.ni == ALPHA
  {
    BeforeTickInv(s, t, e, mac);
    FirstDiscoverDeadlines(s, t, e, mac);
    TickKeepsCounts(BeforeTick(s, e, mac), e.tickAt);
  }

  lemma BeginningTick(s: State, t: nat, e: Event, mac: Mac, i: nat, g: nat)
    requires Inv(s, t) && Later(e, t) && 120 <= i <= BLOCK_TIME_MS
    requires StartsEnumeration(s, e) && Begins(s, e, mac) && e.tickAt <= e.at + g
    ensures var d, hs := FirstDue(e.at, s.info.lastHelloTx, i), StepHellos(s, t, e, mac);
            if hs == [] then Upcoming(Step(s, t, e, mac), e.tickAt, i, d) else hs[0].at < d + g
  {
    FirstDiscoverDeadlines(s, t, e, mac);
    BeforeTickInv(s, t, e, mac);
    EnumerationBeginsIff(s, t, e, mac);
    FirstRoundEstimate(s, t, e, mac);
    UpcomingTick(BeforeTick(s, e, mac), e.at, e.tickAt, i, g, FirstDue(e.at, s.info.lastHelloTx, i));
  }

  /**
   * From quiescent enumeration, a Discover that begins it (EnumerationBeginsIff) brings a tick Hello before that
   * time and a tick gap, as long as the rounds after it stay Pausing.
   */
  lemma FirstResponse(s: State, t: nat, e: Event, es: seq<Event>, mac: Mac, i: nat, g: nat)
    requires Inv(s, t) && Later(e, t) && Timed(e.tickAt, es) && 120 <= i <= BLOCK_TIME_MS
    requires StartsEnumeration(s, e) && Begins(s, e, mac) && e.tickAt <= e.at + g
    requires Steady(Step(s, t, e, mac), e.tickAt, es, mac, i, g)
    ensures var d := FirstDue(e.at, s.info.lastHelloTx, i);
            var hs := StepHellos(s, t, e, mac) + Hellos(Step(s, t, e, mac), e.tickAt, es, mac);
            if hs == [] then EndOf(e.tickAt, es) < d else hs[0].at < d + g
  {
    var d := FirstDue(e.at, s.info.lastHelloTx, i);
    BeginningTick(s, t, e, mac, i, g);
    if StepHellos(s, t, e, mac) == [] {
      UpcomingHello(Step(s, t, e, mac), e.tickAt, es, mac, i, g, d);
    }
  }

  /** When the Hello is due that a block's end at t with an interval of at most i owes. */
  function DueAfterBlock(t: nat, last: nat, i: nat): nat { Max(t + i, last + 1000 + i) }

  /** The last two parts of a tick that ends a block. */
  lemma BlockTick(b: State, t: nat, i: nat)
    requires Inv(b, t) && b.enumeration.state == PAUSING && t >= b.band.blockTs && i <= BLOCK_TIME_MS
    requires Interval(TickBlock(TickHello(b, t), t).band.ni) <= i
    ensures var b' := TickBlock(TickHello(b, t), t); Upcoming(b', t, i, DueAfterBlock(t, b'.info.lastHelloTx, i))
  {
    ArmedDeadlines(b, t);
  }

  /** Whatever the intervals were before, the end of a block that chooses one within a block owes a Hello. */
  lemma BlockEndOwesHello(s: State, t: nat, e: Event, mac: Mac, i: nat)
    requires Inv(s, t) && Later(e, t) && EndsBlock(s, t, e, mac) && i <= BLOCK_TIME_MS
    requires Interval(Step(s, t, e, mac).band.ni) <= i
    ensures var s' := Step(s, t, e, mac); Upcoming(s', e.tickAt, i, DueAfterBlock(e.tickAt, s'.info.lastHelloTx, i))
  {
    BeforeTickInv(s, t, e, mac);
    BeforeHelloInv(BeforeTick(s, e, mac), e.tickAt);
    BlockTick(BeforeHello(BeforeTick(s, e, mac), e.tickAt), e.tickAt, i);
  }

  /** So a run that turns to short intervals, at whatever block, sends its next Hello within that time and a tick gap. */
  lemma ResponseAfterBlock(s: State, t: nat, e: Event, es: seq<Event>, mac: Mac, i: nat, g: nat)
    requires Inv(s, t) && Later(e, t) && Timed(e.tickAt, es) && EndsBlock(s, t, e, mac) && i <= BLOCK_TIME_MS
    requires Interval(Step(s, t, e, mac).band.ni) <= i && Steady(Step(s, t, e, mac), e.tickAt, es, mac, i, g)
    ensures var s' := Step(s, t, e, mac);
            var hs, d := Hellos(s', e.tickAt, es, mac), DueAfterBlock(e.tickAt, s'.info.lastHelloTx, i);
            if hs == [] then EndOf(e.tickAt, es) < d else hs[0].at < d + g
  {
    BlockEndOwesHello(s, t, e, mac, i);
    var s' := Step(s, t, e, mac);
    UpcomingHello(s', e.tickAt, es, mac, i, g, DueAfterBlock(e.tickAt, s'.info.lastHelloTx, i));
  }

  // ----- the schedule at long intervals ---------------------------------------------------------

  /** At an interval beyond the block time both deadlines were chosen at the last block's end. */
  predicate Regular(s: State) {
    s.enumeration.state != QUIESCENT ==>
      && s.band.blockTs >= BLOCK_TIME_MS
      && (Interval(s.band.ni) > BLOCK_TIME_MS ==>
            s.band.helloTs + BLOCK_TIME_MS == s.band.blockTs + Interval(s.band.ni))
  }

  lemma RegularFrame(s: State, t: nat, e: Event, mac: Mac)
    requires Inv(s, t) && Later(e, t) && Regular(s)
    ensures ClockOk(s, StartOf(e)) && Regular(BeforeTick(s, e, mac))
  {
    LaterInv(s, t, StartOf(e));
  }

  lemma RegularTick(m: State, t: nat)
    requires MidInv(m, t) && Regular(m)
    ensures Regular(Tick(m, t))
  {
    var b := BeforeHello(m, t);
    BeforeHelloInv(m, t);
    assert Regular(b);
    assert b.enumeration.state == PAUSING && t < b.band.blockTs && Interval(b.band.ni) > BLOCK_TIME_MS ==> Tick(m, t) == b;
  }

  lemma {:induction false} RunStaysRegular(s: State, t: nat, es: seq<Event>, mac: Mac)
    requires Inv(s, t) && Timed(t, es) && Regular(s)
    ensures Regular(Run(s, t, es, mac))
    decreases |es|
  {
    if es != [] {
      RegularFrame(s, t, es[0], mac);
      BeforeTickInv(s, t, es[0], mac);
      RegularTick(BeforeTick(s, es[0], mac), es[0].tickAt);
      RunStaysRegular(Step(s, t, es[0], mac), es[0].tickAt, es[1..], mac);
    }
  }

  /** After every round enumeration is Pausing at the given interval, which is longer than a block. */
  ghost predicate Keeps(s: State, t: nat, es: seq<Event>, mac: Mac, intervals: seq<nat>)
    requires Inv(s, t) && Timed(t, es)
    decreases |es|
  {
    if es == [] then intervals == []
    else
      var s' := Step(s, t, es[0], mac);
      && intervals != []
      && s'.enumeration.state == PAUSING
      && Interval(s'.band.ni) == intervals[0] > BLOCK_TIME_MS
      && Keeps(s', es[0].tickAt, es[1..], mac, intervals[1..])
  }

  /**
   * The ticks that send a Hello, from the tick times alone: b is when the last block ended, i the interval
   * chosen then, last the last Hello.  A tick within the block does nothing; the tick that ends it sends if
   * it comes i after b and a second after last, and starts the next block in any case.
   */
  function Schedule(b: nat, i: nat, last: nat, es: seq<Event>, intervals: seq<nat>): seq<nat>
    requires |es| == |intervals|
    decreases |es|
  {
    if es == [] then []
    else
      var t := es[0].tickAt;
      if t < b + 300 then Schedule(b, i, last, es[1..], intervals[1..])
      else if t >= b + i && (last == 0 || t >= last + 1000)
      then [t] + Schedule(t, intervals[0], t, es[1..], intervals[1..])
      else Schedule(t, intervals[0], last, es[1..], intervals[1..])
  }

  /** The last block ended at b and the interval chosen then is i. */
  predicate OnSchedule(s: State, b: nat, i: nat) {
    && s.enumeration.state == PAUSING && i > BLOCK_TIME_MS
    && s.band.blockTs == b + BLOCK_TIME_MS && s.band.helloTs == b + i && Interval(s.band.ni) == i
  }

  lemma ScheduledRound(s: State, t: nat, e: Event, mac: Mac, b: nat, i: nat)
    requires Inv(s, t) && Later(e, t) && OnSchedule(s, b, i)
    requires Step(s, t, e, mac).enumeration.state == PAUSING && Interval(Step(s, t, e, mac).band.ni) > BLOCK_TIME_MS
    ensures var s', hs := Step(s, t, e, mac), StepHellos(s, t, e, mac);
            var last := s.info.lastHelloTx;
            var sends := e.tickAt >= b + i && (last == 0 || e.tickAt >= last + HELLO_MIN_INTERVAL_MS);
            && (hs != [] <==> sends)
            && (if e.tickAt < b + BLOCK_TIME_MS then OnSchedule(s', b, i)
                else OnSchedule(s', e.tickAt, Interval(s'.band.ni)))
  {
    BeforeTickInv(s, t, e, mac);
    FrameKeepsDeadlines(s, t, e, mac);
    PausingTick(BeforeTick(s, e, mac), e.tickAt);
  }

  function Times(hs: seq<HelloTx>): seq<nat> {
    if hs == [] then [] else [hs[0].at] + Times(hs[1..])
  }

  lemma {:induction false} KeepsLength(s: State, t: nat, es: seq<Event>, mac: Mac, intervals: seq<nat>)
    requires Inv(s, t) && Timed(t, es) && Keeps(s, t, es, mac, intervals)
    ensures |es| == |intervals|
    decreases |es|
  {
    if es != [] { KeepsLength(Step(s, t, es[0], mac), es[0].tickAt, es[1..], mac, intervals[1..]); }
  }

  /** At intervals beyond the block time the Hellos of a run are exactly those of the schedule. */
  lemma {:induction false} HellosFollowSchedule(s: State, t: nat, es: seq<Event>, mac: Mac, intervals: seq<nat>, b: nat, i: nat)
    requires Inv(s, t) && Timed(t, es) && OnSchedule(s, b, i)
    requires |es| == |intervals| && Keeps(s, t, es, mac, intervals)
    ensures Times(Hellos(s, t, es, mac)) == Schedule(b, i, s.info.lastHelloTx, es, intervals)
    decreases |es|
  {
    if es != [] {
      var e, s', hs := es[0], Step(s, t, es[0], mac), StepHellos(s, t, es[0], mac);
      ScheduledRound(s, t, e, mac, b, i);
      RoundHello(s, t, e, mac);
      if e.tickAt < b + BLOCK_TIME_MS {
        HellosFollowSchedule(s', e.tickAt, es[1..], mac, intervals[1..], b, i);
      } else {
        HellosFollowSchedule(s', e.tickAt, es[1..], mac, intervals[1..], e.tickAt, intervals[0]);
      }
      var rest := Hellos(s', e.tickAt, es[1..], mac);
      if hs == [] {
        assert hs + rest == rest;
      } else {
        assert (hs + rest)[0] == hs[0] && (hs + rest)[1..] == rest;
      }
    }
  }

  /** Every tick that ends a block comes before that block's interval is over, or within a second of the last Hello. */
  predicate EndsEarly(b: nat, i: nat, last: nat, es: seq<Event>, intervals: seq<nat>)
    requires |es| == |intervals|
    decreases |es|
  {
    es == [] ||
    (var t := es[0].tickAt;
     if t < b + 300 then EndsEarly(b, i, last, es[1..], intervals[1..])
     else
       && (t < b + i || (last > 0 && t < last + 1000))
       && EndsEarly(t, intervals[0], last, es[1..], intervals[1..]))
  }

  lemma {:induction false} NothingScheduledIff(b: nat, i: nat, last: nat, es: seq<Event>, intervals: seq<nat>)
    requires |es| == |intervals|
    ensures Schedule(b, i, last, es, intervals) == [] <==> EndsEarly(b, i, last, es, intervals)
    decreases |es|
  {
    if es != [] {
      var t := es[0].tickAt;
      if t < b + BLOCK_TIME_MS {
        NothingScheduledIff(b, i, last, es[1..], intervals[1..]);
      } else {
        NothingScheduledIff(t, intervals[0], last, es[1..], intervals[1..]);
      }
    }
  }

  /** When the last block ended. */
  function LastBlockEnd(s: State): nat {
    if s.band.blockTs >= BLOCK_TIME_MS then s.band.blockTs - BLOCK_TIME_MS else 0
  }

  /**
   * Exactly when a run that stays Pausing at intervals beyond the block time sends no Hello, from every
   * state a run can be in (RunStaysRegular).
   */
  lemma StarvesIff(s: State, t: nat, es: seq<Event>, mac: Mac, intervals: seq<nat>)
    requires Inv(s, t) && Timed(t, es) && Regular(s)
    requires s.enumeration.state == PAUSING && Interval(s.band.ni) > BLOCK_TIME_MS
    requires |es| == |intervals| && Keeps(s, t, es, mac, intervals)
    ensures Times(Hellos(s, t, es, mac))
         == Schedule(LastBlockEnd(s), Interval(s.band.ni), s.info.lastHelloTx, es, intervals)
    ensures Hellos(s, t, es, mac) == []
       <==> EndsEarly(LastBlockEnd(s), Interval(s.band.ni), s.info.lastHelloTx, es, intervals)
  {
    HellosFollowSchedule(s, t, es, mac, intervals, LastBlockEnd(s), Interval(s.band.ni));
    NothingScheduledIff(LastBlockEnd(s), Interval(s.band.ni), s.info.lastHelloTx, es, intervals);
  }

  /** Ticks never more than g apart, at intervals that outlast a block by g, end every block early. */
  lemma {:induction false} DenseTicksEndEarly(t: nat, b: nat, i: nat, last: nat, es: seq<Event>, intervals: seq<nat>, g: nat)
    requires |es| == |intervals| && t < b + BLOCK_TIME_MS && i >= BLOCK_TIME_MS + g
    requires Timed(t, es) && TicksWithin(t, es, g)
    requires forall k | 0 <= k < |intervals| :: intervals[k] >= BLOCK_TIME_MS + g
    ensures EndsEarly(b, i, last, es, intervals)
    decreases |es|
  {
    if es != [] {
      var tick := es[0].tickAt;
      if tick < b + BLOCK_TIME_MS {
        DenseTicksEndEarly(tick, b, i, last, es[1..], intervals[1..], g);
      } else {
        DenseTicksEndEarly(tick, tick, intervals[0], last, es[1..], intervals[1..], g);
      }
    }
  }

  predicate TicksWithin(t: nat, es: seq<Event>, g: nat)
    decreases |es|
  {
    es == [] || (es[0].tickAt <= t + g && TicksWithin(es[0].tickAt, es[1..], g))
  }
}
