/** RepeatBand by history: how many Hellos a block has heard, since when it has begun, and the estimate it ends with. */
module Blocks {
  import opened Protocol
  import opened Automata
  import opened RepeatBand
  import opened LoopSpec
  import opened LoopRuns
  import opened HelloTiming

  predicate HearsHello(e: Event) { e.Received? && e.frame.header.opcode == 0x01 }

  predicate MeetsDiscover(e: Event) { e.Received? && e.frame.header.opcode == 0x00 }

  // ----- the count ------------------------------------------------------------------------------

  /** Hellos heard up to the round's tick, n being those before it: a Discover that starts enumeration starts over. */
  function HeardBefore(s: State, e: Event, n: nat): nat {
    if MeetsDiscover(e) && s.enumeration.state == 0 then 0 else if HearsHello(e) then n + 1 else n
  }

  /** And after it: the tick that ends a block starts over. */
  ghost function HeardAfter(s: State, t: nat, e: Event, mac: Mac, n: nat): nat
    requires Inv(s, t) && Later(e, t)
  {
    if EndsBlock(s, t, e, mac) then 0 else HeardBefore(s, e, n)
  }

  ghost function HeardIn(s: State, t: nat, es: seq<Event>, mac: Mac, n: nat): nat
    requires Inv(s, t) && Timed(t, es)
    decreases |es|
  {
    if es == [] then n
    else HeardIn(Step(s, t, es[0], mac), es[0].tickAt, es[1..], mac, HeardAfter(s, t, es[0], mac, n))
  }

  lemma NextCount(n: nat)
    ensures (n % 0x1_0000_0000 + 1) % 0x1_0000_0000 == (n + 1) % 0x1_0000_0000
  {
  }

  lemma HelloCounts(b: Band)
    ensures var b' := OnHelloReceived(b);
            && b'.r == (b.r + 1) % 0x1_0000_0000 && b'.ni == b.ni
            && (b'.begun <==> b.begun || (b.r + 1) % 0x1_0000_0000 >= 10)
  {
  }

  /** What the frame part leaves in the band record. */
  lemma FrameCounts(s: State, t: nat, e: Event, mac: Mac, n: nat)
    requires Inv(s, t) && Later(e, t) && s.band.r == n % 0x1_0000_0000
    ensures ClockOk(s, StartOf(e))
    ensures var b := BeforeTick(s, e, mac).band;
            && b.r == HeardBefore(s, e, n) % 0x1_0000_0000
            && b.ni == (if MeetsDiscover(e) && s.enumeration.state == 0 then 45 else s.band.ni)
            && (b.begun <==> if MeetsDiscover(e) then s.enumeration.state != 0
                             else s.band.begun || (HearsHello(e) && HeardBefore(s, e, n) % 0x1_0000_0000 >= 10))
  {
    LaterInv(s, t, StartOf(e));
    if HearsHello(e) {
      NextCount(n);
      HelloCounts(s.band);
      assert BeforeTick(s, e, mac).band == OnHelloReceived(s.band);
    }
  }

  lemma BandBeforeHello(m: State, t: nat)
    requires MidInv(m, t)
    ensures var b := BeforeHello(m, t);
            && b.band.r == m.band.r && b.band.ni == m.band.ni && (b.enumeration.state != 0 ==> b.band == m.band)
  {
  }

  /** The Hello and block parts of a tick. */
  lemma EndOfTick(b: State, t: nat)
    requires Inv(b, t)
    ensures var b' := TickBlock(TickHello(b, t), t);
            var ends := b.enumeration.state == PAUSING && t >= b.band.blockTs;
            && b'.enumeration.state == b.enumeration.state
            && b'.band.r == (if ends then 0 else b.band.r)
            && (b'.band.begun <==> b.band.begun || SendsHello(b, t))
            && b'.band.ni == (if ends && b'.band.begun && b.band.r > 0 then Estimate(b.band.r) else b.band.ni)
  {
  }

  /** The tick ends a block. */
  ghost predicate TickEndsBlock(m: State, t: nat)
    requires MidInv(m, t)
  {
    BeforeHello(m, t).enumeration.state == PAUSING && t >= BeforeHello(m, t).band.blockTs
  }

  /** What the tick leaves in the band record, the begun flag while enumeration runs. */
  lemma TickCounts(m: State, t: nat)
    requires MidInv(m, t)
    ensures var m' := Tick(m, t);
            && m'.band.r == (if TickEndsBlock(m, t) then 0 else m.band.r)
            && (m'.enumeration.state != 0 ==> (m'.band.begun <==> m.band.begun || TickHellos(m, t) != []))
            && (TickEndsBlock(m, t) ==> m'.enumeration.state == 1)
            && m'.band.ni == (if TickEndsBlock(m, t) && m'.band.begun && m.band.r > 0 then Estimate(m.band.r) else m.band.ni)
  {
    BeforeHelloInv(m, t);
    BandBeforeHello(m, t);
    EndOfTick(BeforeHello(m, t), t);
  }

  lemma CountRestarts(ends: bool, r: nat, m: nat, n: nat)
    requires m == n % 0x1_0000_0000 && r == (if ends then 0 else m)
    ensures r == (if ends then 0 else n) % 0x1_0000_0000
  {
  }

  lemma RoundCounts(s: State, t: nat, e: Event, mac: Mac, n: nat)
    requires Inv(s, t) && Later(e, t) && s.band.r == n % 0x1_0000_0000
    ensures Step(s, t, e, mac).band.r == HeardAfter(s, t, e, mac, n) % 0x1_0000_0000
  {
    BeforeTickInv(s, t, e, mac);
    FrameCounts(s, t, e, mac, n);
    var m := BeforeTick(s, e, mac);
    TickCounts(m, e.tickAt);
    CountRestarts(EndsBlock(s, t, e, mac), Step(s, t, e, mac).band.r, m.band.r, HeardBefore(s, e, n));
  }

  /** Over runs the 32-bit count is that of the Hellos heard since the block began. */
  lemma {:induction false} CountIsHeard(s: State, t: nat, es: seq<Event>, mac: Mac, n: nat)
    requires Inv(s, t) && Timed(t, es) && s.band.r == n % 0x1_0000_0000
    ensures Run(s, t, es, mac).band.r == HeardIn(s, t, es, mac, n) % 0x1_0000_0000
    decreases |es|
  {
    if es != [] {
      RoundCounts(s, t, es[0], mac, n);
      CountIsHeard(Step(s, t, es[0], mac), es[0].tickAt, es[1..], mac, HeardAfter(s, t, es[0], mac, n));
    }
  }

  // ----- since when it has begun ----------------------------------------------------------------

  /** What begins the band: a Discover while enumeration runs, a tick Hello, or a tenth Hello heard in the block. */
  ghost predicate BeginsBand(s: State, t: nat, e: Event, mac: Mac, n: nat)
    requires Inv(s, t) && Later(e, t)
  {
    || (MeetsDiscover(e) && s.enumeration.state != 0)
    || StepHellos(s, t, e, mac) != []
    || (HearsHello(e) && HeardBefore(s, e, n) % 0x1_0000_0000 >= 10)
  }

  /** Enumeration runs after every round. */
  ghost predicate RunsOn(s: State, t: nat, es: seq<Event>, mac: Mac)
    requires Inv(s, t) && Timed(t, es)
    decreases |es|
  {
    es == [] || (Step(s, t, es[0], mac).enumeration.state != 0 && RunsOn(Step(s, t, es[0], mac), es[0].tickAt, es[1..], mac))
  }

  /** Some round begins the band, and from it on enumeration runs. */
  ghost predicate BegunIn(s: State, t: nat, es: seq<Event>, mac: Mac, n: nat)
    requires Inv(s, t) && Timed(t, es)
    decreases |es|
  {
    es != [] &&
    ((BeginsBand(s, t, es[0], mac, n) && RunsOn(s, t, es, mac))
     || BegunIn(Step(s, t, es[0], mac), es[0].tickAt, es[1..], mac, HeardAfter(s, t, es[0], mac, n)))
  }

  lemma RoundBegins(s: State, t: nat, e: Event, mac: Mac, n: nat)
    requires Inv(s, t) && Later(e, t) && s.band.r == n % 0x1_0000_0000
    requires Step(s, t, e, mac).enumeration.state != 0
    ensures Step(s, t, e, mac).band.begun <==> (s.enumeration.state != 0 && s.band.begun) || BeginsBand(s, t, e, mac, n)
  {
    BeforeTickInv(s, t, e, mac);
    FrameCounts(s, t, e, mac, n);
    TickCounts(BeforeTick(s, e, mac), e.tickAt);
    if s.enumeration.state == 0 { OnlyDiscoverStarts(s, t, e, mac); }
  }

  /** Enumeration leaves Quiescent in a round with a Discover alone. */
  lemma OnlyDiscoverStarts(s: State, t: nat, e: Event, mac: Mac)
    requires Inv(s, t) && Later(e, t) && s.enumeration.state == 0 && Step(s, t, e, mac).enumeration.state != 0
    ensures MeetsDiscover(e)
  {
    BeforeTickInv(s, t, e, mac);
  }

  lemma {:induction false} BegunSince(s: State, t: nat, es: seq<Event>, mac: Mac, n: nat)
    requires Inv(s, t) && Timed(t, es) && s.band.r == n % 0x1_0000_0000 && Run(s, t, es, mac).enumeration.state != 0
    ensures Run(s, t, es, mac).band.begun
       <==> BegunIn(s, t, es, mac, n) || (s.enumeration.state != 0 && s.band.begun && RunsOn(s, t, es, mac))
    decreases |es|
  {
    if es != [] {
      var s', n' := Step(s, t, es[0], mac), HeardAfter(s, t, es[0], mac, n);
      RoundCounts(s, t, es[0], mac, n);
      BegunSince(s', es[0].tickAt, es[1..], mac, n');
      if s'.enumeration.state != 0 {
        RoundBegins(s, t, es[0], mac, n);
      }
    }
  }

  /**
   * While enumeration runs, the band has begun exactly if since the Discover that started it a further
   * Discover came, a tick Hello was sent, or a tenth Hello was heard in a block.
   */
  lemma BegunIff(s: State, t: nat, es: seq<Event>, mac: Mac, n: nat)
    requires Inv(s, t) && Timed(t, es) && s.band.r == n % 0x1_0000_0000
    requires s.enumeration.state == 0 && Run(s, t, es, mac).enumeration.state != 0
    ensures Run(s, t, es, mac).band.begun <==> BegunIn(s, t, es, mac, n)
  {
    BegunSince(s, t, es, mac, n);
  }

  // ----- the estimate ---------------------------------------------------------------------------

  /** The estimate of a block with r Hellos heard. */
  function Prescribed(r: nat): nat { if 45 * r * r < 10000 then 45 * r * r else 10000 }

  lemma SmallEstimate(r: nat)
    requires 1 <= r <= 9769
    ensures r % 0x1_0000_0000 == r && Estimate(r) == Prescribed(r)
  {
    EstimateIsExact(r);
  }

  lemma EstimateCases(begun: bool, r: nat, was: nat, ni: nat)
    requires ni == if begun && r % 0x1_0000_0000 > 0 then Estimate(r % 0x1_0000_0000) else was
    ensures !begun || r == 0 ==> ni == was
    ensures begun && 1 <= r <= 9769 ==> ni == Prescribed(r)
  {
    if 1 <= r <= 9769 { SmallEstimate(r); }
  }

  /** In 32-bit terms: the estimate changes as the round starts enumeration or ends a begun block that heard something. */
  lemma RoundTakes(s: State, t: nat, e: Event, mac: Mac, n: nat)
    requires Inv(s, t) && Later(e, t) && s.band.r == n % 0x1_0000_0000
    ensures var was := if MeetsDiscover(e) && s.enumeration.state == 0 then 45 else s.band.ni;
            var r: u32, s' := HeardBefore(s, e, n) % 0x1_0000_0000, Step(s, t, e, mac);
            && (EndsBlock(s, t, e, mac) ==> s'.enumeration.state == 1)
            && s'.band.ni == (if EndsBlock(s, t, e, mac) && s'.band.begun && r > 0 then Estimate(r) else was)
  {
    BeforeTickInv(s, t, e, mac);
    FrameCounts(s, t, e, mac, n);
    TickCounts(BeforeTick(s, e, mac), e.tickAt);
  }

  /**
   * A round changes the estimate only as it starts enumeration or ends a block.  The end of a block in which 1
   * to 9769 Hellos were heard takes min(10000, 45 r r) of their number if the band has begun by then, and
   * keeps the old estimate if it has not, or none was heard.
   */
  lemma RoundEstimate(s: State, t: nat, e: Event, mac: Mac, n: nat)
    requires Inv(s, t) && Later(e, t) && s.band.r == n % 0x1_0000_0000
    ensures var was := if MeetsDiscover(e) && s.enumeration.state == 0 then 45 else s.band.ni;
            var r, s' := HeardBefore(s, e, n), Step(s, t, e, mac);
            && (!EndsBlock(s, t, e, mac) ==> s'.band.ni == was)
            && (EndsBlock(s, t, e, mac) ==>
                  && s'.enumeration.state == 1
                  && (!s'.band.begun || r == 0 ==> s'.band.ni == was)
                  && (s'.band.begun && 1 <= r <= 9769 ==> s'.band.ni == Prescribed(r)))
  {
    RoundTakes(s, t, e, mac, n);
    if EndsBlock(s, t, e, mac) {
      var was := if MeetsDiscover(e) && s.enumeration.state == 0 then 45 else s.band.ni;
      EstimateCases(Step(s, t, e, mac).band.begun, HeardBefore(s, e, n), was, Step(s, t, e, mac).band.ni);
    }
  }

  /** By history alone: the estimate after a run and one more round that ends a block. */
  lemma BlockEstimate(s: State, t: nat, es: seq<Event>, e: Event, mac: Mac, n: nat)
    requires Inv(s, t) && Timed(t, es) && Later(e, EndOf(t, es)) && s.band.r == n % 0x1_0000_0000 && s.enumeration.state == 0
    requires EndsBlock(Run(s, t, es, mac), EndOf(t, es), e, mac)
    ensures Timed(t, es + [e])
    ensures var s1 := Run(s, t, es, mac);
            var r := HeardBefore(s1, e, HeardIn(s, t, es, mac, n));
            var ni := Step(s1, EndOf(t, es), e, mac).band.ni;
            && (BegunIn(s, t, es + [e], mac, n) && 1 <= r <= 9769 ==> ni == Prescribed(r))
            && (!BegunIn(s, t, es + [e], mac, n) || r == 0 ==>
                  ni == if MeetsDiscover(e) && s1.enumeration.state == 0 then 45 else s1.band.ni)
  {
    var s1, t1 := Run(s, t, es, mac), EndOf(t, es);
    CountIsHeard(s, t, es, mac, n);
    RoundEstimate(s1, t1, e, mac, HeardIn(s, t, es, mac, n));
    LeadsOne(s1, t1, e, mac);
    LeadsAppend(s, t, es, s1, t1, [e], Step(s1, t1, e, mac), e.tickAt, mac);
    BegunIff(s, t, es + [e], mac, n);
  }
}
