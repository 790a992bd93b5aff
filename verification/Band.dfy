/**
 * RepeatBand: the 32-bit Hello statistics and the two millisecond deadlines, with the charge and
 * inactivity timers of the mapping automaton.
 */
module RepeatBand {
  import opened Protocol

  const NMAX: nat := 10000
  const ALPHA: nat := 45
  const GAMMA: nat := 10
  const TXC: nat := 4
  const BLOCK_TIME_MS: nat := 300
  const HELLO_MIN_INTERVAL_MS: nat := 1000
  const ONE_FRAME_MS: nat := 20 / 3

  const TWO_32: nat := 0x1_0000_0000

  /** Deadlines in milliseconds; 0 is an unarmed deadline. */
  datatype Band = Band(ni: u32, r: u32, begun: bool, helloTs: nat, blockTs: nat)

  // ----- specification --------------------------------------------------------------------------

  function Min(a: nat, b: nat): nat { if a < b then a else b }

  function Max(a: nat, b: nat): nat { if a < b then b else a }

  /** Eight thirds of n, rounded up, and at least one frame time. */
  function Interval(n: nat): nat {
    Max(ONE_FRAME_MS, (8 * n + 2) / 3)
  }

  /** The estimate a block ends with: 45*r*r in 32-bit arithmetic, capped. */
  function Estimate(r: u32): u32 {
    Min(NMAX, (ALPHA * (r * r % TWO_32)) % TWO_32)
  }

  function InitStats(now: nat): Band {
    Band(ALPHA, 0, false, 0, now + BLOCK_TIME_MS)
  }

  function UpdateStats(b: Band, now: nat): Band {
    b.(ni := if b.r > 0 && b.begun then Estimate(b.r) else b.ni, r := 0, blockTs := now + BLOCK_TIME_MS)
  }

  function ChooseHelloTime(b: Band, now: nat): Band {
    b.(helloTs := now + Interval(b.ni))
  }

  function DoHello(b: Band, now: nat): Band {
    ChooseHelloTime(b, now).(begun := true)
  }

  function OnHelloReceived(b: Band): Band {
    var r := (b.r + 1) % TWO_32;
    b.(r := r, begun := b.begun || r >= GAMMA)
  }

  // ----- 32-bit arithmetic against the formula of the protocol ----------------------------------

  lemma ScaledWrap(x: nat)
    ensures (ALPHA * (x % TWO_32)) % TWO_32 == (ALPHA * x) % TWO_32
  {
    var q, y := x / TWO_32, x % TWO_32;
    assert ALPHA * x == ALPHA * y + (ALPHA * q) * TWO_32;
  }

  /** Exactly when the wrapped estimate is the intended min(10000, 45*r*r). */
  lemma EstimateIsExactIff(r: u32)
    ensures Estimate(r) == Min(NMAX, ALPHA * r * r) <==> ALPHA * r * r < TWO_32 || (ALPHA * r * r) % TWO_32 >= NMAX
  {
    ScaledWrap(r * r);
    assert ALPHA * (r * r) == ALPHA * r * r;
    if ALPHA * r * r < TWO_32 {
      assert (ALPHA * r * r) % TWO_32 == ALPHA * r * r;
    }
  }

  /** Up to 9769 Hellos in a block no product wraps, so the estimate is the formula; with one heard it is at least 45. */
  lemma EstimateIsExact(r: u32)
    requires r <= 9769
    ensures Estimate(r) == Min(NMAX, ALPHA * r * r)
    ensures r >= 1 ==> ALPHA <= Estimate(r)
  {
    SquareMonotone(r, 9769);
    EstimateIsExactIff(r);
    if r >= 1 { SquareMonotone(1, r); }
  }

  lemma SquareMonotone(a: nat, b: nat)
    requires a <= b
    ensures a * a <= b * b
  {
    assert a * a <= a * b <= b * b;
  }

  /** A block in which 65536 Hellos are heard wraps to the estimate 0 and the shortest interval. */
  lemma EstimateWraps()
    ensures Estimate(0x1_0000) == 0 && Interval(Estimate(0x1_0000)) == ONE_FRAME_MS
    ensures Min(NMAX, ALPHA * 0x1_0000 * 0x1_0000) == NMAX
  {
  }

  /** Every interval is the least number of milliseconds not below 8n/3, raised to one frame, and grows with n. */
  lemma IntervalBounds(n: nat)
    requires n <= NMAX
    ensures ONE_FRAME_MS == 6
    ensures 6 <= Interval(n) <= 26667
    ensures 3 * Interval(n) >= 8 * n
    ensures Interval(n) > 6 ==> 3 * (Interval(n) - 1) < 8 * n
    ensures Interval(n) <= BLOCK_TIME_MS <==> n <= 112
  {
  }

  // ----- the records of the code ----------------------------------------------------------------

  class BandState {
    var ni: u32
    var r: u32
    var begun: bool
    var helloTimeoutTs: nat
    var blockTimeoutTs: nat

    ghost function View(): Band
      reads this
    {
      Band(ni, r, begun, helloTimeoutTs, blockTimeoutTs)
    }

    /** The band_state that init_automata_enumeration leaves behind. */
    constructor ()
      ensures View() == Band(ALPHA, 0, false, 0, 0)
    {
      ni, r, begun, helloTimeoutTs, blockTimeoutTs := ALPHA, 0, false, 0, 0;
    }

    /** band_init_stats */
    method InitStatistics(now: nat)
      modifies this
      ensures View() == InitStats(now)
    {
      ni, r, begun, helloTimeoutTs, blockTimeoutTs := ALPHA, 0, false, 0, now + BLOCK_TIME_MS;
    }

    /** band_update_stats */
    method UpdateStatistics(now: nat)
      modifies this
      ensures View() == UpdateStats(old(View()), now)
    {
      if r > 0 && begun {
        var power: u32 := r;
        for i := 1 to 2
          invariant power == if i == 1 then r else r * r % TWO_32
        {
          power := power * r % TWO_32;
        }
        var newNi: u32 := ALPHA * power % TWO_32;
        ni := if newNi > NMAX then NMAX else newNi;
      }
      r := 0;
      blockTimeoutTs := now + BLOCK_TIME_MS;
    }

    /** band_choose_hello_time */
    method ChooseTime(now: nat)
      modifies this`helloTimeoutTs
      ensures View() == ChooseHelloTime(old(View()), now)
    {
      var numerator := TXC * ni * 20;
      var denominator := GAMMA * 3;
      var interval := numerator / denominator;
      if numerator % denominator != 0 {
        interval := interval + 1;
      }
      if interval < ONE_FRAME_MS {
        interval := ONE_FRAME_MS;
      }
      helloTimeoutTs := now + interval;
    }

    /** band_do_hello */
    method DoHelloNow(now: nat)
      modifies this
      ensures View() == DoHello(old(View()), now)
    {
      ChooseTime(now);
      begun := true;
    }

    /** band_on_hello_received */
    method HelloReceived()
      modifies this
      ensures View() == OnHelloReceived(old(View()))
    {
      r := (r + 1) % TWO_32;
      if r >= GAMMA && !begun {
        begun := true;
      }
    }
  }

  // ----- the mapping timers ---------------------------------------------------------------------

  const INACTIVE_TIMEOUT_S: nat := 30

  /** Charge counter and timers in seconds; 0 is an unarmed timer. */
  datatype Timers = Timers(ctc: byte, chargeTs: nat, inactiveTs: nat)

  function OnCharge(m: Timers, now: nat): Timers {
    m.(ctc := (m.ctc + 1) % 0x100, chargeTs := now + 1)
  }

  function ResetCharge(m: Timers): Timers {
    m.(ctc := 0, chargeTs := 0)
  }

  predicate ChargeDue(m: Timers, now: nat) {
    m.chargeTs != 0 && now >= m.chargeTs
  }

  predicate InactiveDue(m: Timers, now: nat) {
    m.inactiveTs != 0 && now >= m.inactiveTs
  }

  class MappingState {
    var ctc: byte
    var chargeTimeoutTs: nat
    var inactiveTimeoutTs: nat

    ghost function View(): Timers
      reads this
    {
      Timers(ctc, chargeTimeoutTs, inactiveTimeoutTs)
    }

    constructor ()
      ensures View() == Timers(0, 0, 0)
    {
      ctc, chargeTimeoutTs, inactiveTimeoutTs := 0, 0, 0;
    }

    /** mapping_reset_charge */
    method ResetChargeTimer()
      modifies this
      ensures View() == ResetCharge(old(View()))
    {
      ctc, chargeTimeoutTs := 0, 0;
    }

    /** mapping_on_charge */
    method Charge(now: nat)
      modifies this
      ensures View() == OnCharge(old(View()), now)
    {
      ctc := (ctc + 1) % 0x100;
      chargeTimeoutTs := now + 1;
    }

    /** mapping_check_charge_timeout */
    method CheckCharge(now: nat) returns (due: bool)
      modifies this
      ensures due == ChargeDue(old(View()), now)
      ensures View() == if due then ResetCharge(old(View())) else old(View())
    {
      if chargeTimeoutTs == 0 {
        return false;
      }
      if now >= chargeTimeoutTs {
        ctc, chargeTimeoutTs := 0, 0;
        return true;
      }
      return false;
    }

    /** mapping_reset_inactive_timeout */
    method ArmInactive(now: nat)
      modifies this
      ensures View() == old(View()).(inactiveTs := now + INACTIVE_TIMEOUT_S)
    {
      inactiveTimeoutTs := now + INACTIVE_TIMEOUT_S;
    }
  }
}
