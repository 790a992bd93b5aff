/** lltd_wifi_rates.c: rate tables, and the search that infers link parameters from an observed rate. */
module WifiRates {

  const LEGACY_B := 1
  const LEGACY_AG := 2
  const HT := 3
  const VHT := 4
  const HE := 5

  const MAX_NSS := 8

  /** Mbps times ten, by MCS, width index and guard-interval index. */
  const HT_RATES: seq<seq<seq<nat>>> := [
    [[65, 72], [135, 150]], [[130, 144], [270, 300]], [[195, 217], [405, 450]], [[260, 289], [540, 600]],
    [[390, 433], [810, 900]], [[520, 578], [1080, 1200]], [[585, 650], [1215, 1350]], [[650, 722], [1350, 1500]]]

  const VHT_RATES: seq<seq<seq<nat>>> := [
    [[65, 72], [135, 150], [293, 325], [585, 650]], [[130, 144], [270, 300], [585, 650], [1170, 1300]],
    [[195, 217], [405, 450], [878, 975], [1755, 1950]], [[260, 289], [540, 600], [1170, 1300], [2340, 2600]],
    [[390, 433], [810, 900], [1755, 1950], [3510, 3900]], [[520, 578], [1080, 1200], [2340, 2600], [4680, 5200]],
    [[585, 650], [1215, 1350], [2633, 2925], [5265, 5850]], [[650, 722], [1350, 1500], [2925, 3250], [5850, 6500]],
    [[780, 867], [1620, 1800], [3510, 3900], [7020, 7800]], [[0, 0], [1800, 2000], [3900, 4333], [7800, 8667]]]

  const HE_RATES: seq<seq<seq<nat>>> := [
    [[86, 81, 73], [172, 163, 146], [360, 340, 306], [721, 681, 613]],
    [[172, 163, 146], [344, 325, 293], [721, 681, 613], [1441, 1361, 1225]],
    [[258, 244, 219], [516, 488, 439], [1081, 1021, 919], [2162, 2042, 1838]],
    [[344, 325, 293], [688, 650, 585], [1441, 1361, 1225], [2882, 2722, 2450]],
    [[516, 488, 439], [1032, 975, 878], [2162, 2042, 1838], [4324, 4083, 3675]],
    [[688, 650, 585], [1376, 1300, 1170], [2882, 2722, 2450], [5765, 5444, 4900]],
    [[774, 731, 658], [1549, 1463, 1316], [3243, 3063, 2756], [6485, 6125, 5513]],
    [[860, 813, 731], [1721, 1625, 1463], [3603, 3403, 3063], [7206, 6806, 6125]],
    [[1032, 975, 878], [2065, 1950, 1755], [4324, 4083, 3675], [8647, 8167, 7350]],
    [[1147, 1083, 975], [2294, 2167, 1950], [4804, 4537, 4083], [9608, 9074, 8167]],
    [[1290, 1219, 1097], [2581, 2438, 2194], [5404, 5104, 4594], [10809, 10208, 9188]],
    [[1434, 1354, 1219], [2868, 2708, 2438], [6005, 5671, 5104], [12010, 11342, 10208]]]

  /** width_to_index, -1 for a width the table does not have. */
  function WidthIndex(width: int, maxIndex: int): (i: int)
    ensures -1 <= i <= 3 && (i == -1 || i <= maxIndex)
  {
    var i := if width == 20 then 0 else if width == 40 then 1 else if width == 80 then 2 else if width == 160 then 3 else -1;
    if i <= maxIndex then i else -1
  }

  function GiIndex(phy: int, gi: int): (i: int)
    ensures -1 <= i <= (if phy == HE then 2 else 1)
  {
    if phy == HE then (if gi == 800 then 0 else if gi == 1600 then 1 else if gi == 3200 then 2 else -1)
    else if gi == 800 then 0 else if gi == 400 then 1 else -1
  }

  function MaxMcs(phy: int): int { if phy == HT then 7 else if phy == VHT then 9 else 11 }

  predicate IsOfdm(phy: int) { phy == HT || phy == VHT || phy == HE }

  /** The table entry for one stream; 0 for parameters outside the tables. */
  function Entry(phy: int, width: int, mcs: int, gi: int): nat
    requires IsOfdm(phy)
  {
    var w, g := WidthIndex(width, if phy == HT then 1 else 3), GiIndex(phy, gi);
    if mcs < 0 || mcs > MaxMcs(phy) || w < 0 || g < 0 then 0
    else if phy == HT then HT_RATES[mcs][w][g]
    else if phy == VHT then VHT_RATES[mcs][w][g]
    else HE_RATES[mcs][w][g]
  }

  /** lltd_wifi_calc_rate */
  function CalcRate(phy: int, width: int, nss: int, mcs: int, gi: int): nat {
    if nss < 1 || nss > MAX_NSS then 0
    else if phy == LEGACY_B then 11
    else if phy == LEGACY_AG then 54
    else if !IsOfdm(phy) then 0
    else
      var x := Entry(phy, width, mcs, gi);
      if x == 0 then 0 else (x * nss + 5) / 10
  }

  /** lltd_wifi_calc_max_rate */
  function CalcMaxRate(phy: int, width: int, nss: int): nat {
    if phy == LEGACY_B then 11
    else if phy == LEGACY_AG then 54
    else if !IsOfdm(phy) then 0
    else CalcRate(phy, width, nss, MaxMcs(phy), if phy == HE then 800 else 400)
  }

  // ----- the tables against the formula ---------------------------------------------------------

  /** Coded bits per subcarrier and symbol, in sixths. */
  function SixthBits(mcs: nat): nat
    requires mcs <= 11
  {
    if mcs == 0 then 3 else if mcs == 1 then 6 else if mcs == 2 then 9 else if mcs == 3 then 12
    else if mcs == 4 then 18 else if mcs == 5 then 24 else if mcs == 6 then 27 else if mcs == 7 then 30
    else if mcs == 8 then 36 else if mcs == 9 then 40 else if mcs == 10 then 45 else 50
  }

  /** Data subcarriers by width index. */
  function Tones(phy: int, w: nat): nat
    requires w <= 3
  {
    if phy == HE then (if w == 0 then 234 else if w == 1 then 468 else if w == 2 then 980 else 1960)
    else if w == 0 then 52 else if w == 1 then 108 else if w == 2 then 234 else 468
  }

  /** Symbol time with its guard interval, in tenths of a microsecond. */
  function SymbolTime(phy: int, g: nat): (t: nat)
    requires g <= 2
    ensures t > 0
  {
    if phy == HE then (if g == 0 then 136 else if g == 1 then 144 else 160)
    else if g == 0 then 40 else 36
  }

  /** Subcarriers times bits times coding rate over symbol time, in Mbps times ten, rounded half up. */
  function Formula(phy: int, w: nat, mcs: nat, g: nat): nat
    requires w <= 3 && mcs <= 11 && g <= 2
  {
    (200 * Tones(phy, w) * SixthBits(mcs) + 6 * SymbolTime(phy, g)) / (12 * SymbolTime(phy, g))
  }

  // One lemma for each column of the tables: a width and a guard interval.

  lemma Ht20At800(mcs: nat)
    requires mcs < 8
    ensures HT_RATES[mcs][0][0] == Formula(HT, 0, mcs, 0)
  {
  }

  lemma Ht20At400(mcs: nat)
    requires mcs < 8
    ensures HT_RATES[mcs][0][1] == Formula(HT, 0, mcs, 1)
  {
  }

  lemma Ht40At800(mcs: nat)
    requires mcs < 8
    ensures HT_RATES[mcs][1][0] == Formula(HT, 1, mcs, 0)
  {
  }

  lemma Ht40At400(mcs: nat)
    requires mcs < 8
    ensures HT_RATES[mcs][1][1] == Formula(HT, 1, mcs, 1)
  {
  }

  /** Every HT entry is the formula. */
  lemma HtMatchesFormula(mcs: nat, w: nat, g: nat)
    requires mcs < 8 && w < 2 && g < 2
    ensures HT_RATES[mcs][w][g] == Formula(HT, w, mcs, g)
  {
    match w
    case 0 => if g == 0 { Ht20At800(mcs); } else { Ht20At400(mcs); }
    case 1 => if g == 0 { Ht40At800(mcs); } else { Ht40At400(mcs); }
  }

  lemma Vht20At800(mcs: nat)
    requires mcs < 10
    ensures VHT_RATES[mcs][0][0] == Formula(VHT, 0, mcs, 0) <==> mcs != 9
  {
  }

  lemma Vht20At400(mcs: nat)
    requires mcs < 10
    ensures VHT_RATES[mcs][0][1] == Formula(VHT, 0, mcs, 1) <==> mcs != 9
  {
  }

  lemma Vht40At800(mcs: nat)
    requires mcs < 10
    ensures VHT_RATES[mcs][1][0] == Formula(VHT, 1, mcs, 0)
  {
  }

  lemma Vht40At400(mcs: nat)
    requires mcs < 10
    ensures VHT_RATES[mcs][1][1] == Formula(VHT, 1, mcs, 1)
  {
  }

  lemma Vht80At800(mcs: nat)
    requires mcs < 10
    ensures VHT_RATES[mcs][2][0] == Formula(VHT, 2, mcs, 0)
  {
  }

  lemma Vht80At400(mcs: nat)
    requires mcs < 10
    ensures VHT_RATES[mcs][2][1] == Formula(VHT, 2, mcs, 1)
  {
  }

  lemma Vht160At800(mcs: nat)
    requires mcs < 10
    ensures VHT_RATES[mcs][3][0] == Formula(VHT, 3, mcs, 0)
  {
  }

  lemma Vht160At400(mcs: nat)
    requires mcs < 10
    ensures VHT_RATES[mcs][3][1] == Formula(VHT, 3, mcs, 1)
  {
  }

  /** Every VHT entry is the formula but the two at 20 MHz that stand for an invalid combination. */
  lemma VhtMatchesFormulaIff(mcs: nat, w: nat, g: nat)
    requires mcs < 10 && w < 4 && g < 2
    ensures VHT_RATES[mcs][w][g] == Formula(VHT, w, mcs, g) <==> !(mcs == 9 && w == 0)
  {
    match w
    case 0 => if g == 0 { Vht20At800(mcs); } else { Vht20At400(mcs); }
    case 1 => if g == 0 { Vht40At800(mcs); } else { Vht40At400(mcs); }
    case 2 => if g == 0 { Vht80At800(mcs); } else { Vht80At400(mcs); }
    case 3 => if g == 0 { Vht160At800(mcs); } else { Vht160At400(mcs); }
  }

  lemma He20At800(mcs: nat)
    requires mcs < 12
    ensures HE_RATES[mcs][0][0] == Formula(HE, 0, mcs, 0)
  {
  }

  lemma He20At1600(mcs: nat)
    requires mcs < 12
    ensures HE_RATES[mcs][0][1] == Formula(HE, 0, mcs, 1)
  {
  }

  lemma He20At3200(mcs: nat)
    requires mcs < 12
    ensures HE_RATES[mcs][0][2] == Formula(HE, 0, mcs, 2)
  {
  }

  lemma He40At800(mcs: nat)
    requires mcs < 12
    ensures HE_RATES[mcs][1][0] == Formula(HE, 1, mcs, 0)
  {
  }

  lemma He40At1600(mcs: nat)
    requires mcs < 12
    ensures HE_RATES[mcs][1][1] == Formula(HE, 1, mcs, 1)
  {
  }

  lemma He40At3200(mcs: nat)
    requires mcs < 12
    ensures HE_RATES[mcs][1][2] == Formula(HE, 1, mcs, 2)
  {
  }

  lemma He80At800(mcs: nat)
    requires mcs < 12
    ensures HE_RATES[mcs][2][0] == Formula(HE, 2, mcs, 0)
  {
  }

  lemma He80At1600(mcs: nat)
    requires mcs < 12
    ensures HE_RATES[mcs][2][1] == Formula(HE, 2, mcs, 1)
  {
  }

  lemma He80At3200(mcs: nat)
    requires mcs < 12
    ensures HE_RATES[mcs][2][2] == Formula(HE, 2, mcs, 2)
  {
  }

  lemma He160At800(mcs: nat)
    requires mcs < 12
    ensures HE_RATES[mcs][3][0] == Formula(HE, 3, mcs, 0)
  {
  }

  lemma He160At1600(mcs: nat)
    requires mcs < 12
    ensures HE_RATES[mcs][3][1] == Formula(HE, 3, mcs, 1) <==> mcs != 11
  {
  }

  lemma He160At3200(mcs: nat)
    requires mcs < 12
    ensures HE_RATES[mcs][3][2] == Formula(HE, 3, mcs, 2)
  {
  }

  /** Every HE entry is the formula but one, which was rounded down. */
  lemma HeMatchesFormulaIff(mcs: nat, w: nat, g: nat)
    requires mcs < 12 && w < 4 && g < 3
    ensures HE_RATES[mcs][w][g] == Formula(HE, w, mcs, g) <==> !(mcs == 11 && w == 3 && g == 1)
  {
    match w
    case 0 => if g == 0 { He20At800(mcs); } else if g == 1 { He20At1600(mcs); } else { He20At3200(mcs); }
    case 1 => if g == 0 { He40At800(mcs); } else if g == 1 { He40At1600(mcs); } else { He40At3200(mcs); }
    case 2 => if g == 0 { He80At800(mcs); } else if g == 1 { He80At1600(mcs); } else { He80At3200(mcs); }
    case 3 => if g == 0 { He160At800(mcs); } else if g == 1 { He160At1600(mcs); } else { He160At3200(mcs); }
  }

  // ----- the maximum rate -----------------------------------------------------------------------

  lemma HtRowsRise(mcs: nat, w: nat, g: nat)
    requires mcs < 8 && w < 2 && g < 2
    ensures HT_RATES[mcs][w][g] <= HT_RATES[7][w][1]
  {
  }

  lemma VhtRowsRise(mcs: nat, w: nat, g: nat)
    requires mcs < 10 && 0 < w < 4 && g < 2
    ensures VHT_RATES[mcs][w][g] <= VHT_RATES[9][w][1]
  {
  }

  lemma HeRowsRise(mcs: nat, w: nat, g: nat)
    requires mcs < 12 && w < 4 && g < 3
    ensures HE_RATES[mcs][w][g] <= HE_RATES[11][w][0]
  {
  }

  lemma EntryBelowMax(phy: int, width: int, mcs: int, gi: int)
    requires IsOfdm(phy) && !(phy == VHT && width == 20)
    ensures Entry(phy, width, mcs, gi) <= Entry(phy, width, MaxMcs(phy), if phy == HE then 800 else 400)
  {
    var w, g := WidthIndex(width, if phy == HT then 1 else 3), GiIndex(phy, gi);
    if 0 <= mcs <= MaxMcs(phy) && w >= 0 && g >= 0 {
      if phy == HT { HtRowsRise(mcs, w, g); } else if phy == VHT { VhtRowsRise(mcs, w, g); } else { HeRowsRise(mcs, w, g); }
    }
  }

  lemma ScaledMonotone(x: nat, y: nat, n: nat)
    requires x <= y
    ensures (x * n + 5) / 10 <= (y * n + 5) / 10
  {
    assert x * n <= y * n;
  }

  /** The maximum rate dominates every rate of its width and streams except for VHT at 20 MHz, whose last row is empty. */
  lemma MaxRateDominatesIff(phy: int, width: int, nss: int)
    requires IsOfdm(phy)
    ensures (forall mcs, gi :: CalcRate(phy, width, nss, mcs, gi) <= CalcMaxRate(phy, width, nss))
       <==> !(phy == VHT && width == 20 && 1 <= nss <= MAX_NSS)
  {
    if phy == VHT && width == 20 {
      assert VHT_RATES[9][0][1] == 0 && VHT_RATES[8][0][1] == 867;
      if 1 <= nss <= MAX_NSS {
        assert CalcRate(phy, width, nss, 8, 400) > 0 == CalcMaxRate(phy, width, nss);
      }
    } else {
      forall mcs, gi ensures CalcRate(phy, width, nss, mcs, gi) <= CalcMaxRate(phy, width, nss) {
        EntryBelowMax(phy, width, mcs, gi);
        if 1 <= nss <= MAX_NSS {
          ScaledMonotone(Entry(phy, width, mcs, gi), Entry(phy, width, MaxMcs(phy), if phy == HE then 800 else 400), nss);
        }
      }
    }
  }

  // ----- inference ------------------------------------------------------------------------------

  datatype Params = Params(nss: int, mcs: int, giNs: int, rate: int)

  function GiValues(phy: int): seq<int> { if phy == HE then [800, 1600, 3200] else [800, 400] }

  /** A candidate of the search: streams, MCS and the position of its guard interval. */
  datatype Cand = Cand(nss: int, mcs: int, k: int)

  predicate InSearch(phy: int, c: Cand) {
    1 <= c.nss <= MAX_NSS && 0 <= c.mcs <= MaxMcs(phy) && 0 <= c.k < |GiValues(phy)|
  }

  /** Search order. */
  predicate Before(a: Cand, b: Cand) {
    a.nss < b.nss || (a.nss == b.nss && (a.mcs < b.mcs || (a.mcs == b.mcs && a.k < b.k)))
  }

  function RateOf(phy: int, width: int, c: Cand): nat
    requires InSearch(phy, c)
  {
    CalcRate(phy, width, c.nss, c.mcs, GiValues(phy)[c.k])
  }

  function Distance(a: int, b: int): nat { if a < b then b - a else a - b }

  /** c has a rate, and no other candidate up to bound is nearer, or as near and earlier. */
  ghost predicate IsFirstNearest(phy: int, width: int, observed: int, bound: Cand, c: Cand) {
    && InSearch(phy, c) && Before(c, bound) && RateOf(phy, width, c) != 0
    && forall d | InSearch(phy, d) && Before(d, bound) && RateOf(phy, width, d) != 0 ::
         && Distance(observed, RateOf(phy, width, c)) <= Distance(observed, RateOf(phy, width, d))
         && (Before(d, c) ==> Distance(observed, RateOf(phy, width, c)) < Distance(observed, RateOf(phy, width, d)))
  }

  ghost predicate NoneWithin(phy: int, width: int, observed: int, tolerance: int, bound: Cand) {
    forall d | InSearch(phy, d) && Before(d, bound) && RateOf(phy, width, d) != 0 ::
      Distance(observed, RateOf(phy, width, d)) > tolerance
  }

  const END := Cand(MAX_NSS + 1, 0, 0)

  /** What lltd_wifi_infer_params may return: the first nearest candidate within tolerance, or failure and zeros. */
  ghost predicate Inferred(phy: int, width: int, observed: int, tolerance: int, ok: bool, out: Params) {
    if ok then
      && IsOfdm(phy)
      && exists c :: IsFirstNearest(phy, width, observed, END, c)
           && Distance(observed, RateOf(phy, width, c)) <= tolerance
           && out == Params(c.nss, c.mcs, GiValues(phy)[c.k], RateOf(phy, width, c))
    else
      out == Params(0, 0, 0, 0) && (IsOfdm(phy) ==> NoneWithin(phy, width, observed, tolerance, END))
  }

  /** The search so far: best is the first nearest of the candidates before bound, if one is within tolerance. */
  ghost predicate SearchedTo(phy: int, width: int, observed: int, tolerance: int, bound: Cand, bestDiff: int, best: Cand,
                             bestRate: int) {
    if bestDiff > tolerance then
      bestDiff == tolerance + 1 && NoneWithin(phy, width, observed, tolerance, bound)
    else
      && IsFirstNearest(phy, width, observed, bound, best)
      && bestRate == RateOf(phy, width, best)
      && bestDiff == Distance(observed, bestRate)
  }

  /** Two bounds with the same candidates before them. */
  lemma SameBound(phy: int, width: int, observed: int, tolerance: int, b1: Cand, b2: Cand, diff: int, best: Cand, rate: int)
    requires SearchedTo(phy, width, observed, tolerance, b1, diff, best, rate)
    requires forall d | InSearch(phy, d) :: Before(d, b1) <==> Before(d, b2)
    ensures SearchedTo(phy, width, observed, tolerance, b2, diff, best, rate)
  {
  }

  lemma SearchOne(phy: int, width: int, observed: int, tolerance: int, c: Cand, diff: int, best: Cand, rate: int)
    requires InSearch(phy, c) && SearchedTo(phy, width, observed, tolerance, c, diff, best, rate)
    ensures var r := RateOf(phy, width, c);
            var next := Cand(c.nss, c.mcs, c.k + 1);
            if r != 0 && Distance(observed, r) < diff
            then SearchedTo(phy, width, observed, tolerance, next, Distance(observed, r), c, r)
            else SearchedTo(phy, width, observed, tolerance, next, diff, best, rate)
  {
    var next := Cand(c.nss, c.mcs, c.k + 1);
    assert forall d :: Before(d, next) <==> Before(d, c) || d == c;
  }

  /** The best match of the search: distance, rate and candidate. */
  datatype Best = Best(diff: int, rate: int, cand: Cand)

  /** The body of the innermost loop. */
  method Consider(phy: int, width: int, observed: int, tolerance: int, c: Cand, best: Best) returns (r: Best)
    requires InSearch(phy, c) && SearchedTo(phy, width, observed, tolerance, c, best.diff, best.cand, best.rate)
    ensures SearchedTo(phy, width, observed, tolerance, Cand(c.nss, c.mcs, c.k + 1), r.diff, r.cand, r.rate)
  {
    var rate := CalcRate(phy, width, c.nss, c.mcs, GiValues(phy)[c.k]);
    SearchOne(phy, width, observed, tolerance, c, best.diff, best.cand, best.rate);
    r := best;
    if rate != 0 {
      var diff := observed - rate;
      if diff < 0 {
        diff := -diff;
      }
      if diff < best.diff {
        r := Best(diff, rate, c);
      }
    }
  }

  /** The three nested loops. */
  method Search(phy: int, width: int, observed: int, tolerance: int) returns (best: Best)
    requires IsOfdm(phy)
    ensures SearchedTo(phy, width, observed, tolerance, END, best.diff, best.cand, best.rate)
  {
    var maxMcs, giCount := MaxMcs(phy), |GiValues(phy)|;
    best := Best(tolerance + 1, 0, Cand(0, 0, 0));
    for nss := 1 to MAX_NSS + 1
      invariant SearchedTo(phy, width, observed, tolerance, Cand(nss, 0, 0), best.diff, best.cand, best.rate)
    {
      for mcs := 0 to maxMcs + 1
        invariant SearchedTo(phy, width, observed, tolerance, Cand(nss, mcs, 0), best.diff, best.cand, best.rate)
      {
        for k := 0 to giCount
          invariant SearchedTo(phy, width, observed, tolerance, Cand(nss, mcs, k), best.diff, best.cand, best.rate)
        {
          best := Consider(phy, width, observed, tolerance, Cand(nss, mcs, k), best);
        }
        SameBound(phy, width, observed, tolerance, Cand(nss, mcs, giCount), Cand(nss, mcs + 1, 0), best.diff, best.cand, best.rate);
      }
      SameBound(phy, width, observed, tolerance, Cand(nss, maxMcs + 1, 0), Cand(nss + 1, 0, 0), best.diff, best.cand, best.rate);
    }
  }

  /** lltd_wifi_infer_params; ok is a zero return. */
  method InferParams(phy: int, width: int, observed: int, tolerance: int) returns (ok: bool, out: Params)
    ensures Inferred(phy, width, observed, tolerance, ok, out)
  {
    out := Params(0, 0, 0, 0);
    if phy != HT && phy != VHT && phy != HE {
      return false, out;
    }
    var best := Search(phy, width, observed, tolerance);
    if best.diff <= tolerance {
      out := Params(best.cand.nss, best.cand.mcs, GiValues(phy)[best.cand.k], best.rate);
      return true, out;
    }
    return false, out;
  }

  /** The specification leaves no choice. */
  lemma InferredIsUnique(phy: int, width: int, observed: int, tolerance: int, ok1: bool, out1: Params, ok2: bool, out2: Params)
    requires Inferred(phy, width, observed, tolerance, ok1, out1) && Inferred(phy, width, observed, tolerance, ok2, out2)
    ensures ok1 == ok2 && out1 == out2
  {
  }

  /** Inference succeeds exactly when some rate of the search lies within the tolerance. */
  lemma InferenceSucceedsIff(phy: int, width: int, observed: int, tolerance: int, ok: bool, out: Params)
    requires IsOfdm(phy) && Inferred(phy, width, observed, tolerance, ok, out)
    ensures ok <==> exists c :: InSearch(phy, c) && RateOf(phy, width, c) != 0
                             && Distance(observed, RateOf(phy, width, c)) <= tolerance
  {
    assert forall c :: InSearch(phy, c) ==> Before(c, END);
  }

  /** A computed rate is recognised: inferring from it gives parameters of the same rate. */
  lemma OwnRateInferred(phy: int, width: int, c: Cand, tolerance: int, ok: bool, out: Params)
    requires IsOfdm(phy) && InSearch(phy, c) && RateOf(phy, width, c) != 0 && tolerance >= 0
    requires Inferred(phy, width, RateOf(phy, width, c), tolerance, ok, out)
    ensures ok && out.rate == RateOf(phy, width, c)
    ensures out.rate == CalcRate(phy, width, out.nss, out.mcs, out.giNs)
  {
    assert Before(c, END);
  }

  /** Outside VHT at 20 MHz the maximum rate for the inferred streams reaches the observed rate, up to the tolerance. */
  lemma InferredStreamsReachRate(phy: int, width: int, observed: int, tolerance: int, out: Params)
    requires IsOfdm(phy) && !(phy == VHT && width == 20)
    requires Inferred(phy, width, observed, tolerance, true, out)
    ensures CalcMaxRate(phy, width, out.nss) >= observed - tolerance
  {
    MaxRateDominatesIff(phy, width, out.nss);
    assert out.rate == CalcRate(phy, width, out.nss, out.mcs, out.giNs);
  }

  // ----- rates by the parameters of the link ----------------------------------------------------

  /** The channel widths in MHz, and the guard intervals in ns in the order they are tried. */
  const WIDTHS: seq<int> := [20, 40, 80, 160]

  function GuardIntervals(phy: int): seq<int> { if phy == 5 then [800, 1600, 3200] else [800, 400] }

  function TopMcs(phy: int): nat { if phy == 3 then 7 else if phy == 4 then 9 else 11 }

  /** Legacy links have one rate; a link outside the standards' parameters has none. */
  lemma RateOutside(phy: int, width: int, nss: int, mcs: int, gi: int)
    ensures !(1 <= nss <= 8) || !(1 <= phy <= 5) ==> CalcRate(phy, width, nss, mcs, gi) == 0
    ensures 1 <= nss <= 8 && phy == 1 ==> CalcRate(phy, width, nss, mcs, gi) == 11
    ensures 1 <= nss <= 8 && phy == 2 ==> CalcRate(phy, width, nss, mcs, gi) == 54
    ensures phy in {3, 4, 5} && !(0 <= mcs <= TopMcs(phy)) ==> CalcRate(phy, width, nss, mcs, gi) == 0
    ensures phy in {3, 4, 5} && width !in WIDTHS ==> CalcRate(phy, width, nss, mcs, gi) == 0
    ensures phy == 3 && (width == 80 || width == 160) ==> CalcRate(phy, width, nss, mcs, gi) == 0
    ensures phy in {3, 4, 5} && gi !in GuardIntervals(phy) ==> CalcRate(phy, width, nss, mcs, gi) == 0
  {
    assert WIDTHS[0] == 20 && WIDTHS[1] == 40 && WIDTHS[2] == 80 && WIDTHS[3] == 160;
    var gs := GuardIntervals(phy);
    assert gs[0] == 800 && (phy == 5 ==> gs[1] == 1600 && gs[2] == 3200) && (phy != 5 ==> gs[1] == 400);
  }

  /** The rate of one stream times ten: the formula, but for the empty VHT row and the HE entry that is rounded down. */
  function OneStream(phy: int, w: nat, mcs: nat, g: nat): nat
    requires w <= 3 && mcs <= 11 && g <= 2
  {
    if phy == 4 && w == 0 && mcs == 9 then 0
    else if phy == 5 && w == 3 && mcs == 11 && g == 1 then 11342
    else Formula(phy, w, mcs, g)
  }

  lemma EntryIsFormula(phy: int, w: nat, mcs: nat, g: nat)
    requires phy in {3, 4, 5} && w < (if phy == 3 then 2 else 4) && mcs <= TopMcs(phy) && g < |GuardIntervals(phy)|
    ensures Entry(phy, WIDTHS[w], mcs, GuardIntervals(phy)[g]) == OneStream(phy, w, mcs, g)
  {
    if phy == 3 { HtMatchesFormula(mcs, w, g); }
    else if phy == 4 { VhtMatchesFormulaIff(mcs, w, g); }
    else { HeMatchesFormulaIff(mcs, w, g); }
  }

  /** n streams, in Mbps rounded half up. */
  function Streams(x: nat, n: nat): nat { (x * n + 5) / 10 }

  lemma RateScales(phy: int, width: int, nss: nat, mcs: int, gi: int, x: nat)
    requires phy in {3, 4, 5} && 1 <= nss <= 8 && x == Entry(phy, width, mcs, gi)
    ensures CalcRate(phy, width, nss, mcs, gi) == Streams(x, nss)
  {
  }

  /**
   * The rate of a link is that of one stream by the formula, times the streams: for every width, MCS and guard
   * interval by its value, the two deviating table entries aside.
   */
  lemma RateIsFormula(phy: int, w: nat, nss: nat, mcs: nat, g: nat)
    requires phy in {3, 4, 5} && w < (if phy == 3 then 2 else 4) && mcs <= TopMcs(phy) && g < |GuardIntervals(phy)|
    requires 1 <= nss <= 8
    ensures CalcRate(phy, WIDTHS[w], nss, mcs, GuardIntervals(phy)[g]) == Streams(OneStream(phy, w, mcs, g), nss)
  {
    var x := OneStream(phy, w, mcs, g);
    EntryIsFormula(phy, w, mcs, g);
    RateScales(phy, WIDTHS[w], nss, mcs, GuardIntervals(phy)[g], x);
  }

  /** The maximum rate is one of the rates: with MaxRateDominatesIff, the greatest, outside VHT at 20 MHz. */
  lemma MaxRateIsAttained(phy: int, width: int, nss: int)
    ensures phy == 1 ==> CalcMaxRate(phy, width, nss) == 11
    ensures phy == 2 ==> CalcMaxRate(phy, width, nss) == 54
    ensures !(1 <= phy <= 5) ==> CalcMaxRate(phy, width, nss) == 0
    ensures phy in {3, 4, 5} ==> exists mcs, gi :: CalcMaxRate(phy, width, nss) == CalcRate(phy, width, nss, mcs, gi)
  {
    if phy in {3, 4, 5} {
      assert CalcMaxRate(phy, width, nss) == CalcRate(phy, width, nss, MaxMcs(phy), if phy == HE then 800 else 400);
    }
  }

  lemma SearchOrder(phy: int)
    ensures GuardIntervals(phy) == GiValues(phy) && (phy in {3, 4, 5} ==> TopMcs(phy) == MaxMcs(phy)) && MAX_NSS == 8
  {
  }

  /**
   * Inferred parameters have a rate within the tolerance, and no streams, MCS and guard interval in their ranges
   * have a nearer one, or one as near that is tried earlier.
   */
  lemma InferredIsFirst(phy: int, width: int, observed: int, tolerance: int, out: Params, nss: int, mcs: int, g: nat)
    requires Inferred(phy, width, observed, tolerance, true, out)
    requires 1 <= nss <= 8 && 0 <= mcs <= TopMcs(phy) && g < |GuardIntervals(phy)|
    requires CalcRate(phy, width, nss, mcs, GuardIntervals(phy)[g]) != 0
    ensures phy in {3, 4, 5} && 1 <= out.nss <= 8 && 0 <= out.mcs <= TopMcs(phy)
    ensures out.rate == CalcRate(phy, width, out.nss, out.mcs, out.giNs) != 0
    ensures -tolerance <= observed - out.rate <= tolerance
    ensures var r := CalcRate(phy, width, nss, mcs, GuardIntervals(phy)[g]);
            var near, far := (if observed < out.rate then out.rate - observed else observed - out.rate),
                             (if observed < r then r - observed else observed - r);
            && near <= far
            && (near == far ==>
                  || out.nss < nss || (out.nss == nss && out.mcs < mcs)
                  || (out.nss == nss && out.mcs == mcs && exists k :: 0 <= k <= g && GuardIntervals(phy)[k] == out.giNs))
  {
    var c := Cand(nss, mcs, g);
    SearchOrder(phy);
    assert InSearch(phy, c) && Before(c, END);
    var best :| IsFirstNearest(phy, width, observed, END, best)
                && Distance(observed, RateOf(phy, width, best)) <= tolerance
                && out == Params(best.nss, best.mcs, GiValues(phy)[best.k], RateOf(phy, width, best));
    assert GuardIntervals(phy)[best.k] == out.giNs;
  }
}
