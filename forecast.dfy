/** The six-month BHI forecast and the component failure risks
    (`generateForecast`, ForecastPanel.tsx). */
module Forecast {
  import opened Types
  import opened Numeric

  /** `BHIForecastPoint`. */
  datatype ForecastPoint = ForecastPoint(months: nat, bhi: real, confidenceMin: real, confidenceMax: real)

  /** `ComponentFailureForecast`. */
  datatype ComponentRisk = ComponentRisk(component: string, probability: real)

  datatype ForecastResult = ForecastResult(bhiForecast: seq<ForecastPoint>, componentForecast: seq<ComponentRisk>)

  /** The forecast horizon in months. */
  const Horizon: nat := 6

  /** Monthly decay added by a hot or humid climate. */
  function ClimateStress(a: Ambient): real {
    (if a.temp > 38.0 then 0.20 else if a.temp > 32.0 then 0.10 else 0.0) +
    (if a.humidity > 80.0 then 0.15 else if a.humidity > 70.0 then 0.05 else 0.0)
  }

  /** The monthly decay before the low-BHI acceleration. */
  function BaseDecay(t: Telemetry): real {
    0.4 + ClimateStress(t.ambient) +
    (if t.packTemp > 40.0 then 0.2 else 0.0) +
    (if t.cycleCount > 300 then (t.cycleCount - 300) as real * 0.001 else 0.0)
  }

  /** `totalMonthlyDecay`. */
  function MonthlyDecay(bhi: real, t: Telemetry): real {
    if bhi < 80.0 then BaseDecay(t) * 1.1 else BaseDecay(t)
  }

  /** The projected BHI for month i with its jitter draw. */
  function ProjectedBhi(bhi: real, rate: real, i: nat, r: real): real {
    Max(50.0, bhi - rate * i as real + (r - 0.5) * 0.5)
  }

  /** The point for month i: the projection with a band of half a point per month. */
  function MonthPoint(bhi: real, rate: real, i: nat, r: real): ForecastPoint {
    var p := ProjectedBhi(bhi, rate, i, r);
    ForecastPoint(i, p, Max(50.0, p - i as real * 0.5), Min(100.0, p + i as real * 0.5))
  }

  predicate ValidJitter(jitter: seq<real>) {
    |jitter| == Horizon && forall k :: 0 <= k < |jitter| ==> InUnit(jitter[k])
  }

  /** Month 0 is the current BHI with an empty band, then one point per month. */
  function Projection(bhi: real, rate: real, jitter: seq<real>): seq<ForecastPoint>
    requires |jitter| == Horizon
  {
    [ForecastPoint(0, bhi, bhi, bhi)] +
    seq(Horizon, k requires 0 <= k < Horizon => MonthPoint(bhi, rate, k + 1, jitter[k]))
  }

  /** The four component risks, in display order. */
  function ComponentRisks(t: Telemetry): seq<ComponentRisk> {
    var hot := t.packTemp > 45.0;
    var heavy := Abs(t.current) > 80.0;
    [ ComponentRisk("Battery Cells",
        Min(1.0, 0.05 + t.cycleCount as real / 10000.0 + (if hot then 0.20 else 0.0) + (if heavy then 0.10 else 0.0))),
      ComponentRisk("BMS", Min(1.0, 0.02)),
      ComponentRisk("Cooling System", Min(1.0, 0.03 + (if hot then 0.25 else 0.0))),
      ComponentRisk("Inverter", Min(1.0, 0.01 + (if heavy then 0.15 else 0.0))) ]
  }

  lemma ProjectionPrefix(bhi: real, rate: real, jitter: seq<real>, i: nat)
    requires |jitter| == Horizon && 1 <= i <= Horizon
    ensures Projection(bhi, rate, jitter)[..i + 1] ==
      Projection(bhi, rate, jitter)[..i] + [MonthPoint(bhi, rate, i, jitter[i - 1])]
  {
  }

  /** The projection loop of `generateForecast`: month 0, then one clamped
      point per month. */
  method ProjectBhi(currentBhi: real, decay: real, jitter: seq<real>) returns (points: seq<ForecastPoint>)
    requires ValidJitter(jitter)
    ensures points == Projection(currentBhi, decay, jitter)
  {
    points := [ForecastPoint(0, currentBhi, currentBhi, currentBhi)];
    var i := 1;
    while i <= Horizon
      invariant 1 <= i <= Horizon + 1
      invariant points == Projection(currentBhi, decay, jitter)[..i]
    {
      var projected := Max(50.0, currentBhi - decay * i as real + (jitter[i - 1] - 0.5) * 0.5);
      var confidenceRange := i as real * 0.5;
      var point := ForecastPoint(i, projected, Max(50.0, projected - confidenceRange), Min(100.0, projected + confidenceRange));
      assert point == MonthPoint(currentBhi, decay, i, jitter[i - 1]);
      ProjectionPrefix(currentBhi, decay, jitter, i);
      points := points + [point];
      i := i + 1;
    }
  }

  /** `generateForecast(currentBhi, telemetry)`, with the six jitter draws. */
  method GenerateForecast(currentBhi: real, t: Telemetry, jitter: seq<real>) returns (f: ForecastResult)
    requires ValidJitter(jitter)
    ensures f.bhiForecast == Projection(currentBhi, MonthlyDecay(currentBhi, t), jitter)
    ensures f.componentForecast == ComponentRisks(t)
  {
    var baseMonthlyDecay := 0.4;
    var climateStressImpact := 0.0;
    if t.ambient.temp > 38.0 {
      climateStressImpact := climateStressImpact + 0.20;
    } else if t.ambient.temp > 32.0 {
      climateStressImpact := climateStressImpact + 0.10;
    }
    if t.ambient.humidity > 80.0 {
      climateStressImpact := climateStressImpact + 0.15;
    } else if t.ambient.humidity > 70.0 {
      climateStressImpact := climateStressImpact + 0.05;
    }
    var decay := baseMonthlyDecay + climateStressImpact;
    if t.packTemp > 40.0 {
      decay := decay + 0.2;
    }
    if t.cycleCount > 300 {
      decay := decay + (t.cycleCount - 300) as real * 0.001;
    }
    if currentBhi < 80.0 {
      decay := decay * 1.1;
    }
    assert decay == MonthlyDecay(currentBhi, t);

    var points := ProjectBhi(currentBhi, decay, jitter);

    var cell := 0.05 + t.cycleCount as real / 10000.0;
    var bms := 0.02;
    var cooling := 0.03;
    var inverter := 0.01;
    if t.packTemp > 45.0 {
      cell := cell + 0.20;
      cooling := cooling + 0.25;
    }
    if Abs(t.current) > 80.0 {
      inverter := inverter + 0.15;
      cell := cell + 0.10;
    }
    f := ForecastResult(points, [
      ComponentRisk("Battery Cells", Min(1.0, cell)),
      ComponentRisk("BMS", Min(1.0, bms)),
      ComponentRisk("Cooling System", Min(1.0, cooling)),
      ComponentRisk("Inverter", Min(1.0, inverter))]);
  }

  /** The monthly decay is at least the 0.4 base, grows with every stressor,
      and is accelerated by exactly 10% below a BHI of 80. */
  lemma DecayBounds(bhi: real, t: Telemetry)
    ensures 0.0 <= ClimateStress(t.ambient) <= 0.35
    ensures 0.4 <= BaseDecay(t) <= MonthlyDecay(bhi, t)
    ensures t.cycleCount <= 300 ==> BaseDecay(t) <= 0.95
    ensures bhi < 80.0 <==> MonthlyDecay(bhi, t) > BaseDecay(t)
  {
  }

  /** One month's point: a BHI of at least 50, a band inside [50, 100] around
      it no wider than one point per month, and below the current BHI when
      that is above the floor. */
  lemma MonthPointShape(bhi: real, rate: real, i: nat, r: real)
    requires rate >= 0.4 && i >= 1 && InUnit(r)
    ensures var p := MonthPoint(bhi, rate, i, r);
      p.months == i && p.bhi >= 50.0 &&
      50.0 <= p.confidenceMin <= p.bhi && p.confidenceMax <= 100.0 &&
      p.confidenceMax - p.confidenceMin <= i as real &&
      (bhi <= 100.0 ==> p.bhi <= p.confidenceMax) &&
      (bhi > 50.0 ==> p.bhi < bhi)
  {
    var drop := rate * i as real;
    assert drop >= 0.4 by {
      assert rate * i as real >= 0.4 * i as real;
    }
  }

  /** Every point of the projection: month i at position i, a BHI of at least
      50, a band inside [50, 100] around it that widens by at most one point per
      month; above the floor each projection is below the current BHI. */
  lemma ProjectionShape(bhi: real, t: Telemetry, jitter: seq<real>)
    requires ValidJitter(jitter)
    ensures var ps := Projection(bhi, MonthlyDecay(bhi, t), jitter);
      |ps| == Horizon + 1 && ps[0] == ForecastPoint(0, bhi, bhi, bhi) &&
      forall i :: 1 <= i < |ps| ==>
        ps[i].months == i && ps[i].bhi >= 50.0 &&
        50.0 <= ps[i].confidenceMin <= ps[i].bhi &&
        ps[i].confidenceMax <= 100.0 &&
        ps[i].confidenceMax - ps[i].confidenceMin <= i as real &&
        (bhi <= 100.0 ==> ps[i].bhi <= ps[i].confidenceMax) &&
        (bhi > 50.0 ==> ps[i].bhi < bhi)
  {
    var rate := MonthlyDecay(bhi, t);
    DecayBounds(bhi, t);
    var ps := Projection(bhi, rate, jitter);
    forall i | 1 <= i < |ps|
      ensures ps[i].months == i && ps[i].bhi >= 50.0 &&
        50.0 <= ps[i].confidenceMin <= ps[i].bhi && ps[i].confidenceMax <= 100.0 &&
        ps[i].confidenceMax - ps[i].confidenceMin <= i as real &&
        (bhi <= 100.0 ==> ps[i].bhi <= ps[i].confidenceMax) &&
        (bhi > 50.0 ==> ps[i].bhi < bhi)
    {
      assert ps[i] == MonthPoint(bhi, rate, i, jitter[i - 1]);
      MonthPointShape(bhi, rate, i, jitter[i - 1]);
    }
  }

  /** Jitter can lift one month above the previous one, but never two months
      above the one two before: over two months the decay (at least 0.8)
      outweighs the jitter (under 0.5). */
  lemma ProjectionFallsEveryTwoMonths(bhi: real, t: Telemetry, jitter: seq<real>, i: nat)
    requires ValidJitter(jitter) && 1 <= i && i + 2 <= Horizon
    ensures var ps := Projection(bhi, MonthlyDecay(bhi, t), jitter);
      ps[i + 2].bhi <= ps[i].bhi && (ps[i].bhi > 50.0 ==> ps[i + 2].bhi < ps[i].bhi)
  {
    var rate := MonthlyDecay(bhi, t);
    DecayBounds(bhi, t);
    var ps := Projection(bhi, rate, jitter);
    assert ps[i] == MonthPoint(bhi, rate, i, jitter[i - 1]);
    assert ps[i + 2] == MonthPoint(bhi, rate, i + 2, jitter[i + 1]);
    ProjectedFallsTwoMonths(bhi, rate, i, jitter[i - 1], jitter[i + 1]);
  }

  /** Two months on, the projected BHI drops by at least 2 × rate − 0.5 before
      the floor, so it is no higher, and lower when the earlier one is above 50. */
  lemma ProjectedFallsTwoMonths(bhi: real, rate: real, i: nat, r0: real, r2: real)
    requires rate >= 0.4 && InUnit(r0) && InUnit(r2)
    ensures var p0, p2 := ProjectedBhi(bhi, rate, i, r0), ProjectedBhi(bhi, rate, i + 2, r2);
      p2 <= p0 && (p0 > 50.0 ==> p2 < p0)
  {
    var near, far := rate * i as real, rate * (i + 2) as real;
    TwoMonthsOn(rate, i);
    assert far == near + rate * 2.0;
    var e0, e2 := (r0 - 0.5) * 0.5, (r2 - 0.5) * 0.5;
    assert -0.25 <= e0 && e2 < 0.25;
    assert bhi - far + e2 < bhi - near + e0;
  }

  /** The decay accumulated by month i + 2 is that of month i plus two months'. */
  lemma TwoMonthsOn(rate: real, i: nat)
    ensures rate * (i + 2) as real == rate * i as real + rate * 2.0
  {
    var k := i as real;
    assert (i + 2) as real == k + 2.0;
  }

  /** The risks come in the order cells, BMS, cooling, inverter; each is a
      probability once the cycle count is not negative; the heat and current
      stressors raise exactly the components they name. */
  lemma RiskProperties(t: Telemetry)
    ensures var rs := ComponentRisks(t);
      |rs| == 4 && rs[0].component == "Battery Cells" && rs[1].component == "BMS" &&
      rs[2].component == "Cooling System" && rs[3].component == "Inverter" &&
      (t.cycleCount >= 0 ==> forall k :: 0 <= k < 4 ==> 0.0 <= rs[k].probability <= 1.0) &&
      rs[1].probability == 0.02 &&
      (rs[2].probability == 0.28 <==> t.packTemp > 45.0) &&
      (rs[3].probability == 0.16 <==> Abs(t.current) > 80.0) &&
      (t.cycleCount >= 0 && t.packTemp > 45.0 ==> rs[0].probability >= 0.25)
  {
  }
}
