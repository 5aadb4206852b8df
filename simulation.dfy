/** The rules of one 2-second tick of the live feed (App.tsx, the interval
    body), each stated as a function of the previous state and the tick's
    random draws. The session class applies them in place. */
module Simulation {
  import opened Types
  import opened Numeric
  import opened Constants
  import opened Collections

  /** Every `Math.random()` draw one tick may use, named by what it decides. */
  datatype TickDraws = TickDraws(
    heatSpike: real,          // 20% heat-spike event
    highDischarge: real,      // 20% heavy-discharge event
    imbalance: real,          // 30% voltage-imbalance event
    wear: seq<real>,          // one per contributor
    stateChange: real,        // 2% charging-state change
    current: real,            // jitter of the state's current
    voltage: real,            // jitter of the state's voltage
    imbalanceVoltage: real,   // voltage during an imbalance while charging
    tempStep: real,           // first temperature draw
    tempFluctuation: real,    // natural fluctuation below 40°C
    spikeSize: real,          // size of a heat spike
    faultCurrent: real,       // current under an over-current fault
    alertMessages: seq<real>, // message choices of the alert evaluation
    carbonJitter: real)       // jitter of the published carbon impact
  {
    predicate Valid(contributorCount: nat) {
      InUnit(heatSpike) && InUnit(highDischarge) && InUnit(imbalance) &&
      |wear| == contributorCount && (forall i :: 0 <= i < |wear| ==> InUnit(wear[i])) &&
      InUnit(stateChange) && InUnit(current) && InUnit(voltage) && InUnit(imbalanceVoltage) &&
      InUnit(tempStep) && InUnit(tempFluctuation) && InUnit(spikeSize) && InUnit(faultCurrent) &&
      |alertMessages| == RuleCount + 1 &&
      (forall i :: 0 <= i < |alertMessages| ==> InUnit(alertMessages[i])) &&
      InUnit(carbonJitter)
    }

    predicate IsHeatSpike() { heatSpike < 0.2 }
    predicate IsHighDischarge() { highDischarge < 0.2 }
    predicate IsImbalance() { imbalance < 0.3 }
    predicate ChangesState() { stateChange < 0.02 }
  }

  // ---------------------------------------------------------------------
  // Charging-state machine.

  /** The cyclic order discharging → idle → charging → discharging. */
  function Successor(s: ChargingState): ChargingState {
    match s
    case Discharging => Idle
    case Idle => Charging
    case Charging => Discharging
  }

  function NextChargingState(s: ChargingState, d: TickDraws): ChargingState {
    if d.ChangesState() then Successor(s) else s
  }

  /** The cycle counter moves only with the charging → discharging step. */
  function NextCycleCount(s: ChargingState, cycles: int, d: TickDraws): int {
    if d.ChangesState() && s == Charging then cycles + 1 else cycles
  }

  /** The state changes exactly on the 2% draw, and then to its successor;
      three changes lead back to the start. */
  lemma ChargingStateCycle(s: ChargingState, d: TickDraws)
    ensures NextChargingState(s, d) != s <==> d.ChangesState()
    ensures d.ChangesState() ==> NextChargingState(s, d) == Successor(s)
    ensures Successor(Successor(Successor(s))) == s
  {
  }

  /** `cycle_count` rises by exactly one when the state enters discharging and
      is unchanged otherwise. */
  lemma CycleCountOnDischargeEntry(s: ChargingState, cycles: int, d: TickDraws)
    ensures var entered := s != Discharging && NextChargingState(s, d) == Discharging;
      NextCycleCount(s, cycles, d) == if entered then cycles + 1 else cycles
  {
  }

  // ---------------------------------------------------------------------
  // Readings that depend on the new state.

  /** `newSoc` before rounding. */
  function SocStep(s: ChargingState, soc: real): real {
    match s
    case Charging => if soc + 0.1 < 100.0 then soc + 0.1 else 100.0
    case Discharging => if soc - 0.05 > 0.0 then soc - 0.05 else 0.0
    case Idle => soc
  }

  /** `newCurrent` before the over-current fault. */
  function StateCurrent(s: ChargingState, d: TickDraws): real {
    match s
    case Charging => 60.0 + (d.current - 0.5) * 5.0
    case Discharging =>
      if d.IsHighDischarge() then -85.0 + (d.current - 0.5) * 10.0
      else -40.0 + (d.current - 0.5) * 10.0
    case Idle => (d.current - 0.5) * 0.5
  }

  /** `newVoltage` before the voltage fault. */
  function StateVoltage(s: ChargingState, d: TickDraws): real {
    match s
    case Charging => if d.IsImbalance() then 407.0 + d.imbalanceVoltage * 2.0 else 400.0 + (d.voltage - 0.5) * 2.0
    case Discharging => 385.0 + (d.voltage - 0.5) * 5.0
    case Idle => 390.0 + (d.voltage - 0.5) * 1.0
  }

  /** The voltage fault subtracts a fixed 20 V. */
  function FaultedVoltage(v: real, fault: Field): real {
    if fault == Voltage then v - 20.0 else v
  }

  /** The over-current fault overrides the current while charging. */
  function FaultedCurrent(c: real, s: ChargingState, fault: Field, d: TickDraws): real {
    if fault == Current && s == Charging then 100.0 + d.faultCurrent * 10.0 else c
  }

  /** `newTemp` before rounding: the three-way temperature rule, then the heat spike. */
  function TempStep(prev: real, fault: Field, d: TickDraws): real {
    var thermal := fault == PackTemp;
    var first := if thermal then Min(55.0, prev + d.tempStep * 2.0) else Max(35.0, prev - d.tempStep * 0.5);
    var settled :=
      if !thermal && prev > 40.0 then prev - 0.2
      else if !thermal then Max(30.0, Min(45.0, first + (d.tempFluctuation - 0.4)))
      else first;
    if d.IsHeatSpike() && !thermal then settled + 6.0 + d.spikeSize * 4.0 else settled
  }

  /** The snapshot a tick publishes: `...prev` with the new readings rounded to
      one decimal place. */
  function NextTelemetry(prev: Telemetry, fault: Field, d: TickDraws): Telemetry {
    var s := NextChargingState(prev.chargingState, d);
    Telemetry(
      prev.vehicleId,
      Round1(SocStep(s, prev.soc)),
      Round1(FaultedVoltage(StateVoltage(s, d), fault)),
      Round1(FaultedCurrent(StateCurrent(s, d), s, fault, d)),
      Round1(TempStep(prev.packTemp, fault, d)),
      NextCycleCount(prev.chargingState, prev.cycleCount, d),
      s,
      prev.ambient)
  }

  /** State of charge stays within [0, 100], and follows the state's rule to
      within the rounding. */
  lemma SocStaysInRange(s: ChargingState, soc: real)
    requires 0.0 <= soc <= 100.0
    ensures 0.0 <= Round1(SocStep(s, soc)) <= 100.0
    ensures s == Idle ==> SocStep(s, soc) == soc
    ensures s == Charging ==> soc <= SocStep(s, soc) <= soc + 0.1
    ensures s == Discharging ==> soc - 0.05 <= SocStep(s, soc) <= soc
  {
    Round1Within(SocStep(s, soc), 0, 1000);
  }

  /** On exact reals, a discharge step from a soc on the 0.1 grid is a rounding
      tie that goes back up: the published soc does not fall. */
  lemma SocDischargeOnGrid(k: int)
    requires 1 <= k <= 1000
    ensures Round1(SocStep(Discharging, k as real / 10.0)) == k as real / 10.0
  {
    assert SocStep(Discharging, k as real / 10.0) == k as real / 10.0 - 0.05;
    assert (k as real / 10.0 - 0.05) * 10.0 + 0.5 == k as real;
  }

  /** A tick keeps the vehicle, the ambient conditions and the state of
      charge range, and never lowers the cycle count. */
  lemma TelemetryStep(prev: Telemetry, fault: Field, d: TickDraws)
    requires 0.0 <= prev.soc <= 100.0
    ensures var next := NextTelemetry(prev, fault, d);
      0.0 <= next.soc <= 100.0 && next.vehicleId == prev.vehicleId && next.ambient == prev.ambient &&
      prev.cycleCount <= next.cycleCount <= prev.cycleCount + 1 &&
      next.chargingState == NextChargingState(prev.chargingState, d)
  {
    SocStaysInRange(NextChargingState(prev.chargingState, d), prev.soc);
  }

  /** The current and voltage each state produces, before faults. */
  lemma StateReadings(s: ChargingState, d: TickDraws)
    requires d.Valid(|d.wear|)
    ensures s == Charging ==> 57.5 <= StateCurrent(s, d) < 62.5
    ensures s == Charging && !d.IsImbalance() ==> 399.0 <= StateVoltage(s, d) < 401.0
    ensures s == Charging && d.IsImbalance() ==> 407.0 <= StateVoltage(s, d) < 409.0
    ensures s == Discharging && d.IsHighDischarge() ==> -90.0 <= StateCurrent(s, d) < -80.0
    ensures s == Discharging && !d.IsHighDischarge() ==> -45.0 <= StateCurrent(s, d) < -35.0
    ensures s == Discharging ==> 382.5 <= StateVoltage(s, d) < 387.5
    ensures s == Idle ==> -0.25 <= StateCurrent(s, d) < 0.25
    ensures s == Idle ==> 389.5 <= StateVoltage(s, d) < 390.5
  {
  }

  /** Compared with a tick on the same draws without a fault, the voltage fault
      publishes exactly 20 V less and nothing else differs; the over-current
      fault publishes a charging current in [100, 110] and nothing else
      differs, and outside charging changes nothing at all. */
  lemma FaultOverrides(prev: Telemetry, d: TickDraws)
    requires d.Valid(|d.wear|)
    ensures var calm := NextTelemetry(prev, NoField, d);
      NextTelemetry(prev, Voltage, d) == calm.(voltage := calm.voltage - 20.0)
    ensures var calm := NextTelemetry(prev, NoField, d);
      var over := NextTelemetry(prev, Current, d);
      calm.chargingState == Charging ==> 100.0 <= over.current <= 110.0 && over == calm.(current := over.current)
    ensures NextTelemetry(prev, NoField, d).chargingState != Charging ==>
      NextTelemetry(prev, Current, d) == NextTelemetry(prev, NoField, d)
  {
    var s := NextChargingState(prev.chargingState, d);
    StateReadings(s, d);
    Round1Shift(StateVoltage(s, d), 200);
    if s == Charging {
      Round1Within(FaultedCurrent(StateCurrent(s, d), s, Current, d), 1000, 1100);
    }
  }

  /** Under a thermal fault the temperature rises toward 55 and never past it. */
  lemma TempUnderThermalFault(prev: real, d: TickDraws)
    requires d.Valid(|d.wear|)
    ensures TempStep(prev, PackTemp, d) <= 55.0
    ensures TempStep(prev, PackTemp, d) >= Min(prev, 55.0)
    ensures Round1(TempStep(prev, PackTemp, d)) <= 55.0
  {
    Round1Monotone(TempStep(prev, PackTemp, d), 55.0);
    Round1Grid(550);
  }

  /** Without a thermal fault a pack above 40°C cools by exactly 0.2, unless a
      heat spike adds 6 to 10 — so nothing bounds the temperature from above. */
  lemma TempAboveForty(prev: real, fault: Field, d: TickDraws)
    requires d.Valid(|d.wear|) && fault != PackTemp && prev > 40.0
    ensures !d.IsHeatSpike() ==> TempStep(prev, fault, d) == prev - 0.2
    ensures d.IsHeatSpike() ==> prev + 5.8 <= TempStep(prev, fault, d) < prev + 9.8
  {
  }

  /** Without a thermal fault a pack at or below 40°C lands in [34.6, 40.6) —
      inside the [30, 45] clamp — or, after a heat spike, in [40.6, 50.6). */
  lemma TempAtMostForty(prev: real, fault: Field, d: TickDraws)
    requires d.Valid(|d.wear|) && fault != PackTemp && prev <= 40.0
    ensures !d.IsHeatSpike() ==> 34.6 <= TempStep(prev, fault, d) < 40.6
    ensures d.IsHeatSpike() ==> 40.6 <= TempStep(prev, fault, d) < 50.6
  {
    var first := Max(35.0, prev - d.tempStep * 0.5);
    assert 35.0 <= first <= 40.0;
    var fluct := first + (d.tempFluctuation - 0.4);
    assert 34.6 <= fluct < 40.6;
    assert Max(30.0, Min(45.0, fluct)) == fluct;
  }

  // ---------------------------------------------------------------------
  // Health index.

  /** The per-tick BHI decay: a fault-specific constant plus 0.1 on a heat spike. */
  function Decay(fault: Field, heatSpike: bool): real {
    var base := match fault
      case NoField => 0.03
      case PackTemp => 0.5
      case Voltage => 0.3
      case Current => 0.4;
    if heatSpike then base + 0.1 else base
  }

  function NextBhi(prev: real, fault: Field, d: TickDraws): real {
    Max(50.0, prev - Decay(fault, d.IsHeatSpike()))
  }

  /** The new BHI never falls below 50; from 50 or above it never rises, and
      above the floor it strictly falls by the decay. */
  lemma BhiDecays(prev: real, fault: Field, d: TickDraws)
    ensures 0.03 <= Decay(fault, d.IsHeatSpike()) <= 0.6
    ensures NextBhi(prev, fault, d) >= 50.0
    ensures prev >= 50.0 ==> NextBhi(prev, fault, d) <= prev
    ensures prev > 50.0 ==> NextBhi(prev, fault, d) < prev
    ensures prev - Decay(fault, d.IsHeatSpike()) >= 50.0 ==>
      NextBhi(prev, fault, d) == prev - Decay(fault, d.IsHeatSpike())
  {
  }

  /** Each contributor's impact drops by a random amount below 0.005. */
  function WearContributors(cs: seq<Contributor>, wear: seq<real>): (r: seq<Contributor>)
    requires |wear| == |cs|
    ensures |r| == |cs|
  {
    seq(|cs|, i requires 0 <= i < |cs| => Contributor(cs[i].factor, cs[i].impact - wear[i] * 0.005))
  }

  lemma ContributorsWear(cs: seq<Contributor>, wear: seq<real>)
    requires |wear| == |cs| && forall i :: 0 <= i < |wear| ==> InUnit(wear[i])
    ensures var r := WearContributors(cs, wear);
      |r| == |cs| &&
      forall i :: 0 <= i < |cs| ==>
        r[i].factor == cs[i].factor && cs[i].impact - 0.005 < r[i].impact <= cs[i].impact
  {
  }

  // ---------------------------------------------------------------------
  // History and carbon impact.

  /** `[...prevHist, newPoint].slice(-50)`. */
  function AppendHistory(h: seq<TelemetryPoint>, p: TelemetryPoint): seq<TelemetryPoint> {
    TakeLast(h + [p], 50)
  }

  /** The history keeps the last at most 49 old points in order, with the new
      point last. */
  lemma HistoryWindow(h: seq<TelemetryPoint>, p: TelemetryPoint)
    ensures var r := AppendHistory(h, p);
      |r| == (if |h| < 50 then |h| + 1 else 50) &&
      r[|r| - 1] == p &&
      r[..|r| - 1] == h[|h| - (|r| - 1)..]
  {
    var r := AppendHistory(h, p);
    assert r == (h + [p])[|h| + 1 - |r|..];
    assert r[..|r| - 1] == (h + [p])[|h| + 1 - |r|..|h|];
  }

  /** The carbon-impact score before jitter. */
  function CarbonScore(t: Telemetry): real {
    if t.chargingState == Charging then
      5.0
      + (if t.current > 70.0 then 7.0 else if t.current > 40.0 then 4.0 else 0.0)
      + (if t.ambient.temp > 30.0 then 4.0 else 0.0)
      + (if t.soc > 85.0 then 2.0 else 0.0)
    else 5.0
  }

  /** The score is 5 when not charging and lies in [5, 18]; the published value
      adds jitter in [-0.5, 0.5). */
  lemma CarbonScoreRange(t: Telemetry, jitter: real)
    requires InUnit(jitter)
    ensures t.chargingState != Charging ==> CarbonScore(t) == 5.0
    ensures 5.0 <= CarbonScore(t) <= 18.0
    ensures 4.5 <= CarbonScore(t) + (jitter - 0.5) < 18.5
  {
  }
}
