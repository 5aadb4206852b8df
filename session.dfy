/** The dashboard's live simulation session (App.tsx): the state the app
    component holds, the interval tick, manual fault injection and its
    timeout, and the stop/reset of the live feed. */
module App {
  import opened Types
  import opened Numeric
  import opened Constants
  import opened Collections
  import opened Alerts
  import opened Simulation

  /** Carbon impact shown before the first tick and after a reset. */
  const InitialCarbonImpact: real := 12.0
  /** The history keeps this many latest points. */
  const HistoryLength: nat := 50

  /** The alert a manual fault raises. */
  function FaultAlert(f: Field): (a: Alert)
    requires f != NoField
    ensures Rank(a.severity) == 0
    ensures a.id != LowRiskId && forall i :: 0 <= i < |Definitions| ==> a.id != Definitions[i].id
  {
    var id := match f
      case PackTemp => "fault-temp"
      case Voltage => "fault-volt"
      case Current => "fault-curr";
    Alert(id, Critical, FaultMessage(f), FaultAdvisory, JustNow)
  }

  /** Distinct fault kinds raise alerts with distinct ids, none of which is
      the id of a rule alert or of the low-risk status, so raising a fault
      alert removes at most the earlier alert of the same fault. */
  lemma FaultAlertIds(f: Field, g: Field)
    requires f != NoField && g != NoField
    ensures FaultAlert(f).id == FaultAlert(g).id <==> f == g
    ensures FaultAlert(f).id != LowRiskId
    ensures forall i :: 0 <= i < |Definitions| ==> FaultAlert(f).id != Definitions[i].id
  {
  }

  /** `s.filter(a => a.id !== id)`. */
  function WithoutId(s: seq<Alert>, id: string): (r: seq<Alert>)
    ensures |r| <= |s|
  {
    if s == [] then [] else (if s[0].id == id then [] else [s[0]]) + WithoutId(s[1..], id)
  }

  lemma {:induction false} WithoutIdMembers(s: seq<Alert>, id: string)
    ensures forall a :: a in WithoutId(s, id) <==> a in s && a.id != id
  {
    if s != [] {
      WithoutIdMembers(s[1..], id);
      assert s == [s[0]] + s[1..];
    }
  }

  lemma {:induction false} WithoutIdDistinct(s: seq<Alert>, id: string)
    requires DistinctIds(s)
    ensures DistinctIds(WithoutId(s, id))
  {
    if s != [] {
      assert DistinctIds(s[1..]) by {
        forall i, j | 0 <= i < j < |s[1..]| ensures IdOf(s[1..][i]) != IdOf(s[1..][j]) {
          assert s[1..][i] == s[i + 1] && s[1..][j] == s[j + 1];
        }
      }
      WithoutIdDistinct(s[1..], id);
      WithoutIdMembers(s[1..], id);
      var tail := WithoutId(s[1..], id);
      forall a | a in tail ensures a.id != s[0].id {
        var k :| 0 <= k < |s[1..]| && s[1..][k] == a;
        assert s[k + 1] == a;
      }
      var r := WithoutId(s, id);
      forall i, j | 0 <= i < j < |r| ensures IdOf(r[i]) != IdOf(r[j]) {
        if s[0].id != id && i == 0 {
          assert r[j] == tail[j - 1] && r[j] in tail;
        }
      }
    }
  }

  lemma {:induction false} WithoutIdTwice(s: seq<Alert>, id: string)
    ensures WithoutId(WithoutId(s, id), id) == WithoutId(s, id)
  {
    if s != [] {
      WithoutIdTwice(s[1..], id);
      var r := WithoutId(s, id);
      if s[0].id != id {
        assert r == [s[0]] + WithoutId(s[1..], id);
        assert r[0] == s[0] && r[1..] == WithoutId(s[1..], id);
      } else {
        assert r == WithoutId(s[1..], id);
      }
    }
  }

  /** `[faultAlert, ...prev.filter(a => a.id !== faultAlert.id)]`. */
  function RaiseFault(s: seq<Alert>, f: Field): seq<Alert>
    requires f != NoField
  {
    [FaultAlert(f)] + WithoutId(s, FaultAlert(f).id)
  }

  /** The fault's alert heads the list, every other alert is kept exactly when
      its id differs, and nothing else appears. */
  lemma RaiseFaultMembers(s: seq<Alert>, f: Field)
    requires f != NoField
    ensures RaiseFault(s, f)[0] == FaultAlert(f)
    ensures forall a :: a in RaiseFault(s, f) <==> a == FaultAlert(f) || (a in s && a.id != FaultAlert(f).id)
  {
    WithoutIdMembers(s, FaultAlert(f).id);
  }

  /** Raising a fault keeps alert ids distinct. */
  lemma RaiseFaultDistinct(s: seq<Alert>, f: Field)
    requires f != NoField && DistinctIds(s)
    ensures DistinctIds(RaiseFault(s, f))
  {
    var id := FaultAlert(f).id;
    var rest := WithoutId(s, id);
    WithoutIdMembers(s, id);
    WithoutIdDistinct(s, id);
    var r := RaiseFault(s, f);
    assert r[1..] == rest;
    forall i, j | 0 <= i < j < |r| ensures IdOf(r[i]) != IdOf(r[j]) {
      assert r[j] == rest[j - 1];
      if i == 0 {
        assert rest[j - 1] in rest;
      } else {
        assert r[i] == rest[i - 1];
      }
    }
  }

  /** Raising the same fault twice is the same as raising it once. */
  lemma RaiseFaultIdempotent(s: seq<Alert>, f: Field)
    requires f != NoField
    ensures RaiseFault(RaiseFault(s, f), f) == RaiseFault(s, f)
  {
    var id := FaultAlert(f).id;
    var r := RaiseFault(s, f);
    assert r == [FaultAlert(f)] + WithoutId(s, id);
    assert WithoutId(r, id) == WithoutId(WithoutId(s, id), id);
    WithoutIdTwice(s, id);
  }

  /** The simulated readings stay in range: BHI between the floor and its
      initial value, three contributors, the state of charge a percentage, the
      vehicle and its climate fixed, the cycle count never below its start,
      and at most 50 history points. */
  predicate ReadingsValid(bhi: real, contributors: seq<Contributor>, t: Telemetry, history: seq<TelemetryPoint>) {
    50.0 <= bhi <= InitialBhi &&
    |contributors| == |InitialContributors| &&
    0.0 <= t.soc <= 100.0 &&
    t.vehicleId == VehicleTelemetryData.vehicleId &&
    t.ambient == VehicleTelemetryData.ambient &&
    t.cycleCount >= VehicleTelemetryData.cycleCount &&
    |history| <= HistoryLength
  }

  /** The alert list is never empty, its ids are distinct, and an active
      fault's alert heads it. */
  predicate AlertsValid(alerts: seq<Alert>, fault: Field) {
    alerts != [] && DistinctIds(alerts) &&
    (fault != NoField ==> alerts[0] == FaultAlert(fault))
  }

  /** Mount and reset establish the readings invariant. */
  lemma InitialReadingsValid()
    ensures ReadingsValid(InitialBhi, InitialContributors, VehicleTelemetryData, [])
  {
  }

  /** A tick preserves the readings invariant. */
  lemma TickKeepsReadings(bhi: real, cs: seq<Contributor>, t: Telemetry, h: seq<TelemetryPoint>,
                          fault: Field, d: TickDraws, now: int)
    requires ReadingsValid(bhi, cs, t, h) && d.Valid(|cs|)
    ensures var next := NextTelemetry(t, fault, d);
      ReadingsValid(NextBhi(bhi, fault, d), WearContributors(cs, d.wear), next,
                    AppendHistory(h, TelemetryPoint(next, now)))
  {
    BhiDecays(bhi, fault, d);
    TelemetryStep(t, fault, d);
  }

  /** The alerts a tick leaves: re-evaluated when no fault is active, else
      kept; either way the alert invariant holds. */
  lemma TickKeepsAlerts(alerts: seq<Alert>, fault: Field, t: Telemetry, bhi: real, draws: seq<real>)
    requires AlertsValid(alerts, fault) && ValidDraws(draws)
    ensures AlertsValid(if fault == NoField then Evaluate(t, bhi, draws) else alerts, fault)
  {
    if fault == NoField {
      EvaluateShape(t, bhi, draws);
    }
  }

  /** The alerts after a tick: `determineAlerts` on the new point and BHI,
      unless a fault is injected. */
  method RefreshAlerts(alerts: seq<Alert>, fault: Field, t: Telemetry, bhi: real, draws: seq<real>)
    returns (r: seq<Alert>)
    requires ValidDraws(draws)
    ensures r == if fault == NoField then Evaluate(t, bhi, draws) else alerts
  {
    r := alerts;
    if fault == NoField {
      r := DetermineAlerts(t, bhi, draws);
    }
  }

  /** `determineAlerts(VEHICLE_TELEMETRY_DATA, INITIAL_BHI)`, as mount and
      reset evaluate it: no rule holds, so only the low-risk status. */
  method ResetAlerts(draws: seq<real>) returns (r: seq<Alert>)
    requires ValidDraws(draws)
    ensures r == [FallbackAlert(draws[RuleCount])]
  {
    r := DetermineAlerts(VehicleTelemetryData, InitialBhi, draws);
    InitialAlerts(draws);
  }

  /** Raising a fault establishes the alert invariant for that fault. */
  lemma RaiseKeepsAlerts(alerts: seq<Alert>, old_fault: Field, f: Field)
    requires AlertsValid(alerts, old_fault) && f != NoField
    ensures AlertsValid(RaiseFault(alerts, f), f)
  {
    RaiseFaultDistinct(alerts, f);
  }

  /** The app component's state. `bhi` also stands for `bhiRef`, which the
      model keeps equal to it; `intervalArmed` and `faultTimerArmed` say
      whether the 2-second interval and the 10-second fault timeout are
      scheduled. */
  class Session {
    var isLive: bool
    var bhi: real
    var contributors: seq<Contributor>
    var telemetry: Telemetry
    var history: seq<TelemetryPoint>
    var alerts: seq<Alert>
    var injectedFault: Field
    var anomalousField: Field
    var carbonImpact: real
    var intervalArmed: bool
    var faultTimerArmed: bool

    /** What every reachable state satisfies. */
    predicate Valid()
      reads this
    {
      ReadingsValid(bhi, contributors, telemetry, history) &&
      AlertsValid(alerts, injectedFault) &&
      anomalousField == injectedFault &&
      intervalArmed == isLive &&
      (faultTimerArmed ==> injectedFault != NoField) &&
      (!isLive ==> injectedFault == NoField && !faultTimerArmed)
    }

    /** The state after mount, and after every stop: initial readings, an
        empty history, no fault, nothing scheduled, the initial alerts. */
    predicate IsReset(messageDraws: seq<real>)
      requires ValidDraws(messageDraws)
      reads this
    {
      !isLive && bhi == InitialBhi && contributors == InitialContributors &&
      telemetry == VehicleTelemetryData && history == [] &&
      alerts == [FallbackAlert(messageDraws[RuleCount])] &&
      injectedFault == NoField && anomalousField == NoField &&
      carbonImpact == InitialCarbonImpact && !intervalArmed && !faultTimerArmed
    }

    /** Mount: the state's initial values, then the reset the effect performs
        while the feed is off (its alert evaluation overwrites the one of the
        mount effect). */
    constructor(messageDraws: seq<real>)
      requires ValidDraws(messageDraws)
      ensures Valid() && IsReset(messageDraws)
    {
      var initial := ResetAlerts(messageDraws);
      InitialReadingsValid();
      isLive := false;
      bhi := InitialBhi;
      contributors := InitialContributors;
      telemetry := VehicleTelemetryData;
      history := [];
      alerts := initial;
      injectedFault := NoField;
      anomalousField := NoField;
      carbonImpact := InitialCarbonImpact;
      intervalArmed := false;
      faultTimerArmed := false;
    }

    /** Switching the feed on: the effect arms the interval. */
    method Start()
      requires Valid() && !isLive
      modifies this
      ensures Valid() && isLive && intervalArmed
      ensures bhi == old(bhi) && contributors == old(contributors) && telemetry == old(telemetry)
      ensures history == old(history) && alerts == old(alerts) && carbonImpact == old(carbonImpact)
      ensures injectedFault == old(injectedFault) && anomalousField == old(anomalousField)
      ensures faultTimerArmed == old(faultTimerArmed)
    {
      isLive := true;
      intervalArmed := true;
    }

    /** Switching the feed off: the cleanup cancels both timers and the effect
        resets every piece of state, whatever it was. */
    method Stop(messageDraws: seq<real>)
      requires Valid() && isLive && ValidDraws(messageDraws)
      modifies this
      ensures Valid() && IsReset(messageDraws)
    {
      var reset := ResetAlerts(messageDraws);
      InitialReadingsValid();
      isLive := false;
      intervalArmed := false;
      faultTimerArmed := false;
      bhi := InitialBhi;
      telemetry := VehicleTelemetryData;
      contributors := InitialContributors;
      alerts := reset;
      anomalousField := NoField;
      injectedFault := NoField;
      history := [];
      carbonImpact := InitialCarbonImpact;
    }

    /** `handleInjectFault`: ignored while the feed is off; otherwise the fault
        becomes active, its alert is raised and its 10-second timeout is
        (re)armed. */
    method InjectFault(f: Field)
      requires Valid() && f != NoField
      modifies this
      ensures Valid()
      ensures old(isLive) ==>
        injectedFault == f && anomalousField == f && alerts == RaiseFault(old(alerts), f) && faultTimerArmed
      ensures !old(isLive) ==>
        injectedFault == old(injectedFault) && anomalousField == old(anomalousField) &&
        alerts == old(alerts) && faultTimerArmed == old(faultTimerArmed)
      ensures isLive == old(isLive) && intervalArmed == old(intervalArmed)
      ensures bhi == old(bhi) && contributors == old(contributors) && telemetry == old(telemetry)
      ensures history == old(history) && carbonImpact == old(carbonImpact)
    {
      if !isLive {
        return;
      }
      RaiseKeepsAlerts(alerts, injectedFault, f);
      injectedFault := f;
      anomalousField := f;
      alerts := RaiseFault(alerts, f);
      faultTimerArmed := true;
    }

    /** `handleInjectFault` followed by the render it causes, as the code is
        written: a changed `injectedFault` re-runs the effect, whose cleanup
        clears the timeout the handler has just armed. */
    method InjectFaultAsCommitted(f: Field)
      requires Valid() && f != NoField
      modifies this
      ensures Valid()
      ensures old(isLive) ==>
        injectedFault == f && anomalousField == f && alerts == RaiseFault(old(alerts), f) &&
        faultTimerArmed == (old(injectedFault) == f)
      ensures !old(isLive) ==>
        injectedFault == old(injectedFault) && anomalousField == old(anomalousField) &&
        alerts == old(alerts) && faultTimerArmed == old(faultTimerArmed)
      ensures isLive == old(isLive) && intervalArmed == old(intervalArmed)
      ensures bhi == old(bhi) && contributors == old(contributors) && telemetry == old(telemetry)
      ensures history == old(history) && carbonImpact == old(carbonImpact)
    {
      var before := injectedFault;
      InjectFault(f);
      if isLive && before != f {
        faultTimerArmed := false;
      }
    }

    /** The fault timeout firing: the fault and the highlighted field clear;
        the next tick re-evaluates the alerts. */
    method ExpireFault()
      requires Valid() && faultTimerArmed
      modifies this
      ensures Valid()
      ensures injectedFault == NoField && anomalousField == NoField && !faultTimerArmed
      ensures isLive == old(isLive) && intervalArmed == old(intervalArmed)
      ensures bhi == old(bhi) && contributors == old(contributors) && telemetry == old(telemetry)
      ensures history == old(history) && alerts == old(alerts) && carbonImpact == old(carbonImpact)
    {
      injectedFault := NoField;
      anomalousField := NoField;
      faultTimerArmed := false;
    }

    /** One run of the interval body: BHI decay, contributor wear, the new
        telemetry point, the history window, the alerts (only while no fault
        is injected; they use the new BHI) and the carbon impact. `now` is
        `Date.now()`. */
    method Tick(d: TickDraws, now: int)
      requires Valid() && isLive && d.Valid(|contributors|)
      modifies this
      ensures Valid()
      ensures bhi == NextBhi(old(bhi), old(injectedFault), d)
      ensures contributors == WearContributors(old(contributors), d.wear)
      ensures telemetry == NextTelemetry(old(telemetry), old(injectedFault), d)
      ensures history == AppendHistory(old(history), TelemetryPoint(telemetry, now))
      ensures alerts == if old(injectedFault) == NoField then Evaluate(telemetry, bhi, d.alertMessages) else old(alerts)
      ensures carbonImpact == CarbonScore(telemetry) + (d.carbonJitter - 0.5)
      ensures isLive && intervalArmed && injectedFault == old(injectedFault)
      ensures anomalousField == old(anomalousField) && faultTimerArmed == old(faultTimerArmed)
    {
      var fault := injectedFault;
      var next := NextTelemetry(telemetry, fault, d);
      var nextBhi := NextBhi(bhi, fault, d);
      TickKeepsReadings(bhi, contributors, telemetry, history, fault, d, now);
      TickKeepsAlerts(alerts, fault, next, nextBhi, d.alertMessages);
      var nextAlerts := RefreshAlerts(alerts, fault, next, nextBhi, d.alertMessages);
      bhi := nextBhi;
      contributors := WearContributors(contributors, d.wear);
      telemetry := next;
      history := AppendHistory(history, TelemetryPoint(next, now));
      alerts := nextAlerts;
      carbonImpact := CarbonScore(next) + (d.carbonJitter - 0.5);
    }
  }

  /** As written, a fault injected on a live feed outlives its timeout: right
      after the injection no timeout is armed, so only stopping the feed or
      injecting another fault ends it. */
  method FaultOutlivesTimeout(messageDraws: seq<real>) returns (s: Session)
    requires ValidDraws(messageDraws)
    ensures s.Valid() && s.isLive && s.injectedFault == PackTemp && !s.faultTimerArmed
  {
    s := new Session(messageDraws);
    s.Start();
    s.InjectFaultAsCommitted(PackTemp);
  }

  /** With the timeout kept armed, the same injection clears when it fires. */
  method FaultClearsAfterTimeout(messageDraws: seq<real>) returns (s: Session)
    requires ValidDraws(messageDraws)
    ensures s.Valid() && s.isLive && s.injectedFault == NoField && s.alerts[0] == FaultAlert(PackTemp)
  {
    s := new Session(messageDraws);
    s.Start();
    s.InjectFault(PackTemp);
    s.ExpireFault();
  }
}
