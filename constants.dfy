/** The static reference data of the dashboard (constants.ts): the initial
    session values and the declarative alert-rule table. */
module Constants {
  import opened Types
  import opened Numeric

  const InitialBhi: real := 88.4

  const InitialContributors: seq<Contributor> := [
    Contributor(PackTempFactor, -8.1),
    Contributor(FastChargeRatio, -4.2),
    Contributor(CycleCountFactor, -3.5)
  ]

  /** Number of entries of `LOW_RISK_MESSAGES`. */
  const LowRiskMessageCount: nat := 7

  /** `VEHICLE_TELEMETRY_DATA`: the snapshot a session starts from and is reset to. */
  const VehicleTelemetryData: Telemetry :=
    Telemetry("DX-IND-MUM-741", 76.2, 385.1, -40.5, 38.1, 241, Discharging, Ambient(35.2, 78.0))

  /** `AlertDefinition`; `messageCount` is the length of its `messages` list,
      and its advisory text is `AdvisoryText(RuleAdvisory(i))` for the
      definition at position i. */
  datatype AlertDefinition = AlertDefinition(
    id: string,
    severity: Severity,
    condition: (Telemetry, real) -> bool,
    messageCount: nat)

  /** The number of alert definitions. */
  const RuleCount: nat := 14

  /** `DYNAMIC_ALERT_DEFINITIONS`, in table order. */
  const Definitions: seq<AlertDefinition> := [
    AlertDefinition("crit-temp", Critical,
      (t: Telemetry, bhi: real) => t.packTemp > 52.0, 3),
    AlertDefinition("crit-current", Critical,
      (t: Telemetry, bhi: real) => t.chargingState == Charging && t.current > 95.0, 2),
    AlertDefinition("crit-voltage-high", Critical,
      (t: Telemetry, bhi: real) => t.voltage > 415.0, 2),
    // a stand-in for a communication-loss flag: triggered by low voltage
    AlertDefinition("crit-bms-comms", Critical,
      (t: Telemetry, bhi: real) => t.voltage < 350.0, 1),
    AlertDefinition("high-temp", High,
      (t: Telemetry, bhi: real) => t.packTemp > 48.0 && t.packTemp <= 52.0, 2),
    AlertDefinition("high-discharge", High,
      (t: Telemetry, bhi: real) => t.chargingState == Discharging && t.current < -80.0, 2),
    AlertDefinition("high-cold-charge", High,
      (t: Telemetry, bhi: real) => t.chargingState == Charging && t.ambient.temp < 5.0 && t.current > 30.0, 2),
    AlertDefinition("high-bhi-low", High,
      (t: Telemetry, bhi: real) => bhi < 60.0, 2),
    // a stand-in for a cooling-fault flag: triggered by a hot pack under load
    AlertDefinition("high-cooling-fault", High,
      (t: Telemetry, bhi: real) => t.packTemp > 46.0 && Abs(t.current) > 50.0, 2),
    AlertDefinition("med-temp-rise", Medium,
      (t: Telemetry, bhi: real) => t.packTemp > 42.0 && t.packTemp <= 48.0, 2),
    AlertDefinition("med-bhi-drop", Medium,
      (t: Telemetry, bhi: real) => bhi < 80.0 && bhi >= 60.0, 2),
    AlertDefinition("med-voltage-imbalance", Medium,
      (t: Telemetry, bhi: real) => t.voltage > 405.0 && t.voltage < 415.0, 2),
    AlertDefinition("med-charge-slow", Medium,
      (t: Telemetry, bhi: real) => t.chargingState == Charging && t.current < 20.0, 2),
    AlertDefinition("med-soc-low", Medium,
      (t: Telemetry, bhi: real) => t.soc < 15.0, 2)
  ]

  /** The advisory texts of the definitions, in table order. */
  const RuleAdvisories: seq<string> := [
    "System has halted charging. Disconnect from charger and consult service.",
    "Charging has been automatically stopped to prevent damage.",
    "System has performed an emergency shutdown. Do not operate vehicle.",
    "Vehicle is in a failsafe mode. Consult service immediately.",
    "Stop charging immediately to allow the battery to cool down.",
    "Please reduce vehicle load or consult a service center.",
    "System is switching to slow charging to protect the battery.",
    "Vehicle performance and range are severely compromised. Schedule service.",
    "Avoid high-load driving and charging. Service is required.",
    "Switch to trickle charge due to rising cell temperature.",
    "Adopt health-conscious charging habits (e.g., 20-80% SOC).",
    "The BMS is working to rebalance cells. No immediate action needed.",
    "Verify charger specifications and connection for optimal speed.",
    "Locate a charging station. Deep discharge can harm the battery."
  ]

  /** The text an advisory stands for. */
  function AdvisoryText(a: Advisory): string {
    match a
    case RuleAdvisory(i) => if i < |RuleAdvisories| then RuleAdvisories[i] else ""
    case StatusAdvisory => "System operating within normal parameters."
    case FaultAdvisory => "Manual fault injection active. System is under stress."
  }

  /** Whether definition i's condition holds for the telemetry and health score. */
  predicate Holds(i: nat, t: Telemetry, bhi: real)
    requires i < |Definitions|
  {
    Definitions[i].condition(t, bhi)
  }

  /** No definition's condition holds. */
  predicate NoneHold(t: Telemetry, bhi: real) {
    forall i :: 0 <= i < |Definitions| ==> !Holds(i, t, bhi)
  }

  /** The table has fourteen rules with pairwise distinct ids. */
  lemma DefinitionIdsDistinct()
    ensures |Definitions| == RuleCount
    ensures forall i, j :: 0 <= i < j < |Definitions| ==> Definitions[i].id != Definitions[j].id
  {
  }

  /** Every rule has at least one message, and so has the low-risk pool, so a
      random message index is always in range. */
  lemma MessagesNonEmpty()
    ensures forall i :: 0 <= i < |Definitions| ==> Definitions[i].messageCount > 0
    ensures LowRiskMessageCount > 0
  {
  }

  /** Which rules can fire, stated by threshold: crit-temp above 52, high-temp
      in (48, 52], med-temp-rise in (42, 48] — so at most one of them fires. */
  lemma TemperatureRulesExclusive(t: Telemetry, bhi: real)
    ensures Holds(0, t, bhi) <==> t.packTemp > 52.0
    ensures Holds(4, t, bhi) <==> 48.0 < t.packTemp <= 52.0
    ensures Holds(9, t, bhi) <==> 42.0 < t.packTemp <= 48.0
    ensures !(Holds(0, t, bhi) && Holds(4, t, bhi))
    ensures !(Holds(0, t, bhi) && Holds(9, t, bhi))
    ensures !(Holds(4, t, bhi) && Holds(9, t, bhi))
  {
  }

  /** high-bhi-low (below 60) and med-bhi-drop ([60, 80)) never fire together,
      and neither fires at 80 or above. */
  lemma HealthRulesExclusive(t: Telemetry, bhi: real)
    ensures !(Holds(7, t, bhi) && Holds(10, t, bhi))
    ensures bhi >= 80.0 ==> !Holds(7, t, bhi) && !Holds(10, t, bhi)
    ensures bhi < 80.0 <==> Holds(7, t, bhi) || Holds(10, t, bhi)
  {
  }

  /** crit-voltage-high (above 415), med-voltage-imbalance ((405, 415)) and
      crit-bms-comms (below 350) are pairwise exclusive. */
  lemma VoltageRulesExclusive(t: Telemetry, bhi: real)
    ensures !(Holds(2, t, bhi) && Holds(11, t, bhi))
    ensures !(Holds(2, t, bhi) && Holds(3, t, bhi))
    ensures !(Holds(3, t, bhi) && Holds(11, t, bhi))
  {
  }

  /** crit-current and med-charge-slow need charging and exclude each other;
      high-discharge needs discharging. */
  lemma CurrentRulesByState(t: Telemetry, bhi: real)
    ensures Holds(1, t, bhi) ==> t.chargingState == Charging
    ensures Holds(12, t, bhi) ==> t.chargingState == Charging
    ensures !(Holds(1, t, bhi) && Holds(12, t, bhi))
    ensures Holds(5, t, bhi) ==> t.chargingState == Discharging
  {
  }

  /** The initial snapshot with the initial health score fires no rule. */
  lemma InitialStateQuiet()
    ensures NoneHold(VehicleTelemetryData, InitialBhi)
  {
  }
}
