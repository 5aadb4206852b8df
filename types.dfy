/** The records and enumerations of the dashboard's data model (types.ts). */
module Types {

  /** `charging_state` of a telemetry point. */
  datatype ChargingState = Charging | Discharging | Idle

  /** `AlertSeverity`. */
  datatype Severity = Critical | High | Medium | Low

  /** `AnomalousField`: the telemetry field under an injected fault, or none (`null`). */
  datatype Field = NoField | PackTemp | Voltage | Current

  /** Ambient conditions, never changed by the simulation. */
  datatype Ambient = Ambient(temp: real, humidity: real)

  /** `VehicleTelemetry`: one snapshot of the battery's physical state. */
  datatype Telemetry = Telemetry(
    vehicleId: string,
    soc: real,
    voltage: real,
    current: real,
    packTemp: real,
    cycleCount: int,
    chargingState: ChargingState,
    ambient: Ambient)

  /** `TelemetryDataPoint`: a snapshot with the time it was produced. */
  datatype TelemetryPoint = TelemetryPoint(telemetry: Telemetry, time: int)

  /** Which text an alert carries. The message strings themselves (and the
      placeholder substitution into them) are abstracted to the message's
      position in its pool. */
  datatype Message =
    | RuleMessage(rule: nat, choice: nat)   // messages[choice] of DYNAMIC_ALERT_DEFINITIONS[rule]
    | StatusMessage(choice: nat)            // LOW_RISK_MESSAGES[choice]
    | FaultMessage(field: Field)            // the fixed text of a manual fault alert

  /** Which advisory an alert carries; the texts are in the constants. */
  datatype Advisory =
    | RuleAdvisory(rule: nat)   // advisory of DYNAMIC_ALERT_DEFINITIONS[rule]
    | StatusAdvisory            // advisory of the low-risk status alert
    | FaultAdvisory             // advisory of a manual fault alert

  /** `Alert`. */
  datatype Alert = Alert(id: string, severity: Severity, message: Message, advisory: Advisory, timestamp: string)

  /** `BHIContributor.factor`. */
  datatype Factor = PackTempFactor | FastChargeRatio | CycleCountFactor | DepthOfDischarge | ClimateStress

  /** `BHIContributor`: a wear factor and the points it deducts (negative). */
  datatype Contributor = Contributor(factor: Factor, impact: real)
}
