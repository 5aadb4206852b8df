# Battery digital-twin dashboard: verified model of the simulation core

This project models the logic of a battery-health dashboard for an electric
vehicle. A live feed simulates a telemetry step every two seconds. Each step
moves the charging-state machine, readings of current, voltage, state of
charge and pack temperature, the Battery Health Index (BHI), the health
contributors, a 50-point history and a carbon-impact score. While no fault is
injected, each step also re-evaluates the alert list against a table of 14
rules. An operator can inject a thermal, voltage or over-current fault;
the fault is meant to expire after a timeout. Three rule-based advisers sit
beside the feed:
- a six-month BHI forecast with component failure probabilities;
- a charging-strategy recommender;
- a charging-recommendation list.

Modules, following the source's structure:

- `Types` (types.dfy): telemetry, severities, fault fields, alerts and
  their message/advisory choices, health contributors.
- `Numeric` (numeric.dfy): the random draws as reals in [0, 1),
  `Math.floor(r * n)`, `Math.min`/`Math.max`/`Math.abs`, and
  `parseFloat(x.toFixed(1))` as exact decimal rounding.
- `Collections` (collections.dfy): `slice`, and a JavaScript `Map` as an
  insertion-ordered map whose values keep the first key position and the
  last value.
- `Constants` (constants.dfy): the alert rule table and the initial state.
- `Alerts` (alerts.dfy): `determineAlerts`.
- `Simulation` (simulation.dfy): the value-level pieces of one tick.
- `App` (session.dfy): the dashboard session as a class with `Start`,
  `Stop`, `InjectFault`, `ExpireFault` and `Tick`.
- `Forecast` (forecast.dfy), `RuleTables` (rule_tables.dfy), `Strategy`
  (strategy.dfy) and `ChargingAdvice` (charging.dfy): the three advisers.

Each `Math.random()` call is a `real` parameter in [0, 1). The draws of one
tick are bundled in `Simulation.TickDraws`, and the message draws of one
alert evaluation in a sequence with one entry per rule plus one for the
low-risk message pool. `Date.now()` is the `now` parameter of `Tick`.
The sort in `determineAlerts` is `Array.prototype.sort`, which section
22.1.3.27 of ECMAScript 2019 (ECMA-262, 10th edition) requires to be stable. It is modelled
as concatenating the Critical, High, Medium and Low blocks, each in input
order. The lemmas `Alerts.SortSorted`, `Alerts.SortPermutation`,
`Alerts.SortStable` and `Alerts.SortUnique` show that this is exactly the
stable sort by rank.

The 10-second `setTimeout` at App.tsx:129-133, and its comment that the
simulation loop resets the alerts once `injectedFault` is null (App.tsx:132),
show that an injected fault is meant to clear itself. The code as written
does not clear it (see "## Findings"). The model follows the code in
`App.Session.InjectFaultAsCommitted`, and the intended behaviour in
`App.Session.InjectFault`.

## Model

| member | source | states |
|---|---|---|
| Alerts.Rank | App.tsx:72 | the severity order Critical 0, High 1, Medium 2, Low 3 (no contract; `SortSorted` states the order it induces) |
| Alerts.RuleAlert | App.tsx:36-53 | the alert a holding rule pushes: its id, severity and advisory, the 'Just now' timestamp and the message its draw picks (no contract; `EvaluateSound` states what callers rely on) |
| Alerts.FallbackAlert | App.tsx:57-69 | the Low `low-risk-status` alert with a message drawn from the low-risk pool (no contract; see `EvaluateSound`) |
| Alerts.Fired | App.tsx:32-55 | the alerts the for-of loop pushes after the first n rules (no contract; `FiredSound`, `FiredComplete`, `FiredDistinct`, `FiredEmpty` and `FiredPrefix` state its properties) |
| Alerts.Active | App.tsx:32-69 | the pushed alerts, or the fallback alert alone when none were pushed (no contract; see `ActiveDistinct`) |
| Alerts.OfSeverity | App.tsx:73 | the alerts of one severity in input order, never longer than the input |
| Alerts.OfSeverityMembers | App.tsx:73 | the alerts of one severity are input alerts of that severity |
| Alerts.OfSeverityConcat | App.tsx:73 | taking one severity distributes over concatenation |
| Alerts.OfSeverityTwice | App.tsx:73 | taking a severity of a block of one severity gives the block or nothing |
| Alerts.OfSeverityAbove | App.tsx:73 | no alert of a severity is found in a list whose ranks all lie above it |
| Alerts.OfSeverityCons | App.tsx:73 | taking a severity of a list with a leading alert keeps that alert exactly when it has the severity |
| Alerts.OfSeverityDistinct | App.tsx:73 | a severity block of a distinct-id list has distinct ids |
| Alerts.SortBySeverity | App.tsx:72-73 | the sort by `severityOrder` as the concatenation of the four severity blocks (no contract; `SortSorted`, `SortPermutation`, `SortStable` and `SortUnique` show it is the stable sort) |
| Alerts.SortIndex | App.tsx:73 | each sorted element sits inside its severity's block, at its position within that block |
| Alerts.SortConsLowest | App.tsx:73 | prepending an alert whose rank is at most every other rank commutes with the sort |
| Alerts.SameIdSameAlert | App.tsx:75 | in a distinct-id list, two members with the same id are the same alert |
| Alerts.ActiveDistinct | App.tsx:32-69 | the list handed to the sort is nonempty with distinct ids |
| Alerts.Evaluate | App.tsx:31-76 | what `determineAlerts` returns: the first four of the stable sort of the active alerts (no contract; `EvaluateShape`, `EvaluateSound` and `EvaluateComplete` state its properties) |
| Alerts.DetermineAlerts | App.tsx:31-76 | the loop over the rule table, the low-risk fallback, the severity sort, the Map dedup by id and the cut to 4 compute exactly `Evaluate` (the loop invariant ties the pushed alerts to the rules that hold so far; the dedup is shown to drop nothing) |
| Alerts.EvaluateShape | App.tsx:72-75 | the result has 1 to 4 alerts, pairwise distinct ids, and is ordered by rank Critical 0 < High 1 < Medium 2 < Low 3 |
| Alerts.EvaluateSound | App.tsx:35-69 | when no rule holds the result is exactly the single Low `low-risk-status` alert; otherwise every alert carries the id, severity and advisory of a rule whose condition holds; a `low-risk-status` alert is present iff no rule holds |
| Alerts.EvaluateComplete | App.tsx:35-75 | when at most four rules fire, every rule that holds has its alert in the result |
| Alerts.EvaluateCritTempFirst | App.tsx:72-75 | a pack temperature above 52 puts the Critical `crit-temp` alert (constants.ts:38-40) first |
| Alerts.InitialAlerts | App.tsx:146-149 | the initial telemetry with BHI 88.4 (constants.ts:6, 194-206), as mount and reset evaluate it, gives exactly one `low-risk-status` alert |
| Alerts.FiredSound | App.tsx:35-55 | every pushed alert comes from a rule whose condition holds |
| Alerts.FiredComplete | App.tsx:35-55 | every rule that holds pushes its alert |
| Alerts.FiredDistinct | App.tsx:35-55 | the pushed alerts have pairwise distinct ids |
| Alerts.FiredEmpty | App.tsx:58 | nothing is pushed iff no rule holds |
| Alerts.FiredPrefix | App.tsx:35-55 | the alerts pushed after fewer rules are a prefix of those pushed after more |
| Alerts.SortSorted | App.tsx:73 | the sorted list is ordered by rank |
| Alerts.SortPermutation | App.tsx:73 | the sort keeps the same multiset of alerts and the length |
| Alerts.SortStable | App.tsx:73 | within each severity the sort keeps input order |
| Alerts.SortedIsFixed | App.tsx:73 | an already ordered list is left unchanged |
| Alerts.SortUnique | App.tsx:73 | any rank-ordered list with the same per-severity subsequences equals the sort's output, so the model is the unique stable sort |
| Alerts.SortDistinct | App.tsx:73-75 | sorting keeps ids distinct |
| Alerts.TopFourShape | App.tsx:75 | the first four of a sorted, distinct, nonempty list are between 1 and 4, distinct and ordered |
| Alerts.TopFourMembers | App.tsx:75 | every one of the first four is an input alert |
| Collections.Take | App.tsx:75 | `slice(0, n)`: the first min(n, length) elements |
| Collections.TakeLast | App.tsx:257 | `slice(-n)`: the last min(n, length) elements |
| Collections.FromEntries | App.tsx:75 | `new Map(entries)` sets every entry left to right and yields a well-formed map |
| Collections.Values | App.tsx:75 | `Array.from(m.values())` has one value per key, holds the value of every key and nothing that is not some key's value (the order is stated by `FromDistinctEntries` and `DedupByDistinct`) |
| Collections.ValuesCover | App.tsx:75 | a list holding each key's value at the key's position holds every value of the map |
| Collections.Entries | App.tsx:75 | `s.map(x => [key(x), x])` has one entry per element; each entry pairs an input element with that element's own key, and every element appears with its key |
| Collections.EntriesCover | App.tsx:75 | a list pairing each element with its key position by position holds every element's pair |
| Collections.DedupBy | App.tsx:75 | the Map round trip by key (no contract; `DedupByDistinct` and `DedupByDistinctResult` state its properties) |
| Collections.DedupByDistinct | App.tsx:75 | `Array.from(new Map(entries).values())` returns the list unchanged when the keys are distinct |
| Collections.DedupByDistinctResult | App.tsx:75 | the Map's values always have distinct keys |
| Collections.FromDistinctEntries | App.tsx:75 | a Map built from distinct keys records each key once, in insertion order, with its own value |
| Collections.FromEntriesHoldsKeys | App.tsx:75 | every key and value in the Map comes from an inserted entry |
| Collections.Set | App.tsx:75 | `Map.set` appends a new key and overwrites the value of a present key in place |
| Collections.SetNewKey | App.tsx:75 | setting a key the map does not hold appends it at the end of the key order |
| Collections.AppendEntry | App.tsx:75 | setting a new key after a map that records some entries records those entries followed by the new one |
| Constants.Holds | constants.ts:35-183 | whether rule i's condition holds (no contract; the exclusivity lemmas state the thresholds) |
| Constants.NoneHold | constants.ts:35-183 | no rule's condition holds (no contract; see `InitialStateQuiet`) |
| Constants.AdvisoryText | constants.ts:35-183 | the advisory text of a rule, of the low-risk status and of a fault alert (no contract) |
| Constants.DefinitionIdsDistinct | constants.ts:35-183 | the table has 14 rules whose ids are pairwise distinct |
| Constants.MessagesNonEmpty | constants.ts:25-183 | every rule's message list and the low-risk message list are nonempty, so the random index is in range |
| Constants.TemperatureRulesExclusive | constants.ts:38-136 | `crit-temp` is >52, `high-temp` is (48, 52], `med-temp-rise` is (42, 48], and no two hold together |
| Constants.HealthRulesExclusive | constants.ts:111-146 | `high-bhi-low` (<60) and `med-bhi-drop` [60, 80) never both hold, neither holds at BHI ≥ 80, and one holds iff BHI < 80 |
| Constants.VoltageRulesExclusive | constants.ts:59-156 | `crit-voltage-high` (>415), `crit-bms-comms` (<350) and `med-voltage-imbalance` (405, 415) are pairwise exclusive |
| Constants.CurrentRulesByState | constants.ts:49-166 | `crit-current` and `med-charge-slow` need charging and never both hold; `high-discharge` needs discharging |
| Constants.InitialStateQuiet | constants.ts:6-206 | no rule holds for the initial telemetry and BHI 88.4 |
| Numeric.Round1 | App.tsx:246-249 | `parseFloat(x.toFixed(1))` on an exact real (no contract; `Round1Close`, `Round1Grid`, `Round1Monotone`, `Round1Within` and `Round1Shift` state its properties) |
| Numeric.Round1Shift | App.tsx:236-248 | shifting a nonnegative value by whole tenths shifts its rounding by the same amount, so the rounded faulted voltage is exactly 20 V below the rounded normal one |
| Numeric.RandomIndex | App.tsx:38-59 | `Math.floor(r * n)` is a valid index below n |
| Numeric.Round1Close | App.tsx:246-249 | rounding to one decimal moves a value by at most 0.05 |
| Numeric.Round1Grid | App.tsx:246-249 | a value already on the 0.1 grid is unchanged |
| Numeric.Round1Monotone | App.tsx:246-249 | rounding preserves order |
| Numeric.Round1Within | App.tsx:246-249 | a value between two grid points rounds to a value between them |
| Simulation.TickDraws.IsHeatSpike | App.tsx:161 | the 20% heat-spike draw (no contract; see `TempAboveForty`, `TempAtMostForty` and `BhiDecays`) |
| Simulation.TickDraws.IsHighDischarge | App.tsx:162 | the 20% heavy-discharge draw (no contract; see `StateReadings`) |
| Simulation.TickDraws.IsImbalance | App.tsx:163 | the 30% voltage-imbalance draw (no contract; see `StateReadings`) |
| Simulation.TickDraws.ChangesState | App.tsx:192 | the 2% charging-state draw (no contract; see `ChargingStateCycle`) |
| Simulation.Successor | App.tsx:192-199 | the cyclic order discharging → idle → charging → discharging (no contract; see `ChargingStateCycle`) |
| Simulation.NextChargingState | App.tsx:192-199 | the state after the 2% draw (no contract; see `ChargingStateCycle`) |
| Simulation.NextCycleCount | App.tsx:192-199 | the cycle count after the draw (no contract; see `CycleCountOnDischargeEntry`) |
| Simulation.SocStep | App.tsx:201-218 | the per-state soc update before rounding (no contract; see `SocStaysInRange` and `SocDischargeOnGrid`) |
| Simulation.StateCurrent | App.tsx:201-219 | the per-state current before the over-current fault (no contract; see `StateReadings`) |
| Simulation.StateVoltage | App.tsx:201-219 | the per-state voltage before the voltage fault (no contract; see `StateReadings`) |
| Simulation.FaultedVoltage | App.tsx:236-238 | the voltage fault's override (no contract; see `FaultOverrides`) |
| Simulation.FaultedCurrent | App.tsx:240-242 | the over-current fault's override (no contract; see `FaultOverrides`) |
| Simulation.TempStep | App.tsx:221-234 | the three-way temperature rule and the heat spike before rounding (no contract; see `TempUnderThermalFault`, `TempAboveForty` and `TempAtMostForty`) |
| Simulation.NextTelemetry | App.tsx:185-253 | the published point: `...prev` with the new state, cycle count and rounded readings (no contract; see `TelemetryStep` and `FaultOverrides`) |
| Simulation.SocDischargeOnGrid | App.tsx:212-247 | on exact reals, discharging from a soc on the 0.1 grid rounds back to the same soc |
| Simulation.Decay | App.tsx:170-174 | the BHI decay of the active fault plus the heat-spike term (no contract; see `BhiDecays`) |
| Simulation.NextBhi | App.tsx:169-177 | `Math.max(50, prev - decay)` (no contract; see `BhiDecays`) |
| Simulation.WearContributors | App.tsx:180-183 | the contributor list keeps its length (`ContributorsWear` states the per-contributor wear) |
| Simulation.AppendHistory | App.tsx:255-258 | `[...prevHist, newPoint].slice(-50)` (no contract; see `HistoryWindow`) |
| Simulation.CarbonScore | App.tsx:266-279 | the carbon-impact score before jitter (no contract; see `CarbonScoreRange`) |
| Simulation.ChargingStateCycle | App.tsx:192-199 | the state changes iff the 2% draw hits, and then follows discharging → idle → charging → discharging |
| Simulation.CycleCountOnDischargeEntry | App.tsx:192-199 | the cycle count rises by exactly 1 on entering discharging and is unchanged otherwise |
| Simulation.SocStaysInRange | App.tsx:201-247 | charging adds at most 0.1 with a cap of 100, discharging removes at most 0.05 with a floor of 0, idle keeps soc, and the rounded soc stays in [0, 100] |
| Simulation.TelemetryStep | App.tsx:185-253 | the published point keeps soc in [0, 100], the vehicle id and the ambient reading, raises the cycle count by at most 1, and carries the new charging state |
| Simulation.StateReadings | App.tsx:201-219 | the per-state ranges of current and voltage, including the imbalance and heavy-discharge events |
| Simulation.FaultOverrides | App.tsx:236-242 | compared with a tick on the same draws without a fault, the voltage fault publishes exactly 20 V less and changes nothing else; the over-current fault publishes a charging current in [100, 110] and changes nothing else, and outside charging changes nothing |
| Simulation.TempUnderThermalFault | App.tsx:221-222 | under the thermal fault the temperature stays at or below 55 and does not fall below min(prev, 55) |
| Simulation.TempAboveForty | App.tsx:225-234 | without the thermal fault and above 40, the temperature drops exactly 0.2, or rises by [5.8, 9.8) on a heat spike (no upper clamp) |
| Simulation.TempAtMostForty | App.tsx:221-234 | without the thermal fault and at most 40, the temperature lands in [34.6, 40.6), or [40.6, 50.6) on a heat spike |
| Simulation.BhiDecays | App.tsx:169-177 | the decay is between 0.03 and 0.6; the new BHI is at least 50, at most prev when prev ≥ 50, strictly below prev when prev > 50, and exactly prev − decay above the floor |
| Simulation.ContributorsWear | App.tsx:180-183 | each contributor keeps its factor and loses less than 0.005 of impact |
| Simulation.HistoryWindow | App.tsx:255-258 | the history holds at most 50 points: the last old points in order, then the new point |
| Simulation.CarbonScoreRange | App.tsx:265-280 | the score is 5 when not charging and lies in [5, 18]; the published value with jitter lies in [4.5, 18.5) |
| App.FaultAlert | App.tsx:116-123 | the fault's alert has the lowest rank, so the sort puts it first, and its id is neither `low-risk-status` nor any rule's id, so a rule alert never replaces it (`FaultAlertIds` states that the three fault ids differ) |
| App.WithoutId | App.tsx:124 | `prev.filter(a => a.id !== id)` never lengthens the list (`WithoutIdMembers` states its contents) |
| App.RaiseFault | App.tsx:124 | `[faultAlert, ...prev.filter(...)]` (no contract; see `RaiseFaultMembers`, `RaiseFaultDistinct` and `RaiseFaultIdempotent`) |
| App.ReadingsValid | App.tsx:85-92 | the readings part of the session invariant (no contract; see `TickKeepsReadings`) |
| App.AlertsValid | App.tsx:88 | the alert part of the session invariant (no contract; see `TickKeepsAlerts`) |
| App.RefreshAlerts | App.tsx:260-263 | the alerts after a tick are `determineAlerts` of the new point and BHI only while no fault is injected, and the old alerts otherwise |
| App.Session.Valid | App.tsx:83-96 | the session invariant: readings and alerts valid, the highlight equal to the fault, the interval armed exactly while live, a fault timeout only with a fault, and nothing active while stopped (no contract; every method keeps it) |
| App.Session.IsReset | App.tsx:137-156 | the state after mount and every stop (no contract; see `Stop` and the constructor) |
| App.FaultAlertIds | App.tsx:116-123 | the three fault alerts have different ids, none equal to `low-risk-status` or to any rule id |
| App.WithoutIdMembers | App.tsx:124 | the filter keeps exactly the alerts with a different id |
| App.WithoutIdDistinct | App.tsx:124 | the filter keeps ids distinct |
| App.WithoutIdTwice | App.tsx:124 | filtering twice is filtering once |
| App.RaiseFaultMembers | App.tsx:124 | the fault alert comes first, followed by the old alerts with a different id, and nothing else |
| App.RaiseFaultDistinct | App.tsx:124 | raising a fault keeps ids distinct |
| App.RaiseFaultIdempotent | App.tsx:124 | raising the same fault twice is raising it once |
| App.InitialReadingsValid | App.tsx:85-154 | the initial readings satisfy the session invariant |
| App.TickKeepsReadings | App.tsx:169-258 | a tick keeps BHI in [50, 88.4], three contributors, soc in [0, 100], the vehicle, the ambient reading, a cycle count of at least 241 and at most 50 history points |
| App.TickKeepsAlerts | App.tsx:260-263 | the alert list after a tick is nonempty with distinct ids, and an active fault's alert still heads it |
| App.RaiseKeepsAlerts | App.tsx:124 | raising a fault makes its alert the head of a distinct-id list |
| App.ResetAlerts | App.tsx:107-149 | the mount and reset evaluation is the single low-risk alert |
| App.Session.constructor | App.tsx:83-156 | the mounted session is the reset state: feed off, initial readings, empty history, the low-risk alert, no fault, carbon impact 12, no timers |
| App.Session.Start | App.tsx:158-284 | switching the feed on (the toggle at components/Sidebar.tsx:90) arms the interval and changes no reading |
| App.Session.Stop | App.tsx:137-289 | switching the feed off cancels both timers and restores every field to its initial value, whatever the state was |
| App.Session.InjectFault | App.tsx:110-134 | ignored while the feed is off; otherwise the fault becomes active and highlighted, its alert is prepended to the old alerts without that id (not truncated), and its timeout is armed |
| App.Session.InjectFaultAsCommitted | App.tsx:110-290 | as `InjectFault`, except that injecting a different fault leaves no timeout armed, because the effect cleanup cancels it |
| App.Session.ExpireFault | App.tsx:129-133 | the timeout clears the fault and the highlight and leaves the alerts to the next tick |
| App.Session.Tick | App.tsx:158-284 | the new BHI, contributors, telemetry point, history, alerts (re-evaluated with the new BHI only while no fault is injected) and carbon impact, with the session invariant kept |
| App.FaultOutlivesTimeout | App.tsx:110-290 | as written, a thermal fault injected on a live feed has no timeout armed right after injection |
| App.FaultClearsAfterTimeout | App.tsx:110-134 | with the timeout kept armed, the fault clears when it fires and its alert still heads the list |
| Forecast.ClimateStress | components/ForecastPanel.tsx:18-30 | the climate term (no contract; see `DecayBounds`) |
| Forecast.BaseDecay | components/ForecastPanel.tsx:14-37 | the monthly decay before the low-BHI acceleration (no contract; see `DecayBounds`) |
| Forecast.MonthlyDecay | components/ForecastPanel.tsx:14-40 | `totalMonthlyDecay` (no contract; see `DecayBounds`) |
| Forecast.ProjectedBhi | components/ForecastPanel.tsx:44 | the month-i projection with its jitter draw (no contract; see `MonthPointShape`) |
| Forecast.MonthPoint | components/ForecastPanel.tsx:44-51 | the month-i point with its confidence band (no contract; see `MonthPointShape`) |
| Forecast.Projection | components/ForecastPanel.tsx:42-52 | month 0 followed by months 1 to 6 (no contract; see `ProjectionShape` and `ProjectionFallsEveryTwoMonths`) |
| Forecast.ComponentRisks | components/ForecastPanel.tsx:54-79 | the four capped failure probabilities (no contract; see `RiskProperties`) |
| Forecast.GenerateForecast | components/ForecastPanel.tsx:12-83 | the computed decay rate, the seven-point projection and the four component probabilities equal `MonthlyDecay`, `Projection` and `ComponentRisks` |
| Forecast.ProjectBhi | components/ForecastPanel.tsx:42-52 | the loop builds exactly the month-0 point followed by the months 1 to 6 |
| Forecast.ProjectionPrefix | components/ForecastPanel.tsx:43-52 | each loop step appends the point for month i |
| Forecast.DecayBounds | components/ForecastPanel.tsx:14-40 | the climate stress is in [0, 0.35]; the rate is at least 0.4 and at least the base rate; with at most 300 cycles the base rate is at most 0.95; the ×1.1 applies iff BHI < 80 |
| Forecast.MonthPointShape | components/ForecastPanel.tsx:44-51 | a month-i point is at least 50, its band lies in [50, 100] with the projection above its lower end, its width is at most i, and it is below a current BHI above 50 |
| Forecast.ProjectionShape | components/ForecastPanel.tsx:42-52 | seven points for months 0 to 6 in order; point 0 is the current BHI with an empty band; every later point has the month-point properties |
| Forecast.ProjectionFallsEveryTwoMonths | components/ForecastPanel.tsx:44 | two months later the projection is no higher, and strictly lower while above 50, whatever the jitter |
| Forecast.ProjectedFallsTwoMonths | components/ForecastPanel.tsx:44 | for any rate of at least 0.4 and any two jitter draws, the month-i+2 projection is no higher than the month-i one, and lower when that is above 50 |
| Forecast.RiskProperties | components/ForecastPanel.tsx:56-79 | four components in the order Battery Cells, BMS, Cooling System, Inverter; every probability is in [0, 1] for a nonnegative cycle count; BMS is 0.02; cooling is 0.28 iff the pack is above 45; inverter is 0.16 iff the current magnitude is above 80 |
| RuleTables.Select | components/RLStrategyRecommendation.tsx:19-77 | the items of the rules that hold, in rule order, at most one per rule |
| RuleTables.SelectMembers | components/RLStrategyRecommendation.tsx:22-77 | an item is pushed iff some rule with that item holds |
| RuleTables.SelectEmpty | components/RLStrategyRecommendation.tsx:22-80 | nothing is pushed iff no condition holds |
| RuleTables.SelectPrefix | components/RLStrategyRecommendation.tsx:22-77 | the items pushed by the first k rules are a prefix of those pushed by more rules |
| RuleTables.SelectDistinct | components/RLStrategyRecommendation.tsx:22-77 | rules with distinct keys push items with distinct keys |
| RuleTables.SelectIndexed | components/RLStrategyRecommendation.tsx:22-77 | with distinct keys, rule k's item is pushed iff rule k's condition holds |
| Strategy.Triggered | components/RLStrategyRecommendation.tsx:19-77 | the strategies of the six rules that hold, in order (no contract; see `TriggeredIndexed`) |
| Strategy.Recommend | components/RLStrategyRecommendation.tsx:18-94 | what `generateLocalStrategy` returns (no contract; see `RecommendIsPrefix`, `RecommendShape` and `DefaultExactlyWhenQuiet`) |
| Strategy.GenerateLocalStrategy | components/RLStrategyRecommendation.tsx:18-94 | the pushes, the default, the Map dedup by strategy name and the cut to 3 compute `Recommend` |
| Strategy.CatalogueNames | components/RLStrategyRecommendation.tsx:24-90 | the six strategy names are pairwise distinct and differ from the default |
| Strategy.RecommendIsPrefix | components/RLStrategyRecommendation.tsx:80-93 | the dedup removes nothing; the result is the first at most 3 triggered strategies in order, or the default alone |
| Strategy.RecommendShape | components/RLStrategyRecommendation.tsx:80-93 | 1 to 3 strategies with distinct names |
| Strategy.DefaultExactlyWhenQuiet | components/RLStrategyRecommendation.tsx:80-87 | `strat_standard` is returned iff none of the six conditions holds, and then alone |
| Strategy.HotPackPausesFirst | components/RLStrategyRecommendation.tsx:22-39 | a pack above 45 puts `strat_pause` first and `strat_slow` second |
| Strategy.RecommendMembers | components/RLStrategyRecommendation.tsx:22-93 | every returned strategy was triggered, or is the default when nothing was |
| Strategy.TriggeredIndexed | components/RLStrategyRecommendation.tsx:22-77 | a strategy is triggered iff its condition holds |
| Strategy.StrategyExclusions | components/RLStrategyRecommendation.tsx:41-70 | `strat_delay` and `strat_cold_charge` never appear together; `strat_soc_limit` and `strat_cold_charge` need charging |
| ChargingAdvice.Triggered | components/ChargingRecommendations.tsx:51-96 | the recommendations of the five rules that hold, in order (no contract; see `TriggeredIndexed`) |
| ChargingAdvice.Recommend | components/ChargingRecommendations.tsx:50-99 | what `generateLocalRecommendations` returns (no contract; see `RecommendShape`) |
| ChargingAdvice.GenerateLocalRecommendations | components/ChargingRecommendations.tsx:50-99 | the pushes and the cut to 3 compute `Recommend` |
| ChargingAdvice.TriggeredIndexed | components/ChargingRecommendations.tsx:53-96 | a recommendation is triggered iff its condition holds |
| ChargingAdvice.RecommendShape | components/ChargingRecommendations.tsx:50-98 | at most 3 recommendations with distinct ids, a prefix of the triggered list in the order temp_high, ambient_high, soc_low, soc_high_charging, bhi_low, empty iff no condition holds |
| ChargingAdvice.RecommendMembers | components/ChargingRecommendations.tsx:53-98 | every returned recommendation was triggered |
| ChargingAdvice.TempHighFirst | components/ChargingRecommendations.tsx:53-60 | `temp_high` comes first iff the pack is above 45 |
| ChargingAdvice.RecommendationExclusions | components/ChargingRecommendations.tsx:59-95 | `soc_low` and `soc_high_charging` never appear together; `ambient_high` and `soc_high_charging` need charging; priorities are High for temp_high, Low for soc_high_charging, Medium for the rest |

The `RuleTables` lemmas serve both recommenders that push through a chain of
`if`s: the strategy list cited in the table, and the recommendation list at
components/ChargingRecommendations.tsx:53-96.

## Left out

- Rendering, the page and role navigation, and every presentation-only component are not part of this model.
- The 2-second interval and the 10-second timeout are not timers here. `intervalArmed` and `faultTimerArmed` record whether each is scheduled, and `Tick` and `ExpireFault` are the callbacks.
- Floating point is not modelled. Readings are exact reals, and `toFixed(1)` is exact decimal rounding with ties away from zero. On exact reals the discharge step of 0.05 from a soc on the 0.1 grid is a rounding tie, which rounds back up, so the modelled soc never falls while discharging (`Simulation.SocDischargeOnGrid`); with doubles the same step sometimes does lower the published soc by 0.1.
- Alert message texts and their placeholder substitution are left out. An alert records which rule and which message index it took, and `Constants.AdvisoryText` gives the advisory texts.
- Strategy descriptions and recommendation reason texts are dropped, because they are free text with number formatting.
- `Math.random()` and `Date.now()` are parameters, not effects.
- `bhiRef` is not a separate field. The tick updates it together with `bhi`, so the model keeps one value.
- The mount-time alert evaluation is not separate from the reset that follows it. The effect's reset on a stopped feed overwrites it, so the constructor models the pair.
- App.Session.Stop: requires a live feed, and `App.Session.Start` a stopped one, because the toggle only flips `isLive` (components/Sidebar.tsx:90); a stop on a stopped feed cannot be issued.
- The recommenders' asynchronous loading and error wrappers, and the forecast chart, are left out.
- React's double rendering in development mode is left out.
- Alerts.EvaluateComplete: needs at most four fired rules; with more, the result is the first four of the stable order, which `Evaluate` states directly.

## Findings

The fault buttons are disabled for the active fault (components/FaultInjectionPanel.tsx:30), so the same fault cannot be re-injected to re-arm the timeout.


| source | as written | input that shows it | evidently intended | confidence | as-written member | corrected member |
|---|---|---|---|---|---|---|
| App.tsx:126-133, 286-290 | `handleInjectFault` arms the 10-second timeout and changes `injectedFault`. That state is a dependency of the simulation effect, so the effect re-runs, and its cleanup clears `faultTimeoutRef.current`, the timeout just armed. The fault then stays active until the feed stops or a different fault is injected. | start the feed, inject `pack_temp`; after 10 seconds the fault is still active and the alerts are never re-evaluated | the fault and its highlight clear after 10 seconds, and organic alert evaluation resumes | high; not executed | App.Session.InjectFaultAsCommitted, App.FaultOutlivesTimeout | App.Session.InjectFault, App.Session.ExpireFault, App.FaultClearsAfterTimeout |
