/** The local charging-strategy recommender (`generateLocalStrategy`,
    RLStrategyRecommendation.tsx): six ordered rules, a default, a
    de-duplication by strategy name, and at most three results. */
module Strategy {
  import opened Types
  import opened Collections
  import opened RuleTables

  /** `AIChargingRecommendation`; the explanatory description text is not
      modelled. */
  datatype StrategyRecommendation = StrategyRecommendation(id: string, strategy: string, expectedGain: string)

  const MaxStrategies: nat := 3

  const Pause := StrategyRecommendation("strat_pause", "Pause Charging (Critical)", "Prevents critical damage")
  const Slow := StrategyRecommendation("strat_slow", "Slow Charging", "Reduces thermal stress")
  const Delay := StrategyRecommendation("strat_delay", "Delayed Charging", "Avoids heat stress")
  const HealthPriority := StrategyRecommendation("strat_health_priority", "Health Priority Mode", "+0.5 BHI points/month")
  const SocLimit := StrategyRecommendation("strat_soc_limit", "Set 90% Charge Limit", "Improves lifespan")
  const ColdCharge := StrategyRecommendation("strat_cold_charge", "Slow Charging (Cold Weather)", "Prevents cold-related damage")
  const Standard := StrategyRecommendation("strat_standard", "Standard Charging", "Balances speed & health")

  /** The six rules in the order the recommender tries them. */
  const Catalogue: seq<Rule<StrategyRecommendation>> := [
    Rule(Pause, (t: Telemetry, bhi: real) => t.packTemp > 45.0),
    Rule(Slow, (t: Telemetry, bhi: real) => t.packTemp > 40.0 || (t.ambient.temp > 30.0 && t.chargingState == Charging)),
    Rule(Delay, (t: Telemetry, bhi: real) => t.ambient.temp > 30.0 && t.soc > 60.0),
    Rule(HealthPriority, (t: Telemetry, bhi: real) => bhi < 80.0),
    Rule(SocLimit, (t: Telemetry, bhi: real) => t.chargingState == Charging && t.soc > 90.0),
    Rule(ColdCharge, (t: Telemetry, bhi: real) => t.ambient.temp < 5.0 && t.chargingState == Charging)
  ]

  function NameOf(s: StrategyRecommendation): string {
    s.strategy
  }

  /** The strategies of the rules that hold, in rule order. */
  function Triggered(t: Telemetry, bhi: real): seq<StrategyRecommendation> {
    Select(Catalogue, t, bhi, |Catalogue|)
  }

  /** What `generateLocalStrategy(telemetry, bhi)` returns. */
  function Recommend(t: Telemetry, bhi: real): seq<StrategyRecommendation> {
    var triggered := Triggered(t, bhi);
    var strategies := if triggered == [] then [Standard] else triggered;
    Take(DedupBy(strategies, NameOf), MaxStrategies)
  }

  method GenerateLocalStrategy(t: Telemetry, bhi: real) returns (r: seq<StrategyRecommendation>)
    ensures r == Recommend(t, bhi)
  {
    var strategies: seq<StrategyRecommendation> := [];
    if t.packTemp > 45.0 {
      strategies := strategies + [Pause];
    }
    assert strategies == Select(Catalogue, t, bhi, 1);
    if t.packTemp > 40.0 || (t.ambient.temp > 30.0 && t.chargingState == Charging) {
      strategies := strategies + [Slow];
    }
    assert strategies == Select(Catalogue, t, bhi, 2);
    if t.ambient.temp > 30.0 && t.soc > 60.0 {
      strategies := strategies + [Delay];
    }
    assert strategies == Select(Catalogue, t, bhi, 3);
    if bhi < 80.0 {
      strategies := strategies + [HealthPriority];
    }
    assert strategies == Select(Catalogue, t, bhi, 4);
    if t.chargingState == Charging && t.soc > 90.0 {
      strategies := strategies + [SocLimit];
    }
    assert strategies == Select(Catalogue, t, bhi, 5);
    if t.ambient.temp < 5.0 && t.chargingState == Charging {
      strategies := strategies + [ColdCharge];
    }
    ghost var triggered := Triggered(t, bhi);
    assert strategies == triggered;
    if |strategies| == 0 {
      strategies := strategies + [Standard];
    }
    assert strategies == if triggered == [] then [Standard] else triggered;
    var unique := DedupBy(strategies, NameOf);
    r := Take(unique, MaxStrategies);
  }

  /** The strategy names are pairwise distinct, and differ from the default's. */
  lemma CatalogueNames()
    ensures forall i, j :: 0 <= i < j < |Catalogue| ==> NameOf(Catalogue[i].item) != NameOf(Catalogue[j].item)
    ensures forall i :: 0 <= i < |Catalogue| ==> Catalogue[i].item != Standard
  {
  }

  /** So the de-duplication removes nothing and the result is the first three
      triggered strategies in rule order, or the default alone. */
  lemma RecommendIsPrefix(t: Telemetry, bhi: real)
    ensures DistinctKeys(Triggered(t, bhi), NameOf)
    ensures Recommend(t, bhi) == if Triggered(t, bhi) == [] then [Standard] else Take(Triggered(t, bhi), MaxStrategies)
  {
    CatalogueNames();
    SelectDistinct(Catalogue, NameOf, t, bhi, |Catalogue|);
    var triggered := Triggered(t, bhi);
    if triggered == [] {
      DedupByDistinct([Standard], NameOf);
    } else {
      DedupByDistinct(triggered, NameOf);
    }
  }

  /** One to three strategies, with distinct names. */
  lemma RecommendShape(t: Telemetry, bhi: real)
    ensures 1 <= |Recommend(t, bhi)| <= MaxStrategies
    ensures DistinctKeys(Recommend(t, bhi), NameOf)
  {
    RecommendIsPrefix(t, bhi);
    var triggered := Triggered(t, bhi);
    if triggered != [] {
      var r := Take(triggered, MaxStrategies);
      assert r == triggered[..|r|];
      forall i, j | 0 <= i < j < |r| ensures NameOf(r[i]) != NameOf(r[j]) {
        assert r[i] == triggered[i] && r[j] == triggered[j];
      }
    }
  }

  /** The default is returned exactly when no rule holds, and then alone. */
  lemma DefaultExactlyWhenQuiet(t: Telemetry, bhi: real)
    ensures Standard in Recommend(t, bhi) <==> forall i :: 0 <= i < |Catalogue| ==> !Catalogue[i].condition(t, bhi)
    ensures Standard in Recommend(t, bhi) ==> Recommend(t, bhi) == [Standard]
  {
    RecommendIsPrefix(t, bhi);
    SelectEmpty(Catalogue, t, bhi, |Catalogue|);
    var triggered := Triggered(t, bhi);
    if triggered != [] {
      CatalogueNames();
      SelectMembers(Catalogue, t, bhi, |Catalogue|, Standard);
      assert Standard !in triggered;
      var r := Take(triggered, MaxStrategies);
      assert r == triggered[..|r|];
      assert Standard !in r;
    }
  }

  /** A critically hot pack puts the pause first and slow charging second. */
  lemma HotPackPausesFirst(t: Telemetry, bhi: real)
    requires t.packTemp > 45.0
    ensures |Recommend(t, bhi)| >= 2
    ensures Recommend(t, bhi)[0] == Pause && Recommend(t, bhi)[1] == Slow
  {
    var first := Select(Catalogue, t, bhi, 2);
    assert first == [Pause, Slow] by {
      assert Catalogue[0].condition(t, bhi) && Catalogue[1].condition(t, bhi);
      assert Select(Catalogue, t, bhi, 1) == [Pause];
    }
    var triggered := Triggered(t, bhi);
    SelectPrefix(Catalogue, t, bhi, 2, |Catalogue|);
    assert triggered[0] == Pause && triggered[1] == Slow;
    RecommendIsPrefix(t, bhi);
    var r := Take(triggered, MaxStrategies);
    assert r == triggered[..|r|] && |r| >= 2;
  }

  /** Every recommended strategy is a triggered one, or the default. */
  lemma RecommendMembers(t: Telemetry, bhi: real, x: StrategyRecommendation)
    requires x in Recommend(t, bhi)
    ensures x in Triggered(t, bhi) || (x == Standard && Triggered(t, bhi) == [])
  {
    RecommendIsPrefix(t, bhi);
    var triggered := Triggered(t, bhi);
    if triggered != [] {
      assert Take(triggered, MaxStrategies) == triggered[..|Take(triggered, MaxStrategies)|];
    }
  }

  /** Rule k's strategy is triggered exactly when rule k holds. */
  lemma TriggeredIndexed(t: Telemetry, bhi: real, k: nat)
    requires k < |Catalogue|
    ensures Catalogue[k].item in Triggered(t, bhi) <==> Catalogue[k].condition(t, bhi)
  {
    SelectIndexed(Catalogue, NameOf, t, bhi, |Catalogue|, k);
  }

  /** Delayed and cold-weather charging exclude each other; the charge limit
      and cold-weather charging are only suggested while charging. */
  lemma StrategyExclusions(t: Telemetry, bhi: real)
    ensures !(Delay in Recommend(t, bhi) && ColdCharge in Recommend(t, bhi))
    ensures SocLimit in Recommend(t, bhi) ==> t.chargingState == Charging
    ensures ColdCharge in Recommend(t, bhi) ==> t.chargingState == Charging
  {
    if Delay in Recommend(t, bhi) {
      RecommendMembers(t, bhi, Delay);
      TriggeredIndexed(t, bhi, 2);
    }
    if SocLimit in Recommend(t, bhi) {
      RecommendMembers(t, bhi, SocLimit);
      TriggeredIndexed(t, bhi, 4);
    }
    if ColdCharge in Recommend(t, bhi) {
      RecommendMembers(t, bhi, ColdCharge);
      TriggeredIndexed(t, bhi, 5);
    }
  }
}
