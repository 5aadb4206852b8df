/** The local charging recommendations (`generateLocalRecommendations`,
    ChargingRecommendations.tsx): five ordered rules and at most three
    results, with no default. */
module ChargingAdvice {
  import opened Types
  import opened Collections
  import opened RuleTables

  datatype Priority = High | Medium | Low

  /** `ChargingRecommendation`; the reason text, which embeds formatted
      readings, is not modelled. */
  datatype Recommendation = Recommendation(id: string, title: string, priority: Priority)

  const MaxRecommendations: nat := 3

  const TempHigh := Recommendation("temp_high", "High Temperature: Switch to Slow Charging", Priority.High)
  const AmbientHigh := Recommendation("ambient_high", "Hot Weather: Charge During Cooler Hours", Priority.Medium)
  const SocLow := Recommendation("soc_low", "Low Battery: Plan to Charge Soon", Priority.Medium)
  const SocHighCharging := Recommendation("soc_high_charging", "Optimize Charge Limit to 90%", Priority.Low)
  const BhiLow := Recommendation("bhi_low", "Prioritize Battery Health", Priority.Medium)

  /** The five rules in the order the recommender tries them. */
  const Catalogue: seq<Rule<Recommendation>> := [
    Rule(TempHigh, (t: Telemetry, bhi: real) => t.packTemp > 45.0),
    Rule(AmbientHigh, (t: Telemetry, bhi: real) => t.ambient.temp > 30.0 && t.chargingState == Charging),
    Rule(SocLow, (t: Telemetry, bhi: real) => t.soc < 20.0),
    Rule(SocHighCharging, (t: Telemetry, bhi: real) => t.chargingState == Charging && t.soc > 85.0),
    Rule(BhiLow, (t: Telemetry, bhi: real) => bhi < 75.0)
  ]

  function IdOf(r: Recommendation): string {
    r.id
  }

  /** The recommendations of the rules that hold, in rule order. */
  function Triggered(t: Telemetry, bhi: real): seq<Recommendation> {
    Select(Catalogue, t, bhi, |Catalogue|)
  }

  /** What `generateLocalRecommendations(telemetry, bhi)` returns. */
  function Recommend(t: Telemetry, bhi: real): seq<Recommendation> {
    Take(Triggered(t, bhi), MaxRecommendations)
  }

  method GenerateLocalRecommendations(t: Telemetry, bhi: real) returns (r: seq<Recommendation>)
    ensures r == Recommend(t, bhi)
  {
    var recs: seq<Recommendation> := [];
    if t.packTemp > 45.0 {
      recs := recs + [TempHigh];
    }
    assert recs == Select(Catalogue, t, bhi, 1);
    if t.ambient.temp > 30.0 && t.chargingState == Charging {
      recs := recs + [AmbientHigh];
    }
    assert recs == Select(Catalogue, t, bhi, 2);
    if t.soc < 20.0 {
      recs := recs + [SocLow];
    }
    assert recs == Select(Catalogue, t, bhi, 3);
    if t.chargingState == Charging && t.soc > 85.0 {
      recs := recs + [SocHighCharging];
    }
    assert recs == Select(Catalogue, t, bhi, 4);
    if bhi < 75.0 {
      recs := recs + [BhiLow];
    }
    r := Take(recs, MaxRecommendations);
  }

  /** Rule k's recommendation is triggered exactly when rule k holds. */
  lemma TriggeredIndexed(t: Telemetry, bhi: real, k: nat)
    requires k < |Catalogue|
    ensures Catalogue[k].item in Triggered(t, bhi) <==> Catalogue[k].condition(t, bhi)
  {
    SelectIndexed(Catalogue, IdOf, t, bhi, |Catalogue|, k);
  }

  /** At most three recommendations with distinct ids, a prefix of the
      triggered ones; none exactly when no rule holds. */
  lemma RecommendShape(t: Telemetry, bhi: real)
    ensures |Recommend(t, bhi)| <= MaxRecommendations
    ensures DistinctKeys(Recommend(t, bhi), IdOf)
    ensures Recommend(t, bhi) == Triggered(t, bhi)[..|Recommend(t, bhi)|]
    ensures Recommend(t, bhi) == [] <==> forall i :: 0 <= i < |Catalogue| ==> !Catalogue[i].condition(t, bhi)
  {
    SelectDistinct(Catalogue, IdOf, t, bhi, |Catalogue|);
    SelectEmpty(Catalogue, t, bhi, |Catalogue|);
    var r := Recommend(t, bhi);
    forall i, j | 0 <= i < j < |r| ensures IdOf(r[i]) != IdOf(r[j]) {
      assert r[i] == Triggered(t, bhi)[i] && r[j] == Triggered(t, bhi)[j];
    }
  }

  /** Every recommendation is a triggered one. */
  lemma RecommendMembers(t: Telemetry, bhi: real, x: Recommendation)
    requires x in Recommend(t, bhi)
    ensures x in Triggered(t, bhi)
  {
    RecommendShape(t, bhi);
  }

  /** The high-temperature recommendation comes first exactly when the pack is
      above 45°C. */
  lemma TempHighFirst(t: Telemetry, bhi: real)
    ensures (Recommend(t, bhi) != [] && Recommend(t, bhi)[0] == TempHigh) <==> t.packTemp > 45.0
  {
    RecommendShape(t, bhi);
    TriggeredIndexed(t, bhi, 0);
    SelectPrefix(Catalogue, t, bhi, 1, |Catalogue|);
    if Recommend(t, bhi) != [] && Recommend(t, bhi)[0] == TempHigh {
      assert TempHigh in Triggered(t, bhi);
    }
  }

  /** Low and high state of charge never come together; the hot-weather and
      charge-limit recommendations only while charging; the priorities are
      the fixed ones of each rule. */
  lemma RecommendationExclusions(t: Telemetry, bhi: real)
    ensures !(SocLow in Recommend(t, bhi) && SocHighCharging in Recommend(t, bhi))
    ensures AmbientHigh in Recommend(t, bhi) ==> t.chargingState == Charging
    ensures SocHighCharging in Recommend(t, bhi) ==> t.chargingState == Charging
    ensures forall x :: x in Recommend(t, bhi) ==>
      x.priority == (if x == TempHigh then Priority.High else if x == SocHighCharging then Priority.Low else Priority.Medium)
  {
    if SocLow in Recommend(t, bhi) {
      RecommendMembers(t, bhi, SocLow);
      TriggeredIndexed(t, bhi, 2);
    }
    if AmbientHigh in Recommend(t, bhi) {
      RecommendMembers(t, bhi, AmbientHigh);
      TriggeredIndexed(t, bhi, 1);
    }
    if SocHighCharging in Recommend(t, bhi) {
      RecommendMembers(t, bhi, SocHighCharging);
      TriggeredIndexed(t, bhi, 3);
    }
    forall x | x in Recommend(t, bhi)
      ensures x.priority == (if x == TempHigh then Priority.High else if x == SocHighCharging then Priority.Low else Priority.Medium)
    {
      RecommendMembers(t, bhi, x);
      SelectMembers(Catalogue, t, bhi, |Catalogue|, x);
    }
  }
}
