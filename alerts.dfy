/** The alert rule engine (`determineAlerts`, App.tsx): evaluate every rule of
    the table, fall back to a low-risk status alert when none fires, stably sort
    by severity, remove duplicate ids and keep the first four. */
module Alerts {
  import opened Types
  import opened Numeric
  import opened Constants
  import opened Collections

  /** `severityOrder`: the comparator key of the sort. */
  function Rank(s: Severity): nat {
    match s
    case Critical => 0
    case High => 1
    case Medium => 2
    case Low => 3
  }

  const LowRiskId: string := "low-risk-status"
  const JustNow: string := "Just now"

  function IdOf(a: Alert): string {
    a.id
  }

  predicate DistinctIds(s: seq<Alert>) {
    DistinctKeys(s, IdOf)
  }

  /** The message draws of one evaluation: one per definition (used when that
      definition fires) and a last one for the low-risk pool. */
  predicate ValidDraws(draws: seq<real>) {
    |draws| == RuleCount + 1 && forall i :: 0 <= i < |draws| ==> InUnit(draws[i])
  }

  /** The alert definition i raises, with the message its draw picks. */
  function RuleAlert(i: nat, r: real): Alert
    requires i < |Definitions| && InUnit(r)
  {
    MessagesNonEmpty();
    var d := Definitions[i];
    Alert(d.id, d.severity, RuleMessage(i, RandomIndex(r, d.messageCount)), RuleAdvisory(i), JustNow)
  }

  /** The Low-severity status alert raised when no rule fires. */
  function FallbackAlert(r: real): Alert
    requires InUnit(r)
  {
    Alert(LowRiskId, Low, StatusMessage(RandomIndex(r, LowRiskMessageCount)), StatusAdvisory, JustNow)
  }

  /** `a` is the alert of a definition whose condition holds. */
  predicate FromHoldingRule(a: Alert, t: Telemetry, bhi: real, draws: seq<real>)
    requires ValidDraws(draws)
  {
    a.message.RuleMessage? && a.message.rule < |Definitions| &&
    Holds(a.message.rule, t, bhi) && a == RuleAlert(a.message.rule, draws[a.message.rule])
  }

  /** The alerts of the first n definitions whose condition holds, in table order. */
  function Fired(t: Telemetry, bhi: real, draws: seq<real>, n: nat): seq<Alert>
    requires ValidDraws(draws) && n <= |Definitions|
  {
    if n == 0 then []
    else
      var head := Fired(t, bhi, draws, n - 1);
      if Holds(n - 1, t, bhi) then head + [RuleAlert(n - 1, draws[n - 1])] else head
  }

  lemma {:induction false} FiredSound(t: Telemetry, bhi: real, draws: seq<real>, n: nat)
    requires ValidDraws(draws) && n <= |Definitions|
    ensures forall a :: a in Fired(t, bhi, draws, n) ==>
      FromHoldingRule(a, t, bhi, draws) && a.message.rule < n
  {
    if n > 0 {
      FiredSound(t, bhi, draws, n - 1);
    }
  }

  lemma {:induction false} FiredComplete(t: Telemetry, bhi: real, draws: seq<real>, n: nat, i: nat)
    requires ValidDraws(draws) && i < n <= |Definitions| && Holds(i, t, bhi)
    ensures RuleAlert(i, draws[i]) in Fired(t, bhi, draws, n)
  {
    if i < n - 1 {
      FiredComplete(t, bhi, draws, n - 1, i);
    }
  }

  lemma {:induction false} FiredDistinct(t: Telemetry, bhi: real, draws: seq<real>, n: nat)
    requires ValidDraws(draws) && n <= |Definitions|
    ensures DistinctIds(Fired(t, bhi, draws, n))
  {
    if n > 0 {
      FiredDistinct(t, bhi, draws, n - 1);
      FiredSound(t, bhi, draws, n - 1);
      DefinitionIdsDistinct();
      var prev := Fired(t, bhi, draws, n - 1);
      if Holds(n - 1, t, bhi) {
        var s := Fired(t, bhi, draws, n);
        forall i, j | 0 <= i < j < |s| ensures IdOf(s[i]) != IdOf(s[j]) {
          if j == |prev| {
            assert s[i] in prev;
            assert s[i].id == Definitions[s[i].message.rule].id;
          } else {
            assert s[i] == prev[i] && s[j] == prev[j];
          }
        }
      }
    }
  }

  lemma {:induction false} FiredEmpty(t: Telemetry, bhi: real, draws: seq<real>, n: nat)
    requires ValidDraws(draws) && n <= |Definitions|
    ensures Fired(t, bhi, draws, n) == [] <==> forall i :: 0 <= i < n ==> !Holds(i, t, bhi)
  {
    if n > 0 {
      FiredEmpty(t, bhi, draws, n - 1);
    }
  }

  // ---------------------------------------------------------------------
  // The sort. `Array.prototype.sort` must be stable (ECMAScript 2019,
  // section 22.1.3.27), so sorting by rank is the concatenation of the
  // Critical, High, Medium and Low alerts, each kept in input order.

  /** The alerts of one severity, in input order. */
  function OfSeverity(s: seq<Alert>, sev: Severity): (r: seq<Alert>)
    ensures |r| <= |s|
  {
    if s == [] then []
    else (if s[0].severity == sev then [s[0]] else []) + OfSeverity(s[1..], sev)
  }

  lemma {:induction false} OfSeverityMembers(s: seq<Alert>, sev: Severity)
    ensures forall a :: a in OfSeverity(s, sev) ==> a in s && a.severity == sev
  {
    if s != [] {
      OfSeverityMembers(s[1..], sev);
    }
  }

  function SortBySeverity(s: seq<Alert>): seq<Alert> {
    OfSeverity(s, Critical) + OfSeverity(s, High) + OfSeverity(s, Medium) + OfSeverity(s, Low)
  }

  predicate SortedByRank(s: seq<Alert>) {
    forall i, j :: 0 <= i < j < |s| ==> Rank(s[i].severity) <= Rank(s[j].severity)
  }

  lemma {:induction false} OfSeverityConcat(a: seq<Alert>, b: seq<Alert>, sev: Severity)
    ensures OfSeverity(a + b, sev) == OfSeverity(a, sev) + OfSeverity(b, sev)
  {
    if a == [] {
      assert a + b == b;
    } else {
      var x, rest := a[0], a[1..];
      assert a == [x] + rest;
      assert a + b == [x] + (rest + b);
      OfSeverityCons(x, rest + b, sev);
      OfSeverityCons(x, rest, sev);
      OfSeverityConcat(rest, b, sev);
      var head := if x.severity == sev then [x] else [];
      var tail, other := OfSeverity(rest, sev), OfSeverity(b, sev);
      assert head + (tail + other) == (head + tail) + other;
    }
  }


  lemma {:induction false} OfSeverityTwice(s: seq<Alert>, a: Severity, b: Severity)
    ensures OfSeverity(OfSeverity(s, a), b) == if a == b then OfSeverity(s, a) else []
  {
    if s != [] {
      OfSeverityTwice(s[1..], a, b);
      var head := if s[0].severity == a then [s[0]] else [];
      OfSeverityConcat(head, OfSeverity(s[1..], a), b);
    }
  }

  lemma {:induction false} OfSeverityAbove(s: seq<Alert>, sev: Severity)
    requires forall k :: 0 <= k < |s| ==> Rank(sev) < Rank(s[k].severity)
    ensures OfSeverity(s, sev) == []
  {
    if s != [] {
      OfSeverityAbove(s[1..], sev);
    }
  }

  /** Where the alerts of one severity start in the sorted output. */
  function Offset(s: seq<Alert>, sev: Severity): nat {
    match sev
    case Critical => 0
    case High => |OfSeverity(s, Critical)|
    case Medium => |OfSeverity(s, Critical)| + |OfSeverity(s, High)|
    case Low => |OfSeverity(s, Critical)| + |OfSeverity(s, High)| + |OfSeverity(s, Medium)|
  }

  /** Each element of the sorted output sits in the block of its severity. */
  lemma SortIndex(s: seq<Alert>, i: nat)
    requires i < |SortBySeverity(s)|
    ensures var sev := SortBySeverity(s)[i].severity;
      Offset(s, sev) <= i < Offset(s, sev) + |OfSeverity(s, sev)| &&
      SortBySeverity(s)[i] == OfSeverity(s, sev)[i - Offset(s, sev)]
  {
    var c, h, m, l := OfSeverity(s, Critical), OfSeverity(s, High), OfSeverity(s, Medium), OfSeverity(s, Low);
    var r := SortBySeverity(s);
    OfSeverityMembers(s, Critical);
    OfSeverityMembers(s, High);
    OfSeverityMembers(s, Medium);
    OfSeverityMembers(s, Low);
    if i < |c| {
      assert r[i] == c[i] && c[i] in c;
    } else if i < |c| + |h| {
      assert r[i] == h[i - |c|] && h[i - |c|] in h;
    } else if i < |c| + |h| + |m| {
      assert r[i] == m[i - |c| - |h|] && m[i - |c| - |h|] in m;
    } else {
      assert r[i] == l[i - |c| - |h| - |m|] && l[i - |c| - |h| - |m|] in l;
    }
  }

  /** The sorted output is ordered by rank: Critical, then High, Medium, Low. */
  lemma SortSorted(s: seq<Alert>)
    ensures SortedByRank(SortBySeverity(s))
  {
    var r := SortBySeverity(s);
    forall i, j | 0 <= i < j < |r| ensures Rank(r[i].severity) <= Rank(r[j].severity) {
      SortIndex(s, i);
      SortIndex(s, j);
    }
  }

  /** The sorted output is a permutation of the input. */
  lemma {:induction false} SortPermutation(s: seq<Alert>)
    ensures multiset(SortBySeverity(s)) == multiset(s)
    ensures |SortBySeverity(s)| == |s|
  {
    if s != [] {
      SortPermutation(s[1..]);
      assert s == [s[0]] + s[1..];
    }
    assert |multiset(SortBySeverity(s))| == |SortBySeverity(s)|;
  }

  /** The sort is stable: the alerts of each severity keep their input order. */
  lemma SortStable(s: seq<Alert>, sev: Severity)
    ensures OfSeverity(SortBySeverity(s), sev) == OfSeverity(s, sev)
  {
    var c, h, m, l := OfSeverity(s, Critical), OfSeverity(s, High), OfSeverity(s, Medium), OfSeverity(s, Low);
    OfSeverityConcat(c + h + m, l, sev);
    OfSeverityConcat(c + h, m, sev);
    OfSeverityConcat(c, h, sev);
    var c', h', m', l' := OfSeverity(c, sev), OfSeverity(h, sev), OfSeverity(m, sev), OfSeverity(l, sev);
    assert OfSeverity(SortBySeverity(s), sev) == c' + h' + m' + l';
    OfSeverityTwice(s, Critical, sev);
    OfSeverityTwice(s, High, sev);
    OfSeverityTwice(s, Medium, sev);
    OfSeverityTwice(s, Low, sev);
  }

  lemma OfSeverityCons(x: Alert, rest: seq<Alert>, sev: Severity)
    ensures OfSeverity([x] + rest, sev) == (if x.severity == sev then [x] else []) + OfSeverity(rest, sev)
  {
    assert ([x] + rest)[0] == x && ([x] + rest)[1..] == rest;
  }

  /** Regrouping the four severity blocks around a leading alert. Proving this
      apart from the sort keeps the sequence reasoning out of the large
      context of `SortConsLowest`. */
  lemma AppendAssoc4(x: Alert, c: seq<Alert>, h: seq<Alert>, m: seq<Alert>, l: seq<Alert>)
    ensures ([x] + c) + h + m + l == [x] + (c + h + m + l)
    ensures [] + ([x] + h) + m + l == [x] + ([] + h + m + l)
    ensures [] + [] + ([x] + m) + l == [x] + ([] + [] + m + l)
    ensures [] + [] + [] + ([x] + l) == [x] + ([] + [] + [] + l)
  {
  }

  /** Prepending an alert whose rank is at most every other rank commutes with
      the sort. */
  lemma SortConsLowest(x: Alert, rest: seq<Alert>)
    requires forall k :: 0 <= k < |rest| ==> Rank(x.severity) <= Rank(rest[k].severity)
    ensures SortBySeverity([x] + rest) == [x] + SortBySeverity(rest)
  {
    var s := [x] + rest;
    var c, h, m, l := OfSeverity(rest, Critical), OfSeverity(rest, High), OfSeverity(rest, Medium), OfSeverity(rest, Low);
    OfSeverityCons(x, rest, Critical); OfSeverityCons(x, rest, High);
    OfSeverityCons(x, rest, Medium); OfSeverityCons(x, rest, Low);
    if x.severity == Critical {
      assert OfSeverity(s, Critical) == [x] + c;
      assert OfSeverity(s, High) == h && OfSeverity(s, Medium) == m && OfSeverity(s, Low) == l;
      AppendAssoc4(x, c, h, m, l);
    } else if x.severity == High {
      OfSeverityAbove(rest, Critical);
      assert OfSeverity(s, Critical) == [] == c && OfSeverity(s, High) == [x] + h;
      assert OfSeverity(s, Medium) == m && OfSeverity(s, Low) == l;
      AppendAssoc4(x, [], h, m, l);
    } else if x.severity == Medium {
      OfSeverityAbove(rest, Critical); OfSeverityAbove(rest, High);
      assert OfSeverity(s, Critical) == [] == c && OfSeverity(s, High) == [] == h;
      assert OfSeverity(s, Medium) == [x] + m && OfSeverity(s, Low) == l;
      AppendAssoc4(x, [], [], m, l);
    } else {
      OfSeverityAbove(rest, Critical); OfSeverityAbove(rest, High); OfSeverityAbove(rest, Medium);
      assert OfSeverity(s, Critical) == [] == c && OfSeverity(s, High) == [] == h;
      assert OfSeverity(s, Medium) == [] == m && OfSeverity(s, Low) == [x] + l;
      AppendAssoc4(x, [], [], [], l);
    }
  }



  /** A sequence already ordered by rank is its own stable sort. */
  lemma {:induction false} SortedIsFixed(r: seq<Alert>)
    requires SortedByRank(r)
    ensures SortBySeverity(r) == r
  {
    if r != [] {
      var x, rest := r[0], r[1..];
      assert r == [x] + rest;
      assert SortedByRank(rest) by {
        forall i, j | 0 <= i < j < |rest| ensures Rank(rest[i].severity) <= Rank(rest[j].severity) {
          assert rest[i] == r[i + 1] && rest[j] == r[j + 1];
        }
      }
      assert forall k :: 0 <= k < |rest| ==> Rank(x.severity) <= Rank(rest[k].severity) by {
        forall k | 0 <= k < |rest| ensures Rank(x.severity) <= Rank(rest[k].severity) {
          assert rest[k] == r[k + 1];
        }
      }
      SortedIsFixed(rest);
      SortConsLowest(x, rest);
    }
  }

  /** SortBySeverity is the only stable sort by rank: any ordering that is
      sorted and keeps each severity's input order equals it. */
  lemma SortUnique(s: seq<Alert>, r: seq<Alert>)
    requires SortedByRank(r)
    requires forall sev :: OfSeverity(r, sev) == OfSeverity(s, sev)
    ensures r == SortBySeverity(s)
  {
    SortedIsFixed(r);
    assert OfSeverity(r, Critical) == OfSeverity(s, Critical);
    assert OfSeverity(r, High) == OfSeverity(s, High);
    assert OfSeverity(r, Medium) == OfSeverity(s, Medium);
    assert OfSeverity(r, Low) == OfSeverity(s, Low);
  }

  lemma {:induction false} OfSeverityDistinct(s: seq<Alert>, sev: Severity)
    requires DistinctIds(s)
    ensures DistinctIds(OfSeverity(s, sev))
  {
    if s != [] {
      assert DistinctIds(s[1..]) by {
        forall i, j | 0 <= i < j < |s[1..]| ensures IdOf(s[1..][i]) != IdOf(s[1..][j]) {
          assert s[1..][i] == s[i + 1] && s[1..][j] == s[j + 1];
        }
      }
      OfSeverityDistinct(s[1..], sev);
      OfSeverityMembers(s[1..], sev);
      var tail := OfSeverity(s[1..], sev);
      forall a | a in tail ensures a.id != s[0].id {
        var k :| 0 <= k < |s[1..]| && s[1..][k] == a;
        assert s[k + 1] == a;
      }
    }
  }

  /** Within a list of distinct ids, an id names one alert. */
  lemma SameIdSameAlert(s: seq<Alert>, x: Alert, y: Alert)
    requires DistinctIds(s) && x in s && y in s && x.id == y.id
    ensures x == y
  {
    var i :| 0 <= i < |s| && s[i] == x;
    var j :| 0 <= j < |s| && s[j] == y;
    assert IdOf(s[i]) == IdOf(s[j]);
  }

  /** Sorting keeps ids distinct. */
  lemma SortDistinct(s: seq<Alert>)
    requires DistinctIds(s)
    ensures DistinctIds(SortBySeverity(s))
  {
    var r := SortBySeverity(s);
    SortPermutation(s);
    forall i, j | 0 <= i < j < |r| ensures IdOf(r[i]) != IdOf(r[j]) {
      assert r[i] in multiset(r) && r[j] in multiset(r);
      if r[i].id == r[j].id {
        SameIdSameAlert(s, r[i], r[j]);
        SortIndex(s, i);
        SortIndex(s, j);
        OfSeverityDistinct(s, r[i].severity);
      }
    }
  }

  // ---------------------------------------------------------------------
  // determineAlerts.

  /** The alerts the sort of determineAlerts receives. */
  function Active(t: Telemetry, bhi: real, draws: seq<real>): seq<Alert>
    requires ValidDraws(draws)
  {
    var fired := Fired(t, bhi, draws, |Definitions|);
    if fired == [] then [FallbackAlert(draws[RuleCount])] else fired
  }

  /** What `determineAlerts(t, bhi)` returns: the first four of the stable
      sort of the fired alerts, or of the fallback alert alone. */
  function Evaluate(t: Telemetry, bhi: real, draws: seq<real>): seq<Alert>
    requires ValidDraws(draws)
  {
    Take(SortBySeverity(Active(t, bhi, draws)), 4)
  }

  method DetermineAlerts(t: Telemetry, bhi: real, draws: seq<real>) returns (alerts: seq<Alert>)
    requires ValidDraws(draws)
    ensures alerts == Evaluate(t, bhi, draws)
  {
    var active: seq<Alert> := [];
    var i := 0;
    while i < |Definitions|
      invariant 0 <= i <= |Definitions|
      invariant active == Fired(t, bhi, draws, i)
    {
      if Definitions[i].condition(t, bhi) {
        active := active + [RuleAlert(i, draws[i])];
      }
      i := i + 1;
    }
    if |active| == 0 {
      active := active + [FallbackAlert(draws[RuleCount])];
    }
    FiredDistinct(t, bhi, draws, |Definitions|);
    ghost var unsorted := active;
    active := SortBySeverity(active);
    SortDistinct(unsorted);
    DedupByDistinct(active, IdOf);
    alerts := Take(DedupBy(active, IdOf), 4);
  }

  lemma ActiveDistinct(t: Telemetry, bhi: real, draws: seq<real>)
    requires ValidDraws(draws)
    ensures Active(t, bhi, draws) != [] && DistinctIds(Active(t, bhi, draws))
  {
    FiredDistinct(t, bhi, draws, |Definitions|);
  }

  /** Sorting and keeping four of a non-empty list of distinct alerts. */
  lemma TopFourShape(active: seq<Alert>)
    requires active != [] && DistinctIds(active)
    ensures 1 <= |Take(SortBySeverity(active), 4)| <= 4
    ensures DistinctIds(Take(SortBySeverity(active), 4))
    ensures SortedByRank(Take(SortBySeverity(active), 4))
  {
    SortPermutation(active);
    SortSorted(active);
    SortDistinct(active);
  }

  /** determineAlerts returns between one and four alerts, with pairwise
      distinct ids, ordered by rank. */
  lemma EvaluateShape(t: Telemetry, bhi: real, draws: seq<real>)
    requires ValidDraws(draws)
    ensures 1 <= |Evaluate(t, bhi, draws)| <= 4
    ensures DistinctIds(Evaluate(t, bhi, draws))
    ensures SortedByRank(Evaluate(t, bhi, draws))
  {
    ActiveDistinct(t, bhi, draws);
    TopFourShape(Active(t, bhi, draws));
  }

  /** Everything kept after sorting comes from the list sorted. */
  lemma TopFourMembers(active: seq<Alert>)
    ensures forall a :: a in Take(SortBySeverity(active), 4) ==> a in active
  {
    SortPermutation(active);
    forall a | a in Take(SortBySeverity(active), 4) ensures a in active {
      assert a in multiset(SortBySeverity(active));
    }
  }

  /** Every alert returned is the fallback — returned exactly when no rule
      holds — or the alert of a definition whose condition holds. */
  lemma EvaluateSound(t: Telemetry, bhi: real, draws: seq<real>)
    requires ValidDraws(draws)
    ensures NoneHold(t, bhi) ==> Evaluate(t, bhi, draws) == [FallbackAlert(draws[RuleCount])]
    ensures !NoneHold(t, bhi) ==>
      forall a :: a in Evaluate(t, bhi, draws) ==> FromHoldingRule(a, t, bhi, draws)
    ensures (exists a :: a in Evaluate(t, bhi, draws) && a.id == LowRiskId) <==> NoneHold(t, bhi)
  {
    FiredEmpty(t, bhi, draws, |Definitions|);
    var r := Evaluate(t, bhi, draws);
    TopFourMembers(Active(t, bhi, draws));
    if NoneHold(t, bhi) {
      assert Active(t, bhi, draws) == [FallbackAlert(draws[RuleCount])];
      assert r[0].id == LowRiskId;
    } else {
      FiredSound(t, bhi, draws, |Definitions|);
      DefinitionIdsDistinct();
      forall a | a in r ensures FromHoldingRule(a, t, bhi, draws) && a.id != LowRiskId {
        assert a in Fired(t, bhi, draws, |Definitions|);
      }
    }
  }

  /** When at most four rules hold, every one of them is reported. */
  lemma EvaluateComplete(t: Telemetry, bhi: real, draws: seq<real>, i: nat)
    requires ValidDraws(draws) && i < |Definitions| && Holds(i, t, bhi)
    requires |Fired(t, bhi, draws, |Definitions|)| <= 4
    ensures RuleAlert(i, draws[i]) in Evaluate(t, bhi, draws)
  {
    var fired := Fired(t, bhi, draws, |Definitions|);
    FiredComplete(t, bhi, draws, |Definitions|, i);
    SortPermutation(fired);
    assert RuleAlert(i, draws[i]) in multiset(SortBySeverity(fired));
  }

  /** A pack above 52°C puts crit-temp first. */
  lemma EvaluateCritTempFirst(t: Telemetry, bhi: real, draws: seq<real>)
    requires ValidDraws(draws) && t.packTemp > 52.0
    ensures Evaluate(t, bhi, draws)[0].id == "crit-temp"
    ensures Evaluate(t, bhi, draws)[0].severity == Critical
  {
    var fired := Fired(t, bhi, draws, |Definitions|);
    assert Holds(0, t, bhi);
    assert Fired(t, bhi, draws, 1) == [RuleAlert(0, draws[0])];
    FiredPrefix(t, bhi, draws, 1, |Definitions|);
    assert fired[0] == RuleAlert(0, draws[0]);
    assert OfSeverity(fired, Critical)[0] == fired[0];
  }

  lemma {:induction false} FiredPrefix(t: Telemetry, bhi: real, draws: seq<real>, m: nat, n: nat)
    requires ValidDraws(draws) && m <= n <= |Definitions|
    ensures Fired(t, bhi, draws, m) <= Fired(t, bhi, draws, n)
  {
    if m < n {
      FiredPrefix(t, bhi, draws, m, n - 1);
    }
  }

  /** The initial snapshot and score yield exactly one alert: the low-risk status. */
  lemma InitialAlerts(draws: seq<real>)
    requires ValidDraws(draws)
    ensures Evaluate(VehicleTelemetryData, InitialBhi, draws) == [FallbackAlert(draws[RuleCount])]
  {
    InitialStateQuiet();
    EvaluateSound(VehicleTelemetryData, InitialBhi, draws);
  }
}
