/** An ordered table of condition/item rules, and the items of the rules
    that hold, in table order: the shape both charging recommenders push
    their suggestions in. */
module RuleTables {
  import opened Types
  import opened Collections

  datatype Rule<R> = Rule(item: R, condition: (Telemetry, real) -> bool)

  /** The items of the first n rules whose condition holds, in order. */
  function Select<R>(rules: seq<Rule<R>>, t: Telemetry, bhi: real, n: nat): (r: seq<R>)
    requires n <= |rules|
    ensures |r| <= n
  {
    if n == 0 then []
    else
      var head := Select(rules, t, bhi, n - 1);
      if rules[n - 1].condition(t, bhi) then head + [rules[n - 1].item] else head
  }

  /** An item is selected exactly when one of the first n rules carrying it holds. */
  lemma {:induction false} SelectMembers<R>(rules: seq<Rule<R>>, t: Telemetry, bhi: real, n: nat, x: R)
    requires n <= |rules|
    ensures x in Select(rules, t, bhi, n) <==>
      exists i :: 0 <= i < n && rules[i].condition(t, bhi) && rules[i].item == x
  {
    if n > 0 {
      SelectMembers(rules, t, bhi, n - 1, x);
    }
  }

  /** Nothing is selected exactly when none of the first n conditions hold. */
  lemma {:induction false} SelectEmpty<R>(rules: seq<Rule<R>>, t: Telemetry, bhi: real, n: nat)
    requires n <= |rules|
    ensures Select(rules, t, bhi, n) == [] <==> forall i :: 0 <= i < n ==> !rules[i].condition(t, bhi)
  {
    if n > 0 {
      SelectEmpty(rules, t, bhi, n - 1);
    }
  }

  /** Selecting from fewer rules gives a prefix. */
  lemma {:induction false} SelectPrefix<R>(rules: seq<Rule<R>>, t: Telemetry, bhi: real, k: nat, n: nat)
    requires k <= n <= |rules|
    ensures var s := Select(rules, t, bhi, n); var p := Select(rules, t, bhi, k);
      |p| <= |s| && s[..|p|] == p
  {
    if k < n {
      SelectPrefix(rules, t, bhi, k, n - 1);
      var s := Select(rules, t, bhi, n);
      var h := Select(rules, t, bhi, n - 1);
      var p := Select(rules, t, bhi, k);
      assert s[..|h|] == h;
      assert s[..|p|] == h[..|p|];
    }
  }

  /** When the rules' items have distinct keys, so do the selected items. */
  lemma {:induction false} SelectDistinct<R, K>(rules: seq<Rule<R>>, key: R -> K, t: Telemetry, bhi: real, n: nat)
    requires n <= |rules|
    requires forall i, j :: 0 <= i < j < |rules| ==> key(rules[i].item) != key(rules[j].item)
    ensures DistinctKeys(Select(rules, t, bhi, n), key)
  {
    if n > 0 {
      SelectDistinct(rules, key, t, bhi, n - 1);
      var h := Select(rules, t, bhi, n - 1);
      if rules[n - 1].condition(t, bhi) {
        var s := h + [rules[n - 1].item];
        forall i, j | 0 <= i < j < |s| ensures key(s[i]) != key(s[j]) {
          if j == |h| {
            SelectMembers(rules, t, bhi, n - 1, s[i]);
            assert s[i] in h;
          }
        }
      }
    }
  }

  /** With distinct keys, rule k's item is selected exactly when rule k holds. */
  lemma SelectIndexed<R, K>(rules: seq<Rule<R>>, key: R -> K, t: Telemetry, bhi: real, n: nat, k: nat)
    requires k < n <= |rules|
    requires forall i, j :: 0 <= i < j < |rules| ==> key(rules[i].item) != key(rules[j].item)
    ensures rules[k].item in Select(rules, t, bhi, n) <==> rules[k].condition(t, bhi)
  {
    SelectMembers(rules, t, bhi, n, rules[k].item);
    if rules[k].item in Select(rules, t, bhi, n) {
      var i :| 0 <= i < n && rules[i].condition(t, bhi) && rules[i].item == rules[k].item;
      assert key(rules[i].item) == key(rules[k].item);
      assert i == k;
    }
  }
}
