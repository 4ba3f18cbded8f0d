/**
 * Like requests handled one after another: which rule serves the k-th of them, in closed form, first
 * among the rules of one priority and then among all priorities (test/integration/completion.spec.ts
 * states instances). Like requests are matched by the same rules; the other rules do not count.
 */
module RuleSequence {
  import opened Prelude
  import opened RuleScheduler

  /** How many of the requests a rule takes before it stops being incomplete; None is without limit. */
  function Room(rule: Rule, accepts: set<nat>): Option<nat> { if rule.id in accepts then rule.Capacity() else Some(0) }

  /** The total room of the first j rules; None when one of them has no limit. */
  function Prefix(rules: seq<Rule>, accepts: set<nat>, j: nat): Option<nat>
    requires j <= |rules|
  {
    if j == 0 then Some(0)
    else
      var before, here := Prefix(rules, accepts, j - 1), Room(rules[j - 1], accepts);
      if before.None? || here.None? then None else Some(before.value + here.value)
  }

  /** The k-th request (from 0) falls into rule j's stretch of the combined capacity. */
  predicate Owns(rules: seq<Rule>, accepts: set<nat>, j: nat, k: nat) {
    && j < |rules| && Prefix(rules, accepts, j).Some? && Prefix(rules, accepts, j).value <= k
    && (Prefix(rules, accepts, j + 1).Some? ==> k < Prefix(rules, accepts, j + 1).value)
  }

  /** A matching rule without an explicit completion checker. */
  predicate Default(rule: Rule, accepts: set<nat>) { rule.id in accepts && rule.checker.None? }

  predicate NoDefault(rules: seq<Rule>, accepts: set<nat>) {
    forall j :: 0 <= j < |rules| ==> !Default(rules[j], accepts)
  }

  predicate LastDefault(rules: seq<Rule>, accepts: set<nat>, j: nat) {
    j < |rules| && Default(rules[j], accepts) && forall i :: j < i < |rules| ==> !Default(rules[i], accepts)
  }

  predicate BeyondAll(rules: seq<Rule>, accepts: set<nat>, k: nat) {
    Prefix(rules, accepts, |rules|).Some? && Prefix(rules, accepts, |rules|).value <= k
  }

  /** The rule that should serve the k-th request. */
  predicate Serves(rules: seq<Rule>, accepts: set<nat>, k: nat, target: Option<nat>) {
    match target
    case Some(j) => Owns(rules, accepts, j, k) || (BeyondAll(rules, accepts, k) && LastDefault(rules, accepts, j))
    case None => BeyondAll(rules, accepts, k) && NoDefault(rules, accepts)
  }

  /** How many of the first n requests rule j has served. */
  function Served(rules: seq<Rule>, accepts: set<nat>, j: nat, n: nat): nat
    requires j < |rules|
  {
    var before := Prefix(rules, accepts, j);
    if before.None? || n <= before.value then 0
    else
      var own := match Room(rules[j], accepts) case None => n - before.value case Some(c) => Min(c, n - before.value);
      var total := Prefix(rules, accepts, |rules|);
      own + (if LastDefault(rules, accepts, j) && total.Some? && n > total.value then n - total.value else 0)
  }

  predicate Fresh(rules: seq<Rule>) { forall j :: 0 <= j < |rules| ==> rules[j].requestCount == 0 }

  function AtCounts(rules: seq<Rule>, accepts: set<nat>, n: nat): (after: seq<Rule>)
    ensures |after| == |rules|
  {
    seq(|rules|, j requires 0 <= j < |rules| => rules[j].(requestCount := Served(rules, accepts, j, n)))
  }

  // ---- The scheduler run on one request after another ------------------------------------------

  datatype Log = Log(rules: seq<Rule>, targets: seq<Option<nat>>)

  function Bump(rules: seq<Rule>, target: Option<nat>): (after: seq<Rule>)
    ensures |after| == |rules|
  {
    match target
    case Some(i) =>
      if i < |rules| then rules[i := rules[i].(requestCount := rules[i].requestCount + 1)] else rules
    case None => rules
  }

  function ServeAll(rules: seq<Rule>, accepts: set<nat>, n: nat): Log {
    if n == 0 then Log(rules, [])
    else
      var log := ServeAll(rules, accepts, n - 1);
      var target := PickFrom(log.rules, accepts);
      Log(Bump(log.rules, target), log.targets + [target])
  }

  // ---- Proof -----------------------------------------------------------------------------------

  lemma {:induction false} PrefixGrows(rules: seq<Rule>, accepts: set<nat>, i: nat, j: nat)
    requires i <= j <= |rules| && Prefix(rules, accepts, j).Some?
    ensures Prefix(rules, accepts, i).Some? && Prefix(rules, accepts, i).value <= Prefix(rules, accepts, j).value
    decreases j
  {
    if i < j { PrefixGrows(rules, accepts, i, j - 1); }
  }

  /** Within the total capacity some rule owns the request. */
  lemma {:induction false} OwnerExists(rules: seq<Rule>, accepts: set<nat>, j: nat, k: nat) returns (owner: nat)
    requires j <= |rules| && Prefix(rules, accepts, j).Some? && Prefix(rules, accepts, j).value <= k
    requires !BeyondAll(rules, accepts, k)
    ensures Owns(rules, accepts, owner, k)
    decreases |rules| - j
  {
    if Prefix(rules, accepts, j + 1).Some? && Prefix(rules, accepts, j + 1).value <= k {
      owner := OwnerExists(rules, accepts, j + 1, k);
    } else {
      owner := j;
    }
  }

  /** The rules before the k-th request's owner have used up their capacity, the owner has not. */
  lemma BelowOwnerIsDone(rules: seq<Rule>, accepts: set<nat>, owner: nat, k: nat, i: nat)
    requires Owns(rules, accepts, owner, k) && i <= owner
    ensures i == owner ==> rules[i].id in accepts
    ensures rules[i].id in accepts ==> (AtCounts(rules, accepts, k)[i].IsComplete().Incomplete? <==> i == owner)
  {
    PrefixGrows(rules, accepts, i, owner);
    if i < owner { PrefixGrows(rules, accepts, i + 1, owner); }
    if Prefix(rules, accepts, |rules|).Some? { PrefixGrows(rules, accepts, owner + 1, |rules|); }
  }

  lemma BeyondAllIsDone(rules: seq<Rule>, accepts: set<nat>, k: nat, i: nat)
    requires BeyondAll(rules, accepts, k) && i < |rules| && rules[i].id in accepts
    ensures var rule := AtCounts(rules, accepts, k)[i];
      rule.IsComplete() == if rules[i].checker.None? then Maybe else Complete
  {
    PrefixGrows(rules, accepts, i + 1, |rules|);
  }

  lemma PickIsServes(rules: seq<Rule>, accepts: set<nat>, k: nat)
    ensures Serves(rules, accepts, k, PickFrom(AtCounts(rules, accepts, k), accepts))
  {
    var now := AtCounts(rules, accepts, k);
    var target := PickFrom(now, accepts);
    PickFromMeetsIntent(now, accepts);
    if BeyondAll(rules, accepts, k) {
      forall i | 0 <= i < |rules| && rules[i].id in accepts
        ensures now[i].IsComplete() == if rules[i].checker.None? then Maybe else Complete
      {
        BeyondAllIsDone(rules, accepts, k, i);
      }
    } else {
      var owner := OwnerExists(rules, accepts, 0, k);
      forall i | 0 <= i <= owner
        ensures i == owner ==> rules[i].id in accepts
        ensures rules[i].id in accepts ==> (now[i].IsComplete().Incomplete? <==> i == owner)
      {
        BelowOwnerIsDone(rules, accepts, owner, k, i);
      }
      assert Picks(now, accepts, owner);
      PicksIsUnique(now, accepts, owner, target.value);
    }
  }

  /** Serving one more request moves the counts from their closed form at k to that at k + 1. */
  lemma BumpAdvances(rules: seq<Rule>, accepts: set<nat>, k: nat, target: Option<nat>, i: nat)
    requires Serves(rules, accepts, k, target) && i < |rules|
    ensures Bump(AtCounts(rules, accepts, k), target)[i] == AtCounts(rules, accepts, k + 1)[i]
  {
    hide Served, Prefix;
    if target.Some? && Owns(rules, accepts, target.value, k) {
      OwnerCounts(rules, accepts, k, target.value, i);
    } else {
      BeyondCounts(rules, accepts, k, i);
    }
  }

  lemma BeyondCounts(rules: seq<Rule>, accepts: set<nat>, k: nat, i: nat)
    requires BeyondAll(rules, accepts, k) && i < |rules|
    ensures Served(rules, accepts, i, k + 1)
         == Served(rules, accepts, i, k) + (if LastDefault(rules, accepts, i) then 1 else 0)
  {
    PrefixGrows(rules, accepts, i + 1, |rules|);
  }

  lemma OwnerCounts(rules: seq<Rule>, accepts: set<nat>, k: nat, owner: nat, i: nat)
    requires Owns(rules, accepts, owner, k) && i < |rules|
    ensures Served(rules, accepts, i, k + 1) == Served(rules, accepts, i, k) + (if i == owner then 1 else 0)
  {
    if Prefix(rules, accepts, |rules|).Some? { PrefixGrows(rules, accepts, owner + 1, |rules|); }
    if i < owner {
      PrefixGrows(rules, accepts, i + 1, owner);
    } else if i > owner && Prefix(rules, accepts, i).Some? {
      PrefixGrows(rules, accepts, owner + 1, i);
    }
  }

  lemma CountsStartAtZero(rules: seq<Rule>, accepts: set<nat>)
    requires Fresh(rules)
    ensures AtCounts(rules, accepts, 0) == rules
  {
  }

  /**
   * The closed form. Giving times(n) the room n, always() no limit and default rules one, and rules that
   * do not match none, the k-th of n sequential requests goes to the rule whose stretch of the summed
   * rooms contains k; beyond the total it goes to the last default rule if there is one and is unmatched
   * otherwise.
   */
  lemma {:induction false} SequentialRunsInClosedForm(rules: seq<Rule>, accepts: set<nat>, n: nat)
    requires Fresh(rules)
    ensures var log := ServeAll(rules, accepts, n);
      && log.rules == AtCounts(rules, accepts, n) && |log.targets| == n
      && forall k :: 0 <= k < n ==> Serves(rules, accepts, k, log.targets[k])
  {
    hide PickFrom, Served, Serves, Bump;
    if n == 0 {
      CountsStartAtZero(rules, accepts);
    } else {
      SequentialRunsInClosedForm(rules, accepts, n - 1);
      var now := AtCounts(rules, accepts, n - 1);
      PickIsServes(rules, accepts, n - 1);
      forall i | 0 <= i < |rules|
        ensures Bump(now, PickFrom(now, accepts))[i] == AtCounts(rules, accepts, n)[i]
      {
        BumpAdvances(rules, accepts, n - 1, PickFrom(now, accepts), i);
      }
      assert Bump(now, PickFrom(now, accepts)) == AtCounts(rules, accepts, n);
    }
  }

  /** At most one rule, or none, can be the one that serves the k-th request. */
  lemma ServesIsUnique(rules: seq<Rule>, accepts: set<nat>, k: nat, a: Option<nat>, b: Option<nat>)
    requires Serves(rules, accepts, k, a) && Serves(rules, accepts, k, b)
    ensures a == b
  {
    if a.Some? && b.Some? && a != b {
      var low, high := Min(a.value, b.value), if a.value < b.value then b.value else a.value;
      if Owns(rules, accepts, high, k) {
        PrefixGrows(rules, accepts, low + 1, high);
      }
      if Owns(rules, accepts, low, k) && Prefix(rules, accepts, |rules|).Some? {
        PrefixGrows(rules, accepts, low + 1, |rules|);
      }
      if Owns(rules, accepts, high, k) && Prefix(rules, accepts, |rules|).Some? {
        PrefixGrows(rules, accepts, high + 1, |rules|);
      }
    } else if a.Some? && b.None? {
      if Owns(rules, accepts, a.value, k) { PrefixGrows(rules, accepts, a.value + 1, |rules|); }
    } else if b.Some? && a.None? {
      if Owns(rules, accepts, b.value, k) { PrefixGrows(rules, accepts, b.value + 1, |rules|); }
    }
  }

  // ---- Conservation ----------------------------------------------------------------------------

  function Total(rules: seq<Rule>): nat {
    if rules == [] then 0 else Total(rules[..|rules| - 1]) + rules[|rules| - 1].requestCount
  }

  function Missed(targets: seq<Option<nat>>): nat {
    if targets == [] then 0
    else Missed(targets[..|targets| - 1]) + (if targets[|targets| - 1].None? then 1 else 0)
  }

  lemma {:induction false} BumpAddsOne(rules: seq<Rule>, i: nat)
    requires i < |rules|
    ensures Total(Bump(rules, Some(i))) == Total(rules) + 1
  {
    var last := |rules| - 1;
    if i == last {
      assert Bump(rules, Some(i))[..last] == rules[..last];
    } else {
      BumpAddsOne(rules[..last], i);
      assert Bump(rules, Some(i))[..last] == Bump(rules[..last], Some(i));
    }
  }

  lemma MissedSnoc(targets: seq<Option<nat>>, last: Option<nat>)
    ensures Missed(targets + [last]) == Missed(targets) + (if last.None? then 1 else 0)
  {
  }

  /** Whatever the rules and whatever they match: every request is counted once or left unmatched. */
  lemma {:induction false} EveryRequestIsAccountedFor(rules: seq<Rule>, accepts: set<nat>, n: nat)
    ensures var log := ServeAll(rules, accepts, n); Total(log.rules) + Missed(log.targets) == Total(rules) + n
  {
    hide PickFrom, Total, Missed;
    if n == 0 {
      assert Missed([]) == 0 by { MissedNone(); }
    } else {
      EveryRequestIsAccountedFor(rules, accepts, n - 1);
      var log := ServeAll(rules, accepts, n - 1);
      var target := PickFrom(log.rules, accepts);
      PickFromMeetsIntent(log.rules, accepts);
      MissedSnoc(log.targets, target);
      if target.Some? { BumpAddsOne(log.rules, target.value); }
    }
  }

  lemma MissedNone()
    ensures Missed([]) == 0
  {
  }
}
