/**
 * Choosing the rule for a request (findMatchingRule in src/server/mockttp-server.ts, RequestRule,
 * the completion checkers and the promise filter).
 *
 * A request is represented by the ids of the rules whose matchers accept it.
 */
module RuleScheduler {
  import opened Prelude

  datatype Checker = Always | Once | Twice | Thrice | Times(count: nat)

  predicate CheckerComplete(c: Checker, seen: nat) {
    match c
    case Always => false
    case Once => seen >= 1
    case Twice => seen >= 2
    case Thrice => seen >= 3
    case Times(count) => seen >= count
  }

  /** isComplete(): false, true or null. */
  datatype Completion = Incomplete | Complete | Maybe

  datatype Rule = Rule(id: nat, checker: Option<Checker>, requestCount: nat) {
    function IsComplete(): Completion {
      if checker.Some? then (if CheckerComplete(checker.value, requestCount) then Complete else Incomplete)
      else if requestCount == 0 then Incomplete
      else Maybe
    }

    /** How many requests the rule takes before it stops being incomplete; None is without limit. */
    function Capacity(): Option<nat> {
      match checker
      case None => Some(1)
      case Some(Always) => None
      case Some(Once) => Some(1)
      case Some(Twice) => Some(2)
      case Some(Thrice) => Some(3)
      case Some(Times(n)) => Some(n)
    }
  }

  // ---- The intended meaning --------------------------------------------------------------------

  /** The first matching incomplete rule or, when there is none, the last matching maybe-complete one. */
  predicate Picks(rules: seq<Rule>, accepts: set<nat>, i: nat) {
    && i < |rules| && rules[i].id in accepts
    && match rules[i].IsComplete() {
         case Incomplete => forall j :: 0 <= j < i && rules[j].id in accepts ==> !rules[j].IsComplete().Incomplete?
         case Maybe =>
           && (forall j :: 0 <= j < |rules| && rules[j].id in accepts ==> !rules[j].IsComplete().Incomplete?)
           && (forall j :: i < j < |rules| && rules[j].id in accepts ==> !rules[j].IsComplete().Maybe?)
         case Complete => false
       }
  }

  /** Every matching rule has a completion checker that says it is done. */
  predicate Exhausted(rules: seq<Rule>, accepts: set<nat>) {
    forall i :: 0 <= i < |rules| && rules[i].id in accepts ==> rules[i].IsComplete().Complete?
  }

  // ---- The selection as the code computes it ---------------------------------------------------

  function Min(a: nat, b: nat): nat { if a < b then a else b }

  /** A list of indices into the rules, in ascending order. */
  predicate Indices(rules: seq<Rule>, candidates: seq<nat>) {
    && (forall k :: 0 <= k < |candidates| ==> candidates[k] < |rules|)
    && (forall a, b :: 0 <= a < b < |candidates| ==> candidates[a] < candidates[b])
  }

  /** The indices that survive the filter on isComplete() !== true. */
  function Candidates(rules: seq<Rule>): (indices: seq<nat>)
    ensures Indices(rules, indices)
    ensures forall i :: i in indices <==> 0 <= i < |rules| && !rules[i].IsComplete().Complete?
  {
    if rules == [] then []
    else
      var front := rules[..|rules| - 1];
      var rest := Candidates(front);
      assert forall i :: 0 <= i < |front| ==> front[i] == rules[i];
      if rules[|rules| - 1].IsComplete().Complete? then rest else rest + [|rules| - 1]
  }

  /** The scan: the first candidate that matches and is incomplete. */
  function Scan(rules: seq<Rule>, accepts: set<nat>, candidates: seq<nat>): (first: Option<nat>)
    requires Indices(rules, candidates)
    ensures first.Some? ==> first.value in candidates
  {
    if candidates == [] then None
    else if rules[candidates[0]].id in accepts && rules[candidates[0]].IsComplete().Incomplete? then Some(candidates[0])
    else Scan(rules, accepts, candidates[1..])
  }

  /** The last element of filter(candidates, matches). */
  function LastMatching(rules: seq<Rule>, accepts: set<nat>, candidates: seq<nat>): (last: Option<nat>)
    requires Indices(rules, candidates)
    ensures last.Some? ==> last.value in candidates
  {
    if candidates == [] then None
    else
      var last := candidates[|candidates| - 1];
      if rules[last].id in accepts then Some(last) else LastMatching(rules, accepts, candidates[..|candidates| - 1])
  }

  /** One priority level, with nothing happening between its steps. */
  function PickFrom(rules: seq<Rule>, accepts: set<nat>): Option<nat> {
    var candidates := Candidates(rules);
    var first := Scan(rules, accepts, candidates);
    if first.Some? then first
    else
      var last := LastMatching(rules, accepts, candidates);
      if last.None? || rules[last.value].IsComplete().Complete? then None else last
  }

  lemma {:induction false} ScanIsFirst(rules: seq<Rule>, accepts: set<nat>, candidates: seq<nat>)
    requires Indices(rules, candidates)
    ensures match Scan(rules, accepts, candidates)
            case None => forall c :: c in candidates && rules[c].id in accepts ==> !rules[c].IsComplete().Incomplete?
            case Some(i) =>
              && i in candidates && rules[i].id in accepts && rules[i].IsComplete().Incomplete?
              && forall c :: c in candidates && c < i && rules[c].id in accepts ==> !rules[c].IsComplete().Incomplete?
    decreases |candidates|
  {
    if candidates != [] {
      ScanIsFirst(rules, accepts, candidates[1..]);
      assert forall c :: c in candidates ==> c == candidates[0] || c in candidates[1..];
    }
  }

  lemma {:induction false} LastMatchingIsLast(rules: seq<Rule>, accepts: set<nat>, candidates: seq<nat>)
    requires Indices(rules, candidates)
    ensures match LastMatching(rules, accepts, candidates)
            case None => forall c :: c in candidates ==> rules[c].id !in accepts
            case Some(i) =>
              && i in candidates && rules[i].id in accepts
              && forall c :: c in candidates && c > i ==> rules[c].id !in accepts
  {
    if candidates != [] {
      var front := candidates[..|candidates| - 1];
      LastMatchingIsLast(rules, accepts, front);
      assert forall c :: c in candidates ==> c == candidates[|candidates| - 1] || c in front;
    }
  }

  /** Filter, scan, filter again and take the last: exactly the intended rule, and none iff exhausted. */
  lemma PickFromMeetsIntent(rules: seq<Rule>, accepts: set<nat>)
    ensures match PickFrom(rules, accepts)
            case Some(i) => Picks(rules, accepts, i)
            case None => Exhausted(rules, accepts)
  {
    var candidates := Candidates(rules);
    ScanIsFirst(rules, accepts, candidates);
    LastMatchingIsLast(rules, accepts, candidates);
    assert forall i :: 0 <= i < |rules| ==> i in candidates || rules[i].IsComplete().Complete?;
  }

  lemma PicksIsUnique(rules: seq<Rule>, accepts: set<nat>, i: nat, j: nat)
    requires Picks(rules, accepts, i)
    ensures !Exhausted(rules, accepts)
    ensures Picks(rules, accepts, j) ==> i == j
  {
  }

  // ---- All priorities, highest first -----------------------------------------------------------

  /** A chosen rule: its level, counted from the highest priority, and its index there. */
  datatype Choice = Choice(level: nat, index: nat)

  function Find(sets: seq<seq<Rule>>, accepts: set<nat>): Option<Choice> {
    if sets == [] then None
    else
      match PickFrom(sets[0], accepts)
      case Some(i) => Some(Choice(0, i))
      case None =>
        match Find(sets[1..], accepts)
        case Some(c) => Some(Choice(c.level + 1, c.index))
        case None => None
  }

  predicate Chooses(sets: seq<seq<Rule>>, accepts: set<nat>, c: Choice) {
    && c.level < |sets| && Picks(sets[c.level], accepts, c.index)
    && forall l :: 0 <= l < c.level ==> Exhausted(sets[l], accepts)
  }

  predicate AllExhausted(sets: seq<seq<Rule>>, accepts: set<nat>) {
    forall l :: 0 <= l < |sets| ==> Exhausted(sets[l], accepts)
  }

  /**
   * The refinement: the selection returns the intended rule of the highest priority that has one, and
   * nothing exactly when every matching rule at every priority has a completed checker.
   */
  lemma {:induction false} FindMeetsIntent(sets: seq<seq<Rule>>, accepts: set<nat>)
    ensures match Find(sets, accepts)
            case Some(c) => Chooses(sets, accepts, c) && !AllExhausted(sets, accepts)
            case None => AllExhausted(sets, accepts)
  {
    if sets != [] {
      PickFromMeetsIntent(sets[0], accepts);
      FindMeetsIntent(sets[1..], accepts);
      var rest := Find(sets[1..], accepts);
      assert forall l :: 1 <= l < |sets| ==> sets[l] == sets[1..][l - 1];
      match Find(sets, accepts)
      case None =>
      case Some(c) => PicksIsUnique(sets[c.level], accepts, c.index, c.index);
    }
  }

  /** The same rules, some of which have handled more requests since. */
  predicate Grown(before: seq<seq<Rule>>, after: seq<seq<Rule>>) {
    && |before| == |after|
    && (forall l :: 0 <= l < |before| ==> |before[l]| == |after[l]|)
    && (forall l, i :: 0 <= l < |before| && 0 <= i < |before[l]| ==> GrownRule(before[l][i], after[l][i]))
  }

  predicate GrownRule(before: Rule, after: Rule) {
    after.id == before.id && after.checker == before.checker && after.requestCount >= before.requestCount
  }

  lemma ExhaustedStaysExhausted(before: seq<Rule>, after: seq<Rule>, accepts: set<nat>)
    requires |before| == |after| && forall i :: 0 <= i < |before| ==> GrownRule(before[i], after[i])
    requires Exhausted(before, accepts)
    ensures Exhausted(after, accepts)
  {
  }

  /** A request that is unmatched once stays unmatched until the rules change. */
  lemma UnmatchedStaysUnmatched(before: seq<seq<Rule>>, after: seq<seq<Rule>>, accepts: set<nat>)
    requires Grown(before, after) && Find(before, accepts).None?
    ensures Find(after, accepts).None?
  {
    FindMeetsIntent(before, accepts);
    FindMeetsIntent(after, accepts);
    forall l | 0 <= l < |after|
      ensures Exhausted(after[l], accepts)
    {
      assert Exhausted(before[l], accepts);
      ExhaustedStaysExhausted(before[l], after[l], accepts);
    }
  }

  // ---- The server's own objects ----------------------------------------------------------------

  /** How one step of a rule ends: it asks to go on, it is the last to run, or it throws. */
  datatype StepEnd = GoesOn | Stops | Throws

  /** How many steps handle the request: up to and including the first that does not go on. */
  function StepsRun(ends: seq<StepEnd>): (n: nat)
    ensures n <= |ends| && (forall i :: 0 <= i < n - 1 ==> ends[i].GoesOn?)
    ensures n < |ends| ==> n > 0 && !ends[n - 1].GoesOn?
  {
    if ends == [] then 0 else if ends[0].GoesOn? then 1 + StepsRun(ends[1..]) else 1
  }

  class RequestRule {
    const id: nat
    const priority: nat
    const completionChecker: Option<Checker>
    var requestCount: nat
    var requests: seq<nat> // the requests recorded, oldest first

    constructor (id: nat, priority: nat, completionChecker: Option<Checker>)
      ensures this.id == id && this.priority == priority
      ensures View() == Rule(id, completionChecker, 0) && requests == []
    {
      this.id, this.priority, this.completionChecker, requestCount, requests := id, priority, completionChecker, 0, [];
    }

    function View(): Rule
      reads this
    {
      Rule(id, completionChecker, requestCount)
    }

    /** The loop over the steps, whose ends are known in advance; false stands for a rejected promise. */
    method RunSteps(ends: seq<StepEnd>) returns (handled: nat, fulfilled: bool)
      ensures handled == StepsRun(ends)
      ensures fulfilled <==> !(handled > 0 && ends[handled - 1].Throws?)
    {
      handled := 0;
      assert ends[0..] == ends;
      while handled < |ends|
        invariant handled <= |ends| && StepsRun(ends) == handled + StepsRun(ends[handled..])
        invariant forall i :: 0 <= i < handled ==> ends[i].GoesOn?
        decreases |ends| - handled
      {
        assert ends[handled..][1..] == ends[handled + 1..];
        handled := handled + 1;
        if ends[handled - 1].Throws? {
          return handled, false;
        }
        if ends[handled - 1].Stops? {
          break;
        }
      }
      return handled, true;
    }

    /**
     * Handling a request: whatever its steps come to, it is recorded if asked for, and counted once,
     * before they are done. The result is what the promise of the steps comes to.
     */
    method Handle(request: nat, ends: seq<StepEnd>, record: bool) returns (fulfilled: bool)
      modifies this
      ensures View() == old(View()).(requestCount := old(requestCount) + 1)
      ensures requests == if record then old(requests) + [request] else old(requests)
      ensures fulfilled <==> !(StepsRun(ends) > 0 && ends[StepsRun(ends) - 1].Throws?)
    {
      var handled: nat;
      handled, fulfilled := RunSteps(ends);
      if record {
        requests := requests + [request];
      }
      requestCount := requestCount + 1;
    }
  }

  function Views(rules: seq<RequestRule>): (views: seq<Rule>)
    reads rules
    ensures |views| == |rules| && forall i :: 0 <= i < |rules| ==> views[i] == rules[i].View()
  {
    if rules == [] then [] else Views(rules[..|rules| - 1]) + [rules[|rules| - 1].View()]
  }

  /** The filter of src/util/promise.ts: the elements whose test answered true, in order. */
  method Filter(items: seq<nat>, results: seq<bool>) returns (kept: seq<nat>)
    requires |items| == |results|
    ensures kept == Kept(items, results)
  {
    kept := [];
    for i := 0 to |items|
      invariant kept == Kept(items[..i], results[..i])
    {
      assert items[..i + 1][..i] == items[..i] && results[..i + 1][..i] == results[..i];
      if results[i] {
        kept := kept + [items[i]];
      }
    }
    assert items[..|items|] == items && results[..|results|] == results;
  }

  function Kept(items: seq<nat>, results: seq<bool>): seq<nat>
    requires |items| == |results|
  {
    if items == [] then []
    else
      Kept(items[..|items| - 1], results[..|items| - 1])
      + (if results[|items| - 1] then [items[|items| - 1]] else [])
  }

  lemma {:induction false} KeptLast(rules: seq<Rule>, accepts: set<nat>, candidates: seq<nat>, results: seq<bool>)
    requires |candidates| == |results| && Indices(rules, candidates)
    requires forall i :: 0 <= i < |candidates| ==> results[i] == (rules[candidates[i]].id in accepts)
    ensures var kept := Kept(candidates, results);
      LastMatching(rules, accepts, candidates) == if kept == [] then None else Some(kept[|kept| - 1])
  {
    if candidates != [] {
      KeptLast(rules, accepts, candidates[..|candidates| - 1], results[..|candidates| - 1]);
    }
  }

  lemma CandidatesSnoc(rules: seq<Rule>, i: nat)
    requires i < |rules|
    ensures Candidates(rules[..i + 1])
         == Candidates(rules[..i]) + (if rules[i].IsComplete().Complete? then [] else [i])
  {
    assert rules[..i + 1][..i] == rules[..i];
  }

  /** Start every rule that is not definitely complete matching. */
  method StartMatching(ruleSet: seq<RequestRule>, accepts: set<nat>) returns (candidates: seq<nat>, matches: seq<bool>)
    ensures var rules := Views(ruleSet);
      && candidates == Candidates(rules) && |matches| == |candidates|
      && forall k :: 0 <= k < |candidates| ==> matches[k] == (rules[candidates[k]].id in accepts)
  {
    ghost var rules := Views(ruleSet);
    candidates, matches := [], [];
    assert Candidates(rules[..0]) == [];
    hide Candidates, Views;
    for i := 0 to |ruleSet|
      invariant candidates == Candidates(rules[..i]) && |matches| == |candidates|
      invariant forall k :: 0 <= k < |candidates| ==> matches[k] == (rules[candidates[k]].id in accepts)
    {
      CandidatesSnoc(rules, i);
      if ruleSet[i].View().IsComplete() != Complete {
        candidates := candidates + [i];
        matches := matches + [ruleSet[i].id in accepts];
      }
    }
    assert rules[..|ruleSet|] == rules;
  }

  lemma ScanStep(rules: seq<Rule>, accepts: set<nat>, candidates: seq<nat>, k: nat)
    requires Indices(rules, candidates) && k < |candidates|
    ensures Indices(rules, candidates[k..]) && Indices(rules, candidates[k + 1..])
    ensures Scan(rules, accepts, candidates[k..])
         == if rules[candidates[k]].id in accepts && rules[candidates[k]].IsComplete().Incomplete?
            then Some(candidates[k]) else Scan(rules, accepts, candidates[k + 1..])
  {
  }

  /** Use the first rule whose match resolved true and which is still incomplete. */
  method ScanMatches(ruleSet: seq<RequestRule>, accepts: set<nat>, candidates: seq<nat>, matches: seq<bool>)
    returns (chosen: Option<nat>)
    requires Indices(Views(ruleSet), candidates) && |matches| == |candidates|
    requires forall k :: 0 <= k < |candidates| ==> matches[k] == (ruleSet[candidates[k]].id in accepts)
    ensures chosen == Scan(Views(ruleSet), accepts, candidates)
  {
    ghost var rules := Views(ruleSet);
    assert candidates[0..] == candidates;
    assert Scan(rules, accepts, []) == None;
    hide Views, Scan;
    for k := 0 to |candidates|
      invariant Indices(rules, candidates[k..])
      invariant Scan(rules, accepts, candidates) == Scan(rules, accepts, candidates[k..])
    {
      ScanStep(rules, accepts, candidates, k);
      if matches[k] && ruleSet[candidates[k]].View().IsComplete() == Incomplete {
        return Some(candidates[k]);
      }
    }
    assert candidates[|candidates|..] == [];
    return None;
  }

  /** The last element of the filtered list. */
  method LastMatch(ruleSet: seq<RequestRule>, accepts: set<nat>, candidates: seq<nat>, matches: seq<bool>)
    returns (last: Option<nat>)
    requires Indices(Views(ruleSet), candidates) && |matches| == |candidates|
    requires forall k :: 0 <= k < |candidates| ==> matches[k] == (ruleSet[candidates[k]].id in accepts)
    ensures last == LastMatching(Views(ruleSet), accepts, candidates)
  {
    KeptLast(Views(ruleSet), accepts, candidates, matches);
    var matching := Filter(candidates, matches);
    last := if matching == [] then None else Some(matching[|matching| - 1]);
  }

  /** One level of findMatchingRule, on the live rules. */
  method FindInSet(ruleSet: seq<RequestRule>, accepts: set<nat>) returns (chosen: Option<nat>)
    ensures chosen == PickFrom(Views(ruleSet), accepts)
    ensures chosen.Some? ==> chosen.value < |ruleSet|
  {
    var candidates, matches := StartMatching(ruleSet, accepts);
    chosen := ScanMatches(ruleSet, accepts, candidates, matches);
    if chosen.None? {
      chosen := LastMatch(ruleSet, accepts, candidates, matches);
      if chosen.Some? && ruleSet[chosen.value].View().IsComplete() == Complete {
        chosen := None;
      }
    }
  }

  lemma MaximumExists(keys: set<nat>)
    requires keys != {}
    ensures exists top :: IsTop(keys, top)
    decreases |keys|
  {
    var some :| some in keys;
    var rest := keys - {some};
    if rest == {} {
      assert keys == {some};
      assert IsTop(keys, some);
    } else {
      MaximumExists(rest);
      var top :| IsTop(rest, top);
      assert forall k :: k in keys ==> k == some || k in rest;
      assert IsTop(keys, if some > top then some else top);
    }
  }

  predicate IsTop(keys: set<nat>, top: nat) { top in keys && forall k :: k in keys ==> k <= top }

  /** The keys of an object with natural-number keys, in reverse of the order Object.values visits. */
  ghost function Descending(keys: set<nat>): (sorted: seq<nat>)
    ensures forall i :: 0 <= i < |sorted| ==> sorted[i] in keys
    decreases |keys|
  {
    if keys == {} then []
    else
      MaximumExists(keys);
      var top :| IsTop(keys, top);
      [top] + Descending(keys - {top})
  }

  lemma DescendingStartsAtTop(keys: set<nat>, top: nat)
    requires IsTop(keys, top)
    ensures Descending(keys) == [top] + Descending(keys - {top})
  {
  }

  /** Every key once, highest first. */
  lemma {:induction false} DescendingIsSorted(keys: set<nat>)
    ensures forall k :: k in keys ==> k in Descending(keys)
    ensures forall i, j :: 0 <= i < j < |Descending(keys)| ==> Descending(keys)[i] > Descending(keys)[j]
    decreases |keys|
  {
    if keys != {} {
      MaximumExists(keys);
      var top :| IsTop(keys, top);
      var rest := Descending(keys - {top});
      DescendingStartsAtTop(keys, top);
      DescendingIsSorted(keys - {top});
      hide Descending;
      assert forall k :: k in keys ==> k == top || k in keys - {top};
      forall i, j | 0 <= i < j < |[top] + rest|
        ensures ([top] + rest)[i] > ([top] + rest)[j]
      {
        assert rest[j - 1] in keys - {top};
      }
    }
  }

  type RuleSets = map<nat, seq<RequestRule>>

  function AllRules(ruleSets: RuleSets): set<RequestRule> {
    set p, r | p in ruleSets && r in ruleSets[p] :: r
  }

  /** The rule sets in the order findMatchingRule visits them: highest priority first. */
  ghost predicate AreSets(ruleSets: RuleSets, sets: seq<seq<Rule>>)
    reads AllRules(ruleSets)
  {
    var order := Descending(ruleSets.Keys);
    && |sets| == |order|
    && forall l :: 0 <= l < |order| ==>
      (assert forall r :: r in ruleSets[order[l]] ==> r in AllRules(ruleSets); sets[l] == Views(ruleSets[order[l]]))
  }

  function WithPriority(rules: seq<RequestRule>, p: nat): seq<RequestRule> {
    if rules == [] then []
    else
      WithPriority(rules[..|rules| - 1], p)
      + (if rules[|rules| - 1].priority == p then [rules[|rules| - 1]] else [])
  }

  /** The rule sets hold exactly these rules, each in the list of its priority, in order, no list empty. */
  ghost predicate Groups(ruleSets: RuleSets, rules: seq<RequestRule>) {
    && (forall p :: p in ruleSets ==> ruleSets[p] == WithPriority(rules, p) != [])
    && (forall p: nat :: p !in ruleSets ==> WithPriority(rules, p) == [])
  }

  function Added(ruleSets: RuleSets, rule: RequestRule): RuleSets {
    ruleSets[rule.priority := (if rule.priority in ruleSets then ruleSets[rule.priority] else []) + [rule]]
  }

  lemma AddedKeepsGroups(ruleSets: RuleSets, rules: seq<RequestRule>, rule: RequestRule)
    requires Groups(ruleSets, rules)
    ensures Groups(Added(ruleSets, rule), rules + [rule])
  {
  }

  class MockttpServer {
    var requestRuleSets: RuleSets

    constructor ()
      ensures Groups(requestRuleSets, [])
    {
      requestRuleSets := map[];
    }

    method AddToRuleSets(rule: RequestRule)
      modifies this
      ensures requestRuleSets == Added(old(requestRuleSets), rule)
      ensures forall rules :: Groups(old(requestRuleSets), rules) ==> Groups(requestRuleSets, rules + [rule])
    {
      if rule.priority !in requestRuleSets {
        requestRuleSets := requestRuleSets[rule.priority := []];
      }
      requestRuleSets := requestRuleSets[rule.priority := requestRuleSets[rule.priority] + [rule]];
      forall rules | Groups(old(requestRuleSets), rules)
        ensures Groups(requestRuleSets, rules + [rule])
      {
        AddedKeepsGroups(old(requestRuleSets), rules, rule);
      }
    }

    /** setRequestRules: _.groupBy on the priority. */
    method SetRequestRules(rules: seq<RequestRule>)
      modifies this
      ensures Groups(requestRuleSets, rules)
    {
      var groups: RuleSets := map[];
      for i := 0 to |rules|
        invariant Groups(groups, rules[..i])
      {
        AddedKeepsGroups(groups, rules[..i], rules[i]);
        assert rules[..i + 1] == rules[..i] + [rules[i]];
        groups := Added(groups, rules[i]);
      }
      assert rules[..|rules|] == rules;
      requestRuleSets := groups;
    }
  }

  lemma FindStep(sets: seq<seq<Rule>>, accepts: set<nat>, level: nat)
    requires level < |sets| && Find(sets, accepts) == Shift(Find(sets[level..], accepts), level)
    ensures match PickFrom(sets[level], accepts)
            case Some(i) => Find(sets, accepts) == Some(Choice(level, i))
            case None => Find(sets, accepts) == Shift(Find(sets[level + 1..], accepts), level + 1)
  {
    hide PickFrom;
    assert sets[level..][1..] == sets[level + 1..] && sets[level..][0] == sets[level];
  }

  /** The rule object that a choice denotes. */
  ghost predicate Denotes(ruleSets: RuleSets, c: Choice, rule: RequestRule) {
    var order := Descending(ruleSets.Keys);
    && c.level < |order| && c.index < |ruleSets[order[c.level]]|
    && rule == ruleSets[order[c.level]][c.index]
  }

  /** An uninterrupted findMatchingRule, on the live rules. */
  method FindMatchingRule(ruleSets: RuleSets, accepts: set<nat>, ghost sets: seq<seq<Rule>>)
    returns (rule: RequestRule?)
    requires AreSets(ruleSets, sets)
    ensures rule == null <==> Find(sets, accepts).None?
    ensures rule != null ==> Denotes(ruleSets, Find(sets, accepts).value, rule)
  {
    rule := null;
    var order := ReversedKeys(ruleSets.Keys);
    for level := 0 to |order|
      invariant Find(sets, accepts) == Shift(Find(sets[level..], accepts), level)
    {
      var ruleSet := ruleSets[order[level]];
      FindStep(sets, accepts, level);
      var found := FindInSet(ruleSet, accepts);
      assert sets[level] == Views(ruleSet);
      if found.Some? {
        return ruleSet[found.value];
      }
    }
  }

  /** Object.values(...).reverse(), as far as the order of the keys goes. */
  method ReversedKeys(all: set<nat>) returns (order: seq<nat>)
    ensures order == Descending(all)
  {
    order := [];
    var keys := all;
    while keys != {}
      invariant Descending(all) == order + Descending(keys)
      decreases |keys|
    {
      MaximumExists(keys);
      var p :| IsTop(keys, p);
      DescendingStartsAtTop(keys, p);
      assert order + ([p] + Descending(keys - {p})) == order + [p] + Descending(keys - {p});
      order, keys := order + [p], keys - {p};
    }
  }

  function Shift(c: Option<Choice>, levels: nat): Option<Choice> {
    if c.Some? then Some(Choice(c.value.level + levels, c.value.index)) else None
  }
}
