/**
 * What interruption does to a selection: in every interleaving, when exactly the rule returned is the
 * one an uninterrupted selection would return at that moment.
 */
module RuleInterruption {
  import opened Prelude
  import opened RuleScheduler
  import opened RuleRuns

  // ---- What a suspended selection knows --------------------------------------------------------

  /** Every rule that is not complete is among the candidates. */
  predicate Covered(rules: seq<Rule>, candidates: seq<nat>) {
    forall i :: 0 <= i < |rules| && !rules[i].IsComplete().Complete? ==> i in candidates
  }

  /** No matching rule is incomplete. */
  predicate NoneOpen(rules: seq<Rule>, accepts: set<nat>) {
    forall i :: 0 <= i < |rules| && rules[i].id in accepts ==> !rules[i].IsComplete().Incomplete?
  }

  /** None of the candidates scanned so far is both matching and incomplete. */
  predicate ScannedOver(rules: seq<Rule>, accepts: set<nat>, candidates: seq<nat>, pos: nat) {
    && pos <= |candidates|
    && forall k :: 0 <= k < pos && candidates[k] < |rules| && rules[candidates[k]].id in accepts
         ==> !rules[candidates[k]].IsComplete().Incomplete?
  }

  predicate Passed(sets: seq<seq<Rule>>, accepts: set<nat>, level: nat) {
    forall l :: 0 <= l < level && l < |sets| ==> NoneOpen(sets[l], accepts)
  }

  predicate Informed(sets: seq<seq<Rule>>, r: Request) {
    match r
    case Scanning(accepts, level, candidates, pos) =>
      && level < |sets| && Covered(sets[level], candidates)
      && ScannedOver(sets[level], accepts, candidates, pos) && Passed(sets, accepts, level)
    case Filtering(accepts, level, candidates) =>
      && level < |sets| && Covered(sets[level], candidates)
      && ScannedOver(sets[level], accepts, candidates, |candidates|) && Passed(sets, accepts, level)
    case _ => true
  }

  predicate AllInformed(w: World) { forall k :: 0 <= k < |w.requests| ==> Informed(w.sets, w.requests[k]) }

  /** Having scanned all candidates, a selection knows that no matching rule of the level is incomplete. */
  lemma ScannedAll(rules: seq<Rule>, accepts: set<nat>, candidates: seq<nat>)
    requires Indices(rules, candidates) && Covered(rules, candidates)
    requires ScannedOver(rules, accepts, candidates, |candidates|)
    ensures NoneOpen(rules, accepts)
  {
    forall i | 0 <= i < |rules| && rules[i].id in accepts
      ensures !rules[i].IsComplete().Incomplete?
    {
      if !rules[i].IsComplete().Complete? {
        var k :| 0 <= k < |candidates| && candidates[k] == i;
      }
    }
  }

  // ---- Every interleaving keeps it -------------------------------------------------------------

  lemma GrowthKeepsNoneOpen(before: seq<Rule>, after: seq<Rule>, accepts: set<nat>)
    requires |before| == |after| && forall i :: 0 <= i < |before| ==> GrownRule(before[i], after[i])
    requires NoneOpen(before, accepts)
    ensures NoneOpen(after, accepts)
  {
    forall i | 0 <= i < |after| && after[i].id in accepts
      ensures !after[i].IsComplete().Incomplete?
    {
      assert GrownRule(before[i], after[i]) && !before[i].IsComplete().Incomplete?;
    }
  }

  lemma GrowthKeepsLevel(before: seq<Rule>, after: seq<Rule>, accepts: set<nat>, candidates: seq<nat>, pos: nat)
    requires |before| == |after| && forall i :: 0 <= i < |before| ==> GrownRule(before[i], after[i])
    requires Covered(before, candidates) && ScannedOver(before, accepts, candidates, pos)
    ensures Covered(after, candidates) && ScannedOver(after, accepts, candidates, pos)
  {
    forall i | 0 <= i < |after| && !after[i].IsComplete().Complete?
      ensures i in candidates
    {
      assert GrownRule(before[i], after[i]) && !before[i].IsComplete().Complete?;
    }
    forall k | 0 <= k < pos && candidates[k] < |after| && after[candidates[k]].id in accepts
      ensures !after[candidates[k]].IsComplete().Incomplete?
    {
      var i := candidates[k];
      assert GrownRule(before[i], after[i]) && !before[i].IsComplete().Incomplete?;
    }
  }

  lemma GrowthKeepsInformed(before: seq<seq<Rule>>, after: seq<seq<Rule>>, r: Request)
    requires Grown(before, after) && Informed(before, r)
    ensures Informed(after, r)
  {
    hide Covered, ScannedOver, NoneOpen;
    if Selecting(r) {
      forall l | 0 <= l < r.level && l < |after|
        ensures NoneOpen(after[l], r.accepts)
      {
        GrowthKeepsNoneOpen(before[l], after[l], r.accepts);
      }
      var pos := if r.Scanning? then r.pos else |r.candidates|;
      GrowthKeepsLevel(before[r.level], after[r.level], r.accepts, r.candidates, pos);
    }
  }

  lemma EnterIsInformed(sets: seq<seq<Rule>>, accepts: set<nat>, level: nat)
    requires Passed(sets, accepts, level)
    ensures Informed(sets, Enter(sets, accepts, level))
  {
    hide NoneOpen;
  }

  lemma ResumeKeepsInformed(sets: seq<seq<Rule>>, r: Request)
    requires WellFormed(sets, r) && Informed(sets, r)
    ensures Informed(sets, Resume(sets, r))
  {
    match r
    case Scanning(accepts, level, candidates, pos) =>
    case Filtering(accepts, level, candidates) =>
      ScannedAll(sets[level], accepts, candidates);
      EnterIsInformed(sets, accepts, level + 1);
    case _ =>
  }

  lemma StepKeepsInformed(w: World, e: Event)
    requires Valid(w) && (e.Advance? ==> e.k < |w.requests|) && AllInformed(w)
    ensures AllInformed(Step(w, e))
  {
    hide Informed, Resume, Grown, Enter;
    var n := Step(w, e);
    StepGrows(w, e);
    forall k | 0 <= k < |n.requests|
      ensures Informed(n.sets, n.requests[k])
    {
      match e
      case Arrive(accepts) =>
        EnterIsInformed(w.sets, accepts, 0);
        assert k < |w.requests| ==> Informed(w.sets, w.requests[k]);
      case Advance(j) =>
        assert Informed(w.sets, w.requests[k]);
        if k == j {
          HandledIsInformed(n.sets, n.requests[k]);
          ResumeKeepsInformed(w.sets, w.requests[k]);
        } else {
          GrowthKeepsInformed(w.sets, n.sets, w.requests[k]);
        }
    }
  }

  lemma HandledIsInformed(sets: seq<seq<Rule>>, r: Request)
    ensures r.Handled? ==> Informed(sets, r)
  {
  }

  lemma {:induction false} RunKeepsInformed(w: World, es: seq<Event>)
    requires Valid(w) && AllInformed(w) && Possible(w, es)
    ensures AllInformed(Run(w, es))
    decreases |es|
  {
    hide AllInformed, Step;
    if es != [] {
      StepKeepsValid(w, es[0]);
      StepKeepsInformed(w, es[0]);
      RunKeepsInformed(Step(w, es[0]), es[1..]);
    }
  }

  // ---- What a selection returns ----------------------------------------------------------------

  lemma OnlyPick(rules: seq<Rule>, accepts: set<nat>, i: nat)
    requires Picks(rules, accepts, i)
    ensures PickFrom(rules, accepts) == Some(i)
  {
    hide PickFrom, Picks, Exhausted;
    PickFromMeetsIntent(rules, accepts);
    PicksIsUnique(rules, accepts, i, i);
    if PickFrom(rules, accepts).Some? { PicksIsUnique(rules, accepts, i, PickFrom(rules, accepts).value); }
  }

  lemma ScanReturnsPick(rules: seq<Rule>, accepts: set<nat>, candidates: seq<nat>, pos: nat)
    requires Indices(rules, candidates) && pos < |candidates|
    requires Covered(rules, candidates) && ScannedOver(rules, accepts, candidates, pos)
    requires rules[candidates[pos]].id in accepts && rules[candidates[pos]].IsComplete().Incomplete?
    ensures Picks(rules, accepts, candidates[pos])
  {
    forall j | 0 <= j < candidates[pos] && rules[j].id in accepts
      ensures !rules[j].IsComplete().Incomplete?
    {
      if !rules[j].IsComplete().Complete? {
        var k :| 0 <= k < |candidates| && candidates[k] == j;
        assert k < pos;
      }
    }
  }

  lemma FilterReturnsPick(rules: seq<Rule>, accepts: set<nat>, candidates: seq<nat>)
    requires Indices(rules, candidates) && Covered(rules, candidates)
    requires ScannedOver(rules, accepts, candidates, |candidates|)
    requires var last := LastMatching(rules, accepts, candidates);
      last.Some? && !rules[last.value].IsComplete().Complete?
    ensures Picks(rules, accepts, LastMatching(rules, accepts, candidates).value)
  {
    ScannedAll(rules, accepts, candidates);
    LastMatchingIsLast(rules, accepts, candidates);
  }

  /** The rule returned is the one its own level has for the request at that moment. */
  lemma ReturnIsPickOfItsLevel(sets: seq<seq<Rule>>, r: Request)
    requires WellFormed(sets, r) && Informed(sets, r) && Selecting(r) && Resume(sets, r).Chosen?
    ensures var c := Resume(sets, r).choice;
      c.level == r.level && PickFrom(sets[c.level], r.accepts) == Some(c.index)
  {
    hide PickFrom, Picks, Covered, ScannedOver, Candidates;
    var rules, c := sets[r.level], Resume(sets, r).choice;
    match r
    case Scanning(accepts, level, candidates, pos) =>
      ScanReturnsPick(rules, accepts, candidates, pos);
      OnlyPick(rules, accepts, c.index);
    case Filtering(accepts, level, candidates) =>
      FilterReturnsPick(rules, accepts, candidates);
      OnlyPick(rules, accepts, c.index);
  }

  /** No level above the given one holds a matching default rule that has been used and could repeat. */
  predicate NothingRepeats(sets: seq<seq<Rule>>, accepts: set<nat>, level: nat) {
    forall l, i :: 0 <= l < level && l < |sets| && 0 <= i < |sets[l]| && sets[l][i].id in accepts
      ==> !sets[l][i].IsComplete().Maybe?
  }

  /** Where no matching rule is incomplete, exhausted means that none repeats. */
  lemma ExhaustedIffNothingRepeats(rules: seq<Rule>, accepts: set<nat>)
    requires NoneOpen(rules, accepts)
    ensures Exhausted(rules, accepts)
      <==> forall i :: 0 <= i < |rules| && rules[i].id in accepts ==> !rules[i].IsComplete().Maybe?
  {
  }

  lemma PassedLevels(sets: seq<seq<Rule>>, accepts: set<nat>, level: nat)
    requires Passed(sets, accepts, level) && level <= |sets|
    ensures (forall l :: 0 <= l < level ==> Exhausted(sets[l], accepts)) <==> NothingRepeats(sets, accepts, level)
  {
    hide NoneOpen, Exhausted;
    forall l | 0 <= l < level
      ensures Exhausted(sets[l], accepts)
        <==> forall i :: 0 <= i < |sets[l]| && sets[l][i].id in accepts ==> !sets[l][i].IsComplete().Maybe?
    {
      ExhaustedIffNothingRepeats(sets[l], accepts);
    }
  }

  /** How many levels a selection has given up on by the time it returns. */
  function LevelsPassed(sets: seq<seq<Rule>>, returned: Request): nat
  {
    if returned.Chosen? then returned.choice.level else |sets|
  }

  lemma ReturnAgreesIffNothingRepeats(sets: seq<seq<Rule>>, r: Request)
    requires WellFormed(sets, r) && Informed(sets, r) && Selecting(r) && !Selecting(Resume(sets, r))
    ensures Resume(sets, r) == Outcome(Find(sets, r.accepts), 0)
      <==> NothingRepeats(sets, r.accepts, LevelsPassed(sets, Resume(sets, r)))
  {
    hide NoneOpen, NothingRepeats, PickFrom, Covered, ScannedOver;
    var n := Resume(sets, r);
    var level := LevelsPassed(sets, n);
    FindMeetsIntent(sets, r.accepts);
    ResumePasses(sets, r);
    PassedLevels(sets, r.accepts, level);
    if n.Chosen? {
      ReturnIsPickOfItsLevel(sets, r);
      PickFromMeetsIntent(sets[level], r.accepts);
      PicksIsUnique(sets[level], r.accepts, n.choice.index, n.choice.index);
      var found := Find(sets, r.accepts).value;
      if found.level == level {
        PicksIsUnique(sets[level], r.accepts, n.choice.index, found.index);
      }
      if found.level < level {
        PicksIsUnique(sets[found.level], r.accepts, found.index, found.index);
      }
    }
  }

  lemma ResumePasses(sets: seq<seq<Rule>>, r: Request)
    requires WellFormed(sets, r) && Informed(sets, r) && Selecting(r) && !Selecting(Resume(sets, r))
    ensures LevelsPassed(sets, Resume(sets, r)) <= |sets|
    ensures Passed(sets, r.accepts, LevelsPassed(sets, Resume(sets, r)))
  {
    if r.Filtering? { ScannedAll(sets[r.level], r.accepts, r.candidates); }
  }

  // ---- Over every interleaving -----------------------------------------------------------------

  /**
   * In every interleaving, whenever a selection returns: a rule it returns is exactly the choice of its
   * own level at that moment, and its answer is exactly what an uninterrupted selection would give
   * then if and only if no level it gave up on holds a matching default rule that could repeat.
   */
  lemma InterleavedSelection(sets: seq<seq<Rule>>, es: seq<Event>, k: nat)
    requires Possible(World(sets, []), es)
    requires var w := Run(World(sets, []), es);
      k < |w.requests| && Selecting(w.requests[k]) && !Selecting(Resume(w.sets, w.requests[k]))
    ensures var w := Run(World(sets, []), es); var r := w.requests[k]; var n := Resume(w.sets, r);
      && (n.Chosen? ==> n.choice.level == r.level && PickFrom(w.sets[r.level], r.accepts) == Some(n.choice.index))
      && (n == Outcome(Find(w.sets, r.accepts), 0) <==> NothingRepeats(w.sets, r.accepts, LevelsPassed(w.sets, n)))
  {
    hide Informed, NothingRepeats, PickFrom, Resume, Run, Find;
    RunKeepsInformed(World(sets, []), es);
    var w := Run(World(sets, []), es);
    var r := w.requests[k];
    if Resume(w.sets, r).Chosen? { ReturnIsPickOfItsLevel(w.sets, r); }
    ReturnAgreesIffNothingRepeats(w.sets, r);
  }

  /**
   * In every interleaving, the last filter of a level agrees with an uninterrupted selection on that
   * level at that moment exactly unless the last matching candidate has completed while a matching
   * default rule is there to repeat.
   */
  lemma FilterAgreesInEveryRun(sets: seq<seq<Rule>>, es: seq<Event>, k: nat)
    requires Possible(World(sets, []), es)
    requires var w := Run(World(sets, []), es); k < |w.requests| && w.requests[k].Filtering?
    ensures var w := Run(World(sets, []), es); var r := w.requests[k];
      var rules := w.sets[r.level];
      var last := LastMatching(rules, r.accepts, r.candidates);
      var skipped := last.Some? && rules[last.value].IsComplete().Complete?;
      var repeats := exists i :: 0 <= i < |rules| && rules[i].id in r.accepts && rules[i].IsComplete().Maybe?;
      (if skipped then None else last) == PickFrom(rules, r.accepts) <==> !(skipped && repeats)
  {
    hide PickFrom, LastMatching, Run;
    RunKeepsInformed(World(sets, []), es);
    var w := Run(World(sets, []), es);
    var r := w.requests[k];
    assert Informed(w.sets, r) && WellFormed(w.sets, r);
    ScannedAll(w.sets[r.level], r.accepts, r.candidates);
    FilterAgreesUnlessLastCompleted(w.sets[r.level], r.accepts, r.candidates);
  }
}
