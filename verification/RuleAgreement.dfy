/**
 * Which rules are safe from interruption: exactly when, in every run of a server that starts with these
 * rules, every request that they match in the same way is answered as if its selection were never
 * interrupted. It can be read off the rules before any request is sent.
 */
module RuleAgreement {
  import opened Prelude
  import opened RuleScheduler
  import opened RuleRuns
  import opened RuleInterruption
  import opened RuleSequence
  import opened RuleLevels

  /** A matching rule that takes every request. */
  predicate Endless(rule: Rule, accepts: set<nat>) { rule.id in accepts && rule.Capacity().None? }

  predicate NoEndless(rules: seq<Rule>, accepts: set<nat>) {
    forall i :: 0 <= i < |rules| ==> !Endless(rules[i], accepts)
  }

  /** A matching rule with an explicit limit above zero. */
  predicate Limited(rule: Rule, accepts: set<nat>) {
    rule.id in accepts && rule.checker.Some? && rule.Capacity().Some? && rule.Capacity().value > 0
  }

  /** A limited rule comes after every default rule of the level. */
  predicate LimitedLast(rules: seq<Rule>, accepts: set<nat>, j: nat) {
    && j < |rules| && Limited(rules[j], accepts)
    && forall i :: 0 <= i < |rules| && Default(rules[i], accepts) ==> i < j
  }

  /** The level has a default rule to repeat, a limited rule after it, and nothing that never completes. */
  predicate CanPassOver(rules: seq<Rule>, accepts: set<nat>) {
    && !NoDefault(rules, accepts) && NoEndless(rules, accepts)
    && exists j :: 0 <= j < |rules| && LimitedLast(rules, accepts, j)
  }

  /** Such a level, below none but levels whose matching rules are all limited. */
  predicate PassesOverAt(sets: seq<seq<Rule>>, accepts: set<nat>, l: nat) {
    && l < |sets| && CanPassOver(sets[l], accepts)
    && forall h :: 0 <= h < l ==> NoDefault(sets[h], accepts) && NoEndless(sets[h], accepts)
  }

  /** After these events request k, which the rules match in this way, is about to get its answer. */
  ghost predicate Returns(sets: seq<seq<Rule>>, accepts: set<nat>, es: seq<Event>, k: nat) {
    && Possible(World(sets, []), es)
    && var w := Run(World(sets, []), es);
    && k < |w.requests| && Selecting(w.requests[k]) && w.requests[k].accepts == accepts
    && !Selecting(Resume(w.sets, w.requests[k]))
  }

  /** The answer is that of an uninterrupted selection made at that moment. */
  ghost predicate Agrees(sets: seq<seq<Rule>>, es: seq<Event>, k: nat)
    requires Possible(World(sets, []), es)
    requires var w := Run(World(sets, []), es); k < |w.requests| && Selecting(w.requests[k])
  {
    var w := Run(World(sets, []), es);
    Resume(w.sets, w.requests[k]) == Outcome(Find(w.sets, w.requests[k].accepts), 0)
  }

  // ---- What a selection that went on tells of the rules ----------------------------------------

  /** No candidate has the limit zero. */
  predicate Usable(rules: seq<Rule>, candidates: seq<nat>) {
    forall k :: 0 <= k < |candidates| && candidates[k] < |rules| ==> rules[candidates[k]].Capacity() != Some(0)
  }

  predicate Left(rules: seq<Rule>, accepts: set<nat>) { NoDefault(rules, accepts) || CanPassOver(rules, accepts) }

  predicate Told(sets: seq<seq<Rule>>, r: Request) {
    Selecting(r) ==>
      && r.level < |sets| && Usable(sets[r.level], r.candidates)
      && forall l :: 0 <= l < r.level ==> Left(sets[l], r.accepts)
  }

  predicate AllTold(w: World) { forall k :: 0 <= k < |w.requests| ==> Told(w.sets, w.requests[k]) }

  lemma CandidatesAreUsable(rules: seq<Rule>)
    ensures Usable(rules, Candidates(rules))
  {
    var candidates := Candidates(rules);
    forall k | 0 <= k < |candidates| && candidates[k] < |rules|
      ensures rules[candidates[k]].Capacity() != Some(0)
    {
      assert candidates[k] in candidates;
    }
  }

  lemma EnterIsTold(sets: seq<seq<Rule>>, accepts: set<nat>, level: nat)
    requires forall l :: 0 <= l < level && l < |sets| ==> Left(sets[l], accepts)
    ensures Told(sets, Enter(sets, accepts, level))
  {
    hide Left, Usable;
    if level < |sets| { CandidatesAreUsable(sets[level]); }
  }

  /** A level that a selection gave up on has no default rule, or one that can be passed over. */
  lemma GivenUpIsLeft(rules: seq<Rule>, accepts: set<nat>, candidates: seq<nat>)
    requires Indices(rules, candidates) && Covered(rules, candidates) && Usable(rules, candidates)
    requires ScannedOver(rules, accepts, candidates, |candidates|)
    requires var last := LastMatching(rules, accepts, candidates);
      last.None? || rules[last.value].IsComplete().Complete?
    ensures Left(rules, accepts)
  {
    ScannedAll(rules, accepts, candidates);
    LastMatchingIsLast(rules, accepts, candidates);
    if !NoDefault(rules, accepts) {
      var last := LastMatching(rules, accepts, candidates).value;
      assert LimitedLast(rules, accepts, last);
    }
  }

  lemma ResumeKeepsTold(sets: seq<seq<Rule>>, r: Request)
    requires WellFormed(sets, r) && Informed(sets, r) && Told(sets, r)
    ensures Told(sets, Resume(sets, r))
  {
    hide Left, Usable, Covered, ScannedOver;
    match r
    case Scanning(accepts, level, candidates, pos) =>
    case Filtering(accepts, level, candidates) =>
      if !Resume(sets, r).Chosen? {
        GivenUpIsLeft(sets[level], accepts, candidates);
        EnterIsTold(sets, accepts, level + 1);
      }
    case _ =>
  }

  /** All this is about ids and limits alone, so no counter changes it. */
  lemma StaticLevel(before: seq<Rule>, after: seq<Rule>, accepts: set<nat>)
    requires |before| == |after| && forall i :: 0 <= i < |before| ==> GrownRule(before[i], after[i])
    ensures NoDefault(before, accepts) == NoDefault(after, accepts)
    ensures NoEndless(before, accepts) == NoEndless(after, accepts)
    ensures CanPassOver(before, accepts) == CanPassOver(after, accepts)
  {
    forall i | 0 <= i < |before|
      ensures Default(before[i], accepts) == Default(after[i], accepts)
      ensures Endless(before[i], accepts) == Endless(after[i], accepts)
      ensures Limited(before[i], accepts) == Limited(after[i], accepts)
    {
      assert GrownRule(before[i], after[i]);
    }
    assert forall j :: 0 <= j < |before| ==> LimitedLast(before, accepts, j) == LimitedLast(after, accepts, j);
  }

  lemma GrowthKeepsTold(before: seq<seq<Rule>>, after: seq<seq<Rule>>, r: Request)
    requires Grown(before, after) && Told(before, r)
    ensures Told(after, r)
  {
    hide NoDefault, CanPassOver;
    if Selecting(r) {
      forall l | 0 <= l < r.level
        ensures Left(after[l], r.accepts)
      {
        assert forall i :: 0 <= i < |before[l]| ==> GrownRule(before[l][i], after[l][i]);
        StaticLevel(before[l], after[l], r.accepts);
      }
      assert forall i :: 0 <= i < |before[r.level]| ==> GrownRule(before[r.level][i], after[r.level][i]);
    }
  }

  lemma StepKeepsTold(w: World, e: Event)
    requires Valid(w) && (e.Advance? ==> e.k < |w.requests|) && AllInformed(w) && AllTold(w)
    ensures AllTold(Step(w, e))
  {
    hide Informed, Told, Resume, Grown, Enter;
    var n := Step(w, e);
    StepGrows(w, e);
    forall k | 0 <= k < |n.requests|
      ensures Told(n.sets, n.requests[k])
    {
      match e
      case Arrive(accepts) =>
        EnterIsTold(w.sets, accepts, 0);
        assert k < |w.requests| ==> Told(w.sets, w.requests[k]);
      case Advance(j) =>
        assert Told(w.sets, w.requests[k]) && Informed(w.sets, w.requests[k]);
        if k == j {
          ReturnedIsTold(n.sets, n.requests[k]);
          ResumeKeepsTold(w.sets, w.requests[k]);
        } else {
          GrowthKeepsTold(w.sets, n.sets, w.requests[k]);
        }
    }
  }

  lemma ReturnedIsTold(sets: seq<seq<Rule>>, r: Request)
    ensures !Selecting(r) ==> Told(sets, r)
  {
  }

  lemma {:induction false} RunKeepsTold(w: World, es: seq<Event>)
    requires Valid(w) && AllInformed(w) && AllTold(w) && Possible(w, es)
    ensures AllTold(Run(w, es))
    decreases |es|
  {
    hide AllInformed, AllTold, Step;
    if es != [] {
      StepKeepsValid(w, es[0]);
      StepKeepsInformed(w, es[0]);
      StepKeepsTold(w, es[0]);
      RunKeepsTold(Step(w, es[0]), es[1..]);
    }
  }

  // ---- Safe rules ------------------------------------------------------------------------------

  /** The first level with a default rule, where all levels up to it were given up on. */
  lemma {:induction false} FirstDefaultLevel(sets: seq<seq<Rule>>, accepts: set<nat>, passed: nat, l: nat)
    returns (first: nat)
    requires l < passed <= |sets| && Passed(sets, accepts, passed) && !NoDefault(sets[l], accepts)
    requires forall h :: 0 <= h < passed ==> Left(sets[h], accepts)
    ensures PassesOverAt(sets, accepts, first)
  {
    hide NoDefault, NoEndless, CanPassOver, NoneOpen;
    if h :| 0 <= h < l && !NoDefault(sets[h], accepts) {
      first := FirstDefaultLevel(sets, accepts, passed, h);
    } else {
      first := l;
      forall h | 0 <= h < l
        ensures NoEndless(sets[h], accepts)
      {
        ClosedIsNotEndless(sets[h], accepts);
      }
    }
  }

  lemma ClosedIsNotEndless(rules: seq<Rule>, accepts: set<nat>)
    requires NoneOpen(rules, accepts)
    ensures NoEndless(rules, accepts)
  {
  }

  /** A wrong answer shows that some level is one where a default rule can be passed over. */
  lemma WrongAnswerTells(sets: seq<seq<Rule>>, r: Request) returns (first: nat)
    requires WellFormed(sets, r) && Informed(sets, r) && Told(sets, r) && Selecting(r) && !Selecting(Resume(sets, r))
    requires Resume(sets, r) != Outcome(Find(sets, r.accepts), 0)
    ensures PassesOverAt(sets, r.accepts, first)
  {
    hide PickFrom, Covered, ScannedOver, Usable, Left, Find, NoneOpen;
    var passed := LevelsPassed(sets, Resume(sets, r));
    ReturnAgreesIffNothingRepeats(sets, r);
    ResumePasses(sets, r);
    var l, i :| 0 <= l < passed && l < |sets| && 0 <= i < |sets[l]| && sets[l][i].id in r.accepts
      && sets[l][i].IsComplete().Maybe?;
    assert Default(sets[l][i], r.accepts);
    if r.Filtering? && !Resume(sets, r).Chosen? { GivenUpIsLeft(sets[r.level], r.accepts, r.candidates); }
    first := FirstDefaultLevel(sets, r.accepts, passed, l);
  }

  lemma StaticPassesOver(before: seq<seq<Rule>>, after: seq<seq<Rule>>, accepts: set<nat>, l: nat)
    requires Grown(before, after)
    ensures PassesOverAt(before, accepts, l) == PassesOverAt(after, accepts, l)
  {
    hide CanPassOver, NoDefault, NoEndless;
    if l < |before| {
      forall h | 0 <= h <= l
        ensures NoDefault(before[h], accepts) == NoDefault(after[h], accepts)
        ensures NoEndless(before[h], accepts) == NoEndless(after[h], accepts)
        ensures CanPassOver(before[h], accepts) == CanPassOver(after[h], accepts)
      {
        assert forall i :: 0 <= i < |before[h]| ==> GrownRule(before[h][i], after[h][i]);
        StaticLevel(before[h], after[h], accepts);
      }
    }
  }

  // ---- Unsafe rules ----------------------------------------------------------------------------

  lemma {:induction false} EndlessFree(rules: seq<Rule>, accepts: set<nat>, j: nat)
    requires NoEndless(rules, accepts) && j <= |rules|
    ensures Prefix(rules, accepts, j).Some?
  {
    if j > 0 { EndlessFree(rules, accepts, j - 1); }
  }

  /** The last request that still finds a rule of the level with room left finds one after all default rules. */
  lemma LastRoomIsAfterDefaults(rules: seq<Rule>, accepts: set<nat>, i: nat)
    requires CanPassOver(rules, accepts)
    requires Prefix(rules, accepts, |rules|).Some? && Prefix(rules, accepts, |rules|).value > 0
    requires Owns(rules, accepts, i, Prefix(rules, accepts, |rules|).value - 1)
    ensures forall d :: 0 <= d < |rules| && Default(rules[d], accepts) ==> d < i
    ensures rules[i].id in accepts && rules[i].checker.Some?
  {
    var j :| 0 <= j < |rules| && LimitedLast(rules, accepts, j);
    PrefixGrows(rules, accepts, j + 1, |rules|);
    if i < j { PrefixGrows(rules, accepts, i + 1, j); }
    BelowOwnerIsDone(rules, accepts, i, Prefix(rules, accepts, |rules|).value - 1, i);
  }

  lemma DefaultHasRoom(rules: seq<Rule>, accepts: set<nat>)
    requires !NoDefault(rules, accepts) && Prefix(rules, accepts, |rules|).Some?
    ensures Prefix(rules, accepts, |rules|).value > 0
  {
    var d :| 0 <= d < |rules| && Default(rules[d], accepts);
    PrefixGrows(rules, accepts, d + 1, |rules|);
  }

  lemma {:induction false} LevelsAboveHaveRoom(sets: seq<seq<Rule>>, accepts: set<nat>, l: nat)
    requires l <= |sets| && forall h :: 0 <= h < l ==> NoDefault(sets[h], accepts) && NoEndless(sets[h], accepts)
    ensures LevelsRoom(sets, accepts, l).Some?
  {
    hide NoDefault, NoEndless;
    if l > 0 {
      LevelsAboveHaveRoom(sets, accepts, l - 1);
      EndlessFree(sets[l - 1], accepts, |sets[l - 1]|);
    }
  }

  /** A level that has a rule for every request is where requests end up. */
  lemma EndsUpHere(sets: seq<seq<Rule>>, accepts: set<nat>, k: nat, l: nat, target: Option<Choice>)
    requires ServesAt(sets, accepts, k, target) && l < |sets| && LevelRoom(sets[l], accepts).None?
    requires LevelsRoom(sets, accepts, l).Some? && LevelsRoom(sets, accepts, l).value <= k
    ensures target.Some? && target.value.level == l
  {
    hide Serves, LevelRoom;
    var x := if target.Some? then target.value.level else |sets|;
    if x < l {
      LevelsRoomGrows(sets, accepts, x + 1, l);
    } else if x > l {
      LevelsRoomGrows(sets, accepts, l + 1, x);
    }
  }

  lemma LevelHasRoom(rules: seq<Rule>, accepts: set<nat>) returns (total: nat)
    requires CanPassOver(rules, accepts)
    ensures Prefix(rules, accepts, |rules|) == Some(total) && total > 0 && LevelRoom(rules, accepts).None?
  {
    EndlessFree(rules, accepts, |rules|);
    DefaultHasRoom(rules, accepts);
    total := Prefix(rules, accepts, |rules|).value;
  }

  lemma FullServesDefault(rules: seq<Rule>, accepts: set<nat>, total: nat, d: nat)
    requires Prefix(rules, accepts, |rules|) == Some(total) && Serves(rules, accepts, total, Some(d))
    ensures LastDefault(rules, accepts, d)
  {
    if Owns(rules, accepts, d, total) { PrefixGrows(rules, accepts, d + 1, |rules|); }
  }

  /** With one place left on the level, that is where an uninterrupted selection goes. */
  lemma OnePlaceLeft(sets: seq<seq<Rule>>, accepts: set<nat>, l: nat) returns (n: nat, i: nat, total: nat)
    requires PassesOverAt(sets, accepts, l)
    ensures Prefix(sets[l], accepts, |sets[l]|) == Some(total) && total > 0 && Owns(sets[l], accepts, i, total - 1)
    ensures LevelServed(sets, accepts, l, n) == total - 1 && LevelServed(sets, accepts, l, n + 1) == total
    ensures Find(SetsAt(sets, accepts, n), accepts) == Some(Choice(l, i))
    ensures var next := Find(SetsAt(sets, accepts, n + 1), accepts);
      next.Some? && next.value.level == l && LastDefault(sets[l], accepts, next.value.index)
  {
    hide CanPassOver, NoEndless, Find, SetsAt, NoDefault, LevelRoom;
    total := LevelHasRoom(sets[l], accepts);
    LevelsAboveHaveRoom(sets, accepts, l);
    n := LevelsRoom(sets, accepts, l).value + total - 1;
    FindIsServesAt(sets, accepts, n);
    FindIsServesAt(sets, accepts, n + 1);
    EndsUpHere(sets, accepts, n, l, Find(SetsAt(sets, accepts, n), accepts));
    EndsUpHere(sets, accepts, n + 1, l, Find(SetsAt(sets, accepts, n + 1), accepts));
    i := Find(SetsAt(sets, accepts, n), accepts).value.index;
    FullServesDefault(sets[l], accepts, total, Find(SetsAt(sets, accepts, n + 1), accepts).value.index);
  }

  lemma FullLevelIsClosed(rules: seq<Rule>, accepts: set<nat>, total: nat)
    requires Prefix(rules, accepts, |rules|) == Some(total)
    ensures NoneOpen(AtCounts(rules, accepts, total), accepts)
    ensures var now := AtCounts(rules, accepts, total);
      forall i :: 0 <= i < |rules| && now[i].id in accepts && !Default(rules[i], accepts)
        ==> now[i].IsComplete().Complete?
  {
    forall i | 0 <= i < |rules| && rules[i].id in accepts
      ensures AtCounts(rules, accepts, total)[i].IsComplete() == if rules[i].checker.None? then Maybe else Complete
    {
      BeyondAllIsDone(rules, accepts, total, i);
    }
  }

  lemma NothingToTake(now: seq<Rule>, accepts: set<nat>, candidates: seq<nat>)
    requires Indices(now, candidates) && NoneOpen(now, accepts)
    ensures Scan(now, accepts, candidates).None?
  {
    ScanIsFirst(now, accepts, candidates);
  }

  /** After the last place was taken, the last matching candidate is a completed rule. */
  lemma LastIsComplete(rules: seq<Rule>, accepts: set<nat>, candidates: seq<nat>, i: nat, total: nat)
    requires CanPassOver(rules, accepts) && i in candidates
    requires Prefix(rules, accepts, |rules|) == Some(total) && total > 0 && Owns(rules, accepts, i, total - 1)
    requires Indices(AtCounts(rules, accepts, total), candidates)
    ensures var now := AtCounts(rules, accepts, total);
      var last := LastMatching(now, accepts, candidates);
      last.Some? && now[last.value].IsComplete().Complete?
  {
    hide CanPassOver, Prefix, LastMatching, Served;
    LastRoomIsAfterDefaults(rules, accepts, i);
    FullLevelIsClosed(rules, accepts, total);
    LastMatchingIsLast(AtCounts(rules, accepts, total), accepts, candidates);
  }

  lemma FinishFilter(sets: seq<seq<Rule>>, accepts: set<nat>, level: nat, candidates: seq<nat>)
    requires level < |sets| && Indices(sets[level], candidates)
    requires var last := LastMatching(sets[level], accepts, candidates);
      last.Some? && sets[level][last.value].IsComplete().Complete?
    ensures Finish(sets, Filtering(accepts, level, candidates)) == Outcome(Find(sets[level + 1..], accepts), level + 1)
  {
    hide LastMatching, Find, Enter;
    UninterruptedIsFind(sets, accepts, level + 1);
  }

  /** A selection that stands at the last place left, when that is taken, gives up on the level. */
  lemma StandingPassesOver(sets: seq<seq<Rule>>, rules: seq<Rule>, r: Request, i: nat, total: nat)
    requires WellFormed(sets, r) && r.Scanning? && r.candidates[r.pos] == i
    requires CanPassOver(rules, r.accepts) && sets[r.level] == AtCounts(rules, r.accepts, total)
    requires Prefix(rules, r.accepts, |rules|) == Some(total) && total > 0 && Owns(rules, r.accepts, i, total - 1)
    ensures Finish(sets, r) == Outcome(Find(sets[r.level + 1..], r.accepts), r.level + 1)
  {
    hide CanPassOver, Prefix, Owns, AtCounts, Find, LastMatching, Scan, Finish, NoneOpen;
    FullLevelIsClosed(rules, r.accepts, total);
    NothingToTake(sets[r.level], r.accepts, r.candidates[r.pos..]);
    FinishScan(sets, r.accepts, r.level, r.candidates, r.pos);
    LastIsComplete(rules, r.accepts, r.candidates, i, total);
    FinishFilter(sets, r.accepts, r.level, r.candidates);
  }

  /** A selection about to be handed the rule that is open stands right at it. */
  lemma StandsAtOpenRule(sets: seq<seq<Rule>>, r: Request, l: nat, i: nat)
    requires WellFormed(sets, r) && Informed(sets, r) && Selecting(r) && Resume(sets, r) == Chosen(Choice(l, i))
    requires l < |sets| && i < |sets[l]| && sets[l][i].id in r.accepts && sets[l][i].IsComplete().Incomplete?
    ensures r.Scanning? && r.level == l && r.candidates[r.pos] == i
  {
    hide LastMatching;
    if r.Filtering? {
      ScannedAll(sets[r.level], r.accepts, r.candidates);
    }
  }

  lemma PassesOverHere(sets: seq<seq<Rule>>, accepts: set<nat>, l: nat)
    requires PassesOverAt(sets, accepts, l)
    ensures l < |sets| && CanPassOver(sets[l], accepts)
  {
  }

  lemma PlaceIsOpen(sets: seq<seq<Rule>>, accepts: set<nat>, l: nat, n: nat, i: nat, total: nat)
    requires l < |sets| && total > 0 && Owns(sets[l], accepts, i, total - 1)
    requires LevelServed(sets, accepts, l, n) == total - 1
    ensures var now := SetsAt(sets, accepts, n)[l];
      i < |now| && now[i].id in accepts && now[i].IsComplete().Incomplete?
  {
    BelowOwnerIsDone(sets[l], accepts, i, total - 1, i);
  }

  lemma PlaceIsTaken(sets: seq<seq<Rule>>, accepts: set<nat>, l: nat, n: nat, total: nat)
    requires l < |sets| && LevelServed(sets, accepts, l, n + 1) == total
    ensures SetsAt(sets, accepts, n + 1)[l] == AtCounts(sets[l], accepts, total)
  {
  }

  /** A run in which a selection waits at the last place left. */
  lemma WaitsAtLastPlace(sets: seq<seq<Rule>>, accepts: set<nat>, l: nat, n: nat, i: nat, total: nat)
    returns (es: seq<Event>, w: World, k: nat)
    requires AllFresh(sets) && l < |sets| && total > 0 && Owns(sets[l], accepts, i, total - 1)
    requires LevelServed(sets, accepts, l, n) == total - 1
    requires Find(SetsAt(sets, accepts, n), accepts) == Some(Choice(l, i))
    ensures Possible(World(sets, []), es) && Run(World(sets, []), es) == w && Valid(w)
    ensures w.sets == SetsAt(sets, accepts, n) && k < |w.requests|
    ensures var r := w.requests[k]; r.Scanning? && r.accepts == accepts && r.level == l && r.candidates[r.pos] == i
  {
    hide Possible, Run, Find, Finish, Resume, SetsAt, Owns, Informed;
    var start := World(sets, []);
    var before: seq<Event>;
    before, w := ServedInTurn(start, accepts, n);
    SequentialRunsOverLevels(sets, accepts, n);
    k := |w.requests|;
    RunOne(w, Arrive(accepts));
    StepKeepsValid(w, Arrive(accepts));
    RunAppend(start, before, [Arrive(accepts)]);
    UninterruptedIsFind(w.sets, accepts, 0);
    assert w.sets[0..] == w.sets;
    var arrived := Step(w, Arrive(accepts));
    var moves, r := ComesToReturn(arrived, k);
    w := arrived.(requests := arrived.requests[k := r]);
    RunAppend(start, before + [Arrive(accepts)], moves);
    es := before + [Arrive(accepts)] + moves;
    RunKeepsInformed(start, es);
    assert w.requests[k] == r && Informed(w.sets, w.requests[k]);
    PlaceIsOpen(sets, accepts, l, n, i, total);
    StandsAtOpenRule(w.sets, r, l, i);
  }

  /**
   * The request that is answered wrongly, and the run that leads to it from a server that has seen
   * nothing: the last default rule of the level should answer it, but it goes on to the levels below.
   */
  lemma PassedOver(sets: seq<seq<Rule>>, accepts: set<nat>, l: nat) returns (es: seq<Event>, k: nat, d: nat)
    requires AllFresh(sets) && PassesOverAt(sets, accepts, l)
    ensures Returns(sets, accepts, es, k) && !Agrees(sets, es, k)
    ensures var w := Run(World(sets, []), es);
      && LastDefault(sets[l], accepts, d) && Find(w.sets, accepts) == Some(Choice(l, d)) && |w.sets| == |sets|
      && Resume(w.sets, w.requests[k]) == Outcome(Find(w.sets[l + 1..], accepts), l + 1)
  {
    hide Possible, Run, Find, Finish, Resume, SetsAt, CanPassOver, Owns, PassesOverAt, LastDefault;
    PassesOverHere(sets, accepts, l);
    var start := World(sets, []);
    var n, i, total := OnePlaceLeft(sets, accepts, l);
    var waiting: World;
    es, waiting, k := WaitsAtLastPlace(sets, accepts, l, n, i, total);
    var r := waiting.requests[k];
    var other, taken := ServedAlone(waiting, accepts);
    RunAppend(start, es, other);
    es := es + other;
    assert taken.requests[k] == taken.requests[..|waiting.requests|][k] == r;
    FindIsServesAt(sets, accepts, n);
    CountAdvances(sets, accepts, n, Some(Choice(l, i)));
    PlaceIsTaken(sets, accepts, l, n, total);
    StandingPassesOver(taken.sets, sets[l], r, i, total);
    var end, last := ComesToReturn(taken, k);
    RunAppend(start, es, end);
    es := es + end;
    d := Find(taken.sets, accepts).value.index;
  }

  /**
   * For every such list of rules on a server of its own: a run from the beginning that leaves a request
   * unmatched which the last default rule would answer.
   */
  lemma InterruptionSkipsDefaultRule(rules: seq<Rule>, accepts: set<nat>) returns (es: seq<Event>, k: nat, d: nat)
    requires Fresh(rules) && CanPassOver(rules, accepts)
    ensures LastDefault(rules, accepts, d) && Possible(World([rules], []), es)
    ensures var after := Run(World([rules], []), es);
      k < |after.requests| && after.requests[k] == Unmatched && Find(after.sets, accepts) == Some(Choice(0, d))
  {
    hide Possible, Run, Resume, Fresh, CanPassOver, LastDefault, PickFrom;
    assert PassesOverAt([rules], accepts, 0);
    es, k, d := PassedOver([rules], accepts, 0);
    var w := Run(World([rules], []), es);
    assert w.sets[1..] == [];
    RunOne(w, Advance(k));
    RunAppend(World([rules], []), es, [Advance(k)]);
    es := es + [Advance(k)];
  }

  lemma RunTells(sets: seq<seq<Rule>>, accepts: set<nat>, es: seq<Event>, k: nat) returns (first: nat)
    requires Returns(sets, accepts, es, k) && !Agrees(sets, es, k)
    ensures PassesOverAt(sets, accepts, first)
  {
    hide PassesOverAt, Possible, Run, Resume, Find, Informed, Told, Grown;
    RunKeepsInformed(World(sets, []), es);
    RunKeepsTold(World(sets, []), es);
    RunGrows(World(sets, []), es);
    var w := Run(World(sets, []), es);
    assert Informed(w.sets, w.requests[k]) && Told(w.sets, w.requests[k]) && WellFormed(w.sets, w.requests[k]);
    first := WrongAnswerTells(w.sets, w.requests[k]);
    StaticPassesOver(sets, w.sets, accepts, first);
  }

  /**
   * For rules that have seen nothing and requests that they match in one way: in every interleaving with
   * whatever other requests, every such request is answered as an uninterrupted selection would answer
   * it at that moment, exactly unless some level holds a matching default rule, after all of those a
   * matching limited rule, no matching always() rule, and only limited matching rules lie above it.
   */
  lemma SelectionsAgreeIff(sets: seq<seq<Rule>>, accepts: set<nat>)
    requires AllFresh(sets)
    ensures (forall es, k :: Returns(sets, accepts, es, k) ==> Agrees(sets, es, k))
      <==> !exists l :: PassesOverAt(sets, accepts, l)
  {
    hide PassesOverAt, Possible, Run, Resume, Find, AllInformed, AllTold;
    if l :| PassesOverAt(sets, accepts, l) {
      var es, k, d := PassedOver(sets, accepts, l);
    } else {
      forall es, k | Returns(sets, accepts, es, k)
        ensures Agrees(sets, es, k)
      {
        if !Agrees(sets, es, k) {
          var first := RunTells(sets, accepts, es, k);
          assert false;
        }
      }
    }
  }
}
