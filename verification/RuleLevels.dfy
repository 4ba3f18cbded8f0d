/**
 * Like requests one after another over all priorities: the k-th of them in closed form, every counter
 * after them, and that runs of the server in which they come one by one do exactly this.
 */
module RuleLevels {
  import opened Prelude
  import opened RuleScheduler
  import opened RuleRuns
  import opened RuleSequence

  /** What a level takes before selections go on to the next; None if it has a rule for every request. */
  function LevelRoom(rules: seq<Rule>, accepts: set<nat>): Option<nat> {
    if NoDefault(rules, accepts) then Prefix(rules, accepts, |rules|) else None
  }

  /** The total room of the first levels. */
  function LevelsRoom(sets: seq<seq<Rule>>, accepts: set<nat>, l: nat): Option<nat>
    requires l <= |sets|
  {
    if l == 0 then Some(0)
    else
      var before, here := LevelsRoom(sets, accepts, l - 1), LevelRoom(sets[l - 1], accepts);
      if before.None? || here.None? then None else Some(before.value + here.value)
  }

  /** The k-th request falls into the level's stretch of the combined room. */
  predicate LevelOwns(sets: seq<seq<Rule>>, accepts: set<nat>, l: nat, k: nat) {
    && l < |sets| && LevelsRoom(sets, accepts, l).Some? && LevelsRoom(sets, accepts, l).value <= k
    && (LevelsRoom(sets, accepts, l + 1).Some? ==> k < LevelsRoom(sets, accepts, l + 1).value)
  }

  /** The level and rule that should serve the k-th request. */
  predicate ServesAt(sets: seq<seq<Rule>>, accepts: set<nat>, k: nat, target: Option<Choice>) {
    match target
    case Some(c) =>
      && LevelOwns(sets, accepts, c.level, k)
      && Serves(sets[c.level], accepts, k - LevelsRoom(sets, accepts, c.level).value, Some(c.index))
    case None => LevelsRoom(sets, accepts, |sets|).Some? && LevelsRoom(sets, accepts, |sets|).value <= k
  }

  /** How many of the first n requests a level has served. */
  function LevelServed(sets: seq<seq<Rule>>, accepts: set<nat>, l: nat, n: nat): nat
    requires l < |sets|
  {
    var before := LevelsRoom(sets, accepts, l);
    if before.None? || n <= before.value then 0
    else match LevelRoom(sets[l], accepts) case None => n - before.value case Some(c) => Min(c, n - before.value)
  }

  function SetsAt(sets: seq<seq<Rule>>, accepts: set<nat>, n: nat): (after: seq<seq<Rule>>)
    ensures |after| == |sets|
  {
    seq(|sets|, l requires 0 <= l < |sets| => AtCounts(sets[l], accepts, LevelServed(sets, accepts, l, n)))
  }

  predicate AllFresh(sets: seq<seq<Rule>>) { forall l :: 0 <= l < |sets| ==> Fresh(sets[l]) }

  // ---- The scheduler run on one request after another ------------------------------------------

  datatype SetsLog = SetsLog(sets: seq<seq<Rule>>, targets: seq<Option<Choice>>)

  predicate InSets(sets: seq<seq<Rule>>, c: Choice) { c.level < |sets| && c.index < |sets[c.level]| }

  function CountAny(sets: seq<seq<Rule>>, target: Option<Choice>): seq<seq<Rule>> {
    if target.Some? && InSets(sets, target.value) then Count(sets, target.value) else sets
  }

  function ServeSets(sets: seq<seq<Rule>>, accepts: set<nat>, n: nat): SetsLog {
    if n == 0 then SetsLog(sets, [])
    else
      var log := ServeSets(sets, accepts, n - 1);
      var target := Find(log.sets, accepts);
      SetsLog(CountAny(log.sets, target), log.targets + [target])
  }

  // ---- Proof -----------------------------------------------------------------------------------

  lemma ExhaustedIffFull(rules: seq<Rule>, accepts: set<nat>, m: nat)
    ensures Exhausted(AtCounts(rules, accepts, m), accepts)
      <==> LevelRoom(rules, accepts).Some? && LevelRoom(rules, accepts).value <= m
  {
    hide PickFrom, Exhausted, AtCounts, Picks;
    var now := AtCounts(rules, accepts, m);
    PickIsServes(rules, accepts, m);
    PickFromMeetsIntent(now, accepts);
    if PickFrom(now, accepts).Some? { PicksIsUnique(now, accepts, PickFrom(now, accepts).value, 0); }
    if Serves(rules, accepts, m, None) { ServesIsUnique(rules, accepts, m, None, PickFrom(now, accepts)); }
  }

  /** The levels before l are full, so its own turn has come. */
  lemma {:induction false} FullLevelsBefore(sets: seq<seq<Rule>>, accepts: set<nat>, k: nat, l: nat)
    requires l <= |sets| && forall b :: 0 <= b < l ==> Exhausted(SetsAt(sets, accepts, k)[b], accepts)
    ensures LevelsRoom(sets, accepts, l).Some? && LevelsRoom(sets, accepts, l).value <= k
  {
    hide Exhausted, AtCounts, LevelRoom;
    if l > 0 {
      FullLevelsBefore(sets, accepts, k, l - 1);
      assert Exhausted(SetsAt(sets, accepts, k)[l - 1], accepts);
      ExhaustedIffFull(sets[l - 1], accepts, LevelServed(sets, accepts, l - 1, k));
    }
  }

  /** A level that is not full picks the rule that its own closed form names. */
  lemma PickServes(rules: seq<Rule>, accepts: set<nat>, m: nat, i: nat)
    requires Picks(AtCounts(rules, accepts, m), accepts, i)
    ensures Serves(rules, accepts, m, Some(i))
    ensures LevelRoom(rules, accepts).Some? ==> m < LevelRoom(rules, accepts).value
  {
    hide PickFrom, Picks, Exhausted, AtCounts, LevelRoom, Serves;
    var now := AtCounts(rules, accepts, m);
    PickFromMeetsIntent(now, accepts);
    PicksIsUnique(now, accepts, i, i);
    if PickFrom(now, accepts).Some? { PicksIsUnique(now, accepts, i, PickFrom(now, accepts).value); }
    ExhaustedIffFull(rules, accepts, m);
    PickIsServes(rules, accepts, m);
  }

  lemma FindIsServesAt(sets: seq<seq<Rule>>, accepts: set<nat>, k: nat)
    ensures ServesAt(sets, accepts, k, Find(SetsAt(sets, accepts, k), accepts))
  {
    hide Exhausted, AtCounts, LevelRoom, Picks, Serves, Find;
    var now := SetsAt(sets, accepts, k);
    FindMeetsIntent(now, accepts);
    match Find(now, accepts)
    case None => FullLevelsBefore(sets, accepts, k, |sets|);
    case Some(c) =>
      FullLevelsBefore(sets, accepts, k, c.level);
      PickServes(sets[c.level], accepts, LevelServed(sets, accepts, c.level, k), c.index);
  }

  lemma {:induction false} LevelsRoomGrows(sets: seq<seq<Rule>>, accepts: set<nat>, i: nat, j: nat)
    requires i <= j <= |sets| && LevelsRoom(sets, accepts, j).Some?
    ensures LevelsRoom(sets, accepts, i).Some?
    ensures LevelsRoom(sets, accepts, i).value <= LevelsRoom(sets, accepts, j).value
    decreases j
  {
    if i < j { LevelsRoomGrows(sets, accepts, i, j - 1); }
  }

  /** One more request is one more for the level that serves it and for no other. */
  lemma LevelCounts(sets: seq<seq<Rule>>, accepts: set<nat>, k: nat, target: Option<Choice>, l: nat)
    requires ServesAt(sets, accepts, k, target) && l < |sets|
    ensures LevelServed(sets, accepts, l, k + 1)
         == LevelServed(sets, accepts, l, k) + (if target.Some? && target.value.level == l then 1 else 0)
    ensures target.Some? && target.value.level == l
      ==> LevelServed(sets, accepts, l, k) == k - LevelsRoom(sets, accepts, l).value
  {
    hide LevelRoom, Serves;
    var owner := if target.Some? then target.value.level else |sets|;
    if l < owner {
      LevelsRoomGrows(sets, accepts, l + 1, owner);
    } else if l > owner && LevelsRoom(sets, accepts, l).Some? {
      LevelsRoomGrows(sets, accepts, owner + 1, l);
    }
  }

  lemma ServesInRange(rules: seq<Rule>, accepts: set<nat>, k: nat, i: nat)
    requires Serves(rules, accepts, k, Some(i))
    ensures i < |rules|
  {
  }

  lemma CountAdvances(sets: seq<seq<Rule>>, accepts: set<nat>, k: nat, target: Option<Choice>)
    requires ServesAt(sets, accepts, k, target)
    ensures CountAny(SetsAt(sets, accepts, k), target) == SetsAt(sets, accepts, k + 1)
  {
    hide LevelServed, Serves, LevelOwns, Served;
    var now, next := SetsAt(sets, accepts, k), SetsAt(sets, accepts, k + 1);
    forall l | 0 <= l < |sets|
      ensures CountAny(now, target)[l] == next[l]
    {
      LevelCounts(sets, accepts, k, target, l);
      if target.Some? && target.value.level == l {
        var m, i := LevelServed(sets, accepts, l, k), target.value.index;
        ServesInRange(sets[l], accepts, m, i);
        forall j | 0 <= j < |sets[l]|
          ensures Bump(now[l], Some(i))[j] == next[l][j]
        {
          BumpAdvances(sets[l], accepts, m, Some(i), j);
        }
        assert CountAny(now, target)[l] == Bump(now[l], Some(i)) == next[l];
      }
    }
  }

  lemma {:induction false} SetsStartAtZero(sets: seq<seq<Rule>>, accepts: set<nat>)
    requires AllFresh(sets)
    ensures SetsAt(sets, accepts, 0) == sets
  {
    hide AtCounts, Fresh;
    forall l | 0 <= l < |sets|
      ensures SetsAt(sets, accepts, 0)[l] == sets[l]
    {
      CountsStartAtZero(sets[l], accepts);
    }
  }

  /**
   * The closed form over all priorities. A level whose matching rules are all limited takes the sum of
   * their limits, one with a matching default or always() rule takes every request; the k-th of n
   * sequential requests goes to the level whose stretch of the summed rooms contains k, and there to the
   * rule that the closed form of that level names; beyond all levels it is unmatched.
   */
  lemma {:induction false} SequentialRunsOverLevels(sets: seq<seq<Rule>>, accepts: set<nat>, n: nat)
    requires AllFresh(sets)
    ensures var log := ServeSets(sets, accepts, n);
      && log.sets == SetsAt(sets, accepts, n) && |log.targets| == n
      && forall k :: 0 <= k < n ==> ServesAt(sets, accepts, k, log.targets[k])
  {
    hide Find, SetsAt, ServesAt, CountAny, AllFresh;
    if n == 0 {
      SetsStartAtZero(sets, accepts);
    } else {
      SequentialRunsOverLevels(sets, accepts, n - 1);
      FindIsServesAt(sets, accepts, n - 1);
      CountAdvances(sets, accepts, n - 1, Find(SetsAt(sets, accepts, n - 1), accepts));
    }
  }

  /** At most one level and rule, or none, can be the one that serves the k-th request. */
  lemma ServesAtIsUnique(sets: seq<seq<Rule>>, accepts: set<nat>, k: nat, a: Option<Choice>, b: Option<Choice>)
    requires ServesAt(sets, accepts, k, a) && ServesAt(sets, accepts, k, b)
    ensures a == b
  {
    hide Serves, LevelRoom;
    var x, y := if a.Some? then a.value.level else |sets|, if b.Some? then b.value.level else |sets|;
    if x < y {
      LevelsRoomGrows(sets, accepts, x + 1, y);
    } else if y < x {
      LevelsRoomGrows(sets, accepts, y + 1, x);
    } else if a.Some? {
      var m := k - LevelsRoom(sets, accepts, x).value;
      ServesIsUnique(sets[x], accepts, m, Some(a.value.index), Some(b.value.index));
    }
  }

  // ---- Runs of the server ----------------------------------------------------------------------

  lemma {:induction false} RunAppend(w: World, a: seq<Event>, b: seq<Event>)
    requires Possible(w, a) && Possible(Run(w, a), b)
    ensures Possible(w, a + b) && Run(w, a + b) == Run(Run(w, a), b)
    decreases |a|
  {
    hide Step, Valid;
    if a == [] {
      assert a + b == b;
    } else {
      assert (a + b)[0] == a[0] && (a + b)[1..] == a[1..] + b;
      RunAppend(Step(w, a[0]), a[1..], b);
    }
  }

  lemma RunOne(w: World, e: Event)
    requires Valid(w) && (e.Advance? ==> e.k < |w.requests|)
    ensures Possible(w, [e]) && Run(w, [e]) == Step(w, e)
  {
    hide Step, Valid;
    assert [e][1..] == [];
    assert Possible(Step(w, e), [e][1..]) && Run(Step(w, e), [e][1..]) == Step(w, e);
  }

  /** The world after request k alone has moved, without counting anything. */
  ghost predicate Moves(w: World, es: seq<Event>, k: nat, r: Request) {
    && k < |w.requests| && Valid(w.(requests := w.requests[k := r]))
    && Possible(w, es) && Run(w, es) == w.(requests := w.requests[k := r])
  }

  /** Left to itself, a selection comes to the moment before it returns what Finish says. */
  lemma {:induction false} ComesToReturn(w: World, k: nat) returns (es: seq<Event>, r: Request)
    requires Valid(w) && k < |w.requests| && Selecting(w.requests[k])
    ensures Moves(w, es, k, r) && WellFormed(w.sets, r) && Selecting(r) && r.accepts == w.requests[k].accepts
    ensures Resume(w.sets, r) == Finish(w.sets, w.requests[k]) && !Selecting(Resume(w.sets, r))
    decreases Remaining(w.sets, w.requests[k]), Pending(w.sets, w.requests[k])
  {
    hide Resume, Run, Possible;
    var now := w.requests[k];
    var next := Resume(w.sets, now);
    if !Selecting(next) {
      es, r := [], now;
      assert w.requests[k := now] == w.requests;
      Nothing(w);
    } else {
      var n := w.(requests := w.requests[k := next]);
      ResumeGoesOn(w.sets, now);
      StepKeepsValid(w, Advance(k));
      es, r := ComesToReturn(n, k);
      RunOne(w, Advance(k));
      RunAppend(w, [Advance(k)], es);
      assert n.requests[k := r] == w.requests[k := r];
      es := [Advance(k)] + es;
    }
  }

  lemma ResumeGoesOn(sets: seq<seq<Rule>>, r: Request)
    requires WellFormed(sets, r) && Selecting(r)
    ensures Remaining(sets, Resume(sets, r)) < Remaining(sets, r)
      || (Remaining(sets, Resume(sets, r)) == Remaining(sets, r) && Pending(sets, Resume(sets, r)) < Pending(sets, r))
      || !Selecting(Resume(sets, r))
    ensures Selecting(Resume(sets, r)) ==> Resume(sets, r).accepts == r.accepts
  {
  }

  lemma Nothing(w: World)
    ensures Possible(w, []) && Run(w, []) == w
  {
  }

  /** The world after so many more requests that are done. */
  ghost predicate After(w: World, es: seq<Event>, sets: seq<seq<Rule>>, n: World) {
    && Possible(w, es) && Run(w, es) == n && Valid(n) && n.sets == sets
    && |w.requests| <= |n.requests| && n.requests[..|w.requests|] == w.requests
  }

  /** A request that comes and goes while no other moves is served as Find says, and counted. */
  lemma ServedAlone(w: World, accepts: set<nat>) returns (es: seq<Event>, n: World)
    requires Valid(w)
    ensures After(w, es, CountAny(w.sets, Find(w.sets, accepts)), n)
  {
    hide Resume, Run, Possible, Find, Enter, Finish;
    var k, found := |w.requests|, Find(w.sets, accepts);
    var arrived := Step(w, Arrive(accepts));
    RunOne(w, Arrive(accepts));
    StepKeepsValid(w, Arrive(accepts));
    UninterruptedIsFind(w.sets, accepts, 0);
    assert w.sets[0..] == w.sets;
    es, n := [Arrive(accepts)], arrived;
    if Selecting(arrived.requests[k]) {
      var moves, r := ComesToReturn(arrived, k);
      n := arrived.(requests := arrived.requests[k := r]);
      RunAppend(w, es, moves);
      es := es + moves;
      es, n := Extend(w, es, n, k);
    } else {
      FinishReturns(w.sets, arrived.requests[k]);
    }
    if n.requests[k].Chosen? { es, n := Extend(w, es, n, k); }
  }

  lemma FinishReturns(sets: seq<seq<Rule>>, r: Request)
    requires WellFormed(sets, r) && !Selecting(r)
    ensures Finish(sets, r) == r
  {
  }

  lemma Extend(w: World, es: seq<Event>, n: World, k: nat) returns (longer: seq<Event>, next: World)
    requires Possible(w, es) && Run(w, es) == n && Valid(n) && k < |n.requests|
    ensures Possible(w, longer) && Run(w, longer) == next && Valid(next) && next == Step(n, Advance(k))
  {
    hide Step;
    next := Step(n, Advance(k));
    RunOne(n, Advance(k));
    StepKeepsValid(n, Advance(k));
    RunAppend(w, es, [Advance(k)]);
    longer := es + [Advance(k)];
  }

  /** The runs in which like requests come one by one leave the counters that the closed form gives. */
  lemma {:induction false} ServedInTurn(w: World, accepts: set<nat>, n: nat) returns (es: seq<Event>, after: World)
    requires Valid(w)
    ensures After(w, es, ServeSets(w.sets, accepts, n).sets, after)
  {
    hide Possible, Run, Valid, CountAny, Find;
    if n == 0 {
      es, after := [], w;
      Nothing(w);
    } else {
      var first, mid := ServedInTurn(w, accepts, n - 1);
      var last: seq<Event>;
      last, after := ServedAlone(mid, accepts);
      RunAppend(w, first, last);
      es := first + last;
    }
  }
}
