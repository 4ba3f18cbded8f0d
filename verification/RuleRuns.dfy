/**
 * Whole runs of the rule scheduler: requests whose selections interleave at every await, the bound
 * this puts on a rule's counter, and the closed form of sequential runs.
 */
module RuleRuns {
  import opened Prelude
  import opened RuleScheduler

  // ---- Interleaved selections ------------------------------------------------------------------

  /** Where one request is: findMatchingRule suspends at its awaits, handleRequest before handle(). */
  datatype Request =
    | Scanning(accepts: set<nat>, level: nat, candidates: seq<nat>, pos: nat) // await match
    | Filtering(accepts: set<nat>, level: nat, candidates: seq<nat>)          // await filter(...)
    | Chosen(choice: Choice)                                                  // returned, not handled yet
    | Handled(choice: Choice)
    | Unmatched

  datatype World = World(sets: seq<seq<Rule>>, requests: seq<Request>)

  /** From one await to the next within a level: go on scanning, or start the second filter. */
  function Await(accepts: set<nat>, level: nat, candidates: seq<nat>, pos: nat): Request {
    if pos < |candidates| then Scanning(accepts, level, candidates, pos) else Filtering(accepts, level, candidates)
  }

  /** The top of the loop over priorities: filter out the completed rules and start matching. */
  function Enter(sets: seq<seq<Rule>>, accepts: set<nat>, level: nat): Request {
    if level < |sets| then Await(accepts, level, Candidates(sets[level]), 0) else Unmatched
  }

  predicate WellFormed(sets: seq<seq<Rule>>, r: Request) {
    match r
    case Scanning(_, level, candidates, pos) =>
      level < |sets| && Indices(sets[level], candidates) && pos < |candidates|
    case Filtering(_, level, candidates) => level < |sets| && Indices(sets[level], candidates)
    case Chosen(c) => c.level < |sets| && c.index < |sets[c.level]|
    case Handled(c) => c.level < |sets| && c.index < |sets[c.level]|
    case Unmatched => true
  }

  /** One uninterrupted stretch of findMatchingRule. */
  function Resume(sets: seq<seq<Rule>>, r: Request): (next: Request)
    requires WellFormed(sets, r)
    ensures WellFormed(sets, next)
  {
    match r
    case Scanning(accepts, level, candidates, pos) =>
      var rule := sets[level][candidates[pos]];
      if rule.id in accepts && rule.IsComplete().Incomplete? then Chosen(Choice(level, candidates[pos]))
      else Await(accepts, level, candidates, pos + 1)
    case Filtering(accepts, level, candidates) =>
      var last := LastMatching(sets[level], accepts, candidates);
      if last.None? || sets[level][last.value].IsComplete().Complete? then Enter(sets, accepts, level + 1)
      else Chosen(Choice(level, last.value))
    case _ => r
  }

  predicate Valid(w: World) { forall k :: 0 <= k < |w.requests| ==> WellFormed(w.sets, w.requests[k]) }

  function Count(sets: seq<seq<Rule>>, c: Choice): seq<seq<Rule>>
    requires c.level < |sets| && c.index < |sets[c.level]|
  {
    var rule := sets[c.level][c.index];
    sets[c.level := sets[c.level][c.index := rule.(requestCount := rule.requestCount + 1)]]
  }

  datatype Event = Arrive(accepts: set<nat>) | Advance(k: nat)

  function Step(w: World, e: Event): World
    requires Valid(w) && (e.Advance? ==> e.k < |w.requests|)
  {
    match e
    case Arrive(accepts) => w.(requests := w.requests + [Enter(w.sets, accepts, 0)])
    case Advance(k) =>
      match w.requests[k]
      case Chosen(c) => World(Count(w.sets, c), w.requests[k := Handled(c)])
      case r => w.(requests := w.requests[k := Resume(w.sets, r)])
  }

  lemma StepKeepsValid(w: World, e: Event)
    requires Valid(w) && (e.Advance? ==> e.k < |w.requests|)
    ensures Valid(Step(w, e))
  {
  }

  predicate Possible(w: World, es: seq<Event>)
    decreases |es|
  {
    es == [] ||
    (Valid(w) && (es[0].Advance? ==> es[0].k < |w.requests|) && Possible(Step(w, es[0]), es[1..]))
  }

  function Run(w: World, es: seq<Event>): (after: World)
    requires Possible(w, es)
    ensures Valid(w) ==> Valid(after)
    decreases |es|
  {
    if es == [] then w else StepKeepsValid(w, es[0]); Run(Step(w, es[0]), es[1..])
  }

  // ---- Counters only grow ----------------------------------------------------------------------

  lemma StepGrows(w: World, e: Event)
    requires Valid(w) && (e.Advance? ==> e.k < |w.requests|)
    ensures Grown(w.sets, Step(w, e).sets)
  {
  }

  lemma GrownAgain(a: seq<seq<Rule>>, b: seq<seq<Rule>>, c: seq<seq<Rule>>)
    requires Grown(a, b) && Grown(b, c)
    ensures Grown(a, c)
  {
    forall l, i | 0 <= l < |a| && 0 <= i < |a[l]|
      ensures GrownRule(a[l][i], c[l][i])
    {
      assert GrownRule(a[l][i], b[l][i]) && GrownRule(b[l][i], c[l][i]);
    }
  }

  lemma {:induction false} RunGrows(w: World, es: seq<Event>)
    requires Possible(w, es)
    ensures Grown(w.sets, Run(w, es).sets)
    decreases |es|
  {
    if es != [] {
      StepGrows(w, es[0]);
      RunGrows(Step(w, es[0]), es[1..]);
      GrownAgain(w.sets, Step(w, es[0]).sets, Run(w, es).sets);
    }
  }

  /**
   * Once a request would be unmatched, then in every run from there it would still be, and no request
   * like it, whenever it arrived and however its selection is interrupted, is handed a rule.
   */
  lemma UnmatchedForGood(w: World, es: seq<Event>, accepts: set<nat>, k: nat)
    requires Valid(w) && Possible(w, es) && Find(w.sets, accepts).None?
    requires k < |Run(w, es).requests| && Selecting(Run(w, es).requests[k]) && Run(w, es).requests[k].accepts == accepts
    ensures var v := Run(w, es);
      Find(v.sets, accepts).None? && !Resume(v.sets, v.requests[k]).Chosen?
  {
    var v := Run(w, es);
    RunGrows(w, es);
    UnmatchedStaysUnmatched(w.sets, v.sets, accepts);
    FindMeetsIntent(v.sets, accepts);
    var r := v.requests[k];
    assert WellFormed(v.sets, r) && Exhausted(v.sets[r.level], accepts);
    LastMatchingIsLast(v.sets[r.level], accepts, r.candidates);
  }

  predicate Selecting(r: Request) { r.Scanning? || r.Filtering? }

  // ---- The bound on a counter ------------------------------------------------------------------

  /** Requests that were handed the rule and have not counted yet. */
  function InFlight(requests: seq<Request>, c: Choice): (n: nat)
    ensures n <= |requests|
  {
    if requests == [] then 0
    else InFlight(requests[..|requests| - 1], c) + (if requests[|requests| - 1] == Chosen(c) then 1 else 0)
  }

  lemma {:induction false} InFlightUpdate(requests: seq<Request>, k: nat, r: Request, c: Choice)
    requires k < |requests|
    ensures InFlight(requests[k := r], c) + (if requests[k] == Chosen(c) then 1 else 0)
         == InFlight(requests, c) + (if r == Chosen(c) then 1 else 0)
  {
    var last := |requests| - 1;
    if k == last {
      assert requests[k := r][..last] == requests[..last];
    } else {
      InFlightUpdate(requests[..last], k, r, c);
      assert requests[k := r][..last] == requests[..last][k := r];
    }
  }

  /** At every moment of the run at most `window` requests hold the rule without having counted. */
  predicate WindowAtMost(w: World, es: seq<Event>, c: Choice, window: nat)
    requires Possible(w, es)
    decreases |es|
  {
    InFlight(w.requests, c) <= window && (es == [] || WindowAtMost(Step(w, es[0]), es[1..], c, window))
  }

  /** The rule c has a finite capacity n, and counting everything in flight would not pass the bound. */
  predicate Bounded(w: World, c: Choice, n: nat, window: nat) {
    && c.level < |w.sets| && c.index < |w.sets[c.level]|
    && var rule := w.sets[c.level][c.index];
    && rule.checker.Some? && rule.Capacity() == Some(n)
    && rule.requestCount + InFlight(w.requests, c) <= if n == 0 then 0 else n - 1 + window
  }

  /** A selection that returns a rule with a checker returns it while its counter is below its capacity. */
  lemma ChosenBelowCapacity(sets: seq<seq<Rule>>, r: Request, c: Choice, n: nat)
    requires WellFormed(sets, r) && !r.Chosen? && Resume(sets, r) == Chosen(c)
    requires var rule := sets[c.level][c.index]; rule.checker.Some? && rule.Capacity() == Some(n)
    ensures sets[c.level][c.index].requestCount < n
  {
  }

  lemma StepKeepsBound(w: World, e: Event, c: Choice, n: nat, window: nat)
    requires Valid(w) && (e.Advance? ==> e.k < |w.requests|)
    requires Bounded(w, c, n, window) && InFlight(Step(w, e).requests, c) <= window
    ensures Bounded(Step(w, e), c, n, window)
  {
    match e
    case Arrive(accepts) =>
      var r := Enter(w.sets, accepts, 0);
      assert (w.requests + [r])[..|w.requests|] == w.requests;
    case Advance(k) =>
      InFlightUpdate(w.requests, k, Step(w, e).requests[k], c);
      var r := w.requests[k];
      if !r.Chosen? && Resume(w.sets, r) == Chosen(c) && !r.Handled? {
        ChosenBelowCapacity(w.sets, r, c, n);
      }
  }

  /**
   * Every interleaving: if at most W requests at a time sit between being handed a rule and counting
   * against it, a rule limited to n >= 1 requests ends at no more than n - 1 + W, and a rule limited
   * to none is never used.
   */
  lemma {:induction false} CounterBound(w: World, es: seq<Event>, c: Choice, n: nat, window: nat)
    requires Possible(w, es) && Bounded(w, c, n, window) && WindowAtMost(w, es, c, window)
    ensures Bounded(Run(w, es), c, n, window)
    decreases |es|
  {
    if es != [] {
      StepKeepsBound(w, es[0], c, n, window);
      CounterBound(Step(w, es[0]), es[1..], c, n, window);
    }
  }

  /** One request at a time between the two: never more than n. */
  lemma NeverAboveLimit(sets: seq<seq<Rule>>, es: seq<Event>, c: Choice, n: nat)
    requires Possible(World(sets, []), es) && WindowAtMost(World(sets, []), es, c, 1)
    requires c.level < |sets| && c.index < |sets[c.level]|
    requires var rule := sets[c.level][c.index];
      rule.checker.Some? && rule.Capacity() == Some(n) && rule.requestCount == 0
    ensures var after := Run(World(sets, []), es).sets;
      && c.level < |after| && c.index < |after[c.level]| && after[c.level][c.index].requestCount <= n
  {
    CounterBound(World(sets, []), es, c, n, 1);
  }

  lemma CountOnly(rule: Rule)
    ensures Count([[rule]], Choice(0, 0)) == [[rule.(requestCount := rule.requestCount + 1)]]
  {
    assert [rule][0 := rule.(requestCount := rule.requestCount + 1)] == [rule.(requestCount := rule.requestCount + 1)];
  }

  /** A request that has just entered a level holding only this incomplete rule. */
  lemma EnterOnly(rule: Rule, accepts: set<nat>)
    requires rule.IsComplete().Incomplete?
    ensures Enter([[rule]], accepts, 0) == Scanning(accepts, 0, [0], 0)
  {
    assert [rule][..0] == [] && Candidates([rule]) == [0];
  }

  // ---- An uninterrupted selection is the specification -----------------------------------------

  function Pending(sets: seq<seq<Rule>>, r: Request): nat
    requires WellFormed(sets, r)
  {
    match r
    case Scanning(_, _, candidates, pos) => 1 + |candidates| - pos
    case Filtering(_, _, _) => 1
    case _ => 0
  }

  function Remaining(sets: seq<seq<Rule>>, r: Request): nat
    requires WellFormed(sets, r)
  {
    match r
    case Scanning(_, level, _, _) => |sets| - level
    case Filtering(_, level, _) => |sets| - level
    case _ => 0
  }

  /** Resume the selection until it returns, with no other request moving. */
  function Finish(sets: seq<seq<Rule>>, r: Request): Request
    requires WellFormed(sets, r)
    decreases Remaining(sets, r), Pending(sets, r)
  {
    if r.Scanning? || r.Filtering? then Finish(sets, Resume(sets, r)) else r
  }

  function Outcome(choice: Option<Choice>, level: nat): Request {
    if choice.None? then Unmatched else Chosen(Choice(choice.value.level + level, choice.value.index))
  }

  lemma {:induction false} FinishScan(sets: seq<seq<Rule>>, accepts: set<nat>, level: nat,
                                      candidates: seq<nat>, pos: nat)
    requires level < |sets| && Indices(sets[level], candidates) && pos <= |candidates|
    ensures Finish(sets, Await(accepts, level, candidates, pos))
      == match Scan(sets[level], accepts, candidates[pos..])
         case Some(i) => Chosen(Choice(level, i))
         case None => Finish(sets, Filtering(accepts, level, candidates))
    decreases |candidates| - pos
  {
    if pos < |candidates| {
      assert candidates[pos..][1..] == candidates[pos + 1..];
      FinishScan(sets, accepts, level, candidates, pos + 1);
    }
  }

  /** Run by itself, the suspended computation returns exactly what Find says. */
  lemma {:induction false} UninterruptedIsFind(sets: seq<seq<Rule>>, accepts: set<nat>, level: nat)
    requires level <= |sets|
    ensures Finish(sets, Enter(sets, accepts, level)) == Outcome(Find(sets[level..], accepts), level)
    decreases |sets| - level
  {
    hide Scan, LastMatching, Candidates;
    if level < |sets| {
      var candidates := Candidates(sets[level]);
      FinishScan(sets, accepts, level, candidates, 0);
      assert candidates[0..] == candidates && sets[level..][1..] == sets[level + 1..];
      UninterruptedIsFind(sets, accepts, level + 1);
    }
  }

  /**
   * The last filter of a level, when the rules that are not complete are among its candidates and no
   * matching rule is incomplete: it agrees with an uninterrupted selection made now exactly unless the
   * last matching candidate has completed while some matching default rule is there to repeat.
   */
  lemma FilterAgreesUnlessLastCompleted(rules: seq<Rule>, accepts: set<nat>, candidates: seq<nat>)
    requires Indices(rules, candidates)
    requires forall i :: 0 <= i < |rules| && !rules[i].IsComplete().Complete? ==> i in candidates
    requires forall i :: 0 <= i < |rules| && rules[i].id in accepts ==> !rules[i].IsComplete().Incomplete?
    ensures var last := LastMatching(rules, accepts, candidates);
      var skipped := last.Some? && rules[last.value].IsComplete().Complete?;
      var repeats := exists i :: 0 <= i < |rules| && rules[i].id in accepts && rules[i].IsComplete().Maybe?;
      (if skipped then None else last) == PickFrom(rules, accepts) <==> !(skipped && repeats)
  {
    LastMatchingIsLast(rules, accepts, candidates);
    PickFromMeetsIntent(rules, accepts);
    var last := LastMatching(rules, accepts, candidates);
    if last.Some? && rules[last.value].IsComplete().Maybe? {
      assert Picks(rules, accepts, last.value);
      PicksIsUnique(rules, accepts, last.value, PickFrom(rules, accepts).value);
    }
  }
}
