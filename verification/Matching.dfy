/**
 * matchesAll (src/rules/matchers.ts): a synchronous pass over the matchers, then a race of the
 * promises it collected into one outer promise that settles once.
 */
module Matching {
  import opened Prelude

  /** What one matcher returns: a boolean, or a promise. */
  datatype MatchResult = Yes | No | Async

  /** How a promise ends. */
  datatype Outcome = True | False | Rejected(error: nat)

  datatype Verdict = Answer(matched: bool) | Failed(error: nat)

  /** The synchronous part's result: an immediate answer, or a race between so many promises. */
  datatype First = Now(matched: bool) | Later(promises: nat)

  function AsyncCount(results: seq<MatchResult>): nat {
    if results == [] then 0
    else AsyncCount(results[..|results| - 1]) + (if results[|results| - 1].Async? then 1 else 0)
  }

  /** What the loop over the matchers comes to. */
  function Begins(results: seq<MatchResult>): First {
    if No in results then Now(false)
    else if AsyncCount(results) == 0 then Now(true)
    else Later(AsyncCount(results))
  }

  /** The fast path. `invoked` matchers have been called; a synchronous mismatch spares the others. */
  method SynchronousPass(results: seq<MatchResult>) returns (first: First, invoked: nat)
    ensures invoked <= |results| && forall k :: 0 <= k < invoked - 1 ==> results[k] != No
    ensures first == Begins(results)
    ensures first == Now(false) <==> No in results
    ensures first == Now(false) ==> invoked > 0 && results[invoked - 1] == No
    ensures first == Now(true) <==> forall k :: 0 <= k < |results| ==> results[k] == Yes
    ensures first.Later? ==> first.promises == AsyncCount(results) > 0
    ensures first != Now(false) ==> invoked == |results|
  {
    var asyncResults := 0;
    for i := 0 to |results|
      invariant forall k :: 0 <= k < i ==> results[k] != No
      invariant asyncResults == AsyncCount(results[..i])
      invariant asyncResults == 0 <==> forall k :: 0 <= k < i ==> results[k] == Yes
    {
      assert results[..i + 1][..i] == results[..i];
      if results[i] == No {
        return Now(false), i + 1;
      }
      if results[i] != Yes {
        asyncResults := asyncResults + 1;
      }
    }
    assert results[..|results|] == results;
    if asyncResults == 0 {
      return Now(true), |results|;
    }
    return Later(asyncResults), |results|;
  }

  // ---- The race --------------------------------------------------------------------------------

  /** Promise.all over the same promises, whose own reaction runs some microtasks later. */
  datatype All = Waiting | Resolved | Broken(error: nat)

  datatype Race = Race(n: nat, settled: map<nat, Outcome>, all: All, outer: Option<Verdict>)

  datatype Event = Settle(index: nat, outcome: Outcome) | AllTurn

  function Begin(n: nat): Race { Race(n, map[], Waiting, None) }

  predicate Enabled(s: Race, e: Event) {
    match e
    case Settle(i, _) => i < s.n && i !in s.settled
    case AllTurn => !s.all.Waiting?
  }

  /** resolve and reject act on the first call only. */
  function Decide(outer: Option<Verdict>, v: Verdict): Option<Verdict> { if outer.None? then Some(v) else outer }

  predicate AllFulfilled(n: nat, settled: map<nat, Outcome>) {
    forall i :: 0 <= i < n ==> i in settled && !settled[i].Rejected?
  }

  predicate EveryTrue(n: nat, settled: map<nat, Outcome>) {
    forall i :: 0 <= i < n ==> i in settled && settled[i].True?
  }

  function Step(s: Race, e: Event): Race
    requires Enabled(s, e)
  {
    match e
    case Settle(i, o) =>
      var settled := s.settled[i := o];
      var all :=
        if !s.all.Waiting? then s.all
        else if o.Rejected? then Broken(o.error)
        else if AllFulfilled(s.n, settled) then Resolved
        else Waiting;
      var outer := match o
        case True => s.outer
        case False => Decide(s.outer, Answer(false))
        case Rejected(e) => Decide(s.outer, Failed(e));
      Race(s.n, settled, all, outer)
    case AllTurn =>
      var v := if s.all.Resolved? then Answer(EveryTrue(s.n, s.settled)) else Failed(s.all.error);
      s.(outer := Decide(s.outer, v))
  }

  predicate Possible(s: Race, es: seq<Event>)
    decreases |es|
  {
    es == [] || (Enabled(s, es[0]) && Possible(Step(s, es[0]), es[1..]))
  }

  function Run(s: Race, es: seq<Event>): Race
    requires Possible(s, es)
    decreases |es|
  {
    if es == [] then s else Run(Step(s, es[0]), es[1..])
  }

  function Decisive(e: Event): Option<Verdict> {
    match e
    case Settle(_, False) => Some(Answer(false))
    case Settle(_, Rejected(error)) => Some(Failed(error))
    case _ => None
  }

  /** The first settlement, in the order they happen, that is false or a rejection. */
  function FirstDecisive(es: seq<Event>): Option<Verdict> {
    if es == [] then None
    else if Decisive(es[0]).Some? then Decisive(es[0])
    else FirstDecisive(es[1..])
  }

  predicate AllHasTurned(es: seq<Event>) { AllTurn in es }

  /** The state once `decided` is what the settlements so far decide. */
  predicate Inv(s: Race, decided: Option<Verdict>, turned: bool) {
    && s.outer == (if decided.Some? then decided else if turned then Some(Answer(true)) else None)
    && (decided.None? ==> forall i :: i in s.settled ==> s.settled[i].True?)
    && (decided.None? ==> !s.all.Broken?)
    && (s.all.Resolved? ==> AllFulfilled(s.n, s.settled))
    && (turned && decided.None? ==> s.all.Resolved?)
    && (s.all.Waiting? ==> s.n == 0 || !AllFulfilled(s.n, s.settled))
  }

  lemma StepKeepsInv(s: Race, e: Event, decided: Option<Verdict>, turned: bool)
    requires Inv(s, decided, turned) && Enabled(s, e)
    ensures Inv(Step(s, e), if decided.Some? then decided else Decisive(e), turned || e.AllTurn?)
  {
  }

  lemma {:induction false} RunKeepsInv(s: Race, es: seq<Event>, decided: Option<Verdict>, turned: bool)
    requires Inv(s, decided, turned) && Possible(s, es)
    ensures Inv(Run(s, es), if decided.Some? then decided else FirstDecisive(es), turned || AllHasTurned(es))
    decreases |es|
  {
    if es != [] {
      StepKeepsInv(s, es[0], decided, turned);
      var head := Decisive(es[0]);
      assert AllHasTurned(es) <==> es[0].AllTurn? || AllHasTurned(es[1..]);
      RunKeepsInv(Step(s, es[0]), es[1..], if decided.Some? then decided else head, turned || es[0].AllTurn?);
    }
  }

  /**
   * For every settle order: the first false or rejection decides, at once and for good; without one
   * the outer promise stays open until Promise.all has answered, and then it is true.
   */
  lemma OutcomeIsFirstDecisive(n: nat, es: seq<Event>)
    requires Possible(Begin(n), es)
    ensures var first := FirstDecisive(es);
      Run(Begin(n), es).outer
        == if first.Some? then first else if AllHasTurned(es) then Some(Answer(true)) else None
  {
    assert n > 0 ==> 0 !in Begin(n).settled;
    RunKeepsInv(Begin(n), es, None, false);
  }

  /** The first rejection among the settlements. */
  function FirstRejection(es: seq<Event>): Option<nat> {
    if es == [] then None
    else if es[0].Settle? && es[0].outcome.Rejected? then Some(es[0].outcome.error)
    else FirstRejection(es[1..])
  }

  predicate Heard(es: seq<Event>, i: nat) { exists k :: 0 <= k < |es| && es[k].Settle? && es[k].index == i }

  /** Every one of the promises has settled. */
  predicate AllHeard(n: nat, es: seq<Event>) { forall i :: 0 <= i < n ==> Heard(es, i) }

  /** What Promise.all stands for in this state. */
  predicate AllIs(s: Race, rejection: Option<nat>) {
    && s.all == (if rejection.Some? then Broken(rejection.value)
                 else if s.n > 0 && forall i :: 0 <= i < s.n ==> i in s.settled then Resolved
                 else Waiting)
    && (rejection.None? ==> forall i :: i in s.settled ==> !s.settled[i].Rejected?)
  }

  lemma HeardFirst(es: seq<Event>, i: nat)
    requires es != []
    ensures Heard(es, i) <==> (es[0].Settle? && es[0].index == i) || Heard(es[1..], i)
  {
    if k :| 0 <= k < |es| && es[k].Settle? && es[k].index == i {
      assert k > 0 ==> es[1..][k - 1] == es[k];
    }
    if k :| 0 <= k < |es[1..]| && es[1..][k].Settle? && es[1..][k].index == i {
      assert es[k + 1] == es[1..][k];
    }
  }

  lemma {:induction false} RunKeepsAll(s: Race, es: seq<Event>, rejection: Option<nat>)
    requires AllIs(s, rejection) && Possible(s, es) && s.n > 0
    ensures var r := Run(s, es);
      && r.n == s.n && AllIs(r, if rejection.Some? then rejection else FirstRejection(es))
      && forall i: nat :: i in r.settled <==> i in s.settled || Heard(es, i)
    decreases |es|
  {
    if es != [] {
      var head := if es[0].Settle? && es[0].outcome.Rejected? then Some(es[0].outcome.error) else None;
      RunKeepsAll(Step(s, es[0]), es[1..], if rejection.Some? then rejection else head);
      forall i: nat
        ensures Heard(es, i) <==> (es[0].Settle? && es[0].index == i) || Heard(es[1..], i)
      {
        HeardFirst(es, i);
      }
    }
  }

  /**
   * Promise.all in every settle order: broken by the first rejection, resolved once all have settled
   * without one, and waiting until then; so its reaction is due exactly from that moment.
   */
  lemma PromiseAllWaitsForAll(n: nat, es: seq<Event>)
    requires n > 0 && Possible(Begin(n), es)
    ensures var s, rejection := Run(Begin(n), es), FirstRejection(es);
      && s.all == (if rejection.Some? then Broken(rejection.value) else if AllHeard(n, es) then Resolved else Waiting)
      && (Enabled(s, AllTurn) <==> rejection.Some? || AllHeard(n, es))
  {
    assert 0 !in Begin(n).settled;
    RunKeepsAll(Begin(n), es, None);
    var s := Run(Begin(n), es);
    assert (forall i :: 0 <= i < n ==> i in s.settled) <==> AllHeard(n, es) by {
      if AllHeard(n, es) {
        assert forall i :: 0 <= i < n ==> Heard(es, i);
      }
      if forall i :: 0 <= i < n ==> i in s.settled {
        assert forall i: nat :: i < n ==> i in s.settled ==> Heard(es, i);
      }
    }
  }

  /** The settlements of a run agree with how each promise was always going to end. */
  predicate Consistent(es: seq<Event>, ends: seq<Outcome>) {
    forall k :: 0 <= k < |es| && es[k].Settle? ==> es[k].index < |ends| && es[k].outcome == ends[es[k].index]
  }

  predicate Conjunction(ends: seq<Outcome>) { forall i :: 0 <= i < |ends| ==> ends[i].True? }

  lemma {:induction false} SettledComesFromRun(s: Race, es: seq<Event>, ends: seq<Outcome>)
    requires Possible(s, es) && Consistent(es, ends) && s.n == |ends|
    requires forall i :: i in s.settled ==> i < |ends| && s.settled[i] == ends[i]
    requires s.all.Resolved? ==> AllFulfilled(s.n, s.settled)
    ensures var r := Run(s, es);
      && (forall i :: i in r.settled ==> i < |ends| && r.settled[i] == ends[i])
      && r.n == |ends| && (r.all.Resolved? ==> AllFulfilled(r.n, r.settled))
    decreases |es|
  {
    if es != [] {
      SettledComesFromRun(Step(s, es[0]), es[1..], ends);
    }
  }

  lemma {:induction false} DecisiveIsFalse(es: seq<Event>, ends: seq<Outcome>)
    requires Consistent(es, ends) && forall i :: 0 <= i < |ends| ==> !ends[i].Rejected?
    ensures FirstDecisive(es).Some? ==> FirstDecisive(es) == Some(Answer(false)) && !Conjunction(ends)
    ensures (exists k :: 0 <= k < |es| && es[k].Settle? && es[k].outcome.False?) ==> FirstDecisive(es).Some?
  {
    if es != [] {
      DecisiveIsFalse(es[1..], ends);
      if k :| 0 <= k < |es| && es[k].Settle? && es[k].outcome.False? {
        assert k > 0 ==> es[1..][k - 1] == es[k];
      }
    }
  }

  /**
   * Schedule independence without rejections: in every settle order the answer, once there is one, is
   * the conjunction; a false answers even if the others never settle.
   */
  lemma AnswerIsConjunction(ends: seq<Outcome>, es: seq<Event>)
    requires Possible(Begin(|ends|), es) && Consistent(es, ends)
    requires forall i :: 0 <= i < |ends| ==> !ends[i].Rejected?
    ensures var outer := Run(Begin(|ends|), es).outer;
      && (outer.Some? ==> outer == Some(Answer(Conjunction(ends))))
      && ((exists k :: 0 <= k < |es| && es[k].Settle? && es[k].outcome.False?) ==> outer.Some?)
      && (AllHasTurned(es) ==> outer.Some?)
  {
    assert ends != [] ==> 0 !in Begin(|ends|).settled;
    RunKeepsInv(Begin(|ends|), es, None, false);
    DecisiveIsFalse(es, ends);
    SettledComesFromRun(Begin(|ends|), es, ends);
    var r := Run(Begin(|ends|), es);
    if FirstDecisive(es).None? && AllHasTurned(es) {
      assert forall i :: 0 <= i < |ends| ==> i in r.settled && ends[i].True?;
    }
  }

  // ---- Synchronous and asynchronous matchers together ------------------------------------------

  /** How one matcher answers: at once, or by a promise with a certain end. */
  datatype Matcher = AtOnce(matched: bool) | Promised(end: Outcome)

  function Results(matchers: seq<Matcher>): seq<MatchResult> {
    seq(|matchers|, i requires 0 <= i < |matchers| =>
      match matchers[i] case AtOnce(matched) => (if matched then Yes else No) case Promised(_) => Async)
  }

  /** The promises that the synchronous pass collects, in order. */
  function Ends(matchers: seq<Matcher>): seq<Outcome> {
    if matchers == [] then []
    else
      var last := matchers[|matchers| - 1];
      Ends(matchers[..|matchers| - 1]) + (if last.Promised? then [last.end] else [])
  }

  predicate Accepts(m: Matcher) { m == AtOnce(true) || m == Promised(True) }

  lemma {:induction false} EndsAreTheRest(matchers: seq<Matcher>)
    ensures |Ends(matchers)| == AsyncCount(Results(matchers))
    ensures No !in Results(matchers) ==>
      (Conjunction(Ends(matchers)) <==> forall i :: 0 <= i < |matchers| ==> Accepts(matchers[i]))
    ensures forall k :: 0 <= k < |Ends(matchers)| ==> Promised(Ends(matchers)[k]) in matchers
  {
    if matchers != [] {
      var front, last := matchers[..|matchers| - 1], matchers[|matchers| - 1];
      EndsAreTheRest(front);
      var results, ends := Results(matchers), Ends(front);
      assert results[..|results| - 1] == Results(front) && results == Results(front) + [results[|front|]];
      assert forall i :: 0 <= i < |front| ==> matchers[i] == front[i];
      assert forall k :: 0 <= k < |ends| ==> Ends(matchers)[k] == ends[k];
      if last.Promised? { assert Ends(matchers)[|ends|] == last.end; }
    }
  }

  /** What matchesAll has answered after these settlements of the promises it collected. */
  function MatchesAll(matchers: seq<Matcher>, es: seq<Event>): Option<Verdict>
    requires Possible(Begin(AsyncCount(Results(matchers))), es)
  {
    match Begins(Results(matchers))
    case Now(matched) => Some(Answer(matched))
    case Later(n) => Run(Begin(n), es).outer
  }

  predicate NoneRejects(matchers: seq<Matcher>) {
    forall i :: 0 <= i < |matchers| && matchers[i].Promised? ==> !matchers[i].end.Rejected?
  }

  predicate AllAccept(matchers: seq<Matcher>) { forall i :: 0 <= i < |matchers| ==> Accepts(matchers[i]) }

  predicate SomeFalse(es: seq<Event>) { exists k :: 0 <= k < |es| && es[k].Settle? && es[k].outcome.False? }

  /**
   * matchesAll as a whole, for every mix of matchers and every settle order. It answers false at once if
   * a matcher refuses at once, true at once if all accept at once, and otherwise what the first false or
   * rejection decides, or true once all have been heard. Unless a matcher rejects, any answer is whether
   * all the matchers accept, and there is one as soon as a promise is false or all have been heard.
   */
  lemma MatchesAllAnswers(matchers: seq<Matcher>, es: seq<Event>)
    requires Possible(Begin(AsyncCount(Results(matchers))), es) && Consistent(es, Ends(matchers))
    ensures var answer := MatchesAll(matchers, es);
      && answer == (match Begins(Results(matchers))
                    case Now(matched) => Some(Answer(matched))
                    case Later(_) =>
                      if FirstDecisive(es).Some? then FirstDecisive(es)
                      else if AllHasTurned(es) then Some(Answer(true))
                      else None)
      && (Begins(Results(matchers)).Now? ==> answer == Some(Answer(AllAccept(matchers))))
      && (NoneRejects(matchers) && answer.Some? ==> answer == Some(Answer(AllAccept(matchers))))
      && (NoneRejects(matchers) && (SomeFalse(es) || AllHasTurned(es)) ==> answer.Some?)
  {
    hide Run, FirstDecisive, Ends, Consistent;
    var n := AsyncCount(Results(matchers));
    EndsAreTheRest(matchers);
    OutcomeIsFirstDecisive(n, es);
    if NoneRejects(matchers) {
      forall k | 0 <= k < |Ends(matchers)|
        ensures !Ends(matchers)[k].Rejected?
      {
        var i :| 0 <= i < |matchers| && matchers[i] == Promised(Ends(matchers)[k]);
      }
      AnswerIsConjunction(Ends(matchers), es);
    }
  }

  // ---- The outer promise, settled in place -----------------------------------------------------

  class OuterPromise {
    const n: nat
    var settled: map<nat, Outcome>
    var all: All
    var outer: Option<Verdict>

    function State(): Race
      reads this
    {
      Race(n, settled, all, outer)
    }

    constructor (n: nat)
      ensures State() == Begin(n)
    {
      this.n, settled, all, outer := n, map[], Waiting, None;
    }

    method Resolve(v: Verdict)
      modifies this`outer
      ensures outer == Decide(old(outer), v)
    {
      if outer.None? {
        outer := Some(v);
      }
    }

    /** The reactions of one promise: this race's own, then that of Promise.all. */
    method OnSettle(i: nat, o: Outcome)
      requires Enabled(State(), Settle(i, o))
      modifies this
      ensures State() == Step(old(State()), Settle(i, o))
    {
      settled := settled[i := o];
      if o.False? {
        Resolve(Answer(false));
      } else if o.Rejected? {
        Resolve(Failed(o.error));
      }
      if all.Waiting? {
        if o.Rejected? {
          all := Broken(o.error);
        } else if AllFulfilled(n, settled) {
          all := Resolved;
        }
      }
    }

    method OnAll()
      requires Enabled(State(), AllTurn)
      modifies this`outer
      ensures State() == Step(old(State()), AllTurn)
    {
      if all.Resolved? {
        Resolve(Answer(EveryTrue(n, settled)));
      } else {
        Resolve(Failed(all.error));
      }
    }
  }
}
