/**
 * How far overlapping requests can push a limited rule: the bound on its counter is reached for every
 * limit and every degree of overlap, so the limit holds exactly when selections do not overlap.
 */
module RuleOverlap {
  import opened Prelude
  import opened RuleScheduler
  import opened RuleRuns

  const TheRule := Choice(0, 0)

  function Limited(checker: Checker, count: nat): Rule { Rule(0, Some(checker), count) }

  /** A server whose only rule matches everything sent to it here. */
  function Alone(checker: Checker, count: nat, requests: seq<Request>): World {
    World([[Limited(checker, count)]], requests)
  }

  function Copies(r: Request, n: nat): seq<Request> { if n == 0 then [] else Copies(r, n - 1) + [r] }

  /** So many requests done, holding the rule without having counted, and waiting for their match. */
  function Requests(done: nat, picked: nat, waiting: nat): seq<Request> {
    Copies(Handled(TheRule), done) + Copies(Chosen(TheRule), picked) + Copies(Scanning({0}, 0, [0], 0), waiting)
  }

  // ---- Runs and their windows ------------------------------------------------------------------

  /** The events lead from one world to the other, with never more requests in the window. */
  ghost predicate Reaches(w: World, es: seq<Event>, n: World, window: nat) {
    Possible(w, es) && Run(w, es) == n && WindowAtMost(w, es, TheRule, window)
  }

  lemma {:induction false} Chain(w: World, a: seq<Event>, m: World, b: seq<Event>, n: World, window: nat)
    requires Reaches(w, a, m, window) && Reaches(m, b, n, window)
    ensures Reaches(w, a + b, n, window)
    decreases |a|
  {
    if a == [] {
      assert a + b == b;
    } else {
      assert (a + b)[0] == a[0] && (a + b)[1..] == a[1..] + b;
      Chain(Step(w, a[0]), a[1..], m, b, n, window);
    }
  }

  lemma OneStep(w: World, e: Event, n: World, window: nat)
    requires Valid(w) && (e.Advance? ==> e.k < |w.requests|) && Step(w, e) == n
    requires InFlight(w.requests, TheRule) <= window && InFlight(n.requests, TheRule) <= window
    ensures Reaches(w, [e], n, window)
  {
    hide Step, InFlight, Valid;
    var rest := [e][1..];
    assert rest == [] && [e][0] == e;
    assert Possible(n, rest) && Run(n, rest) == n && WindowAtMost(n, rest, TheRule, window);
    assert Possible(w, [e]) && Run(w, [e]) == Run(n, rest);
  }

  lemma {:induction false} InFlightAppend(a: seq<Request>, b: seq<Request>)
    ensures InFlight(a + b, TheRule) == InFlight(a, TheRule) + InFlight(b, TheRule)
    decreases |b|
  {
    if b == [] {
      assert a + b == a;
    } else {
      assert (a + b)[..|a + b| - 1] == a + b[..|b| - 1];
      InFlightAppend(a, b[..|b| - 1]);
    }
  }

  lemma {:induction false} CopiesAre(r: Request, n: nat)
    ensures |Copies(r, n)| == n && forall i :: 0 <= i < n ==> Copies(r, n)[i] == r
    ensures InFlight(Copies(r, n), TheRule) == if r == Chosen(TheRule) then n else 0
  {
    if n > 0 {
      CopiesAre(r, n - 1);
      assert Copies(r, n)[..n - 1] == Copies(r, n - 1);
    }
  }

  lemma RequestsAre(done: nat, picked: nat, waiting: nat)
    ensures var rs := Requests(done, picked, waiting);
      && |rs| == done + picked + waiting && InFlight(rs, TheRule) == picked
      && (forall i :: 0 <= i < done ==> rs[i] == Handled(TheRule))
      && (forall i :: done <= i < done + picked ==> rs[i] == Chosen(TheRule))
      && (forall i :: done + picked <= i < |rs| ==> rs[i] == Scanning({0}, 0, [0], 0))
  {
    CopiesAre(Handled(TheRule), done);
    CopiesAre(Chosen(TheRule), picked);
    CopiesAre(Scanning({0}, 0, [0], 0), waiting);
    InFlightAppend(Copies(Handled(TheRule), done), Copies(Chosen(TheRule), picked));
    InFlightAppend(Copies(Handled(TheRule), done) + Copies(Chosen(TheRule), picked),
                   Copies(Scanning({0}, 0, [0], 0), waiting));
  }

  /** Worlds of this shape are well formed, and the rule is open below its limit. */
  predicate Open(checker: Checker, limit: nat, count: nat) {
    Limited(checker, 0).Capacity() == Some(limit) && count < limit
  }

  lemma AloneIsValid(checker: Checker, count: nat, done: nat, picked: nat, waiting: nat)
    ensures Valid(Alone(checker, count, Requests(done, picked, waiting)))
  {
    hide Requests;
    RequestsAre(done, picked, waiting);
  }

  // ---- The three kinds of step -----------------------------------------------------------------

  lemma Arrives(checker: Checker, limit: nat, count: nat, done: nat, picked: nat, window: nat)
    requires Open(checker, limit, count) && picked <= window
    ensures Reaches(Alone(checker, count, Requests(done, picked, 0)), [Arrive({0})],
                    Alone(checker, count, Requests(done, picked, 1)), window)
  {
    hide Requests, Possible, Run, Candidates, Enter, InFlight, WindowAtMost;
    var w, n := Alone(checker, count, Requests(done, picked, 0)), Alone(checker, count, Requests(done, picked, 1));
    AloneIsValid(checker, count, done, picked, 0);
    RequestsAre(done, picked, 0);
    RequestsAre(done, picked, 1);
    EnterOnly(Limited(checker, count), {0});
    assert n.requests == w.requests + [Scanning({0}, 0, [0], 0)];
    OneStep(w, Arrive({0}), n, window);
  }

  lemma PickOne(checker: Checker, limit: nat, count: nat, done: nat, picked: nat, waiting: nat, window: nat)
    requires Open(checker, limit, count) && picked < window && waiting > 0
    ensures Reaches(Alone(checker, count, Requests(done, picked, waiting)), [Advance(done + picked)],
                    Alone(checker, count, Requests(done, picked + 1, waiting - 1)), window)
  {
    hide Requests, Possible, Run;
    var w := Alone(checker, count, Requests(done, picked, waiting));
    var n := Alone(checker, count, Requests(done, picked + 1, waiting - 1));
    AloneIsValid(checker, count, done, picked, waiting);
    RequestsAre(done, picked, waiting);
    RequestsAre(done, picked + 1, waiting - 1);
    assert n.requests == w.requests[done + picked := Chosen(TheRule)];
    OneStep(w, Advance(done + picked), n, window);
  }

  lemma Counts(checker: Checker, count: nat, done: nat, picked: nat, waiting: nat, window: nat)
    requires 0 < picked <= window
    ensures Reaches(Alone(checker, count, Requests(done, picked, waiting)), [Advance(done)],
                    Alone(checker, count + 1, Requests(done + 1, picked - 1, waiting)), window)
  {
    hide Requests, Possible, Run;
    var w := Alone(checker, count, Requests(done, picked, waiting));
    var n := Alone(checker, count + 1, Requests(done + 1, picked - 1, waiting));
    AloneIsValid(checker, count, done, picked, waiting);
    RequestsAre(done, picked, waiting);
    RequestsAre(done + 1, picked - 1, waiting);
    CountOnly(Limited(checker, count));
    assert n.requests == w.requests[done := Handled(TheRule)];
    OneStep(w, Advance(done), n, window);
  }

  // ---- The phases of the run -------------------------------------------------------------------

  lemma Nothing(w: World, window: nat)
    requires InFlight(w.requests, TheRule) <= window
    ensures Reaches(w, [], w, window)
  {
  }

  /** One more request arrives and is handed the rule. */
  lemma ArrivesAndPicks(checker: Checker, limit: nat, count: nat, done: nat, picked: nat, window: nat)
    requires Open(checker, limit, count) && picked < window
    ensures Reaches(Alone(checker, count, Requests(done, picked, 0)), [Arrive({0})] + [Advance(done + picked)],
                    Alone(checker, count, Requests(done, picked + 1, 0)), window)
  {
    hide Reaches, Requests;
    Arrives(checker, limit, count, done, picked, window);
    PickOne(checker, limit, count, done, picked, 1, window);
    Chain(Alone(checker, count, Requests(done, picked, 0)), [Arrive({0})],
          Alone(checker, count, Requests(done, picked, 1)), [Advance(done + picked)],
          Alone(checker, count, Requests(done, picked + 1, 0)), window);
  }

  /** One request after another, each counting before the next arrives. */
  lemma {:induction false} InTurn(checker: Checker, limit: nat, n: nat, window: nat) returns (es: seq<Event>)
    requires Open(checker, limit, 0) && n < limit && window > 0
    ensures Reaches(Alone(checker, 0, Requests(0, 0, 0)), es, Alone(checker, n, Requests(n, 0, 0)), window)
  {
    hide Reaches, Requests;
    var start := Alone(checker, 0, Requests(0, 0, 0));
    if n == 0 {
      es := [];
      RequestsAre(0, 0, 0);
      Nothing(start, window);
    } else {
      es := InTurn(checker, limit, n - 1, window);
      var picked := Alone(checker, n - 1, Requests(n - 1, 1, 0));
      ArrivesAndPicks(checker, limit, n - 1, n - 1, 0, window);
      Chain(start, es, Alone(checker, n - 1, Requests(n - 1, 0, 0)), [Arrive({0})] + [Advance(n - 1)], picked, window);
      es := es + ([Arrive({0})] + [Advance(n - 1)]);
      Counts(checker, n - 1, n - 1, 1, 0, window);
      Chain(start, es, picked, [Advance(n - 1)], Alone(checker, n, Requests(n, 0, 0)), window);
      es := es + [Advance(n - 1)];
    }
  }

  /** So many requests are handed the rule before any of them counts. */
  lemma {:induction false} AllPick(checker: Checker, limit: nat, count: nat, picked: nat, window: nat)
    returns (es: seq<Event>)
    requires Open(checker, limit, count) && picked <= window
    ensures Reaches(Alone(checker, count, Requests(count, 0, 0)), es,
                    Alone(checker, count, Requests(count, picked, 0)), window)
  {
    hide Reaches, Requests;
    var start := Alone(checker, count, Requests(count, 0, 0));
    if picked == 0 {
      es := [];
      RequestsAre(count, 0, 0);
      Nothing(start, window);
    } else {
      es := AllPick(checker, limit, count, picked - 1, window);
      ArrivesAndPicks(checker, limit, count, count, picked - 1, window);
      Chain(start, es, Alone(checker, count, Requests(count, picked - 1, 0)),
            [Arrive({0})] + [Advance(count + picked - 1)], Alone(checker, count, Requests(count, picked, 0)), window);
      es := es + ([Arrive({0})] + [Advance(count + picked - 1)]);
    }
  }

  lemma {:induction false} AllCount(checker: Checker, count: nat, picked: nat, window: nat) returns (es: seq<Event>)
    requires picked <= window
    ensures Reaches(Alone(checker, count, Requests(count, picked, 0)), es,
                    Alone(checker, count + picked, Requests(count + picked, 0, 0)), window)
    decreases picked
  {
    hide Reaches;
    if picked == 0 {
      es := [];
      RequestsAre(count, 0, 0);
      Nothing(Alone(checker, count, Requests(count, 0, 0)), window);
    } else {
      var rest := AllCount(checker, count + 1, picked - 1, window);
      Counts(checker, count, count, picked, 0, window);
      Chain(Alone(checker, count, Requests(count, picked, 0)), [Advance(count)],
            Alone(checker, count + 1, Requests(count + 1, picked - 1, 0)), rest,
            Alone(checker, count + picked, Requests(count + picked, 0, 0)), window);
      es := [Advance(count)] + rest;
    }
  }

  // ---- The results -----------------------------------------------------------------------------

  function Counter(w: World): nat { if w.sets != [] && w.sets[0] != [] then w.sets[0][0].requestCount else 0 }

  /**
   * For every limit n >= 1 and every W >= 1 the bound is reached from a server that has seen nothing,
   * with never more than W requests between being handed the rule and counting against it.
   */
  lemma BoundIsReached(checker: Checker, n: nat, window: nat) returns (es: seq<Event>)
    requires Open(checker, n, 0) && window > 0
    ensures Reaches(Alone(checker, 0, []), es, Alone(checker, n - 1 + window, Requests(n - 1 + window, 0, 0)), window)
  {
    hide Reaches, Requests;
    var start, last := Alone(checker, 0, []), Alone(checker, n - 1 + window, Requests(n - 1 + window, 0, 0));
    var done := Alone(checker, n - 1, Requests(n - 1, 0, 0));
    var picked := Alone(checker, n - 1, Requests(n - 1, window, 0));
    NoRequests();
    var inTurn := InTurn(checker, n, n - 1, window);
    var pick := AllPick(checker, n, n - 1, window, window);
    var count := AllCount(checker, n - 1, window, window);
    Chain(start, inTurn, done, pick, picked, window);
    Chain(start, inTurn + pick, picked, count, last, window);
    es := inTurn + pick + count;
  }

  lemma NoRequests()
    ensures Requests(0, 0, 0) == []
  {
  }

  /**
   * The limit is kept in every run with at most W requests at a time in the window exactly when W is at
   * most one, or the rule may not be used at all.
   */
  lemma LimitHoldsIffNoOverlap(checker: Checker, n: nat, window: nat)
    requires Limited(checker, 0).Capacity() == Some(n)
    ensures var start := Alone(checker, 0, []);
      (forall es :: Possible(start, es) && WindowAtMost(start, es, TheRule, window) ==> Counter(Run(start, es)) <= n)
      <==> n == 0 || window <= 1
  {
    var start := Alone(checker, 0, []);
    if n == 0 || window <= 1 {
      forall es | Possible(start, es) && WindowAtMost(start, es, TheRule, window)
        ensures Counter(Run(start, es)) <= n
      {
        CounterBound(start, es, TheRule, n, window);
      }
    } else {
      var es := BoundIsReached(checker, n, window);
      assert Counter(Run(start, es)) == n - 1 + window;
    }
  }
}
