/** The promise of `total`: how many attempts one call can take, exactly, for any retries. */
module Attempts {
  import opened Retry
  import opened PoolManager
  import opened Spending

  lemma AtStart(script: seq<Answer>, more: seq<Answer>)
    ensures script == more ==> Continues(script, [], more)
  {
    assert script[0..] == script;
  }

  /** The most attempts one call can take. */
  function MostAttempts(redirect: bool, arg: RetriesArg, default: RetriesArg, m: string): nat
    requires Finite(arg, default)
  {
    var pool := FromInt(arg, false, default);
    if !redirect then 1 + Waste(pool, m)
    else if arg.NotGiven? then MostLeft(pool, m)
    else Most(pool, FromInt(arg, true, GivenNone), m)
  }

  /** Whatever the server answers, one call takes no more. */
  lemma SentWithin(server: Server, req: Sent, redirect: bool, arg: RetriesArg, default: RetriesArg)
    requires Finite(arg, default)
    ensures |Fetch(server, [], req, redirect, arg, default).sent|
            <= MostAttempts(redirect, arg, default, req.httpMethod)
  {
    if arg.NotGiven? {
      LeftChainWithin(server, [], req, redirect, default);
    } else {
      ChainWithin(server, [], req, redirect, arg, default);
    }
    hide Fetch, MostLeft, Waste, Most, Finite;
  }

  /** And some server makes it take as many. */
  lemma ReachesMost(req: Sent, redirect: bool, arg: RetriesArg, default: RetriesArg) returns (server: Server)
    requires Finite(arg, default)
    ensures |Fetch(server, [], req, redirect, arg, default).sent|
            == MostAttempts(redirect, arg, default, req.httpMethod)
  {
    hide Fetch, Most, MostLeft, Script, LeftScript, Wasting, Scripted, Continues, Waste, FirstHop;
    var pool := FromInt(arg, false, default);
    if !redirect {
      var script := Wasting(pool, req) + ([DONE] + []);
      AtStart(script, script);
      var left := HopSpends(script, [], req, arg, default, DONE, 0, []);
      server := Scripted(script);
      FetchUnfolds(server, [], req, redirect, arg, default);
    } else if arg.NotGiven? {
      server := ReachesLeft(req, default);
    } else {
      var script := Script(pool, FromInt(arg, true, GivenNone), req);
      AtStart(script, script);
      ChainSpends(script, [], req, arg, default);
      server := Scripted(script);
    }
  }

  lemma ReachesLeft(req: Sent, default: RetriesArg) returns (server: Server)
    requires Finite(NotGiven, default)
    ensures |Fetch(server, [], req, true, NotGiven, default).sent|
            == MostLeft(FromInt(NotGiven, false, default), req.httpMethod)
  {
    hide Fetch, PoolFetch, Most, MostLeft, Script, LeftScript, Scripted, Continues, GoneAround, Around, Follow, FromInt;
    var pool := FromInt(NotGiven, false, default);
    var script := LeftScript(pool, req);
    AtStart(script, script);
    server := Scripted(script);
    var code, left := LeftSpends(script, [], req, pool);
    FetchUnfolds(server, [], req, true, NotGiven, default);
    var f := FirstHop(server, [], req, NotGiven, default);
    if !IsRedirect(f.result) {
      StopsAt(req, f.result, NotGiven);
    } else {
      var (moved, next) := GoneAround(left, req, code);
      FollowsAround(req, left, NotGiven, code);
      GivenIs(next, default);
      ChainSpends(script, f.sent, moved, AsRetry(next), default);
    }
  }

  /** One call stays within `total` + 1 attempts (without a total, the sum of the counters plus one) against every
      server exactly when `MostAttempts` does. */
  lemma LinearIff(req: Sent, redirect: bool, arg: RetriesArg, default: RetriesArg)
    requires Finite(arg, default)
    ensures (forall server ::
               |Fetch(server, [], req, redirect, arg, default).sent| <= Fuel(FromInt(arg, false, default)) + 1)
            <==> MostAttempts(redirect, arg, default, req.httpMethod) <= Fuel(FromInt(arg, false, default)) + 1
  {
    hide Fetch, MostAttempts, Fuel;
    var server := ReachesMost(req, redirect, arg, default);
    forall server
      ensures |Fetch(server, [], req, redirect, arg, default).sent|
              <= MostAttempts(redirect, arg, default, req.httpMethod)
    {
      SentWithin(server, req, redirect, arg, default);
    }
  }

  predicate AnyLeaves(r: Retry, m: string) {
    exists code :: code in REDIRECTS && Leaves(r, m, code)
  }

  lemma {:induction false} BestIfAny(pool: Retry, next: Retry, m: string, codes: seq<nat>)
    requires Countable(pool) && Countable(next)
    ensures Best(pool, next, m, codes) > 0 <==> exists code :: code in codes && Leaves(pool, m, code)
    decreases |codes|
  {
    hide Most, Leaves;
    if codes == [] {
    } else {
      BestIfAny(pool, next, m, codes[1..]);
    }
  }

  /** Connection errors alone can use up the total. */
  lemma WastesAll(r: Retry, m: string)
    requires Countable(r) && !r.Exhausted() && r.connect == Unlimited
    ensures Waste(r, m) == Fuel(r)
  {
    assert CLASSES[0] == Connects;
  }

  /** Where connection errors are bounded by the total alone: the promise holds exactly when no redirect can be
      followed. */
  lemma LinearIfNoRedirect(req: Sent, redirect: bool, arg: RetriesArg, default: RetriesArg)
    requires Finite(arg, default) && !arg.NotGiven?
    requires var pool := FromInt(arg, false, default); !pool.Exhausted() && pool.connect == Unlimited
    ensures (forall server ::
               |Fetch(server, [], req, redirect, arg, default).sent| <= Fuel(FromInt(arg, false, default)) + 1)
            <==> !(redirect && Follows(FromInt(arg, true, GivenNone))
                   && AnyLeaves(FromInt(arg, false, default), req.httpMethod))
  {
    LinearIff(req, redirect, arg, default);
    hide Fetch, Waste, Most, Best, Leaves;
    var pool, manager := FromInt(arg, false, default), FromInt(arg, true, GivenNone);
    WastesAll(pool, req.httpMethod);
    MostUnfolds(pool, manager, req.httpMethod);
    if Follows(manager) {
      BestIfAny(pool, Followed(manager), req.httpMethod, REDIRECTS);
    }
  }

  /** A number as `total` and nothing else, as `retries=total` or as `Retry(total)`. */
  predicate GivesTotal(arg: RetriesArg, total: nat) {
    arg == AsCount(Of(total)) || arg == AsRetry(FromCount(Of(total), Unlimited))
  }

  /** Given as a number, `total` bounds the attempts of a call only without redirects or when it is zero. */
  lemma TotalIsLinearIff(req: Sent, redirect: bool, arg: RetriesArg, default: RetriesArg, total: nat)
    requires GivesTotal(arg, total)
    ensures Finite(arg, default)
    ensures (forall server :: |Fetch(server, [], req, redirect, arg, default).sent| <= total + 1)
            <==> !redirect || total == 0
  {
    var pool, manager := FromInt(arg, false, default), FromInt(arg, true, GivenNone);
    assert Follows(manager) <==> total > 0;
    assert Leaves(pool, req.httpMethod, 301);
    LinearIfNoRedirect(req, redirect, arg, default);
    hide Fetch, Leaves;
  }

  /** Nothing but `total` bounds the retries, and no status is retried that could be a redirect. */
  predicate Plain(r: Retry, total: nat) {
    && r.Made() && r.total == Of(total) && r.connect == Unlimited && r.redirect == Unlimited && r.read == Unlimited
    && r.status == Unlimited && r.other == Unlimited && r.settings.statusForcelist == {}
  }

  /** Then the most attempts are as many as `PoolManager.ChainBounded` allows. */
  lemma {:induction false} PlainMost(r: Retry, total: nat, m: string)
    requires Plain(r, total)
    ensures Most(r, r, m) == Triangle(total)
    decreases total, 6
  {
    hide Triangle;
    WastesAll(r, m);
    TriangleStep(total);
    MostUnfolds(r, r, m);
    hide Waste, Most, Best;
    if total == 0 {
    } else {
      PlainBest(r, Followed(r), total - 1, m, REDIRECTS);
    }
  }

  lemma {:induction false} PlainBest(r: Retry, next: Retry, left: nat, m: string, codes: seq<nat>)
    requires Countable(r) && r.settings.statusForcelist == {} && Plain(next, left)
    requires forall code :: code in codes ==> code in REDIRECTS
    ensures Best(r, next, m, codes) == if codes == [] then 0 else Triangle(left)
    decreases left + 1, |codes|
  {
    hide Most, Triangle;
    if codes == [] {
    } else {
      PlainMost(next, left, MethodAfter(m, codes[0]));
      PlainBest(r, next, left, m, codes[1..]);
    }
  }

  /** For every total there is a server that makes one call take as many attempts as that bound. */
  lemma BoundReached(req: Sent, total: nat, default: RetriesArg) returns (server: Server)
    ensures Finite(AsRetry(FromCount(Of(total), Unlimited)), default)
    ensures |Fetch(server, [], req, true, AsRetry(FromCount(Of(total), Unlimited)), default).sent| == Triangle(total)
  {
    var r := FromCount(Of(total), Unlimited);
    PlainMost(r, total, req.httpMethod);
    hide Fetch, Most, Triangle;
    server := ReachesMost(req, true, AsRetry(r), default);
  }

  lemma {:induction false} NothingToSpend(r: Retry, m: string, classes: seq<Class>)
    requires Countable(r) && Fuel(r) == 0
    ensures BestSpend(r, m, classes) == 0
    decreases |classes|
  {
    if classes == [] {
    } else {
      NothingToSpend(r, m, classes[1..]);
    }
  }

  lemma {:induction false} OneToSpend(r: Retry, m: string, classes: seq<Class>)
    requires Countable(r) && Fuel(r) == 1
    ensures BestSpend(r, m, classes) <= 1
    decreases |classes|
  {
    if classes == [] {
    } else {
      OneToSpend(r, m, classes[1..]);
      if Spendable(r, m, classes[0]) {
        NothingToSpend(Spend(r, classes[0]), m, CLASSES);
      }
    }
  }

  /** With nothing but a total of two or more the pool can hand back a redirect at once, and all but one are left. */
  lemma PlainLeft(r: Retry, total: nat, m: string)
    requires Plain(r, total)
    ensures MostLeft(r, m) <= total + 1 <==> total <= 1
  {
    hide Triangle, Most, Best, BestSpend, Leaves;
    if total == 0 {
      NothingToSpend(r, m, CLASSES);
    } else {
      PlainBest(Strict(r), Followed(r), total - 1, m, REDIRECTS);
      MostLeftCovers(r, m);
      TriangleStep(total - 1);
      if total == 1 {
        OneToSpend(r, m, CLASSES);
      } else {
        TriangleMonotone(0, total - 2);
        TriangleStep(0);
      }
    }
  }

  /** Called without retries, on pools with nothing but a total: it bounds the attempts of a call only without redirects
      or when it is at most one. */
  lemma DefaultIsLinearIff(req: Sent, redirect: bool, default: RetriesArg, total: nat)
    requires Plain(FromInt(NotGiven, false, default), total)
    ensures Finite(NotGiven, default)
    ensures (forall server :: |Fetch(server, [], req, redirect, NotGiven, default).sent| <= total + 1)
            <==> !redirect || total <= 1
  {
    LinearIff(req, redirect, NotGiven, default);
    PlainLeft(FromInt(NotGiven, false, default), total, req.httpMethod);
    hide Fetch, MostLeft;
  }
}
