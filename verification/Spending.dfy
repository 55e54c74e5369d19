/** The most attempts that a server can make a call take: the retries one pool can be made to spend on a request, and
    what each redirect adds to that. */
module Spending {
  import opened Bytes
  import opened Retry
  import opened PoolManager

  const REDIRECTS: seq<nat> := [301, 302, 303, 307, 308]
  const CLASSES := [Connects, Reads, Redirects, Statuses, Others, Uncounted]

  // ---- within one pool -----------------------------------------------------------------------------

  function CountOf(r: Retry, c: Class): Count {
    match c
    case Connects => r.connect
    case Reads => r.read
    case Redirects => r.redirect
    case Statuses => r.status
    case Others => r.other
    case Uncounted => Unlimited
  }

  /** A server can make the pool count an event of this class. */
  predicate Open(r: Retry, m: string, c: Class) {
    match c
    case Connects => true
    case Others => true
    case Reads => r.MethodRetryable(m)
    case Redirects => r.MethodRetryable(m) && exists code :: code in REDIRECTS && code in r.settings.statusForcelist
    case Statuses =>
      r.MethodRetryable(m)
      && ((r.total.Of? && r.settings.respectRetryAfter)
          || exists code :: code in r.settings.statusForcelist && code != 0)
    case Uncounted => r.MethodRetryable(m) && 0 in r.settings.statusForcelist
  }

  /** How many events of a class the retries cover, as far as `total` goes. */
  function Room(r: Retry, m: string, c: Class): nat {
    if !Open(r, m, c) then 0
    else match CountOf(r, c)
         case Off => 0
         case Unlimited => Fuel(r)
         case Of(n) => if n < 0 then 0 else n
  }

  function Rooms(r: Retry, m: string, classes: seq<Class>): nat {
    if classes == [] then 0 else Room(r, m, classes[0]) + Rooms(r, m, classes[1..])
  }

  /** The most retries a pool can be made to spend on one request. */
  function Waste(r: Retry, m: string): nat {
    if r.Exhausted() then 0 else if Fuel(r) < Rooms(r, m, CLASSES) then Fuel(r) else Rooms(r, m, CLASSES)
  }

  /** From `a` to `b` it is `hits` less, unless both are all that `fuel` allows. */
  predicate Lowers(fuel: int, a: int, b: int, hits: nat) {
    b == a - hits || (a >= fuel && b >= fuel - 1)
  }

  lemma LowersBoth(fuel: int, a: nat, b: nat, hits: nat, c: nat, d: nat, more: nat)
    requires Lowers(fuel, a, b, hits) && Lowers(fuel, c, d, more)
    ensures Lowers(fuel, a + c, b + d, hits + more)
  {}

  lemma RoomAfter(r: Retry, q: Request, m: string, c: Class)
    requires Countable(r) && Increment(r, q).Again? && Open(r, m, ClassOf(q.event))
    ensures var next := Increment(r, q).retry;
            && Fuel(next) == Fuel(r) - 1
            && Lowers(Fuel(r), Room(r, m, c), Room(next, m, c), Hits(q, c))
  {
    OneSpent(r, q);
    CountsOne(r, q);
    IncrementBurns(r, q);
    hide Increment, Spent, Affords, Retry.MethodRetryable;
  }

  lemma StillCovered(r: Retry, q: Request)
    requires Countable(r) && Increment(r, q).Again? && (r.total == Unlimited ==> q.event != NoStatus)
    ensures !r.Exhausted() && !Increment(r, q).retry.Exhausted() && Fuel(r) > 0
  {
    OneSpent(r, q);
    CountsOne(r, q);
    ExhaustsOne(r, q);
    IncrementBurns(r, q);
    hide Increment, Spent;
  }

  function AllHits(q: Request, classes: seq<Class>): nat {
    if classes == [] then 0 else Hits(q, classes[0]) + AllHits(q, classes[1..])
  }

  lemma {:induction false} RoomsAfter(r: Retry, q: Request, m: string, classes: seq<Class>)
    requires Countable(r) && Increment(r, q).Again? && Open(r, m, ClassOf(q.event))
    ensures Lowers(Fuel(r), Rooms(r, m, classes), Rooms(Increment(r, q).retry, m, classes), AllHits(q, classes))
  {
    if classes == [] {
    } else {
      var next, c, rest := Increment(r, q).retry, classes[0], classes[1..];
      RoomAfter(r, q, m, c);
      RoomsAfter(r, q, m, rest);
      hide Increment, Room, Open, Retry.Made, Lowers, Fuel, Hits;
      LowersBoth(Fuel(r), Room(r, m, c), Room(next, m, c), Hits(q, c),
                 Rooms(r, m, rest), Rooms(next, m, rest), AllHits(q, rest));
    }
  }

  lemma EachIsHitOnce(q: Request)
    ensures AllHits(q, CLASSES) == 1
  {
    var none: seq<Class> := [];
    OneMoreClass(q, Uncounted, none);
    OneMoreClass(q, Others, [Uncounted]);
    OneMoreClass(q, Statuses, [Others, Uncounted]);
    OneMoreClass(q, Redirects, [Statuses, Others, Uncounted]);
    OneMoreClass(q, Reads, [Redirects, Statuses, Others, Uncounted]);
    OneMoreClass(q, Connects, [Reads, Redirects, Statuses, Others, Uncounted]);
    hide AllHits;
    assert [Uncounted] + none == [Uncounted] && [Others] + [Uncounted] == [Others, Uncounted];
    assert [Statuses] + [Others, Uncounted] == [Statuses, Others, Uncounted];
    assert [Redirects] + [Statuses, Others, Uncounted] == [Redirects, Statuses, Others, Uncounted];
    assert [Reads] + [Redirects, Statuses, Others, Uncounted] == [Reads, Redirects, Statuses, Others, Uncounted];
    assert [Connects] + [Reads, Redirects, Statuses, Others, Uncounted] == CLASSES;
  }

  lemma OneMoreClass(q: Request, c: Class, rest: seq<Class>)
    ensures AllHits(q, [c] + rest) == Hits(q, c) + AllHits(q, rest) && AllHits(q, []) == 0
  {
    assert ([c] + rest)[1..] == rest;
  }

  /** Each event spends just one of the retries that can be spent. */
  lemma WasteSteps(r: Retry, q: Request, m: string)
    requires Countable(r) && Increment(r, q).Again? && Open(r, m, ClassOf(q.event))
    ensures var next := Increment(r, q).retry;
            Countable(next) && next.settings == r.settings && Waste(next, m) + 1 == Waste(r, m)
  {
    IncrementBurns(r, q);
    StillCovered(r, q);
    RoomsAfter(r, q, m, CLASSES);
    EachIsHitOnce(q);
    hide Increment, Rooms, AllHits, Open, Retry.Exhausted, Fuel, Retry.Made;
  }

  /** A pool that does not follow redirects itself hands back a response with this code. */
  predicate Leaves(r: Retry, m: string, code: nat) {
    code in REDIRECTS && !(r.MethodRetryable(m) && code in r.settings.statusForcelist && r.settings.raiseOnStatus)
  }

  lemma RetriedIsOpen(r: Retry, m: string, response: Response)
    requires r.IsRetry(m, response.status, response.retryAfter)
    ensures Open(r, m, ClassOf(response.AsEvent()))
  {}

  lemma HandedBack(r: Retry, m: string, response: Response)
    requires response.RedirectLocation().Some?
    requires !r.IsRetry(m, response.status, response.retryAfter) || !r.settings.raiseOnStatus
    ensures Leaves(r, m, response.status)
  {}

  ghost predicate PoolKeepsTo(f: Fetched, n: nat, r: Retry, m: string) {
    && |f.sent| <= n
    && (f.result.Returned? && f.result.response.RedirectLocation().Some? ==> Leaves(r, m, f.result.response.status))
  }

  lemma KeepsToOn(f: Fetched, n: nat, r: Retry, s: Retry, m: string)
    requires PoolKeepsTo(f, n, s, m) && r.settings == s.settings
    ensures PoolKeepsTo(f, n, r, m)
  {}

  /** Whatever the server answers, one pool sends a request no more often than the retries to be spent allow. */
  lemma {:induction false} PoolWithin(server: Server, sent: seq<Sent>, req: Sent, r: Retry)
    requires Countable(r)
    ensures PoolKeepsTo(PoolFetch(server, sent, req, req.origin, r, false, false),
                        |sent| + 1 + Waste(r, req.httpMethod), r, req.httpMethod)
    decreases Fuel(r)
  {
    var now, m := sent + [req], req.httpMethod;
    match server(now)
    case PoolIsEmpty =>
    case ConnectFails => ErrorWithin(server, sent, req, r, ConnectError);
    case ReadFails => ErrorWithin(server, sent, req, r, ReadError);
    case OtherFails => ErrorWithin(server, sent, req, r, OtherError);
    case Answered(response) =>
      if response.RedirectLocation().Some?
         && (!r.IsRetry(m, response.status, response.retryAfter) || !r.settings.raiseOnStatus) {
        HandedBack(r, m, response);
      }
      if r.IsRetry(m, response.status, response.retryAfter) {
        RetriedIsOpen(r, m, response);
        AgainWithin(server, sent, req, r, response.AsEvent());
      }
      hide Leaves, Open, Waste, Retry.IsRetry, Increment, Response.RedirectLocation, Response.AsEvent;
  }

  lemma {:induction false} AgainWithin(server: Server, sent: seq<Sent>, req: Sent, r: Retry, event: Event)
    requires Countable(r) && Open(r, req.httpMethod, ClassOf(event))
    ensures var q := Request(Some(req.httpMethod), req.target, event);
            Increment(r, q).Again? ==>
              var next := Increment(r, q).retry;
              && Countable(next)
              && PoolKeepsTo(PoolFetch(server, sent + [req], req, req.origin, next, false, false),
                             |sent| + 1 + Waste(r, req.httpMethod), r, req.httpMethod)
    decreases Fuel(r), 0
  {
    var q := Request(Some(req.httpMethod), req.target, event);
    if Increment(r, q).Again? {
      var next := Increment(r, q).retry;
      IncrementBurns(r, q);
      WasteSteps(r, q, req.httpMethod);
      PoolWithin(server, sent + [req], req, next);
      hide PoolFetch, Waste, PoolKeepsTo, Increment, Open;
      KeepsToOn(PoolFetch(server, sent + [req], req, req.origin, next, false, false),
                |sent| + 1 + Waste(r, req.httpMethod), r, next, req.httpMethod);
    }
  }

  lemma {:induction false} ErrorWithin(server: Server, sent: seq<Sent>, req: Sent, r: Retry, error: Event)
    requires Countable(r) && error.IsError()
    ensures PoolKeepsTo(AfterError(server, sent + [req], req, req.origin, r, false, false, error),
                        |sent| + 1 + Waste(r, req.httpMethod), r, req.httpMethod)
    decreases Fuel(r), 1
  {
    var q := Request(Some(req.httpMethod), req.target, error);
    if Increment(r, q).Again? {
      ReadsAreOpen(r, q);
      AgainWithin(server, sent, req, r, error);
    }
    hide Waste, Increment, Open, PoolFetch;
  }

  lemma ReadsAreOpen(r: Retry, q: Request)
    requires Countable(r) && Increment(r, q).Again? && q.event.IsError() && q.httpMethod.Some?
    ensures Open(r, q.httpMethod.value, ClassOf(q.event))
  {}

  // ---- across redirects ----------------------------------------------------------------------------

  /** The manager's retries cover one more redirect. */
  predicate Follows(r: Retry) {
    !r.Exhausted() && r.total.Covers(1) && r.redirect.Covers(1)
  }

  function Followed(r: Retry): (next: Retry)
    requires Countable(r) && Follows(r)
    ensures Countable(next) && Fuel(next) == Fuel(r) - 1 && next.settings == r.settings
  {
    r.(total := r.total.Minus(1), redirect := r.redirect.Minus(1))
  }

  /** The method a redirect with this code goes on with. */
  function MethodAfter(m: string, code: nat): string {
    if code == 303 then "GET" else m
  }

  /** The most attempts one call can take whose first pool starts from `pool` and whose redirects are counted against
      `manager`: those of the first hop, and the most any redirect can lead to. */
  function Most(pool: Retry, manager: Retry, m: string): (n: nat)
    requires Countable(pool) && Countable(manager)
    ensures n > 0
    decreases Fuel(manager), 0
  {
    1 + Waste(pool, m) + if Follows(manager) then Best(pool, Followed(manager), m, REDIRECTS) else 0
  }

  function Best(pool: Retry, next: Retry, m: string, codes: seq<nat>): nat
    requires Countable(pool) && Countable(next)
    decreases Fuel(next), |codes|
  {
    if codes == [] then 0
    else
      var rest := Best(pool, next, m, codes[1..]);
      if !Leaves(pool, m, codes[0]) then rest
      else
        var here := Most(next, next, MethodAfter(m, codes[0]));
        if here > rest then here else rest
  }

  lemma {:induction false} BestIsBest(pool: Retry, next: Retry, m: string, codes: seq<nat>, code: nat)
    requires Countable(pool) && Countable(next) && code in codes && Leaves(pool, m, code)
    ensures Most(next, next, MethodAfter(m, code)) <= Best(pool, next, m, codes)
    decreases |codes|
  {
    hide Most;
    if codes[0] != code {
      BestIsBest(pool, next, m, codes[1..], code);
    }
  }

  function BestCode(pool: Retry, next: Retry, m: string, codes: seq<nat>): (code: nat)
    requires Countable(pool) && Countable(next) && Best(pool, next, m, codes) > 0
    ensures code in codes && Leaves(pool, m, code)
            && Most(next, next, MethodAfter(m, code)) == Best(pool, next, m, codes)
    decreases |codes|
  {
    if Best(pool, next, m, codes) == Best(pool, next, m, codes[1..]) then BestCode(pool, next, m, codes[1..])
    else codes[0]
  }

  /** Only the counters and settings matter. */
  predicate SameRetries(a: Retry, b: Retry) {
    a.(history := b.history) == b
  }

  lemma {:induction false} MostForgets(a: Retry, b: Retry, c: Retry, d: Retry, m: string)
    requires Countable(a) && Countable(b) && Countable(c) && Countable(d) && SameRetries(a, c) && SameRetries(b, d)
    ensures Most(a, b, m) == Most(c, d, m)
    decreases Fuel(b), 0
  {
    WasteForgets(a, c, m);
    if Follows(b) {
      BestForgets(a, Followed(b), c, Followed(d), m, REDIRECTS);
    }
    hide Waste, Best, Retry.Exhausted, Fuel;
  }

  lemma WasteForgets(a: Retry, c: Retry, m: string)
    requires SameRetries(a, c)
    ensures Waste(a, m) == Waste(c, m)
  {
    RoomsForget(a, c, m, CLASSES);
  }

  lemma {:induction false} RoomsForget(a: Retry, c: Retry, m: string, classes: seq<Class>)
    requires SameRetries(a, c)
    ensures Rooms(a, m, classes) == Rooms(c, m, classes)
    decreases |classes|
  {
    if classes == [] {
    } else {
      RoomsForget(a, c, m, classes[1..]);
    }
  }

  lemma {:induction false} BestForgets(a: Retry, b: Retry, c: Retry, d: Retry, m: string, codes: seq<nat>)
    requires Countable(a) && Countable(b) && Countable(c) && Countable(d) && SameRetries(a, c) && SameRetries(b, d)
    ensures Best(a, b, m, codes) == Best(c, d, m, codes)
    decreases Fuel(b), |codes|
  {
    if codes == [] {
    } else {
      BestForgets(a, b, c, d, m, codes[1..]);
      MostForgets(b, b, d, d, MethodAfter(m, codes[0]));
    }
  }

  lemma FollowIs(r: Retry, q: Request)
    requires Countable(r) && q.event.Redirected?
    ensures Increment(r, q).Again? <==> Follows(r)
    ensures Follows(r) ==> Countable(Increment(r, q).retry) && SameRetries(Increment(r, q).retry, Followed(r))
                           && Increment(r, q).retry.settings == r.settings
  {
    OneSpent(r, q);
    CountsOne(r, q);
    ExhaustsOne(r, q);
    SpentMade(r, q);
    hide Increment, Spent;
  }

  lemma HopWithin(server: Server, sent: seq<Sent>, req: Sent, arg: RetriesArg, default: RetriesArg)
    requires Finite(arg, default)
    ensures PoolKeepsTo(FirstHop(server, sent, req, arg, default),
                        |sent| + 1 + Waste(FromInt(arg, false, default), req.httpMethod),
                        FromInt(arg, false, default), req.httpMethod)
  {
    PoolWithin(server, sent, req, FromInt(arg, false, default));
    hide PoolFetch;
  }

  /** Where a redirect leads: the next hop's share is among what the best redirect can do. */
  lemma GoIsCounted(req: Sent, result: Result, redirect: bool, arg: RetriesArg, default: RetriesArg)
    requires Finite(arg, default) && !arg.NotGiven? && Follow(req, result, redirect, arg).Go?
    requires Leaves(FromInt(arg, false, default), req.httpMethod, result.response.status)
    ensures var go, manager := Follow(req, result, redirect, arg), FromInt(arg, true, GivenNone);
            && redirect && Follows(manager) && Countable(go.retries)
            && Most(go.retries, go.retries, go.req.httpMethod)
               <= Best(FromInt(arg, false, default), Followed(manager), req.httpMethod, REDIRECTS)
  {
    var pool, manager := FromInt(arg, false, default), FromInt(arg, true, GivenNone);
    var loc, code := result.response.RedirectLocation().value, result.response.status;
    var moved := Redirect(req, result.response, loc, manager.settings.removeHeadersOnRedirect);
    var q := Request(Some(moved.httpMethod), req.target, result.response.AsEvent());
    RedirectMoves(req, result.response, loc, manager.settings.removeHeadersOnRedirect);
    FollowIs(manager, q);
    var next := Increment(manager, q).retry;
    MostForgets(next, next, Followed(manager), Followed(manager), moved.httpMethod);
    BestIsBest(pool, Followed(manager), req.httpMethod, REDIRECTS, code);
    hide Most, Best, Increment, FromInt, Leaves, Redirect, Retry.Made;
  }

  /** Whatever the server answers, one call that is given its retries takes no more than that. */
  lemma {:induction false} ChainWithin(server: Server, sent: seq<Sent>, req: Sent, redirect: bool, arg: RetriesArg,
                                       default: RetriesArg)
    requires Finite(arg, default) && !arg.NotGiven?
    ensures var pool, manager := FromInt(arg, false, default), FromInt(arg, true, GivenNone);
            |Fetch(server, sent, req, redirect, arg, default).sent|
            <= |sent| + if redirect then Most(pool, manager, req.httpMethod) else 1 + Waste(pool, req.httpMethod)
    decreases Budget(arg, default)
  {
    hide Fetch, FirstHop, Follow, Most, Best, Waste, Leaves, Response.RedirectLocation;
    HopFacts(server, sent, req, arg, default);
    HopWithin(server, sent, req, arg, default);
    FetchUnfolds(server, sent, req, redirect, arg, default);
    var f := FirstHop(server, sent, req, arg, default);
    var pool, manager := FromInt(arg, false, default), FromInt(arg, true, GivenNone);
    MostUnfolds(pool, manager, req.httpMethod);
    match Follow(req, f.result, redirect, arg)
    case Stop(_) =>
    case Go(moved, next) =>
      GoFacts(req, f.result, redirect, arg, default);
      GoIsCounted(req, f.result, redirect, arg, default);
      ChainWithin(server, f.sent, moved, redirect, AsRetry(next), default);
  }

  lemma MostUnfolds(pool: Retry, manager: Retry, m: string)
    requires Countable(pool) && Countable(manager)
    ensures Most(pool, manager, m) == 1 + Waste(pool, m)
            + if Follows(manager) then Best(pool, Followed(manager), m, REDIRECTS) else 0
  {
    hide Waste, Best;
  }

  // ---- a server that makes the call take as many ----------------------------------------------------

  /** Gives the answers of a script one after another. */
  function Scripted(script: seq<Answer>): Server {
    (sent: seq<Sent>) => if 0 < |sent| <= |script| then script[|sent| - 1] else PoolIsEmpty
  }

  /** An ordinary answer, which ends the call when no retry is left to spend. */
  const DONE := Answered(Response(200, None, false))

  predicate IsRedirect(result: Result) {
    result.Returned? && result.response.RedirectLocation().Some?
  }

  /** A redirect to where the request already went. */
  function Around(req: Sent, code: nat): Response {
    Response(code, Some(Location(req.origin, req.target)), false)
  }

  function Spare(r: Retry, m: string, classes: seq<Class>): (c: Class)
    requires Rooms(r, m, classes) > 0
    ensures Room(r, m, c) > 0
  {
    if Room(r, m, classes[0]) > 0 then classes[0] else Spare(r, m, classes[1..])
  }

  /** An answer that makes the pool count an event of a class. */
  ghost function Provoke(r: Retry, req: Sent, c: Class): Answer
    requires Open(r, req.httpMethod, c)
  {
    match c
    case Connects => ConnectFails
    case Reads => ReadFails
    case Others => OtherFails
    case Redirects => var code :| code in REDIRECTS && code in r.settings.statusForcelist; Answered(Around(req, code))
    case Statuses =>
      if r.total.Of? && r.settings.respectRetryAfter then Answered(Response(503, None, true))
      else var code :| code in r.settings.statusForcelist && code != 0; Answered(Response(code, None, false))
    case Uncounted => Answered(Response(0, None, false))
  }

  function EventOf(a: Answer): Event
    requires !a.PoolIsEmpty?
  {
    match a
    case ConnectFails => ConnectError
    case ReadFails => ReadError
    case OtherFails => OtherError
    case Answered(response) => response.AsEvent()
  }

  lemma ProvokesClass(r: Retry, req: Sent, c: Class)
    requires Open(r, req.httpMethod, c)
    ensures !Provoke(r, req, c).PoolIsEmpty? && ClassOf(EventOf(Provoke(r, req, c))) == c
  {}

  lemma ProvokedIsCounted(r: Retry, req: Sent, c: Class)
    requires Countable(r) && !r.Exhausted() && Fuel(r) > 0 && Room(r, req.httpMethod, c) > 0
    ensures !Provoke(r, req, c).PoolIsEmpty?
    ensures Increment(r, Request(Some(req.httpMethod), req.target, EventOf(Provoke(r, req, c)))).Again?
  {
    ProvokesClass(r, req, c);
    var q := Request(Some(req.httpMethod), req.target, EventOf(Provoke(r, req, c)));
    OneSpent(r, q);
    CountsOne(r, q);
    hide Increment, Spent, Provoke, EventOf, ClassOf;
  }

  /** An event of this class would be counted. */
  predicate Spendable(r: Retry, m: string, c: Class) {
    !r.Exhausted() && Fuel(r) > 0 && Room(r, m, c) > 0
  }

  /** An answer that makes the pool count such an event, and the retries it leaves. */
  ghost function Provoked(r: Retry, req: Sent, c: Class): (p: (Answer, Retry))
    requires Countable(r) && Spendable(r, req.httpMethod, c)
    ensures Countable(p.1) && Fuel(p.1) < Fuel(r) && p.1.settings == r.settings
  {
    var a := Provoke(r, req, c);
    ProvokedIsCounted(r, req, c);
    ProvokesClass(r, req, c);
    var q := Request(Some(req.httpMethod), req.target, EventOf(a));
    IncrementBurns(r, q);
    (a, Increment(r, q).retry)
  }

  lemma ProvokedIsRetried(r: Retry, req: Sent, c: Class)
    requires Room(r, req.httpMethod, c) > 0 && Fuel(r) > 0
    ensures var a := Provoke(r, req, c);
            a.Answered? ==> r.IsRetry(req.httpMethod, a.response.status, a.response.retryAfter)
  {}

  lemma ProvokedGoesOn(server: Server, sent: seq<Sent>, req: Sent, r: Retry, c: Class)
    requires Countable(r) && Spendable(r, req.httpMethod, c) && server(sent + [req]) == Provoked(r, req, c).0
    ensures PoolFetch(server, sent, req, req.origin, r, false, false)
         == PoolFetch(server, sent + [req], req, req.origin, Provoked(r, req, c).1, false, false)
  {
    ProvokedIsCounted(r, req, c);
    ProvokesClass(r, req, c);
    ProvokedIsRetried(r, req, c);
    hide Provoke, Increment, Room, Retry.IsRetry, Open;
  }

  /** While a pool can be made to spend retries, there is such an answer. */
  function Costly(r: Retry, m: string): (c: Class)
    requires Countable(r) && Waste(r, m) > 0
    ensures Spendable(r, m, c)
  {
    Spare(r, m, CLASSES)
  }

  lemma CostlyWastes(r: Retry, req: Sent)
    requires Countable(r) && Waste(r, req.httpMethod) > 0
    ensures Waste(Provoked(r, req, Costly(r, req.httpMethod)).1, req.httpMethod) + 1 == Waste(r, req.httpMethod)
  {
    var c := Costly(r, req.httpMethod);
    ProvokedIsCounted(r, req, c);
    ProvokesClass(r, req, c);
    WasteSteps(r, Request(Some(req.httpMethod), req.target, EventOf(Provoke(r, req, c))), req.httpMethod);
    hide Waste, Increment, Provoke, EventOf;
  }

  /** Answers that cost the pool all it can be made to spend. */
  ghost function Wasting(r: Retry, req: Sent): (answers: seq<Answer>)
    requires Countable(r)
    ensures |answers| == Waste(r, req.httpMethod)
    decreases Fuel(r)
  {
    if Waste(r, req.httpMethod) == 0 then []
    else
      var (a, next) := Provoked(r, req, Costly(r, req.httpMethod));
      CostlyWastes(r, req);
      [a] + Wasting(next, req)
  }

  /** The script continues like this after what was sent. */
  ghost predicate Continues(script: seq<Answer>, sent: seq<Sent>, answers: seq<Answer>) {
    |sent| <= |script| && answers <= script[|sent|..]
  }

  lemma ContinuesOne(script: seq<Answer>, sent: seq<Sent>, req: Sent, a: Answer, more: seq<Answer>)
    requires Continues(script, sent, [a] + more)
    ensures Scripted(script)(sent + [req]) == a && Continues(script, sent + [req], more)
  {
    var rest := script[|sent|..];
    assert rest[0] == ([a] + more)[0] == a && rest[1..] == script[|sent| + 1..] && ([a] + more)[1..] == more;
    assert rest == ([a] + more) + rest[1 + |more|..];
    assert rest[1..] == more + rest[1 + |more|..];
  }

  lemma {:induction false} PoolSpends(script: seq<Answer>, sent: seq<Sent>, req: Sent, r: Retry, more: seq<Answer>)
      returns (left: Retry)
    requires Countable(r) && Continues(script, sent, Wasting(r, req) + more)
    ensures Countable(left) && left.settings == r.settings && Waste(left, req.httpMethod) == 0
    ensures var spent := sent + Repeat(req, Waste(r, req.httpMethod));
            && Continues(script, spent, more)
            && PoolFetch(Scripted(script), sent, req, req.origin, r, false, false)
            == PoolFetch(Scripted(script), spent, req, req.origin, left, false, false)
    decreases Fuel(r)
  {
    hide PoolFetch, Scripted, Continues, Provoked, Costly, Waste, Spendable;
    if Waste(r, req.httpMethod) == 0 {
      left := r;
      assert sent + Repeat(req, 0) == sent && [] + more == more;
    } else {
      var (a, next) := Provoked(r, req, Costly(r, req.httpMethod));
      CostlyWastes(r, req);
      assert Wasting(r, req) + more == [a] + (Wasting(next, req) + more);
      ContinuesOne(script, sent, req, a, Wasting(next, req) + more);
      ProvokedGoesOn(Scripted(script), sent, req, r, Costly(r, req.httpMethod));
      left := PoolSpends(script, sent + [req], req, next, more);
      RepeatMore(sent, req, Waste(next, req.httpMethod));
    }
  }

  /** With nothing left to spend the pool hands back what it is answered, or gives up. */
  lemma LastOne(server: Server, sent: seq<Sent>, req: Sent, r: Retry, code: nat)
    requires Countable(r) && Waste(r, req.httpMethod) == 0
    ensures var f := PoolFetch(server, sent, req, req.origin, r, false, false);
            && (server(sent + [req]) == DONE ==> f.sent == sent + [req] && !IsRedirect(f.result))
            && (server(sent + [req]) == Answered(Around(req, code)) && Leaves(r, req.httpMethod, code) ==>
                  f == Fetched(Returned(Around(req, code), r), sent + [req]))
  {
    NotAgain(req, r, Around(req, code));
    NotAgain(req, r, DONE.response);
    hide Increment, Waste, Repeat;
  }

  lemma NotAgain(req: Sent, r: Retry, response: Response)
    requires Countable(r) && Waste(r, req.httpMethod) == 0
    ensures r.IsRetry(req.httpMethod, response.status, response.retryAfter) ==>
              !Increment(r, Request(Some(req.httpMethod), req.target, response.AsEvent())).Again?
  {
    var q := Request(Some(req.httpMethod), req.target, response.AsEvent());
    if r.IsRetry(req.httpMethod, response.status, response.retryAfter) {
      RetriedIsOpen(r, req.httpMethod, response);
      if Increment(r, q).Again? {
        WasteSteps(r, q, req.httpMethod);
      }
    }
    hide Increment, Open;
  }

  /** The request and the retries after a redirect to where the request already went. */
  function GoneAround(manager: Retry, req: Sent, code: nat): (p: (Sent, Retry))
    requires Countable(manager) && Follows(manager) && code in REDIRECTS
    ensures Countable(p.1) && SameRetries(p.1, Followed(manager)) && Fuel(p.1) < Fuel(manager)
    ensures p.0.httpMethod == MethodAfter(req.httpMethod, code)
  {
    var moved := Redirect(req, Around(req, code), Location(req.origin, req.target),
                          manager.settings.removeHeadersOnRedirect);
    var q := Request(Some(moved.httpMethod), req.target, Around(req, code).AsEvent());
    FollowIs(manager, q);
    (moved.(origin := req.origin, target := req.target), Increment(manager, q).retry)
  }

  lemma FollowsAround(req: Sent, left: Retry, arg: RetriesArg, code: nat)
    requires code in REDIRECTS && Countable(ManagerRetries(arg, left)) && Follows(ManagerRetries(arg, left))
    ensures var (moved, next) := GoneAround(ManagerRetries(arg, left), req, code);
            Follow(req, Returned(Around(req, code), left), true, arg) == Go(moved, next)
  {
    var manager := ManagerRetries(arg, left);
    var moved := Redirect(req, Around(req, code), Location(req.origin, req.target),
                          manager.settings.removeHeadersOnRedirect);
    FollowIs(manager, Request(Some(moved.httpMethod), req.target, Around(req, code).AsEvent()));
    hide ManagerRetries, Increment, Redirect;
  }

  /** The answers that make a call take the most attempts. */
  ghost function Script(pool: Retry, manager: Retry, req: Sent): (answers: seq<Answer>)
    requires Countable(pool) && Countable(manager)
    ensures |answers| == Most(pool, manager, req.httpMethod)
    decreases Fuel(manager)
  {
    if Follows(manager) && Best(pool, Followed(manager), req.httpMethod, REDIRECTS) > 0 then
      var code := BestCode(pool, Followed(manager), req.httpMethod, REDIRECTS);
      var (moved, next) := GoneAround(manager, req, code);
      MostForgets(next, next, Followed(manager), Followed(manager), moved.httpMethod);
      Wasting(pool, req) + ([Answered(Around(req, code))] + Script(next, next, moved))
    else
      Wasting(pool, req) + ([DONE] + [])
  }

  lemma HopSpends(script: seq<Answer>, sent: seq<Sent>, req: Sent, arg: RetriesArg, default: RetriesArg,
                  last: Answer, code: nat, more: seq<Answer>) returns (left: Retry)
    requires Finite(arg, default)
             && Continues(script, sent, Wasting(FromInt(arg, false, default), req) + ([last] + more))
    requires last == DONE
             || (last == Answered(Around(req, code)) && Leaves(FromInt(arg, false, default), req.httpMethod, code))
    ensures var f := FirstHop(Scripted(script), sent, req, arg, default);
            && |f.sent| == |sent| + Waste(FromInt(arg, false, default), req.httpMethod) + 1
            && Continues(script, f.sent, more)
            && (last == DONE ==> !IsRedirect(f.result))
            && (last == Answered(Around(req, code)) ==> f.result == Returned(Around(req, code), left))
  {
    var pool := FromInt(arg, false, default);
    hide PoolFetch, Scripted, Continues, Waste, FromInt, Wasting, Leaves;
    left := PoolSpends(script, sent, req, pool, [last] + more);
    var spent := sent + Repeat(req, Waste(pool, req.httpMethod));
    ContinuesOne(script, spent, req, last, more);
    LeavesSame(pool, left, req.httpMethod, code);
    LastOne(Scripted(script), spent, req, left, code);
  }

  lemma LeavesSame(r: Retry, s: Retry, m: string, code: nat)
    requires r.settings == s.settings
    ensures Leaves(r, m, code) == Leaves(s, m, code)
  {}

  /** Against that server the call takes just as many as its script has answers. */
  lemma {:induction false} ChainSpends(script: seq<Answer>, sent: seq<Sent>, req: Sent, arg: RetriesArg,
                                       default: RetriesArg)
    requires Finite(arg, default) && !arg.NotGiven?
    requires Continues(script, sent, Script(FromInt(arg, false, default), FromInt(arg, true, GivenNone), req))
    ensures |Fetch(Scripted(script), sent, req, true, arg, default).sent|
         == |sent| + Most(FromInt(arg, false, default), FromInt(arg, true, GivenNone), req.httpMethod)
    decreases Fuel(FromInt(arg, true, GivenNone))
  {
    hide Fetch, FirstHop, Follow, Most, Best, Waste, Leaves, Wasting, Scripted, Continues, GoneAround, Around,
      Retry.Exhausted, Fuel,
      FromInt, Follows, Retry.Made, MethodAfter;
    var pool, manager, server := FromInt(arg, false, default), FromInt(arg, true, GivenNone), Scripted(script);
    MostUnfolds(pool, manager, req.httpMethod);
    FetchUnfolds(server, sent, req, true, arg, default);
    var f := FirstHop(server, sent, req, arg, default);
    if Follows(manager) && Best(pool, Followed(manager), req.httpMethod, REDIRECTS) > 0 {
      var code := BestCode(pool, Followed(manager), req.httpMethod, REDIRECTS);
      var (moved, next) := GoneAround(manager, req, code);
      var left := HopSpends(script, sent, req, arg, default, Answered(Around(req, code)), code,
                            Script(next, next, moved));
      FollowsAround(req, left, arg, code);
      MostForgets(next, next, Followed(manager), Followed(manager), moved.httpMethod);
      GivenIs(next, default);
      ChainSpends(script, f.sent, moved, AsRetry(next), default);
    } else {
      var left := HopSpends(script, sent, req, arg, default, DONE, 0, []);
      StopsAt(req, f.result, arg);
    }
  }

  lemma GivenIs(r: Retry, default: RetriesArg)
    ensures FromInt(AsRetry(r), false, default) == r && FromInt(AsRetry(r), true, GivenNone) == r
  {}

  lemma StopsAt(req: Sent, result: Result, arg: RetriesArg)
    requires !IsRedirect(result)
    ensures Follow(req, result, true, arg).Stop?
  {}

  // ---- called without retries -----------------------------------------------------------------------

  function Spend(r: Retry, c: Class): (next: Retry)
    requires Countable(r) && Fuel(r) > 0 && (r.total == Unlimited ==> c != Uncounted && CountOf(r, c).Covers(1))
    ensures Countable(next) && Fuel(next) == Fuel(r) - 1 && next.settings == r.settings
  {
    var spent := r.(total := r.total.Minus(1));
    MinusLeft(r.total, 1);
    MinusLeft(CountOf(r, c), 1);
    match c
    case Connects => spent.(connect := r.connect.Minus(1))
    case Reads => spent.(read := r.read.Minus(1))
    case Redirects => spent.(redirect := r.redirect.Minus(1))
    case Statuses => spent.(status := r.status.Minus(1))
    case Others => spent.(other := r.other.Minus(1))
    case Uncounted => spent
  }

  /** Every redirect code on the list of statuses is retried as long as there are retries. */
  function Strict(r: Retry): (s: Retry)
    requires Countable(r)
    ensures Countable(s)
  {
    r.(settings := r.settings.(raiseOnStatus := true))
  }

  /** The most attempts one call can take when the first redirect is counted against what the pool has left: the pool
      either spends one more retry or hands back a redirect now. */
  function MostLeft(r: Retry, m: string): (n: nat)
    requires Countable(r)
    ensures n > 0
    decreases Fuel(r), |CLASSES| + 1
  {
    var now := if Follows(r) then Best(Strict(r), Followed(r), m, REDIRECTS) else 0;
    var later := BestSpend(r, m, CLASSES);
    1 + if later > now then later else now
  }

  function BestSpend(r: Retry, m: string, classes: seq<Class>): nat
    requires Countable(r)
    decreases Fuel(r), |classes|
  {
    if classes == [] then 0
    else
      var rest := BestSpend(r, m, classes[1..]);
      if !Spendable(r, m, classes[0]) then rest
      else
        var here := MostLeft(Spend(r, classes[0]), m);
        if here > rest then here else rest
  }

  lemma {:induction false} BestSpendIsBest(r: Retry, m: string, classes: seq<Class>, c: Class)
    requires Countable(r) && c in classes && Spendable(r, m, c)
    ensures MostLeft(Spend(r, c), m) <= BestSpend(r, m, classes)
    decreases |classes|
  {
    hide MostLeft;
    if classes[0] != c {
      BestSpendIsBest(r, m, classes[1..], c);
    }
  }

  function BestClass(r: Retry, m: string, classes: seq<Class>): (c: Class)
    requires Countable(r) && BestSpend(r, m, classes) > 0
    ensures Spendable(r, m, c) && MostLeft(Spend(r, c), m) == BestSpend(r, m, classes)
    decreases |classes|
  {
    if BestSpend(r, m, classes) == BestSpend(r, m, classes[1..]) then BestClass(r, m, classes[1..]) else classes[0]
  }

  lemma {:induction false} MostLeftForgets(a: Retry, b: Retry, m: string)
    requires Countable(a) && Countable(b) && SameRetries(a, b)
    ensures MostLeft(a, m) == MostLeft(b, m)
    decreases Fuel(a), |CLASSES| + 1
  {
    BestSpendForgets(a, b, m, CLASSES);
    if Follows(a) {
      BestForgets(Strict(a), Followed(a), Strict(b), Followed(b), m, REDIRECTS);
    }
    hide Best, BestSpend, Retry.Exhausted, Fuel;
  }

  lemma {:induction false} BestSpendForgets(a: Retry, b: Retry, m: string, classes: seq<Class>)
    requires Countable(a) && Countable(b) && SameRetries(a, b)
    ensures BestSpend(a, m, classes) == BestSpend(b, m, classes)
    decreases Fuel(a), |classes|
  {
    if classes == [] {
    } else {
      BestSpendForgets(a, b, m, classes[1..]);
      SpendableForgets(a, b, m, classes[0]);
      if Spendable(a, m, classes[0]) {
        MostLeftForgets(Spend(a, classes[0]), Spend(b, classes[0]), m);
      }
      hide MostLeft, Spendable;
    }
  }

  lemma SpendableForgets(a: Retry, b: Retry, m: string, c: Class)
    requires Countable(a) && Countable(b) && SameRetries(a, b)
    ensures Spendable(a, m, c) == Spendable(b, m, c)
    ensures Fuel(a) == Fuel(b) && (Spendable(a, m, c) ==> SameRetries(Spend(a, c), Spend(b, c)))
  {}

  lemma IncrementIsSpend(r: Retry, q: Request, m: string)
    requires Countable(r) && Increment(r, q).Again? && Open(r, m, ClassOf(q.event))
    ensures var c := ClassOf(q.event);
            && Spendable(r, m, c) && Countable(Increment(r, q).retry) && Increment(r, q).retry.settings == r.settings
            && Fuel(Increment(r, q).retry) < Fuel(r)
            && SameRetries(Increment(r, q).retry, Spend(r, c))
  {
    StillCovered(r, q);
    OneSpent(r, q);
    CountsOne(r, q);
    MinusCovers(r.connect, 0);
    MinusCovers(r.read, 0);
    MinusCovers(r.redirect, 0);
    MinusCovers(r.status, 0);
    MinusCovers(r.other, 0);
    IncrementBurns(r, q);
    hide Increment, Spent, Open, Retry.Exhausted, Count.Minus;
  }

  /** The attempts the hops after a redirect can take. */
  function Onward(result: Result, m: string): nat {
    if IsRedirect(result) && Countable(result.retries) && Follows(result.retries) then
      var next := Followed(result.retries);
      Most(next, next, MethodAfter(m, result.response.status))
    else 0
  }

  predicate LeftKeepsTo(f: Fetched, n: nat, m: string) {
    |f.sent| + Onward(f.result, m) <= n
  }

  lemma MostLeftCovers(r: Retry, m: string)
    requires Countable(r)
    ensures MostLeft(r, m) > BestSpend(r, m, CLASSES)
    ensures Follows(r) ==> MostLeft(r, m) > Best(Strict(r), Followed(r), m, REDIRECTS)
  {
    hide BestSpend, Best;
  }

  lemma ReturnedNow(sent: seq<Sent>, req: Sent, r: Retry, response: Response)
    requires Countable(r)
    requires var q := Request(Some(req.httpMethod), req.target, response.AsEvent());
             !r.IsRetry(req.httpMethod, response.status, response.retryAfter) || !Increment(r, q).Again?
    ensures LeftKeepsTo(Fetched(Returned(response, r), sent + [req]), |sent| + MostLeft(r, req.httpMethod),
                        req.httpMethod)
  {
    var q := Request(Some(req.httpMethod), req.target, response.AsEvent());
    MostLeftCovers(r, req.httpMethod);
    if response.RedirectLocation().Some? && Follows(r) {
      FollowIs(r, q);
      NotRetriedLeaves(r, req.httpMethod, response);
      BestIsBest(Strict(r), Followed(r), req.httpMethod, REDIRECTS, response.status);
    }
    hide Increment, MostLeft, Best, BestSpend, Most, Response.RedirectLocation, Retry.IsRetry, Leaves;
  }

  lemma NotRetriedLeaves(r: Retry, m: string, response: Response)
    requires Countable(r) && response.RedirectLocation().Some? && !r.IsRetry(m, response.status, response.retryAfter)
    ensures Leaves(Strict(r), m, response.status)
  {}

  lemma NothingMore(f: Fetched, sent: seq<Sent>, req: Sent, r: Retry)
    requires Countable(r) && f.sent == sent + [req] && !f.result.Returned?
    ensures LeftKeepsTo(f, |sent| + MostLeft(r, req.httpMethod), req.httpMethod)
  {
    hide MostLeft;
  }

  lemma {:induction false} LeftWithin(server: Server, sent: seq<Sent>, req: Sent, r: Retry)
    requires Countable(r)
    ensures LeftKeepsTo(PoolFetch(server, sent, req, req.origin, r, false, false), |sent| + MostLeft(r, req.httpMethod),
                        req.httpMethod)
    decreases Fuel(r)
  {
    var f := PoolFetch(server, sent, req, req.origin, r, false, false);
    if f.sent == sent + [req] && !f.result.Returned? {
      NothingMore(f, sent, req, r);
    }
    match server(sent + [req])
    case PoolIsEmpty =>
    case ConnectFails => LeftError(server, sent, req, r, ConnectError);
    case ReadFails => LeftError(server, sent, req, r, ReadError);
    case OtherFails => LeftError(server, sent, req, r, OtherError);
    case Answered(response) =>
      var q := Request(Some(req.httpMethod), req.target, response.AsEvent());
      if !r.IsRetry(req.httpMethod, response.status, response.retryAfter) || !Increment(r, q).Again? {
        ReturnedNow(sent, req, r, response);
      } else {
        RetriedIsOpen(r, req.httpMethod, response);
        LeftAgain(server, sent, req, r, response.AsEvent());
      }
      hide LeftKeepsTo, MostLeft, Retry.IsRetry, Increment, Response.RedirectLocation, Response.AsEvent;
  }

  lemma {:induction false} LeftError(server: Server, sent: seq<Sent>, req: Sent, r: Retry, error: Event)
    requires Countable(r) && error.IsError()
    ensures var f := AfterError(server, sent + [req], req, req.origin, r, false, false, error);
            LeftKeepsTo(f, |sent| + MostLeft(r, req.httpMethod), req.httpMethod)
    decreases Fuel(r), 1
  {
    var q := Request(Some(req.httpMethod), req.target, error);
    if Increment(r, q).Again? {
      ReadsAreOpen(r, q);
      LeftAgain(server, sent, req, r, error);
    } else {
      NothingMore(AfterError(server, sent + [req], req, req.origin, r, false, false, error), sent, req, r);
    }
    hide MostLeft, LeftKeepsTo, Increment, Open, PoolFetch;
  }

  lemma SpendIsLess(r: Retry, m: string, c: Class, next: Retry)
    requires Countable(r) && Countable(next) && Spendable(r, m, c) && SameRetries(next, Spend(r, c)) && c in CLASSES
    ensures MostLeft(next, m) < MostLeft(r, m)
  {
    MostLeftForgets(next, Spend(r, c), m);
    BestSpendIsBest(r, m, CLASSES, c);
    MostLeftCovers(r, m);
    hide MostLeft, BestSpend, Best;
  }

  lemma {:induction false} LeftAgain(server: Server, sent: seq<Sent>, req: Sent, r: Retry, event: Event)
    requires Countable(r) && Open(r, req.httpMethod, ClassOf(event))
    ensures var q := Request(Some(req.httpMethod), req.target, event);
            Increment(r, q).Again? ==>
              var next := Increment(r, q).retry;
              && Countable(next)
              && LeftKeepsTo(PoolFetch(server, sent + [req], req, req.origin, next, false, false),
                             |sent| + MostLeft(r, req.httpMethod), req.httpMethod)
    decreases Fuel(r), 0
  {
    var q, m, c := Request(Some(req.httpMethod), req.target, event), req.httpMethod, ClassOf(event);
    if Increment(r, q).Again? {
      hide PoolFetch, MostLeft, BestSpend, Best, Onward, Increment, Open, SameRetries, Spendable, Countable, Follows,
        Fuel;
      var next := Increment(r, q).retry;
      IncrementIsSpend(r, q, m);
      assert c in CLASSES;
      SpendIsLess(r, m, c, next);
      LeftWithin(server, sent + [req], req, next);
    }
  }

  lemma LeftChainWithin(server: Server, sent: seq<Sent>, req: Sent, redirect: bool, default: RetriesArg)
    requires Finite(NotGiven, default)
    ensures var pool := FromInt(NotGiven, false, default);
            |Fetch(server, sent, req, redirect, NotGiven, default).sent|
            <= |sent| + if redirect then MostLeft(pool, req.httpMethod) else 1 + Waste(pool, req.httpMethod)
  {
    hide Fetch, FirstHop, Follow, Most, MostLeft, Waste, Leaves, FromInt, Onward;
    var pool, f := FromInt(NotGiven, false, default), FirstHop(server, sent, req, NotGiven, default);
    HopFacts(server, sent, req, NotGiven, default);
    HopWithin(server, sent, req, NotGiven, default);
    HopLeft(server, sent, req, default);
    FetchUnfolds(server, sent, req, redirect, NotGiven, default);
    match Follow(req, f.result, redirect, NotGiven)
    case Stop(_) =>
    case Go(moved, next) =>
      GoFacts(req, f.result, redirect, NotGiven, default);
      GoIsOnward(req, f.result, redirect, default);
      ChainWithin(server, f.sent, moved, redirect, AsRetry(next), default);
      GivenIs(next, default);
  }

  lemma HopLeft(server: Server, sent: seq<Sent>, req: Sent, default: RetriesArg)
    requires Finite(NotGiven, default)
    ensures LeftKeepsTo(FirstHop(server, sent, req, NotGiven, default),
                        |sent| + MostLeft(FromInt(NotGiven, false, default), req.httpMethod), req.httpMethod)
  {
    LeftWithin(server, sent, req, FromInt(NotGiven, false, default));
    hide PoolFetch;
  }

  lemma GoIsOnward(req: Sent, result: Result, redirect: bool, default: RetriesArg)
    requires Follow(req, result, redirect, NotGiven).Go? && (result.Returned? ==> Countable(result.retries))
    ensures var go := Follow(req, result, redirect, NotGiven);
            redirect && Countable(go.retries) && Most(go.retries, go.retries, go.req.httpMethod)
                == Onward(result, req.httpMethod)
  {
    var manager, loc := result.retries, result.response.RedirectLocation().value;
    var moved := Redirect(req, result.response, loc, manager.settings.removeHeadersOnRedirect);
    var q := Request(Some(moved.httpMethod), req.target, result.response.AsEvent());
    RedirectMoves(req, result.response, loc, manager.settings.removeHeadersOnRedirect);
    FollowIs(manager, q);
    var next := Increment(manager, q).retry;
    MostForgets(next, next, Followed(manager), Followed(manager), moved.httpMethod);
    hide Most, Increment, Redirect, Retry.Made;
  }

  // ---- and a server that makes it take as many --------------------------------------------------------

  /** The answers that make a call without retries take the most attempts. */
  ghost function LeftScript(r: Retry, req: Sent): (answers: seq<Answer>)
    requires Countable(r)
    ensures |answers| == MostLeft(r, req.httpMethod)
    decreases Fuel(r)
  {
    var m := req.httpMethod;
    var now := if Follows(r) then Best(Strict(r), Followed(r), m, REDIRECTS) else 0;
    if now == 0 && BestSpend(r, m, CLASSES) == 0 then [DONE] + []
    else if now >= BestSpend(r, m, CLASSES) then
      var code := BestCode(Strict(r), Followed(r), m, REDIRECTS);
      var (moved, next) := GoneAround(r, req, code);
      MostForgets(next, next, Followed(r), Followed(r), moved.httpMethod);
      [Answered(Around(req, code))] + Script(next, next, moved)
    else
      var c := BestClass(r, m, CLASSES);
      var (a, next) := Provoked(r, req, c);
      ProvokedSpends(r, req, c);
      [a] + LeftScript(next, req)
  }

  lemma ProvokedSpends(r: Retry, req: Sent, c: Class)
    requires Countable(r) && Spendable(r, req.httpMethod, c)
    ensures MostLeft(Provoked(r, req, c).1, req.httpMethod) == MostLeft(Spend(r, c), req.httpMethod)
  {
    ProvokedIsCounted(r, req, c);
    ProvokesClass(r, req, c);
    IncrementIsSpend(r, Request(Some(req.httpMethod), req.target, EventOf(Provoke(r, req, c))), req.httpMethod);
    MostLeftForgets(Provoked(r, req, c).1, Spend(r, c), req.httpMethod);
    hide MostLeft, Increment, Provoke, EventOf, Open;
  }

  /** Where the pool's part of that script ends: in a redirect handed back, or nowhere. */
  ghost predicate LeftEnds(script: seq<Answer>, req: Sent, f: Fetched, code: nat, left: Retry, n: nat) {
    if !IsRedirect(f.result) then |f.sent| == n
    else
      && code in REDIRECTS && Countable(left) && Follows(left) && f.result == Returned(Around(req, code), left)
      && var (moved, next) := GoneAround(left, req, code);
         Continues(script, f.sent, Script(next, next, moved)) && |f.sent| + Most(next, next, moved.httpMethod) == n
  }

  lemma {:induction false} LeftSpends(script: seq<Answer>, sent: seq<Sent>, req: Sent, r: Retry)
      returns (code: nat, left: Retry)
    requires Countable(r) && Continues(script, sent, LeftScript(r, req))
    ensures LeftEnds(script, req, PoolFetch(Scripted(script), sent, req, req.origin, r, false, false), code, left,
                     |sent| + MostLeft(r, req.httpMethod))
    decreases Fuel(r)
  {
    hide PoolFetch, Scripted, Continues, Provoked, Best, BestSpend, Spendable, LeftEnds, Retry.Exhausted, Leaves;
    var m := req.httpMethod;
    var now := if Follows(r) then Best(Strict(r), Followed(r), m, REDIRECTS) else 0;
    if now == 0 && BestSpend(r, m, CLASSES) == 0 {
      code, left := 0, r;
      LeftEndsPlain(script, sent, req, r);
    } else if now >= BestSpend(r, m, CLASSES) {
      code, left := BestCode(Strict(r), Followed(r), m, REDIRECTS), r;
      LeftEndsInRedirect(script, sent, req, r, code);
    } else {
      var c := BestClass(r, m, CLASSES);
      var (a, next) := Provoked(r, req, c);
      ProvokedSpends(r, req, c);
      ContinuesOne(script, sent, req, a, LeftScript(next, req));
      ProvokedGoesOn(Scripted(script), sent, req, r, c);
      code, left := LeftSpends(script, sent + [req], req, next);
    }
  }

  lemma LeftEndsPlain(script: seq<Answer>, sent: seq<Sent>, req: Sent, r: Retry)
    requires Countable(r) && Continues(script, sent, [DONE] + []) && BestSpend(r, req.httpMethod, CLASSES) == 0
    ensures LeftEnds(script, req, PoolFetch(Scripted(script), sent, req, req.origin, r, false, false), 0, r, |sent| + 1)
  {
    hide PoolFetch, Scripted, Continues, BestSpend, IsRedirect;
    ContinuesOne(script, sent, req, DONE, []);
    EndsPlain(Scripted(script), sent, req, r);
  }

  lemma LeftEndsInRedirect(script: seq<Answer>, sent: seq<Sent>, req: Sent, r: Retry, code: nat)
    requires Countable(r) && Follows(r) && code in REDIRECTS && Leaves(Strict(r), req.httpMethod, code)
    requires var (moved, next) := GoneAround(r, req, code);
             Continues(script, sent, [Answered(Around(req, code))] + Script(next, next, moved))
    ensures var next := Followed(r);
            LeftEnds(script, req, PoolFetch(Scripted(script), sent, req, req.origin, r, false, false), code, r,
                     |sent| + 1 + Most(next, next, MethodAfter(req.httpMethod, code)))
  {
    hide PoolFetch, Scripted, Continues, IsRedirect, Leaves, Most, Script, GoneAround, Around, Follows;
    var (moved, next) := GoneAround(r, req, code);
    MostForgets(next, next, Followed(r), Followed(r), moved.httpMethod);
    ContinuesOne(script, sent, req, Answered(Around(req, code)), Script(next, next, moved));
    HandsBack(Scripted(script), sent, req, r, code);
  }

  lemma EndsPlain(server: Server, sent: seq<Sent>, req: Sent, r: Retry)
    requires Countable(r) && BestSpend(r, req.httpMethod, CLASSES) == 0 && server(sent + [req]) == DONE
    ensures var f := PoolFetch(server, sent, req, req.origin, r, false, false);
            f.sent == sent + [req] && !IsRedirect(f.result)
  {
    var q := Request(Some(req.httpMethod), req.target, DONE.response.AsEvent());
    if r.IsRetry(req.httpMethod, 200, false) && Increment(r, q).Again? {
      RetriedIsOpen(r, req.httpMethod, DONE.response);
      IncrementIsSpend(r, q, req.httpMethod);
      BestSpendIsBest(r, req.httpMethod, CLASSES, Statuses);
      assert false;
    }
    hide Increment, BestSpend;
  }

  lemma HandsBack(server: Server, sent: seq<Sent>, req: Sent, r: Retry, code: nat)
    requires Countable(r) && Leaves(Strict(r), req.httpMethod, code)
             && server(sent + [req]) == Answered(Around(req, code))
    ensures PoolFetch(server, sent, req, req.origin, r, false, false)
            == Fetched(Returned(Around(req, code), r), sent + [req])
    ensures IsRedirect(Returned(Around(req, code), r))
  {
    assert !r.IsRetry(req.httpMethod, code, false);
  }
}
