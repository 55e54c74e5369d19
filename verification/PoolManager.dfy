/** `urlopen` of pool and manager: retries and redirects, against any server. */
module PoolManager {
  import opened Bytes
  import opened Text
  import opened HeaderDict
  import opened Retry

  datatype Origin = Origin(scheme: string, host: string, port: nat)

  /** An absolute location, after relative references are resolved. */
  datatype Location = Location(origin: Origin, target: string)

  /** A request as one attempt sends it. */
  datatype Sent = Sent(origin: Origin, httpMethod: string, target: string, headers: seq<Field>, body: Option<string>)

  datatype Response = Response(status: nat, location: Option<Location>, retryAfter: bool) {
    /** `get_redirect_location`. */
    function RedirectLocation(): Option<Location> {
      if status in {301, 302, 303, 307, 308} then location else None
    }

    /** How `increment` counts this response. */
    function AsEvent(): Event {
      if RedirectLocation().Some? then Redirected(status, RedirectLocation().value.target)
      else if status != 0 then BadStatus(status) else NoStatus
    }
  }

  datatype Answer = Answered(response: Response) | ConnectFails | ReadFails | OtherFails | PoolIsEmpty

  /** What happens to an attempt may depend on all attempts so far. */
  type Server = seq<Sent> -> Answer

  datatype Result =
    | Returned(response: Response, retries: Retry)
    | RaisedError
    | RaisedMaxRetries
    | RaisedEmptyPool
    | RaisedHostChanged

  datatype Fetched = Fetched(result: Result, sent: seq<Sent>)

  function AfterMethodChange(req: Sent): Sent {
    req.(httpMethod := "GET", body := None, headers := Without(req.headers, Keys(CONTENT_SPECIFIC)))
  }

  /** The request a redirect leads to, headers stripped when it leaves the host. */
  function Redirect(req: Sent, response: Response, loc: Location, stripped: set<string>): Sent {
    var moved := if response.status == 303 then AfterMethodChange(req) else req;
    if loc.origin != req.origin then moved.(headers := Without(moved.headers, stripped)) else moved
  }

  /** Nothing of a retry setting but its counters changes, and those only downwards. */
  predicate Within(r: Retry, bound: Retry) {
    Countable(r) && r.settings == bound.settings && Fuel(r) <= Fuel(bound)
  }

  /** HTTPConnectionPool.urlopen: `sent` are the attempts before, `host` is where the URL points to. */
  function PoolFetch(server: Server, sent: seq<Sent>, req: Sent, host: Origin, retries: Retry, redirect: bool,
                     assertSameHost: bool): (f: Fetched)
    requires Countable(retries)
    ensures |sent| <= |f.sent| <= |sent| + Fuel(retries) + 1
    ensures f.result.Returned? ==> Within(f.result.retries, retries)
    decreases Fuel(retries)
  {
    var now := sent + [req];
    if assertSameHost && host != req.origin then Fetched(RaisedHostChanged, sent)
    else match server(now)
      case PoolIsEmpty => Fetched(RaisedEmptyPool, now)
      case ConnectFails => AfterError(server, now, req, host, retries, redirect, assertSameHost, ConnectError)
      case ReadFails => AfterError(server, now, req, host, retries, redirect, assertSameHost, ReadError)
      case OtherFails => AfterError(server, now, req, host, retries, redirect, assertSameHost, OtherError)
      case Answered(response) =>
        if redirect && response.RedirectLocation().Some? then
          var loc := response.RedirectLocation().value;
          var moved := Redirect(req, response, loc, retries.settings.removeHeadersOnRedirect);
          var q := Request(Some(moved.httpMethod), req.target, response.AsEvent());
          match Increment(retries, q)
          case Again(next) =>
            IncrementBurns(retries, q);
            PoolFetch(server, now, moved.(target := loc.target), loc.origin, next, redirect, assertSameHost)
          case _ => Fetched(if retries.raiseOnRedirect then RaisedMaxRetries else Returned(response, retries), now)
        else if retries.IsRetry(req.httpMethod, response.status, response.retryAfter) then
          var q := Request(Some(req.httpMethod), req.target, response.AsEvent());
          match Increment(retries, q)
          case Again(next) =>
            IncrementBurns(retries, q);
            PoolFetch(server, now, req, host, next, redirect, assertSameHost)
          case _ => Fetched(if retries.settings.raiseOnStatus then RaisedMaxRetries else Returned(response, retries),
                            now)
        else Fetched(Returned(response, retries), now)
  }

  /** An attempt ended in an error: try again or raise. */
  function AfterError(server: Server, now: seq<Sent>, req: Sent, host: Origin, retries: Retry, redirect: bool,
                      assertSameHost: bool, error: Event): (f: Fetched)
    requires Countable(retries) && error.IsError()
    ensures |now| <= |f.sent| <= |now| + Fuel(retries)
    ensures f.result.Returned? ==> Within(f.result.retries, retries)
    decreases Fuel(retries), 0
  {
    var q := Request(Some(req.httpMethod), req.target, error);
    match Increment(retries, q)
    case Again(next) =>
      IncrementBurns(retries, q);
      PoolFetch(server, now, req, host, next, redirect, assertSameHost)
    case Raises => Fetched(RaisedError, now)
    case MaxRetries => Fetched(RaisedMaxRetries, now)
  }

  // ---- the manager -------------------------------------------------------------------------------

  /** The requests made at one hop of a redirect chain, all alike, and how the last of them ended. */
  datatype Hop = Hop(request: Sent, attempts: nat, result: Result)

  datatype Chain = Chain(result: Result, sent: seq<Sent>, hops: seq<Hop>)

  /** What the manager counts a redirect against: what the caller gave, else what the pool had left. */
  function ManagerRetries(arg: RetriesArg, left: Retry): Retry {
    if arg.NotGiven? then left else FromInt(arg, true, GivenNone)
  }

  predicate Finite(arg: RetriesArg, default: RetriesArg) {
    var pool := FromInt(arg, false, default);
    var manager := ManagerRetries(arg, pool);
    Countable(pool) && Countable(manager)
  }

  /** The larger of the totals the pool and the manager start from. */
  function Budget(arg: RetriesArg, default: RetriesArg): nat {
    var pool := FromInt(arg, false, default);
    var manager := ManagerRetries(arg, pool);
    if Fuel(pool) > Fuel(manager) then Fuel(pool) else Fuel(manager)
  }

  function Triangle(n: nat): nat {
    (n + 1) * (n + 2) / 2
  }

  lemma TriangleStep(n: nat)
    ensures n > 0 ==> Triangle(n) == Triangle(n - 1) + n + 1
    ensures Triangle(0) == 1
  {}

  lemma TriangleMonotone(m: nat, n: nat)
    requires m <= n
    ensures Triangle(m) <= Triangle(n)
    decreases n - m
  {
    if m < n {
      TriangleMonotone(m, n - 1);
      TriangleStep(n);
    }
  }

  datatype Step = Stop(result: Result) | Go(req: Sent, retries: Retry)

  /** What the manager does with the outcome of one hop. */
  function Follow(req: Sent, result: Result, redirect: bool, arg: RetriesArg): Step {
    if redirect && result.Returned? && result.response.RedirectLocation().Some? then
      var loc := result.response.RedirectLocation().value;
      var retries := ManagerRetries(arg, result.retries);
      var moved := Redirect(req, result.response, loc, retries.settings.removeHeadersOnRedirect);
      match Increment(retries, Request(Some(moved.httpMethod), req.target, result.response.AsEvent()))
      case Again(next) => Go(moved.(origin := loc.origin, target := loc.target), next)
      case _ => Stop(if retries.raiseOnRedirect then RaisedMaxRetries else result)
    else Stop(result)
  }

  lemma FollowBurns(req: Sent, result: Result, redirect: bool, arg: RetriesArg, default: RetriesArg)
    requires Finite(arg, default)
    requires result.Returned? ==> Within(result.retries, FromInt(arg, false, default))
    requires Follow(req, result, redirect, arg).Go?
    ensures var next := Follow(req, result, redirect, arg).retries;
            Countable(next) && Fuel(next) < Budget(arg, default)
            && next.settings.removeHeadersOnRedirect == Unsafe(arg, default)
  {
    var loc := result.response.RedirectLocation().value;
    var retries := ManagerRetries(arg, result.retries);
    var moved := Redirect(req, result.response, loc, retries.settings.removeHeadersOnRedirect);
    IncrementBurns(retries, Request(Some(moved.httpMethod), req.target, result.response.AsEvent()));
    hide Increment;
  }

  /** The headers a redirect chain may not carry to another host. */
  function Unsafe(arg: RetriesArg, default: RetriesArg): set<string> {
    ManagerRetries(arg, FromInt(arg, false, default)).settings.removeHeadersOnRedirect
  }

  /** PoolManager.urlopen; `default` is the retry setting of the pools. */
  function Fetch(server: Server, sent: seq<Sent>, req: Sent, redirect: bool, arg: RetriesArg,
                 default: RetriesArg): (c: Chain)
    requires Finite(arg, default)
    ensures |c.hops| > 0 && c.hops[0].request == req
    decreases Budget(arg, default)
  {
    var f := PoolFetch(server, sent, req, req.origin, FromInt(arg, false, default), false, false);
    var hop := Hop(req, |f.sent| - |sent|, f.result);
    match Follow(req, f.result, redirect, arg)
    case Stop(result) => Chain(result, f.sent, [hop])
    case Go(moved, next) =>
      FollowBurns(req, f.result, redirect, arg, default);
      var rest := Fetch(server, f.sent, moved, redirect, AsRetry(next), default);
      Chain(rest.result, rest.sent, [hop] + rest.hops)
  }

  // ---- what is sent ------------------------------------------------------------------------------

  function Repeat(req: Sent, n: nat): (r: seq<Sent>)
    ensures |r| == n && forall i :: 0 <= i < n ==> r[i] == req
  {
    seq(n, _ => req)
  }

  lemma RepeatMore(sent: seq<Sent>, req: Sent, n: nat)
    ensures (sent + [req]) + Repeat(req, n) == sent + Repeat(req, n + 1)
  {}

  /** Without redirects of its own a pool sends the same request again and again. */
  lemma {:induction false} PoolRepeats(server: Server, sent: seq<Sent>, req: Sent, retries: Retry)
    requires Countable(retries)
    ensures var f := PoolFetch(server, sent, req, req.origin, retries, false, false);
            |f.sent| > |sent| && f.sent == sent + Repeat(req, |f.sent| - |sent|)
    decreases Fuel(retries)
  {
    var now := sent + [req];
    assert now == sent + Repeat(req, 1);
    match server(now)
    case PoolIsEmpty =>
    case ConnectFails => ErrorRepeats(server, sent, req, retries, ConnectError);
    case ReadFails => ErrorRepeats(server, sent, req, retries, ReadError);
    case OtherFails => ErrorRepeats(server, sent, req, retries, OtherError);
    case Answered(response) =>
      var q := Request(Some(req.httpMethod), req.target, response.AsEvent());
      if retries.IsRetry(req.httpMethod, response.status, response.retryAfter) && Increment(retries, q).Again? {
        var next := Increment(retries, q).retry;
        IncrementBurns(retries, q);
        PoolRepeats(server, now, req, next);
        RepeatMore(sent, req, |PoolFetch(server, now, req, req.origin, next, false, false).sent| - |now|);
      }
  }

  lemma {:induction false} ErrorRepeats(server: Server, sent: seq<Sent>, req: Sent, retries: Retry, error: Event)
    requires Countable(retries) && error.IsError()
    ensures var f := AfterError(server, sent + [req], req, req.origin, retries, false, false, error);
            |f.sent| > |sent| && f.sent == sent + Repeat(req, |f.sent| - |sent|)
    decreases Fuel(retries), 0
  {
    var now := sent + [req];
    assert now == sent + Repeat(req, 1);
    var q := Request(Some(req.httpMethod), req.target, error);
    if Increment(retries, q).Again? {
      var next := Increment(retries, q).retry;
      IncrementBurns(retries, q);
      PoolRepeats(server, now, req, next);
      RepeatMore(sent, req, |PoolFetch(server, now, req, req.origin, next, false, false).sent| - |now|);
    }
  }

  function Unroll(hops: seq<Hop>): seq<Sent> {
    if hops == [] then [] else Repeat(hops[0].request, hops[0].attempts) + Unroll(hops[1..])
  }

  predicate Crossed(hops: seq<Hop>, j: nat) {
    exists i :: 0 < i <= j && i < |hops| && hops[i - 1].request.origin != hops[i].request.origin
  }

  predicate MethodChanged(hops: seq<Hop>, j: nat) {
    exists i :: 0 <= i < j && i < |hops| && hops[i].result.Returned? && hops[i].result.response.status == 303
  }

  /** The header names gone by hop `j`: those unsafe to forward once a hop left its host, those about the content once a
      303 was answered. */
  function Dropped(hops: seq<Hop>, j: nat, unsafe: set<string>): set<string> {
    (if Crossed(hops, j) then unsafe else {}) + (if MethodChanged(hops, j) then Keys(CONTENT_SPECIFIC) else {})
  }

  /** What hop `j` of a chain sends, from the first request and the answers on the way. */
  predicate HopSends(req: Sent, hops: seq<Hop>, j: nat, unsafe: set<string>) {
    j < |hops| &&
    var sent := hops[j].request;
    && sent.headers == Without(req.headers, Dropped(hops, j, unsafe))
    && sent.httpMethod == (if MethodChanged(hops, j) then "GET" else req.httpMethod)
    && sent.body == (if MethodChanged(hops, j) then None else req.body)
  }

  lemma CrossedCons(hop: Hop, rest: seq<Hop>, j: nat)
    requires j < |rest|
    ensures Crossed([hop] + rest, j + 1) <==> hop.request.origin != rest[0].request.origin || Crossed(rest, j)
    ensures MethodChanged([hop] + rest, j + 1) <==>
            (hop.result.Returned? && hop.result.response.status == 303) || MethodChanged(rest, j)
  {
    var hops := [hop] + rest;
    if Crossed(rest, j) {
      var i :| 0 < i <= j && rest[i - 1].request.origin != rest[i].request.origin;
      assert hops[(i + 1) - 1].request.origin != hops[i + 1].request.origin;
    }
    if hop.request.origin != rest[0].request.origin {
      assert hops[1 - 1].request.origin != hops[1].request.origin;
    }
    if Crossed(hops, j + 1) {
      var i :| 0 < i <= j + 1 && hops[i - 1].request.origin != hops[i].request.origin;
      assert i > 1 ==> rest[(i - 1) - 1].request.origin != rest[i - 1].request.origin;
    }
    MethodChangedCons(hop, rest, j);
  }

  lemma MethodChangedCons(hop: Hop, rest: seq<Hop>, j: nat)
    requires j < |rest|
    ensures MethodChanged([hop] + rest, j + 1) <==>
            (hop.result.Returned? && hop.result.response.status == 303) || MethodChanged(rest, j)
  {
    var hops := [hop] + rest;
    assert hops[0] == hop;
    assert forall i :: 0 <= i < j ==> rest[i] == hops[i + 1];
  }

  lemma WithoutNothing(d: seq<Field>)
    ensures Without(d, {}) == d
  {
    WithoutNone(d, {});
  }

  lemma WithoutThrice(d: seq<Field>, a: set<string>, b: set<string>, c: set<string>)
    ensures Without(Without(Without(d, a), b), c) == Without(d, a + b + c)
  {
    WithoutTwice(d, a, b);
    WithoutTwice(d, a + b, c);
  }

  lemma DroppedCons(hop: Hop, rest: seq<Hop>, j: nat, unsafe: set<string>)
    requires j < |rest|
    ensures Dropped([hop] + rest, j + 1, unsafe) ==
            (if hop.result.Returned? && hop.result.response.status == 303 then Keys(CONTENT_SPECIFIC) else {})
            + (if rest[0].request.origin != hop.request.origin then unsafe else {}) + Dropped(rest, j, unsafe)
  {
    CrossedCons(hop, rest, j);
    hide Keys, Crossed, MethodChanged;
  }

  lemma RedirectDrops(req: Sent, response: Response, loc: Location, unsafe: set<string>)
    ensures Redirect(req, response, loc, unsafe).headers ==
            Without(Without(req.headers, if response.status == 303 then Keys(CONTENT_SPECIFIC) else {}),
                    if loc.origin != req.origin then unsafe else {})
  {
    WithoutNothing(req.headers);
    WithoutNothing(AfterMethodChange(req).headers);
    hide Keys, Without;
  }

  lemma RedirectMoves(req: Sent, response: Response, loc: Location, unsafe: set<string>)
    ensures var moved := Redirect(req, response, loc, unsafe);
            moved.httpMethod == (if response.status == 303 then "GET" else req.httpMethod)
            && moved.body == (if response.status == 303 then None else req.body)
  {
    hide Keys, Without;
  }

  /** A hop before: what the rest of the chain sends, told from the earlier request. */
  lemma HopSendsCons(req: Sent, hop: Hop, moved: Sent, rest: seq<Hop>, j: nat, unsafe: set<string>)
    requires hop.request == req && hop.result.Returned? && hop.result.response.RedirectLocation().Some?
    requires var loc := hop.result.response.RedirectLocation().value;
             moved == Redirect(req, hop.result.response, loc, unsafe).(origin := loc.origin, target := loc.target)
    requires j < |rest| && rest[0].request.origin == moved.origin && HopSends(moved, rest, j, unsafe)
    ensures HopSends(req, [hop] + rest, j + 1, unsafe)
  {
    hide Keys, Crossed, MethodChanged, Dropped, Without, Redirect, Response.RedirectLocation;
    var content := if hop.result.response.status == 303 then Keys(CONTENT_SPECIFIC) else {};
    var left := if moved.origin != req.origin then unsafe else {};
    RedirectDrops(req, hop.result.response, hop.result.response.RedirectLocation().value, unsafe);
    RedirectMoves(req, hop.result.response, hop.result.response.RedirectLocation().value, unsafe);
    WithoutThrice(req.headers, content, left, Dropped(rest, j, unsafe));
    DroppedCons(hop, rest, j, unsafe);
    MethodChangedCons(hop, rest, j);
    assert ([hop] + rest)[j + 1] == rest[j];
  }

  function FirstHop(server: Server, sent: seq<Sent>, req: Sent, arg: RetriesArg, default: RetriesArg): Fetched
    requires Finite(arg, default)
  {
    PoolFetch(server, sent, req, req.origin, FromInt(arg, false, default), false, false)
  }

  lemma HopFacts(server: Server, sent: seq<Sent>, req: Sent, arg: RetriesArg, default: RetriesArg)
    requires Finite(arg, default)
    ensures var f := FirstHop(server, sent, req, arg, default);
            && (f.result.Returned? ==> Within(f.result.retries, FromInt(arg, false, default)))
            && |f.sent| > |sent| && f.sent == sent + Repeat(req, |f.sent| - |sent|)
            && |f.sent| <= |sent| + Budget(arg, default) + 1
  {
    PoolRepeats(server, sent, req, FromInt(arg, false, default));
    hide PoolFetch, Repeat;
  }

  lemma GoFacts(req: Sent, result: Result, redirect: bool, arg: RetriesArg, default: RetriesArg)
    requires Finite(arg, default) && Follow(req, result, redirect, arg).Go?
    requires result.Returned? ==> Within(result.retries, FromInt(arg, false, default))
    ensures var go := Follow(req, result, redirect, arg);
            && Finite(AsRetry(go.retries), default) && Budget(AsRetry(go.retries), default) < Budget(arg, default)
            && Unsafe(AsRetry(go.retries), default) == Unsafe(arg, default)
            && result.Returned? && result.response.RedirectLocation().Some?
            && var loc := result.response.RedirectLocation().value;
               go.req == Redirect(req, result.response, loc,
                                  Unsafe(arg, default)).(origin := loc.origin, target := loc.target)
  {
    FollowBurns(req, result, redirect, arg, default);
    FollowMoves(req, result, redirect, arg, default);
    hide Follow, Redirect, Response.RedirectLocation;
  }

  lemma FetchUnfolds(server: Server, sent: seq<Sent>, req: Sent, redirect: bool, arg: RetriesArg, default: RetriesArg)
    requires Finite(arg, default)
    ensures var f := FirstHop(server, sent, req, arg, default);
            var c := Fetch(server, sent, req, redirect, arg, default);
            Follow(req, f.result, redirect, arg).Stop? ==>
              c == Chain(Follow(req, f.result, redirect, arg).result, f.sent, [Hop(req, |f.sent| - |sent|, f.result)])
    ensures var f := FirstHop(server, sent, req, arg, default);
            var go := Follow(req, f.result, redirect, arg);
            go.Go? ==>
              var c := Fetch(server, sent, req, redirect, arg, default);
              && Finite(AsRetry(go.retries), default)
              && var rest := Fetch(server, f.sent, go.req, redirect, AsRetry(go.retries), default);
                 c == Chain(rest.result, rest.sent, [Hop(req, |f.sent| - |sent|, f.result)] + rest.hops)
  {
    HopFacts(server, sent, req, arg, default);
    var f := FirstHop(server, sent, req, arg, default);
    if Follow(req, f.result, redirect, arg).Go? {
      GoFacts(req, f.result, redirect, arg, default);
    }
    hide PoolFetch, Follow, Repeat, Redirect, Response.RedirectLocation, Unsafe, Budget, Finite, Triangle;
  }

  /** Whatever the server answers, one call makes at most quadratically many attempts in the retries it starts from. */
  lemma {:induction false} ChainBounded(server: Server, sent: seq<Sent>, req: Sent, redirect: bool, arg: RetriesArg,
                                        default: RetriesArg)
    requires Finite(arg, default)
    ensures var c := Fetch(server, sent, req, redirect, arg, default);
            |c.sent| <= |sent| + Triangle(Budget(arg, default)) && |c.hops| <= Budget(arg, default) + 1
    decreases Budget(arg, default)
  {
    hide Fetch, FirstHop, Follow, Repeat, Redirect, Unsafe, Triangle;
    HopFacts(server, sent, req, arg, default);
    FetchUnfolds(server, sent, req, redirect, arg, default);
    var f := FirstHop(server, sent, req, arg, default);
    var n := Budget(arg, default);
    hide Finite, Budget, Within, Countable;
    TriangleStep(n);
    match Follow(req, f.result, redirect, arg)
    case Stop(_) => TriangleMonotone(0, n - (if n == 0 then 0 else 1));
    case Go(moved, next) =>
      GoFacts(req, f.result, redirect, arg, default);
      ChainBounded(server, f.sent, moved, redirect, AsRetry(next), default);
      TriangleMonotone(Budget(AsRetry(next), default), n - 1);
  }

  /** Nothing is sent but the hops' requests, each as often as its hop makes attempts. */
  lemma {:induction false} ChainUnrolls(server: Server, sent: seq<Sent>, req: Sent, redirect: bool, arg: RetriesArg,
                                        default: RetriesArg)
    requires Finite(arg, default)
    ensures var c := Fetch(server, sent, req, redirect, arg, default);
            c.sent == sent + Unroll(c.hops)
    decreases Budget(arg, default)
  {
    hide Fetch, FirstHop, Follow, Repeat, Redirect, Unsafe;
    HopFacts(server, sent, req, arg, default);
    FetchUnfolds(server, sent, req, redirect, arg, default);
    var f := FirstHop(server, sent, req, arg, default);
    var hop := Hop(req, |f.sent| - |sent|, f.result);
    hide Finite, Budget, Within;
    match Follow(req, f.result, redirect, arg)
    case Stop(_) => UnrollCons(sent, hop, []);
    case Go(moved, next) =>
      GoFacts(req, f.result, redirect, arg, default);
      ChainUnrolls(server, f.sent, moved, redirect, AsRetry(next), default);
      UnrollCons(sent, hop, Fetch(server, f.sent, moved, redirect, AsRetry(next), default).hops);
  }

  /** A pool changes nothing of its retries but the counters. */
  predicate KeepsSettings(hop: Hop, arg: RetriesArg, default: RetriesArg) {
    hop.result.Returned? ==> hop.result.retries.settings == FromInt(arg, false, default).settings
  }

  /** The manager follows the redirect a hop ended with to `moved`, and goes on with `next`. */
  predicate Joins(hop: Hop, redirect: bool, arg: RetriesArg, moved: Sent, next: RetriesArg) {
    var go := Follow(hop.request, hop.result, redirect, arg);
    go.Go? && go.req == moved && AsRetry(go.retries) == next
  }

  /** Hops a manager makes one after another, with whatever retries, those it was given or those the pools' `default`
      sets. */
  predicate Linked(hops: seq<Hop>, args: seq<RetriesArg>, redirect: bool, default: RetriesArg)
    decreases |hops|
  {
    && |args| == |hops| > 0
    && KeepsSettings(hops[0], args[0], default)
    && (|hops| > 1 ==>
          && Joins(hops[0], redirect, args[0], hops[1].request, args[1])
          && Linked(hops[1..], args[1..], redirect, default))
  }

  /** Every hop of every chain, whatever the retries, sends exactly the caller's headers less those dropped on the way,
      and GET without a body once a 303 was answered. */
  lemma {:induction false} HopsSend(hops: seq<Hop>, args: seq<RetriesArg>, redirect: bool, default: RetriesArg, j: nat)
    requires Linked(hops, args, redirect, default) && j < |hops|
    ensures HopSends(hops[0].request, hops, j, Unsafe(args[0], default))
    decreases j
  {
    hide HopSends, Redirect, Response.RedirectLocation, Follow, Unsafe, FromInt;
    var req, unsafe := hops[0].request, Unsafe(args[0], default);
    if j == 0 {
      FirstHopSends(req, hops, unsafe);
    } else {
      FollowMoves(req, hops[0].result, redirect, args[0], default);
      HopsSend(hops[1..], args[1..], redirect, default, j - 1);
      HopSendsCons(req, hops[0], hops[1].request, hops[1..], j - 1, unsafe);
      assert [hops[0]] + hops[1..] == hops;
    }
  }

  lemma LinkedCons(hop: Hop, arg: RetriesArg, rest: seq<Hop>, args: seq<RetriesArg>, redirect: bool,
                   default: RetriesArg)
    requires KeepsSettings(hop, arg, default) && Linked(rest, args, redirect, default)
    requires Joins(hop, redirect, arg, rest[0].request, args[0])
    ensures Linked([hop] + rest, [arg] + args, redirect, default)
  {
    hide KeepsSettings, Joins;
    assert ([hop] + rest)[1..] == rest && ([arg] + args)[1..] == args;
  }

  /** The chains of `Fetch` are such chains. */
  lemma {:induction false} ChainLinked(server: Server, sent: seq<Sent>, req: Sent, redirect: bool, arg: RetriesArg,
                                       default: RetriesArg) returns (args: seq<RetriesArg>)
    requires Finite(arg, default)
    ensures Linked(Fetch(server, sent, req, redirect, arg, default).hops, args, redirect, default) && args[0] == arg
    decreases Budget(arg, default)
  {
    hide Fetch, FirstHop, Follow, Repeat, Redirect, Unsafe, Linked, Response.RedirectLocation;
    HopFacts(server, sent, req, arg, default);
    FetchUnfolds(server, sent, req, redirect, arg, default);
    var f := FirstHop(server, sent, req, arg, default);
    var hop := Hop(req, |f.sent| - |sent|, f.result);
    match Follow(req, f.result, redirect, arg)
    case Stop(_) =>
      args := [arg];
      LinkedOne(hop, arg, redirect, default);
    case Go(moved, next) =>
      GoFacts(req, f.result, redirect, arg, default);
      args := ChainLinked(server, f.sent, moved, redirect, AsRetry(next), default);
      LinkedCons(hop, arg, Fetch(server, f.sent, moved, redirect, AsRetry(next), default).hops, args, redirect,
                 default);
      args := [arg] + args;
  }

  lemma LinkedOne(hop: Hop, arg: RetriesArg, redirect: bool, default: RetriesArg)
    requires KeepsSettings(hop, arg, default)
    ensures Linked([hop], [arg], redirect, default)
  {}

  /** So every hop of every redirect chain of `Fetch` sends just that. */
  lemma ChainSends(server: Server, sent: seq<Sent>, req: Sent, redirect: bool, arg: RetriesArg, default: RetriesArg,
                   j: nat)
    requires Finite(arg, default)
    requires j < |Fetch(server, sent, req, redirect, arg, default).hops|
    ensures HopSends(req, Fetch(server, sent, req, redirect, arg, default).hops, j, Unsafe(arg, default))
  {
    hide Fetch, HopSends, Unsafe, Linked, Finite;
    var args := ChainLinked(server, sent, req, redirect, arg, default);
    HopsSend(Fetch(server, sent, req, redirect, arg, default).hops, args, redirect, default, j);
  }

  lemma FollowMoves(req: Sent, result: Result, redirect: bool, arg: RetriesArg, default: RetriesArg)
    requires result.Returned? ==> result.retries.settings == FromInt(arg, false, default).settings
    requires Follow(req, result, redirect, arg).Go?
    ensures result.Returned? && result.response.RedirectLocation().Some?
    ensures var go, loc := Follow(req, result, redirect, arg), result.response.RedirectLocation().value;
            && go.req == Redirect(req, result.response, loc,
                                  Unsafe(arg, default)).(origin := loc.origin, target := loc.target)
            && Unsafe(AsRetry(go.retries), default) == Unsafe(arg, default)
  {
    var loc := result.response.RedirectLocation().value;
    var retries := ManagerRetries(arg, result.retries);
    var moved := Redirect(req, result.response, loc, retries.settings.removeHeadersOnRedirect);
    IncrementKeeps(retries, Request(Some(moved.httpMethod), req.target, result.response.AsEvent()));
    hide Increment, Redirect;
  }

  lemma IncrementKeeps(r: Retry, q: Request)
    ensures Increment(r, q).Again? ==> Increment(r, q).retry.settings == r.settings
  {}

  lemma FirstHopSends(req: Sent, hops: seq<Hop>, unsafe: set<string>)
    requires hops != [] && hops[0].request == req
    ensures HopSends(req, hops, 0, unsafe)
  {
    WithoutNothing(req.headers);
    assert Dropped(hops, 0, unsafe) == {};
  }

  lemma UnrollCons(sent: seq<Sent>, hop: Hop, rest: seq<Hop>)
    ensures sent + Unroll([hop] + rest) == (sent + Repeat(hop.request, hop.attempts)) + Unroll(rest)
    ensures rest == [] ==> sent + Unroll([hop]) == sent + Repeat(hop.request, hop.attempts)
  {
    assert ([hop] + rest)[1..] == rest;
    assert rest == [] ==> [hop] + rest == [hop];
  }

  // ---- the objects -------------------------------------------------------------------------------

  /** `HTTPHeaderDict(headers)._prepare_for_method_change()`. */
  method PreparedForMethodChange(headers: seq<Field>) returns (r: seq<Field>)
    requires HeaderDict.Valid(headers)
    ensures HeaderDict.Valid(r) && r == Without(headers, Keys(CONTENT_SPECIFIC))
  {
    var d := new HTTPHeaderDict();
    Rebuild(headers);
    d.ExtendLines(Items(headers));
    d.PrepareForMethodChange();
    r := d.container;
  }

  /** The unsafe keys among the first `n` headers. */
  function Met(headers: seq<Field>, n: nat, unsafe: set<string>): (keys: set<string>)
    requires n <= |headers|
    ensures keys <= unsafe && forall i :: 0 <= i < n && headers[i].key in unsafe ==> headers[i].key in keys
  {
    if n == 0 then {}
    else Met(headers, n - 1, unsafe) + (if headers[n - 1].key in unsafe then {headers[n - 1].key} else {})
  }

  method Popped(headers: seq<Field>, name: string) returns (r: seq<Field>)
    requires HeaderDict.Valid(headers)
    ensures HeaderDict.Valid(r) && r == Without(headers, {Lower(name)})
  {
    var d := new HTTPHeaderDict();
    Rebuild(headers);
    d.ExtendLines(Items(headers));
    d.DiscardName(name);
    r := d.container;
  }

  /** The headers without those a redirect may not carry to another host. */
  method StripUnsafe(headers: seq<Field>, unsafe: set<string>) returns (r: seq<Field>)
    requires HeaderDict.Valid(headers)
    ensures HeaderDict.Valid(r) && r == Without(headers, unsafe)
  {
    hide Without, Lower;
    r := headers;
    WithoutNothing(headers);
    for i := 0 to |headers|
      invariant HeaderDict.Valid(r) && r == Without(headers, Met(headers, i, unsafe))
    {
      if Lower(headers[i].name) in unsafe {
        r := Popped(r, headers[i].name);
        WithoutTwice(headers, Met(headers, i, unsafe), {headers[i].key});
      } else {
        assert Met(headers, i + 1, unsafe) == Met(headers, i, unsafe);
      }
    }
    WithoutIrrelevant(headers, Met(headers, |headers|, unsafe), unsafe);
  }

  lemma {:induction false} WithoutIrrelevant(d: seq<Field>, a: set<string>, b: set<string>)
    requires forall i :: 0 <= i < |d| ==> (d[i].key in a <==> d[i].key in b)
    ensures Without(d, a) == Without(d, b)
  {
    if d == [] {
    } else {
      WithoutIrrelevant(d[1..], a, b);
    }
  }

  /** The request a redirect response leads to; the headers are rewritten in place. */
  method RedirectedRequest(req: Sent, response: Response, loc: Location, unsafe: set<string>) returns (moved: Sent)
    requires HeaderDict.Valid(req.headers)
    ensures moved == Redirect(req, response, loc, unsafe) && HeaderDict.Valid(moved.headers)
  {
    var httpMethod, body, headers := req.httpMethod, req.body, req.headers;
    if response.status == 303 {
      httpMethod, body := "GET", None;
      headers := PreparedForMethodChange(headers);
    }
    if unsafe != {} && loc.origin != req.origin {
      headers := StripUnsafe(headers, unsafe);
    }
    WithoutNothing(headers);
    moved := Sent(req.origin, httpMethod, req.target, headers, body);
  }

  class Client {
    const server: Server
    const poolRetries: RetriesArg // what the pools were created with
    var sent: seq<Sent>           // every attempt so far

    constructor (server: Server, poolRetries: RetriesArg)
      ensures this.server == server && this.poolRetries == poolRetries && sent == []
    {
      this.server, this.poolRetries, this.sent := server, poolRetries, [];
    }

    /** `HTTPConnectionPool.urlopen`. */
    method PoolUrlopen(req: Sent, host: Origin, retries: Retry, redirect: bool, assertSameHost: bool)
        returns (r: Result)
      requires Countable(retries) && HeaderDict.Valid(req.headers)
      modifies this
      ensures Fetched(r, sent) == PoolFetch(server, old(sent), req, host, retries, redirect, assertSameHost)
      decreases Fuel(retries)
    {
      if assertSameHost && host != req.origin {
        return RaisedHostChanged;
      }
      sent := sent + [req];
      var next, q := req, Request(Some(req.httpMethod), req.target, OtherError);
      var nextHost := host;
      var onGivingUp := RaisedMaxRetries;
      match server(sent) {
        case PoolIsEmpty => return RaisedEmptyPool;
        case ConnectFails => q := q.(event := ConnectError);
        case ReadFails => q := q.(event := ReadError);
        case OtherFails => q := q.(event := OtherError);
        case Answered(response) =>
          q := q.(event := response.AsEvent());
          if redirect && response.RedirectLocation().Some? {
            var loc := response.RedirectLocation().value;
            next := RedirectedRequest(req, response, loc, retries.settings.removeHeadersOnRedirect);
            q := q.(httpMethod := Some(next.httpMethod));
            next := next.(target := loc.target);
            nextHost := loc.origin;
            if !retries.raiseOnRedirect {
              onGivingUp := Returned(response, retries);
            }
          } else if retries.IsRetry(req.httpMethod, response.status, response.retryAfter) {
            if !retries.settings.raiseOnStatus {
              onGivingUp := Returned(response, retries);
            }
          } else {
            return Returned(response, retries);
          }
      }
      match Increment(retries, q) {
        case Again(incremented) =>
          IncrementBurns(retries, q);
          r := PoolUrlopen(next, nextHost, incremented, redirect, assertSameHost);
        case Raises => r := RaisedError;
        case MaxRetries => r := onGivingUp;
      }
    }

    /** `PoolManager.urlopen`. */
    method Urlopen(req: Sent, redirect: bool, arg: RetriesArg) returns (r: Result, ghost hops: seq<Hop>)
      requires Finite(arg, poolRetries) && HeaderDict.Valid(req.headers)
      modifies this
      ensures Chain(r, sent, hops) == Fetch(server, old(sent), req, redirect, arg, poolRetries)
      decreases Budget(arg, poolRetries)
    {
      hide Fetch, PoolFetch, Redirect, Increment, HeaderDict.Valid, Triangle;
      r := PoolUrlopen(req, req.origin, FromInt(arg, false, poolRetries), false, false);
      assert Fetched(r, sent) == FirstHop(server, old(sent), req, arg, poolRetries);
      HopFacts(server, old(sent), req, arg, poolRetries);
      FetchUnfolds(server, old(sent), req, redirect, arg, poolRetries);
      hops := [Hop(req, |sent| - |old(sent)|, r)];
      if !redirect || !r.Returned? || r.response.RedirectLocation().None? {
        return;
      }
      var loc := r.response.RedirectLocation().value;
      var retries := if arg.NotGiven? then r.retries else FromInt(arg, true, GivenNone);
      var moved := RedirectedRequest(req, r.response, loc, retries.settings.removeHeadersOnRedirect);
      var outcome := Increment(retries, Request(Some(moved.httpMethod), req.target, r.response.AsEvent()));
      if !outcome.Again? {
        if retries.raiseOnRedirect {
          r := RaisedMaxRetries;
        }
        return;
      }
      FollowBurns(req, r, redirect, arg, poolRetries);
      ghost var more;
      r, more := Urlopen(moved.(origin := loc.origin, target := loc.target), redirect, AsRetry(outcome.retry));
      hops := hops + more;
    }
  }
}
