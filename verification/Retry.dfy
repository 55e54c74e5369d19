/** util/retry.py: how many retries of each kind are left. */
module Retry {
  import opened Bytes
  import opened Text

  /** A counter is False, None or a number. */
  datatype Count = Off | Unlimited | Of(n: int) {
    /** False counts as zero in arithmetic. */
    function Less(): Count {
      match this
      case Off => Of(-1)
      case Unlimited => Unlimited
      case Of(n) => Of(n - 1)
    }

    function Minus(k: nat): Count {
      if k == 0 || Unlimited? then this else Of((if Off? then 0 else n) - k)
    }

    predicate Covers(k: nat) {
      Unlimited? || (if Off? then 0 else n) >= k
    }

    predicate Negative() {
      Of? && n < 0
    }

    /** How often a number can still be lowered. */
    function Left(): nat {
      if Of? && n > 0 then n else 0
    }
  }

  /** What `new` hands on unchanged. An empty or absent set of methods allows every method. */
  datatype Settings = Settings(
    allowedMethods: Option<set<string>>,
    statusForcelist: set<nat>,
    raiseOnStatus: bool,
    respectRetryAfter: bool,
    removeHeadersOnRedirect: set<string>,
    backoffFactor: real,
    backoffMax: real)

  datatype Event =
    | ConnectError
    | ReadError
    | OtherError
    | Redirected(status: nat, location: string)
    | BadStatus(status: nat)
    | NoStatus // no response, or one whose status is zero
  {
    predicate IsError() { ConnectError? || ReadError? || OtherError? }
  }

  datatype Request = Request(httpMethod: Option<string>, url: string, event: Event)

  datatype RequestHistory = RequestHistory(request: Request, status: Option<nat>, redirectLocation: Option<string>)

  datatype Retry = Retry(
    total: Count, connect: Count, read: Count, redirect: Count, status: Count, other: Count,
    raiseOnRedirect: bool, history: seq<RequestHistory>, settings: Settings)
  {
    /** What the constructor establishes. */
    predicate Made() {
      redirect != Off && (total == Off ==> redirect == Of(0) && !raiseOnRedirect)
    }

    predicate MethodRetryable(m: string) {
      settings.allowedMethods.Some? && settings.allowedMethods.value != {} ==> Upper(m) in settings.allowedMethods.value
    }

    predicate Exhausted() {
      total.Negative() || connect.Negative() || read.Negative() || redirect.Negative() || status.Negative()
          || other.Negative()
    }

    /** The cases in which the error is raised again instead of being counted. */
    predicate Reraises(q: Request) {
      || (total == Off && q.event.IsError())
      || (q.event.ConnectError? && connect == Off)
      || (q.event.ReadError? && (read == Off || q.httpMethod.None? || !MethodRetryable(q.httpMethod.value)))
    }

    /** `is_retry`; `total` has to be a number other than zero for Retry-After to matter. */
    predicate IsRetry(m: string, code: nat, hasRetryAfter: bool) {
      && MethodRetryable(m)
      && (code in settings.statusForcelist
          || (total.Of? && total.n != 0 && settings.respectRetryAfter && hasRetryAfter && code in {413, 429, 503}))
    }
  }

  /** `__init__`. */
  function Make(total: Count, connect: Count, read: Count, redirect: Count, status: Count, other: Count,
                raiseOnRedirect: bool, history: seq<RequestHistory>, settings: Settings): (r: Retry)
    ensures r.Made()
  {
    var off := redirect == Off || total == Off;
    Retry(total, connect, read, if off then Of(0) else redirect, status, other, raiseOnRedirect && !off, history,
          settings)
  }

  function Recorded(q: Request): RequestHistory {
    match q.event
    case Redirected(code, location) => RequestHistory(q, Some(code), Some(location))
    case BadStatus(code) => RequestHistory(q, Some(code), None)
    case _ => RequestHistory(q, None, None)
  }

  datatype Outcome = Again(retry: Retry) | Raises | MaxRetries

  /** `increment`. */
  function Increment(r: Retry, q: Request): Outcome {
    if r.total == Off && q.event.IsError() then Raises
    else
      var total := r.total.Less();
      var history := r.history + [Recorded(q)];
      match q.event
      case ConnectError =>
        if r.connect == Off then Raises
        else Checked(Make(total, r.connect.Less(), r.read, r.redirect, r.status, r.other, r.raiseOnRedirect, history,
                          r.settings))
      case ReadError =>
        if r.read == Off || q.httpMethod.None? || !r.MethodRetryable(q.httpMethod.value) then Raises
        else Checked(Make(total, r.connect, r.read.Less(), r.redirect, r.status, r.other, r.raiseOnRedirect, history,
                          r.settings))
      case OtherError =>
        Checked(Make(total, r.connect, r.read, r.redirect, r.status, r.other.Less(), r.raiseOnRedirect, history,
                     r.settings))
      case Redirected(_, _) =>
        Checked(Make(total, r.connect, r.read, r.redirect.Less(), r.status, r.other, r.raiseOnRedirect, history,
                     r.settings))
      case BadStatus(_) =>
        Checked(Make(total, r.connect, r.read, r.redirect, r.status.Less(), r.other, r.raiseOnRedirect, history,
                     r.settings))
      case NoStatus =>
        Checked(Make(total, r.connect, r.read, r.redirect, r.status, r.other, r.raiseOnRedirect, history, r.settings))
  }

  function Checked(r: Retry): Outcome {
    if r.Exhausted() then MaxRetries else Again(r)
  }

  /** One increment after another; stops at the first that raises. */
  function Run(r: Retry, qs: seq<Request>): Outcome
    decreases |qs|
  {
    if qs == [] then Again(r)
    else match Increment(r, qs[0])
         case Again(next) => Run(next, qs[1..])
         case failed => failed
  }

  // ---- what a run of increments spends -----------------------------------------------------------

  datatype Class = Connects | Reads | Redirects | Statuses | Others | Uncounted

  function ClassOf(e: Event): Class {
    match e
    case ConnectError => Connects
    case ReadError => Reads
    case OtherError => Others
    case Redirected(_, _) => Redirects
    case BadStatus(_) => Statuses
    case NoStatus => Uncounted
  }

  function Hits(q: Request, c: Class): nat {
    if ClassOf(q.event) == c then 1 else 0
  }

  function Occurrences(qs: seq<Request>, c: Class): (n: nat)
    ensures n <= |qs|
    decreases |qs|
  {
    if qs == [] then 0 else Hits(qs[0], c) + Occurrences(qs[1..], c)
  }

  function Histories(qs: seq<Request>): seq<RequestHistory> {
    seq(|qs|, i requires 0 <= i < |qs| => Recorded(qs[i]))
  }

  /** Each counter less the events of its class, `total` less all of them, the history longer by all of them. */
  function Spent(r: Retry, qs: seq<Request>): Retry {
    Retry(r.total.Minus(|qs|),
          r.connect.Minus(Occurrences(qs, Connects)),
          r.read.Minus(Occurrences(qs, Reads)),
          r.redirect.Minus(Occurrences(qs, Redirects)),
          r.status.Minus(Occurrences(qs, Statuses)),
          r.other.Minus(Occurrences(qs, Others)),
          r.raiseOnRedirect, r.history + Histories(qs), r.settings)
  }

  predicate Affords(r: Retry, qs: seq<Request>) {
    && r.total.Covers(|qs|)
    && r.connect.Covers(Occurrences(qs, Connects))
    && r.read.Covers(Occurrences(qs, Reads))
    && r.redirect.Covers(Occurrences(qs, Redirects))
    && r.status.Covers(Occurrences(qs, Statuses))
    && r.other.Covers(Occurrences(qs, Others))
  }

  predicate NoneRaised(r: Retry, qs: seq<Request>) {
    forall i :: 0 <= i < |qs| ==> !r.Reraises(qs[i])
  }

  lemma OnceOccurs(q: Request, c: Class)
    ensures Occurrences([q], c) == Hits(q, c)
  {
    assert [q][1..] == [];
  }

  lemma CountsOne(r: Retry, q: Request)
    ensures Spent(r, [q]) == Retry(r.total.Minus(1), r.connect.Minus(Hits(q, Connects)), r.read.Minus(Hits(q, Reads)),
                                   r.redirect.Minus(Hits(q, Redirects)), r.status.Minus(Hits(q, Statuses)),
                                   r.other.Minus(Hits(q, Others)), r.raiseOnRedirect, r.history + [Recorded(q)],
                                   r.settings)
    ensures Affords(r, [q]) <==> r.total.Covers(1) && r.connect.Covers(Hits(q, Connects))
                                 && r.read.Covers(Hits(q, Reads))
                                 && r.redirect.Covers(Hits(q, Redirects)) && r.status.Covers(Hits(q, Statuses))
                                 && r.other.Covers(Hits(q, Others))
  {
    OnceOccurs(q, Connects);
    OnceOccurs(q, Reads);
    OnceOccurs(q, Redirects);
    OnceOccurs(q, Statuses);
    OnceOccurs(q, Others);
    assert Histories([q]) == [Recorded(q)];
    hide Occurrences, Histories, Recorded, Hits, Count.Minus, Count.Covers;
  }

  lemma MinusCovers(c: Count, k: nat)
    ensures c.Minus(k).Negative() <==> !c.Covers(k)
    ensures c.Minus(0) == c && c.Minus(1) == c.Less()
  {}

  lemma ExhaustsOne(r: Retry, q: Request)
    ensures Spent(r, [q]).Exhausted() <==> !Affords(r, [q])
  {
    CountsOne(r, q);
    MinusCovers(r.total, 1);
    MinusCovers(r.connect, Hits(q, Connects));
    MinusCovers(r.read, Hits(q, Reads));
    MinusCovers(r.redirect, Hits(q, Redirects));
    MinusCovers(r.status, Hits(q, Statuses));
    MinusCovers(r.other, Hits(q, Others));
    hide Spent, Affords, Hits, Count.Minus, Count.Covers, Count.Negative;
  }

  lemma IncrementSpends(r: Retry, q: Request)
    requires r.Made()
    ensures Increment(r, q) == if r.Reraises(q) then Raises else Checked(Make(
      Spent(r, [q]).total, Spent(r, [q]).connect, Spent(r, [q]).read, Spent(r, [q]).redirect, Spent(r, [q]).status,
      Spent(r, [q]).other, r.raiseOnRedirect, Spent(r, [q]).history, r.settings))
  {
    CountsOne(r, q);
    MinusCovers(r.total, 1);
    MinusCovers(r.connect, Hits(q, Connects));
    MinusCovers(r.read, Hits(q, Reads));
    MinusCovers(r.redirect, Hits(q, Redirects));
    MinusCovers(r.status, Hits(q, Statuses));
    MinusCovers(r.other, Hits(q, Others));
    hide Spent, Affords, Count.Minus, Count.Covers, Count.Negative, Checked, Make, Retry.MethodRetryable, Recorded;
  }

  lemma SpentMade(r: Retry, q: Request)
    requires r.Made()
    ensures !r.Reraises(q) ==> Spent(r, [q]).redirect != Off && (Spent(r, [q]).total == Off ==> !r.raiseOnRedirect)
    ensures r.total == Off ==> !Affords(r, [q])
    ensures Affords(r, [q]) ==> Spent(r, [q]).Made()
    ensures forall p :: Affords(r, [q]) && !r.Reraises(q) ==> Spent(r, [q]).Reraises(p) == r.Reraises(p)
  {
    CountsOne(r, q);
    hide Spent, Affords;
  }

  lemma OneSpent(r: Retry, q: Request)
    requires r.Made()
    ensures Increment(r, q).Again? <==> !r.Reraises(q) && Affords(r, [q])
    ensures Increment(r, q).Again? ==> Increment(r, q).retry == Spent(r, [q])
    ensures Increment(r, q).Raises? <==> r.Reraises(q)
  {
    IncrementSpends(r, q);
    ExhaustsOne(r, q);
    SpentMade(r, q);
    hide Increment, Affords, Retry.Reraises;
  }

  lemma MinusAdds(c: Count, j: nat, k: nat)
    ensures c.Covers(j) ==> c.Minus(j).Minus(k) == c.Minus(j + k) && (c.Minus(j).Covers(k) <==> c.Covers(j + k))
    ensures c.Covers(j + k) ==> c.Covers(j)
  {}

  lemma ConsOccurs(q: Request, rest: seq<Request>, c: Class)
    ensures Occurrences([q] + rest, c) == Hits(q, c) + Occurrences(rest, c)
  {
    assert ([q] + rest)[1..] == rest;
  }

  lemma HistoriesCons(history: seq<RequestHistory>, q: Request, rest: seq<Request>)
    ensures history + Histories([q] + rest) == (history + [Recorded(q)]) + Histories(rest)
  {
    hide Recorded;
    assert Histories([q] + rest) == [Recorded(q)] + Histories(rest);
  }

  /** Spending is additive. */
  lemma SpentCons(r: Retry, q: Request, rest: seq<Request>)
    requires Affords(r, [q])
    ensures Spent(Spent(r, [q]), rest) == Spent(r, [q] + rest)
    ensures Affords(Spent(r, [q]), rest) <==> Affords(r, [q] + rest)
  {
    CountsOne(r, q);
    ConsOccurs(q, rest, Connects);
    ConsOccurs(q, rest, Reads);
    ConsOccurs(q, rest, Redirects);
    ConsOccurs(q, rest, Statuses);
    ConsOccurs(q, rest, Others);
    MinusAdds(r.total, 1, |rest|);
    MinusAdds(r.connect, Hits(q, Connects), Occurrences(rest, Connects));
    MinusAdds(r.read, Hits(q, Reads), Occurrences(rest, Reads));
    MinusAdds(r.redirect, Hits(q, Redirects), Occurrences(rest, Redirects));
    MinusAdds(r.status, Hits(q, Statuses), Occurrences(rest, Statuses));
    MinusAdds(r.other, Hits(q, Others), Occurrences(rest, Others));
    HistoriesCons(r.history, q, rest);
    hide Occurrences, Histories, Hits, Recorded, Count.Minus, Count.Covers;
  }

  /** A run of increments goes through exactly when no error of it is one to re-raise and every counter affords the
      events of its class; it then leaves exactly the difference. */
  lemma {:induction false} RunSpends(r: Retry, qs: seq<Request>)
    requires r.Made()
    ensures Run(r, qs).Again? <==> qs == [] || (NoneRaised(r, qs) && Affords(r, qs))
    ensures Run(r, qs).Again? ==> Run(r, qs).retry == Spent(r, qs)
    decreases |qs|
  {
    if qs == [] {
      assert r.history + Histories(qs) == r.history;
    } else {
      var q, rest := qs[0], qs[1..];
      assert qs == [q] + rest;
      OneSpent(r, q);
      if Increment(r, q).Again? {
        var next := Increment(r, q).retry;
        SpentCons(r, q, rest);
        SpentMade(r, q);
        RunSpends(next, rest);
      } else {
      }
      hide Increment, Spent, Affords;
    }
  }

  /** From counters that are not negative, every counter stays so; none can ever recover. */
  lemma RunStaysNonNegative(r: Retry, qs: seq<Request>)
    requires r.Made() && !r.Exhausted() && Run(r, qs).Again?
    ensures !Run(r, qs).retry.Exhausted()
  {
    RunSpends(r, qs);
  }

  /** With a number as `total`, no more than that many increments go through, whatever they are for. */
  lemma RunBounded(r: Retry, qs: seq<Request>)
    requires r.Made() && r.total.Of? && Run(r, qs).Again? && qs != []
    ensures |qs| <= r.total.n && Run(r, qs).retry.total == Of(r.total.n - |qs|)
  {
    RunSpends(r, qs);
  }

  // ---- waiting ---------------------------------------------------------------------------------

  /** The errors since the last redirect. */
  function ConsecutiveErrors(history: seq<RequestHistory>): nat {
    if history == [] || history[|history| - 1].redirectLocation.Some? then 0
    else 1 + ConsecutiveErrors(history[..|history| - 1])
  }

  function Power(n: nat): (p: real)
    ensures p >= 1.0
  {
    if n == 0 then 1.0 else 2.0 * Power(n - 1)
  }

  /** At most `backoff_max`. */
  function Capped(s: Settings, wait: real): real {
    if wait < s.backoffMax then wait else s.backoffMax
  }

  /** `get_backoff_time` without jitter. */
  function BackoffTime(r: Retry): real {
    var n := ConsecutiveErrors(r.history);
    if n <= 1 then 0.0
    else
      var capped := Capped(r.settings, r.settings.backoffFactor * Power(n - 1));
      if capped < 0.0 then 0.0 else capped
  }

  /** A history before the errors counted: nothing, or up to a redirect. */
  predicate EndsInRedirect(history: seq<RequestHistory>) {
    history == [] || history[|history| - 1].redirectLocation.Some?
  }

  lemma {:induction false} ErrorsSinceRedirect(history: seq<RequestHistory>, errors: seq<RequestHistory>)
    requires EndsInRedirect(history) && forall e :: e in errors ==> e.redirectLocation.None?
    ensures ConsecutiveErrors(history + errors) == |errors|
  {
    var all := history + errors;
    if errors == [] {
      assert all == history;
    } else {
      var m := |errors| - 1;
      assert all[|all| - 1] == errors[m];
      assert all[..|all| - 1] == history + errors[..m];
      ErrorsSinceRedirect(history, errors[..m]);
    }
  }

  lemma Scale(f: real, p: real)
    ensures f * (2.0 * p) == 2.0 * (f * p) && f * 1.0 == f
  {}

  lemma NotNegative(f: real, p: real)
    requires f >= 0.0 && p >= 1.0
    ensures f * p >= 0.0
  {}

  /** The wait after `n` errors in a row. */
  function Wait(s: Settings, n: nat): real {
    if n <= 1 then 0.0 else Capped(s, s.backoffFactor * Power(n - 1))
  }

  lemma WaitIs(r: Retry, n: nat)
    requires ConsecutiveErrors(r.history) == n && r.settings.backoffFactor >= 0.0 && r.settings.backoffMax >= 0.0
    ensures BackoffTime(r) == Wait(r.settings, n)
  {
    hide ConsecutiveErrors;
    if n > 0 {
      NotNegative(r.settings.backoffFactor, Power(n - 1));
    }
  }

  lemma WaitDoubles(s: Settings, n: nat)
    requires s.backoffFactor >= 0.0 && s.backoffMax >= 0.0
    ensures Wait(s, n + 1) == if n == 0 then 0.0
                              else if n == 1 then Capped(s, 2.0 * s.backoffFactor)
                              else Capped(s, 2.0 * Wait(s, n))
  {
    if n > 0 {
      var p := Power(n - 1);
      assert Power(n) == 2.0 * p && (n == 1 ==> p == 1.0);
      Scale(s.backoffFactor, p);
      NotNegative(s.backoffFactor, p);
      DoubleCapped(s, s.backoffFactor * p);
    }
    hide Power;
  }

  lemma DoubleCapped(s: Settings, wait: real)
    requires wait >= 0.0 && s.backoffMax >= 0.0
    ensures Capped(s, 2.0 * Capped(s, wait)) == Capped(s, 2.0 * wait)
  {}

  /** After a redirect, whatever came before it, and at the start of a call: the first error is retried at once, and
      from the second one on each further error doubles the wait, up to the maximum. */
  lemma BackoffDoubles(r: Retry, history: seq<RequestHistory>, errors: seq<RequestHistory>, e: RequestHistory)
    requires EndsInRedirect(history) && e.redirectLocation.None? && forall x :: x in errors ==> x.redirectLocation.None?
    requires r.history == history + errors
    requires r.settings.backoffFactor >= 0.0 && r.settings.backoffMax >= 0.0
    ensures var next := r.(history := r.history + [e]);
            BackoffTime(next) == if |errors| == 0 then 0.0
                                 else if |errors| == 1 then Capped(r.settings, 2.0 * r.settings.backoffFactor)
                                 else Capped(r.settings, 2.0 * BackoffTime(r))
  {
    OneMoreError(history, errors, e);
    hide ConsecutiveErrors, BackoffTime, Capped, Wait;
    WaitIs(r, |errors|);
    WaitIs(r.(history := r.history + [e]), |errors| + 1);
    WaitDoubles(r.settings, |errors|);
  }

  lemma OneMoreError(history: seq<RequestHistory>, errors: seq<RequestHistory>, e: RequestHistory)
    requires EndsInRedirect(history) && e.redirectLocation.None? && forall x :: x in errors ==> x.redirectLocation.None?
    ensures ConsecutiveErrors(history + errors) == |errors|
    ensures ConsecutiveErrors(history + errors + [e]) == |errors| + 1
  {
    ErrorsSinceRedirect(history, errors);
    assert history + (errors + [e]) == history + errors + [e];
    ErrorsSinceRedirect(history, errors + [e]);
  }

  // ---- the forms a caller may give ---------------------------------------------------------------

  const DEFAULT_SETTINGS := Settings(Some({"HEAD", "GET", "PUT", "DELETE", "OPTIONS", "TRACE"}), {}, true, true,
                                     {"cookie", "authorization", "proxy-authorization"}, 0.0, 120.0)

  datatype RetriesArg = NotGiven | GivenNone | AsCount(count: Count) | AsRetry(retry: Retry)

  function FromCount(count: Count, redirect: Count): (r: Retry)
    ensures r.Made()
  {
    Make(count, Unlimited, Unlimited, redirect, Unlimited, Unlimited, true, [], DEFAULT_SETTINGS)
  }

  /** `from_int`. */
  function FromInt(arg: RetriesArg, redirect: bool, default: RetriesArg): Retry {
    var given := if !arg.NotGiven? && !arg.GivenNone? then arg
                 else if !default.NotGiven? && !default.GivenNone? then default
                 else AsRetry(FromCount(Of(3), Unlimited));
    match given
    case AsRetry(r) => r
    case AsCount(count) => FromCount(count, if redirect then Unlimited else Off)
    case _ => FromCount(Of(3), Unlimited)
  }

  /** The increments are counted: by `total`, or without one by all the other counters, no response being retried that
      none of them counts. */
  predicate Countable(r: Retry) {
    r.Made() && (r.total != Unlimited
                 || (r.connect != Unlimited && r.read != Unlimited && r.redirect != Unlimited && r.status != Unlimited
                     && r.other != Unlimited && 0 !in r.settings.statusForcelist))
  }

  /** The increments still possible. */
  function Fuel(r: Retry): nat {
    if r.total != Unlimited then r.total.Left()
    else r.connect.Left() + r.read.Left() + r.redirect.Left() + r.status.Left() + r.other.Left()
  }

  /** What one increment costs a retry loop. */
  lemma IncrementBurns(r: Retry, q: Request)
    requires Countable(r) && Increment(r, q).Again? && (r.total == Unlimited ==> q.event != NoStatus)
    ensures var next := Increment(r, q).retry;
            Fuel(next) == Fuel(r) - 1 && Countable(next) && next.settings == r.settings
  {
    OneSpent(r, q);
    SpentMade(r, q);
    CountsOne(r, q);
    MinusLeft(r.total, 1);
    MinusLeft(r.connect, Hits(q, Connects));
    MinusLeft(r.read, Hits(q, Reads));
    MinusLeft(r.redirect, Hits(q, Redirects));
    MinusLeft(r.status, Hits(q, Statuses));
    MinusLeft(r.other, Hits(q, Others));
    hide Increment, Spent, Affords, Count.Minus, Count.Covers, Count.Left;
  }

  lemma MinusLeft(c: Count, k: nat)
    ensures c != Unlimited && c.Covers(k) ==> c.Minus(k).Left() == c.Left() - k && c.Minus(k) != Unlimited
    ensures c == Unlimited ==> c.Minus(k) == Unlimited
  {}
}
