/** The circuit breaker that guards the OCR service and the language model. */
module CircuitBreakers {
  import opened Common

  datatype State = Closed | Open | HalfOpen

  datatype Breaker = Breaker(threshold: int, window: real, failures: nat, state: State, lastFailure: real)

  function New(threshold: int, window: real): Breaker {
    Breaker(threshold, window, 0, Closed, 0.0)
  }

  predicate Allows(b: Breaker, now: real) {
    b.state != Open || now - b.lastFailure >= b.window
  }

  /** Asking moves an open breaker to half-open once the recovery window has passed. */
  function Asked(b: Breaker, now: real): Breaker {
    if b.state == Open && Allows(b, now) then b.(state := HalfOpen) else b
  }

  function Succeeded(b: Breaker): Breaker {
    b.(failures := 0, state := Closed)
  }

  function Failed(b: Breaker, now: real): Breaker {
    var failures := b.failures + 1;
    b.(failures := failures, lastFailure := now, state := if failures >= b.threshold then Open else b.state)
  }

  // ---- Every run ----

  /** What callers do, in any order: several may ask before any of them reports an outcome. */
  datatype Event = Ask(now: real) | Success | Failure(now: real)

  function After(b: Breaker, events: seq<Event>): Breaker {
    if events == [] then b
    else
      var before := After(b, Init(events));
      match Last(events)
      case Ask(now) => Asked(before, now)
      case Success => Succeeded(before)
      case Failure(now) => Failed(before, now)
  }

  function FailuresSinceSuccess(events: seq<Event>): nat {
    if events == [] || Last(events).Success? then 0
    else FailuresSinceSuccess(Init(events)) + if Last(events).Failure? then 1 else 0
  }

  /**
   * In every run the breaker is closed exactly while the failures since the last success are below the threshold,
   * or there are none; the second alternative matters only for a threshold that is not positive.
   */
  lemma {:induction false} ClosedIff(threshold: int, window: real, events: seq<Event>)
    ensures var b := After(New(threshold, window), events);
            && b.threshold == threshold && b.window == window
            && b.failures == FailuresSinceSuccess(events)
            && (b.state == Closed <==> FailuresSinceSuccess(events) == 0 || FailuresSinceSuccess(events) < threshold)
    ensures threshold > 0 ==>
              (After(New(threshold, window), events).state == Closed <==> FailuresSinceSuccess(events) < threshold)
  {
    if events != [] {
      ClosedIff(threshold, window, Init(events));
    }
  }

  /** Half-open is no limit by itself: until an outcome is recorded every further ask is allowed, however many. */
  lemma {:induction false} HalfOpenAdmitsAll(b: Breaker, asks: seq<Event>, now: real)
    requires b.state == Open && now - b.lastFailure >= b.window
    requires forall e :: e in asks ==> e.Ask?
    ensures After(b, [Ask(now)] + asks).state == HalfOpen
    ensures forall later: real :: Allows(After(b, [Ask(now)] + asks), later)
  {
    var events := [Ask(now)] + asks;
    if asks == [] {
      assert events == [Ask(now)] && Init(events) == [];
      assert After(b, []) == b;
    } else {
      assert Init(events) == [Ask(now)] + Init(asks);
      assert Last(events) == Last(asks);
      HalfOpenAdmitsAll(b, Init(asks), now);
    }
  }

  // ---- A sequential caller and a service that always fails ----

  /** A caller asks at `at`; when let through, its attempts fail at the given times. */
  datatype Attempt = Attempt(at: real, failures: seq<real>)

  function FailAll(b: Breaker, times: seq<real>): Breaker {
    if times == [] then b else Failed(FailAll(b, Init(times)), Last(times))
  }

  predicate Ascending(from: real, times: seq<real>) {
    forall i :: 0 <= i < |times| ==> from <= times[i] && (i > 0 ==> times[i - 1] <= times[i])
  }

  function Step(b: Breaker, a: Attempt): Breaker {
    if Allows(b, a.at) then FailAll(Asked(b, a.at), a.failures) else b
  }

  /** On a clock that never goes back, one caller after the other, `perCall` failures for each call let through. */
  ghost predicate Sequential(b: Breaker, clock: real, attempts: seq<Attempt>, perCall: nat)
    decreases |attempts|
  {
    attempts == [] ||
    var a := attempts[0];
    && clock <= a.at
    && (Allows(b, a.at) ==> |a.failures| == perCall && Ascending(a.at, a.failures))
    && Sequential(Step(b, a), if Allows(b, a.at) && a.failures != [] then Last(a.failures) else a.at,
                  attempts[1..], perCall)
  }

  function LetThrough(b: Breaker, attempts: seq<Attempt>): nat
    decreases |attempts|
  {
    if attempts == [] then 0
    else (if Allows(b, attempts[0].at) then 1 else 0) + LetThrough(Step(b, attempts[0]), attempts[1..])
  }

  /** How many calls of `perCall` failures it takes to record `failures` of them. */
  function Calls(failures: int, perCall: int): int
    requires perCall > 0
  {
    (failures + perCall - 1) / perCall
  }

  /** How many whole windows fit into a span of time. */
  function Windows(span: real, window: real): nat
    requires window > 0.0
  {
    if span < 0.0 then 0
    else
      QuotientNonNegative(span, window);
      (span / window).Floor
  }

  lemma QuotientNonNegative(x: real, y: real)
    requires x >= 0.0 && y > 0.0
    ensures x / y >= 0.0
  {
  }

  lemma QuotientMonotone(x: real, y: real, w: real)
    requires x <= y && w > 0.0
    ensures x / w <= y / w
  {
    assert y / w - x / w == (y - x) / w;
    QuotientNonNegative(y - x, w);
  }

  lemma WindowsMonotone(x: real, y: real, w: real)
    requires x <= y && w > 0.0
    ensures Windows(x, w) <= Windows(y, w)
  {
    if x >= 0.0 {
      QuotientMonotone(x, y, w);
    }
  }

  lemma QuotientOf(x: real, w: real, q: real)
    requires w > 0.0 && q * w == x
    ensures x / w == q
  {
  }

  lemma OneWindowLess(x: real, w: real)
    requires w > 0.0
    ensures x >= w ==> Windows(x, w) == Windows(x - w, w) + 1
    ensures x < w ==> Windows(x, w) == 0
  {
    var q := x / w;
    assert q * w == x;
    assert (q - 1.0) * w == x - w;
    QuotientOf(x - w, w, q - 1.0);
    if 0.0 <= x < w {
      QuotientNonNegative(w - x, w);
      assert (1.0 - q) * w == w - x;
      assert q < 1.0;
    }
  }

  lemma ProductMonotone(a: int, b: int, p: int)
    requires a <= b && p > 0
    ensures a * p <= b * p
  {
  }

  lemma IntQuotientOf(n: int, p: int, q: int)
    requires p > 0 && q * p <= n < q * p + p
    ensures n / p == q
  {
    var d := n / p;
    assert d * p <= n < d * p + p;
    if d < q {
      ProductMonotone(d + 1, q, p);
    } else if d > q {
      ProductMonotone(q + 1, d, p);
    }
  }

  lemma OneCallLess(failures: int, perCall: int)
    requires perCall > 0
    ensures Calls(failures, perCall) == Calls(failures - perCall, perCall) + 1
    ensures failures > 0 ==> Calls(failures, perCall) >= 1
  {
    var n := failures - 1;
    var q := n / perCall;
    assert q * perCall <= n < q * perCall + perCall;
    IntQuotientOf(n + perCall, perCall, q + 1);
    if failures > 0 && q < 0 {
      ProductMonotone(q, -1, perCall);
      assert false;
    }
  }

  /** A run of failures leaves the breaker open from the last one on, as soon as the threshold is met. */
  lemma {:induction false} FailAllMeaning(b: Breaker, times: seq<real>)
    requires times != [] && (b.state != Closed ==> b.failures >= b.threshold)
    ensures var f := FailAll(b, times);
            && f.failures == b.failures + |times| && f.lastFailure == Last(times)
            && f.threshold == b.threshold && f.window == b.window
            && f.state == if f.failures >= b.threshold then Open else b.state
  {
    if |times| == 1 {
      assert FailAll(b, Init(times)) == b;
    } else {
      FailAllMeaning(b, Init(times));
    }
  }

  /** The calls still possible: those that reach the threshold while closed, then one per window. */
  function Remaining(b: Breaker, clock: real, perCall: nat, deadline: real): int
    requires perCall > 0 && b.window > 0.0
  {
    if b.state == Closed then Calls(b.threshold - b.failures, perCall) + Windows(deadline - clock, b.window)
    else Windows(deadline - b.lastFailure, b.window)
  }

  /** The breaker between calls: closed below the threshold, or open since its last failure. */
  predicate Settled(b: Breaker, clock: real) {
    b.window > 0.0 && if b.failures < b.threshold then b.state == Closed else b.state == Open && b.lastFailure <= clock
  }

  lemma StepBound(b: Breaker, clock: real, a: Attempt, perCall: nat, deadline: real)
    requires Settled(b, clock) && perCall > 0 && Sequential(b, clock, [a], perCall) && a.at <= deadline
    ensures var b', clock' := Step(b, a), if Allows(b, a.at) then Last(a.failures) else a.at;
            && Settled(b', clock') && clock <= clock'
            && (if Allows(b, a.at) then 1 else 0) + Remaining(b', clock', perCall, deadline)
               <= Remaining(b, clock, perCall, deadline)
  {
    if Allows(b, a.at) {
      FailAllMeaning(Asked(b, a.at), a.failures);
      var last := Last(a.failures);
      if b.state == Closed {
        OneCallLess(b.threshold - b.failures, perCall);
        WindowsMonotone(deadline - last, deadline - clock, b.window);
      } else {
        OneWindowLess(deadline - b.lastFailure, b.window);
        WindowsMonotone(deadline - last, deadline - b.lastFailure - b.window, b.window);
      }
    } else {
      WindowsMonotone(deadline - a.at, deadline - clock, b.window);
    }
  }

  lemma {:induction false} AttemptsBound(b: Breaker, clock: real, attempts: seq<Attempt>, perCall: nat, deadline: real)
    requires Settled(b, clock) && perCall > 0 && Sequential(b, clock, attempts, perCall)
    requires forall a :: a in attempts ==> a.at <= deadline
    ensures LetThrough(b, attempts) <= Remaining(b, clock, perCall, deadline)
    decreases |attempts|
  {
    if attempts == [] {
      if b.state == Closed {
        OneCallLess(b.threshold - b.failures, perCall);
      }
    } else {
      var a := attempts[0];
      assert Sequential(b, clock, [a], perCall);
      StepBound(b, clock, a, perCall, deadline);
      AttemptsBound(Step(b, a), if Allows(b, a.at) then Last(a.failures) else a.at, attempts[1..], perCall, deadline);
    }
  }

  /**
   * Against a service that always fails, a sequential caller is let through at most
   * ceil(threshold / perCall) + floor(D / window) times in the first D seconds.
   */
  lemma AlwaysFailingBound(threshold: int, window: real, attempts: seq<Attempt>, perCall: nat, duration: real)
    requires threshold > 0 && window > 0.0 && perCall > 0
    requires Sequential(New(threshold, window), 0.0, attempts, perCall)
    requires forall a :: a in attempts ==> a.at <= duration
    ensures LetThrough(New(threshold, window), attempts) <= Calls(threshold, perCall) + Windows(duration, window)
  {
    AttemptsBound(New(threshold, window), 0.0, attempts, perCall, duration);
  }

  function Repeat(t: real, n: nat): (times: seq<real>)
    ensures |times| == n && forall i :: 0 <= i < n ==> times[i] == t
  {
    seq(n, _ => t)
  }

  /** The eager caller: asks the moment it can be let through, and fails at once. */
  lemma {:induction false} EagerAttempts(b: Breaker, clock: real, perCall: nat, deadline: real)
    returns (attempts: seq<Attempt>)
    requires Settled(b, clock) && perCall > 0 && clock <= deadline && (b.state == Open ==> b.lastFailure == clock)
    ensures Sequential(b, clock, attempts, perCall)
    ensures forall a :: a in attempts ==> a.at <= deadline
    ensures LetThrough(b, attempts) == Remaining(b, clock, perCall, deadline)
    decreases Remaining(b, clock, perCall, deadline)
  {
    if b.state == Open {
      OneWindowLess(deadline - clock, b.window);
    } else {
      OneCallLess(b.threshold - b.failures, perCall);
    }
    if b.state == Open && deadline - clock < b.window {
      attempts := [];
    } else {
      var at := if b.state == Open then clock + b.window else clock;
      var a := Attempt(at, Repeat(at, perCall));
      assert Last(a.failures) == at;
      FailAllMeaning(Asked(b, at), a.failures);
      if b.state == Closed && b.failures + perCall >= b.threshold {
        LastCall(b.threshold - b.failures, perCall);
      }
      var rest := EagerAttempts(Step(b, a), at, perCall, deadline);
      attempts := [a] + rest;
      assert attempts[1..] == rest;
    }
  }

  lemma LastCall(failures: int, perCall: int)
    requires 0 < failures <= perCall
    ensures Calls(failures, perCall) == 1
  {
  }

  /** The bound cannot be lowered: some caller is let through exactly that often. */
  lemma BoundIsReached(threshold: int, window: real, perCall: nat, duration: real) returns (attempts: seq<Attempt>)
    requires threshold > 0 && window > 0.0 && perCall > 0 && duration >= 0.0
    ensures Sequential(New(threshold, window), 0.0, attempts, perCall)
    ensures forall a :: a in attempts ==> a.at <= duration
    ensures LetThrough(New(threshold, window), attempts) == Calls(threshold, perCall) + Windows(duration, window)
  {
    attempts := EagerAttempts(New(threshold, window), 0.0, perCall, duration);
  }

  // ---- The breaker as an object ----

  class CircuitBreaker {
    const failureThreshold: int
    const recoveryWindow: real
    var failureCount: nat
    var state: State
    var lastFailureTime: real

    function View(): Breaker
      reads this
    {
      Breaker(failureThreshold, recoveryWindow, failureCount, state, lastFailureTime)
    }

    constructor (threshold: int, window: real)
      ensures View() == New(threshold, window)
    {
      failureThreshold, recoveryWindow := threshold, window;
      failureCount, state, lastFailureTime := 0, Closed, 0.0;
    }

    method IsCallAllowed(now: real) returns (allowed: bool)
      modifies this
      ensures allowed == Allows(old(View()), now) && View() == Asked(old(View()), now)
    {
      if state == Closed {
        return true;
      }
      if state == Open {
        if now - lastFailureTime >= recoveryWindow {
          state := HalfOpen;
          return true;
        }
        return false;
      }
      return true;
    }

    method RecordSuccess()
      modifies this
      ensures View() == Succeeded(old(View()))
    {
      failureCount, state := 0, Closed;
    }

    method RecordFailure(now: real)
      modifies this
      ensures View() == Failed(old(View()), now)
    {
      failureCount, lastFailureTime := failureCount + 1, now;
      if failureCount >= failureThreshold {
        state := Open;
      }
    }
  }
}

/** The OCR client: cache, breaker, service. */
module OcrClient {
  import opened Common
  import opened CircuitBreakers

  type Token = string

  datatype Client = Client(breaker: Breaker, cache: map<string, seq<Token>>)

  /** One request: the page's digest, when it asks, what the service would answer, and when a failure is recorded. */
  datatype Request = Request(page: string, at: real, answer: Option<seq<Token>>, failedAt: real)

  predicate Reaches(c: Client, r: Request) {
    r.page !in c.cache && Allows(c.breaker, r.at)
  }

  function Tokens(c: Client, r: Request): seq<Token> {
    if r.page in c.cache then c.cache[r.page]
    else if Reaches(c, r) && r.answer.Some? then r.answer.value
    else []
  }

  function Served(c: Client, r: Request): Client {
    if r.page in c.cache then c
    else
      var asked := Asked(c.breaker, r.at);
      if !Reaches(c, r) then c.(breaker := asked)
      else if r.answer.Some? then Client(Succeeded(asked), c.cache[r.page := r.answer.value])
      else c.(breaker := Failed(asked, r.failedAt))
  }

  function ServedAll(c: Client, rs: seq<Request>): Client {
    if rs == [] then c else Served(ServedAll(c, Init(rs)), Last(rs))
  }

  /** The first answer the service gives for a page; requests the breaker stops or that fail give none. */
  function FirstAnswer(c: Client, rs: seq<Request>, page: string): Option<seq<Token>> {
    if rs == [] then None
    else if FirstAnswer(c, Init(rs), page).Some? then FirstAnswer(c, Init(rs), page)
    else if Last(rs).page == page && Reaches(ServedAll(c, Init(rs)), Last(rs)) then Last(rs).answer
    else None
  }

  /** From the first answer on, every request for the page gets that answer, whatever the breaker's state. */
  lemma {:induction false} FirstAnswerIsKept(c: Client, rs: seq<Request>, r: Request)
    requires r.page !in c.cache
    ensures r.page in ServedAll(c, rs).cache <==> FirstAnswer(c, rs, r.page).Some?
    ensures FirstAnswer(c, rs, r.page).Some? ==>
              && Tokens(ServedAll(c, rs), r) == FirstAnswer(c, rs, r.page).value
              && Served(ServedAll(c, rs), r) == ServedAll(c, rs)
  {
    if rs != [] {
      FirstAnswerIsKept(c, Init(rs), r);
    }
  }

  /** A request that gets no answer gets no tokens. */
  lemma NoAnswerNoTokens(c: Client, r: Request)
    requires r.page !in c.cache
    ensures Tokens(c, r) == if Allows(c.breaker, r.at) && r.answer.Some? then r.answer.value else []
  {
  }

  /** What a request that is not in the cache does to the breaker, and to the cache. */
  lemma RequestMeaning(c: Client, r: Request)
    requires r.page !in c.cache
    ensures var after := Served(c, r);
      && (!Allows(c.breaker, r.at) ==> after == c)
      && (Allows(c.breaker, r.at) && r.answer.Some? ==>
            && after.breaker.state == Closed && after.breaker.failures == 0
            && after.cache == c.cache[r.page := r.answer.value])
      && (Allows(c.breaker, r.at) && r.answer.None? ==>
            && after.breaker.failures == c.breaker.failures + 1 && after.breaker.lastFailure == r.failedAt
            && (after.breaker.failures >= c.breaker.threshold ==> after.breaker.state == Open)
            && after.cache == c.cache)
  {
  }

  class PaddleOCRClient {
    const breaker: CircuitBreaker
    var cache: map<string, seq<Token>>

    constructor ()
      ensures View() == Client(New(3, 30.0), map[]) && fresh(breaker)
    {
      breaker := new CircuitBreaker(3, 30.0);
      cache := map[];
    }

    ghost function View(): Client
      reads this, breaker
    {
      Client(breaker.View(), cache)
    }

    method ExtractTokens(r: Request) returns (tokens: seq<Token>)
      modifies this, breaker
      ensures View() == Served(old(View()), r) && tokens == Tokens(old(View()), r)
    {
      if r.page in cache {
        return cache[r.page];
      }
      var allowed := breaker.IsCallAllowed(r.at);
      if !allowed {
        return [];
      }
      if r.answer.Some? {
        breaker.RecordSuccess();
        cache := cache[r.page := r.answer.value];
        return r.answer.value;
      }
      breaker.RecordFailure(r.failedAt);
      return [];
    }
  }
}

/** The language model client: two attempts for each call let through. */
module BedrockClient {
  import opened Common
  import opened CircuitBreakers

  const ATTEMPTS := 2

  /**
   * What happens on one attempt. The model answers, if only that the field is not there, or the attempt raises. The
   * source then builds a client anew to find out which exceptions to catch; if that raises as well, the exception
   * escapes before the failure is recorded.
   */
  datatype Reply = Answered(value: Option<string>) | Threw(failedAt: real, handlerRaises: bool)

  /** What the attempts come to: the first answer, or no value; or an exception that escapes. */
  function Answer(replies: seq<Reply>): Outcome<Option<string>> {
    if replies == [] then Returned(None)
    else match replies[0]
      case Answered(value) => Returned(value)
      case Threw(_, handlerRaises) => if handlerRaises then Raised else Answer(replies[1..])
  }

  /** The model answers before an exception escapes. */
  predicate Answers(replies: seq<Reply>) {
    replies != [] && (replies[0].Answered? || (!replies[0].handlerRaises && Answers(replies[1..])))
  }

  /** The times of the failures recorded before that. */
  function FailureTimes(replies: seq<Reply>): seq<real> {
    if replies == [] || replies[0].Answered? || replies[0].handlerRaises then []
    else [replies[0].failedAt] + FailureTimes(replies[1..])
  }

  /** The breaker after a call let through, from the outcomes of its attempts. */
  function Called(b: Breaker, replies: seq<Reply>): Breaker {
    var failed := FailAll(b, FailureTimes(replies));
    if Answers(replies) then Succeeded(failed) else failed
  }

  lemma FailAllCons(b: Breaker, t: real, times: seq<real>)
    ensures FailAll(b, [t] + times) == FailAll(Failed(b, t), times)
  {
    if times == [] {
      assert Init([t]) == [];
      assert [t] + times == [t];
    } else {
      assert Init([t] + times) == [t] + Init(times);
      FailAllCons(b, t, Init(times));
    }
  }

  /** Attempt by attempt: an answer, with or without value, counts as a success and ends the call. */
  lemma {:induction false} CalledStep(b: Breaker, replies: seq<Reply>)
    requires replies != []
    ensures replies[0].Answered? ==> Called(b, replies) == Succeeded(b)
    ensures replies[0].Threw? && replies[0].handlerRaises ==> Called(b, replies) == b
    ensures replies[0].Threw? && !replies[0].handlerRaises ==>
              Called(b, replies) == Called(Failed(b, replies[0].failedAt), replies[1..])
  {
    if replies[0].Threw? && !replies[0].handlerRaises {
      FailAllCons(b, replies[0].failedAt, FailureTimes(replies[1..]));
    }
  }

  /**
   * What a call comes to: the first answer before which every attempt raised and was recorded; an exception, when an
   * attempt before any answer raises unrecorded; and no value when all raise and are recorded.
   */
  lemma {:induction false} AnswerMeaning(replies: seq<Reply>, k: nat)
    requires k <= |replies| && forall i :: 0 <= i < k ==> RaisesRecorded(replies[i])
    ensures k == |replies| ==> Answer(replies) == Returned(None) && !Answers(replies) && |FailureTimes(replies)| == k
    ensures k < |replies| && replies[k].Answered? ==>
              Answer(replies) == Returned(replies[k].value) && Answers(replies) && |FailureTimes(replies)| == k
    ensures k < |replies| && replies[k].Threw? && replies[k].handlerRaises ==>
              Answer(replies) == Raised && !Answers(replies) && |FailureTimes(replies)| == k
  {
    if k > 0 {
      AnswerMeaning(replies[1..], k - 1);
    }
  }

  predicate RaisesRecorded(reply: Reply) {
    reply.Threw? && !reply.handlerRaises
  }

  /** A call records one failure per attempt exactly when all of its attempts raise and are recorded. */
  lemma {:induction false} EveryAttemptFailsIff(replies: seq<Reply>)
    ensures |FailureTimes(replies)| <= |replies|
    ensures |FailureTimes(replies)| == |replies| <==> forall i :: 0 <= i < |replies| ==> RaisesRecorded(replies[i])
    ensures |FailureTimes(replies)| == |replies| ==>
              && !Answers(replies) && Answer(replies) == Returned(None)
              && forall i :: 0 <= i < |replies| ==> FailureTimes(replies)[i] == replies[i].failedAt
  {
    if replies != [] {
      EveryAttemptFailsIff(replies[1..]);
      assert forall i :: 0 < i < |replies| ==> replies[i] == replies[1..][i - 1];
    }
  }

  // ---- Runs of calls ----

  datatype Call = Call(at: real, replies: seq<Reply>)

  function CallNext(b: Breaker, call: Call): Breaker {
    if Allows(b, call.at) then Called(Asked(b, call.at), call.replies) else b
  }

  function CalledAll(b: Breaker, calls: seq<Call>): Breaker {
    if calls == [] then b else CallNext(CalledAll(b, Init(calls)), Last(calls))
  }

  /** The failures recorded by the calls let through, since the last of them that was answered. */
  function RecordedSince(b: Breaker, calls: seq<Call>): nat {
    if calls == [] then b.failures
    else if !Allows(CalledAll(b, Init(calls)), Last(calls).at) then RecordedSince(b, Init(calls))
    else if Answers(Last(calls).replies) then 0
    else RecordedSince(b, Init(calls)) + |FailureTimes(Last(calls).replies)|
  }

  /** A breaker that is closed exactly while its failures are below the threshold, or there are none. */
  predicate Coherent(b: Breaker) {
    b.state == Closed <==> b.failures == 0 || b.failures < b.threshold
  }

  lemma CallCoherent(b: Breaker, call: Call)
    requires Coherent(b)
    ensures var b' := CallNext(b, call);
            && Coherent(b') && b'.threshold == b.threshold
            && b'.failures == if !Allows(b, call.at) then b.failures
                              else if Answers(call.replies) then 0
                              else b.failures + |FailureTimes(call.replies)|
  {
    var times := FailureTimes(call.replies);
    if times != [] {
      FailAllMeaning(Asked(b, call.at), times);
    }
  }

  /**
   * In every run of calls, whatever answers, raises or cannot be built: the breaker is closed exactly while the
   * failures recorded since the last answer are below the threshold. So it opens with the call that brings them to
   * the threshold, and a failure that is not recorded brings it no nearer.
   */
  lemma {:induction false} ClientBreakerClosedIff(threshold: int, window: real, calls: seq<Call>)
    ensures var b := CalledAll(New(threshold, window), calls);
            && Coherent(b) && b.threshold == threshold
            && b.failures == RecordedSince(New(threshold, window), calls)
    ensures threshold > 0 ==>
              (CalledAll(New(threshold, window), calls).state == Closed
               <==> RecordedSince(New(threshold, window), calls) < threshold)
  {
    if calls != [] {
      ClientBreakerClosedIff(threshold, window, Init(calls));
      CallCoherent(CalledAll(New(threshold, window), Init(calls)), Last(calls));
    }
  }

  /** No client can be built for the call: its first attempt raises, and so does the handler. */
  predicate Unbuildable(call: Call) {
    call.replies != [] && call.replies[0].Threw? && call.replies[0].handlerRaises
  }

  lemma {:induction false} NothingRecorded(b: Breaker, calls: seq<Call>)
    requires forall call :: call in calls ==> Unbuildable(call)
    ensures RecordedSince(b, calls) == b.failures
  {
    if calls != [] {
      assert Last(calls) in calls && forall call :: call in Init(calls) ==> call in calls;
      NothingRecorded(b, Init(calls));
    }
  }

  /** So while no client can be built the breaker never opens: every call is let through, however many fail. */
  lemma UnbuildableClientNeverOpens(threshold: int, window: real, calls: seq<Call>)
    requires forall call :: call in calls ==> Unbuildable(call)
    ensures CalledAll(New(threshold, window), calls).state == Closed
    ensures forall at: real :: Allows(CalledAll(New(threshold, window), calls), at)
  {
    NothingRecorded(New(threshold, window), calls);
    ClientBreakerClosedIff(threshold, window, calls);
  }

  /** And between other calls they do no harm either: calls without a client leave a closed breaker as it is. */
  lemma {:induction false} UnbuildableCallsChangeNothing(b: Breaker, calls: seq<Call>)
    requires b.state == Closed && forall call :: call in calls ==> Unbuildable(call)
    ensures CalledAll(b, calls) == b
  {
    if calls != [] {
      assert Last(calls) in calls && forall call :: call in Init(calls) ==> call in calls;
      UnbuildableCallsChangeNothing(b, Init(calls));
      CalledStep(b, Last(calls).replies);
    }
  }

  // ---- A model that always fails ----

  function AsAttempts(calls: seq<Call>): seq<Attempt> {
    seq(|calls|, i requires 0 <= i < |calls| => Attempt(calls[i].at, FailureTimes(calls[i].replies)))
  }

  /** How many of the calls reach the model. */
  function Admitted(b: Breaker, calls: seq<Call>): nat
    decreases |calls|
  {
    if calls == [] then 0
    else (if Allows(b, calls[0].at) then 1 else 0) + Admitted(CallNext(b, calls[0]), calls[1..])
  }

  lemma {:induction false} AdmittedIsLetThrough(b: Breaker, clock: real, calls: seq<Call>)
    requires forall call :: call in calls ==> |call.replies| == ATTEMPTS
    requires Sequential(b, clock, AsAttempts(calls), ATTEMPTS)
    ensures Admitted(b, calls) == LetThrough(b, AsAttempts(calls))
    decreases |calls|
  {
    if calls != [] {
      var call, attempts := calls[0], AsAttempts(calls);
      assert call in calls && forall later :: later in calls[1..] ==> later in calls;
      assert attempts[1..] == AsAttempts(calls[1..]);
      EveryAttemptFailsIff(call.replies);
      assert CallNext(b, call) == Step(b, attempts[0]);
      var clock' := if Allows(b, call.at) && attempts[0].failures != [] then Last(attempts[0].failures) else call.at;
      AdmittedIsLetThrough(CallNext(b, call), clock', calls[1..]);
    }
  }

  /**
   * The bound for this client: one caller after the other, when both attempts of every call let through raise and
   * are recorded, reaches the model in at most 2 + floor(D / 60) calls in the first D seconds.
   */
  lemma FailingModelBound(calls: seq<Call>, duration: real)
    requires forall call :: call in calls ==> |call.replies| == ATTEMPTS && call.at <= duration
    requires Sequential(New(3, 60.0), 0.0, AsAttempts(calls), ATTEMPTS)
    ensures Admitted(New(3, 60.0), calls) <= 2 + Windows(duration, 60.0)
  {
    AdmittedIsLetThrough(New(3, 60.0), 0.0, calls);
    AlwaysFailingBound(3, 60.0, AsAttempts(calls), ATTEMPTS, duration);
  }

  class BedrockVLMClient {
    const breaker: CircuitBreaker
    const vlmEnabled: bool

    constructor (enabled: bool)
      ensures breaker.View() == New(3, 60.0) && fresh(breaker) && vlmEnabled == enabled
    {
      breaker := new CircuitBreaker(3, 60.0);
      vlmEnabled := enabled;
    }

    method ExtractField(at: real, replies: seq<Reply>) returns (answer: Outcome<Option<string>>, calls: nat)
      requires |replies| == ATTEMPTS
      modifies breaker
      ensures !vlmEnabled ==> breaker.View() == old(breaker.View()) && answer == Returned(None) && calls == 0
      ensures vlmEnabled ==> breaker.View() == CallNext(old(breaker.View()), Call(at, replies))
      ensures vlmEnabled && !Allows(old(breaker.View()), at) ==> answer == Returned(None) && calls == 0
      ensures vlmEnabled && Allows(old(breaker.View()), at) ==>
                && answer == Answer(replies)
                && calls == Min(|FailureTimes(replies)| + 1, ATTEMPTS)
    {
      answer, calls := Returned(None), 0;
      if !vlmEnabled {
        return;
      }
      var allowed := breaker.IsCallAllowed(at);
      if !allowed {
        return;
      }
      ghost var asked := breaker.View();
      EveryAttemptFailsIff(replies);
      for attempt := 0 to ATTEMPTS
        invariant calls == attempt && answer == Returned(None)
        invariant Called(asked, replies) == Called(breaker.View(), replies[attempt..])
        invariant Answer(replies) == Answer(replies[attempt..])
        invariant |FailureTimes(replies)| == attempt + |FailureTimes(replies[attempt..])|
      {
        CalledStep(breaker.View(), replies[attempt..]);
        calls := calls + 1;
        match replies[attempt] {
          case Answered(value) =>
            breaker.RecordSuccess();
            answer := Returned(value);
            return;
          case Threw(failedAt, handlerRaises) =>
            if handlerRaises {
              answer := Raised;
              return;
            }
            breaker.RecordFailure(failedAt);
        }
        assert replies[attempt..][1..] == replies[attempt + 1..];
      }
    }
  }
}
