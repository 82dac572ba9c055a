/** The request executor (packages/gitlab-client/src/http.ts): attempts, retries and the total time budget. */
module RequestExecution {
  import opened Base
  import opened IpClass
  import opened Ssrf

  datatype Error =
    | RateLimited(retryAfterMs: Option<int>)
    | UpstreamUnavailable(retryAfterMs: Option<int>)
    | TimedOut
    | Aborted
    | SsrfBlocked(reason: Reason)
    | NoCredential
    | Refused(status: int)
    | BadBody

  datatype Outcome = Success(status: int, body: string) | Failure(error: Error)

  /** What came back over the socket: a response, whose body may be unusable, or nothing. */
  datatype Wire = Responded(status: int, retryAfterMs: Option<int>, body: Option<string>) | Broken

  datatype Limits = Limits(maxAttempts: int, attemptTimeoutMs: nat, totalTimeoutMs: int, backoffBaseMs: nat,
                           backoffMaxMs: nat)

  predicate IsRetryable(error: Error) {
    error.RateLimited? || error.UpstreamUnavailable? || error.TimedOut?
  }

  function HandleResponse(w: Wire): Outcome
    requires w.Responded?
  {
    if 200 <= w.status < 300 then
      match w.body
      case Some(text) => Success(w.status, text)
      case None => Failure(BadBody)
    else if w.status == 429 then Failure(RateLimited(w.retryAfterMs))
    else if w.status == 408 then Failure(TimedOut)
    else if w.status >= 500 then Failure(UpstreamUnavailable(w.retryAfterMs))
    else Failure(Refused(w.status))
  }

  /** Which outcome a response has, outcome by outcome. */
  predicate Sorts(w: Wire, o: Outcome)
    requires w.Responded?
  {
    if 200 <= w.status < 300 then
      o == if w.body.Some? then Success(w.status, w.body.value) else Failure(BadBody)
    else
      && o.Failure?
      && (o.error == RateLimited(w.retryAfterMs) <==> w.status == 429)
      && (o.error == TimedOut <==> w.status == 408)
      && (o.error == UpstreamUnavailable(w.retryAfterMs) <==> w.status >= 500)
      && (o.error == Refused(w.status) <==> w.status < 500 && w.status !in {408, 429})
  }

  /** A response has one outcome only; what is worth another attempt, and what only a usable 2xx response gives. */
  lemma ResponsesSorted(w: Wire, o: Outcome)
    requires w.Responded?
    ensures Sorts(w, o) <==> o == HandleResponse(w)
    ensures Sorts(w, o) ==>
      && (o.Success? <==> 200 <= w.status < 300 && w.body.Some?)
      && (o.Failure? && IsRetryable(o.error) <==> w.status in {408, 429} || w.status >= 500)
      && (o.Failure? && IsRetryable(o.error) && w.status != 408 ==> o.error.retryAfterMs == w.retryAfterMs)
  {
  }

  function Ceiling(attemptNo: nat, limits: Limits): nat
    requires attemptNo >= 1
  {
    Min(limits.backoffMaxMs, limits.backoffBaseMs * PowerOfTwo(attemptNo - 1))
  }

  /** How long to wait after the failed attempt `attemptNo`; `random` is from [0, 1). */
  function BackoffFor(error: Error, attemptNo: nat, limits: Limits, random: real): int
    requires attemptNo >= 1 && 0.0 <= random < 1.0
  {
    var retryAfter := if error.RateLimited? || error.UpstreamUnavailable? then error.retryAfterMs else None;
    if retryAfter.Some? && retryAfter.value >= 0 then retryAfter.value
    else (random * Ceiling(attemptNo, limits) as real).Floor
  }

  lemma ScaledDown(random: real, bound: nat)
    requires 0.0 <= random < 1.0
    ensures 0 <= (random * bound as real).Floor <= bound
    ensures bound > 0 ==> (random * bound as real).Floor < bound
    ensures (random * bound as real).Floor as real <= random * bound as real
    ensures random * bound as real < (random * bound as real).Floor as real + 1.0
  {
    ShareOf(random, bound as real);
    var x := random * bound as real;
    assert x.Floor as real <= x < x.Floor as real + 1.0;
  }

  lemma ShareOf(random: real, whole: real)
    requires 0.0 <= random < 1.0 && 0.0 <= whole
    ensures 0.0 <= random * whole <= whole && (whole > 0.0 ==> random * whole < whole)
  {
    if whole > 0.0 {
      var left := 1.0 - random;
      assert left * whole > 0.0;
      assert left * whole == whole - random * whole;
    }
  }

  /**
   * A wait is never negative. The server's own is kept to the millisecond; any
   * other is the drawn share of a ceiling, in whole milliseconds, and the ceiling
   * starts at the base and doubles with each attempt up to its limit.
   */
  lemma BackoffIsBounded(error: Error, attemptNo: nat, limits: Limits, random: real)
    requires attemptNo >= 1 && 0.0 <= random < 1.0 && IsRetryable(error)
    ensures var delay := BackoffFor(error, attemptNo, limits, random);
            && delay >= 0
            && if !error.TimedOut? && error.retryAfterMs.Some? && error.retryAfterMs.value >= 0
               then delay == error.retryAfterMs.value
               else
                 && delay < Max(1, Ceiling(attemptNo, limits))
                 && delay as real <= random * Ceiling(attemptNo, limits) as real < delay as real + 1.0
    ensures Ceiling(1, limits) == Min(limits.backoffMaxMs, limits.backoffBaseMs)
    ensures Ceiling(attemptNo + 1, limits) == Min(limits.backoffMaxMs, 2 * Ceiling(attemptNo, limits))
  {
    hide PowerOfTwo, Ceiling;
    ScaledDown(random, Ceiling(attemptNo, limits));
    CeilingDoubles(attemptNo, limits);
  }

  lemma CeilingDoubles(attemptNo: nat, limits: Limits)
    requires attemptNo >= 1
    ensures Ceiling(1, limits) == Min(limits.backoffMaxMs, limits.backoffBaseMs)
    ensures Ceiling(attemptNo + 1, limits) == Min(limits.backoffMaxMs, 2 * Ceiling(attemptNo, limits))
  {
    var now := limits.backoffBaseMs * PowerOfTwo(attemptNo - 1);
    assert limits.backoffBaseMs * PowerOfTwo(attemptNo) == 2 * now;
    assert PowerOfTwo(0) == 1;
  }

  /** What the world answers to one attempt: the resolver, the token store, and the other end of the socket. */
  datatype Exchange = Exchange(answers: Answers, credential: bool, wire: Wire)

  /** One attempt: when it ran, how long it was given, and how it ended; `sent` says whether it came to connect. */
  datatype Try = Try(start: Time, timeoutMs: int, end: Time, decision: Decision, sent: bool, aborted: bool,
                     outcome: Outcome)

  datatype Pause = Pause(random: real, ms: int, end: Time)

  /** The attempts and waits follow each other as the retry rules say, from `begin` on. */
  ghost predicate Paced(tries: seq<Try>, pauses: seq<Pause>, limits: Limits, begin: Time, late: nat) {
    var deadline := begin + limits.totalTimeoutMs;
    && |tries| <= Max(limits.maxAttempts, 0)
    && |tries| - 1 <= |pauses| <= |tries|
    && (forall k :: 0 <= k < |tries| ==>
          && begin <= tries[k].start < deadline
          && tries[k].timeoutMs == Min(limits.attemptTimeoutMs, deadline - tries[k].start)
          && tries[k].start <= tries[k].end <= tries[k].start + tries[k].timeoutMs + late)
    && (forall k :: 0 <= k < |pauses| ==> PauseOk(tries, k, pauses[k], limits, deadline, late))
  }

  /** Only a retryable failure is waited after, for as long as the rules say, and only if that fits in the budget. */
  ghost predicate PauseOk(tries: seq<Try>, k: nat, pause: Pause, limits: Limits, deadline: Time, late: nat)
    requires k < |tries|
  {
    && tries[k].outcome.Failure? && IsRetryable(tries[k].outcome.error)
    && k + 1 < limits.maxAttempts
    && 0.0 <= pause.random < 1.0 && pause.ms == BackoffFor(tries[k].outcome.error, k + 1, limits, pause.random)
    && 0 <= pause.ms && tries[k].end + pause.ms < deadline
    && tries[k].end <= pause.end <= tries[k].end + pause.ms + late
    && (k + 1 < |tries| ==> tries[k].end + pause.ms <= pause.end <= tries[k + 1].start)
  }

  /** Every connection goes to an address that this very attempt resolved and checked. */
  predicate Guarded(t: Try, url: Url, allowlist: map<string, bool>) {
    t.sent ==>
      && t.decision.Pinned? && url.origin in allowlist
      && Admissible(t.decision.address, allowlist[url.origin])
  }

  /** The attempt ended as what the world answered to it makes it end. */
  ghost predicate Settled(t: Try, x: Exchange, url: Url, allowlist: map<string, bool>) {
    && Decides(url, allowlist, x.answers, t.decision)
    && (t.sent <==> t.decision.Pinned? && x.credential)
    && (t.decision.Blocked? ==> t.outcome == Failure(SsrfBlocked(t.decision.reason)))
    && (t.decision.Pinned? && !x.credential ==> t.outcome == Failure(NoCredential))
    && (t.sent && x.wire.Responded? ==> Sorts(x.wire, t.outcome))
    && (t.sent && x.wire.Broken? ==>
          && t.outcome.Failure?
          && (t.outcome.error == Aborted <==> t.aborted)
          && (t.outcome.error == TimedOut <==> !t.aborted && t.start + t.timeoutMs <= t.end)
          && (t.outcome.error == UpstreamUnavailable(None) <==> !t.aborted && t.end < t.start + t.timeoutMs))
  }

  /** Every connection goes to an address that is admissible, out of those that this attempt resolved. */
  lemma SettledIsGuarded(t: Try, x: Exchange, url: Url, allowlist: map<string, bool>)
    requires Settled(t, x, url, allowlist)
    ensures Guarded(t, url, allowlist)
    ensures t.sent && !IsIpLiteral(Lower(url.hostname)) ==>
      && x.answers.Resolved? && x.answers.addresses != []
      && Classification(t.decision.address) == Classification(x.answers.addresses[0])
  {
    hide Classification, Lower;
  }

  /** Why giving up with this error is right; `draw(k)` is the jitter drawn after attempt `k`. */
  predicate GivesUp(error: Error, tries: seq<Try>, pauses: seq<Pause>, limits: Limits, begin: Time, now: Time,
                    draw: nat -> real)
    requires forall k :: 0.0 <= draw(k) < 1.0
  {
    var deadline := begin + limits.totalTimeoutMs;
    if tries == [] then
      if limits.maxAttempts < 1 then error == UpstreamUnavailable(None)
      else limits.totalTimeoutMs <= 0 && error == TimedOut
    else
      && tries[|tries| - 1].outcome == Failure(error)
      && (|| !IsRetryable(error)
          || |tries| == limits.maxAttempts
          || (|pauses| == |tries| && deadline <= now)
          || deadline <= tries[|tries| - 1].end + BackoffFor(error, |tries|, limits, draw(|tries| - 1)))
  }

  lemma PacedFromTheStart(limits: Limits, begin: Time, late: nat)
    ensures Paced([], [], limits, begin, late)
  {
  }

  lemma TryAdded(tries: seq<Try>, pauses: seq<Pause>, t: Try, limits: Limits, begin: Time, late: nat)
    requires Paced(tries, pauses, limits, begin, late) && |pauses| == |tries| < limits.maxAttempts
    requires begin <= t.start < begin + limits.totalTimeoutMs
    requires t.timeoutMs == Min(limits.attemptTimeoutMs, begin + limits.totalTimeoutMs - t.start)
    requires t.start <= t.end <= t.start + t.timeoutMs + late
    requires tries != [] ==>
               tries[|tries| - 1].end + pauses[|pauses| - 1].ms <= pauses[|pauses| - 1].end <= t.start
    ensures Paced(tries + [t], pauses, limits, begin, late)
  {
    hide BackoffFor;
    var more := tries + [t];
    forall k | 0 <= k < |pauses| ensures PauseOk(more, k, pauses[k], limits, begin + limits.totalTimeoutMs, late) {
      assert PauseOk(tries, k, pauses[k], limits, begin + limits.totalTimeoutMs, late);
    }
  }

  lemma PauseAdded(tries: seq<Try>, pauses: seq<Pause>, pause: Pause, limits: Limits, begin: Time, late: nat)
    requires Paced(tries, pauses, limits, begin, late) && |pauses| + 1 == |tries|
    requires PauseOk(tries, |tries| - 1, pause, limits, begin + limits.totalTimeoutMs, late)
    ensures Paced(tries, pauses + [pause], limits, begin, late)
  {
    hide PauseOk;
  }

  class RequestExecutor {
    const limits: Limits
    const allowlist: map<string, bool>
    /** How much later than due a timer may fire. */
    const late: nat
    var now: Time
    var aborted: bool

    constructor (limits: Limits, allowlist: map<string, bool>, late: nat, now: Time)
      ensures this.limits == limits && this.allowlist == allowlist && this.late == late && this.now == now && !aborted
    {
      this.limits, this.allowlist, this.late, this.now, aborted := limits, allowlist, late, now, false;
    }

    /** Time goes on, and the caller may abort. */
    method Pass(atMost: nat)
      modifies this
      ensures old(now) <= now <= old(now) + atMost && (old(aborted) ==> aborted)
    {
      var passed: int := *;
      if 0 <= passed <= atMost {
        now := now + passed;
      }
      var abort: bool := *;
      aborted := aborted || abort;
    }

    /** One attempt, to which the world answers `x`. */
    method Attempt(url: Url, timeoutMs: nat, x: Exchange) returns (t: Try)
      modifies this
      ensures old(aborted) ==> aborted
      ensures t.start == old(now) && t.timeoutMs == timeoutMs && t.end == now
              && old(now) <= now <= old(now) + timeoutMs + late
      ensures Settled(t, x, url, allowlist) && t.aborted == aborted
    {
      hide Decides;
      var decision := Check(url, allowlist, x.answers);
      if decision.Blocked? {
        return Try(now, timeoutMs, now, decision, false, aborted, Failure(SsrfBlocked(decision.reason)));
      }
      if !x.credential {
        return Try(now, timeoutMs, now, decision, false, aborted, Failure(NoCredential));
      }
      var start := now;
      Pass(timeoutMs + late);
      var outcome: Outcome;
      if x.wire.Responded? {
        outcome := HandleResponse(x.wire);
        ResponsesSorted(x.wire, outcome);
      } else if aborted {
        outcome := Failure(Aborted);
      } else if now - start >= timeoutMs {
        outcome := Failure(TimedOut);
      } else {
        outcome := Failure(UpstreamUnavailable(None));
      }
      t := Try(start, timeoutMs, now, decision, true, aborted, outcome);
    }

    /** Sleeps for `ms`, or less if the caller aborts. */
    method Sleep(ms: nat) returns (whole: bool)
      modifies this
      ensures old(aborted) ==> aborted
      ensures old(now) <= now <= old(now) + ms + late
      ensures whole ==> old(now) + ms <= now
      ensures whole <==> !aborted
      ensures old(aborted) ==> now == old(now)
    {
      if aborted {
        return false;
      }
      var due := now + ms;
      Pass(ms + late);
      if aborted {
        return false;
      }
      now := Max(now, due);
      whole := true;
    }

    /**
     * Attempts until one is not worth another; `net(k)` is what the world answers
     * to attempt `k`, counted from zero, and `draw(k)` the jitter drawn after it.
     * Aborting ends it between attempts.
     */
    method RequestJson(url: Url, net: nat -> Exchange, draw: nat -> real)
      returns (r: Outcome, tries: seq<Try>, pauses: seq<Pause>)
      requires forall k :: 0.0 <= draw(k) < 1.0
      modifies this
      ensures forall k :: 0 <= k < |pauses| ==> pauses[k].random == draw(k)
      ensures Paced(tries, pauses, limits, old(now), late)
      ensures old(now) <= now <= Max(old(now), old(now) + limits.totalTimeoutMs + late)
      ensures forall k :: 0 <= k < |tries| ==> Settled(tries[k], net(k), url, allowlist)
      ensures tries != [] ==> !old(aborted)
      ensures r.Success? ==> tries != [] && tries[|tries| - 1].outcome == r
      ensures r.Failure? ==>
        if aborted && |pauses| == |tries| && limits.maxAttempts >= 1 && (tries == [] ==> old(aborted))
        then r.error.Aborted?
        else GivesUp(r.error, tries, pauses, limits, old(now), now, draw)
    {
      hide BackoffFor, Settled, Paced;
      PacedFromTheStart(limits, now, late);
      var deadline := now + limits.totalTimeoutMs;
      var lastError: Option<Error> := None;
      tries, pauses := [], [];
      var attemptNo := 1;
      while attemptNo <= limits.maxAttempts
        invariant attemptNo == |tries| + 1 && |pauses| == |tries|
        invariant attemptNo <= Max(limits.maxAttempts, 0) + 1
        invariant Paced(tries, pauses, limits, old(now), late)
        invariant old(now) <= now <= Max(old(now), deadline + late)
        invariant forall k :: 0 <= k < |pauses| ==> pauses[k].random == draw(k)
        invariant forall k :: 0 <= k < |tries| ==> Settled(tries[k], net(k), url, allowlist)
        invariant aborted && tries == [] ==> old(aborted)
        invariant old(aborted) ==> aborted && tries == []
        invariant tries == [] ==> lastError == None && now == old(now)
        invariant tries != [] ==> lastError.Some? && tries[|tries| - 1].outcome == Failure(lastError.value)
        invariant tries != [] ==>
          pauses[|pauses| - 1].end == now && tries[|tries| - 1].end + pauses[|pauses| - 1].ms <= now
        invariant |tries| < limits.maxAttempts || tries == []
        decreases limits.maxAttempts - attemptNo
      {
        if aborted {
          return Failure(Aborted), tries, pauses;
        }
        var remaining := deadline - now;
        if remaining <= 0 {
          return Failure(if lastError.Some? then lastError.value else TimedOut), tries, pauses;
        }
        var t := Attempt(url, Min(limits.attemptTimeoutMs, remaining), net(attemptNo - 1));
        TryAdded(tries, pauses, t, limits, old(now), late);
        tries := tries + [t];
        if t.outcome.Success? {
          return t.outcome, tries, pauses;
        }
        var error := t.outcome.error;
        if !IsRetryable(error) {
          return t.outcome, tries, pauses;
        }
        lastError := Some(error);
        if attemptNo >= limits.maxAttempts {
          return t.outcome, tries, pauses;
        }
        var random := draw(attemptNo - 1);
        var delayMs := BackoffFor(error, attemptNo, limits, random);
        BackoffIsBounded(error, attemptNo, limits, random);
        if now + delayMs >= deadline {
          return t.outcome, tries, pauses;
        }
        var whole := Sleep(delayMs);
        PauseAdded(tries, pauses, Pause(random, delayMs, now), limits, old(now), late);
        pauses := pauses + [Pause(random, delayMs, now)];
        if !whole {
          return Failure(Aborted), tries, pauses;
        }
        attemptNo := attemptNo + 1;
      }
      // Every attempt that was allowed has returned above: there is no last error here.
      r := Failure(UpstreamUnavailable(None));
    }
  }
}
