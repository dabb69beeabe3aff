/** One request over a chain of providers (backend/app/llm/gateway.py): retries with
    backoff, fallback to the next entry, and a wall-clock budget over all of it. Timers are
    exact; only provider calls and waits take time. */
module Gateway {
  import opened Prelude
  import Redaction

  datatype Error = Error(code: string, retryable: bool, retryAfter: Option<real>)

  const TIMED_OUT := Error("provider_timeout", true, None)
  const NO_ROUTE := Error("no_llm_route", false, None)

  /** A provider's answer: its text, its reasoning and its token count. */
  datatype Response = Response(content: string, reasoning: Option<string>, usage: Option<int>)

  datatype Result = Ok(value: Response) | Err(error: Error)

  /** What the provider does with one call, left alone: a response or a normalized error
      after some time. */
  datatype Reply = Reply(duration: real, result: Result)

  datatype Settings = Settings(deadline: real, total: real, maxRetries: nat)

  predicate Sane(s: Settings) {
    s.deadline > 0.0 && s.total > 0.0
  }

  /** Entry by entry: the capability check and the connection, the replies to calls 1, 2,
      ..., the random part of each wait, and the credential of its account. */
  datatype World = World(
    setup: nat -> Option<Error>, reply: (nat, nat) -> Reply, jitter: (nat, nat) -> real,
    credential: nat -> Option<string>)

  ghost predicate Timely(w: World) {
    && (forall entry, attempt :: w.reply(entry, attempt).duration >= 0.0)
    && (forall entry, attempt :: 0.0 <= w.jitter(entry, attempt) <= Base(attempt) / 2.0)
  }

  /** _redact: a provider may echo what it was sent, and a key must not come back. */
  function Redact(r: Response, secret: Option<string>): Response {
    Response(Redaction.RedactText(r.content, secret),
             if r.reasoning.Some? then Some(Redaction.RedactText(r.reasoning.value, secret)) else None, r.usage)
  }

  ghost predicate Clean(r: Response, secret: string) {
    Redaction.Absent(secret, r.content) && (r.reasoning.Some? ==> Redaction.Absent(secret, r.reasoning.value))
  }

  /** A key never comes back in a response, whatever the provider sends, if and only if the
      key is long enough to be looked for and its mark cannot spell it. */
  lemma RedactedIsCleanIff(secret: string)
    ensures (forall r: Response :: Clean(Redact(r, Some(secret)), secret))
       <==> |secret| >= Redaction.SHORTEST && Redaction.Unspellable(secret)
  {
    hide Redaction.RedactText, Redaction.Unspellable, Redaction.Absent;
    Redaction.RedactionIsSoundIff(secret);
    if text: string :| !Redaction.Absent(secret, Redaction.RedactText(text, Some(secret))) {
      var r := Response(text, None, None);
      assert !Clean(Redact(r, Some(secret)), secret);
    }
  }

  /** A response without the key, or with one too short, comes back as it was. */
  lemma CleanIsUntouched(r: Response, secret: Option<string>)
    requires secret.Some? && |secret.value| >= Redaction.SHORTEST ==> Clean(r, secret.value)
    ensures Redact(r, secret) == r
  {
    if secret.Some? && |secret.value| >= Redaction.SHORTEST {
      Redaction.ReplaceNone(r.content, secret.value);
      if r.reasoning.Some? {
        Redaction.ReplaceNone(r.reasoning.value, secret.value);
      }
    }
    hide Redaction.Replace;
  }

  // ----- backoff ------------------------------------------------------------------------------------

  function Base(attempt: nat): (b: real)
    ensures b >= 0.5
  {
    if attempt == 0 then 0.5 else 2.0 * Base(attempt - 1)
  }

  function Min(a: real, b: real): real {
    if a <= b then a else b
  }

  function Max(a: real, b: real): real {
    if a >= b then a else b
  }

  const MAX_BACKOFF := 20.0

  /** backoff_delay */
  function Backoff(attempt: nat, retryAfter: Option<real>, jitter: real): real {
    var delay := Base(attempt) + jitter;
    Min(if retryAfter.Some? then Max(delay, retryAfter.value) else delay, MAX_BACKOFF)
  }

  /** A wait is never shorter than the exponential base or what the provider asked for, up
      to the cap, and at most half as long again as the larger of the two. */
  lemma BackoffBounds(attempt: nat, retryAfter: Option<real>, jitter: real)
    requires 0.0 <= jitter <= Base(attempt) / 2.0
    ensures var delay := Backoff(attempt, retryAfter, jitter);
      var asked := if retryAfter.Some? then Max(Base(attempt), retryAfter.value) else Base(attempt);
      Min(asked, MAX_BACKOFF) <= delay <= Min(1.5 * asked, MAX_BACKOFF)
  {
  }

  /** Unasked, the random part counts in full and the base doubles with each retry, until the
      cap; from the seventh wait on it is the cap. */
  lemma BackoffGrows(attempt: nat, jitter: real)
    requires 0.0 <= jitter <= Base(attempt) / 2.0
    ensures Backoff(attempt, None, 0.0) == if attempt <= 5 then [0.5, 1.0, 2.0, 4.0, 8.0, 16.0][attempt] else 20.0
    ensures var delay := Backoff(attempt, None, jitter);
      delay == 20.0 || delay == Backoff(attempt, None, 0.0) + jitter
  {
    FirstBases();
    if attempt > 5 {
      BaseIsLarge(attempt);
    }
  }

  lemma FirstBases()
    ensures Base(0) == 0.5 && Base(1) == 1.0 && Base(2) == 2.0 && Base(3) == 4.0 && Base(4) == 8.0 && Base(5) == 16.0
  {
    assert Base(1) == 1.0;
    assert Base(2) == 2.0;
    assert Base(3) == 4.0;
  }

  lemma {:induction false} BaseIsLarge(attempt: nat)
    requires attempt > 5
    ensures Base(attempt) >= 32.0
  {
    FirstBases();
    if attempt > 6 {
      BaseIsLarge(attempt - 1);
    }
  }

  // ----- one entry: calls until one succeeds, or none may follow ---------------------------------------

  /** How the calls to one entry ended. A failure carries the number of attempts, unless
      the budget was already gone when the call was to be made. */
  datatype Tried = Tried(result: Result, attempts: Option<nat>, now: real)

  function Limit(deadline: real, endsAt: Option<real>, now: real): real {
    if endsAt.Some? then Min(deadline, endsAt.value - now) else deadline
  }

  /** One call under its time limit. */
  function Call(w: World, entry: nat, attempt: nat, limit: real): Reply {
    var r := w.reply(entry, attempt);
    if r.duration < limit then r else Reply(limit, Err(TIMED_OUT))
  }

  function Retry(w: World, entry: nat, attempt: nat, now: real, endsAt: Option<real>, s: Settings): Tried
    requires 1 <= attempt <= s.maxRetries + 1
    decreases s.maxRetries + 1 - attempt
  {
    if endsAt.Some? && endsAt.value - now <= 0.0 then Tried(Err(TIMED_OUT), None, now)
    else
      var r := Call(w, entry, attempt, Limit(s.deadline, endsAt, now));
      var after := now + r.duration;
      if r.result.Ok? then Tried(r.result, Some(attempt), after)
      else if !r.result.error.retryable || attempt > s.maxRetries then Tried(r.result, Some(attempt), after)
      else
        var delay := Backoff(attempt - 1, r.result.error.retryAfter, w.jitter(entry, attempt - 1));
        if endsAt.Some? && delay >= endsAt.value - after then Tried(r.result, Some(attempt), after)
        else Retry(w, entry, attempt + 1, after + delay, endsAt, s)
  }

  lemma CallTakesItsTime(w: World, entry: nat, attempt: nat, limit: real)
    requires Timely(w) && limit > 0.0
    ensures 0.0 <= Call(w, entry, attempt, limit).duration <= limit
  {
  }

  /** No entry outlives the budget. */
  lemma {:induction false} RetryKeepsTime(w: World, entry: nat, attempt: nat, now: real, ends: real, s: Settings)
    requires Timely(w) && Sane(s) && 1 <= attempt <= s.maxRetries + 1 && now <= ends
    ensures now <= Retry(w, entry, attempt, now, Some(ends), s).now <= ends
    decreases s.maxRetries + 1 - attempt
  {
    if ends - now > 0.0 {
      var limit := Limit(s.deadline, Some(ends), now);
      CallTakesItsTime(w, entry, attempt, limit);
      var r := Call(w, entry, attempt, limit);
      if r.result.Err? && r.result.error.retryable && attempt <= s.maxRetries {
        var retryAfter, jitter := r.result.error.retryAfter, w.jitter(entry, attempt - 1);
        BackoffBounds(attempt - 1, retryAfter, jitter);
        var delay := Backoff(attempt - 1, retryAfter, jitter);
        hide Call, Limit, Base, Backoff;
        if delay < ends - (now + r.duration) {
          RetryKeepsTime(w, entry, attempt + 1, now + r.duration + delay, ends, s);
        }
      }
    }
  }

  /** At most maxRetries + 1 calls; and a call is made whenever there is time left, so the
      budget check before a call never fires after a wait. */
  lemma {:induction false} RetryCalls(w: World, entry: nat, attempt: nat, now: real, endsAt: Option<real>, s: Settings)
    requires 1 <= attempt <= s.maxRetries + 1 && (endsAt.None? || now < endsAt.value)
    ensures var tried := Retry(w, entry, attempt, now, endsAt, s);
      tried.attempts.Some? && attempt <= tried.attempts.value <= s.maxRetries + 1
    decreases s.maxRetries + 1 - attempt
  {
    hide Call, Limit, Backoff;
    var r := Call(w, entry, attempt, Limit(s.deadline, endsAt, now));
    if r.result.Err? && r.result.error.retryable && attempt <= s.maxRetries {
      var after := now + r.duration;
      var delay := Backoff(attempt - 1, r.result.error.retryAfter, w.jitter(entry, attempt - 1));
      if endsAt.None? || delay < endsAt.value - after {
        RetryCalls(w, entry, attempt + 1, after + delay, endsAt, s);
      }
    }
  }

  /** What comes back is the provider's reply to the last call made, or a timeout. */
  lemma {:induction false} RetryIsTheLastReply(w: World, entry: nat, attempt: nat, now: real, endsAt: Option<real>,
          s: Settings)
    requires 1 <= attempt <= s.maxRetries + 1
    ensures var tried := Retry(w, entry, attempt, now, endsAt, s);
      || tried.result == Err(TIMED_OUT)
      || (tried.attempts.Some? && tried.result == w.reply(entry, tried.attempts.value).result)
    decreases s.maxRetries + 1 - attempt
  {
    hide Limit, Backoff;
    var r := Call(w, entry, attempt, Limit(s.deadline, endsAt, now));
    var inTime := endsAt.None? || endsAt.value - now > 0.0;
    if inTime && r.result.Err? && r.result.error.retryable && attempt <= s.maxRetries {
      var after := now + r.duration;
      var delay := Backoff(attempt - 1, r.result.error.retryAfter, w.jitter(entry, attempt - 1));
      if endsAt.None? || delay < endsAt.value - after {
        RetryIsTheLastReply(w, entry, attempt + 1, after + delay, endsAt, s);
      }
    }
  }

  /** The call failed, under the limit it was given, in a way that may be retried. */
  ghost predicate MayRetry(w: World, entry: nat, attempt: nat, deadline: real) {
    exists limit: real :: limit <= deadline && FailsRetryably(Call(w, entry, attempt, limit))
  }

  predicate FailsRetryably(r: Reply) {
    r.result.Err? && r.result.error.retryable
  }

  /** A call is repeated only after a retryable failure. */
  lemma {:induction false} EarlierCallsMayBeRetried(
      w: World, entry: nat, attempt: nat, now: real, endsAt: Option<real>, s: Settings, k: nat)
    requires 1 <= attempt <= s.maxRetries + 1
    requires var tried := Retry(w, entry, attempt, now, endsAt, s);
      tried.attempts.Some? && attempt <= k < tried.attempts.value
    ensures MayRetry(w, entry, k, s.deadline)
    decreases s.maxRetries + 1 - attempt
  {
    var limit := Limit(s.deadline, endsAt, now);
    assert limit <= s.deadline;
    hide Call, Limit, Backoff;
    var r := Call(w, entry, attempt, limit);
    if k == attempt {
      assert FailsRetryably(r);
    } else {
      var after := now + r.duration;
      var delay := Backoff(attempt - 1, r.result.error.retryAfter, w.jitter(entry, attempt - 1));
      EarlierCallsMayBeRetried(w, entry, attempt + 1, after + delay, endsAt, s, k);
    }
  }

  /** An entry is given up only when its last error may not be retried, the retries are
      used up, or the wait would outlast the budget. */
  lemma {:induction false} WhyItGaveUp(w: World, entry: nat, attempt: nat, now: real, ends: real, s: Settings)
    requires 1 <= attempt <= s.maxRetries + 1 && now < ends
    ensures var tried := Retry(w, entry, attempt, now, Some(ends), s);
      tried.attempts.Some? && tried.attempts.value >= 1
      && (tried.result.Err? ==>
            var error, n := tried.result.error, tried.attempts.value;
            || !error.retryable || n == s.maxRetries + 1
            || Backoff(n - 1, error.retryAfter, w.jitter(entry, n - 1)) >= ends - tried.now)
    decreases s.maxRetries + 1 - attempt
  {
    hide Call, Limit, Backoff;
    var r := Call(w, entry, attempt, Limit(s.deadline, Some(ends), now));
    if r.result.Err? && r.result.error.retryable && attempt <= s.maxRetries {
      var after := now + r.duration;
      var delay := Backoff(attempt - 1, r.result.error.retryAfter, w.jitter(entry, attempt - 1));
      if delay < ends - after {
        WhyItGaveUp(w, entry, attempt + 1, after + delay, ends, s);
      }
    }
  }

  // ----- what the calls to one entry amount to, from the provider's replies alone -----------------------

  /** The n-th call, made at `at`, ended at `end` with this result: the provider's reply, if
      it comes before the deadline and the end of the budget, and else a timeout then. */
  predicate Happened(w: World, entry: nat, n: nat, at: real, endsAt: Option<real>, s: Settings, result: Result,
          end: real) {
    var r := w.reply(entry, n);
    if r.duration < s.deadline && (endsAt.Some? ==> at + r.duration < endsAt.value) then
      result == r.result && end == at + r.duration
    else
      && result == Err(TIMED_OUT)
      && end == if endsAt.Some? && endsAt.value < at + s.deadline then endsAt.value else at + s.deadline
  }

  /** How the calls from the first on went: when each was made, ended and how. */
  datatype CallMade = CallMade(at: real, end: real, result: Result)

  /** Each call happened, and each but the last failed in a way that may be retried and was
      followed by its wait. */
  ghost predicate Trace(w: World, entry: nat, first: nat, start: real, endsAt: Option<real>, s: Settings,
          calls: seq<CallMade>)
    requires first >= 1
  {
    && calls != [] && calls[0].at == start
    && (forall k :: 0 <= k < |calls| ==>
          Happened(w, entry, first + k, calls[k].at, endsAt, s, calls[k].result, calls[k].end))
    && (forall k :: 0 <= k < |calls| - 1 ==> Followed(w, entry, first + k, calls[k], calls[k + 1]))
  }

  predicate Followed(w: World, entry: nat, n: nat, a: CallMade, b: CallMade)
    requires n >= 1
  {
    && a.result.Err? && a.result.error.retryable
    && b.at == a.end + Backoff(n - 1, a.result.error.retryAfter, w.jitter(entry, n - 1))
  }

  lemma CallHappens(w: World, entry: nat, n: nat, at: real, endsAt: Option<real>, s: Settings)
    ensures var r := Call(w, entry, n, Limit(s.deadline, endsAt, at));
      Happened(w, entry, n, at, endsAt, s, r.result, at + r.duration)
  {
  }

  /** The calls to an entry are such a trace, and its outcome is that of the last call. */
  lemma {:induction false} RetryTrace(w: World, entry: nat, first: nat, start: real, endsAt: Option<real>, s: Settings)
    returns (calls: seq<CallMade>)
    requires 1 <= first <= s.maxRetries + 1 && (endsAt.None? || start < endsAt.value)
    ensures Trace(w, entry, first, start, endsAt, s, calls)
    ensures var last := calls[|calls| - 1];
      Retry(w, entry, first, start, endsAt, s) == Tried(last.result, Some(first + |calls| - 1), last.end)
    decreases s.maxRetries + 1 - first
  {
    hide Backoff;
    CallHappens(w, entry, first, start, endsAt, s);
    var r := Call(w, entry, first, Limit(s.deadline, endsAt, start));
    hide Call, Limit, Happened;
    var one := CallMade(start, start + r.duration, r.result);
    calls := [one];
    if r.result.Err? && r.result.error.retryable && first <= s.maxRetries {
      var delay := Backoff(first - 1, r.result.error.retryAfter, w.jitter(entry, first - 1));
      if endsAt.None? || delay < endsAt.value - one.end {
        var more := RetryTrace(w, entry, first + 1, one.end + delay, endsAt, s);
        hide Retry;
        TraceGrows(w, entry, first, endsAt, s, one, more);
        calls := [one] + more;
        assert calls[|calls| - 1] == more[|more| - 1];
      }
    }
  }

  lemma TraceGrows(w: World, entry: nat, first: nat, endsAt: Option<real>, s: Settings, one: CallMade,
          more: seq<CallMade>)
    requires first >= 1 && Happened(w, entry, first, one.at, endsAt, s, one.result, one.end)
    requires more != [] && Trace(w, entry, first + 1, more[0].at, endsAt, s, more)
    requires Followed(w, entry, first, one, more[0])
    ensures Trace(w, entry, first, one.at, endsAt, s, [one] + more)
  {
    hide Happened, Followed;
    var calls := [one] + more;
    forall k | 0 <= k < |calls|
      ensures Happened(w, entry, first + k, calls[k].at, endsAt, s, calls[k].result, calls[k].end)
    {
      assert k > 0 ==> first + 1 + (k - 1) == first + k && calls[k] == more[k - 1];
    }
    forall k | 0 <= k < |calls| - 1
      ensures Followed(w, entry, first + k, calls[k], calls[k + 1])
    {
      assert k > 0 ==> Followed(w, entry, first + 1 + (k - 1), more[k - 1], more[k]);
    }
  }

  /** The outcome of the last call, and how many there were. */
  ghost predicate EndsWith(tried: Tried, calls: seq<CallMade>) {
    calls != [] && tried == Tried(calls[|calls| - 1].result, Some(|calls|), calls[|calls| - 1].end)
  }

  /** An answer that comes before the deadline and the end of the budget. */
  predicate AnswersBefore(r: Reply, now: real, endsAt: Option<real>, s: Settings) {
    && r.result.Ok? && r.duration < s.deadline
    && (endsAt.Some? ==> now < endsAt.value && now + r.duration < endsAt.value)
  }

  /** Such an answer is returned, as it is and at once. */
  lemma AnsweredInTime(w: World, entry: nat, attempt: nat, now: real, endsAt: Option<real>, s: Settings)
    requires 1 <= attempt <= s.maxRetries + 1 && AnswersBefore(w.reply(entry, attempt), now, endsAt, s)
    ensures var r := w.reply(entry, attempt);
      Retry(w, entry, attempt, now, endsAt, s) == Tried(r.result, Some(attempt), now + r.duration)
  {
  }

  /** with_retries */
  method WithRetries(w: World, entry: nat, start: real, endsAt: Option<real>, s: Settings) returns (tried: Tried)
    ensures tried == Retry(w, entry, 1, start, endsAt, s)
    ensures endsAt.Some? && start >= endsAt.value ==> tried == Tried(Err(TIMED_OUT), None, start)
    ensures endsAt.None? || start < endsAt.value ==> exists calls ::
      Trace(w, entry, 1, start, endsAt, s, calls) && EndsWith(tried, calls)
    ensures AnswersBefore(w.reply(entry, 1), start, endsAt, s) ==>
      tried == Tried(w.reply(entry, 1).result, Some(1), start + w.reply(entry, 1).duration)
  {
    if endsAt.None? || start < endsAt.value {
      ghost var calls := RetryTrace(w, entry, 1, start, endsAt, s);
      assert EndsWith(Retry(w, entry, 1, start, endsAt, s), calls);
    }
    if AnswersBefore(w.reply(entry, 1), start, endsAt, s) {
      AnsweredInTime(w, entry, 1, start, endsAt, s);
    }
    hide Trace, EndsWith, AnswersBefore;
    hide Backoff, Call, Limit;
    var now, attempt := start, 0;
    while true
      invariant attempt <= s.maxRetries
      invariant Retry(w, entry, attempt + 1, now, endsAt, s) == Retry(w, entry, 1, start, endsAt, s)
      decreases s.maxRetries - attempt
    {
      attempt := attempt + 1;
      if endsAt.Some? && endsAt.value - now <= 0.0 {
        return Tried(Err(TIMED_OUT), None, now);
      }
      var r := Call(w, entry, attempt, Limit(s.deadline, endsAt, now));
      now := now + r.duration;
      if r.result.Ok? || !r.result.error.retryable || attempt > s.maxRetries {
        return Tried(r.result, Some(attempt), now);
      }
      var delay := Backoff(attempt - 1, r.result.error.retryAfter, w.jitter(entry, attempt - 1));
      if endsAt.Some? && delay >= endsAt.value - now {
        return Tried(r.result, Some(attempt), now);
      }
      now := now + delay;
    }
  }

  /** A timeout comes back only if the last call's reply is that error, or takes until the
      deadline or the end of the budget, counted from when that call was made. */
  lemma WhyItTimedOut(w: World, entry: nat, attempt: nat, now: real, ends: real, s: Settings)
    returns (calls: seq<CallMade>)
    requires 1 <= attempt <= s.maxRetries + 1 && now < ends
    requires Retry(w, entry, attempt, now, Some(ends), s).result == Err(TIMED_OUT)
    ensures Trace(w, entry, attempt, now, Some(ends), s, calls)
    ensures var tried, last := Retry(w, entry, attempt, now, Some(ends), s), calls[|calls| - 1];
      var r := w.reply(entry, attempt + |calls| - 1);
      && tried.attempts == Some(attempt + |calls| - 1) && tried.now == last.end
      && (r.result == Err(TIMED_OUT) || r.duration >= s.deadline || last.at + r.duration >= ends)
  {
    calls := RetryTrace(w, entry, attempt, now, Some(ends), s);
    hide Retry, Followed;
    var k := |calls| - 1;
    assert Happened(w, entry, attempt + k, calls[k].at, Some(ends), s, calls[k].result, calls[k].end);
  }

  // ----- the chain: one entry after another ------------------------------------------------------------

  /** The usage record of one entry that was tried. */
  datatype Record = Record(entry: nat, error: Option<Error>, attempts: nat)

  datatype Skipped = Skipped(entry: nat, code: string)

  datatype Outcome =
    | Answer(response: Response, entry: nat, attempts: nat, skipped: seq<Skipped>)
    | Failure(error: Error, skipped: seq<Skipped>)

  /** An entry that cannot be set up is not called at all. */
  function TryEntry(w: World, entry: nat, now: real, ends: real, s: Settings): Tried {
    match w.setup(entry)
    case Some(error) => Tried(Err(error), None, now)
    case None => Retry(w, entry, 1, now, Some(ends), s)
  }

  /** When entry k is reached, all earlier ones having been tried. */
  function ReachedAt(w: World, k: nat, start: real, s: Settings): real {
    if k == 0 then start else TryEntry(w, k - 1, ReachedAt(w, k - 1, start, s), start + s.total, s).now
  }

  function TriedAt(w: World, k: nat, start: real, s: Settings): Tried {
    TryEntry(w, k, ReachedAt(w, k, start, s), start + s.total, s)
  }

  function RecordOf(entry: nat, tried: Tried): Record {
    Record(entry, if tried.result.Ok? then None else Some(tried.result.error),
           if tried.attempts.Some? then tried.attempts.value else 0)
  }

  function SkippedOf(r: Record): Skipped {
    Skipped(r.entry, if r.error.Some? then r.error.value.code else "")
  }

  /** One record for each of the first n entries, telling how it was tried. */
  ghost predicate Recorded(w: World, records: seq<Record>, start: real, s: Settings) {
    forall k :: 0 <= k < |records| ==> records[k] == RecordOf(k, TriedAt(w, k, start, s))
  }

  /** The first n records are failures, and skipped tells them in order. */
  ghost predicate AllSkipped(records: seq<Record>, skipped: seq<Skipped>, n: nat) {
    |skipped| == n <= |records|
    && forall k :: 0 <= k < n ==> records[k].error.Some? && skipped[k] == SkippedOf(records[k])
  }

  /** An answer comes from the last entry tried; the earlier ones failed and were skipped. */
  ghost predicate IsAnswer(w: World, o: Outcome, records: seq<Record>)
    requires o.Answer?
  {
    && o.entry == |o.skipped| == |records| - 1 && AllSkipped(records, o.skipped, o.entry)
    && records[o.entry].error == None && o.attempts == records[o.entry].attempts >= 1
    && w.reply(o.entry, o.attempts).result.Ok?
    && o.response == Redact(w.reply(o.entry, o.attempts).result.value, w.credential(o.entry))
  }

  /** A failure reports the error of the last entry tried, all of which failed. */
  ghost predicate IsFailure(o: Outcome, records: seq<Record>)
    requires o.Failure?
  {
    && AllSkipped(records, o.skipped, |records|)
    && o.error == if records == [] then NO_ROUTE else records[|records| - 1].error.value
  }

  /** generate, over `entries` targets. */
  method Generate(w: World, entries: nat, start: real, s: Settings)
    returns (outcome: Outcome, now: real, records: seq<Record>)
    requires Timely(w) && Sane(s)
    ensures start <= now <= start + s.total
    ensures |records| <= entries && Recorded(w, records, start, s)
    ensures now == ReachedAt(w, |records|, start, s)
    ensures forall k :: 0 <= k < |records| ==> records[k].attempts <= s.maxRetries + 1
    ensures outcome.Answer? ==> IsAnswer(w, outcome, records)
    ensures outcome.Failure? ==> IsFailure(outcome, records)
    ensures outcome.Failure? && |records| < entries ==> now == start + s.total
    ensures forall k: nat :: k < entries && FirstToCall(w, k) && AnswersInTime(w, k, s) ==>
      IsFirstAnswer(w, k, outcome) && now == start + w.reply(k, 1).duration
  {
    hide Retry, Base, Timely, FirstToCall, AnswersInTime, IsFirstAnswer;
    now, records := start, [];
    var skipped: seq<Skipped> := [];
    var lastError := NO_ROUTE;
    var entry := 0;
    while entry < entries
      invariant entry <= entries && |records| == entry && now == ReachedAt(w, entry, start, s)
      invariant start <= now <= start + s.total
      invariant Recorded(w, records, start, s) && AllSkipped(records, skipped, entry)
      invariant forall k :: 0 <= k < |records| ==> records[k].attempts <= s.maxRetries + 1
      invariant lastError == if records == [] then NO_ROUTE else records[|records| - 1].error.value
    {
      if start + s.total - now <= 0.0 {
        break;
      }
      EntryIsBounded(w, entry, now, start + s.total, s);
      var tried: Tried;
      var unusable := w.setup(entry);
      if unusable.Some? {
        tried := Tried(Err(unusable.value), None, now);
      } else {
        tried := WithRetries(w, entry, now, Some(start + s.total), s);
      }
      now := tried.now;
      records := records + [RecordOf(entry, tried)];
      if tried.result.Ok? {
        var response := Redact(tried.result.value, w.credential(entry));
        outcome := Answer(response, entry, tried.attempts.value, skipped);
        FirstAnswers(w, entries, start, s, outcome, now, records);
        return;
      }
      lastError := tried.result.error;
      skipped := skipped + [Skipped(entry, lastError.code)];
      entry := entry + 1;
    }
    outcome := Failure(lastError, skipped);
    FirstAnswers(w, entries, start, s, outcome, now, records);
  }

  /** All entries before it cannot be set up. */
  ghost predicate FirstToCall(w: World, k: nat) {
    w.setup(k).None? && forall j :: 0 <= j < k ==> w.setup(j).Some?
  }

  predicate AnswersInTime(w: World, k: nat, s: Settings) {
    var r := w.reply(k, 1);
    r.result.Ok? && r.duration < s.deadline && r.duration < s.total
  }

  /** Its answer, redacted, after one call, with the reasons why those before it were skipped. */
  ghost predicate IsFirstAnswer(w: World, k: nat, o: Outcome) {
    && o.Answer? && o.entry == k && o.attempts == 1 && |o.skipped| == k
    && (forall j :: 0 <= j < k ==> w.setup(j).Some? && o.skipped[j] == Skipped(j, w.setup(j).value.code))
    && w.reply(k, 1).result.Ok? && o.response == Redact(w.reply(k, 1).result.value, w.credential(k))
  }

  lemma {:induction false} ReachedAtOnce(w: World, k: nat, start: real, s: Settings)
    requires forall j :: 0 <= j < k ==> w.setup(j).Some?
    ensures ReachedAt(w, k, start, s) == start
  {
    if k > 0 {
      hide Retry;
      ReachedAtOnce(w, k - 1, start, s);
    }
  }

  /** The first entry that can be called, when it answers in time, gives the answer. */
  lemma FirstAnswers(w: World, entries: nat, start: real, s: Settings, o: Outcome, now: real, records: seq<Record>)
    requires Sane(s) && |records| <= entries && Recorded(w, records, start, s)
    requires now == ReachedAt(w, |records|, start, s)
    requires o.Answer? ==> IsAnswer(w, o, records)
    requires o.Failure? ==> IsFailure(o, records)
    requires o.Failure? && |records| < entries ==> now == start + s.total
    ensures forall k: nat :: k < entries && FirstToCall(w, k) && AnswersInTime(w, k, s) ==>
      IsFirstAnswer(w, k, o) && now == start + w.reply(k, 1).duration
  {
    forall k: nat | k < entries && FirstToCall(w, k) && AnswersInTime(w, k, s)
      ensures IsFirstAnswer(w, k, o) && now == start + w.reply(k, 1).duration
    {
      FirstRecords(w, k, start, s, records);
      hide FirstToCall, AnswersInTime, Recorded, ReachedAt, IsFirstAnswer, IsAnswer, IsFailure;
      AnswersAtK(w, entries, k, start, s, o, now, records);
    }
  }

  lemma FirstRecords(w: World, k: nat, start: real, s: Settings, records: seq<Record>)
    requires Sane(s) && FirstToCall(w, k) && AnswersInTime(w, k, s) && Recorded(w, records, start, s)
    ensures |records| <= k ==> ReachedAt(w, |records|, start, s) == start
    ensures ReachedAt(w, k + 1, start, s) == start + w.reply(k, 1).duration
    ensures forall j :: 0 <= j < k && j < |records| ==> records[j] == Record(j, w.setup(j), 0)
    ensures k < |records| ==> records[k] == Record(k, None, 1)
  {
    hide *;
    if |records| <= k {
      ReachedFirst(w, k, |records|, start, s);
    }
    FirstIsTried(w, k, start, s);
    forall j | 0 <= j <= k && j < |records|
      ensures records[j] == if j < k then Record(j, w.setup(j), 0) else Record(k, None, 1)
    {
      RecordedAt(w, k, j, start, s, records);
    }
  }

  lemma ReachedFirst(w: World, k: nat, j: nat, start: real, s: Settings)
    requires FirstToCall(w, k) && j <= k
    ensures ReachedAt(w, j, start, s) == start
  {
    ReachedAtOnce(w, j, start, s);
  }

  lemma FirstIsTried(w: World, k: nat, start: real, s: Settings)
    requires Sane(s) && FirstToCall(w, k) && AnswersInTime(w, k, s)
    ensures var r := w.reply(k, 1); TriedAt(w, k, start, s) == Tried(r.result, Some(1), start + r.duration)
    ensures ReachedAt(w, k + 1, start, s) == start + w.reply(k, 1).duration
  {
    ReachedFirst(w, k, k, start, s);
    AnsweredInTime(w, k, 1, start, Some(start + s.total), s);
    hide Retry;
  }

  lemma RecordedAt(w: World, k: nat, j: nat, start: real, s: Settings, records: seq<Record>)
    requires Sane(s) && FirstToCall(w, k) && AnswersInTime(w, k, s) && Recorded(w, records, start, s)
    requires j <= k && j < |records|
    ensures records[j] == if j < k then Record(j, w.setup(j), 0) else Record(k, None, 1)
  {
    ReachedFirst(w, k, j, start, s);
    FirstIsTried(w, k, start, s);
    hide Retry, ReachedAt;
  }

  lemma AnswersAtK(
      w: World, entries: nat, k: nat, start: real, s: Settings, o: Outcome, now: real, records: seq<Record>)
    requires s.total > 0.0 && k < entries && FirstToCall(w, k) && AnswersInTime(w, k, s)
    requires |records| <= entries && (|records| <= k ==> now == start)
    requires |records| == k + 1 ==> now == start + w.reply(k, 1).duration
    requires forall j :: 0 <= j < k && j < |records| ==> records[j] == Record(j, w.setup(j), 0)
    requires k < |records| ==> records[k] == Record(k, None, 1)
    requires o.Answer? ==> IsAnswer(w, o, records)
    requires o.Failure? ==> IsFailure(o, records)
    requires o.Failure? && |records| < entries ==> now == start + s.total
    ensures IsFirstAnswer(w, k, o) && now == start + w.reply(k, 1).duration
  {
  }

  lemma EntryIsBounded(w: World, entry: nat, now: real, ends: real, s: Settings)
    requires Timely(w) && Sane(s) && now < ends
    ensures var tried := TryEntry(w, entry, now, ends, s);
      && now <= tried.now <= ends && RecordOf(entry, tried).attempts <= s.maxRetries + 1
      && (tried.result.Ok? ==>
            && tried.attempts.Some? && tried.attempts.value >= 1
            && w.reply(entry, tried.attempts.value).result == tried.result)
  {
    RetryKeepsTime(w, entry, 1, now, ends, s);
    RetryCalls(w, entry, 1, now, Some(ends), s);
    RetryIsTheLastReply(w, entry, 1, now, Some(ends), s);
    hide Retry;
  }

  // ----- streams: nothing may follow the first event -------------------------------------------------------

  /** An event: its text, and its token count if it is the usage event. */
  datatype Event = Event(text: string, usage: Option<int>)

  /** What one streaming call yields before it ends or fails. */
  datatype Emission = Emission(events: seq<Event>, error: Option<Error>)

  datatype Streams = Streams(
    setup: nat -> Option<Error>, emit: (nat, nat) -> Emission, credential: nat -> Option<string>)

  /** What the caller sees: the start event, naming the entry, or an event passed on. */
  datatype Seen = Begin(entry: nat) | Passed(event: Event)

  datatype StreamCall = StreamCall(entry: nat, attempt: nat)

  datatype StreamRecord = StreamRecord(entry: nat, error: Option<Error>, attempts: nat, usage: Option<int>)

  function EmissionOf(w: Streams, c: StreamCall): Emission {
    w.emit(c.entry, c.attempt)
  }

  function Shown(w: Streams, entry: nat, event: Event): Seen {
    Passed(if event.text == "" then event else event.(text := Redaction.RedactText(event.text, w.credential(entry))))
  }

  function ShownAll(w: Streams, entry: nat, events: seq<Event>): seq<Seen> {
    seq(|events|, k requires 0 <= k < |events| => Shown(w, entry, events[k]))
  }

  /** Everything one call shows the caller. */
  function View(w: Streams, c: StreamCall): seq<Seen> {
    var events := EmissionOf(w, c).events;
    if events == [] then [] else [Begin(c.entry)] + ShownAll(w, c.entry, events)
  }

  function TextsOf(events: seq<Event>): seq<string> {
    seq(|events|, k requires 0 <= k < |events| => events[k].text)
  }

  /** The texts of the events one call shows, redacted one by one. */
  function ShownTexts(w: Streams, entry: nat, events: seq<Event>): seq<string> {
    seq(|events|, k requires 0 <= k < |events| => Shown(w, entry, events[k]).event.text)
  }

  /** What the provider's events must be like for a call to stream the account's key: its
      characters stand one after the other in their texts, none of them in an occurrence
      that was redacted. Within one event they never do. */
  lemma StreamedShowsIff(w: Streams, entry: nat, events: seq<Event>, secret: string)
    requires w.credential(entry) == Some(secret) && Redaction.Plain(secret)
    ensures !Redaction.Absent(secret, Flatten(ShownTexts(w, entry, events)))
       <==> Redaction.Spelled(Redaction.KeptAll(TextsOf(events), secret), secret)
    ensures forall k :: 0 <= k < |events| ==> !Redaction.Spelled(Redaction.Kept(events[k].text, secret), secret)
  {
    var texts := TextsOf(events);
    assert ShownTexts(w, entry, events) == Redaction.ReplaceAll(texts, secret);
    hide *;
    Redaction.StreamShowsIff(texts, secret);
    assert forall k :: 0 <= k < |events| ==> texts[k] == events[k].text by { TextsAt(events); }
  }

  lemma TextsAt(events: seq<Event>)
    ensures |TextsOf(events)| == |events|
    ensures forall k :: 0 <= k < |events| ==> TextsOf(events)[k] == events[k].text
  {
  }

  function LastUsage(events: seq<Event>): Option<int> {
    if events == [] then None
    else if events[|events| - 1].usage.Some? then events[|events| - 1].usage
    else LastUsage(events[..|events| - 1])
  }

  /** The count of the last event that carries one. */
  lemma {:induction false} LastUsageIs(events: seq<Event>)
    ensures LastUsage(events) == None <==> forall k :: 0 <= k < |events| ==> events[k].usage == None
    ensures LastUsage(events) != None ==>
      exists k :: (0 <= k < |events| && events[k].usage == LastUsage(events)
                   && forall j :: k < j < |events| ==> events[j].usage == None)
  {
    if events != [] && events[|events| - 1].usage.None? {
      LastUsageIs(events[..|events| - 1]);
    }
  }

  /** Call b may come after call a: a failed before its first event, and b is its retry,
      after a retryable error, or the first call to a later entry. */
  predicate MayFollow(w: Streams, maxRetries: nat, a: StreamCall, b: StreamCall) {
    var e := EmissionOf(w, a);
    && e.events == [] && e.error.Some?
    && if b.entry == a.entry then b.attempt == a.attempt + 1 <= maxRetries + 1 && e.error.value.retryable
       else b.entry > a.entry && b.attempt == 1
  }

  ghost predicate Orderly(w: Streams, maxRetries: nat, calls: seq<StreamCall>) {
    && (calls != [] ==> calls[0].attempt == 1)
    && forall k :: 0 < k < |calls| ==> MayFollow(w, maxRetries, calls[k - 1], calls[k])
  }

  /** The record of an entry: how many calls it took and how the last one ended. */
  predicate RecordFits(w: Streams, maxRetries: nat, k: nat, r: StreamRecord) {
    && r.entry == k && r.attempts <= maxRetries + 1
    && if r.attempts == 0 then w.setup(k).Some? && r.error == w.setup(k) && r.usage == None
       else
         var e := w.emit(k, r.attempts);
         w.setup(k).None? && r.error == e.error && r.usage == LastUsage(e.events)
  }

  ghost predicate RecordsFit(w: Streams, maxRetries: nat, records: seq<StreamRecord>) {
    forall k :: 0 <= k < |records| ==> RecordFits(w, maxRetries, k, records[k])
  }

  /** The events of one call, passed on one by one. */
  method PassOn(w: Streams, c: StreamCall) returns (yielded: seq<Seen>, usage: Option<int>)
    ensures yielded == View(w, c) && usage == LastUsage(EmissionOf(w, c).events)
  {
    var events := EmissionOf(w, c).events;
    var emitted := false;
    yielded, usage := [], None;
    for k := 0 to |events|
      invariant emitted == (k > 0) && usage == LastUsage(events[..k])
      invariant yielded == if k == 0 then [] else [Begin(c.entry)] + ShownAll(w, c.entry, events[..k])
    {
      if !emitted {
        emitted := true;
        yielded := yielded + [Begin(c.entry)];
      }
      if events[k].usage.Some? {
        usage := events[k].usage;
      }
      yielded := yielded + [Shown(w, c.entry, events[k])];
      assert events[..k + 1][..k] == events[..k];
      assert ShownAll(w, c.entry, events[..k + 1])
          == ShownAll(w, c.entry, events[..k]) + [Shown(w, c.entry, events[k])];
    }
    assert events[..|events|] == events;
  }

  /** One start event that names the entry, then each event in order, its text redacted. */
  ghost predicate PassesOn(w: Streams, c: StreamCall, seen: seq<Seen>) {
    var events := w.emit(c.entry, c.attempt).events;
    && events != [] && |seen| == |events| + 1 && seen[0] == Begin(c.entry)
    && forall k :: 0 <= k < |events| ==>
         && seen[k + 1].Passed? && seen[k + 1].event.usage == events[k].usage
         && seen[k + 1].event.text == Redaction.RedactText(events[k].text, w.credential(c.entry))
  }

  lemma ViewPassesOn(w: Streams, c: StreamCall)
    ensures View(w, c) != [] ==> PassesOn(w, c, View(w, c))
  {
    assert Redaction.RedactText("", w.credential(c.entry)) == "";
    hide Redaction.RedactText;
  }

  predicate Retried(w: Streams, c: StreamCall) {
    var e := EmissionOf(w, c);
    e.events == [] && e.error.Some? && e.error.value.retryable
  }

  function CallsTo(entry: nat, n: nat): seq<StreamCall> {
    seq(n, k requires 0 <= k < n => StreamCall(entry, k + 1))
  }

  /** The calls the records tell of. */
  function CallsOf(records: seq<StreamRecord>): seq<StreamCall> {
    if records == [] then []
    else
      var last := records[|records| - 1];
      CallsOf(records[..|records| - 1]) + CallsTo(last.entry, last.attempts)
  }

  lemma CallsSnoc(records: seq<StreamRecord>, r: StreamRecord)
    ensures CallsOf(records + [r]) == CallsOf(records) + CallsTo(r.entry, r.attempts)
  {
    assert (records + [r])[..|records|] == records;
  }

  /** The calls to one more entry follow a chain of which the last failed silently. */
  lemma OrderlyAppend(w: Streams, maxRetries: nat, calls: seq<StreamCall>, entry: nat, n: nat)
    requires Orderly(w, maxRetries, calls) && n <= maxRetries + 1
    requires calls != [] && n > 0 ==> MayFollow(w, maxRetries, calls[|calls| - 1], StreamCall(entry, 1))
    requires forall a :: 1 <= a < n ==> Retried(w, StreamCall(entry, a))
    ensures Orderly(w, maxRetries, calls + CallsTo(entry, n))
  {
    var all := calls + CallsTo(entry, n);
    forall k | 0 < k < |all|
      ensures MayFollow(w, maxRetries, all[k - 1], all[k])
    {
      if k > |calls| {
        assert all[k - 1] == StreamCall(entry, k - |calls|) && all[k] == StreamCall(entry, k - |calls| + 1);
        assert Retried(w, StreamCall(entry, k - |calls|));
      }
    }
  }

  /** The calls so far went to earlier entries, and the last of them failed silently. */
  ghost predicate Silent(w: Streams, entry: nat, calls: seq<StreamCall>) {
    calls != [] ==>
      var last := calls[|calls| - 1];
      last.entry < entry && EmissionOf(w, last).events == [] && EmissionOf(w, last).error.Some?
  }

  lemma NextEntry(w: Streams, maxRetries: nat, calls: seq<StreamCall>, entry: nat, attempts: nat)
    requires Orderly(w, maxRetries, calls) && Silent(w, entry, calls) && 1 <= attempts <= maxRetries + 1
    requires forall a :: 1 <= a < attempts ==> Retried(w, StreamCall(entry, a))
    ensures var calls' := calls + CallsTo(entry, attempts);
      && Orderly(w, maxRetries, calls') && calls'[|calls'| - 1] == StreamCall(entry, attempts)
  {
    hide Orderly;
    OrderlyAppend(w, maxRetries, calls, entry, attempts);
    hide Silent, Retried;
  }

  lemma OneMoreRecord(w: Streams, maxRetries: nat, records: seq<StreamRecord>, r: StreamRecord)
    requires RecordsFit(w, maxRetries, records) && RecordFits(w, maxRetries, |records|, r)
    ensures RecordsFit(w, maxRetries, records + [r])
  {
    hide RecordFits;
  }

  lemma NoCalls(w: Streams, maxRetries: nat)
    ensures Orderly(w, maxRetries, []) && RecordsFit(w, maxRetries, []) && CallsOf([]) == []
  {
  }

  lemma ViewIsEmptyIff(w: Streams, c: StreamCall)
    ensures View(w, c) == [] <==> EmissionOf(w, c).events == []
  {
  }

  /** The calls to one entry, until one emits, succeeds or may not be retried. */
  method StreamEntry(w: Streams, entry: nat, maxRetries: nat)
    returns (yielded: seq<Seen>, error: Option<Error>, usage: Option<int>, attempts: nat)
    ensures 1 <= attempts <= maxRetries + 1
    ensures forall a :: 1 <= a < attempts ==> Retried(w, StreamCall(entry, a))
    ensures var c := StreamCall(entry, attempts);
      yielded == View(w, c) && error == EmissionOf(w, c).error && usage == LastUsage(EmissionOf(w, c).events)
    ensures error.Some? && attempts <= maxRetries && yielded == [] ==> !error.value.retryable
  {
    attempts := 0;
    while true
      invariant attempts <= maxRetries
      invariant forall a :: 1 <= a <= attempts ==> Retried(w, StreamCall(entry, a))
      decreases maxRetries - attempts
    {
      attempts := attempts + 1;
      yielded, usage := PassOn(w, StreamCall(entry, attempts));
      error := EmissionOf(w, StreamCall(entry, attempts)).error;
      if !(error.Some? && yielded == [] && error.value.retryable && attempts <= maxRetries) {
        return;
      }
    }
  }

  /** stream: the caller sees the events of the last call made and of no other, after one
      start event that names its entry; whatever was called before it failed silently. */
  method Stream(w: Streams, entries: nat, maxRetries: nat)
    returns (yielded: seq<Seen>, error: Option<Error>, records: seq<StreamRecord>, calls: seq<StreamCall>)
    ensures |records| <= entries && RecordsFit(w, maxRetries, records)
    ensures calls == CallsOf(records) && Orderly(w, maxRetries, calls)
    ensures yielded == if calls == [] then [] else View(w, calls[|calls| - 1])
    ensures yielded != [] ==> calls[|calls| - 1].entry == |records| - 1
    ensures yielded != [] ==> PassesOn(w, calls[|calls| - 1], yielded)
    ensures error == if records == [] then Some(NO_ROUTE) else records[|records| - 1].error
    ensures forall k :: 0 <= k < |records| - 1 ==> records[k].error.Some?
    ensures yielded == [] && error.Some? ==> |records| == entries
  {
    hide View, LastUsage, Orderly, RecordsFit, CallsOf, PassesOn;
    assert Orderly(w, maxRetries, []) && RecordsFit(w, maxRetries, []) && CallsOf([]) == [] by {
      NoCalls(w, maxRetries);
    }
    records, calls, yielded := [], [], [];
    error := Some(NO_ROUTE);
    var entry := 0;
    while entry < entries
      invariant entry <= entries && |records| == entry && yielded == [] && error.Some?
      invariant RecordsFit(w, maxRetries, records) && calls == CallsOf(records)
      invariant Orderly(w, maxRetries, calls) && Silent(w, entry, calls)
      invariant error == if records == [] then Some(NO_ROUTE) else records[|records| - 1].error
      invariant forall k :: 0 <= k < |records| ==> records[k].error.Some?
    {
      error := w.setup(entry);
      var attempts, usage := 0, None;
      if error.None? {
        yielded, error, usage, attempts := StreamEntry(w, entry, maxRetries);
        NextEntry(w, maxRetries, calls, entry, attempts);
        ViewIsEmptyIff(w, StreamCall(entry, attempts));
      }
      var record := StreamRecord(entry, error, attempts, usage);
      OneMoreRecord(w, maxRetries, records, record);
      CallsSnoc(records, record);
      assert calls + CallsTo(entry, 0) == calls;
      records, calls := records + [record], calls + CallsTo(entry, attempts);
      if yielded != [] || error.None? {
        if attempts > 0 {
          ViewPassesOn(w, StreamCall(entry, attempts));
        }
        return;
      }
      entry := entry + 1;
    }
    if calls != [] {
      ViewIsEmptyIff(w, calls[|calls| - 1]);
    }
  }
}
