/** The session-aware HTTP wrapper of public/video-ui/src/services/pandaReqwest.js:
    `pandaReqwest` fills in payload defaults and hands the payload to `poll`,
    whose retry policy re-establishes an expired panda session (status 419)
    and otherwise retries every 100 ms until a deadline.

    The network (`reqwest`), the session renewal (`reEstablishSession`) and
    the clock are not modelled as code: one call of `poll` is described by the
    trace of what each attempt observed, and the policy is a pure function of
    that trace. */
module PandaClient {
  import opened Wrappers
  import opened Js

  const DefaultContentType := "application/json"
  const DefaultMethod := "get"

  /** The status with which the backend reports an expired panda session. */
  const SessionExpiredStatus := 419
  /** Delay before every retry, in milliseconds. */
  const RetryIntervalMs := 100
  /** Time limit handed to `reEstablishSession`, in milliseconds. */
  const ReauthTimeoutMs := 5000

  // ---------------------------------------------------------------------
  // Payload construction
  // ---------------------------------------------------------------------

  /** The object a caller passes to `pandaReqwest`. `None` means the caller did
      not supply the property; `data` is read as a JavaScript value, where an
      absent property reads as `Undefined`. */
  datatype ReqwestBody = ReqwestBody(
    url: Option<string>,
    httpMethod: Option<string>,
    contentType: Option<string>,
    headers: Option<map<string, string>>,
    data: Value)

  /** The request data as handed to `reqwest`: the caller's value unchanged,
      or the string `JSON.stringify(source)`. */
  datatype Data = Raw(value: Value) | JsonText(source: Value)

  /** The payload handed to `poll` (and from there to `reqwest`). */
  datatype Payload = Payload(
    url: Option<string>,
    httpMethod: string,
    contentType: string,
    headers: Option<map<string, string>>,
    data: Data)

  /** A body that supplies nothing but the URL. */
  function UrlOnly(url: string): ReqwestBody {
    ReqwestBody(Some(url), None, None, None, Undefined)
  }

  /** `Object.assign` of the body over the defaults `{contentType: 'application/json',
      method: 'get'}`, with truthy `data` replaced by its JSON text. */
  function MakePayload(body: ReqwestBody): (p: Payload)
    ensures p.url == body.url && p.headers == body.headers
    ensures body.httpMethod.Some? ==> p.httpMethod == body.httpMethod.value
    ensures body.httpMethod.None? ==> p.httpMethod == DefaultMethod
    ensures body.contentType.Some? ==> p.contentType == body.contentType.value
    ensures body.contentType.None? ==> p.contentType == DefaultContentType
    ensures Truthy(body.data) <==> p.data.JsonText?
    ensures p.data.JsonText? ==> p.data.source == body.data
    ensures !Truthy(body.data) ==> p.data == Raw(body.data)
  {
    Payload(
      body.url,
      body.httpMethod.GetOr(DefaultMethod),
      body.contentType.GetOr(DefaultContentType),
      body.headers,
      if Truthy(body.data) then JsonText(body.data) else Raw(body.data))
  }

  /** A body supplying every field it can is sent exactly as given, and one
      supplying only a URL is sent as a JSON `get` without data. */
  lemma PayloadDefaults(url: string, verb: string, contentType: string, headers: map<string, string>)
    ensures MakePayload(UrlOnly(url)) == Payload(Some(url), "get", "application/json", None, Raw(Undefined))
    ensures MakePayload(ReqwestBody(Some(url), Some(verb), Some(contentType), Some(headers), Null))
            == Payload(Some(url), verb, contentType, Some(headers), Raw(Null))
  {
  }

  // ---------------------------------------------------------------------
  // Retry policy of `poll`
  // ---------------------------------------------------------------------

  /** The error object a failed `reqwest` rejects with. */
  datatype HttpError = HttpError(status: int, message: string)

  /** What one attempt observed.
      `Refused.now` is the clock reading taken when the failure handler runs
      (it is consulted only for a status other than 419); `Refused.renewed`
      says whether `reEstablishSession` then succeeded (consulted only for 419). */
  datatype Attempt<R> =
    | Answered(response: R)
    | Refused(error: HttpError, now: int, renewed: bool)

  /** Calls `poll` makes, in order. */
  datatype Action = Send | Reauthenticate(timeoutMs: int) | Sleep(ms: int)

  /** How the promise returned by `poll` ends up.
      `Hung`: re-authentication failed, the error was thrown inside a callback
      and neither `resolve` nor `reject` will ever run.
      `Outstanding`: the trace ended while the promise was still waiting. */
  datatype Settlement<R> = Resolved(response: R) | Rejected(error: HttpError) | Hung | Outstanding

  /** The settlement, how many trace entries were consumed, and the calls made. */
  datatype PollRun<R> = PollRun(settlement: Settlement<R>, consumed: nat, actions: seq<Action>)

  /** Whether `poll` schedules another attempt after observing `a`, for the
      deadline `endTime`. */
  predicate Retries<R>(a: Attempt<R>, endTime: int) {
    && a.Refused?
    && (if a.error.status == SessionExpiredStatus then a.renewed else a.now < endTime)
  }

  /** `makeRequest`, unrolled over the trace of attempt outcomes. */
  function PollFrom<R>(trace: seq<Attempt<R>>, endTime: int): (r: PollRun<R>)
    ensures r.consumed <= |trace|
    ensures |r.actions| > 0 && r.actions[0] == Send
    ensures forall k :: 0 <= k < |r.actions| && r.actions[k].Sleep? ==> r.actions[k].ms == RetryIntervalMs
    ensures forall k :: 0 <= k < |r.actions| && r.actions[k].Reauthenticate? ==> r.actions[k].timeoutMs == ReauthTimeoutMs
    ensures forall k :: 0 <= k < |r.actions| && r.actions[k].Sleep? ==> k + 1 < |r.actions| && r.actions[k + 1] == Send
    decreases |trace|
  {
    if trace == [] then
      PollRun(Outstanding, 0, [Send])
    else
      match trace[0]
      case Answered(response) =>
        PollRun(Resolved(response), 1, [Send])
      case Refused(err, now, renewed) =>
        if err.status == SessionExpiredStatus then
          if renewed then
            var rest := PollFrom(trace[1..], endTime);
            PollRun(rest.settlement, rest.consumed + 1, [Send, Reauthenticate(ReauthTimeoutMs), Sleep(RetryIntervalMs)] + rest.actions)
          else
            PollRun(Hung, 1, [Send, Reauthenticate(ReauthTimeoutMs)])
        else if now < endTime then
          var rest := PollFrom(trace[1..], endTime);
          PollRun(rest.settlement, rest.consumed + 1, [Send, Sleep(RetryIntervalMs)] + rest.actions)
        else
          PollRun(Rejected(err), 1, [Send])
  }

  /** `poll(reqwestBody, timeout)` started at clock reading `start`: the
      deadline is `start + timeout`. */
  function Poll<R>(trace: seq<Attempt<R>>, start: int, timeout: int): (r: PollRun<R>)
    ensures |trace| > 0 && trace[0].Refused? && trace[0].error.status != SessionExpiredStatus ==>
              && (start + timeout <= trace[0].now ==> r.settlement == Rejected(trace[0].error) && r.actions == [Send])
              && (trace[0].now < start + timeout <==> |r.actions| > 1 && r.actions[1] == Sleep(RetryIntervalMs))
  {
    PollFrom(trace, start + timeout)
  }

  /** Every entry before the `n`-th led to a retry. */
  predicate RetriedBefore<R>(trace: seq<Attempt<R>>, endTime: int, n: nat)
    requires n <= |trace|
  {
    forall j :: 0 <= j < n ==> Retries(trace[j], endTime)
  }

  /** Retrying the first `n` entries is retrying the head and then the first
      `n - 1` entries of the tail. */
  lemma RetriedShift<R>(trace: seq<Attempt<R>>, endTime: int, n: nat)
    requires 0 < n <= |trace|
    ensures RetriedBefore(trace, endTime, n) <==> Retries(trace[0], endTime) && RetriedBefore(trace[1..], endTime, n - 1)
  {
    if Retries(trace[0], endTime) && RetriedBefore(trace[1..], endTime, n - 1) {
      forall j | 0 <= j < n ensures Retries(trace[j], endTime) {
        if j > 0 { assert trace[j] == trace[1..][j - 1]; }
      }
    }
  }

  /** `poll` resolves with `response` after exactly `n` attempts iff the `n`-th
      attempt answered with it and every earlier attempt was retried. */
  lemma {:induction false} ResolvedIff<R>(trace: seq<Attempt<R>>, endTime: int, response: R, n: nat)
    ensures (PollFrom(trace, endTime).settlement == Resolved(response) && PollFrom(trace, endTime).consumed == n)
            <==> (0 < n <= |trace| && trace[n - 1] == Answered(response) && RetriedBefore(trace, endTime, n - 1))
    decreases |trace|
  {
    if trace != [] && Retries(trace[0], endTime) && n > 0 {
      ResolvedIff(trace[1..], endTime, response, n - 1);
      if n > 1 && n <= |trace| {
        RetriedShift(trace, endTime, n - 1);
      }
    }
  }

  /** `poll` rejects with `error` after exactly `n` attempts iff the `n`-th
      attempt failed with `error`, a status other than 419, at or after the
      deadline, and every earlier attempt was retried. */
  lemma {:induction false} RejectedIff<R>(trace: seq<Attempt<R>>, endTime: int, error: HttpError, n: nat)
    ensures (PollFrom(trace, endTime).settlement == Rejected(error) && PollFrom(trace, endTime).consumed == n)
            <==> (&& 0 < n <= |trace|
                  && trace[n - 1].Refused? && trace[n - 1].error == error
                  && error.status != SessionExpiredStatus && endTime <= trace[n - 1].now
                  && RetriedBefore(trace, endTime, n - 1))
    decreases |trace|
  {
    if trace != [] && Retries(trace[0], endTime) && n > 0 {
      RejectedIff(trace[1..], endTime, error, n - 1);
      if n > 1 && n <= |trace| {
        RetriedShift(trace, endTime, n - 1);
      }
    }
  }

  /** `poll` hangs after exactly `n` attempts iff the `n`-th attempt saw an
      expired session whose renewal failed, and every earlier attempt was
      retried: a failed renewal is never retried and never reported. */
  lemma {:induction false} HungIff<R>(trace: seq<Attempt<R>>, endTime: int, n: nat)
    ensures (PollFrom(trace, endTime).settlement == Hung && PollFrom(trace, endTime).consumed == n)
            <==> (&& 0 < n <= |trace|
                  && trace[n - 1].Refused? && trace[n - 1].error.status == SessionExpiredStatus
                  && !trace[n - 1].renewed
                  && RetriedBefore(trace, endTime, n - 1))
    decreases |trace|
  {
    if trace != [] && Retries(trace[0], endTime) && n > 0 {
      HungIff(trace[1..], endTime, n - 1);
      if n > 1 && n <= |trace| {
        RetriedShift(trace, endTime, n - 1);
      }
    }
  }

  /** Once `poll` has settled or hung, later trace entries are never consulted:
      no attempt follows a success, a rejection or a failed renewal. */
  lemma {:induction false} DecidedIgnoresLaterAttempts<R>(trace: seq<Attempt<R>>, later: seq<Attempt<R>>, endTime: int)
    requires !PollFrom(trace, endTime).settlement.Outstanding?
    ensures PollFrom(trace + later, endTime) == PollFrom(trace, endTime)
    decreases |trace|
  {
    assert (trace + later)[0] == trace[0];
    if Retries(trace[0], endTime) {
      assert (trace + later)[1..] == trace[1..] + later;
      DecidedIgnoresLaterAttempts(trace[1..], later, endTime);
    }
  }

  /** An expired session whose renewal succeeds is retried after the fixed
      interval whatever the clock says, even past the deadline. */
  lemma SessionExpiryRetriedPastDeadline<R>(trace: seq<Attempt<R>>, endTime: int)
    requires |trace| > 0 && trace[0].Refused? && trace[0].error.status == SessionExpiredStatus
    requires trace[0].renewed && trace[0].now >= endTime
    ensures PollFrom(trace, endTime).settlement == PollFrom(trace[1..], endTime).settlement
    ensures PollFrom(trace, endTime).actions[..3] == [Send, Reauthenticate(ReauthTimeoutMs), Sleep(RetryIntervalMs)]
  {
  }

  /** Any other failure is retried iff the clock is strictly before the
      deadline; otherwise the promise is rejected with that same error. */
  lemma GenericFailureRetriedBeforeDeadline<R>(trace: seq<Attempt<R>>, endTime: int)
    requires |trace| > 0 && trace[0].Refused? && trace[0].error.status != SessionExpiredStatus
    ensures trace[0].now < endTime ==> PollFrom(trace, endTime).actions[..2] == [Send, Sleep(RetryIntervalMs)]
    ensures trace[0].now >= endTime ==> PollFrom(trace, endTime) == PollRun(Rejected(trace[0].error), 1, [Send])
  {
  }

  /** A call of `pandaReqwest`: the payload sent and how `poll` ended. The outer
      promise settles exactly as `poll`'s does (lines 49-53 only forward). */
  datatype Call<R> = Call(payload: Payload, run: PollRun<R>)

  /** `pandaReqwest(reqwestBody, timeout = 0)`, started at clock reading `start`. */
  function PandaReqwest<R>(body: ReqwestBody, trace: seq<Attempt<R>>, start: int, timeout: int := 0): (c: Call<R>)
    ensures c.payload == MakePayload(body)
    ensures c.run == Poll(trace, start, timeout)
    ensures c.run.settlement.Resolved? ==> exists k :: 0 <= k < |trace| && trace[k] == Answered(c.run.settlement.response)
  {
    var run := Poll(trace, start, timeout);
    if run.settlement.Resolved? then
      ResolvedIff(trace, start + timeout, run.settlement.response, run.consumed);
      assert trace[run.consumed - 1] == Answered(run.settlement.response);
      Call(MakePayload(body), run)
    else
      Call(MakePayload(body), run)
  }

  /** With the default timeout of 0 and a clock that does not run backwards,
      a failure other than 419 is never retried: the first one rejects, and
      the only retries are those after a renewed session. */
  lemma {:induction false} DefaultTimeoutNeverRetriesFailures<R>(body: ReqwestBody, trace: seq<Attempt<R>>, start: int)
    requires forall k :: 0 <= k < |trace| && trace[k].Refused? ==> trace[k].now >= start
    ensures var run := PandaReqwest(body, trace, start).run;
            forall j :: 0 <= j < run.consumed - (if run.settlement.Outstanding? then 0 else 1) ==>
              trace[j].Refused? && trace[j].error.status == SessionExpiredStatus && trace[j].renewed
    ensures |trace| > 0 && trace[0].Refused? && trace[0].error.status != SessionExpiredStatus ==>
            PandaReqwest(body, trace, start).run == PollRun(Rejected(trace[0].error), 1, [Send])
  {
    var run := PandaReqwest(body, trace, start).run;
    var s := run.settlement;
    if s.Resolved? {
      ResolvedIff(trace, start, s.response, run.consumed);
    } else if s.Rejected? {
      RejectedIff(trace, start, s.error, run.consumed);
    } else if s.Hung? {
      HungIff(trace, start, run.consumed);
    } else {
      OutstandingRetriedAll(trace, start);
    }
  }

  /** An outstanding `poll` retried every attempt of the trace. */
  lemma {:induction false} OutstandingRetriedAll<R>(trace: seq<Attempt<R>>, endTime: int)
    requires PollFrom(trace, endTime).settlement.Outstanding?
    ensures PollFrom(trace, endTime).consumed == |trace|
    ensures RetriedBefore(trace, endTime, |trace|)
    decreases |trace|
  {
    if trace != [] {
      OutstandingRetriedAll(trace[1..], endTime);
      forall j | 0 <= j < |trace| ensures Retries(trace[j], endTime) {
        if j > 0 { assert trace[j] == trace[1..][j - 1]; }
      }
    }
  }
}
