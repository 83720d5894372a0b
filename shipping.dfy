/**
  The HTTP log shipper: it is created over a log buffer and an output
  configuration, started once, and stopped once. While it runs, each tick of its
  one-shot timer drains the buffer to the server in POSTs and then re-arms the
  timer, unless the shipper is unloading.
*/
module Shipping {
  import opened Wrappers
  import opened LogBuffers
  import opened ConnectionSchedules
  import opened Payload
  import opened Tick

  /** Why the shipper refused: the errors the source throws as exceptions. */
  datatype ShipperError = BlankServerUrl | AlreadyStarted | IsUnloading

  /** The parts of the output configuration that the shipper reads. */
  datatype OutputConfig = OutputConfig(serverUrl: Option<string>, apiKey: Option<string>,
                                       rawPayloadLimitBytes: nat, eventBodyLimitBytes: nat)
  {
    function PayloadLimits(): Limits
    {
      Limits(eventBodyLimitBytes, rawPayloadLimitBytes)
    }
  }

  /** The resource every batch is POSTed to, relative to the base address. */
  const BulkUploadResource: string := "api/events/raw"

  /** The content type of every POST: JSON, with the UTF-8 charset's web name. */
  const ContentType: string := "application/json; charset=utf-8"

  /** The quiet period the connection schedule is created with: two seconds. */
  const QuietWaitPeriodMs: nat := 2000

  /** char.IsWhiteSpace: the Unicode space, line and paragraph separators, and the control characters U+0009 to U+000D and U+0085. */
  predicate IsWhiteSpace(c: char)
  {
    || ('\U{0009}' <= c <= '\U{000D}') || c == '\U{0020}' || c == '\U{0085}' || c == '\U{00A0}'
    || c == '\U{1680}' || ('\U{2000}' <= c <= '\U{200A}') || c == '\U{2028}' || c == '\U{2029}'
    || c == '\U{202F}' || c == '\U{205F}' || c == '\U{3000}'
  }

  /** string.IsNullOrWhiteSpace: absent, empty, or nothing but white space. */
  predicate IsNullOrWhiteSpace(s: Option<string>)
  {
    s.None? || forall k :: 0 <= k < |s.value| ==> IsWhiteSpace(s.value[k])
  }

  predicate EndsWithSlash(s: string)
  {
    |s| > 0 && s[|s| - 1] == '/'
  }

  /**
    The base address the shipper POSTs relative to: the configured server URL
    with a trailing '/' added when it lacks one. A missing or blank URL is
    refused.
  */
  function NormalizeServerUrl(url: Option<string>): (r: Result<string, ShipperError>)
    ensures r.Err? <==> IsNullOrWhiteSpace(url)
    ensures r.Err? ==> r.error == BlankServerUrl
    ensures r.Ok? ==> EndsWithSlash(r.value) && |url.value| <= |r.value| <= |url.value| + 1
    ensures r.Ok? ==> r.value[..|url.value|] == url.value
    ensures r.Ok? ==> (r.value == url.value <==> EndsWithSlash(url.value))
  {
    if IsNullOrWhiteSpace(url) then Err(BlankServerUrl)
    else if EndsWithSlash(url.value) then Ok(url.value)
    else Ok(url.value + "/")
  }

  /** Normalising a base address that was already normalised changes nothing. */
  lemma NormalizeIdempotent(url: Option<string>)
    requires NormalizeServerUrl(url).Ok?
    ensures NormalizeServerUrl(Some(NormalizeServerUrl(url).value)) == NormalizeServerUrl(url)
  {
    var b := NormalizeServerUrl(url).value;
    assert b[|b| - 1] == '/';
    assert !IsWhiteSpace(b[|b| - 1]);
  }

  /** The API key header is sent only when a key that is not blank is configured. */
  function ApiKeyHeader(apiKey: Option<string>): (r: Option<string>)
    ensures r.Some? <==> !IsNullOrWhiteSpace(apiKey)
    ensures r.Some? ==> r == apiKey
  {
    if IsNullOrWhiteSpace(apiKey) then None else apiKey
  }

  /** One POST as it leaves the shipper: resource, content type, API key header and body. */
  datatype Request = Request(resource: string, contentType: string, apiKey: Option<string>, body: seq<byte>)

  function RequestFor(a: Attempt, config: OutputConfig): Request
  {
    Request(BulkUploadResource, ContentType, ApiKeyHeader(config.apiKey), a.batch.payload)
  }

  /** The POSTs a tick's attempts send, in order. */
  function Requests(attempts: seq<Attempt>, config: OutputConfig): (r: seq<Request>)
    ensures |r| == |attempts|
  {
    if attempts == [] then []
    else Requests(attempts[..|attempts| - 1], config) + [RequestFor(attempts[|attempts| - 1], config)]
  }

  /** POST j of a tick carries the payload of attempt j. */
  lemma {:induction false} RequestsAt(attempts: seq<Attempt>, config: OutputConfig, j: nat)
    requires j < |attempts|
    ensures Requests(attempts, config)[j] == RequestFor(attempts[j], config)
  {
    if j < |attempts| - 1 {
      RequestsAt(attempts[..|attempts| - 1], config, j);
    }
  }

  lemma RequestsAppend(attempts: seq<Attempt>, a: Attempt, config: OutputConfig)
    ensures Requests(attempts + [a], config) == Requests(attempts, config) + [RequestFor(a, config)]
  {
    assert (attempts + [a])[..|attempts|] == attempts;
  }

  lemma AppendAssoc<T>(p: seq<T>, m: seq<T>, x: T)
    ensures (p + m) + [x] == p + (m + [x])
  {
  }

  class HttpLogShipper {
    const buffer: LogBuffer
    const config: OutputConfig
    const schedule: ConnectionSchedule
    /** The normalised server URL the HTTP client uses as its base address. */
    const baseUrl: string

    var started: bool
    var unloading: bool
    /** The one-shot timer is set to fire OnTick. */
    var timerArmed: bool
    /** Stop has disposed of the timer and waited for any running tick. */
    var timerDisposed: bool
    /** Every POST sent so far, oldest first. */
    var posted: seq<Request>

    ghost predicate Valid()
      reads this, buffer
    {
      && buffer.Valid()
      && EndsWithSlash(baseUrl)
      && (timerArmed ==> started && !timerDisposed)
      && (timerDisposed ==> unloading)
      && (unloading ==> !timerArmed)
    }

    constructor (logBuffer: LogBuffer, outputConfig: OutputConfig)
      requires logBuffer.Valid()
      requires !IsNullOrWhiteSpace(outputConfig.serverUrl)
      ensures Valid()
      ensures buffer == logBuffer && config == outputConfig
      ensures baseUrl == NormalizeServerUrl(outputConfig.serverUrl).value
      ensures fresh(schedule) && schedule.quietPeriodMs == QuietWaitPeriodMs && schedule.calls == []
      ensures !started && !unloading && !timerArmed && !timerDisposed && posted == []
    {
      buffer := logBuffer;
      config := outputConfig;
      schedule := new ConnectionSchedule(QuietWaitPeriodMs);
      baseUrl := NormalizeServerUrl(outputConfig.serverUrl).value;
      started := false;
      unloading := false;
      timerArmed := false;
      timerDisposed := false;
      posted := [];
    }

    /** Arms the one-shot timer; when it fires, it runs OnTick. */
    method SetTimer()
      requires Valid() && started && !unloading
      modifies this
      ensures Valid() && timerArmed
      ensures started == old(started) && unloading == old(unloading)
      ensures timerDisposed == old(timerDisposed) && posted == old(posted)
    {
      timerArmed := true;
    }

    /** Starts shipping: refused when already started, then when unloading; otherwise arms the timer. */
    method Start() returns (o: Outcome<ShipperError>)
      requires Valid()
      modifies this
      ensures Valid()
      ensures old(started) ==> o == Fail(AlreadyStarted)
      ensures !old(started) && old(unloading) ==> o == Fail(IsUnloading)
      ensures o.Pass? <==> !old(started) && !old(unloading)
      ensures o.Pass? ==> started && timerArmed
      ensures o.Fail? ==> started == old(started) && timerArmed == old(timerArmed)
      ensures unloading == old(unloading) && timerDisposed == old(timerDisposed) && posted == old(posted)
    {
      if started {
        return Fail(AlreadyStarted);
      }
      if unloading {
        return Fail(IsUnloading);
      }
      started := true;
      SetTimer();
      o := Pass;
    }

    /**
      Stops shipping, once: marks the shipper unloading and, when it was
      started, disposes of the timer so that no further tick runs. A second
      call changes nothing.
    */
    method Stop()
      requires Valid()
      modifies this
      ensures Valid()
      ensures unloading && !timerArmed
      ensures old(unloading) ==> timerArmed == old(timerArmed) && timerDisposed == old(timerDisposed)
      ensures !old(unloading) ==> timerDisposed == old(started)
      ensures started == old(started) && posted == old(posted)
    {
      if unloading {
        return;
      }
      unloading := true;
      if !started {
        return;
      }
      timerArmed := false;
      timerDisposed := true;
    }

    /** Dispose is Stop; its contract is Stop's, clause for clause, and must change with it. */
    method Dispose()
      requires Valid()
      modifies this
      ensures Valid()
      ensures unloading && !timerArmed
      ensures old(unloading) ==> timerArmed == old(timerArmed) && timerDisposed == old(timerDisposed)
      ensures !old(unloading) ==> timerDisposed == old(started)
      ensures started == old(started) && posted == old(posted)
    {
      Stop();
    }

    /**
      One POST of a tick: builds the payload from what Peek returned, in
      single mode while `sendingSingles` is positive, sends it, and acts on
      `result`. Reports whether the server was reached, and the counter for
      the next round.
    */
    method SendBatch(available: seq<Entry>, sendingSingles: nat, result: Response)
      returns (reached: bool, next: nat)
      requires buffer.Valid() && |available| > 0
      modifies this, buffer, schedule
      ensures buffer.Valid()
      ensures var a := Attempt(sendingSingles, available,
                               Build(available, config.PayloadLimits(), sendingSingles > 0), result);
        && posted == old(posted) + [RequestFor(a, config)]
        && (reached <==> !IsFailure(result))
        && schedule.calls == old(schedule.calls) + [if reached then MarkedSuccess else MarkedFailure]
        && (reached ==> buffer.entries == NextEntries(old(buffer.entries), a) && next == NextSingles(a))
        && (!reached ==> buffer.entries == old(buffer.entries))
      ensures started == old(started) && unloading == old(unloading)
      ensures timerArmed == old(timerArmed) && timerDisposed == old(timerDisposed)
    {
      var payload, lastIncluded := MakePayload(available, config.PayloadLimits(), sendingSingles > 0);
      posted := posted + [Request(BulkUploadResource, ContentType, ApiKeyHeader(config.apiKey), payload)];
      next := sendingSingles;
      if IsSuccessStatus(result) {
        schedule.MarkSuccess();
        buffer.Dequeue(lastIncluded);
        if next > 0 {
          next := next - 1;
        }
        reached := true;
      } else if IsRejection(result) {
        // the connection worked: the payload was the problem
        schedule.MarkSuccess();
        if next != 0 {
          // the single entry sent is the poison one: drop it and leave single mode
          buffer.Dequeue(lastIncluded);
          next := 0;
        } else {
          // a batch was rejected: send the next entries one at a time
          next := SinglesProbeCount;
        }
        reached := true;
      } else {
        // an exception from PostAsync, and every status that is neither 2xx, 400 nor 413
        schedule.MarkFailure();
        reached := false;
      }
    }

    /**
      The timer callback. Peek `i` of the tick returns `peekCount(i)` entries
      at most and POST `i` comes back with `post(i)`; the tick does exactly what
      RunTick describes, and the timer is re-armed unless the shipper is
      unloading.
    */
    method OnTick(peekCount: nat -> nat, post: nat -> Response)
      requires Valid() && started
      modifies this, buffer, schedule
      ensures Valid()
      ensures var run := RunTick(config.PayloadLimits(), old(buffer.entries), 0, 0, peekCount, post);
        && buffer.entries == run.remaining
        && schedule.calls == old(schedule.calls) + run.marks
        && posted == old(posted) + Requests(run.attempts, config)
      ensures started && unloading == old(unloading) && timerDisposed == old(timerDisposed)
      ensures timerArmed == !unloading
    {
      // the one-shot timer has fired
      timerArmed := false;
      ghost var limits := config.PayloadLimits();
      ghost var whole := RunTick(limits, buffer.entries, 0, 0, peekCount, post);
      ghost var marks: seq<Mark> := [];
      ghost var attempts: seq<Attempt> := [];
      var sendingSingles: nat := 0;
      var i: nat := 0;
      while true
        invariant buffer.Valid() && sendingSingles <= SinglesProbeCount
        invariant started && unloading == old(unloading) && timerDisposed == old(timerDisposed) && !timerArmed
        invariant Resumes(whole, marks, attempts, RunTick(limits, buffer.entries, sendingSingles, i, peekCount, post))
        invariant schedule.calls == old(schedule.calls) + marks
        invariant posted == old(posted) + Requests(attempts, config)
        decreases TickMeasure(buffer.entries, sendingSingles)
      {
        ghost var entries := buffer.entries;
        var available := buffer.Peek(peekCount(i));
        if |available| == 0 {
          // nothing waiting: the destination counts as reachable
          EmptyPeekStep(limits, entries, sendingSingles, i, peekCount, post, whole, marks, attempts);
          schedule.MarkSuccess();
          AppendAssoc(old(schedule.calls), marks, MarkedSuccess);
          marks := marks + [MarkedSuccess];
          break;
        }
        ghost var a := RoundAttempt(limits, entries, sendingSingles, i, peekCount, post);
        assert a == Attempt(sendingSingles, available, Build(available, limits, sendingSingles > 0), post(i));
        var reached, next := SendBatch(available, sendingSingles, post(i));
        RequestsAppend(attempts, a, config);
        AppendAssoc(old(posted), Requests(attempts, config), RequestFor(a, config));
        if !reached {
          FailedStep(limits, entries, sendingSingles, i, peekCount, post, whole, marks, attempts);
          AppendAssoc(old(schedule.calls), marks, MarkedFailure);
          marks := marks + [MarkedFailure];
          attempts := attempts + [a];
          break;
        }
        ContinueStep(limits, entries, sendingSingles, i, peekCount, post, whole, marks, attempts);
        AppendAssoc(old(schedule.calls), marks, MarkedSuccess);
        marks := marks + [MarkedSuccess];
        attempts := attempts + [a];
        sendingSingles := next;
        i := i + 1;
      }
      if !unloading {
        SetTimer();
      }
    }
  }

  /**
    Creates a shipper, refusing a missing or blank server URL as the
    constructor does.
  */
  method NewShipper(logBuffer: LogBuffer, outputConfig: OutputConfig) returns (r: Result<HttpLogShipper, ShipperError>)
    requires logBuffer.Valid()
    ensures r.Err? <==> IsNullOrWhiteSpace(outputConfig.serverUrl)
    ensures r.Err? ==> r.error == BlankServerUrl
    ensures r.Ok? ==> fresh(r.value) && r.value.Valid() && r.value.buffer == logBuffer
    ensures r.Ok? ==> r.value.config == outputConfig
    ensures r.Ok? ==> fresh(r.value.schedule) && r.value.schedule.quietPeriodMs == QuietWaitPeriodMs && r.value.schedule.calls == []
    ensures r.Ok? ==> r.value.baseUrl == NormalizeServerUrl(outputConfig.serverUrl).value
    ensures r.Ok? ==> !r.value.started && !r.value.unloading && !r.value.timerArmed && !r.value.timerDisposed
    ensures r.Ok? ==> r.value.posted == []
  {
    var url := NormalizeServerUrl(outputConfig.serverUrl);
    if url.Err? {
      return Err(url.error);
    }
    var s := new HttpLogShipper(logBuffer, outputConfig);
    r := Ok(s);
  }
}
