# Seq Forwarder log shipper, modelled in Dafny

The forwarder keeps incoming log events in a durable buffer, and an HTTP log
shipper drains that buffer to a Seq server. This project models the shipper
(`HttpLogShipper`) and proves what it guarantees. The shipper has four parts:

- **The batch builder, `MakePayload`.** It walks the oldest buffered entries
  and frames them as `{"Events":[e1,e2,...]}`, copying each entry's bytes
  verbatim.
  - An entry larger than the event body limit is skipped, but its key still
    counts as consumed.
  - The builder stops when the next entry would take the body past the raw
    payload limit. The first consumed entry is taken whatever its size.
  - In single mode it stops after one written entry.
  - It reports the key of the last entry it consumed, which is the key the
    buffer is later dequeued up to.
- **The timer callback, `OnTick`.** It peeks, builds, POSTs and reacts to the
  response, round after round, with a poison-isolation counter:
  - A 2xx response dequeues the batch and counts the single-send counter down.
  - A 400 or 413 response to a batch starts 100 single sends.
  - A 400 or 413 response to a single event drops that event and ends single
    mode.
  - Any other status, and any exception from the POST, ends the tick with a
    failure mark.
  - At the end of the tick the timer is re-armed unless the shipper is
    unloading.
- **The lifecycle.** `Start` is refused when the shipper was already started
  or is unloading. `Stop` takes effect once and, if the shipper was started,
  disposes of the timer.
- **Base-address normalisation in the constructor.** A blank server URL is
  refused, and a trailing `/` is added when it is missing.

Modules, one per file:

- `Wrappers` (`wrappers.dfy`): `Option`, `Result` and `Outcome`, the error
  paths as values.
- `LogBuffers` (`log_buffer.dfy`): the buffer as the shipper sees it. It is a
  class over a sequence of keyed entries, where `Peek` returns a prefix and
  `Dequeue(k)` removes every entry whose key is at most `k`.
- `ConnectionSchedules` (`connection_schedule.dfy`): the back-off schedule as a
  recorder of its `MarkSuccess`/`MarkFailure` calls.
- `Payload` (`payload.dfy`): the builder loop `MakePayload`, proved equal to
  the functional specification `Build`, and the lemmas about `Build`.
- `Tick` (`tick.dfy`): `RunTick`, one tick as a function of the buffer
  contents and of what the environment does, and the lemmas about every tick.
- `Shipping` (`shipping.dfy`): the `HttpLogShipper` class with its flags,
  `Start`, `Stop`, `Dispose`, `SetTimer` and `OnTick`. `OnTick` is proved to do
  exactly what `RunTick` describes.

The environment is a set of parameters:

- `peekCount(i)` is how many entries Peek `i` of the tick returns at most.
- `post(i)` is what POST `i` comes back with: a status code or an exception.

One might expect the builder to fail when no entry fits. The code does not
fail: after an oversized first entry, a second entry that does not fit leaves an
empty `Events` array. That POST is still sent. The skipped entry is dequeued
once the POST settles: it is accepted, or rejected while sending singly. The
model follows the code (`Payload.EmptyEventsAfterSkip`).

## Model

| member | source | states |
|---|---|---|
| Payload.MakePayload | src/Seq.Forwarder/Shipper/HttpLogShipper.cs:194-238 | The loop returns exactly the body and last-included key of `Build` for the same entries, limits and mode. It keeps the running budget equal to the raw limit less the size of the body so far. |
| Payload.WrittenAreTheKeptPrefix | src/Seq.Forwarder/Shipper/HttpLogShipper.cs:207-231 | The entries written are the consumed prefix with oversized entries removed, in input order. The body is the header, their values joined by commas, and the trailer. |
| Payload.FrameLength | src/Seq.Forwarder/Shipper/HttpLogShipper.cs:202-234 | A body's length is 13 envelope bytes plus every written value plus one comma between neighbours, so header and trailer are exactly the 13 reserved bytes. |
| Payload.OversizedSkipped | src/Seq.Forwarder/Shipper/HttpLogShipper.cs:209-213 | An oversized entry is never written. The walk stops in front of one only in single mode after its one write. When it is the last consumed entry, its key is the one reported. |
| Payload.LastIncludedIsLastConsumed | src/Seq.Forwarder/Shipper/HttpLogShipper.cs:196-227 | For a non-empty input, at least one entry is consumed, and the reported key is the key of the last consumed entry. |
| Payload.StopsOnlyForAReason | src/Seq.Forwarder/Shipper/HttpLogShipper.cs:216-231 | The walk stops early for one of two reasons. Either single mode has written its entry, or the next entry is short enough but would push the body past the raw limit after something was consumed. |
| Payload.SingleModeWritesAtMostOne | src/Seq.Forwarder/Shipper/HttpLogShipper.cs:209-231 | In single mode at most one entry is written. When one is written, it is the last consumed entry and every entry before it was oversized. |
| Payload.WithinBudget | src/Seq.Forwarder/Shipper/HttpLogShipper.cs:204-225 | The body stays within the raw payload limit, with two exceptions: a body of just the 13 envelope bytes, and a body holding only the first entry, taken whatever its size. |
| Payload.SomethingWrittenWhenAnEntryFits | src/Seq.Forwarder/Shipper/HttpLogShipper.cs:216-225 | If some entry is within the event limit and the raw limit has room for a largest event plus the envelope, at least one entry is written. |
| Payload.EmptyEventsAfterSkip | src/Seq.Forwarder/Shipper/HttpLogShipper.cs:209-218 | For any mode, an oversized first entry (with a positive key) followed by an entry within the event limit that still does not fit beside the envelope gives an empty Events array, not a failure. Exactly one entry is consumed and its key is reported. |
| Payload.AsWrittenStreamOverrunsLimit | src/Seq.Forwarder/Shipper/HttpLogShipper.cs:200-204 | An event that exactly fills the budget gives a body at the limit, but the stream as written is 3 bytes over it (see Findings). |
| Tick.NextSingles | src/Seq.Forwarder/Shipper/HttpLogShipper.cs:142-168 | The counter after a round stays in 0..100. After a 400 or 413 it is 0 exactly when the rejected POST was a single send. |
| Tick.NextEntriesDropsConsumed | src/Seq.Forwarder/Shipper/HttpLogShipper.cs:142-162 | A 2xx response, or a 400/413 to a single send, removes exactly the entries the batch consumed. Any other response leaves the buffer alone, and the buffer stays ordered. |
| Tick.TickAttempts | src/Seq.Forwarder/Shipper/HttpLogShipper.cs:116-168 | From any counter in 0..100 (a tick starts at 0), the counter stays within 0..100 for the whole tick. Every POST carries the batch built from a non-empty Peek, in the mode the counter selects. |
| Tick.AttemptSends | src/Seq.Forwarder/Shipper/HttpLogShipper.cs:119-130 | A POST never sends an oversized entry. It sends at most one entry while sending singly. It consumes at least one entry, and its last-included key is that entry's key. |
| Tick.TickMarks | src/Seq.Forwarder/Shipper/HttpLogShipper.cs:119-183 | A tick makes one schedule call per POST, plus one for a final empty Peek. All calls are MarkSuccess except the last, which is MarkFailure exactly when the last POST failed. Only the last POST can fail. |
| Tick.TickLeavesSuffix | src/Seq.Forwarder/Shipper/HttpLogShipper.cs:142-175 | A tick only removes the oldest entries: what remains is a suffix of the buffer. |
| Tick.TickDropsOnlyAccounted | src/Seq.Forwarder/Shipper/HttpLogShipper.cs:142-168 | Every entry a tick removes was either oversized or written in a POST that settled: accepted, or rejected while sending singly. |
| LogBuffers.LogBuffer.Peek | src/Seq.Forwarder/Shipper/HttpLogShipper.cs:119 | Peek returns the oldest entries without removing them, as many as asked for or as are there. |
| LogBuffers.LogBuffer.Dequeue | src/Seq.Forwarder/Shipper/HttpLogShipper.cs:145 | Dequeue removes every entry whose key is at most the given key, keeps the rest in order, and keeps the buffer well formed. |
| LogBuffers.DequeueOrderedPrefix | src/Seq.Forwarder/Shipper/HttpLogShipper.cs:145 | On an ordered buffer, dequeueing up to the key of the n-th oldest entry removes exactly the n oldest entries. |
| Shipping.NormalizeServerUrl | src/Seq.Forwarder/Shipper/HttpLogShipper.cs:52-61 | A missing or all-white-space URL is refused. Otherwise the base address ends in `/`, starts with the configured URL, and equals it exactly when it already ended in `/`. |
| Shipping.NormalizeIdempotent | src/Seq.Forwarder/Shipper/HttpLogShipper.cs:59-61 | Normalising a normalised base address changes nothing. |
| Shipping.ApiKeyHeader | src/Seq.Forwarder/Shipper/HttpLogShipper.cs:138-139 | The API key header is present exactly when the configured key is not blank, and then it carries that key. |
| Shipping.RequestsAt | src/Seq.Forwarder/Shipper/HttpLogShipper.cs:128-141 | POST j of a tick goes to `api/events/raw` as JSON in UTF-8, with the API key header, and carries the body built for attempt j. |
| Shipping.NewShipper | src/Seq.Forwarder/Shipper/HttpLogShipper.cs:47-65 | Creating a shipper fails exactly when the server URL is blank. Otherwise the shipper is fresh, over the given buffer and configuration, with the normalised base address and a fresh 2000 ms schedule with no calls. No flag is set and nothing has been posted. |
| Shipping.HttpLogShipper.constructor | src/Seq.Forwarder/Shipper/HttpLogShipper.cs:47-65 | A new shipper holds the buffer and configuration and a fresh schedule with the 2-second quiet period. It has nothing posted and every flag clear. |
| Shipping.HttpLogShipper.Start | src/Seq.Forwarder/Shipper/HttpLogShipper.cs:67-82 | Start fails with AlreadyStarted if started, else with IsUnloading if unloading. Otherwise it sets started and arms the timer. So a Start after Stop always fails. |
| Shipping.HttpLogShipper.Stop | src/Seq.Forwarder/Shipper/HttpLogShipper.cs:84-100 | Stop always leaves the shipper unloading with the timer disarmed. A second call changes nothing. The first call disposes of the timer exactly when the shipper had been started. |
| Shipping.HttpLogShipper.Dispose | src/Seq.Forwarder/Shipper/HttpLogShipper.cs:102-105 | Dispose is Stop. |
| Shipping.HttpLogShipper.SetTimer | src/Seq.Forwarder/Shipper/HttpLogShipper.cs:107-110 | SetTimer arms the one-shot timer and changes nothing else. |
| Shipping.HttpLogShipper.SendBatch | src/Seq.Forwarder/Shipper/HttpLogShipper.cs:128-175 | One round sends the batch built in the current mode, then acts on the response. On 2xx and 400/413 it marks success, then dequeues and updates the counter as `NextEntries`/`NextSingles` say; otherwise it marks failure and leaves the buffer. |
| Shipping.HttpLogShipper.OnTick | src/Seq.Forwarder/Shipper/HttpLogShipper.cs:112-192 | A tick leaves the buffer, schedule calls and POSTs exactly as `RunTick` describes, with the counter starting at 0. It re-arms the timer exactly when the shipper is not unloading. |

## Left out

- Payload.MakePayload: requires a non-empty input. The source throws `ArgumentException` for an empty array, and its only caller never passes one, because it leaves the loop when Peek is empty.
- Payload.MakePayload: the body omits the 3-byte UTF-8 preamble that the source's stream starts with (see Findings). SendBatch and OnTick post the preamble-free body, so every recorded request body is 3 bytes shorter than the stream the source sends.
- Payload.MakePayload: limits are unbounded naturals. It does not model the `(int)` cast of `RawPayloadLimitBytes`, 32-bit arithmetic on `contentRemainingBytes`, or `ulong` keys.
- The content of the durable buffer's Peek is not modelled. The source passes the raw payload limit as a byte budget; the model returns a prefix whose length comes from `peekCount`. The buffer's persistence, eviction and key allocation are also out.
- The back-off schedule's interval formula, and the interval passed to the timer, are left out. The schedule records only the order of its calls.
- Concurrency is left out: the timer thread, `lock`, `volatile`, and entries enqueued while a tick runs. A `Stop` that overlaps a tick is modelled by allowing `OnTick` after `Stop`, which then does not re-arm the timer.
- The only exception modelled is one from the POST. Exceptions from Peek, Dequeue or MakePayload are left out. So are exceptions while reading the response body for logging: after line 172 such an exception would add a second MarkFailure, and at line 159 it would skip the Dequeue.
- All logging is left out, including decoding the payload back to text for a log message.
- The HTTP stack is left out: `HttpClient`, `StreamContent`, the stream wrapper, and resolving `api/events/raw` against the base address. A POST is recorded as a request value.
- Shipping.NormalizeServerUrl: does not model a `UriFormatException` from `new Uri`. It also treats `EndsWith("/")` as an ordinal comparison of the last character, where the source's comparison is culture-sensitive.
- The `ArgumentNullException` checks for a null buffer or configuration are left out, because Dafny references are never null.

## Findings

| source | as written | input that shows it | evidently intended | confidence | as-written member | corrected member |
|---|---|---|---|---|---|---|
| src/Seq.Forwarder/Shipper/HttpLogShipper.cs:200-204 | The builder wraps an empty memory stream in a writer with the UTF-8 encoding that emits a byte order mark. The first flush writes the 3-byte preamble EF BB BF before the header, and the 13 reserved bytes do not cover it. | One entry with key 1 and n bytes, n within the event body limit, and a raw payload limit of 13 + n. The body is exactly at the limit, and the stream sent is 16 + n bytes. | The POSTed stream never exceeds the raw payload limit, apart from the first-entry case: a writer without a preamble. | medium, not executed | Payload.AsWrittenStreamOverrunsLimit | Payload.WithinBudget |
