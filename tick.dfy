/**
  One run of the shipper's timer callback as a pure function of the buffer
  contents and of what the environment does: how many entries each Peek
  returns and what each POST comes back with. The class method
  Shipping.HttpLogShipper.OnTick is proved to produce exactly this run; the
  lemmas here state what every run guarantees.
*/
module Tick {
  import opened LogBuffers
  import opened ConnectionSchedules
  import opened Payload

  /** What a POST came back with: an HTTP status code, or an exception (a timeout, a refused connection). */
  datatype Response = Status(code: int) | Fault

  /** HttpResponseMessage.IsSuccessStatusCode: any 2xx status. */
  predicate IsSuccessStatus(r: Response)
  {
    r.Status? && 200 <= r.code <= 299
  }

  /** 400 Bad Request or 413 Request Entity Too Large: the payload, not the connection, is the problem. */
  predicate IsRejection(r: Response)
  {
    r.Status? && (r.code == 400 || r.code == 413)
  }

  /** Every other status, and every exception, counts as a failed connection. */
  predicate IsFailure(r: Response)
  {
    !IsSuccessStatus(r) && !IsRejection(r)
  }

  /** How many of the following batches go out one event at a time after a batch is rejected. */
  const SinglesProbeCount: nat := 100

  /** How many entries a Peek that was asked for `count` can return from `entries`. */
  function PeekLength(count: nat, entries: seq<Entry>): nat
  {
    if count < |entries| then count else |entries|
  }

  /** One POST within a tick: the counter when it was built, what Peek returned, the batch, and the response. */
  datatype Attempt = Attempt(sendingSingles: nat, available: seq<Entry>, batch: Batch, response: Response)

  /** The outcome of a tick: what is left in the buffer, the schedule calls made and the POSTs sent, in order. */
  datatype TickRun = TickRun(remaining: seq<Entry>, marks: seq<Mark>, attempts: seq<Attempt>)

  function After(m: Mark, a: Attempt, rest: TickRun): TickRun
  {
    TickRun(rest.remaining, [m] + rest.marks, [a] + rest.attempts)
  }

  /** What prefixing one round keeps: the lengths grow by one and the last elements stay. */
  lemma AfterKeepsEnds(m: Mark, a: Attempt, rest: TickRun)
    requires |rest.marks| >= 1
    ensures var r := After(m, a, rest);
      && |r.marks| == |rest.marks| + 1 && |r.attempts| == |rest.attempts| + 1
      && r.marks[0] == m && r.attempts[0] == a
      && r.marks[|r.marks| - 1] == rest.marks[|rest.marks| - 1]
      && (|rest.attempts| > 0 ==> r.attempts[|r.attempts| - 1] == rest.attempts[|rest.attempts| - 1])
      && (forall j :: 1 <= j < |r.marks| ==> r.marks[j] == rest.marks[j - 1])
      && (forall j :: 1 <= j < |r.attempts| ==> r.attempts[j] == rest.attempts[j - 1])
  {
  }

  /** An attempt whose consumed entries are dequeued: accepted, or rejected while sending singly. */
  predicate Settled(a: Attempt)
  {
    IsSuccessStatus(a.response) || (IsRejection(a.response) && a.sendingSingles != 0)
  }

  /** The measure that makes every tick finish: each round dequeues something or enters single mode. */
  function TickMeasure(entries: seq<Entry>, sendingSingles: nat): nat
  {
    2 * |entries| + (if sendingSingles == 0 then 1 else 0)
  }

  /** The POST of round `i`, when Peek returned something: the batch is built in single mode while the counter is positive. */
  function RoundAttempt(limits: Limits, entries: seq<Entry>, sendingSingles: nat, i: nat,
                        peekCount: nat -> nat, post: nat -> Response): Attempt
    requires PeekLength(peekCount(i), entries) > 0
  {
    var available := entries[..PeekLength(peekCount(i), entries)];
    Attempt(sendingSingles, available, Build(available, limits, sendingSingles > 0), post(i))
  }

  /** The buffer after a round that did not fail: a settled POST dequeues up to the batch's last key. */
  function NextEntries(entries: seq<Entry>, a: Attempt): seq<Entry>
  {
    if Settled(a) then DequeueUpTo(entries, a.batch.lastIncluded) else entries
  }

  /**
    The poison-isolation counter after a round that did not fail: an accepted
    POST counts one single send down, a rejected single clears the counter, and
    a rejected batch starts 100 single sends.
  */
  function NextSingles(a: Attempt): (next: nat)
    ensures a.sendingSingles <= SinglesProbeCount ==> next <= SinglesProbeCount
    ensures IsRejection(a.response) ==> (next == 0 <==> a.sendingSingles != 0)
  {
    if IsSuccessStatus(a.response) then
      if a.sendingSingles > 0 then a.sendingSingles - 1 else 0
    else if a.sendingSingles != 0 then
      // the single entry sent is the poison one: it is dropped and single mode ends
      0
    else
      // a batch was rejected: retry the next entries one at a time, dequeueing nothing
      SinglesProbeCount
  }

  /** A batch built from a non-empty Peek consumes an entry, so dequeueing up to its key removes something. */
  lemma ConsumedEntryLeaves(entries: seq<Entry>, n: nat, limits: Limits, oneOnly: bool)
    requires 0 < n <= |entries|
    ensures |DequeueUpTo(entries, Build(entries[..n], limits, oneOnly).lastIncluded)| < |entries|
  {
    var b := Build(entries[..n], limits, oneOnly);
    LastIncludedIsLastConsumed(entries[..n], limits, oneOnly);
    DequeueShrinks(entries, b.consumed - 1, b.lastIncluded);
  }

  /** Every round that does not fail makes progress. */
  lemma RoundProgress(limits: Limits, entries: seq<Entry>, sendingSingles: nat, i: nat,
                      peekCount: nat -> nat, post: nat -> Response)
    requires PeekLength(peekCount(i), entries) > 0
    requires !IsFailure(post(i))
    ensures var a := RoundAttempt(limits, entries, sendingSingles, i, peekCount, post);
      TickMeasure(NextEntries(entries, a), NextSingles(a)) < TickMeasure(entries, sendingSingles)
  {
    ConsumedEntryLeaves(entries, PeekLength(peekCount(i), entries), limits, sendingSingles > 0);
  }

  /**
    The tick from round `i` on, with the buffer holding `entries` and the
    poison-isolation counter at `sendingSingles`. Peek `i` returns
    `peekCount(i)` entries at most; POST `i` comes back with `post(i)`.
  */
  function RunTick(limits: Limits, entries: seq<Entry>, sendingSingles: nat, i: nat,
                   peekCount: nat -> nat, post: nat -> Response): TickRun
    decreases TickMeasure(entries, sendingSingles)
  {
    if PeekLength(peekCount(i), entries) == 0 then
      // nothing to send: the destination counts as reachable
      TickRun(entries, [MarkedSuccess], [])
    else
      var a := RoundAttempt(limits, entries, sendingSingles, i, peekCount, post);
      if IsFailure(a.response) then
        TickRun(entries, [MarkedFailure], [a])
      else
        RoundProgress(limits, entries, sendingSingles, i, peekCount, post);
        After(MarkedSuccess, a, RunTick(limits, NextEntries(entries, a), NextSingles(a), i + 1, peekCount, post))
  }

  /** One round of RunTick, spelled out. */
  lemma UnfoldRound(limits: Limits, entries: seq<Entry>, sendingSingles: nat, i: nat,
                    peekCount: nat -> nat, post: nat -> Response)
    requires PeekLength(peekCount(i), entries) > 0
    ensures var a := RoundAttempt(limits, entries, sendingSingles, i, peekCount, post);
      RunTick(limits, entries, sendingSingles, i, peekCount, post) ==
        if IsFailure(a.response) then TickRun(entries, [MarkedFailure], [a])
        else After(MarkedSuccess, a, RunTick(limits, NextEntries(entries, a), NextSingles(a), i + 1, peekCount, post))
  {
  }

  /**
    Partway through a tick: the schedule calls and POSTs made so far, followed
    by the rest of the tick from the current state, make up the whole tick.
  */
  ghost predicate Resumes(whole: TickRun, marks: seq<Mark>, attempts: seq<Attempt>, rest: TickRun)
  {
    whole == TickRun(rest.remaining, marks + rest.marks, attempts + rest.attempts)
  }

  /** An empty Peek ends the tick with MarkSuccess. */
  lemma EmptyPeekStep(limits: Limits, entries: seq<Entry>, sendingSingles: nat, i: nat,
                      peekCount: nat -> nat, post: nat -> Response,
                      whole: TickRun, marks: seq<Mark>, attempts: seq<Attempt>)
    requires PeekLength(peekCount(i), entries) == 0
    requires Resumes(whole, marks, attempts, RunTick(limits, entries, sendingSingles, i, peekCount, post))
    ensures whole == TickRun(entries, marks + [MarkedSuccess], attempts)
  {
    assert attempts + [] == attempts;
  }

  /** A failed POST ends the tick with MarkFailure, leaving the buffer as it was. */
  lemma FailedStep(limits: Limits, entries: seq<Entry>, sendingSingles: nat, i: nat,
                   peekCount: nat -> nat, post: nat -> Response,
                   whole: TickRun, marks: seq<Mark>, attempts: seq<Attempt>)
    requires PeekLength(peekCount(i), entries) > 0 && IsFailure(post(i))
    requires Resumes(whole, marks, attempts, RunTick(limits, entries, sendingSingles, i, peekCount, post))
    ensures whole == TickRun(entries, marks + [MarkedFailure],
                             attempts + [RoundAttempt(limits, entries, sendingSingles, i, peekCount, post)])
  {
    UnfoldRound(limits, entries, sendingSingles, i, peekCount, post);
  }

  lemma ResumesAfter(whole: TickRun, marks: seq<Mark>, attempts: seq<Attempt>, a: Attempt, rest: TickRun)
    requires Resumes(whole, marks, attempts, After(MarkedSuccess, a, rest))
    ensures Resumes(whole, marks + [MarkedSuccess], attempts + [a], rest)
  {
    assert marks + ([MarkedSuccess] + rest.marks) == (marks + [MarkedSuccess]) + rest.marks;
    assert attempts + ([a] + rest.attempts) == (attempts + [a]) + rest.attempts;
  }

  /** A POST that did not fail leads into the next round. */
  lemma ContinueStep(limits: Limits, entries: seq<Entry>, sendingSingles: nat, i: nat,
                     peekCount: nat -> nat, post: nat -> Response,
                     whole: TickRun, marks: seq<Mark>, attempts: seq<Attempt>)
    requires PeekLength(peekCount(i), entries) > 0 && !IsFailure(post(i))
    requires Resumes(whole, marks, attempts, RunTick(limits, entries, sendingSingles, i, peekCount, post))
    ensures var a := RoundAttempt(limits, entries, sendingSingles, i, peekCount, post);
      && Resumes(whole, marks + [MarkedSuccess], attempts + [a],
                 RunTick(limits, NextEntries(entries, a), NextSingles(a), i + 1, peekCount, post))
      && TickMeasure(NextEntries(entries, a), NextSingles(a)) < TickMeasure(entries, sendingSingles)
  {
    var a := RoundAttempt(limits, entries, sendingSingles, i, peekCount, post);
    var rest := RunTick(limits, NextEntries(entries, a), NextSingles(a), i + 1, peekCount, post);
    UnfoldRound(limits, entries, sendingSingles, i, peekCount, post);
    assert RunTick(limits, entries, sendingSingles, i, peekCount, post) == After(MarkedSuccess, a, rest);
    ResumesAfter(whole, marks, attempts, a, rest);
    RoundProgress(limits, entries, sendingSingles, i, peekCount, post);
  }

  /**
    The shape of a tick's schedule calls: all but the last are MarkSuccess, the
    last is MarkFailure exactly when the last POST failed, only the last POST
    can have failed, and there is one call per POST plus one for an empty Peek.
  */
  ghost predicate EndsOnce(r: TickRun)
  {
    && |r.marks| >= 1
    && (forall j :: 0 <= j < |r.marks| - 1 ==> r.marks[j] == MarkedSuccess)
    && (r.marks[|r.marks| - 1] == MarkedFailure <==>
          (|r.attempts| > 0 && IsFailure(r.attempts[|r.attempts| - 1].response)))
    && (forall j :: 0 <= j < |r.attempts| - 1 ==> !IsFailure(r.attempts[j].response))
    && |r.marks| == |r.attempts| + (if r.marks[|r.marks| - 1] == MarkedSuccess then 1 else 0)
  }

  lemma AfterEndsOnce(a: Attempt, rest: TickRun)
    requires EndsOnce(rest) && !IsFailure(a.response)
    ensures EndsOnce(After(MarkedSuccess, a, rest))
  {
    AfterKeepsEnds(MarkedSuccess, a, rest);
  }

  /** Every tick ends with exactly one terminal schedule call. */
  lemma {:induction false} TickMarks(limits: Limits, entries: seq<Entry>, sendingSingles: nat, i: nat,
                                     peekCount: nat -> nat, post: nat -> Response)
    ensures EndsOnce(RunTick(limits, entries, sendingSingles, i, peekCount, post))
    decreases TickMeasure(entries, sendingSingles)
  {
    if PeekLength(peekCount(i), entries) > 0 {
      var a := RoundAttempt(limits, entries, sendingSingles, i, peekCount, post);
      UnfoldRound(limits, entries, sendingSingles, i, peekCount, post);
      if !IsFailure(a.response) {
        RoundProgress(limits, entries, sendingSingles, i, peekCount, post);
        TickMarks(limits, NextEntries(entries, a), NextSingles(a), i + 1, peekCount, post);
        AfterEndsOnce(a, RunTick(limits, NextEntries(entries, a), NextSingles(a), i + 1, peekCount, post));
      }
    }
  }

  /** How many of the oldest entries a round removes. */
  function Dropped(a: Attempt): nat
  {
    if Settled(a) then a.batch.consumed else 0
  }

  /**
    On a well-formed buffer a round removes exactly the entries its batch
    consumed when the POST settles, and nothing otherwise.
  */
  lemma NextEntriesDropsConsumed(limits: Limits, entries: seq<Entry>, sendingSingles: nat, i: nat,
                                 peekCount: nat -> nat, post: nat -> Response)
    requires WellFormed(entries) && PeekLength(peekCount(i), entries) > 0
    ensures var a := RoundAttempt(limits, entries, sendingSingles, i, peekCount, post);
      && Dropped(a) <= |a.available| <= |entries|
      && a.available == entries[..|a.available|]
      && NextEntries(entries, a) == entries[Dropped(a)..]
      && WellFormed(NextEntries(entries, a))
  {
    var n := PeekLength(peekCount(i), entries);
    var a := RoundAttempt(limits, entries, sendingSingles, i, peekCount, post);
    LastIncludedIsLastConsumed(entries[..n], limits, sendingSingles > 0);
    if Settled(a) {
      var c := a.batch.consumed;
      assert entries[..n][c - 1] == entries[c - 1];
      DequeueOrderedPrefix(entries, c);
      DequeueWellFormed(entries, a.batch.lastIncluded);
      assert NextEntries(entries, a) == DequeueUpTo(entries, entries[c - 1].key);
    } else {
      assert entries[0..] == entries;
    }
  }

  /** `rem` is what is left of `es` after removing some of its oldest entries. */
  ghost predicate SuffixOf(rem: seq<Entry>, es: seq<Entry>)
  {
    |rem| <= |es| && rem == es[|es| - |rem|..]
  }

  /** A suffix of a suffix is a suffix. */
  lemma SuffixOfSuffix(es: seq<Entry>, d: nat, rem: seq<Entry>)
    requires d <= |es| && SuffixOf(rem, es[d..])
    ensures SuffixOf(rem, es)
  {
    assert es[d..][|es| - d - |rem|..] == es[|es| - |rem|..];
  }

  /** A tick only removes the oldest entries: what it leaves is a suffix of the buffer. */
  lemma {:induction false} TickLeavesSuffix(limits: Limits, entries: seq<Entry>, sendingSingles: nat, i: nat,
                                            peekCount: nat -> nat, post: nat -> Response)
    requires WellFormed(entries)
    ensures SuffixOf(RunTick(limits, entries, sendingSingles, i, peekCount, post).remaining, entries)
    decreases TickMeasure(entries, sendingSingles)
  {
    var r := RunTick(limits, entries, sendingSingles, i, peekCount, post);
    if PeekLength(peekCount(i), entries) > 0 {
      var a := RoundAttempt(limits, entries, sendingSingles, i, peekCount, post);
      UnfoldRound(limits, entries, sendingSingles, i, peekCount, post);
      if !IsFailure(a.response) {
        RoundProgress(limits, entries, sendingSingles, i, peekCount, post);
        NextEntriesDropsConsumed(limits, entries, sendingSingles, i, peekCount, post);
        var rest := NextEntries(entries, a);
        var tail := RunTick(limits, rest, NextSingles(a), i + 1, peekCount, post);
        assert r.remaining == tail.remaining;
        TickLeavesSuffix(limits, rest, NextSingles(a), i + 1, peekCount, post);
        SuffixOfSuffix(entries, Dropped(a), tail.remaining);
      } else {
        assert r.remaining == entries;
        assert entries[0..] == entries;
      }
    } else {
      assert r.remaining == entries;
      assert entries[0..] == entries;
    }
  }

  /**
    An entry the buffer may lose without having been delivered: it was
    oversized, or it was written in a POST whose consumed entries were dequeued
    (accepted, or rejected while sending singly, the isolated poison event).
  */
  ghost predicate Accounted(e: Entry, attempts: seq<Attempt>, limits: Limits)
  {
    Oversized(e, limits) ||
    exists j :: 0 <= j < |attempts| && Settled(attempts[j]) && e in attempts[j].batch.written
  }

  lemma AccountedAfter(e: Entry, a: Attempt, attempts: seq<Attempt>, limits: Limits)
    requires Accounted(e, attempts, limits)
    ensures Accounted(e, [a] + attempts, limits)
  {
    if !Oversized(e, limits) {
      var j :| 0 <= j < |attempts| && Settled(attempts[j]) && e in attempts[j].batch.written;
      assert ([a] + attempts)[j + 1] == attempts[j];
    }
  }

  /** The entries a settled POST consumed are all accounted for by that POST. */
  lemma ConsumedAccounted(a: Attempt, attempts: seq<Attempt>, limits: Limits, d: nat)
    requires a.batch == Build(a.available, limits, a.sendingSingles > 0)
    requires Settled(a) && d < a.batch.consumed <= |a.available|
    ensures Accounted(a.available[d], [a] + attempts, limits)
  {
    WrittenAreTheKeptPrefix(a.available, limits, a.sendingSingles > 0);
    assert a.available[..a.batch.consumed][d] == a.available[d];
    KeptMember(a.available[..a.batch.consumed], limits, a.available[d]);
    assert ([a] + attempts)[0] == a;
  }

  /** The dropped entries of one round, given those of the rest of the tick. */
  lemma RoundAccounted(entries: seq<Entry>, a: Attempt, tail: TickRun, limits: Limits)
    requires a.batch == Build(a.available, limits, a.sendingSingles > 0)
    requires Dropped(a) <= |a.available| <= |entries| && a.available == entries[..|a.available|]
    requires |tail.remaining| <= |entries| - Dropped(a)
    requires forall d :: 0 <= d < |entries| - Dropped(a) - |tail.remaining| ==>
               Accounted(entries[Dropped(a)..][d], tail.attempts, limits)
    ensures forall d :: 0 <= d < |entries| - |tail.remaining| ==>
              Accounted(entries[d], [a] + tail.attempts, limits)
  {
    var c := Dropped(a);
    forall d | 0 <= d < |entries| - |tail.remaining|
      ensures Accounted(entries[d], [a] + tail.attempts, limits)
    {
      if d < c {
        ConsumedAccounted(a, tail.attempts, limits, d);
        assert a.available[d] == entries[d];
      } else {
        assert entries[c..][d - c] == entries[d];
        AccountedAfter(entries[d], a, tail.attempts, limits);
      }
    }
  }

  /**
    At-least-once within a tick: every entry the tick removes from the buffer
    was oversized, or was written in an accepted POST, or was the single entry
    of a POST rejected while sending singly.
  */
  lemma {:induction false} TickDropsOnlyAccounted(limits: Limits, entries: seq<Entry>, sendingSingles: nat, i: nat,
                                                  peekCount: nat -> nat, post: nat -> Response)
    requires WellFormed(entries)
    ensures var r := RunTick(limits, entries, sendingSingles, i, peekCount, post);
      |r.remaining| <= |entries| &&
      forall d :: 0 <= d < |entries| - |r.remaining| ==> Accounted(entries[d], r.attempts, limits)
    decreases TickMeasure(entries, sendingSingles)
  {
    TickLeavesSuffix(limits, entries, sendingSingles, i, peekCount, post);
    if PeekLength(peekCount(i), entries) > 0 {
      var a := RoundAttempt(limits, entries, sendingSingles, i, peekCount, post);
      UnfoldRound(limits, entries, sendingSingles, i, peekCount, post);
      if !IsFailure(a.response) {
        RoundProgress(limits, entries, sendingSingles, i, peekCount, post);
        NextEntriesDropsConsumed(limits, entries, sendingSingles, i, peekCount, post);
        var rest := NextEntries(entries, a);
        TickDropsOnlyAccounted(limits, rest, NextSingles(a), i + 1, peekCount, post);
        var tail := RunTick(limits, rest, NextSingles(a), i + 1, peekCount, post);
        RoundAccounted(entries, a, tail, limits);
      }
    }
  }

  /** What holds of every POST of a tick: a non-empty Peek, the counter in range, and the batch built in the mode it selects. */
  ghost predicate AttemptFacts(a: Attempt, limits: Limits)
  {
    && |a.available| > 0
    && a.sendingSingles <= SinglesProbeCount
    && a.batch == Build(a.available, limits, a.sendingSingles > 0)
  }

  lemma AfterAttemptFacts(a: Attempt, rest: seq<Attempt>, limits: Limits)
    requires AttemptFacts(a, limits)
    requires forall j :: 0 <= j < |rest| ==> AttemptFacts(rest[j], limits)
    ensures forall j :: 0 <= j < |[a] + rest| ==> AttemptFacts(([a] + rest)[j], limits)
  {
    forall j | 0 <= j < |[a] + rest|
      ensures AttemptFacts(([a] + rest)[j], limits)
    {
      if j > 0 {
        assert ([a] + rest)[j] == rest[j - 1];
      }
    }
  }

  /**
    The poison-isolation counter stays within 0..100 over a whole tick, and
    each POST carries the batch built in the mode the counter selects.
  */
  lemma {:induction false} TickAttempts(limits: Limits, entries: seq<Entry>, sendingSingles: nat, i: nat,
                                        peekCount: nat -> nat, post: nat -> Response)
    requires sendingSingles <= SinglesProbeCount
    ensures var r := RunTick(limits, entries, sendingSingles, i, peekCount, post);
      forall j :: 0 <= j < |r.attempts| ==> AttemptFacts(r.attempts[j], limits)
    decreases TickMeasure(entries, sendingSingles)
  {
    if PeekLength(peekCount(i), entries) > 0 {
      var a := RoundAttempt(limits, entries, sendingSingles, i, peekCount, post);
      UnfoldRound(limits, entries, sendingSingles, i, peekCount, post);
      if !IsFailure(a.response) {
        RoundProgress(limits, entries, sendingSingles, i, peekCount, post);
        TickAttempts(limits, NextEntries(entries, a), NextSingles(a), i + 1, peekCount, post);
        var tail := RunTick(limits, NextEntries(entries, a), NextSingles(a), i + 1, peekCount, post);
        AfterAttemptFacts(a, tail.attempts, limits);
      }
    }
  }

  /**
    What every POST of a tick sends: never an oversized entry, at most one
    entry while sending singly, and at least one consumed entry, whose key is
    the one dequeued up to.
  */
  lemma AttemptSends(a: Attempt, limits: Limits)
    requires AttemptFacts(a, limits)
    ensures forall e :: e in a.batch.written ==> !Oversized(e, limits)
    ensures a.sendingSingles > 0 ==> |a.batch.written| <= 1
    ensures 1 <= a.batch.consumed <= |a.available|
    ensures a.batch.lastIncluded == a.available[a.batch.consumed - 1].key
  {
    var oneOnly := a.sendingSingles > 0;
    LastIncludedIsLastConsumed(a.available, limits, oneOnly);
    WrittenAreTheKeptPrefix(a.available, limits, oneOnly);
    forall e | e in a.batch.written
      ensures !Oversized(e, limits)
    {
      KeptMember(a.available[..a.batch.consumed], limits, e);
    }
    if oneOnly {
      SingleModeWritesAtMostOne(a.available, limits);
    }
  }
}
