/**
  The batch payload builder: the oldest buffered entries become one
  {"Events":[e1,e2,...]} body for the raw-events endpoint, each entry's bytes
  copied verbatim. MakePayload is the builder's loop; WalkAll and Build are the
  functional specification it is proved against, and the lemmas below state
  what the builder guarantees about skipped entries, the byte budget, single
  mode and the reported last-included key.
*/
module Payload {
  import opened LogBuffers

  /** The two configured limits the builder consults. */
  datatype Limits = Limits(eventBodyLimitBytes: nat, rawPayloadLimitBytes: nat)

  /** The ASCII bytes of `{"Events":[`: the header, which with the trailer takes 13 bytes of the budget. */
  const Header: seq<byte> := [123, 34, 69, 118, 101, 110, 116, 115, 34, 58, 91]
  /** The ASCII byte of `,`. */
  const Comma: seq<byte> := [44]
  /** The ASCII bytes of `]}`. */
  const Trailer: seq<byte> := [93, 125]

  /** The values of `es`, verbatim, separated by commas. */
  function Join(es: seq<Entry>): seq<byte>
  {
    if |es| == 0 then []
    else if |es| == 1 then es[0].value
    else Join(es[..|es| - 1]) + Comma + es[|es| - 1].value
  }

  /** The complete body that carries `written`. */
  function Frame(written: seq<Entry>): seq<byte>
  {
    Header + Join(written) + Trailer
  }

  /** Sum of the value lengths. */
  function TotalBytes(es: seq<Entry>): nat
  {
    if es == [] then 0 else TotalBytes(es[..|es| - 1]) + |es[|es| - 1].value|
  }

  /** Appending one entry adds the separator (unless it is the first) and its bytes. */
  lemma JoinAppend(es: seq<Entry>, e: Entry)
    ensures Join(es + [e]) == Join(es) + (if es == [] then [] else Comma) + e.value
  {
    assert (es + [e])[..|es|] == es;
  }

  /** A body's size is the 13 envelope bytes, every value's bytes and one comma between neighbours. */
  lemma {:induction false} FrameLength(es: seq<Entry>)
    ensures |Frame(es)| == 13 + TotalBytes(es) + (if es == [] then 0 else |es| - 1)
  {
    if es != [] {
      var init := es[..|es| - 1];
      assert es == init + [es[|es| - 1]];
      FrameLength(init);
      JoinAppend(init, es[|es| - 1]);
    }
  }

  /** An entry larger than the event body limit: it is skipped, never shipped. */
  predicate Oversized(e: Entry, limits: Limits)
  {
    |e.value| > limits.eventBodyLimitBytes
  }

  /** The entries of `es` short enough to ship, in their original order. */
  function Kept(es: seq<Entry>, limits: Limits): seq<Entry>
  {
    if es == [] then []
    else
      var last := es[|es| - 1];
      Kept(es[..|es| - 1], limits) + (if Oversized(last, limits) then [] else [last])
  }

  /**
    The builder's state after looking at some entries: the key of the last
    entry consumed (0 while none), the entries written, how many entries were
    consumed (written or skipped), and whether the walk has stopped.
  */
  datatype Walk = Walk(lastIncluded: nat, written: seq<Entry>, consumed: nat, stopped: bool)

  /** What the builder does with one more entry. */
  function Consume(w: Walk, e: Entry, limits: Limits, oneOnly: bool): Walk
  {
    if w.stopped then w
    else if Oversized(e, limits) then
      // oversized: skipped, but consumed so that it is dequeued
      Walk(e.key, w.written, w.consumed + 1, false)
    else if w.lastIncluded != 0 && |Frame(w.written + [e])| > limits.rawPayloadLimitBytes then
      // over budget once something has been consumed: stop before this entry
      w.(stopped := true)
    else
      Walk(e.key, w.written + [e], w.consumed + 1, oneOnly)
  }

  /** The builder's state after looking at all of `es`, oldest first. */
  function WalkAll(es: seq<Entry>, limits: Limits, oneOnly: bool): Walk
  {
    if es == [] then Walk(0, [], 0, false)
    else Consume(WalkAll(es[..|es| - 1], limits, oneOnly), es[|es| - 1], limits, oneOnly)
  }

  /** The builder's result; `written` and `consumed` are what the source leaves implicit. */
  datatype Batch = Batch(payload: seq<byte>, lastIncluded: nat, written: seq<Entry>, consumed: nat)

  function Build(es: seq<Entry>, limits: Limits, oneOnly: bool): Batch
  {
    var w := WalkAll(es, limits, oneOnly);
    Batch(Frame(w.written), w.lastIncluded, w.written, w.consumed)
  }

  /** Once stopped, later entries change nothing. */
  lemma {:induction false} StoppedStays(es: seq<Entry>, j: nat, limits: Limits, oneOnly: bool)
    requires j <= |es|
    requires WalkAll(es[..j], limits, oneOnly).stopped
    ensures WalkAll(es, limits, oneOnly) == WalkAll(es[..j], limits, oneOnly)
  {
    if j < |es| {
      var init := es[..|es| - 1];
      assert init[..j] == es[..j];
      StoppedStays(init, j, limits, oneOnly);
    } else {
      assert es[..j] == es;
    }
  }

  /** Why a walk stops short of the end: single mode after one write, or the next entry does not fit. */
  ghost predicate StopReason(es: seq<Entry>, w: Walk, limits: Limits, oneOnly: bool)
  {
    (oneOnly && |w.written| == 1) ||
    (w.consumed < |es| && !Oversized(es[w.consumed], limits) && w.lastIncluded != 0 &&
     |Frame(w.written + [es[w.consumed]])| > limits.rawPayloadLimitBytes)
  }

  /** The shape every walk has, stated over the entries it has looked at. */
  ghost predicate Shape(es: seq<Entry>, w: Walk, limits: Limits, oneOnly: bool)
  {
    && w.consumed <= |es|
    && (!w.stopped ==> w.consumed == |es|)
    && (w.stopped ==> StopReason(es, w, limits, oneOnly))
    && w.written == Kept(es[..w.consumed], limits)
    && (w.consumed == 0 ==> w.lastIncluded == 0 && !w.stopped)
    && (w.consumed > 0 ==> w.lastIncluded == es[w.consumed - 1].key)
    && (oneOnly ==> |w.written| <= 1)
    && (oneOnly && |w.written| == 1 ==> w.stopped && w.consumed > 0 && w.written[0] == es[w.consumed - 1])
  }

  /** Kept grows by the new entry exactly when it is short enough. */
  lemma KeptAppend(es: seq<Entry>, e: Entry, limits: Limits)
    ensures Kept(es + [e], limits) ==
      Kept(es, limits) + (if Oversized(e, limits) then [] else [e])
  {
    assert (es + [e])[..|es|] == es;
  }

  /** One more entry keeps the shape: the branch that skips an oversized entry. */
  lemma SkipKeepsShape(init: seq<Entry>, e: Entry, limits: Limits, oneOnly: bool)
    requires Shape(init, WalkAll(init, limits, oneOnly), limits, oneOnly)
    requires !WalkAll(init, limits, oneOnly).stopped && Oversized(e, limits)
    ensures Shape(init + [e], WalkAll(init + [e], limits, oneOnly), limits, oneOnly)
  {
    var es := init + [e];
    assert es[..|es| - 1] == init;
    var w0 := WalkAll(init, limits, oneOnly);
    assert init[..w0.consumed] == init;
    assert es[..|es|] == es;
    KeptAppend(init, e, limits);
  }

  /** One more entry keeps the shape: the branch that stops on the byte budget. */
  lemma BudgetStopKeepsShape(init: seq<Entry>, e: Entry, limits: Limits, oneOnly: bool)
    requires Shape(init, WalkAll(init, limits, oneOnly), limits, oneOnly)
    requires var w0 := WalkAll(init, limits, oneOnly);
      !w0.stopped && !Oversized(e, limits) &&
      w0.lastIncluded != 0 && |Frame(w0.written + [e])| > limits.rawPayloadLimitBytes
    ensures Shape(init + [e], WalkAll(init + [e], limits, oneOnly), limits, oneOnly)
  {
    var es := init + [e];
    assert es[..|es| - 1] == init;
    var w0 := WalkAll(init, limits, oneOnly);
    var w := w0.(stopped := true);
    assert WalkAll(es, limits, oneOnly) == Consume(w0, e, limits, oneOnly) == w;
    assert w0.consumed == |init| && es[..w0.consumed] == init && init[..w0.consumed] == init;
    assert es[w0.consumed] == e;
    assert StopReason(es, w, limits, oneOnly);
  }

  /** One more entry keeps the shape: the branch that writes it. */
  lemma WriteKeepsShape(init: seq<Entry>, e: Entry, limits: Limits, oneOnly: bool)
    requires Shape(init, WalkAll(init, limits, oneOnly), limits, oneOnly)
    requires var w0 := WalkAll(init, limits, oneOnly);
      !w0.stopped && !Oversized(e, limits) &&
      !(w0.lastIncluded != 0 && |Frame(w0.written + [e])| > limits.rawPayloadLimitBytes)
    ensures Shape(init + [e], WalkAll(init + [e], limits, oneOnly), limits, oneOnly)
  {
    var es := init + [e];
    assert es[..|es| - 1] == init;
    var w0 := WalkAll(init, limits, oneOnly);
    var w := Walk(e.key, w0.written + [e], w0.consumed + 1, oneOnly);
    assert WalkAll(es, limits, oneOnly) == Consume(w0, e, limits, oneOnly) == w;
    assert init[..w0.consumed] == init;
    assert es[..|es|] == es;
    KeptAppend(init, e, limits);
    assert w.written == Kept(es[..w.consumed], limits);
  }

  /** One more entry keeps the shape. */
  lemma ConsumeKeepsShape(init: seq<Entry>, e: Entry, limits: Limits, oneOnly: bool)
    requires Shape(init, WalkAll(init, limits, oneOnly), limits, oneOnly)
    ensures Shape(init + [e], WalkAll(init + [e], limits, oneOnly), limits, oneOnly)
  {
    var es := init + [e];
    assert es[..|es| - 1] == init;
    var w0 := WalkAll(init, limits, oneOnly);
    if w0.stopped {
      assert es[..w0.consumed] == init[..w0.consumed];
    } else if Oversized(e, limits) {
      SkipKeepsShape(init, e, limits, oneOnly);
    } else if w0.lastIncluded != 0 && |Frame(w0.written + [e])| > limits.rawPayloadLimitBytes {
      BudgetStopKeepsShape(init, e, limits, oneOnly);
    } else {
      WriteKeepsShape(init, e, limits, oneOnly);
    }
  }

  /** Every walk has the shape, by induction over the entries. */
  lemma {:induction false} WalkFacts(es: seq<Entry>, limits: Limits, oneOnly: bool)
    ensures Shape(es, WalkAll(es, limits, oneOnly), limits, oneOnly)
  {
    if es != [] {
      var init := es[..|es| - 1];
      WalkFacts(init, limits, oneOnly);
      ConsumeKeepsShape(init, es[|es| - 1], limits, oneOnly);
      assert init + [es[|es| - 1]] == es;
    }
  }

  /** Every entry before the stopping point is consumed, and exactly the short ones among them are written, in order. */
  lemma WrittenAreTheKeptPrefix(es: seq<Entry>, limits: Limits, oneOnly: bool)
    ensures var b := Build(es, limits, oneOnly);
      b.consumed <= |es| && b.written == Kept(es[..b.consumed], limits)
  {
    WalkFacts(es, limits, oneOnly);
  }

  lemma {:induction false} KeptMember(es: seq<Entry>, limits: Limits, e: Entry)
    ensures e in Kept(es, limits) <==> e in es && !Oversized(e, limits)
  {
    if es != [] {
      var init := es[..|es| - 1];
      KeptMember(init, limits, e);
      assert es == init + [es[|es| - 1]];
    }
  }

  lemma {:induction false} KeptEmpty(es: seq<Entry>, limits: Limits)
    requires Kept(es, limits) == []
    ensures forall i :: 0 <= i < |es| ==> Oversized(es[i], limits)
  {
    forall i | 0 <= i < |es|
      ensures Oversized(es[i], limits)
    {
      KeptMember(es, limits, es[i]);
    }
  }

  /**
    An oversized entry is never written. The walk never stops right in front of
    one except in single mode after its one write, and when it is the last
    entry consumed its key is the one reported back.
  */
  lemma OversizedSkipped(es: seq<Entry>, limits: Limits, oneOnly: bool, i: nat)
    requires i < |es| && Oversized(es[i], limits)
    ensures var b := Build(es, limits, oneOnly);
      && es[i] !in b.written
      && (b.consumed == i ==> oneOnly && |b.written| == 1)
      && (b.consumed == i + 1 ==> b.lastIncluded == es[i].key)
  {
    var w := WalkAll(es, limits, oneOnly);
    WalkFacts(es, limits, oneOnly);
    KeptMember(es[..w.consumed], limits, es[i]);
  }

  /**
    The key reported back is that of the last entry consumed, and a non-empty
    input always has at least one consumed entry (the first is taken whatever
    its size).
  */
  lemma LastIncludedIsLastConsumed(es: seq<Entry>, limits: Limits, oneOnly: bool)
    requires |es| > 0
    ensures var b := Build(es, limits, oneOnly);
      1 <= b.consumed <= |es| && b.lastIncluded == es[b.consumed - 1].key
  {
    WalkFacts(es, limits, oneOnly);
  }

  /**
    The walk stops before entry `consumed` only in single mode after one write,
    or when that entry is short enough but the body with it would exceed the
    payload limit while something has already been consumed.
  */
  lemma StopsOnlyForAReason(es: seq<Entry>, limits: Limits, oneOnly: bool)
    ensures var w := WalkAll(es, limits, oneOnly);
      w.consumed < |es| ==> StopReason(es, w, limits, oneOnly)
  {
    WalkFacts(es, limits, oneOnly);
  }

  /** In single mode at most one entry is written; only oversized entries are skipped before it. */
  lemma SingleModeWritesAtMostOne(es: seq<Entry>, limits: Limits)
    ensures var b := Build(es, limits, true);
      && |b.written| <= 1
      && (|b.written| == 1 ==>
            && 1 <= b.consumed <= |es|
            && b.written[0] == es[b.consumed - 1]
            && forall i :: 0 <= i < b.consumed - 1 ==> Oversized(es[i], limits))
  {
    var w := WalkAll(es, limits, true);
    WalkFacts(es, limits, true);
    if |w.written| == 1 {
      var p := es[..w.consumed];
      var front := p[..|p| - 1];
      assert p == front + [p[|p| - 1]];
      assert p[|p| - 1] == w.written[0];
      KeptMember(p, limits, w.written[0]);
      assert Kept(p, limits) == Kept(front, limits) + [w.written[0]];
      assert Kept(front, limits) == [];
      KeptEmpty(front, limits);
      forall i | 0 <= i < w.consumed - 1
        ensures Oversized(es[i], limits)
      {
        assert front[i] == es[i];
      }
    }
  }

  /** TotalBytes grows by the appended entry's size. */
  lemma TotalBytesAppend(es: seq<Entry>, e: Entry)
    ensures TotalBytes(es + [e]) == TotalBytes(es) + |e.value|
  {
    assert (es + [e])[..|es|] == es;
  }

  /** The budget fact each walk keeps: the body fits, or it holds nothing, or it holds only the first entry. */
  ghost predicate FitsOrFirst(es: seq<Entry>, w: Walk, limits: Limits)
  {
    |Frame(w.written)| <= limits.rawPayloadLimitBytes || w.written == [] || (|es| > 0 && w.written == [es[0]])
  }

  lemma {:induction false} WalkFitsOrFirst(es: seq<Entry>, limits: Limits, oneOnly: bool)
    requires KeysPositive(es)
    ensures FitsOrFirst(es, WalkAll(es, limits, oneOnly), limits)
  {
    if es != [] {
      var init := es[..|es| - 1];
      var e := es[|es| - 1];
      assert KeysPositive(init);
      WalkFitsOrFirst(init, limits, oneOnly);
      WalkFacts(init, limits, oneOnly);
      var w0 := WalkAll(init, limits, oneOnly);
      if !w0.stopped && !Oversized(e, limits) && w0.lastIncluded == 0 {
        // nothing consumed yet, so this is the first entry and it is written whatever its size
        assert w0.consumed == 0 && init == [];
      } else if w0.written != [] && !(|Frame(w0.written)| <= limits.rawPayloadLimitBytes) {
        assert w0.written == [init[0]] && init[0] == es[0];
      }
    }
  }

  /**
    The body never exceeds the payload limit, except when it carries nothing
    but the envelope or carries only the first entry, which is written while
    nothing has been consumed whatever its size. Needs the buffer's rule that no
    key is 0.
  */
  lemma WithinBudget(es: seq<Entry>, limits: Limits, oneOnly: bool)
    requires KeysPositive(es)
    ensures var b := Build(es, limits, oneOnly);
      || |b.payload| <= limits.rawPayloadLimitBytes
      || (b.written == [] && |b.payload| == 13)
      || (|es| > 0 && b.written == [es[0]] && |b.payload| == 13 + |es[0].value|)
  {
    var w := WalkAll(es, limits, oneOnly);
    WalkFitsOrFirst(es, limits, oneOnly);
    FrameLength(w.written);
    if |es| > 0 && w.written == [es[0]] {
      assert w.written == [] + [es[0]];
      TotalBytesAppend([], es[0]);
    }
  }

  /**
    When some entry is short enough and the limits leave room for one event of
    the largest allowed size, the Events array is not empty.
  */
  lemma SomethingWrittenWhenAnEntryFits(es: seq<Entry>, limits: Limits, oneOnly: bool)
    requires exists i :: 0 <= i < |es| && !Oversized(es[i], limits)
    requires limits.eventBodyLimitBytes + 13 <= limits.rawPayloadLimitBytes
    ensures |Build(es, limits, oneOnly).written| >= 1
  {
    var w := WalkAll(es, limits, oneOnly);
    WalkFacts(es, limits, oneOnly);
    if w.consumed == |es| {
      var i :| 0 <= i < |es| && !Oversized(es[i], limits);
      assert es[..w.consumed] == es;
      KeptMember(es, limits, es[i]);
    } else if !(oneOnly && |w.written| == 1) {
      var e := es[w.consumed];
      FrameLength(w.written + [e]);
      TotalBytesAppend(w.written, e);
    }
  }

  /** The walk over one more entry of `entries` is one more Consume. */
  lemma WalkStep(entries: seq<Entry>, i: nat, limits: Limits, oneOnly: bool)
    requires i < |entries|
    ensures WalkAll(entries[..i + 1], limits, oneOnly) ==
      Consume(WalkAll(entries[..i], limits, oneOnly), entries[i], limits, oneOnly)
  {
    assert entries[..i + 1][..i] == entries[..i];
  }

  /** The body grows by the separator and the value. */
  lemma FrameAppendLength(ws: seq<Entry>, e: Entry)
    ensures |Frame(ws + [e])| == |Frame(ws)| + (if ws == [] then 0 else 1) + |e.value|
  {
    JoinAppend(ws, e);
  }

  /** The loop's skip branch. */
  lemma SkipStep(entries: seq<Entry>, i: nat, limits: Limits, oneOnly: bool, w: Walk)
    requires i < |entries| && w == WalkAll(entries[..i], limits, oneOnly) && !w.stopped
    requires Oversized(entries[i], limits)
    ensures WalkAll(entries[..i + 1], limits, oneOnly) == Walk(entries[i].key, w.written, w.consumed + 1, false)
  {
    WalkStep(entries, i, limits, oneOnly);
  }

  /** The loop's budget break: the walk stops here for good. */
  lemma BudgetBreakStep(entries: seq<Entry>, i: nat, limits: Limits, oneOnly: bool, w: Walk)
    requires i < |entries| && w == WalkAll(entries[..i], limits, oneOnly) && !w.stopped
    requires !Oversized(entries[i], limits) && w.lastIncluded != 0
    requires |Frame(w.written + [entries[i]])| > limits.rawPayloadLimitBytes
    ensures WalkAll(entries, limits, oneOnly) == w.(stopped := true)
  {
    WalkStep(entries, i, limits, oneOnly);
    StoppedStays(entries, i + 1, limits, oneOnly);
  }

  /** The loop's write branch; in single mode the walk stops after it for good. */
  lemma WriteStep(entries: seq<Entry>, i: nat, limits: Limits, oneOnly: bool, w: Walk)
    requires i < |entries| && w == WalkAll(entries[..i], limits, oneOnly) && !w.stopped
    requires !Oversized(entries[i], limits)
    requires !(w.lastIncluded != 0 && |Frame(w.written + [entries[i]])| > limits.rawPayloadLimitBytes)
    ensures WalkAll(entries[..i + 1], limits, oneOnly) == Walk(entries[i].key, w.written + [entries[i]], w.consumed + 1, oneOnly)
    ensures oneOnly ==> WalkAll(entries, limits, oneOnly) == Walk(entries[i].key, w.written + [entries[i]], w.consumed + 1, true)
  {
    WalkStep(entries, i, limits, oneOnly);
    if oneOnly {
      StoppedStays(entries, i + 1, limits, oneOnly);
    }
  }

  lemma ConcatAssoc(h: seq<byte>, j: seq<byte>, d: seq<byte>, v: seq<byte>)
    ensures h + j + d + v == h + (j + d + v)
  {
  }

  /** The batch is framed from where the walk over all entries ends. */
  lemma BuildOfWalk(entries: seq<Entry>, limits: Limits, oneOnly: bool, final: Walk)
    requires WalkAll(entries, limits, oneOnly) == final
    ensures Build(entries, limits, oneOnly).payload == Header + Join(final.written) + Trailer
    ensures Build(entries, limits, oneOnly).lastIncluded == final.lastIncluded
  {
  }

  /**
    The builder's loop. `contentRemainingBytes` starts at the limit less the
    13 envelope bytes and pays for each separator and value as it is written.
  */
  method MakePayload(entries: seq<Entry>, limits: Limits, oneOnly: bool) returns (payload: seq<byte>, lastIncluded: nat)
    requires |entries| > 0
    ensures payload == Build(entries, limits, oneOnly).payload
    ensures lastIncluded == Build(entries, limits, oneOnly).lastIncluded
  {
    lastIncluded := 0;
    var raw := Header;
    var contentRemainingBytes: int := limits.rawPayloadLimitBytes - 13;
    var delimStart: seq<byte> := [];
    ghost var written: seq<Entry> := [];
    ghost var final: Walk;
    var i := 0;
    while i < |entries|
      invariant 0 <= i <= |entries|
      invariant WalkAll(entries[..i], limits, oneOnly) == Walk(lastIncluded, written, i, false)
      invariant raw == Header + Join(written)
      invariant delimStart == if written == [] then [] else Comma
      invariant contentRemainingBytes == limits.rawPayloadLimitBytes - |Frame(written)|
    {
      var e := entries[i];
      ghost var w := Walk(lastIncluded, written, i, false);
      if Oversized(e, limits) {
        SkipStep(entries, i, limits, oneOnly, w);
        lastIncluded := e.key;
        i := i + 1;
        continue;
      }
      FrameAppendLength(written, e);
      if lastIncluded != 0 && contentRemainingBytes - (|delimStart| + |e.value|) < 0 {
        BudgetBreakStep(entries, i, limits, oneOnly, w);
        final := w.(stopped := true);
        break;
      }
      WriteStep(entries, i, limits, oneOnly, w);
      JoinAppend(written, e);
      ConcatAssoc(Header, Join(written), delimStart, e.value);
      raw := raw + delimStart;
      contentRemainingBytes := contentRemainingBytes - |delimStart|;
      raw := raw + e.value;
      contentRemainingBytes := contentRemainingBytes - |e.value|;
      lastIncluded := e.key;
      written := written + [e];
      delimStart := Comma;
      if oneOnly {
        final := Walk(lastIncluded, written, i + 1, true);
        break;
      }
      i := i + 1;
    }
    if i == |entries| {
      assert entries[..i] == entries;
      final := Walk(lastIncluded, written, i, false);
    }
    assert WalkAll(entries, limits, oneOnly) == final;
    BuildOfWalk(entries, limits, oneOnly, final);
    assert final.lastIncluded == lastIncluded && final.written == written;
    raw := raw + Trailer;
    payload := raw;
  }

  /**
    An oversized first entry followed by one that does not fit yields an empty
    Events array, not a failure: the skipped entry's key is reported and only
    it is consumed.
  */
  lemma EmptyEventsAfterSkip(es: seq<Entry>, limits: Limits, oneOnly: bool)
    requires |es| >= 2 && es[0].key > 0
    requires Oversized(es[0], limits) && !Oversized(es[1], limits)
    requires 13 + |es[1].value| > limits.rawPayloadLimitBytes
    ensures var b := Build(es, limits, oneOnly);
      b.written == [] && b.payload == Header + Trailer && b.lastIncluded == es[0].key && b.consumed == 1
  {
    assert es[..1] == [es[0]];
    assert WalkAll(es[..1], limits, oneOnly) == Walk(es[0].key, [], 1, false);
    FrameLength([es[1]]);
    TotalBytesAppend([], es[1]);
    assert [] + [es[1]] == [es[1]];
    BudgetBreakStep(es, 1, limits, oneOnly, Walk(es[0].key, [], 1, false));
  }

  /**
    The first bytes StreamWriter emits when built over an empty stream with
    Encoding.UTF8: the UTF-8 byte order mark.
  */
  const Utf8Preamble: seq<byte> := [0xEF, 0xBB, 0xBF]

  /** The stream MakePayload produces as written: the preamble goes out ahead of the envelope, outside the budget. */
  function AsWrittenStream(es: seq<Entry>, limits: Limits, oneOnly: bool): seq<byte>
  {
    Utf8Preamble + Build(es, limits, oneOnly).payload
  }

  /**
    One event that exactly fills the budget: the body is exactly at the limit,
    and the stream as written is three bytes over it.
  */
  lemma AsWrittenStreamOverrunsLimit(e: Entry, eventBodyLimit: nat)
    requires e.key > 0 && |e.value| <= eventBodyLimit
    ensures var limits := Limits(eventBodyLimit, 13 + |e.value|);
      && |Build([e], limits, false).payload| == limits.rawPayloadLimitBytes
      && |AsWrittenStream([e], limits, false)| == limits.rawPayloadLimitBytes + 3
  {
    var limits := Limits(eventBodyLimit, 13 + |e.value|);
    assert [e][..0] == [];
    assert WalkAll([e], limits, false) == Walk(e.key, [e], 1, false);
    FrameLength([e]);
    assert TotalBytes([e]) == |e.value| by {
      assert [e] == [] + [e];
      TotalBytesAppend([], e);
    }
  }
}
