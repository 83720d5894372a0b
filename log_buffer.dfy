/**
  The durable buffer the shipper drains, seen only through the two calls the
  shipper makes on it: Peek returns the oldest entries, Dequeue(k) removes every
  entry whose key is at most k. Persistence, eviction and key allocation belong
  to the buffer itself and are not modelled.
*/
module LogBuffers {

  newtype byte = x: int | 0 <= x < 256

  /** One buffered event: its sequence number and the raw JSON bytes stored for it. */
  datatype Entry = Entry(key: nat, value: seq<byte>)

  /** Keys strictly increase from the oldest entry to the newest. */
  ghost predicate Ordered(es: seq<Entry>)
  {
    forall i, j :: 0 <= i < j < |es| ==> es[i].key < es[j].key
  }

  /** Key 0 is the "no entry" sentinel, so buffered entries never carry it. */
  ghost predicate KeysPositive(es: seq<Entry>)
  {
    forall i :: 0 <= i < |es| ==> es[i].key > 0
  }

  ghost predicate WellFormed(es: seq<Entry>)
  {
    Ordered(es) && KeysPositive(es)
  }

  /** Watermark dequeue: everything with a key at most `upTo` goes, the rest stays in order. */
  function DequeueUpTo(es: seq<Entry>, upTo: nat): (r: seq<Entry>)
    ensures |r| <= |es|
    ensures forall i :: 0 <= i < |r| ==> r[i] in es && r[i].key > upTo
    ensures forall i :: 0 <= i < |es| && es[i].key > upTo ==> es[i] in r
  {
    if es == [] then []
    else (if es[0].key <= upTo then [] else [es[0]]) + DequeueUpTo(es[1..], upTo)
  }

  /** Dequeueing up to a key that some entry carries always removes something. */
  lemma {:induction false} DequeueShrinks(es: seq<Entry>, j: nat, upTo: nat)
    requires j < |es| && es[j].key <= upTo
    ensures |DequeueUpTo(es, upTo)| < |es|
  {
    if j > 0 {
      DequeueShrinks(es[1..], j - 1, upTo);
    }
  }

  /** When every key is above the watermark nothing is removed. */
  lemma {:induction false} DequeueNothing(es: seq<Entry>, upTo: nat)
    requires forall i :: 0 <= i < |es| ==> es[i].key > upTo
    ensures DequeueUpTo(es, upTo) == es
  {
    if es != [] {
      DequeueNothing(es[1..], upTo);
      assert [es[0]] + es[1..] == es;
    }
  }

  /**
    On an ordered buffer, dequeueing up to the key of the n-th oldest entry
    removes exactly the n oldest entries.
  */
  lemma {:induction false} DequeueOrderedPrefix(es: seq<Entry>, n: nat)
    requires Ordered(es)
    requires 0 < n <= |es|
    ensures DequeueUpTo(es, es[n - 1].key) == es[n..]
  {
    if n == 1 {
      DequeueFirst(es);
    } else {
      var k := es[n - 1].key;
      var tail := es[1..];
      OrderedTail(es);
      DequeueDropsHead(es, k);
      DequeueOrderedPrefix(tail, n - 1);
      assert tail[n - 2] == es[n - 1];
      assert tail[n - 1..] == es[n..];
    }
  }

  /** An entry at or below the watermark goes. */
  lemma DequeueDropsHead(es: seq<Entry>, upTo: nat)
    requires es != [] && es[0].key <= upTo
    ensures DequeueUpTo(es, upTo) == DequeueUpTo(es[1..], upTo)
  {
    assert DequeueUpTo(es, upTo) == [] + DequeueUpTo(es[1..], upTo);
  }

  /** On an ordered buffer, dequeueing up to the oldest key removes just the oldest entry. */
  lemma DequeueFirst(es: seq<Entry>)
    requires Ordered(es) && es != []
    ensures DequeueUpTo(es, es[0].key) == es[1..]
  {
    var k := es[0].key;
    var tail := es[1..];
    forall i | 0 <= i < |tail|
      ensures tail[i].key > k
    {
      assert tail[i] == es[i + 1];
    }
    DequeueNothing(tail, k);
    DequeueDropsHead(es, k);
  }

  lemma OrderedTail(es: seq<Entry>)
    requires Ordered(es) && |es| > 0
    ensures Ordered(es[1..])
  {
    var tail := es[1..];
    forall i, j | 0 <= i < j < |tail|
      ensures tail[i].key < tail[j].key
    {
      assert tail[i] == es[i + 1] && tail[j] == es[j + 1];
    }
  }

  /** Dequeue is idempotent: a second call with the same watermark changes nothing. */
  lemma DequeueIdempotent(es: seq<Entry>, upTo: nat)
    ensures DequeueUpTo(DequeueUpTo(es, upTo), upTo) == DequeueUpTo(es, upTo)
  {
    var r := DequeueUpTo(es, upTo);
    DequeueNothing(r, upTo);
  }

  /** Removing entries keeps an ordered buffer ordered and free of the sentinel key. */
  lemma {:induction false} DequeueWellFormed(es: seq<Entry>, upTo: nat)
    requires WellFormed(es)
    ensures WellFormed(DequeueUpTo(es, upTo))
  {
    if es != [] {
      var tail := es[1..];
      OrderedTail(es);
      forall i | 0 <= i < |tail|
        ensures tail[i].key > 0 && tail[i].key > es[0].key
      {
        assert tail[i] == es[i + 1];
      }
      DequeueWellFormed(tail, upTo);
      var rest := DequeueUpTo(tail, upTo);
      assert DequeueUpTo(es, upTo) == (if es[0].key <= upTo then [] else [es[0]]) + rest;
      if es[0].key > upTo {
        forall i | 0 <= i < |rest|
          ensures es[0].key < rest[i].key
        {
          var j :| 0 <= j < |tail| && tail[j] == rest[i];
        }
        ConsWellFormed(es[0], rest);
      } else {
        assert [] + rest == rest;
      }
    }
  }

  /** An entry with a key below every key of a well-formed buffer can go in front of it. */
  lemma ConsWellFormed(e: Entry, rest: seq<Entry>)
    requires WellFormed(rest) && e.key > 0
    requires forall i :: 0 <= i < |rest| ==> e.key < rest[i].key
    ensures WellFormed([e] + rest)
  {
    var r := [e] + rest;
    forall i, j | 0 <= i < j < |r|
      ensures r[i].key < r[j].key
    {
      assert r[j] == rest[j - 1];
      if i > 0 {
        assert r[i] == rest[i - 1];
      }
    }
    forall i | 0 <= i < |r|
      ensures r[i].key > 0
    {
      if i > 0 {
        assert r[i] == rest[i - 1];
      }
    }
  }

  /** The buffer object the shipper holds; `entries` is its content, oldest first. */
  class LogBuffer {
    var entries: seq<Entry>

    ghost predicate Valid()
      reads this
    {
      WellFormed(entries)
    }

    constructor (initial: seq<Entry>)
      requires WellFormed(initial)
      ensures Valid() && entries == initial
    {
      entries := initial;
    }

    /**
      The oldest entries, without removing them. How many the buffer returns for
      a given byte limit is the buffer's own business, so the count is an input.
    */
    method Peek(count: nat) returns (available: seq<Entry>)
      ensures |available| <= |entries| && available == entries[..|available|]
      ensures |available| == if count < |entries| then count else |entries|
    {
      available := entries[..if count < |entries| then count else |entries|];
    }

    /** Removes every entry whose key is at most `upTo`. */
    method Dequeue(upTo: nat)
      requires Valid()
      modifies this
      ensures Valid()
      ensures entries == DequeueUpTo(old(entries), upTo)
    {
      DequeueWellFormed(entries, upTo);
      entries := DequeueUpTo(entries, upTo);
    }
  }
}
