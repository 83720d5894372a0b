/**
  The exponential-backoff schedule, seen only through the calls the shipper
  makes on it. How the next interval is computed is the schedule's own business
  and is not modelled; the object records the order of MarkSuccess and
  MarkFailure calls.
*/
module ConnectionSchedules {

  datatype Mark = MarkedSuccess | MarkedFailure

  class ConnectionSchedule {
    /** The quiet period the schedule was created with, in milliseconds. */
    const quietPeriodMs: nat
    /** Every MarkSuccess or MarkFailure call so far, oldest first. */
    var calls: seq<Mark>

    constructor (quietPeriod: nat)
      ensures quietPeriodMs == quietPeriod && calls == []
    {
      quietPeriodMs := quietPeriod;
      calls := [];
    }

    method MarkSuccess()
      modifies this
      ensures calls == old(calls) + [MarkedSuccess]
    {
      calls := calls + [MarkedSuccess];
    }

    method MarkFailure()
      modifies this
      ensures calls == old(calls) + [MarkedFailure]
    {
      calls := calls + [MarkedFailure];
    }
  }
}
