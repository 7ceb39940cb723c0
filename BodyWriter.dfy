/**
 * XEFBodyWriter: counts every event it is given and keeps StartTime and
 * EndTime. StartTime is taken from an event whenever it is still
 * TimeSpan.Zero, so an event at time 0 does not fix it: the next event's
 * time replaces it (see BodyStartSkipsZeroTime).
 */
module BodyWriter {
  import opened Bytes
  import opened XefObjects
  import opened WriterClock

  /** StartTime after events at these times: each one sets it while it is still 0. */
  function BodyStartAfter(times: seq<int>): int
  {
    if times == [] then 0
    else
      var s := BodyStartAfter(times[..|times| - 1]);
      if s == 0 then times[|times| - 1] else s
  }

  /** StartTime is the first non-zero time, once there is one. */
  lemma {:induction false} BodyStartFirstNonZero(times: seq<int>, i: nat)
    requires i < |times| && times[i] != 0
    requires forall j :: 0 <= j < i ==> times[j] == 0
    ensures BodyStartAfter(times) == times[i]
    decreases |times|
  {
    var init := times[..|times| - 1];
    if i < |times| - 1 {
      BodyStartFirstNonZero(init, i);
    } else {
      BodyStartWhileZero(init);
    }
  }

  /** While every time is 0, StartTime stays 0. */
  lemma {:induction false} BodyStartWhileZero(times: seq<int>)
    requires forall j :: 0 <= j < |times| ==> times[j] == 0
    ensures BodyStartAfter(times) == 0
    decreases |times|
  {
    if times != [] {
      BodyStartWhileZero(times[..|times| - 1]);
    }
  }

  /**
   * StartTime is the first event's time, as the colour and depth writers
   * keep it, whenever that time is not 0.
   */
  lemma BodyStartAgrees(times: seq<int>)
    requires times != [] && times[0] != 0
    ensures BodyStartAfter(times) == SpanOf(times).start == times[0]
  {
    BodyStartFirstNonZero(times, 0);
    StartAndEnd(times);
  }

  /** A first event at time 0 does not fix StartTime: after events at 0 and 5 it is 5, not 0. */
  lemma BodyStartSkipsZeroTime()
    ensures BodyStartAfter([0, 5]) == 5
    ensures SpanOf([0, 5]).start == 0
  {
    var times := [0, 5];
    BodyStartFirstNonZero(times, 1);
    StartAndEnd(times);
  }

  class XefBodyWriter {
    const path: string
    /** EventCount, a long. */
    var eventCount: int
    /** StartTime and EndTime, in ticks. */
    var startTime: int
    var endTime: int
    var disposed: bool
    /** The times of the events processed, in order. */
    ghost var times: seq<int>

    /** Duration: EndTime - StartTime. */
    function Duration(): int
      reads this
    {
      endTime - startTime
    }

    /** Every event is counted, StartTime is as BodyStartAfter has it, and EndTime is the last time. */
    ghost predicate Valid()
      reads this
    {
      eventCount == EventCountAfter(|times|) && startTime == BodyStartAfter(times) && endTime == SpanOf(times).end
    }

    /** Duration runs from the first non-zero time to the last time. */
    lemma DurationFromFirstNonZero(i: nat)
      requires Valid() && i < |times| && times[i] != 0
      requires forall j :: 0 <= j < i ==> times[j] == 0
      ensures Duration() == times[|times| - 1] - times[i]
    {
      BodyStartFirstNonZero(times, i);
      StartAndEnd(times);
    }

    constructor(path: string)
      ensures Valid() && !disposed && times == [] && eventCount == 0 && startTime == 0 && endTime == 0
    {
      this.path := path;
      eventCount := 0;
      startTime := 0;
      endTime := 0;
      disposed := false;
      times := [];
    }

    /**
     * ProcessEvent: any event, whatever its stream, sets StartTime if it is
     * still 0, sets EndTime, and is counted.
     */
    method ProcessEvent(ev: XefEvent)
      requires Valid()
      modifies this
      ensures Valid() && disposed == old(disposed)
      ensures times == old(times) + [ev.relativeTime]
      ensures startTime == (if old(startTime) == 0 then ev.relativeTime else old(startTime))
      ensures endTime == ev.relativeTime && eventCount == Inc64(old(eventCount))
    {
      CountAndSpanStep(times, ev.relativeTime);
      assert (times + [ev.relativeTime])[..|times|] == times;
      if startTime == 0 {
        startTime := ev.relativeTime;
      }
      endTime := ev.relativeTime;
      eventCount := Inc64(eventCount);
      times := times + [ev.relativeTime];
    }

    /** Dispose: there is nothing to close; the writer is marked disposed and nothing else changes. */
    method Dispose()
      modifies this
      ensures disposed && eventCount == old(eventCount) && times == old(times)
      ensures startTime == old(startTime) && endTime == old(endTime)
    {
      disposed := true;
    }
  }
}
