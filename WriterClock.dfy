/**
 * What the extractors' writers keep about the events they have processed:
 * EventCount, a long incremented once per event, and the StartTime/EndTime
 * pair that the first and the latest event set.
 */
module WriterClock {
  import opened Bytes

  /** EventCount after n events: EventCount++ on a long, n times over from 0. */
  function EventCountAfter(n: nat): (r: int)
    ensures Int64Min <= r <= Int64Max
  {
    if n == 0 then 0 else Inc64(EventCountAfter(n - 1))
  }

  /** The count is n in long arithmetic, so it is n itself until long.MaxValue events. */
  lemma {:induction false} EventCountWraps(n: nat)
    ensures EventCountAfter(n) == Wrap64(n)
    ensures n <= Int64Max ==> EventCountAfter(n) == n
  {
    if n > 0 {
      EventCountWraps(n - 1);
      Inc64Wraps(Wrap64(n - 1));
      Wrap64Add(n - 1, 1);
    }
  }

  /** Whether an event has been seen, StartTime and EndTime, in ticks. */
  datatype Span = Span(seen: bool, start: int, end: int)

  /** A new writer's span: both times are TimeSpan.Zero. */
  const NoSpan: Span := Span(false, 0, 0)

  /** One event at time t: the first one sets StartTime, every one sets EndTime. */
  function Extend(s: Span, t: int): Span
  {
    Span(true, if s.seen then s.start else t, t)
  }

  /** The span after events at these times, in order. */
  function SpanOf(times: seq<int>): Span
  {
    if times == [] then NoSpan else Extend(SpanOf(times[..|times| - 1]), times[|times| - 1])
  }

  /**
   * StartTime is the first event's time and EndTime the last one's; both
   * stay 0 until an event is seen.
   */
  lemma {:induction false} StartAndEnd(times: seq<int>)
    ensures SpanOf(times).seen == (times != [])
    ensures SpanOf(times).start == (if times == [] then 0 else times[0])
    ensures SpanOf(times).end == (if times == [] then 0 else times[|times| - 1])
    decreases |times|
  {
    if times != [] {
      var init := times[..|times| - 1];
      StartAndEnd(init);
      if init != [] {
        assert init[0] == times[0];
      }
    }
  }

  /** What one more event does to the count and the span. */
  lemma CountAndSpanStep(times: seq<int>, t: int)
    ensures EventCountAfter(|times + [t]|) == Inc64(EventCountAfter(|times|))
    ensures SpanOf(times + [t]) == Extend(SpanOf(times), t)
  {
    assert (times + [t])[..|times|] == times;
  }
}
