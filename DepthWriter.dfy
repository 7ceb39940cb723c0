/**
 * XEFDepthWriter: the depth extractor's .dat file. A 20-byte header (the
 * event count as a long, then width, height and frame size as uints) is
 * followed, for each depth event, by the event's index as a long and its
 * payload. The count is written as 0 when the file is created and patched in
 * place by the first Dispose.
 */
module DepthWriter {
  import opened Bytes
  import opened OutputFields
  import opened XefObjects
  import opened WriterClock
  import StreamTypeIds

  const DepthWidth: nat := 512
  const DepthHeight: nat := 424
  /** Two bytes per pixel: 512 * 424 * 2. */
  const DepthFrameSize: nat := 434176
  const HeaderSize: nat := 20
  /** The long written before each payload. */
  const IndexSize: nat := 8
  /** A depth event's record: its index, then a full frame. */
  const RecordSize: nat := 434184

  /** WriteHeaders' bytes, given the EventCount written in the first eight. */
  function HeaderBytes(eventCount: int): (r: seq<Byte>)
    ensures |r| == HeaderSize
  {
    SignedBytes(eventCount, 8) + HeaderTail()
  }

  /** The header reads back as a long count, then width, height and frame size. */
  lemma HeaderLayout(eventCount: int)
    requires Int64Min <= eventCount <= Int64Max
    ensures var h := HeaderBytes(eventCount);
      I64At(h, 0) == eventCount && U32At(h, 8) == DepthWidth && U32At(h, 12) == DepthHeight
      && U32At(h, 16) == DepthFrameSize && DepthFrameSize == DepthWidth * DepthHeight * 2
  {
    var h := HeaderBytes(eventCount);
    var p, w, t, z := SignedBytes(eventCount, 8), LeBytes(DepthWidth, 4), LeBytes(DepthHeight, 4), LeBytes(DepthFrameSize, 4);
    HeaderSlices(p, w, t, z);
    Pow256Values();
    SignedBytesRead(eventCount, 8);
    LeUintOfLeBytes(DepthWidth, 4);
    LeUintOfLeBytes(DepthHeight, 4);
    LeUintOfLeBytes(DepthFrameSize, 4);
  }

  lemma HeaderSlices(p: seq<Byte>, a: seq<Byte>, b: seq<Byte>, c: seq<Byte>)
    requires |p| == 8 && |a| == 4 && |b| == 4 && |c| == 4
    ensures var h := p + (a + b + c);
      h[0..8] == p && h[8..12] == a && h[12..16] == b && h[16..20] == c
  {
  }

  /** The header's last twelve bytes: width, height and frame size. */
  function HeaderTail(): (r: seq<Byte>)
    ensures |r| == 12
  {
    LeBytes(DepthWidth, 4) + LeBytes(DepthHeight, 4) + LeBytes(DepthFrameSize, 4)
  }

  /** UpdateFrameCount's write: a new count over the first eight bytes, in the header and in the file. */
  lemma HeaderPatch(before: int, after: int, records: seq<Byte>)
    ensures Overwrite(HeaderBytes(before), 0, SignedBytes(after, 8)) == HeaderBytes(after)
    ensures Overwrite(HeaderBytes(before) + records, 0, SignedBytes(after, 8)) == HeaderBytes(after) + records
  {
    var p, q, t := SignedBytes(before, 8), SignedBytes(after, 8), HeaderTail();
    assert HeaderBytes(before) == p + t && HeaderBytes(after) == q + t;
    PrefixOverwrite(p, t, q);
    AppendAssoc(p, t, records);
    AppendAssoc(q, t, records);
    PrefixOverwrite(p, t + records, q);
  }

  /** Writing over the first run of bytes with as many bytes replaces that run. */
  lemma PrefixOverwrite(p: seq<Byte>, rest: seq<Byte>, q: seq<Byte>)
    requires |q| == |p|
    ensures Overwrite(p + rest, 0, q) == q + rest
  {
    assert (p + rest)[|q|..] == rest;
  }

  /** One depth event as written: its index as a long, then its payload. */
  function Record(index: int, payload: seq<Byte>): (r: seq<Byte>)
    ensures |r| == IndexSize + |payload|
  {
    SignedBytes(index, 8) + payload
  }

  function RecordParts(frames: seq<seq<Byte>>): (r: seq<seq<Byte>>)
    ensures |r| == |frames|
  {
    seq(|frames|, k requires 0 <= k < |frames| => Record(EventCountAfter(k), frames[k]))
  }

  /** The records after the header: the k-th payload under the index k, in long arithmetic. */
  function Records(frames: seq<seq<Byte>>): seq<Byte>
  {
    Joined(RecordParts(frames))
  }

  lemma RecordsSnoc(frames: seq<seq<Byte>>, f: seq<Byte>)
    ensures Records(frames + [f]) == Records(frames) + Record(EventCountAfter(|frames|), f)
  {
    var ps := RecordParts(frames + [f]);
    assert ps[..|frames|] == RecordParts(frames) by {
      forall k | 0 <= k < |frames|
        ensures ps[k] == RecordParts(frames)[k]
      {
        assert (frames + [f])[k] == frames[k];
      }
    }
    assert ps[|frames|] == Record(EventCountAfter(|frames|), f) by {
      assert (frames + [f])[|frames|] == f;
    }
    var init := ps[..|frames|];
    assert Joined(init) == Records(frames);
    assert Records(frames + [f]) == Joined(init) + ps[|frames|];
  }

  /**
   * With every payload a full depth frame, record k starts k whole records
   * after the header: its index reads back as k (in long arithmetic) and
   * its payload follows.
   */
  lemma FileLayout(eventCount: int, frames: seq<seq<Byte>>, k: nat)
    requires forall j :: 0 <= j < |frames| ==> |frames[j]| == DepthFrameSize
    requires k < |frames|
    ensures var f, o := HeaderBytes(eventCount) + Records(frames), HeaderSize + RecordSize * k;
      o + RecordSize <= |f|
      && I64At(f, o) == EventCountAfter(k)
      && f[o + IndexSize..o + RecordSize] == frames[k]
  {
    var parts := RecordParts(frames);
    var h, a, c := HeaderBytes(eventCount), Joined(parts[..k]), Joined(parts[k + 1..]);
    var o := HeaderSize + RecordSize * k;
    var f := h + Records(frames);
    assert |a| == RecordSize * k by {
      forall j | 0 <= j < k
        ensures |parts[..k][j]| == RecordSize
      {
      }
      JoinedLength(parts[..k], RecordSize);
    }
    assert f == (h + a) + parts[k] + c by {
      JoinedSplit(parts, k);
      AppendAssoc(h, a + parts[k], c);
      AppendAssoc(h, a, parts[k]);
    }
    RecordAt(h + a, parts[k], c, o, EventCountAfter(k), frames[k]);
    I64Read(f, o, EventCountAfter(k));
  }

  lemma RecordAt(a: seq<Byte>, r: seq<Byte>, c: seq<Byte>, o: nat, index: int, payload: seq<Byte>)
    requires |a| == o && r == Record(index, payload) && |payload| == DepthFrameSize
    ensures o + RecordSize <= |a + r + c|
    ensures (a + r + c)[o..o + IndexSize] == SignedBytes(index, 8)
    ensures (a + r + c)[o + IndexSize..o + RecordSize] == payload
  {
  }

  /** _depthStartTime after depth events at these times: -1, then the first non-negative time. */
  function DepthStartOf(times: seq<int>): int
  {
    if times == [] then -1
    else
      var d := DepthStartOf(times[..|times| - 1]);
      if d < 0 then times[|times| - 1] else d
  }

  /** _depthStartTime is the first non-negative time, once one has been seen. */
  lemma {:induction false} DepthStartFirstNonNegative(times: seq<int>, i: nat)
    requires i < |times| && 0 <= times[i]
    requires forall j :: 0 <= j < i ==> times[j] < 0
    ensures DepthStartOf(times) == times[i]
    decreases |times|
  {
    var init := times[..|times| - 1];
    if i < |times| - 1 {
      DepthStartFirstNonNegative(init, i);
    } else {
      DepthStartWhileNegative(init);
    }
  }

  /** While every time is negative, _depthStartTime stays negative. */
  lemma {:induction false} DepthStartWhileNegative(times: seq<int>)
    requires forall j :: 0 <= j < |times| ==> times[j] < 0
    ensures DepthStartOf(times) < 0
    decreases |times|
  {
    if times != [] {
      DepthStartWhileNegative(times[..|times| - 1]);
    }
  }

  /** What one more depth event does to the functions the writer's state is kept against. */
  lemma DepthStep(frames: seq<seq<Byte>>, times: seq<int>, f: seq<Byte>, t: int)
    ensures Records(frames + [f]) == Records(frames) + Record(EventCountAfter(|frames|), f)
    ensures EventCountAfter(|frames + [f]|) == Inc64(EventCountAfter(|frames|))
    ensures SpanOf(times + [t]) == Extend(SpanOf(times), t)
    ensures DepthStartOf(times + [t]) == (if DepthStartOf(times) < 0 then t else DepthStartOf(times))
  {
    RecordsSnoc(frames, f);
    assert (times + [t])[..|times|] == times;
    assert (frames + [f])[..|frames|] == frames;
  }

  class XefDepthWriter {
    /** EventCount, a long. */
    var eventCount: int
    /** StartTime and EndTime, in ticks. */
    var startTime: int
    var endTime: int
    var seenEvent: bool
    var depthStartTime: int
    var disposed: bool
    /** The bytes written to the .dat file: the header, then one record per depth event. */
    var file: seq<Byte>
    /** The payloads and times of the depth events written, in order. */
    ghost var frames: seq<seq<Byte>>
    ghost var times: seq<int>

    /** Duration: EndTime - StartTime. */
    function Duration(): int
      reads this
    {
      endTime - startTime
    }

    /** Duration spans the depth events: the last one's time less the first one's, 0 before any. */
    lemma DurationSpansEvents()
      requires Valid()
      ensures Duration() == if times == [] then 0 else times[|times| - 1] - times[0]
    {
      StartAndEnd(times);
    }

    /**
     * The count is the number of depth events (in long arithmetic), the
     * time fields are those the depth events' times lead to (StartAndEnd
     * and DepthStartFirstNonNegative say what they hold), every depth event
     * has its record, and the header carries 0 until the first Dispose
     * writes the final count.
     */
    ghost predicate Valid()
      reads this
    {
      |times| == |frames| && eventCount == EventCountAfter(|frames|)
      && Span(seenEvent, startTime, endTime) == SpanOf(times) && depthStartTime == DepthStartOf(times)
      && file == HeaderBytes(if disposed then eventCount else 0) + Records(frames)
    }

    constructor()
      ensures Valid() && !disposed && frames == [] && eventCount == 0
      ensures startTime == 0 && endTime == 0 && file == HeaderBytes(0)
    {
      eventCount := 0;
      startTime := 0;
      endTime := 0;
      seenEvent := false;
      depthStartTime := -1;
      disposed := false;
      file := HeaderBytes(0);
      frames := [];
      times := [];
    }

    /**
     * ProcessEvent: an event of another stream type changes nothing; a
     * depth event sets the start time if it is the first, sets the end
     * time, appends its record under the current count and counts it.
     */
    method ProcessEvent(ev: XefEvent)
      requires Valid() && !disposed && ev.eventStream != null
      modifies this
      ensures Valid() && !disposed
      ensures ev.EventStreamDataTypeId() != StreamTypeIds.Depth ==>
        frames == old(frames) && times == old(times) && file == old(file) && eventCount == old(eventCount)
        && startTime == old(startTime) && endTime == old(endTime)
      ensures ev.EventStreamDataTypeId() == StreamTypeIds.Depth ==>
        frames == old(frames) + [ev.eventData] && times == old(times) + [ev.relativeTime]
        && file == old(file) + Record(old(eventCount), ev.eventData)
        && eventCount == Inc64(old(eventCount))
        && startTime == (if old(seenEvent) then old(startTime) else ev.relativeTime) && endTime == ev.relativeTime
    {
      if ev.EventStreamDataTypeId() != StreamTypeIds.Depth {
        return;
      }
      if !seenEvent {
        startTime := ev.relativeTime;
        seenEvent := true;
      }
      endTime := ev.relativeTime;
      if depthStartTime < 0 {
        depthStartTime := ev.relativeTime;
      }
      var f, t := ev.eventData, ev.relativeTime;
      DepthStep(frames, times, f, t);
      AppendAssoc(HeaderBytes(0), Records(frames), Record(eventCount, f));
      assert Span(seenEvent, startTime, endTime) == Extend(SpanOf(times), t);
      file := file + Record(eventCount, f);
      eventCount := Inc64(eventCount);
      frames := frames + [f];
      times := times + [t];
    }

    /** UpdateFrameCount: the count is written over the first eight bytes; nothing else changes. */
    method UpdateFrameCount()
      requires Valid()
      modifies this
      ensures file == Overwrite(old(file), 0, SignedBytes(eventCount, 8))
      ensures file == HeaderBytes(eventCount) + Records(frames)
      ensures eventCount == old(eventCount) && frames == old(frames) && times == old(times)
      ensures startTime == old(startTime) && endTime == old(endTime) && seenEvent == old(seenEvent)
      ensures depthStartTime == old(depthStartTime) && disposed == old(disposed)
    {
      HeaderPatch(if disposed then eventCount else 0, eventCount, Records(frames));
      file := Overwrite(file, 0, SignedBytes(eventCount, 8));
    }

    /** Dispose: the first call writes the final count into the header; later calls change nothing. */
    method Dispose()
      requires Valid()
      modifies this
      ensures Valid() && disposed && frames == old(frames) && eventCount == old(eventCount)
      ensures old(disposed) ==> file == old(file)
      ensures !old(disposed) ==> file == Overwrite(old(file), 0, SignedBytes(eventCount, 8))
      ensures file == HeaderBytes(eventCount) + Records(frames)
    {
      if !disposed {
        UpdateFrameCount();
        disposed := true;
      }
    }
  }
}
