/**
 * XEFColorWriter: passes the uncompressed colour frames to a 1920x1080,
 * 30 fps YUYV 4:2:2 to MPEG-4 VideoWriter at 4 Mbit/s, each timed relative
 * to the first colour event, and keeps the event count and start/end times.
 */
module ColorWriter {
  import opened Bytes
  import opened XefObjects
  import opened WriterClock
  import opened VideoOutput
  import StreamTypeIds

  const ColorWidth: int := 1920
  const ColorHeight: int := 1080
  const ColorFramerate: int := 30
  const ColorBitrate: int := 4000000

  class XefColorWriter {
    const path: string
    /** _writer, the video writer the frames go to. */
    const video: VideoWriter
    /** EventCount, a long. */
    var eventCount: int
    /** StartTime and EndTime, in ticks. */
    var startTime: int
    var endTime: int
    var seenEvent: bool
    var disposed: bool
    /** The payloads and times of the colour events processed, in order. */
    ghost var frames: seq<seq<Byte>>
    ghost var times: seq<int>

    /** Duration: EndTime - StartTime. */
    function Duration(): int
      reads this
    {
      endTime - startTime
    }

    /** Duration spans the colour events: the last one's time less the first one's, 0 before any. */
    lemma DurationSpansEvents()
      requires Valid()
      ensures Duration() == if times == [] then 0 else times[|times| - 1] - times[0]
    {
      StartAndEnd(times);
    }

    /**
     * The count is the number of colour events in long arithmetic, the time
     * fields follow their times, and the video has frames once a colour
     * event has been seen.
     */
    ghost predicate Valid()
      reads this, video
    {
      |times| == |frames| && eventCount == EventCountAfter(|frames|)
      && Span(seenEvent, startTime, endTime) == SpanOf(times)
      && video.Valid() && video.framerate == ColorFramerate && video.disposed == disposed
      && (seenEvent <==> video.written != [])
    }

    constructor(path: string)
      ensures Valid() && fresh(video) && frames == [] && eventCount == 0 && startTime == 0 && endTime == 0
      ensures video.inputFormat == YUYV422 && video.outputFormat == MPEG4
      ensures video.width == ColorWidth && video.height == ColorHeight && video.bitrate == ColorBitrate
    {
      this.path := path;
      eventCount := 0;
      startTime := 0;
      endTime := 0;
      seenEvent := false;
      disposed := false;
      video := new VideoWriter(path, YUYV422, MPEG4, ColorWidth, ColorHeight, ColorFramerate, ColorBitrate);
      frames := [];
      times := [];
    }

    /**
     * ProcessEvent: an event of another stream type changes nothing; a
     * colour event sets the start time if it is the first, sets the end
     * time, goes to the video writer at its time relative to the start, and
     * is counted.
     */
    method ProcessEvent(ev: XefEvent)
      requires Valid() && !disposed && ev.eventStream != null
      modifies this, video
      ensures Valid() && !disposed
      ensures ev.EventStreamDataTypeId() != StreamTypeIds.UncompressedColor ==>
        frames == old(frames) && times == old(times) && eventCount == old(eventCount)
        && startTime == old(startTime) && endTime == old(endTime) && video.written == old(video.written)
      ensures ev.EventStreamDataTypeId() == StreamTypeIds.UncompressedColor ==>
        frames == old(frames) + [ev.eventData] && times == old(times) + [ev.relativeTime]
        && startTime == (if old(seenEvent) then old(startTime) else ev.relativeTime) && endTime == ev.relativeTime
        && video.written == old(video.written) + Paced(ColorFramerate, old(video.written), ev.eventData, ev.relativeTime - startTime)
        && (!old(seenEvent) ==> video.written == [ev.eventData])
        && eventCount == Inc64(old(eventCount))
    {
      if ev.EventStreamDataTypeId() != StreamTypeIds.UncompressedColor {
        return;
      }
      if !seenEvent {
        startTime := ev.relativeTime;
        seenEvent := true;
      }
      endTime := ev.relativeTime;
      var f, t := ev.eventData, ev.relativeTime;
      CountAndSpanStep(times, t);
      video.WriteTimedFrame(f, t - startTime);
      eventCount := Inc64(eventCount);
      frames := frames + [f];
      times := times + [t];
    }

    /** Dispose: the first call closes the video writer; the counts and times stay. */
    method Dispose()
      requires Valid()
      modifies this, video
      ensures Valid() && disposed && eventCount == old(eventCount) && frames == old(frames)
      ensures startTime == old(startTime) && endTime == old(endTime)
      ensures video.written == old(video.written)
    {
      if !disposed {
        video.Dispose();
        disposed := true;
      }
    }
  }
}
