# KinectXEFTools in Dafny

This project models the reading core of KinectXEFTools. It also models the writers of the XEFExtract tool that turn a Kinect Studio recording (an `.xef` file) into ordinary media files.

- **The event readers.**
  - `XEFEventReader` works over a seekable file.
  - `XEFEventStreamReader` works over a forward-only stream through its `SkippableStream` wrapper.
  - Both walk the recording record by record. They:
    - register a stream the first time its index appears (a *stream description*);
    - skip the unknown records (index `EVENT_UNKRECORD_INDEX`) by probing ahead;
    - return the data records of registered or unregistered streams as `XEFEvent`s;
    - stop at the footer, whose index is one past the reported stream count.
- **The objects they build.**
  - `XEFStream` carries the stream's index, flags, tag size, name, type id and semantic id, as the readers construct it. Its event counter numbers the events.
  - `XEFEvent` takes the stream's current count as its index and bumps it.
- **The payload decoders.**
  - `XEFBodyFrame` decodes the 6288-byte body-tracking frame: two vectors, six bodies of 1040 bytes, and the quality flags.
  - `XEFAudioFrame` and `XEFAudioData` decode the audio frame: a 16-byte header, then `SubFrameCount` subframes of 14416 bytes.
- **The writers.**
  - `VideoWriter` builds the ffmpeg command line and paces frames against their timestamps.
  - `WavFileWriter` writes a PCM WAV header and the samples, then patches the sizes when disposed.
  - `XEFDepthWriter` writes the raw `.dat` depth file.
  - `XEFColorWriter` and `XEFBodyWriter` keep start time, end time and event counts.

The decoder is specified once, as pure functions over the file's bytes in module `XefDecoding`. A step there returns a value or throws a fault, and either way yields the new cursor, the end-of-stream and stream-error flags, and the stream registry. Both reader classes are imperative: their methods move a cursor over the input and update the registry of `XefStream` objects in place. Each method is proved to produce exactly the outcome of the specification function. The two readers differ in two ways, and `XefDecoding.Source` records both as flags:
- the seekable reader also ends the stream when a record ends exactly at the end of the file;
- the stream reader answers a peek from its four-byte cache.

Module `XefDecodingFacts` proves what the readers promise their callers:
- event numbering per stream;
- the registry only grows;
- the footer rule;
- filtering by type;
- termination at end of stream.

The payload decoders are read as sequences of little-endian 32-bit words. Each decoder is paired with an encoder, and a round-trip lemma shows that decoding an encoded frame gives the frame back. The writers are classes whose methods are proved to append exactly the bytes the file format prescribes.

Modules, file by file:

- `Bytes`, `Words`, `OutputFields`, `Wrappers`, `BinaryReading`: little-endian integers and C# `int`/`uint`/`long` wrap-around; byte layouts of consecutive fields; `BinaryReader` over a byte array.
- `DataConstants`, `StreamTypeIds`: the record layout constants as a `Layout` value, and the stream type GUIDs the writers filter on.
- `XefDecoding`, `XefDecodingFacts`: the decoder specification and its properties.
- `XefStream` (module `XefObjects`): the `XefStream` and `XefEvent` classes.
- `XefEventReader`, `XefEventStreamReader`: the two readers and `SkippableStream`.
- `XefBodyFrame`, `XefAudioFrame`: the payload decoders.
- `VideoWriter` (module `VideoOutput`), `WavFile`, `DepthWriter`, `ColorWriter`, `BodyWriter`, `WriterClock`: the writers and the time/count bookkeeping they share.

## Model

| member | source | states |
|---|---|---|
| XefDecoding.ReadTag | KinectXEFTools/XEFEventReader.cs:223-244 | The tag of a data record, when read, lies inside the input after the 24-byte header. |
| XefDecoding.NewEvent | KinectXEFTools/XEFEventReader.cs:224-255 | An event belongs to the key's stream and carries that stream's type id when the index is registered, and has no stream otherwise. Its frame index is the tag's first int32 when the stream's tag is 4 bytes long, and 0 otherwise. Its EventIndex is the stream's count so far, or 0 for an unregistered index. It keeps the tag and the payload it was given. |
| XefDecoding.Counted | KinectXEFTools/XEFEvent.cs:16-17 | Counting an event on a stream keeps the registry's set of indices. |
| XefDecoding.ReadRecord | KinectXEFTools/XEFEventReader.cs:201-265 | ReadDataEvent only moves the cursor forward within the input and keeps the registered indices. A null result comes with EndOfStream set. An event is read only while EndOfStream is clear and consumes at least the 24-byte key and header. It belongs to the peeked index's stream, with that stream's type id, when the index is registered. |
| XefDecoding.RecordAfterHeader | KinectXEFTools/XEFEventReader.cs:223-255 | After the header, a record either throws or yields an event of the header's stream; the cursor stays past the header. When the input cuts a 4-byte frame-index tag short, BitConverter throws ArgumentOutOfRange if no tag byte remains and Argument if 1 to 3 do. |
| XefDecoding.RecordAfterTag | KinectXEFTools/XEFEventReader.cs:246-255 | After the tag, the data read yields an event of the header's stream with that stream's type id. |
| XefDecoding.DescribedChannel | KinectXEFTools/XEFEventReader.cs:127-161 | A stream built from a description starts with EventCount 0. |
| XefDecoding.SkipCompressedExtra | KinectXEFTools/XEFEventReader.cs:144-148 | The extra record of a compressed stream only moves the cursor forward, within the input. |
| XefDecoding.ReadDescription | KinectXEFTools/XEFEventReader.cs:119-162 | A description consumes at least one 24-byte record, keeps the registered indices, and yields a stream with count 0. |
| XefDecoding.NameRecordFault | KinectXEFTools/XEFEventReader.cs:128-138 | Reading the name record's fields throws exactly when a field lies outside its array. A null tag throws ArgumentNull; a payload too short for the name block, after the tag's fields were read, throws ArgumentOutOfRange from GetString. |
| XefDecoding.DescriptionAfterName | KinectXEFTools/XEFEventReader.cs:125-138 | Once the name record is read, the description keeps the registry and yields a count-0 stream past that record. A name record without a tag throws ArgumentNull. One whose tag holds its fields but whose payload is shorter than the name block throws ArgumentOutOfRange. |
| XefDecoding.DescriptionFromName | KinectXEFTools/XEFEventReader.cs:140-161 | The rest of a description keeps the registry's indices and yields a count-0 stream. |
| XefDecoding.SkipUnknown | KinectXEFTools/XEFEventReader.cs:164-199 | Skipping an unknown record stops 0x6000, 0x7000 or 0xC000 bytes past its header with a key readable there, and changes nothing but the cursor. Otherwise it throws EndOfStream with the cursor at the end. |
| XefDecoding.NextEvent | KinectXEFTools/XEFEventReader.cs:271-304 | GetNextEvent moves the cursor forward and only grows the registry. Null comes with EndOfStream. An event is read only while EndOfStream is clear. |
| XefDecoding.NextAfterDescription | KinectXEFTools/XEFEventReader.cs:292-297 | Registering a description and continuing moves forward, grows the registry, and gives null only at end of stream. |
| XefDecodingFacts.FooterIsHeaderCount | KinectXEFTools/XEFEventReader.cs:86-99 | The reported count is `int.MaxValue - 1` for a raw 0 and `raw - 1` otherwise, wrapping at `int.MinValue`. The footer index, one past it, is the raw value, or `int.MaxValue` for 0. |
| XefDecodingFacts.RecordCountsItsStream | KinectXEFTools/XEFEvent.cs:16-17 | A data event takes its stream's current count as EventIndex, or 0 when unregistered. Only that stream's count moves. Streams and flags are otherwise kept. StreamError is raised only with a null result at the end of the input. |
| XefDecodingFacts.SuccessiveRecordsCount | KinectXEFTools/XEFEvent.cs:16-17 | Two successive events of one stream have successive indices in C# int arithmetic. |
| XefDecodingFacts.DescriptionKeeps | KinectXEFTools/XEFEventReader.cs:119-162 | Reading a description never changes a registered stream and never clears EndOfStream or StreamError. |
| XefDecodingFacts.FromNameKeeps | KinectXEFTools/XEFEventReader.cs:140-161 | The same for the part of a description after the name record. |
| XefDecodingFacts.NextEventKeepsRegistry | KinectXEFTools/XEFEventReader.cs:271-304 | GetNextEvent never drops or replaces a registered stream (only counts move) and never clears a flag. |
| XefDecodingFacts.RegistrationAddsOne | KinectXEFTools/XEFEventReader.cs:292-294 | Registering a description adds exactly its index to the registry and keeps the rest. |
| XefDecodingFacts.AtEndNothingMore | KinectXEFTools/XEFEventReader.cs:271-304 | Once EndOfStream is set, GetNextEvent and its filtered form return null and change nothing, and collecting all events yields an empty list. |
| XefDecodingFacts.AllEventsEndsAtEnd | KinectXEFTools/XEFEventReader.cs:337-355 | GetAllEvents returns only once EndOfStream is set. |
| XefDecodingFacts.NextEventOfMatches | KinectXEFTools/XEFEventReader.cs:311-331 | The filtered GetNextEvent returns null or an event whose stream type is among those asked for. |
| XefDecodingFacts.Only | KinectXEFTools/XEFEventReader.cs:362-390 | The filtered list holds only events of the given types, taken from the unfiltered list, and is no longer than it. |
| XefDecodingFacts.AllEventsOfFilters | KinectXEFTools/XEFEventReader.cs:362-390 | The filtered GetAllEvents equals the unfiltered one with the other types removed, with the same final cursor, flags, registry and fault. |
| XefDecodingFacts.SkipUnknownStopsAtFirstValid | KinectXEFTools/XEFEventReader.cs:180-198 | Skipping stops at the first probe whose key is a valid stream index. A later probe is taken only when every earlier one is readable and invalid. |
| XefDecodingFacts.SkipAgreesWithoutCache | KinectXEFTools/XEFEventStreamReader.cs:293-328 | The stream reader's skip, with its peek cache, agrees with the seekable reader's unless a probe key ends exactly at the end of the input. |
| XefDecodingFacts.RecordAgreesWithoutLengthCheck | KinectXEFTools/XEFEventReader.cs:249-253 | The two readers decode the same record, cursor, registry and fault. They differ only in EndOfStream, and only after an event that ends the file. |
| XefObjects.XefStream.constructor | KinectXEFTools/XEFStream.cs:8-16 | A stream keeps its index, flags, tag size, name, type id and semantic id, and starts with EventCount 0. |
| XefObjects.XefStream.IncrementEventCount | KinectXEFTools/XEFStream.cs:34-37 | EventCount goes up by one in C# int arithmetic. |
| XefObjects.NameOfDescription | KinectXEFTools/XEFStream.cs:22-42 | A stream made from a name record answers both Name and ToString with the name block at the start of that record's payload. |
| XefObjects.XefEvent.constructor | KinectXEFTools/XEFEvent.cs:7-18 | An event keeps its stream, frame index, time, sizes, tag and data. EventIndex is the stream's count before the event, and the stream's count goes up by one. |
| XefObjects.XefEvent.AccessorsOfValue | KinectXEFTools/XEFEvent.cs:28-34 | An event decoded for a registered stream reports the tag size, semantic id and type id of the registry entry under its record's index. The type id is the one the decoder assigned to the record. Its data size is the length of its payload. |
| XefObjects.XefEvent.OfTypesOfValue | KinectXEFTools/XEFEventReader.cs:328 | The type filter on an event object agrees with the filter on the value it stands for. |
| XefEventReaderModel.XefEventReader.constructor | KinectXEFTools/XEFEventReader.cs:41-49 | After the header, the corrected stream count, the data size and the event start address (12 bytes past the count) are set, and the cursor is at the first event. |
| XefEventReaderModel.XefEventReader.Open | KinectXEFTools/XEFEventReader.cs:86-99 | Opening fails exactly when the header does not fit in the file, and then with EndOfStream. Otherwise the reader starts at the first event with an empty registry. The event start address is 12 bytes past the stream count, the reported count is the file's count corrected, and the total data size is the 64-bit value after the count. |
| XefEventReaderModel.XefEventReader.StreamCount | KinectXEFTools/XEFEventReader.cs:35 | StreamCount is the larger of the registered and the reported stream counts. |
| XefEventReaderModel.XefEventReader.ReadFixed | KinectXEFTools/XEFEventReader.cs:218-221 | A fixed-width read takes the n bytes at the cursor and moves past them. A short read yields nothing and leaves the cursor at the end, where BinaryReader throws EndOfStream. |
| XefEventReaderModel.XefEventReader.ReadBytes | KinectXEFTools/XEFEventReader.cs:247 | ReadBytes rejects a negative count with ArgumentOutOfRange, and otherwise returns up to that many bytes from the cursor. |
| XefEventReaderModel.XefEventReader.ReadRecordHeader | KinectXEFTools/XEFEventReader.cs:207-221 | The key and header read are those at the cursor. |
| XefEventReaderModel.XefEventReader.PeekEventKey | KinectXEFTools/XEFEventReader.cs:112-117 | Peeking returns the key at the cursor and leaves the cursor there. A short input throws EndOfStream with the cursor at the end. |
| XefEventReaderModel.XefEventReader.ReadDataEvent | KinectXEFTools/XEFEventReader.cs:201-265 | ReadDataEvent has exactly the outcome of ReadRecord: the event or null or the fault, and the new cursor, flags and registry counts. |
| XefEventReaderModel.XefEventReader.ReadEventBody | KinectXEFTools/XEFEventReader.cs:223-255 | The record after its header has the outcome of RecordAfterHeader. |
| XefEventReaderModel.XefEventReader.ReadEventPayload | KinectXEFTools/XEFEventReader.cs:246-255 | The record after its tag has the outcome of RecordAfterTag. |
| XefEventReaderModel.XefEventReader.FinishEvent | KinectXEFTools/XEFEventReader.cs:249-255 | The end check and the new event complete the record as specified. |
| XefEventReaderModel.XefEventReader.EndAtEndOfFile | KinectXEFTools/XEFEventReader.cs:249-253 | EndOfStream is set when the cursor reached the end of the file and is otherwise kept. |
| XefEventReaderModel.XefEventReader.ReadEventTag | KinectXEFTools/XEFEventReader.cs:223-244 | The tag read is ReadTag's, and the cursor moves past it. |
| XefEventReaderModel.XefEventReader.NewXefEvent | KinectXEFTools/XEFEventReader.cs:255 | The new event object stands for NewEvent's value, and only its stream's count moves. |
| XefEventReaderModel.XefEventReader.ReadStreamDescription | KinectXEFTools/XEFEventReader.cs:119-162 | ReadStreamDescription has exactly the outcome of ReadDescription, and the stream object it returns stands for that stream. |
| XefEventReaderModel.XefEventReader.DescribeFromName | KinectXEFTools/XEFEventReader.cs:125-138 | After the name record, the description continues as DescriptionAfterName specifies. |
| XefEventReaderModel.XefEventReader.DescribeFromFields | KinectXEFTools/XEFEventReader.cs:140-161 | The fields of the name record give the stream DescriptionFromName specifies. |
| XefEventReaderModel.XefEventReader.ReadUnknownEvent | KinectXEFTools/XEFEventReader.cs:164-199 | ReadUnknownEvent has exactly the outcome of SkipUnknown. |
| XefEventReaderModel.XefEventReader.SkipAndPeek | KinectXEFTools/XEFEventReader.cs:180-182 | A probe moves the cursor n bytes and peeks the key there. |
| XefEventReaderModel.XefEventReader.GetNextEvent | KinectXEFTools/XEFEventReader.cs:271-304 | GetNextEvent has exactly the outcome of NextEvent, and the registry only grows. |
| XefEventReaderModel.XefEventReader.DescribeAndContinue | KinectXEFTools/XEFEventReader.cs:292-297 | A new index is described, registered, and reading continues as NextEvent specifies. |
| XefEventReaderModel.XefEventReader.Register | KinectXEFTools/XEFEventReader.cs:294 | Registering stores the stream at its index and changes no other entry. |
| XefEventReaderModel.XefEventReader.RegisterAndContinue | KinectXEFTools/XEFEventReader.cs:294-297 | Registering and reading on has the outcome of NextAfterDescription. |
| XefEventReaderModel.XefEventReader.GetAllEvents | KinectXEFTools/XEFEventReader.cs:337-355 | GetAllEvents returns exactly the events AllEvents collects from the event start address, or its fault. |
| XefEventReaderModel.XefEventReader.CollectNext | KinectXEFTools/XEFEventReader.cs:345-352 | One turn of the collecting loop keeps the list equal to what AllEvents gathers up to the cursor. |
| XefEventReaderModel.XefEventReader.GetNextEventOf | KinectXEFTools/XEFEventReader.cs:311-331 | The filtered GetNextEvent has exactly the outcome of NextEventOf. |
| XefEventReaderModel.XefEventReader.DropEvent | KinectXEFTools/XEFEventReader.cs:325-328 | An event of another type is passed over and reading continues. |
| XefEventReaderModel.XefEventReader.GetAllEventsOf | KinectXEFTools/XEFEventReader.cs:362-390 | The filtered GetAllEvents returns exactly AllEventsOf from the event start address. |
| XefEventReaderModel.XefEventReader.CollectNextOf | KinectXEFTools/XEFEventReader.cs:380-387 | One turn of the filtering loop keeps the list equal to what AllEventsOf gathers. |
| XefEventStreamReaderModel.SkipFaultShortSkip | KinectXEFTools/XEFEventStreamReader.cs:48-72 | Setting a forward-only stream's position backwards throws the plain System.Exception (PlainException). A forward move shorter than 2^30 bytes is a plain read and cannot fail. |
| XefEventStreamReaderModel.SkippableStream.constructor | KinectXEFTools/XEFEventStreamReader.cs:19-23 | A wrapped stream starts at position 0 with no skip buffer. |
| XefEventStreamReaderModel.SkippableStream.Read | KinectXEFTools/XEFEventStreamReader.cs:80-85 | A negative offset or count throws ArgumentOutOfRange, and a range past the buffer throws Argument, both changing nothing. Otherwise the bytes from the position are copied into the range and the position advances by their number. |
| XefEventStreamReaderModel.SkippableStream.SetPosition | KinectXEFTools/XEFEventStreamReader.cs:48-72 | Setting the position fails as SkipFault says (backwards, or a skip buffer that cannot double) and otherwise reads forward to the target or the end; the position never decreases. |
| XefEventStreamReaderModel.SkippableStream.Seek | KinectXEFTools/XEFEventStreamReader.cs:87-97 | Seek answers the current position. |
| XefEventStreamReaderModel.SkippableStream.ReadUpTo | KinectXEFTools/XEFEventStreamReader.cs:80-85 | A read returns up to n bytes from the position and advances past them. |
| XefEventStreamReaderModel.XefEventStreamReader.constructor | KinectXEFTools/XEFEventStreamReader.cs:147-161 | The reader wraps the input in a SkippableStream, reads the header, and starts at the first event with an empty registry and no peek cached. |
| XefEventStreamReaderModel.XefEventStreamReader.Open | KinectXEFTools/XEFEventStreamReader.cs:198-211 | Opening fails exactly when the header does not fit, with EndOfStream. Otherwise the count is corrected as in the seekable reader, and the event start address is 12 bytes past the count. |
| XefEventStreamReaderModel.XefEventStreamReader.StreamCount | KinectXEFTools/XEFEventStreamReader.cs:137 | StreamCount is the larger of the registered and the reported stream counts. |
| XefEventStreamReaderModel.XefEventStreamReader.ReadFixed | KinectXEFTools/XEFEventStreamReader.cs:347-350 | A fixed-width read returns the little-endian value at the cursor or throws EndOfStream having consumed the rest. |
| XefEventStreamReaderModel.XefEventStreamReader.ReadBytes | KinectXEFTools/XEFEventStreamReader.cs:376 | ReadBytes rejects a negative count and otherwise returns up to that many bytes. |
| XefEventStreamReaderModel.XefEventStreamReader.PeekEventKey | KinectXEFTools/XEFEventStreamReader.cs:230-246 | A peek returns the key at the logical cursor from the cache or from a fresh read, leaves the logical cursor in place, and leaves the key cached. |
| XefEventStreamReaderModel.XefEventStreamReader.GetEventKey | KinectXEFTools/XEFEventStreamReader.cs:224-228 | Taking the key returns the same key, moves four bytes on, and empties the cache. |
| XefEventStreamReaderModel.XefEventStreamReader.ReadRecordHeader | KinectXEFTools/XEFEventStreamReader.cs:337-350 | The key and header read are those at the logical cursor. |
| XefEventStreamReaderModel.XefEventStreamReader.ReadDataEvent | KinectXEFTools/XEFEventStreamReader.cs:330-389 | ReadDataEvent has exactly the outcome of ReadRecord, and CurrentEvent is the last event decoded. |
| XefEventStreamReaderModel.XefEventStreamReader.ReadFramedRecord | KinectXEFTools/XEFEventStreamReader.cs:332-388 | A record outside the try/catch has ReadRecord's outcome and leaves nothing cached. |
| XefEventStreamReaderModel.XefEventStreamReader.ReadEventBody | KinectXEFTools/XEFEventStreamReader.cs:352-379 | The record after its header has the outcome of RecordAfterHeader. |
| XefEventStreamReaderModel.XefEventStreamReader.ReadEventTag | KinectXEFTools/XEFEventStreamReader.cs:353-373 | The tag read is ReadTag's. |
| XefEventStreamReaderModel.XefEventStreamReader.ReadEventPayload | KinectXEFTools/XEFEventStreamReader.cs:375-379 | The record after its tag has the outcome of RecordAfterTag. |
| XefEventStreamReaderModel.XefEventStreamReader.FinishEvent | KinectXEFTools/XEFEventStreamReader.cs:376-379 | The new event completes the record and becomes CurrentEvent. |
| XefEventStreamReaderModel.XefEventStreamReader.NewXefEvent | KinectXEFTools/XEFEventStreamReader.cs:378 | The new event object stands for NewEvent's value, and only its stream's count moves. |
| XefEventStreamReaderModel.XefEventStreamReader.ReadStreamDescription | KinectXEFTools/XEFEventStreamReader.cs:248-291 | ReadStreamDescription has exactly the outcome of ReadDescription. |
| XefEventStreamReaderModel.XefEventStreamReader.DescribeFromName | KinectXEFTools/XEFEventStreamReader.cs:254-267 | After the name record, the description continues as DescriptionAfterName specifies. |
| XefEventStreamReaderModel.XefEventStreamReader.DescribeFromFields | KinectXEFTools/XEFEventStreamReader.cs:257-290 | The fields of the name record give the stream DescriptionFromName specifies. |
| XefEventStreamReaderModel.XefEventStreamReader.DescribeFromGuidRecord | KinectXEFTools/XEFEventStreamReader.cs:284-290 | After the compressed-stream skip, the GUID record and the new stream complete DescriptionFromName. |
| XefEventStreamReaderModel.XefEventStreamReader.ReadUnknownEvent | KinectXEFTools/XEFEventStreamReader.cs:293-328 | ReadUnknownEvent has exactly the outcome of SkipUnknown. |
| XefEventStreamReaderModel.XefEventStreamReader.FirstProbe | KinectXEFTools/XEFEventStreamReader.cs:309-311 | From the end of the header, the probes have SkipUnknown's outcome. |
| XefEventStreamReaderModel.XefEventStreamReader.SecondProbe | KinectXEFTools/XEFEventStreamReader.cs:316-317 | From an invalid first probe, the remaining probes have SkipUnknown's outcome. |
| XefEventStreamReaderModel.XefEventStreamReader.LastProbe | KinectXEFTools/XEFEventStreamReader.cs:322-324 | From an invalid second probe, the last probe has SkipUnknown's outcome. |
| XefEventStreamReaderModel.XefEventStreamReader.SkipAndPeek | KinectXEFTools/XEFEventStreamReader.cs:316-317 | A probe moves the position n bytes and peeks the key there. |
| XefEventStreamReaderModel.XefEventStreamReader.GetNextEvent | KinectXEFTools/XEFEventStreamReader.cs:395-428 | GetNextEvent has exactly the outcome of NextEvent, CurrentEvent is the last event decoded, and the registry only grows. |
| XefEventStreamReaderModel.XefEventStreamReader.EventAtKey | KinectXEFTools/XEFEventStreamReader.cs:410-424 | At a key that is not an unknown record, the footer, a new description or a data record is handled as NextEvent specifies. |
| XefEventStreamReaderModel.XefEventStreamReader.SkipAndContinue | KinectXEFTools/XEFEventStreamReader.cs:403-409 | An unknown record is skipped, and reading continues as NextEvent specifies after the skip, or the skip's fault is thrown. |
| XefEventStreamReaderModel.XefEventStreamReader.DescribeAndContinue | KinectXEFTools/XEFEventStreamReader.cs:416-421 | A new index is described, registered, and reading continues as NextEvent specifies. |
| XefEventStreamReaderModel.XefEventStreamReader.Register | KinectXEFTools/XEFEventStreamReader.cs:418 | Registering stores the stream at its index and changes no other entry. |
| XefEventStreamReaderModel.XefEventStreamReader.RegisterAndContinue | KinectXEFTools/XEFEventStreamReader.cs:418-421 | Registering and reading on has the outcome of NextAfterDescription. |
| XefEventStreamReaderModel.XefEventStreamReader.ContinueAfter | KinectXEFTools/XEFEventStreamReader.cs:408 | The recursive call continues as NextEvent specifies, with CurrentEvent the latest event decoded. |
| XefEventStreamReaderModel.XefEventStreamReader.GetAllEvents | KinectXEFTools/XEFEventStreamReader.cs:461-479 | Resetting to the event start address throws the plain System.Exception (PlainException) when the stream is already past it, changing nothing. Otherwise GetAllEvents returns exactly AllEvents' list or fault. |
| XefEventStreamReaderModel.XefEventStreamReader.CollectAll | KinectXEFTools/XEFEventStreamReader.cs:467-478 | The collecting loop yields exactly AllEvents from the current state. |
| XefEventStreamReaderModel.XefEventStreamReader.CollectNext | KinectXEFTools/XEFEventStreamReader.cs:469-476 | One turn of the loop keeps the list equal to what AllEvents gathers, and makes progress. |
| XefEventStreamReaderModel.XefEventStreamReader.GetAllEventsOf | KinectXEFTools/XEFEventStreamReader.cs:496-514 | Resetting to the event start address throws the plain System.Exception (PlainException) when the stream is already past it, changing nothing. Otherwise the filtered GetAllEvents returns exactly AllEventsOf's list or fault. |
| XefEventStreamReaderModel.XefEventStreamReader.CollectAllOf | KinectXEFTools/XEFEventStreamReader.cs:502-513 | The filtering loop yields exactly AllEventsOf from the current state. |
| XefEventStreamReaderModel.XefEventStreamReader.CollectNextOf | KinectXEFTools/XEFEventStreamReader.cs:504-511 | One turn of the filtering loop keeps the list equal to what AllEventsOf gathers. |
| XefEventStreamReaderModel.XefEventStreamReader.GetNextEventOf | KinectXEFTools/XEFEventStreamReader.cs:445-455 | The filtered GetNextEvent has exactly the outcome of NextEventOf. |
| XefEventStreamReaderModel.XefEventStreamReader.DropEvent | KinectXEFTools/XEFEventStreamReader.cs:449-452 | An event of another type is passed over and reading continues. |
| BinaryReading.BinaryReader.constructor | KinectXEFTools/XEFBodyFrame.cs:248-250 | A reader over a frame's bytes starts at position 0. |
| BinaryReading.BinaryReader.ReadUInt32 | KinectXEFTools/XEFBodyFrame.cs:225 | ReadUInt32 returns the little-endian word at the position and moves four bytes on. |
| BinaryReading.BinaryReader.ReadSingle | KinectXEFTools/XEFBodyFrame.cs:15-23 | ReadSingle returns the 32-bit pattern at the position and moves four bytes on. |
| BinaryReading.BinaryReader.ReadInt32 | KinectXEFTools/XEFBodyFrame.cs:210 | ReadInt32 returns the two's-complement word at the position and moves four bytes on. |
| BinaryReading.BinaryReader.ReadUInt64 | KinectXEFTools/XEFBodyFrame.cs:220 | ReadUInt64 returns the little-endian 64-bit value at the position and moves eight bytes on. |
| BinaryReading.BinaryReader.ReadByte | KinectXEFTools/XEFAudioFrame.cs:72-75 | ReadByte returns the byte at the position and moves one on. |
| XefBodyFrameModel.BodiesOfWords | KinectXEFTools/XEFBodyFrame.cs:255-258 | The loop yields exactly the number of bodies asked for. |
| XefBodyFrameModel.DecodedBodyValid | KinectXEFTools/XEFBodyFrame.cs:194-228 | A decoded body has a position, an orientation and a tracking state for each of the 25 joint types. |
| XefBodyFrameModel.JointVectorsEntries | KinectXEFTools/XEFBodyFrame.cs:198-206 | The joint dictionary has exactly the joint types read so far, and joint t is the vector 16·t bytes from the start. |
| XefBodyFrameModel.JointStatesEntries | KinectXEFTools/XEFBodyFrame.cs:208-211 | The state dictionary has exactly the joint types read so far, and joint t's state is the t-th word. |
| XefBodyFrameModel.DecodedFrameValid | KinectXEFTools/XEFBodyFrame.cs:240-258 | A decoded frame has six bodies, each with all 25 joints. |
| XefBodyFrameModel.BodyEntry | KinectXEFTools/XEFBodyFrame.cs:255-258 | Body k is decoded from byte 32 + 1040·k. |
| XefBodyFrameModel.VectorBack | KinectXEFTools/XEFBodyFrame.cs:15-23 | A vector written as four words decodes back to itself. |
| XefBodyFrameModel.ExpressionBack | KinectXEFTools/XEFBodyFrame.cs:88-118 | Expression data written as 20 words decodes back to itself. |
| XefBodyFrameModel.HandBack | KinectXEFTools/XEFBodyFrame.cs:135-142 | Hand data written as three words decodes back to itself. |
| XefBodyFrameModel.LeanBack | KinectXEFTools/XEFBodyFrame.cs:152-160 | Lean data written as four words decodes back to itself. |
| XefBodyFrameModel.JointVectorsBack | KinectXEFTools/XEFBodyFrame.cs:198-206 | Joint vectors written in joint order decode back to each joint's vector. |
| XefBodyFrameModel.JointStatesBack | KinectXEFTools/XEFBodyFrame.cs:208-211 | Joint states written in joint order decode back to each joint's state. |
| XefBodyFrameModel.BodyBack | KinectXEFTools/XEFBodyFrame.cs:194-228 | A body written as 260 words decodes back to itself. |
| XefBodyFrameModel.IdBack | KinectXEFTools/XEFBodyFrame.cs:218-221 | The tracking id and state after the padding word decode back. |
| XefBodyFrameModel.FrameRoundTrip | KinectXEFTools/XEFBodyFrame.cs:245-267 | Decoding the 6288 bytes of an encoded body frame gives the frame back. |
| XefBodyFrameModel.FrameScalarsBack | KinectXEFTools/XEFBodyFrame.cs:252-260 | The floor clip plane, the up vector and the quality flags decode back. |
| XefBodyFrameModel.ReadVector | KinectXEFTools/XEFBodyFrame.cs:15-23 | Reads the vector at the position, 16 bytes. |
| XefBodyFrameModel.ReadExpression | KinectXEFTools/XEFBodyFrame.cs:88-118 | Reads the expression data at the position, 80 bytes. |
| XefBodyFrameModel.ReadFaceAndActivity | KinectXEFTools/XEFBodyFrame.cs:92-100 | Reads the eight face and activity values, 32 bytes. |
| XefBodyFrameModel.ReadEngagementAndAppearance | KinectXEFTools/XEFBodyFrame.cs:101-115 | Reads engagement, glasses and tracking state past the skipped words, 48 bytes. |
| XefBodyFrameModel.ReadHand | KinectXEFTools/XEFBodyFrame.cs:135-142 | Reads the hand data, 12 bytes. |
| XefBodyFrameModel.ReadLean | KinectXEFTools/XEFBodyFrame.cs:152-160 | Reads the lean data, 16 bytes. |
| XefBodyFrameModel.ReadJointVectors | KinectXEFTools/XEFBodyFrame.cs:198-201 | The joint loop fills the dictionary from 25 vectors, 400 bytes. |
| XefBodyFrameModel.ReadJointStates | KinectXEFTools/XEFBodyFrame.cs:208-211 | The state loop fills the dictionary from 25 words, 100 bytes. |
| XefBodyFrameModel.ReadJoints | KinectXEFTools/XEFBodyFrame.cs:198-211 | Positions, orientations and states are read in that order, 900 bytes. |
| XefBodyFrameModel.ReadBodyTail | KinectXEFTools/XEFBodyFrame.cs:213-225 | Expression, hands, padding, tracking, lean and quality are read in that order, 140 bytes. |
| XefBodyFrameModel.ReadTracking | KinectXEFTools/XEFBodyFrame.cs:218-221 | Skips the padding word and reads the tracking id and state, 16 bytes. |
| XefBodyFrameModel.ReadBody | KinectXEFTools/XEFBodyFrame.cs:194-228 | Reads the body at the position, 1040 bytes. |
| XefBodyFrameModel.ReadBodies | KinectXEFTools/XEFBodyFrame.cs:255-258 | The loop reads six bodies after the two vectors. |
| XefBodyFrameModel.ReadFrame | KinectXEFTools/XEFBodyFrame.cs:247-263 | Reads the whole frame the bytes encode. |
| XefBodyFrameModel.FromByteArray | KinectXEFTools/XEFBodyFrame.cs:245-267 | An array shorter than 6288 bytes throws EndOfStream. Otherwise the result is the frame its first 6288 bytes encode. |
| XefAudioFrameModel.SubframesOfWords | KinectXEFTools/XEFAudioFrame.cs:104-107 | The loop yields exactly SubFrameCount subframes. |
| XefAudioFrameModel.DecodesIff | KinectXEFTools/XEFAudioFrame.cs:89-111 | Decoding succeeds exactly when the 16-byte header and SubFrameCount subframes of 14416 bytes fit; otherwise it throws EndOfStream. |
| XefAudioFrameModel.DecodedSubframeValid | KinectXEFTools/XEFAudioFrame.cs:32-39 | A decoded subframe keeps the array sizes the constructor allocates: 6 ids, 256 out, 1024 mic and 2048 speaker samples, 1024 reserved bytes. |
| XefAudioFrameModel.DecodedFrameValid | KinectXEFTools/XEFAudioFrame.cs:96-107 | A decoded frame has SubFrameCount subframes, each with those sizes. |
| XefAudioFrameModel.SpeakerIdsIgnoreCount | KinectXEFTools/XEFAudioFrame.cs:50-55 | All six speaker ids are read whatever SpeakerTrackingIdCount says. |
| XefAudioFrameModel.ScalarsBack | KinectXEFTools/XEFAudioFrame.cs:44-50 | The subframe scalars written as eight words decode back. |
| XefAudioFrameModel.SpeakerIdsBack | KinectXEFTools/XEFAudioFrame.cs:52-55 | The six speaker ids decode back. |
| XefAudioFrameModel.ReservedBack | KinectXEFTools/XEFAudioFrame.cs:72-75 | The 1024 reserved bytes decode back. |
| XefAudioFrameModel.SubframeBack | KinectXEFTools/XEFAudioFrame.cs:41-78 | A subframe written as 3604 words decodes back to itself. |
| XefAudioFrameModel.FrameSubframeBack | KinectXEFTools/XEFAudioFrame.cs:104-107 | Subframe k of an encoded frame, at byte 16 + 14416·k, decodes back. |
| XefAudioFrameModel.FrameHeaderBack | KinectXEFTools/XEFAudioFrame.cs:96-99 | Version, SubFrameCount, SubFramesAllocated and Reserved decode back. |
| XefAudioFrameModel.FrameRoundTrip | KinectXEFTools/XEFAudioFrame.cs:89-111 | Decoding an encoded audio frame gives it back; XEFAudioData (KinectXEFTools/XEFAudioData.cs:54-108) reads the same layout inline, so it is covered too. |
| XefAudioFrameModel.ReadSubframe | KinectXEFTools/XEFAudioFrame.cs:41-78 | Reads the subframe at the position, 14416 bytes. |
| XefAudioFrameModel.ReadSpeakerTrackingIds | KinectXEFTools/XEFAudioFrame.cs:52-55 | Reads the six 64-bit speaker ids, 48 bytes. |
| XefAudioFrameModel.ReadSingles | KinectXEFTools/XEFAudioFrame.cs:57-70 | Reads n 32-bit samples in order. |
| XefAudioFrameModel.ReadReserved | KinectXEFTools/XEFAudioFrame.cs:72-75 | Reads n bytes in order. |
| XefAudioFrameModel.ReadSubframes | KinectXEFTools/XEFAudioFrame.cs:102-107 | The loop reads SubFrameCount subframes after the header. |
| XefAudioFrameModel.FromByteArray | KinectXEFTools/XEFAudioFrame.cs:89-111 | The result is exactly the decoded frame, or EndOfStream when the array is too short. XEFAudioData.FromByteArray (KinectXEFTools/XEFAudioData.cs:54-108) has the same result. |
| VideoOutput.FormatName | examples/XEFExtract/OutputWriters/VideoWriter.cs:25-35 | Each pixel format name is non-empty and holds no "-b". |
| VideoOutput.CodecName | examples/XEFExtract/OutputWriters/VideoWriter.cs:48-57 | Each codec name is non-empty and holds no "-b". |
| VideoOutput.NamesDistinct | examples/XEFExtract/OutputWriters/VideoWriter.cs:25-57 | Distinct formats have distinct names, and so do codecs. |
| VideoOutput.DigitsRoundTrip | examples/XEFExtract/OutputWriters/VideoWriter.cs:123-134 | A number's decimal digits read back as the number. |
| VideoOutput.Decimal | examples/XEFExtract/OutputWriters/VideoWriter.cs:123-134 | An int's text is non-empty, holds no "-b", and starts with '-' exactly when the number is negative. |
| VideoOutput.DecimalRoundTrip | examples/XEFExtract/OutputWriters/VideoWriter.cs:123-134 | An int's text parses back to the int. |
| VideoOutput.BitrateOptionIff | examples/XEFExtract/OutputWriters/VideoWriter.cs:123-134 | For a path without "-b", the command line has a "-b:v" option exactly when the bitrate is positive, and it is followed by the bitrate's digits. |
| VideoOutput.FrameToTimeBounds | examples/XEFExtract/OutputWriters/VideoWriter.cs:187-190 | FrameToTime(n) is the truncated time of frame n in ticks: non-negative, and n·10^7 lies in [rate·t, rate·(t+1)). |
| VideoOutput.FrameToTimeMonotone | examples/XEFExtract/OutputWriters/VideoWriter.cs:187-190 | Later frames have no earlier times. |
| VideoOutput.FrameToTimeStep | examples/XEFExtract/OutputWriters/VideoWriter.cs:187-190 | Consecutive frame times differ by the frame duration or one tick more. |
| VideoOutput.PadsThreshold | examples/XEFExtract/OutputWriters/VideoWriter.cs:215-218 | The padding loop repeats the last frame exactly while the next frame's end is before the timestamp. |
| VideoOutput.Repeat | examples/XEFExtract/OutputWriters/VideoWriter.cs:215-218 | Padding writes n copies of the last frame. |
| VideoOutput.PacedPlacement | examples/XEFExtract/OutputWriters/VideoWriter.cs:204-222 | A late frame is dropped, and only a late one. The first frame is written alone. Otherwise copies of the previous frame are written first, then the new frame, landing within one frame duration of its timestamp. |
| VideoOutput.VideoWriter.constructor | examples/XEFExtract/OutputWriters/VideoWriter.cs:102-148 | The writer keeps its settings, starts with no frames, and its arguments are the ffmpeg command line for them. |
| VideoOutput.VideoWriter.WithoutBitrate | examples/XEFExtract/OutputWriters/VideoWriter.cs:97-100 | The six-argument constructor uses bitrate -1, so no bitrate option. |
| VideoOutput.VideoWriter.WriteFrame | examples/XEFExtract/OutputWriters/VideoWriter.cs:197-202 | The frame is written, becomes the last frame, and FrameCount goes up by one. |
| VideoOutput.VideoWriter.WriteTimedFrame | examples/XEFExtract/OutputWriters/VideoWriter.cs:204-222 | The frames written are exactly the paced ones for the timestamp; FrameCount never decreases. |
| VideoOutput.VideoWriter.Dispose | examples/XEFExtract/OutputWriters/VideoWriter.cs:161-181 | Disposing marks the writer disposed and writes nothing more. |
| WavFile.HeaderFits | examples/XEFExtract/OutputWriters/WavFileWriter.cs:127-148 | Each header field fits its width for a rate below 2^32 and a channel count below 2^16. |
| WavFile.HeaderLayout | examples/XEFExtract/OutputWriters/WavFileWriter.cs:127-148 | The 46-byte header holds, at their offsets: "RIFF", the chunk size, "WAVE", "fmt ", 18, PCM, the channel count, the rate, the byte rate, the block align, the bit depth, 0, "data" and the data size. |
| WavFile.HeaderPatch | examples/XEFExtract/OutputWriters/WavFileWriter.cs:150-162 | Overwriting the chunk size at offset 4 and the data size at 0x2A gives the header for the new data size. |
| WavFile.SampleBytes | examples/XEFExtract/OutputWriters/WavFileWriter.cs:170-188 | A sample is written as 1, 2, 3 or 8 bytes for 8-, 16-, 24- and 32-bit depth. |
| WavFile.SampleDataSnoc | examples/XEFExtract/OutputWriters/WavFileWriter.cs:168-191 | Writing one more sample appends its bytes to the data. |
| WavFile.SampleDataAppend | examples/XEFExtract/OutputWriters/WavFileWriter.cs:197-203 | Writing several samples appends their data in order. |
| WavFile.SampleDataLength | examples/XEFExtract/OutputWriters/WavFileWriter.cs:170-188 | The data holds the written width times the number of samples. |
| WavFile.DataSizeOneChannel | examples/XEFExtract/OutputWriters/WavFileWriter.cs:58-66 | With one channel, DataSize is NumSamples times the sample width, modulo 2^32. |
| WavFile.DataSizeMatchesUnless32 | examples/XEFExtract/OutputWriters/WavFileWriter.cs:170-188 | With one channel, at least one sample and no 32-bit overflow, the header's data size equals the bytes written exactly when the depth is not 32 bits. |
| WavFile.DataSizeUndercounts32 | examples/XEFExtract/OutputWriters/WavFileWriter.cs:184-186 | At 32 bits, the data written is twice the size the header records. |
| WavFile.CorrectedSampleBytes | examples/XEFExtract/OutputWriters/WavFileWriter.cs:184-186 | The corrected writer writes every sample in exactly BytesPerSample bytes. |
| WavFile.CorrectedDataSizeMatches | examples/XEFExtract/OutputWriters/WavFileWriter.cs:58-66 | With the correction, the header's data size equals the bytes written at every depth. |
| WavFile.CorrectedAgreesUnless32 | examples/XEFExtract/OutputWriters/WavFileWriter.cs:170-183 | The correction changes nothing below 32 bits. |
| WavFile.WavFileWriter.constructor | examples/XEFExtract/OutputWriters/WavFileWriter.cs:72-83 | A new file holds only the header with data size 0. |
| WavFile.WavFileWriter.WriteSample | examples/XEFExtract/OutputWriters/WavFileWriter.cs:168-191 | The sample's bytes are appended and NumSamples goes up by one, as a uint. |
| WavFile.WavFileWriter.WriteSamples | examples/XEFExtract/OutputWriters/WavFileWriter.cs:197-203 | All samples are appended in order. |
| WavFile.WavFileWriter.UpdateHeader | examples/XEFExtract/OutputWriters/WavFileWriter.cs:150-162 | The header now records the current data size; the samples are untouched. |
| WavFile.WavFileWriter.Dispose | examples/XEFExtract/OutputWriters/WavFileWriter.cs:102-116 | The first Dispose patches the header to the final size; later ones change nothing. |
| WavFile.HeaderForWriter | examples/XEFExtract/OutputWriters/WavFileWriter.cs:52-66 | The writer's header is laid out as HeaderLayout says for its settings and sample count. |
| WavFile.HeaderOffsets | examples/XEFExtract/OutputWriters/WavFileWriter.cs:20-34 | The 14 header fields start at offsets 0, 4, 8, …, 38 and 42, so the chunk size is at 4 and the data size at 0x2A. |
| DepthWriter.HeaderBytes | XEFExtract/XEFWriters/XEFDepthWriter.cs:86-93 | The header is 20 bytes. |
| DepthWriter.HeaderLayout | XEFExtract/XEFWriters/XEFDepthWriter.cs:86-93 | The header holds the event count (a long), then width 512, height 424 and frame size 512·424·2. |
| DepthWriter.HeaderPatch | XEFExtract/XEFWriters/XEFDepthWriter.cs:95-103 | Overwriting the first eight bytes with the count gives the header for that count and keeps the records. |
| DepthWriter.Record | XEFExtract/XEFWriters/XEFDepthWriter.cs:132-133 | A record is the event's index as a long followed by the frame. |
| DepthWriter.RecordsSnoc | XEFExtract/XEFWriters/XEFDepthWriter.cs:132-135 | One more depth event appends one record. |
| DepthWriter.FileLayout | XEFExtract/XEFWriters/XEFDepthWriter.cs:86-135 | Record k sits at 20 + k·(8 + 434176) bytes, with index k (as a long) and frame k. |
| DepthWriter.DepthStartFirstNonNegative | XEFExtract/XEFWriters/XEFDepthWriter.cs:126-127 | The depth start time is the first non-negative event time. |
| DepthWriter.DepthStartWhileNegative | XEFExtract/XEFWriters/XEFDepthWriter.cs:126-127 | It stays negative (unset) while every event time is negative. |
| DepthWriter.DepthStep | XEFExtract/XEFWriters/XEFDepthWriter.cs:117-135 | One depth event appends one record, increments the count as a long, extends the start/end span and fixes the depth start time if unset. |
| DepthWriter.XefDepthWriter.DurationSpansEvents | XEFExtract/XEFWriters/XEFDepthWriter.cs:32 | Duration is the last depth event's time less the first's, 0 before any. |
| DepthWriter.XefDepthWriter.constructor | XEFExtract/XEFWriters/XEFDepthWriter.cs:38-47 | A new file holds the header with count 0. |
| DepthWriter.XefDepthWriter.ProcessEvent | XEFExtract/XEFWriters/XEFDepthWriter.cs:110-136 | A non-depth event changes nothing. A depth event appends its record and increments the count as a long. The first event sets the start time; every event sets the end time. |
| DepthWriter.XefDepthWriter.UpdateFrameCount | XEFExtract/XEFWriters/XEFDepthWriter.cs:95-103 | The first eight bytes are overwritten with the count, which makes the file the header for that count followed by the records. |
| DepthWriter.XefDepthWriter.Dispose | XEFExtract/XEFWriters/XEFDepthWriter.cs:66-80 | The first Dispose patches the count; later ones change nothing. |
| ColorWriter.XefColorWriter.DurationSpansEvents | XEFExtract/XEFWriters/XEFColorWriter.cs:30 | Duration is the last colour event's time less the first's, 0 before any. |
| ColorWriter.XefColorWriter.constructor | XEFExtract/XEFWriters/XEFColorWriter.cs:36-50 | The video is YUYV422 to MPEG4 at 1920x1080 and the colour bitrate, with nothing written. |
| ColorWriter.XefColorWriter.ProcessEvent | XEFExtract/XEFWriters/XEFColorWriter.cs:92-110 | A non-colour event changes nothing. A colour event is paced into the video at its time since the first colour event, sets the start (first only) and end times, and increments the count. |
| ColorWriter.XefColorWriter.Dispose | XEFExtract/XEFWriters/XEFColorWriter.cs:63-81 | Disposing writes no more frames and keeps the times and count. |
| BodyWriter.BodyStartFirstNonZero | XEFExtract/XEFWriters/XEFBodyWriter.cs:83-86 | StartTime ends up as the first non-zero event time. |
| BodyWriter.BodyStartWhileZero | XEFExtract/XEFWriters/XEFBodyWriter.cs:83-86 | StartTime stays 0 while every event time is 0. |
| BodyWriter.BodyStartAgrees | XEFExtract/XEFWriters/XEFBodyWriter.cs:83-86 | When the first event time is non-zero, the code's start time is the first event's, as in the other writers. |
| BodyWriter.BodyStartSkipsZeroTime | XEFExtract/XEFWriters/XEFBodyWriter.cs:83-86 | Events at times 0 and 5 give StartTime 5, where the first event's time is 0. |
| BodyWriter.XefBodyWriter.DurationFromFirstNonZero | XEFExtract/XEFWriters/XEFBodyWriter.cs:26 | Duration is the last time less the first non-zero one. |
| BodyWriter.XefBodyWriter.constructor | XEFExtract/XEFWriters/XEFBodyWriter.cs:32-38 | A new writer has no events and zero times and count. |
| BodyWriter.XefBodyWriter.ProcessEvent | XEFExtract/XEFWriters/XEFBodyWriter.cs:80-90 | Every event sets the end time and increments the count; StartTime is set while it is 0. |
| BodyWriter.XefBodyWriter.Dispose | XEFExtract/XEFWriters/XEFBodyWriter.cs:51-69 | Disposing keeps the times and count. |
| WriterClock.EventCountWraps | XEFExtract/XEFWriters/XEFColorWriter.cs:109 | The event count after n events is n as a wrapping long, and n itself up to long.MaxValue. |
| WriterClock.StartAndEnd | XEFExtract/XEFWriters/XEFColorWriter.cs:100-105 | The start is the first event time and the end the last, 0 before any event. |
| WriterClock.CountAndSpanStep | XEFExtract/XEFWriters/XEFColorWriter.cs:100-109 | One more event increments the count and extends the span. |

## Left out

- Floating point. The decoders keep each `float` as its 32-bit pattern. The WAV writer takes the sample already converted to an integer, and the float-to-integer scaling of `WriteSample` is not modelled.
- Text. Stream names stay as the UTF-16 bytes the record holds. `Encoding.Unicode.GetString` and `TrimEnd` are not modelled, so `XefStream.Name` is those bytes.
- GUIDs are modelled as their 16 bytes.
- The ffmpeg process, its standard input and the console output of `VideoWriter` are not modelled. The writer records the frames it would pipe and the command line it builds.
- File creation, `FileStream`/`BinaryWriter` buffering and closing are not modelled. The WAV and depth writers keep the file as a byte sequence.
- The extractor's command-line program and its wiring of readers to writers are left out.
- `Dispose(false)`, finalizers and garbage collection are left out: only the explicit `Dispose()` path is modelled.
- `Debug.Assert` checks compile away in release builds and are not modelled. These are the audio subframe-count asserts at KinectXEFTools/XEFAudioFrame.cs:101 and KinectXEFTools/XEFAudioData.cs:66.
- VideoOutput.VideoWriter.constructor: requires a positive frame rate. A rate of 0 throws in the constructor when the frame duration is computed, and a negative rate makes the padding loop run forever.
- VideoOutput.VideoWriter.WriteFrame: FrameCount is an unbounded counter; the C# `int` overflow after 2^31 frames is not modelled.
- Event times are unbounded integers; `TimeSpan` and `long` overflow of times and durations is not modelled.
- Writing after `Dispose()` is excluded by the writers' preconditions.
- Null frame arrays and null event data are not modelled.
- VideoOutput.BitrateOptionIff: proved only for output paths that contain no "-b". A path such as `my-b:v 1.mp4` would make the option appear in the text whatever the bitrate.
- The depth writer's `frameTime` at XEFExtract/XEFWriters/XEFDepthWriter.cs:128 is computed and never written, so only `_depthStartTime` (line 127) is modelled.
- XefObjects.XefStream.constructor: KinectXEFTools/XEFStream.cs:8 takes five arguments and has no flags parameter. The readers call it with six, passing the flags (KinectXEFTools/XEFEventReader.cs:161, KinectXEFTools/XEFEventStreamReader.cs:290). XEFStream.cs is an older revision than the readers, and the model follows the readers' argument list.
- XefObjects.XefEvent.constructor: KinectXEFTools/XEFEvent.cs:7 takes six arguments and has no fullDataSize. The readers call it with seven (KinectXEFTools/XEFEventReader.cs:255, KinectXEFTools/XEFEventStreamReader.cs:378). As for XEFStream, the model follows the readers' argument list.
- XefObjects.XefEvent.constructor: a null stream gives index 0 and bumps no counter. The code would dereference it and throw; readers pass null only for an unregistered index, and there the tag and data still decode.
- ColorWriter.XefColorWriter.ProcessEvent: XEFExtract/XEFWriters/XEFColorWriter.cs:107 calls `WriteFrame(byte[], TimeSpan)`, which the `VideoWriter` of XEFExtract/OutputWriters/VideoWriter.cs does not have. The model uses the paced `WriteFrame(byte[], TimeSpan)` of the later revision, examples/XEFExtract/OutputWriters/VideoWriter.cs:204-222, in its place.
- XefObjects.XefEvent.constructor: the colour and depth writers' `ProcessEvent` require an event with a stream. For an event without one, reading `EventStreamDataTypeId` throws NullReferenceException (XEFExtract/XEFWriters/XEFColorWriter.cs:94, XEFExtract/XEFWriters/XEFDepthWriter.cs:112). The converter hands every event to every writer (XEFExtract/XEFDataConverter.cs:130-134), so that exception is not modelled either.
- XefEventStreamReaderModel.SkippableStream.Read: the base stream's `Read` is modelled as returning every requested byte that remains. A forward-only `Stream.Read` may return fewer, and such short reads are not modelled.
- XefEventStreamReaderModel.SkippableStream.SetPosition: relies on that full read. The setter at KinectXEFTools/XEFEventStreamReader.cs:68 ignores `Read`'s return value, so a short base read would leave the position before the target without any error. The model always reaches the target or the end of the input.
- XefEventStreamReaderModel.XefEventStreamReader.Open: the skip to STREAM_COUNT_ADDRESS at KinectXEFTools/XEFEventStreamReader.cs:201 goes through that setter. The model therefore assumes the header read starts exactly at the count, which a short base read would not guarantee.
- XEFEventStreamReader over a seekable base stream is left out. Only the forward-only path through `SkippableStream` is modelled; over a seekable base the reader behaves as the seekable reader does.
- Decompression of compressed streams is left out; only the extra record's skip is modelled.
- XEFArchivedEventReader and the data converters are not part of this model.
- DataConstants values are a `Layout` parameter constrained to what the code relies on; the constants file is not part of this model.
- XefAudioFrameModel.DecodesIff: allocation limits are out of scope. A SubFrameCount too large to allocate fails at `new XEFAudioSubframe[SubFrameCount]` (KinectXEFTools/XEFAudioFrame.cs:102) before any read; the model only says EndOfStream for a frame whose subframes do not fit.
- XefAudioFrameModel.FromByteArray: an audio subframe is read as 32 bytes of scalars plus arrays, 14416 bytes in all. This follows the reads in the code, not any separately documented size.
- XefDecoding.ReadDescription: the semantic id is read from the name record's payload, as the code does.
- XefDecoding.NextEvent: a key counts as a valid stream index when it lies in the reported range (`IsValidStreamIndex`), whether or not it is registered, as the code does.
- WavFile.DataSizeMatchesUnless32: stated for one channel. `DataSize` multiplies NumSamples by the channel count, while each `WriteSample` call writes one value, so callers must interleave channels themselves.
- `Close()` of the readers only releases the underlying stream and is not modelled.
- `XEFEvent.RawEventData` and `IsCompressed` are never assigned by the readers and are not modelled.

## Findings

| source | as written | input that shows it | evidently intended | confidence | as-written member | corrected member |
|---|---|---|---|---|---|---|
| examples/XEFExtract/OutputWriters/WavFileWriter.cs:184-186 | A 32-bit sample is written as a `long`, 8 bytes, while `DataSize` and the header count 4 bytes per sample. | One channel at 32 bits, one sample: 8 data bytes are written and the header's data size is 4. | Write each 32-bit sample as an `int`, 4 bytes, so the header's size matches the data. | not executed | WavFile.DataSizeUndercounts32 | WavFile.CorrectedDataSizeMatches |
| XEFExtract/XEFWriters/XEFBodyWriter.cs:83-86 | StartTime is set while it still equals 0, so a first body event at time 0 does not fix it, and the next event's time becomes the start. | Body events at times 0 and 5: StartTime is 5, and Duration is 0 instead of 5. | Set StartTime from the first event, as the colour and depth writers do with a seen-flag. | not executed | BodyWriter.BodyStartSkipsZeroTime | WriterClock.StartAndEnd |
