/**
 * The XEF layout constants (the DataConstants class). Their values are not
 * part of this model, so they are carried as one record and every result
 * holds whatever they are. STREAM_TYPID_SIZE and
 * STREAM_SEMID_SIZE are both the size of a Guid, 16, since each sizes the
 * buffer a Guid is built from.
 */
module DataConstants {

  datatype Layout = Layout(
    streamCountAddress: nat,        // STREAM_COUNT_ADDRESS: file offset of the header's stream count
    unknownRecordIndex: int,        // EVENT_UNKRECORD_INDEX: key index of an unknown record
    defaultTagSize: nat,            // EVENT_DEFAULT_TAG_SIZE: tag length of a record on an unregistered index
    compressedExtraSize: nat,       // ARC_STREAM_EXTRA_UNK_SIZE: bytes after a compressed stream's name record
    streamIndexOffset: nat,         // STREAM_INDEX_OFFSET, in the name record's tag
    streamFlagsOffset: nat,         // STREAM_FLAGS_OFFSET, in the name record's tag
    typeIdOffset: nat,              // STREAM_TYPID_OFFSET, in the name record's tag
    nameSize: nat,                  // STREAM_NAME_SIZE, in the name record's payload
    tagSizeOffset: nat,             // STREAM_TAGSIZE_OFFSET, in the name record's payload
    semanticIdOffset: nat,          // STREAM_SEMID_OFFSET, in the name record's payload
    flagCompressed: bv16            // FLAG_COMPRESSED, a bit of the stream flags word
  )
}
