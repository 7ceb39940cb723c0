/**
 * A BinaryReader over a MemoryStream on a byte array: the cursor the payload
 * parsers advance. Each read takes its little-endian value at the cursor
 * and moves past it.
 */
module BinaryReading {
  import opened Bytes
  import opened Words

  class BinaryReader {
    const data: seq<Byte>
    var position: nat

    ghost predicate Valid()
      reads this
    {
      position <= |data|
    }

    constructor(data: seq<Byte>)
      ensures this.data == data && position == 0 && Valid()
    {
      this.data := data;
      position := 0;
    }

    method ReadUInt32() returns (r: Word)
      requires Valid() && position + 4 <= |data|
      modifies this
      ensures Valid() && position == old(position) + 4
      ensures r == U32At(data, old(position))
    {
      r := U32At(data, position);
      position := position + 4;
    }

    /** ReadSingle: the float's bit pattern, uninterpreted. */
    method ReadSingle() returns (r: Word)
      requires Valid() && position + 4 <= |data|
      modifies this
      ensures Valid() && position == old(position) + 4
      ensures r == U32At(data, old(position))
    {
      r := U32At(data, position);
      position := position + 4;
    }

    method ReadInt32() returns (r: int)
      requires Valid() && position + 4 <= |data|
      modifies this
      ensures Valid() && position == old(position) + 4
      ensures r == Int32Of(U32At(data, old(position)))
    {
      r := Int32Of(U32At(data, position));
      position := position + 4;
    }

    method ReadUInt64() returns (r: nat)
      requires Valid() && position + 8 <= |data|
      modifies this
      ensures Valid() && position == old(position) + 8
      ensures r == U64Of(U32At(data, old(position)), U32At(data, old(position) + 4))
    {
      U64AtWords(data, position);
      r := U64At(data, position);
      position := position + 8;
    }

    method ReadByte() returns (r: Byte)
      requires Valid() && position < |data|
      modifies this
      ensures Valid() && position == old(position) + 1
      ensures r == data[old(position)]
    {
      r := data[position];
      position := position + 1;
    }
  }

  // Reads at a word offset of a payload read as words: each takes the word
  // the reader's next four bytes hold.

  method ReadInt32At(reader: BinaryReader, ghost w: seq<Word>, ghost i: nat) returns (r: int)
    requires reader.Valid() && WordsOf(reader.data, w) && reader.position == 4 * i && i + 1 <= |w|
    modifies reader
    ensures reader.Valid() && reader.position == old(reader.position) + 4
    ensures r == Int32Of(w[i])
  {
    WordOfWordsOf(reader.data, w, i);
    r := reader.ReadInt32();
  }

  method ReadUInt32At(reader: BinaryReader, ghost w: seq<Word>, ghost i: nat) returns (r: Word)
    requires reader.Valid() && WordsOf(reader.data, w) && reader.position == 4 * i && i + 1 <= |w|
    modifies reader
    ensures reader.Valid() && reader.position == old(reader.position) + 4
    ensures r == w[i]
  {
    WordOfWordsOf(reader.data, w, i);
    r := reader.ReadUInt32();
  }

  method ReadSingleAt(reader: BinaryReader, ghost w: seq<Word>, ghost i: nat) returns (r: Word)
    requires reader.Valid() && WordsOf(reader.data, w) && reader.position == 4 * i && i + 1 <= |w|
    modifies reader
    ensures reader.Valid() && reader.position == old(reader.position) + 4
    ensures r == w[i]
  {
    WordOfWordsOf(reader.data, w, i);
    r := reader.ReadSingle();
  }

  /** Two words, low word first. */
  method ReadUInt64At(reader: BinaryReader, ghost w: seq<Word>, ghost i: nat) returns (r: nat)
    requires reader.Valid() && WordsOf(reader.data, w) && reader.position == 4 * i && i + 2 <= |w|
    modifies reader
    ensures reader.Valid() && reader.position == old(reader.position) + 8
    ensures r == U64Of(w[i], w[i + 1])
  {
    WordOfWordsOf(reader.data, w, i);
    WordOfWordsOf(reader.data, w, i + 1);
    r := reader.ReadUInt64();
  }
}
