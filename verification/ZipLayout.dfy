/**
 * ZIP archives as they are written, byte by byte: sections 4.3.12 and 4.3.16 of PKWARE's APPNOTE.TXT, with numbers
 * in little-endian order (section 4.4.1).
 */
module ZipLayout {
  import opened Wrappers

  const EOCD_SIZE: nat := 22
  const HEADER_SIZE: nat := 46
  const MAX_ENTRIES: nat := 1000

  /** Two bytes, the low one first. */
  function Word16(v: nat): (bytes: seq<Byte>)
    requires v < 0x1_0000
    ensures |bytes| == 2
  {
    [v % 0x100, v / 0x100]
  }

  /** Four bytes, the low half first. */
  function Word32(v: nat): (bytes: seq<Byte>)
    requires v < 0x1_0000_0000
    ensures |bytes| == 4
  {
    Word16(v % 0x1_0000) + Word16(v / 0x1_0000)
  }

  /** A file header of the central directory: the fields that the preflight skips, and the three of any length. */
  datatype FileHeader = FileHeader(
    before: seq<Byte>,
    after: seq<Byte>,
    name: seq<Byte>,
    extra: seq<Byte>,
    comment: seq<Byte>)
  {
    predicate IsWritable() {
      |before| == 24 && |after| == 12 && |name| < 0x1_0000 && |extra| < 0x1_0000 && |comment| < 0x1_0000
    }

    function Written(): (bytes: seq<Byte>)
      requires IsWritable()
      ensures |bytes| == HEADER_SIZE + |name| + |extra| + |comment|
    {
      [0x50, 0x4B, 1, 2] + before + Word16(|name|) + Word16(|extra|) + Word16(|comment|) + after
      + name + extra + comment
    }
  }

  predicate AreWritable(headers: seq<FileHeader>) {
    forall i :: 0 <= i < |headers| ==> headers[i].IsWritable()
  }

  function Directory(headers: seq<FileHeader>): seq<Byte>
    requires AreWritable(headers)
  {
    if headers == [] then [] else headers[0].Written() + Directory(headers[1..])
  }

  /** The end record with its twelve fields, before the comment. */
  function EndRecord(middle: seq<Byte>, commentLength: nat): (bytes: seq<Byte>)
    requires |middle| == 16 && commentLength < 0x1_0000
    ensures |bytes| == EOCD_SIZE
  {
    [0x50, 0x4B, 5, 6] + middle + Word16(commentLength)
  }

  /** Disk numbers, both counts, size and offset of the directory. */
  function Middle(total: nat, size: nat, offset: nat): (bytes: seq<Byte>)
    requires total < 0x1_0000 && size < 0x1_0000_0000 && offset < 0x1_0000_0000
    ensures |bytes| == 16
  {
    Word16(0) + Word16(0) + Word16(total) + Word16(total) + Word32(size) + Word32(offset)
  }

  /** An end record and its comment end the data, after `at` bytes. */
  ghost predicate EndsWithRecord(data: seq<Byte>, at: nat) {
    exists middle: seq<Byte>, comment: seq<Byte> ::
      && |middle| == 16 && |comment| < 0x1_0000 && at <= |data|
      && data[at..] == EndRecord(middle, |comment|) + comment
  }

  /** Whatever comes before the directory, the directory, the end record, and its comment. */
  datatype Archive = Archive(content: seq<Byte>, headers: seq<FileHeader>, comment: seq<Byte>) {
    /** Few enough headers, and sizes that need no ZIP64. */
    predicate IsWritable() {
      && AreWritable(headers) && |headers| <= MAX_ENTRIES && |comment| < 0x1_0000
      && |Directory(headers)| < 0xFFFF_FFFF && |content| < 0xFFFF_FFFF
    }

    function EndAt(): nat
      requires IsWritable()
    {
      |content| + |Directory(headers)|
    }

    function Written(): seq<Byte>
      requires IsWritable()
    {
      content + Directory(headers)
      + EndRecord(Middle(|headers|, |Directory(headers)|, |content|), |comment|) + comment
    }
  }

  /** The data are the archive as written, and hold no other end record that ends the data. */
  ghost predicate IsWrittenAs(data: seq<Byte>, archive: Archive) {
    && archive.IsWritable()
    && data == archive.Written()
    && forall at: nat :: EndsWithRecord(data, at) ==> at == archive.EndAt()
  }
}
