/**
 * `preflight_zip_archive` of `scripts/validate_governance_state.py` against a declarative reading of the ZIP
 * trailer: sections 4.3.12 and 4.3.16 of PKWARE's APPNOTE.TXT.
 */
module ZipPreflight {
  import opened Wrappers
  import opened ZipLayout

  const SEARCH_BYTES: nat := 22 + 0xFFFF

  predicate HasSignature(data: seq<Byte>, at: nat, third: Byte, fourth: Byte) {
    at + 4 <= |data| && data[at] == 0x50 && data[at + 1] == 0x4B && data[at + 2] == third && data[at + 3] == fourth
  }

  function U16(data: seq<Byte>, at: nat): (v: nat)
    requires at + 2 <= |data|
    ensures v <= 0xFFFF
  {
    data[at] as int + 0x100 * data[at + 1] as int
  }

  function U32(data: seq<Byte>, at: nat): nat
    requires at + 4 <= |data|
  {
    U16(data, at) + 0x1_0000 * U16(data, at + 2)
  }

  /** An end-of-central-directory record whose comment ends exactly at the end of the data. */
  predicate IsTrailer(data: seq<Byte>, at: nat) {
    && HasSignature(data, at, 5, 6)
    && at + EOCD_SIZE <= |data|
    && at + EOCD_SIZE + U16(data, at + 20) == |data|
  }

  predicate IsOnlyTrailer(data: seq<Byte>, at: nat) {
    IsTrailer(data, at) && forall other: nat :: other <= |data| && IsTrailer(data, other) ==> other == at
  }

  /** One central-directory record starts at `at` and ends at `next`. */
  predicate IsRecord(data: seq<Byte>, at: nat, next: nat) {
    && at + HEADER_SIZE <= next <= |data|
    && HasSignature(data, at, 1, 2)
    && next == at + HEADER_SIZE + U16(data, at + 28) + U16(data, at + 30) + U16(data, at + 32)
  }

  /** The cuts split the bytes between the first and the last of them into records, end to end. */
  ghost predicate IsTiling(data: seq<Byte>, cuts: seq<nat>, from: nat, to: nat) {
    && |cuts| > 0 && cuts[0] == from && cuts[|cuts| - 1] == to
    && forall i :: 0 <= i < |cuts| - 1 ==> IsRecord(data, cuts[i], cuts[i + 1])
  }

  /** The trailer speaks of one disk and of nothing that would need ZIP64, and its directory ends where it starts. */
  predicate IsPlainTrailer(data: seq<Byte>, at: nat)
    requires IsTrailer(data, at)
  {
    var total, size, offset := U16(data, at + 10), U32(data, at + 12), U32(data, at + 16);
    && U16(data, at + 4) == 0 && U16(data, at + 6) == 0 && U16(data, at + 8) == total
    && total != 0xFFFF && size != 0xFFFF_FFFF && offset != 0xFFFF_FFFF
    && total <= MAX_ENTRIES
    && offset + size == at
  }

  ghost predicate IsArchive(data: seq<Byte>, at: nat, cuts: seq<nat>) {
    && IsOnlyTrailer(data, at)
    && IsPlainTrailer(data, at)
    && |cuts| == U16(data, at + 10) + 1
    && IsTiling(data, cuts, U32(data, at + 16), at)
  }

  /** `bytes.find` for the trailer's signature. */
  function Find(data: seq<Byte>, from: nat): (r: Option<nat>)
    ensures r.Some? ==> from <= r.value < |data| && HasSignature(data, r.value, 5, 6)
    ensures forall at :: from <= at && (r.Some? ==> at < r.value) ==> !HasSignature(data, at, 5, 6)
    decreases |data| - from
  {
    if from >= |data| then None
    else if HasSignature(data, from, 5, 6) then Some(from)
    else Find(data, from + 1)
  }

  /** `n` records from `from` on end exactly at `to`. */
  ghost predicate Tiles(data: seq<Byte>, from: nat, to: nat, n: nat)
    requires to <= |data|
    decreases n
  {
    if n == 0 then
      from == to
    else
      && from + HEADER_SIZE <= to
      && HasSignature(data, from, 1, 2)
      && Tiles(data, After(data, from), to, n - 1)
  }

  function After(data: seq<Byte>, at: nat): nat
    requires at + HEADER_SIZE <= |data|
  {
    at + HEADER_SIZE + U16(data, at + 28) + U16(data, at + 30) + U16(data, at + 32)
  }

  lemma {:induction false} TilesNeverPass(data: seq<Byte>, from: nat, to: nat, n: nat)
    requires to <= |data| && Tiles(data, from, to, n)
    ensures from + HEADER_SIZE * n <= to
    decreases n
  {
    if n > 0 {
      TilesNeverPass(data, After(data, from), to, n - 1);
    }
  }

  lemma {:induction false} CutsOfTiles(data: seq<Byte>, from: nat, to: nat, n: nat) returns (cuts: seq<nat>)
    requires to <= |data| && Tiles(data, from, to, n)
    ensures |cuts| == n + 1 && IsTiling(data, cuts, from, to)
    decreases n
  {
    if n == 0 {
      cuts := [from];
    } else {
      var rest := CutsOfTiles(data, After(data, from), to, n - 1);
      TilesNeverPass(data, After(data, from), to, n - 1);
      cuts := [from] + rest;
      forall i | 0 <= i < |cuts| - 1
        ensures IsRecord(data, cuts[i], cuts[i + 1])
      {
        if i > 0 {
          assert IsRecord(data, rest[i - 1], rest[i]);
        }
      }
    }
  }

  lemma {:induction false} TilesOfCuts(data: seq<Byte>, cuts: seq<nat>, from: nat, to: nat)
    requires to <= |data| && IsTiling(data, cuts, from, to)
    ensures from <= to && Tiles(data, from, to, |cuts| - 1)
    decreases |cuts|
  {
    if |cuts| > 1 {
      var rest := cuts[1..];
      assert IsRecord(data, cuts[0], cuts[1]);
      forall i | 0 <= i < |rest| - 1
        ensures IsRecord(data, rest[i], rest[i + 1])
      {
        assert IsRecord(data, cuts[i + 1], cuts[i + 2]);
      }
      TilesOfCuts(data, rest, cuts[1], to);
    }
  }

  /** A tiling is found, if there is one, by stepping from record to record. */
  lemma ArchiveBySteps(data: seq<Byte>, at: nat)
    requires IsOnlyTrailer(data, at)
    ensures (exists where: nat, cuts :: IsArchive(data, where, cuts))
      <==> IsPlainTrailer(data, at) && Tiles(data, U32(data, at + 16), at, U16(data, at + 10))
  {
    if where: nat, cuts :| IsArchive(data, where, cuts) {
      assert where == at;
      TilesOfCuts(data, cuts, U32(data, at + 16), at);
    }
    if IsPlainTrailer(data, at) && Tiles(data, U32(data, at + 16), at, U16(data, at + 10)) {
      var cuts := CutsOfTiles(data, U32(data, at + 16), at, U16(data, at + 10));
      assert IsArchive(data, at, cuts);
    }
  }

  /** A directory can be read in one way only. */
  lemma {:induction false} TilingIsUnique(data: seq<Byte>, a: seq<nat>, b: seq<nat>, from: nat, to: nat)
    requires IsTiling(data, a, from, to) && IsTiling(data, b, from, to) && to <= |data|
    ensures a == b
    decreases |a|
  {
    if |a| > 1 && |b| > 1 {
      assert IsRecord(data, a[0], a[1]) && IsRecord(data, b[0], b[1]);
      TailTiles(data, a, to);
      TailTiles(data, b, to);
      TilingIsUnique(data, a[1..], b[1..], a[1], to);
      assert a == [a[0]] + a[1..] && b == [b[0]] + b[1..];
    } else if |a| > 1 {
      NonEmptyDirectory(data, a, to);
    } else if |b| > 1 {
      NonEmptyDirectory(data, b, to);
    }
  }

  lemma TailTiles(data: seq<Byte>, cuts: seq<nat>, to: nat)
    requires |cuts| > 1 && IsTiling(data, cuts, cuts[0], to)
    ensures IsTiling(data, cuts[1..], cuts[1], to)
  {
    forall i | 0 <= i < |cuts[1..]| - 1
      ensures IsRecord(data, cuts[1..][i], cuts[1..][i + 1])
    {
      assert IsRecord(data, cuts[i + 1], cuts[i + 2]);
    }
  }

  lemma NonEmptyDirectory(data: seq<Byte>, cuts: seq<nat>, to: nat)
    requires |cuts| > 1 && to <= |data| && IsTiling(data, cuts, cuts[0], to)
    ensures cuts[0] < to
  {
    TilesOfCuts(data, cuts, cuts[0], to);
    TilesNeverPass(data, cuts[0], to, |cuts| - 1);
  }

  // ----- reading what is written -----

  lemma ReadsBack16(data: seq<Byte>, at: nat, v: nat)
    requires at + 2 <= |data| && v < 0x1_0000
    ensures U16(data, at) == v <==> data[at] == Word16(v)[0] && data[at + 1] == Word16(v)[1]
  {
  }

  lemma SubSlice<T>(s: seq<T>, from: nat, to: nat, a: nat, b: nat)
    requires a <= b && from + b <= to <= |s|
    ensures s[from..to][a..b] == s[from + a..from + b]
  {
    forall i | 0 <= i < b - a
      ensures s[from..to][a..b][i] == s[from + a..from + b][i]
    {
      assert s[from..to][a + i] == s[from + a + i];
    }
  }

  lemma RecordIsTrailer(data: seq<Byte>, at: nat, middle: seq<Byte>, comment: seq<Byte>)
    requires |middle| == 16 && |comment| < 0x1_0000 && at <= |data|
    requires data[at..] == EndRecord(middle, |comment|) + comment
    ensures IsTrailer(data, at) && data[at + 4..at + 20] == middle
  {
    var record := EndRecord(middle, |comment|);
    assert forall i :: 0 <= i < EOCD_SIZE ==> data[at + i] == data[at..][i] == record[i];
    assert record[20] == Word16(|comment|)[0] && record[21] == Word16(|comment|)[1];
    ReadsBack16(data, at + 20, |comment|);
    assert data[at] == 0x50 && data[at + 1] == 0x4B && data[at + 2] == 5 && data[at + 3] == 6;
    SubSlice(data, at, |data|, 4, 20);
    assert (record + comment)[4..20] == middle;
  }

  lemma TrailerIsRecord(data: seq<Byte>, at: nat) returns (middle: seq<Byte>, comment: seq<Byte>)
    requires IsTrailer(data, at)
    ensures middle == data[at + 4..at + 20] && comment == data[at + 22..]
    ensures |comment| < 0x1_0000 && data[at..] == EndRecord(middle, |comment|) + comment
  {
    middle, comment := data[at + 4..at + 20], data[at + 22..];
    ReadsBack16(data, at + 20, |comment|);
    var record := EndRecord(middle, |comment|);
    assert record[..4] == [data[at], data[at + 1], data[at + 2], data[at + 3]];
    forall i | 0 <= i < EOCD_SIZE
      ensures data[at..][i] == record[i]
    {
    }
    assert data[at..] == data[at..at + 22] + comment;
    assert data[at..at + 22] == record;
  }

  /** The trailers that the search finds are the end records that end the data. */
  lemma TrailerIsWritten(data: seq<Byte>, at: nat)
    ensures IsTrailer(data, at) <==> EndsWithRecord(data, at)
  {
    if IsTrailer(data, at) {
      var middle, comment := TrailerIsRecord(data, at);
    }
    if middle: seq<Byte>, comment: seq<Byte> :|
      && |middle| == 16 && |comment| < 0x1_0000 && at <= |data|
      && data[at..] == EndRecord(middle, |comment|) + comment
    {
      RecordIsTrailer(data, at, middle, comment);
    }
  }

  lemma HeaderIsRecord(data: seq<Byte>, at: nat, h: FileHeader)
    requires h.IsWritable() && at + |h.Written()| <= |data| && data[at..at + |h.Written()|] == h.Written()
    ensures IsRecord(data, at, at + |h.Written()|)
  {
    var written := h.Written();
    assert forall i :: 0 <= i < HEADER_SIZE ==> data[at + i] == data[at..at + |written|][i] == written[i];
    ReadsBack16(data, at + 28, |h.name|);
    ReadsBack16(data, at + 30, |h.extra|);
    ReadsBack16(data, at + 32, |h.comment|);
    assert written[28] == Word16(|h.name|)[0] && written[29] == Word16(|h.name|)[1];
    assert written[30] == Word16(|h.extra|)[0] && written[31] == Word16(|h.extra|)[1];
    assert written[32] == Word16(|h.comment|)[0] && written[33] == Word16(|h.comment|)[1];
    assert data[at] == 0x50 && data[at + 1] == 0x4B && data[at + 2] == 1 && data[at + 3] == 2;
  }

  lemma RecordIsHeader(data: seq<Byte>, at: nat, next: nat) returns (h: FileHeader)
    requires IsRecord(data, at, next)
    ensures h.IsWritable() && data[at..next] == h.Written()
  {
    var n, e, c := U16(data, at + 28), U16(data, at + 30), U16(data, at + 32);
    var a, b := at + HEADER_SIZE + n, at + HEADER_SIZE + n + e;
    h := FileHeader(data[at + 4..at + 28], data[at + 34..at + 46], data[at + 46..a], data[a..b], data[b..next]);
    ReadsBack16(data, at + 28, n);
    ReadsBack16(data, at + 30, e);
    ReadsBack16(data, at + 32, c);
    var bytes := data[at..next];
    SubSlice(data, at, next, 4, 28);
    SubSlice(data, at, next, 34, 46);
    SubSlice(data, at, next, 28, 34);
    assert data[at + 28..at + 34]
        == [data[at + 28], data[at + 29], data[at + 30], data[at + 31], data[at + 32], data[at + 33]];
    assert bytes[46..] == h.name + h.extra + h.comment;
    FixedPart(bytes, h);
  }

  lemma FixedPart(bytes: seq<Byte>, h: FileHeader)
    requires h.IsWritable() && |bytes| >= HEADER_SIZE && HasSignature(bytes, 0, 1, 2)
    requires bytes[4..28] == h.before && bytes[34..46] == h.after
    requires bytes[28..34] == Word16(|h.name|) + Word16(|h.extra|) + Word16(|h.comment|)
    requires bytes[46..] == h.name + h.extra + h.comment
    ensures bytes == h.Written()
  {
    assert bytes == bytes[..4] + bytes[4..28] + bytes[28..34] + bytes[34..46] + bytes[46..];
  }

  lemma {:induction false} TilesAreHeaders(data: seq<Byte>, from: nat, to: nat, n: nat)
    returns (headers: seq<FileHeader>)
    requires to <= |data| && Tiles(data, from, to, n)
    ensures from <= to && |headers| == n && AreWritable(headers) && data[from..to] == Directory(headers)
    decreases n
  {
    headers := [];
    if n > 0 {
      var next := After(data, from);
      TilesNeverPass(data, next, to, n - 1);
      var rest := TilesAreHeaders(data, next, to, n - 1);
      var first := RecordIsHeader(data, from, next);
      headers := [first] + rest;
      assert headers[1..] == rest && data[from..to] == data[from..next] + data[next..to];
    }
  }

  lemma FirstHeader(data: seq<Byte>, from: nat, to: nat, first: FileHeader, rest: seq<Byte>)
    requires from <= to <= |data| && first.IsWritable() && data[from..to] == first.Written() + rest
    ensures from + |first.Written()| <= to && IsRecord(data, from, from + |first.Written()|)
    ensures data[from + |first.Written()|..to] == rest
  {
    var n := |first.Written()|;
    SubSlice(data, from, to, 0, n);
    SubSlice(data, from, to, n, to - from);
    assert data[from..to][..n] == first.Written() && data[from..to][n..] == rest;
    HeaderIsRecord(data, from, first);
  }

  lemma FirstOfDirectory(data: seq<Byte>, from: nat, to: nat, headers: seq<FileHeader>) returns (next: nat)
    requires from <= to <= |data| && AreWritable(headers) && headers != [] && data[from..to] == Directory(headers)
    ensures next <= to && AreWritable(headers[1..]) && data[next..to] == Directory(headers[1..])
    ensures Tiles(data, next, to, |headers| - 1) ==> Tiles(data, from, to, |headers|)
  {
    FirstHeader(data, from, to, headers[0], Directory(headers[1..]));
    next := from + |headers[0].Written()|;
    assert After(data, from) == next;
  }

  lemma {:induction false} HeadersAreTiles(data: seq<Byte>, from: nat, to: nat, headers: seq<FileHeader>)
    requires from <= to <= |data| && AreWritable(headers) && data[from..to] == Directory(headers)
    ensures Tiles(data, from, to, |headers|)
    decreases |headers|
  {
    if headers != [] {
      var next := FirstOfDirectory(data, from, to, headers);
      HeadersAreTiles(data, next, to, headers[1..]);
    }
  }

  lemma PartsOfMiddle(total: nat, size: nat, offset: nat)
    requires total < 0x1_0000 && size < 0x1_0000_0000 && offset < 0x1_0000_0000
    ensures var middle := Middle(total, size, offset);
      && middle[0..2] == middle[2..4] == Word16(0) && middle[4..6] == middle[6..8] == Word16(total)
      && middle[8..12] == Word32(size) && middle[12..16] == Word32(offset)
  {
  }

  /** A field of two bytes, `k` bytes into the end record. */
  lemma PartIsRead16(data: seq<Byte>, at: nat, k: nat, v: nat, middle: seq<Byte>)
    requires 4 <= k <= 18 && at + EOCD_SIZE <= |data| && middle == data[at + 4..at + 20]
    requires v < 0x1_0000 && middle[k - 4..k - 2] == Word16(v)
    ensures U16(data, at + k) == v
  {
    SubSlice(data, at + 4, at + 20, k - 4, k - 2);
    var read := data[at + k..at + k + 2];
    assert read[0] == data[at + k] && read[1] == data[at + k + 1];
  }

  lemma PartIsRead32(data: seq<Byte>, at: nat, k: nat, v: nat, middle: seq<Byte>)
    requires 4 <= k <= 16 && at + EOCD_SIZE <= |data| && middle == data[at + 4..at + 20]
    requires v < 0x1_0000_0000 && middle[k - 4..k] == Word32(v)
    ensures U32(data, at + k) == v
  {
    var word := middle[k - 4..k];
    SubSlice(middle, k - 4, k, 0, 2);
    SubSlice(middle, k - 4, k, 2, 4);
    assert word[..2] == Word16(v % 0x1_0000) && word[2..] == Word16(v / 0x1_0000);
    PartIsRead16(data, at, k, v % 0x1_0000, middle);
    PartIsRead16(data, at, k + 2, v / 0x1_0000, middle);
  }

  lemma WrittenIsPlain(data: seq<Byte>, at: nat, total: nat, size: nat, offset: nat)
    requires IsTrailer(data, at) && total <= MAX_ENTRIES && size < 0xFFFF_FFFF && offset < 0xFFFF_FFFF
    requires offset + size == at
    requires data[at + 4..at + 20] == Middle(total, size, offset)
    ensures IsPlainTrailer(data, at)
    ensures U16(data, at + 10) == total && U32(data, at + 12) == size && U32(data, at + 16) == offset
  {
    PartsOfMiddle(total, size, offset);
    PartIsRead16(data, at, 4, 0, data[at + 4..at + 20]);
    PartIsRead16(data, at, 6, 0, data[at + 4..at + 20]);
    PartIsRead16(data, at, 8, total, data[at + 4..at + 20]);
    PartIsRead16(data, at, 10, total, data[at + 4..at + 20]);
    PartIsRead32(data, at, 12, size, data[at + 4..at + 20]);
    PartIsRead32(data, at, 16, offset, data[at + 4..at + 20]);
  }

  lemma Field16(data: seq<Byte>, at: nat)
    requires at + 2 <= |data|
    ensures data[at..at + 2] == Word16(U16(data, at))
  {
    ReadsBack16(data, at, U16(data, at));
  }

  lemma Field32(data: seq<Byte>, at: nat)
    requires at + 4 <= |data|
    ensures U32(data, at) < 0x1_0000_0000 && data[at..at + 4] == Word32(U32(data, at))
  {
    var low, high := U16(data, at), U16(data, at + 2);
    assert U32(data, at) % 0x1_0000 == low && U32(data, at) / 0x1_0000 == high;
    Field16(data, at);
    Field16(data, at + 2);
    assert data[at..at + 4] == data[at..at + 2] + data[at + 2..at + 4];
  }

  lemma PlainIsWritten(data: seq<Byte>, at: nat)
    requires IsTrailer(data, at) && IsPlainTrailer(data, at)
    ensures U32(data, at + 12) < 0xFFFF_FFFF && U32(data, at + 16) < 0xFFFF_FFFF
    ensures data[at + 4..at + 20] == Middle(U16(data, at + 10), U32(data, at + 12), U32(data, at + 16))
  {
    Field16(data, at + 4);
    Field16(data, at + 6);
    Field16(data, at + 8);
    Field16(data, at + 10);
    Field32(data, at + 12);
    Field32(data, at + 16);
    assert data[at + 4..at + 20]
        == data[at + 4..at + 6] + data[at + 6..at + 8] + data[at + 8..at + 10] + data[at + 10..at + 12]
           + data[at + 12..at + 16] + data[at + 16..at + 20];
  }

  /** No other end record means no other trailer. */
  lemma OnlyRecord(data: seq<Byte>, at: nat)
    ensures IsOnlyTrailer(data, at) <==>
      EndsWithRecord(data, at) && forall other: nat :: EndsWithRecord(data, other) ==> other == at
  {
    forall other: nat
      ensures IsTrailer(data, other) <==> EndsWithRecord(data, other)
    {
      TrailerIsWritten(data, other);
    }
  }

  /** The parts of a written archive as parts of the data. */
  ghost predicate IsSplit(data: seq<Byte>, offset: nat, at: nat, headers: seq<FileHeader>, comment: seq<Byte>) {
    && AreWritable(headers) && |headers| <= MAX_ENTRIES && |comment| < 0x1_0000
    && offset <= at <= |data| && at - offset < 0xFFFF_FFFF && offset < 0xFFFF_FFFF
    && data[offset..at] == Directory(headers)
    && data[at..] == EndRecord(Middle(|headers|, at - offset, offset), |comment|) + comment
    && forall other: nat :: EndsWithRecord(data, other) ==> other == at
  }

  lemma SplitIsWritten(data: seq<Byte>, offset: nat, at: nat, headers: seq<FileHeader>, comment: seq<Byte>)
    returns (archive: Archive)
    requires IsSplit(data, offset, at, headers, comment)
    ensures IsWrittenAs(data, archive)
  {
    archive := Archive(data[..offset], headers, comment);
    assert |Directory(headers)| == at - offset;
    assert data == data[..offset] + data[offset..at] + data[at..];
  }

  lemma ThreeParts<T>(a: seq<T>, b: seq<T>, c: seq<T>, d: seq<T>)
    ensures (a + b + c + d)[|a|..|a| + |b|] == b && (a + b + c + d)[|a| + |b|..] == c + d
  {
    assert a + b + c + d == a + b + (c + d);
  }

  lemma WrittenIsSplit(data: seq<Byte>, archive: Archive) returns (offset: nat, at: nat)
    requires IsWrittenAs(data, archive)
    ensures IsSplit(data, offset, at, archive.headers, archive.comment)
  {
    offset, at := |archive.content|, archive.EndAt();
    var record := EndRecord(Middle(|archive.headers|, at - offset, offset), |archive.comment|);
    ThreeParts(archive.content, Directory(archive.headers), record, archive.comment);
  }

  lemma ArchiveIsSplit(data: seq<Byte>, at: nat) returns (headers: seq<FileHeader>, comment: seq<Byte>)
    requires IsOnlyTrailer(data, at) && IsPlainTrailer(data, at)
    requires Tiles(data, U32(data, at + 16), at, U16(data, at + 10))
    ensures IsSplit(data, U32(data, at + 16), at, headers, comment)
  {
    var middle;
    middle, comment := TrailerIsRecord(data, at);
    headers := TilesAreHeaders(data, U32(data, at + 16), at, U16(data, at + 10));
    PlainIsWritten(data, at);
    OnlyRecord(data, at);
  }

  lemma SplitHasTiling(data: seq<Byte>, offset: nat, at: nat, headers: seq<FileHeader>, comment: seq<Byte>)
    returns (cuts: seq<nat>)
    requires IsSplit(data, offset, at, headers, comment)
    ensures IsArchive(data, at, cuts)
  {
    var middle := Middle(|headers|, at - offset, offset);
    assert EndsWithRecord(data, at);
    OnlyRecord(data, at);
    RecordIsTrailer(data, at, middle, comment);
    WrittenIsPlain(data, at, |headers|, at - offset, offset);
    HeadersAreTiles(data, offset, at, headers);
    cuts := CutsOfTiles(data, offset, at, |headers|);
  }

  /** The data are what some archive is written as. */
  ghost predicate IsZip(data: seq<Byte>) {
    exists archive :: IsWrittenAs(data, archive)
  }

  /** The archives by offsets and counts are the archives as they are written. */
  lemma ArchivesAreWritten(data: seq<Byte>)
    ensures (exists at: nat, cuts :: IsArchive(data, at, cuts)) <==> IsZip(data)
  {
    if at: nat, cuts :| IsArchive(data, at, cuts) {
      TilesOfCuts(data, cuts, U32(data, at + 16), at);
      var headers, comment := ArchiveIsSplit(data, at);
      var archive := SplitIsWritten(data, U32(data, at + 16), at, headers, comment);
    }
    if archive :| IsWrittenAs(data, archive) {
      var offset, at := WrittenIsSplit(data, archive);
      var cuts := SplitHasTiling(data, offset, at, archive.headers, archive.comment);
    }
  }

  lemma ZipBySteps(data: seq<Byte>, at: nat)
    requires IsOnlyTrailer(data, at)
    ensures IsZip(data)
      <==> IsPlainTrailer(data, at) && Tiles(data, U32(data, at + 16), at, U16(data, at + 10))
  {
    ArchivesAreWritten(data);
    ArchiveBySteps(data, at);
  }

  /** The search window misses no trailer, because a comment has at most 65535 bytes. */
  method TrailerCandidates(data: seq<Byte>) returns (candidates: seq<nat>)
    requires |data| >= EOCD_SIZE
    ensures forall at: nat :: at in candidates <==> IsTrailer(data, at)
    ensures forall i, j :: 0 <= i < j < |candidates| ==> candidates[i] < candidates[j]
  {
    var start: nat := if |data| >= SEARCH_BYTES then |data| - SEARCH_BYTES else 0;
    candidates := [];
    var offset := Find(data, start);
    while offset.Some?
      invariant forall at: nat :: at in candidates <==> IsTrailer(data, at) && (offset.Some? ==> at < offset.value)
      invariant forall i, j :: 0 <= i < j < |candidates| ==> candidates[i] < candidates[j]
      invariant offset.Some? ==> offset.value < |data| && HasSignature(data, offset.value, 5, 6)
      decreases if offset.Some? then |data| - offset.value else -1
    {
      var at := offset.value;
      if at + EOCD_SIZE <= |data| {
        if at + EOCD_SIZE + U16(data, at + 20) == |data| {
          assert forall i :: 0 <= i < |candidates| ==> candidates[i] in candidates;
          candidates := candidates + [at];
        }
      }
      offset := Find(data, at + 1);
    }
  }

  /** From record to record until the trailer is reached: are there exactly `total` of them? */
  method WalkDirectory(data: seq<Byte>, offset: nat, eocd: nat, total: nat) returns (tiled: bool)
    requires offset <= eocd <= |data| && total <= MAX_ENTRIES
    ensures tiled <==> Tiles(data, offset, eocd, total)
  {
    var central, parsed := offset, 0;
    while central < eocd
      invariant central <= eocd
      invariant Tiles(data, offset, eocd, total) <==> parsed <= total && Tiles(data, central, eocd, total - parsed)
      invariant parsed <= MAX_ENTRIES
      decreases eocd - central
    {
      if parsed >= MAX_ENTRIES {
        return false;
      }
      if central + HEADER_SIZE > eocd || !HasSignature(data, central, 1, 2) {
        return false;
      }
      if After(data, central) > eocd {
        return false;
      }
      central := After(data, central);
      parsed := parsed + 1;
    }
    tiled := parsed == total;
  }

  /**
   * Accepts exactly the data in which one trailer ends at the end of the data, speaks of a single-disk archive
   * without ZIP64, and is preceded by a directory that splits into exactly as many records as it announces: the
   * data that some archive is written as.
   */
  method Preflight(data: seq<Byte>) returns (accepted: bool)
    ensures accepted <==> IsZip(data)
  {
    if |data| < EOCD_SIZE {
      NotOnlyTrailer(data, []);
      return false;
    }
    var candidates := TrailerCandidates(data);
    if |candidates| != 1 {
      NotOnlyTrailer(data, candidates);
      return false;
    }
    var eocd := candidates[0];
    assert IsOnlyTrailer(data, eocd);
    ZipBySteps(data, eocd);
    var total, size, offset := U16(data, eocd + 10), U32(data, eocd + 12), U32(data, eocd + 16);
    if U16(data, eocd + 4) != 0 || U16(data, eocd + 6) != 0 || U16(data, eocd + 8) != total {
      return false;
    }
    if total == 0xFFFF || size == 0xFFFF_FFFF || offset == 0xFFFF_FFFF {
      return false;
    }
    if total > MAX_ENTRIES {
      return false;
    }
    if offset + size != eocd {
      return false;
    }
    accepted := WalkDirectory(data, offset, eocd, total);
  }

  lemma NotOnlyTrailer(data: seq<Byte>, candidates: seq<nat>)
    requires forall at: nat :: at in candidates <==> IsTrailer(data, at)
    requires forall i, j :: 0 <= i < j < |candidates| ==> candidates[i] < candidates[j]
    requires |candidates| != 1
    ensures !IsZip(data)
  {
    if |candidates| > 1 {
      assert IsTrailer(data, candidates[0]) && IsTrailer(data, candidates[1]);
    }
    assert forall at: nat :: !IsOnlyTrailer(data, at);
    ArchivesAreWritten(data);
  }
}
