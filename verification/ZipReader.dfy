/**
 * The bounded ZIP reader (apps/run-supervisor/src/zip-reader.ts): the backward search for the
 * end-of-central-directory record, the walk over the central directory with its limits, and the
 * offsets of a member's data. The writer it is proved against lays an archive out as sections
 * 4.3.7, 4.3.12 and 4.3.16 of PKWARE's APPNOTE.TXT describe it.
 */
module ZipReader {
  import opened Wrappers
  import opened ZipBytes
  import opened ZipLayout

  datatype ArchiveError = Invalid | EntryOutsideRoot | ExpansionLimit | InflateFailed

  datatype ZipLimits = ZipLimits(maxEntries: nat, maxEntryBytes: nat, maxTotalBytes: nat, maxCompressionRatio: nat)

  datatype ZipEntry = ZipEntry(
    name: string, compressionMethod: nat, compressedSize: nat, uncompressedSize: nat,
    localHeaderOffset: nat, isDirectory: bool)

  const MAX_COMMENT_SIZE := 0xffff

  // ----- Entry names

  /** The parts of a name between slashes and backslashes. */
  function Segments(name: string): (segments: seq<string>)
    ensures |segments| > 0
  {
    if name == "" then [""]
    else
      var rest := Segments(name[1..]);
      if name[0] == '/' || name[0] == '\\' then [""] + rest
      else [[name[0]] + rest[0]] + rest[1..]
  }

  predicate IsLetter(c: char) {
    'A' <= c <= 'Z' || 'a' <= c <= 'z'
  }

  predicate IsAbsolute(name: string) {
    || (name != "" && (name[0] == '/' || name[0] == '\\'))
    || (|name| >= 2 && IsLetter(name[0]) && name[1] == ':')
  }

  function NameError(name: string): Option<ArchiveError> {
    if '\0' in name then Some(Invalid)
    else if IsAbsolute(name) || ".." in Segments(name) then Some(EntryOutsideRoot)
    else None
  }

  /** Two dots at position `i` that make up all there is between slashes, backslashes and the ends of the name. */
  predicate UpAt(name: string, i: nat) {
    && i + 2 <= |name| && name[i] == '.' && name[i + 1] == '.'
    && (i == 0 || name[i - 1] == '/' || name[i - 1] == '\\')
    && (i + 2 == |name| || name[i + 2] == '/' || name[i + 2] == '\\')
  }

  /** The first segment ends at the first slash or backslash. */
  lemma {:induction false} FirstSegment(name: string)
    ensures var first := Segments(name)[0];
            && first <= name && (forall c :: c in first ==> c != '/' && c != '\\')
            && (|first| < |name| ==> name[|first|] == '/' || name[|first|] == '\\')
  {
    if name != "" && name[0] != '/' && name[0] != '\\' {
      FirstSegment(name[1..]);
      var rest := Segments(name[1..])[0];
      assert name == [name[0]] + name[1..];
      assert |rest| < |name[1..]| ==> name[1..][|rest|] == name[|rest| + 1];
    }
  }

  lemma FirstIsUp(name: string)
    ensures Segments(name)[0] == ".." <==> UpAt(name, 0)
  {
    FirstSegment(name);
    var first := Segments(name)[0];
    assert forall k :: 0 <= k < |first| ==> first[k] == name[k] && first[k] in first;
    if UpAt(name, 0) {
      assert |first| == 2;
      assert first == name[..2] == "..";
    }
  }

  lemma UpMoves(name: string, i: nat)
    requires name != "" && (i > 0 || name[0] == '/' || name[0] == '\\')
    ensures UpAt(name[1..], i) <==> UpAt(name, i + 1)
  {
  }

  lemma {:induction false} LaterIsUp(name: string)
    ensures ".." in Segments(name)[1..] <==> exists i :: i > 0 && UpAt(name, i)
  {
    if name != "" {
      var rest := name[1..];
      FirstIsUp(rest);
      LaterIsUp(rest);
      var slash := name[0] == '/' || name[0] == '\\';
      assert Segments(rest) == [Segments(rest)[0]] + Segments(rest)[1..];
      assert Segments(name)[1..] == if slash then Segments(rest) else Segments(rest)[1..];
      if i :| i > 0 && UpAt(name, i) {
        assert i == 1 ==> slash;
        UpMoves(name, i - 1);
      }
      if i :| UpAt(rest, i) && (i > 0 || slash) {
        UpMoves(name, i);
      }
    }
  }

  /** Which names are refused, in terms of their characters, and with which code. */
  lemma NameIsRefusedExactlyWhen(name: string)
    ensures NameError(name) == Some(Invalid) <==> '\0' in name
    ensures NameError(name) == Some(EntryOutsideRoot)
            <==> '\0' !in name
                 && (|| (|name| > 0 && (name[0] == '/' || name[0] == '\\'))
                     || (|name| > 1 && ('A' <= name[0] <= 'Z' || 'a' <= name[0] <= 'z') && name[1] == ':')
                     || exists i :: UpAt(name, i))
    ensures NameError(name).Some? ==> NameError(name).value.Invalid? || NameError(name).value.EntryOutsideRoot?
  {
    FirstIsUp(name);
    LaterIsUp(name);
    assert Segments(name) == [Segments(name)[0]] + Segments(name)[1..];
  }

  /** Where a relative path leads when it is followed segment by segment from a directory. */
  function Follow(directory: seq<string>, segments: seq<string>): seq<string>
    decreases |segments|
  {
    if segments == [] then directory
    else if segments[0] == "" || segments[0] == "." then Follow(directory, segments[1..])
    else if segments[0] == ".." then
      Follow(if directory == [] then [] else directory[..|directory| - 1], segments[1..])
    else Follow(directory + [segments[0]], segments[1..])
  }

  lemma {:induction false} FollowDescends(directory: seq<string>, segments: seq<string>)
    requires ".." !in segments
    ensures directory <= Follow(directory, segments)
    decreases |segments|
  {
    if segments == [] {
    } else if segments[0] == "" || segments[0] == "." {
      FollowDescends(directory, segments[1..]);
    } else {
      FollowDescends(directory + [segments[0]], segments[1..]);
    }
  }

  /** An accepted name, and every prefix of it, leads to a place under the archive's root. */
  lemma SafeNameStaysInside(root: seq<string>, name: string, k: nat)
    requires NameError(name) == None && k <= |Segments(name)|
    ensures root <= Follow(root, Segments(name)[..k])
  {
    FollowDescends(root, Segments(name)[..k]);
  }

  // ----- End of central directory

  /** The greatest position in `start..i` that carries the signature. */
  function SearchBack(b: seq<Byte>, i: int, start: nat): (r: Option<nat>)
    requires i + 4 <= |b|
    ensures r.Some? ==> start <= r.value <= i && U32(b, r.value) == EOCD_SIGNATURE
    ensures forall j :: start <= j <= i && (r.Some? ==> r.value < j) ==> U32(b, j) != EOCD_SIGNATURE
    decreases i
  {
    if i < start then None
    else if U32(b, i) == EOCD_SIGNATURE then Some(i)
    else SearchBack(b, i - 1, start)
  }

  function SearchStart(b: seq<Byte>): nat {
    if |b| < EOCD_SIZE + MAX_COMMENT_SIZE then 0 else |b| - (EOCD_SIZE + MAX_COMMENT_SIZE)
  }

  function EndOfCentralDirectory(b: seq<Byte>): (r: Option<nat>)
    ensures r.Some? ==> r.value + EOCD_SIZE <= |b|
  {
    SearchBack(b, |b| - EOCD_SIZE, SearchStart(b))
  }

  method FindEndOfCentralDirectory(b: seq<Byte>) returns (r: Result<nat, ArchiveError>)
    ensures r == match EndOfCentralDirectory(b) case Some(i) => Ok(i) case None => Err(Invalid)
  {
    var start := SearchStart(b);
    var i := |b| - EOCD_SIZE;
    while i >= start
      invariant i + EOCD_SIZE <= |b|
      invariant EndOfCentralDirectory(b) == SearchBack(b, i, start)
      decreases i
    {
      if U32(b, i) == EOCD_SIGNATURE {
        return Ok(i);
      }
      i := i - 1;
    }
    return Err(Invalid);
  }

  // ----- Central directory

  datatype Parsed = Parsed(entry: ZipEntry, size: nat)

  /** What the record at `offset` says and how long it is; a name is clamped to the buffer. */
  function ParseRecord(b: seq<Byte>, offset: nat, utf8: seq<Byte> -> string): Option<Parsed> {
    if offset + CENTRAL_SIZE > |b| || U32(b, offset) != CENTRAL_SIGNATURE then None
    else
      var name := utf8(Slice(b, offset + CENTRAL_SIZE, offset + CENTRAL_SIZE + U16(b, offset + 28)));
      Some(Parsed(
             ZipEntry(name, U16(b, offset + 10), U32(b, offset + 20), U32(b, offset + 24), U32(b, offset + 42),
                      name != "" && name[|name| - 1] == '/'),
             CENTRAL_SIZE + U16(b, offset + 28) + U16(b, offset + 30) + U16(b, offset + 32)))
  }

  /** Why an entry is refused when the entries before it add up to `total` bytes. */
  function Refusal(entry: ZipEntry, total: nat, limits: ZipLimits): Option<ArchiveError> {
    if NameError(entry.name).Some? then NameError(entry.name)
    else if entry.uncompressedSize > limits.maxEntryBytes then Some(ExpansionLimit)
    else if entry.compressedSize > 0 && entry.uncompressedSize > limits.maxCompressionRatio * entry.compressedSize
    then Some(ExpansionLimit)
    else if total + entry.uncompressedSize > limits.maxTotalBytes then Some(ExpansionLimit)
    else None
  }

  type Parse = nat -> Option<Parsed>
  type Refuse = (ZipEntry, nat) -> Option<ArchiveError>

  /** Reads `count` records from `offset` on, given how one is parsed and why an entry is refused. */
  function ReadRecords(parse: Parse, refuse: Refuse, offset: nat, count: nat, total: nat)
    : (r: Result<seq<ZipEntry>, ArchiveError>)
    decreases count
  {
    if count == 0 then Ok([])
    else
      match parse(offset)
      case None => Err(Invalid)
      case Some(Parsed(entry, size)) =>
        match refuse(entry, total)
        case Some(e) => Err(e)
        case None =>
          match ReadRecords(parse, refuse, offset + size, count - 1, total + entry.uncompressedSize)
          case Err(e) => Err(e)
          case Ok(entries) => Ok([entry] + entries)
  }

  method ReadDirectory(parse: Parse, refuse: Refuse, directoryOffset: nat, entryCount: nat)
    returns (r: Result<seq<ZipEntry>, ArchiveError>)
    ensures r == ReadRecords(parse, refuse, directoryOffset, entryCount, 0)
  {
    var entries: seq<ZipEntry> := [];
    var offset: nat := directoryOffset;
    var totalUncompressed: nat := 0;
    var i: nat := 0;
    ghost var goal := ReadRecords(parse, refuse, offset, entryCount, 0);
    PrependNothing(goal);
    while i < entryCount
      invariant i <= entryCount
      invariant goal == Prepend(entries, ReadRecords(parse, refuse, offset, entryCount - i, totalUncompressed))
    {
      var record := parse(offset);
      if record.None? {
        return Err(Invalid);
      }
      var Parsed(entry, size) := record.value;
      var refusal := refuse(entry, totalUncompressed);
      if refusal.Some? {
        return Err(refusal.value);
      }
      PrependTwice(entries, entry, ReadRecords(parse, refuse, offset + size, entryCount - (i + 1),
                                               totalUncompressed + entry.uncompressedSize));
      totalUncompressed := totalUncompressed + entry.uncompressedSize;
      entries := entries + [entry];
      offset := offset + size;
      i := i + 1;
    }
    assert entries + [] == entries;
    return Ok(entries);
  }

  ghost function Prepend<T, E>(front: seq<T>, r: Result<seq<T>, E>): Result<seq<T>, E> {
    match r case Ok(back) => Ok(front + back) case Err(e) => Err(e)
  }

  lemma PrependNothing<T, E>(r: Result<seq<T>, E>)
    ensures Prepend([], r) == r
  {
    if r.Ok? {
      assert [] + r.value == r.value;
    }
  }

  lemma PrependTwice<T, E>(front: seq<T>, x: T, r: Result<seq<T>, E>)
    ensures Prepend(front, Prepend([x], r)) == Prepend(front + [x], r)
  {
    if r.Ok? {
      assert front + ([x] + r.value) == front + [x] + r.value;
    }
  }

  function Parser(b: seq<Byte>, utf8: seq<Byte> -> string): Parse {
    (offset: nat) => ParseRecord(b, offset, utf8)
  }

  function Refuser(limits: ZipLimits): Refuse {
    (entry: ZipEntry, total: nat) => Refusal(entry, total, limits)
  }

  /** Reading the directory that the end record at `eocd` points to. */
  function ReadFrom(b: seq<Byte>, eocd: nat, limits: ZipLimits, utf8: seq<Byte> -> string)
    : Result<seq<ZipEntry>, ArchiveError>
    requires eocd + EOCD_SIZE <= |b|
  {
    if U16(b, eocd + 10) > limits.maxEntries then Err(ExpansionLimit)
    else if U32(b, eocd + 16) >= |b| then Err(Invalid)
    else ReadRecords(Parser(b, utf8), Refuser(limits), U32(b, eocd + 16), U16(b, eocd + 10), 0)
  }

  function ReadArchive(b: seq<Byte>, limits: ZipLimits, utf8: seq<Byte> -> string)
    : Result<seq<ZipEntry>, ArchiveError>
  {
    match EndOfCentralDirectory(b)
    case None => Err(Invalid)
    case Some(eocd) => ReadFrom(b, eocd, limits, utf8)
  }

  method ReadZipEntries(b: seq<Byte>, limits: ZipLimits, utf8: seq<Byte> -> string)
    returns (r: Result<seq<ZipEntry>, ArchiveError>)
    ensures r == ReadArchive(b, limits, utf8)
  {
    var end := FindEndOfCentralDirectory(b);
    if end.Err? {
      return Err(end.error);
    }
    var entryCount := U16(b, end.value + 10);
    var directoryOffset := U32(b, end.value + 16);
    if entryCount > limits.maxEntries {
      return Err(ExpansionLimit);
    }
    if directoryOffset >= |b| {
      return Err(Invalid);
    }

    r := ReadDirectory(Parser(b, utf8), Refuser(limits), directoryOffset, entryCount);
  }

  function TotalSize(entries: seq<ZipEntry>): nat {
    if entries == [] then 0 else entries[0].uncompressedSize + TotalSize(entries[1..])
  }

  ghost predicate WithinLimits(entry: ZipEntry, limits: ZipLimits) {
    && NameError(entry.name) == None
    && entry.uncompressedSize <= limits.maxEntryBytes
    && (entry.compressedSize > 0 ==> entry.uncompressedSize <= limits.maxCompressionRatio * entry.compressedSize)
  }

  ghost predicate AllWithin(entries: seq<ZipEntry>, total: nat, limits: ZipLimits) {
    && total + TotalSize(entries) <= limits.maxTotalBytes
    && forall entry :: entry in entries ==> WithinLimits(entry, limits)
  }

  /** No entry is refused after the ones before it. */
  ghost predicate Admitted(refuse: Refuse, entries: seq<ZipEntry>, total: nat)
    decreases |entries|
  {
    entries == [] ||
    (refuse(entries[0], total).None? && Admitted(refuse, entries[1..], total + entries[0].uncompressedSize))
  }

  lemma RefusalMeans(entry: ZipEntry, total: nat, limits: ZipLimits)
    ensures Refusal(entry, total, limits).None?
            <==> WithinLimits(entry, limits) && total + entry.uncompressedSize <= limits.maxTotalBytes
    ensures NameError(entry.name).Some? ==> Refusal(entry, total, limits) == NameError(entry.name)
    ensures NameError(entry.name).None? && Refusal(entry, total, limits).Some? ==>
              Refusal(entry, total, limits) == Some(ExpansionLimit)
  {
  }

  /** Of the entries that are not admitted the first is refused with this error. */
  ghost predicate RefusedWith(refuse: Refuse, entries: seq<ZipEntry>, total: nat, e: ArchiveError)
    decreases |entries|
  {
    && entries != []
    && if refuse(entries[0], total).Some? then refuse(entries[0], total) == Some(e)
       else RefusedWith(refuse, entries[1..], total + entries[0].uncompressedSize, e)
  }

  /** What an error tells of the entries. */
  ghost predicate Tells(e: ArchiveError, entries: seq<ZipEntry>, total: nat, limits: ZipLimits) {
    match e
    case Invalid => exists entry :: entry in entries && '\0' in entry.name
    case EntryOutsideRoot => exists entry :: entry in entries && NameError(entry.name) == Some(EntryOutsideRoot)
    case ExpansionLimit =>
      || total + TotalSize(entries) > limits.maxTotalBytes
      || exists entry :: entry in entries && NameError(entry.name).None? && !WithinLimits(entry, limits)
    case InflateFailed => false
  }

  lemma {:induction false} RefusedWithTells(entries: seq<ZipEntry>, total: nat, limits: ZipLimits, e: ArchiveError)
    requires RefusedWith(Refuser(limits), entries, total, e)
    ensures Tells(e, entries, total, limits)
    decreases |entries|
  {
    var entry, rest := entries[0], entries[1..];
    assert entry in entries && forall x :: x in rest ==> x in entries;
    RefusalMeans(entry, total, limits);
    NameIsRefusedExactlyWhen(entry.name);
    if Refusal(entry, total, limits).None? {
      RefusedWithTells(rest, total + entry.uncompressedSize, limits, e);
    }
  }

  lemma {:induction false} AdmittedMeans(entries: seq<ZipEntry>, total: nat, limits: ZipLimits)
    requires total <= limits.maxTotalBytes
    ensures Admitted(Refuser(limits), entries, total) <==> AllWithin(entries, total, limits)
    decreases |entries|
  {
    if entries != [] {
      var entry, rest := entries[0], entries[1..];
      RefusalMeans(entry, total, limits);
      assert forall e :: e in entries <==> e == entry || e in rest by {
        assert entries == [entry] + rest;
      }
      if total + entry.uncompressedSize <= limits.maxTotalBytes {
        AdmittedMeans(rest, total + entry.uncompressedSize, limits);
      }
    }
  }

  lemma {:induction false} WhatIsReadIsAdmitted(parse: Parse, refuse: Refuse, offset: nat, count: nat, total: nat)
    ensures var r := ReadRecords(parse, refuse, offset, count, total);
            r.Ok? ==> |r.value| == count && Admitted(refuse, r.value, total)
    decreases count
  {
    if count > 0 && parse(offset).Some? {
      var Parsed(entry, size) := parse(offset).value;
      WhatIsReadIsAdmitted(parse, refuse, offset + size, count - 1, total + entry.uncompressedSize);
      var r := ReadRecords(parse, refuse, offset, count, total);
      if r.Ok? {
        assert r.value[1..] == ReadRecords(parse, refuse, offset + size, count - 1, total + entry.uncompressedSize).value;
      }
    }
  }

  ghost predicate Acceptable(entries: seq<ZipEntry>, limits: ZipLimits) {
    |entries| <= limits.maxEntries && AllWithin(entries, 0, limits)
  }

  /** Whatever the bytes are, entries that come out respect every limit. */
  lemma ArchiveRespectsLimits(b: seq<Byte>, limits: ZipLimits, utf8: seq<Byte> -> string)
    ensures var r := ReadArchive(b, limits, utf8);
            r.Ok? ==> Acceptable(r.value, limits)
  {
    var eocd, r := EndOfCentralDirectory(b), ReadArchive(b, limits, utf8);
    if r.Ok? {
      WhatIsReadIsAdmitted(Parser(b, utf8), Refuser(limits), U32(b, eocd.value + 16), U16(b, eocd.value + 10), 0);
      AdmittedMeans(r.value, 0, limits);
    }
  }

  /** Without the signature where it is looked for, the bytes are no archive. */
  lemma NoSignatureIsInvalid(b: seq<Byte>, limits: ZipLimits, utf8: seq<Byte> -> string)
    requires forall j :: 0 <= j && |b| - 22 - 0xffff <= j <= |b| - 22 ==> U32(b, j) != 0x06054b50
    ensures ReadArchive(b, limits, utf8) == Err(Invalid)
  {
  }

  // ----- Reading back what the writer laid out

  function EntryOf(record: Central, utf8: seq<Byte> -> string): ZipEntry {
    var name := utf8(record.name);
    ZipEntry(name, record.compressionMethod, record.compressedSize, record.uncompressedSize,
             record.localHeaderOffset, name != "" && name[|name| - 1] == '/')
  }

  function EntriesOf(records: seq<Central>, utf8: seq<Byte> -> string): seq<ZipEntry> {
    seq(|records|, i requires 0 <= i < |records| => EntryOf(records[i], utf8))
  }

  /** From `offset` on there is one record after the other, and they say `entries`. */
  ghost predicate Holds(parse: Parse, offset: nat, entries: seq<ZipEntry>)
    decreases |entries|
  {
    entries == [] ||
    (parse(offset).Some? && parse(offset).value.entry == entries[0]
     && Holds(parse, offset + parse(offset).value.size, entries[1..]))
  }

  lemma HoldsOneMore(parse: Parse, offset: nat, entries: seq<ZipEntry>, size: nat)
    requires entries != [] && parse(offset) == Some(Parsed(entries[0], size))
    requires Holds(parse, offset + size, entries[1..])
    ensures Holds(parse, offset, entries)
  {
  }

  lemma ParsesLaidOut(b: seq<Byte>, offset: nat, record: Central, utf8: seq<Byte> -> string)
    requires record.Fits() && At(b, offset, EncodeCentral(record))
    ensures ParseRecord(b, offset, utf8) == Some(Parsed(EntryOf(record, utf8), |EncodeCentral(record)|))
  {
    ReadCentralFields(b, offset, record);
  }

  lemma {:induction false} LaidOutRecordsHold(
    b: seq<Byte>, offset: nat, records: seq<Central>, utf8: seq<Byte> -> string, parse: Parse, entries: seq<ZipEntry>)
    requires forall record :: record in records ==> record.Fits()
    requires At(b, offset, Directory(records)) && parse == Parser(b, utf8) && entries == EntriesOf(records, utf8)
    ensures Holds(parse, offset, entries)
    decreases |records|
  {
    if records != [] {
      var size := FirstRecordIsParsed(b, offset, records, utf8, parse, entries);
      var others, rest := records[1..], entries[1..];
      assert forall record :: record in others ==> record in records;
      LaidOutRecordsHold(b, offset + size, others, utf8, parse, rest);
    }
  }

  lemma FirstRecordIsParsed(
    b: seq<Byte>, offset: nat, records: seq<Central>, utf8: seq<Byte> -> string, parse: Parse, entries: seq<ZipEntry>)
    returns (size: nat)
    requires records != [] && (forall record :: record in records ==> record.Fits())
    requires At(b, offset, Directory(records)) && parse == Parser(b, utf8) && entries == EntriesOf(records, utf8)
    ensures entries != [] && entries[1..] == EntriesOf(records[1..], utf8)
    ensures Holds(parse, offset + size, entries[1..]) ==> Holds(parse, offset, entries)
    ensures At(b, offset + size, Directory(records[1..]))
  {
    var record := records[0];
    size := |EncodeCentral(record)|;
    AtSplit(b, offset, EncodeCentral(record), Directory(records[1..]));
    ParsesLaidOut(b, offset, record, utf8);
    if Holds(parse, offset + size, entries[1..]) {
      HoldsOneMore(parse, offset, entries, size);
    }
  }

  /** Records that are there are all read, if none is refused. */
  lemma {:induction false} ReadsWhatIsHeld(parse: Parse, refuse: Refuse, offset: nat, entries: seq<ZipEntry>, total: nat)
    requires Holds(parse, offset, entries)
    ensures var r := ReadRecords(parse, refuse, offset, |entries|, total);
            && (r.Ok? <==> Admitted(refuse, entries, total))
            && (r.Ok? ==> r.value == entries)
            && (r.Err? ==> RefusedWith(refuse, entries, total, r.error))
    decreases |entries|
  {
    if entries != [] {
      ReadsWhatIsHeld(parse, refuse, offset + parse(offset).value.size, entries[1..],
                      total + entries[0].uncompressedSize);
    }
  }

  /** No later position in the buffer looks like an end-of-central-directory record. */
  ghost predicate NothingHidden(b: seq<Byte>, eocd: nat) {
    forall j :: eocd < j <= |b| - EOCD_SIZE ==> U32(b, j) != EOCD_SIGNATURE
  }

  lemma FindsEnd(b: seq<Byte>, eocd: nat)
    requires eocd + EOCD_SIZE <= |b| <= eocd + EOCD_SIZE + MAX_COMMENT_SIZE && U32(b, eocd) == EOCD_SIGNATURE
    ensures EndOfCentralDirectory(b) == Some(eocd) <==> NothingHidden(b, eocd)
  {
  }

  lemma FindsLaidOut(b: seq<Byte>, front: seq<Byte>, records: seq<Central>, eocd: nat)
    requires Sized(front, records) && LaidOut(b, front, records, eocd)
    ensures EndOfCentralDirectory(b) == Some(eocd) <==> NothingHidden(b, eocd)
  {
    FindsEnd(b, eocd);
  }

  /** The backward search ends at the real record exactly when the comment hides no signature. */
  lemma FindsTheRealRecord(b: seq<Byte>, front: seq<Byte>, records: seq<Central>, tail: End, eocd: nat)
    requires tail.Fits() && Sized(front, records) && b == Archive(front, records, tail)
    requires eocd == |front| + |Directory(records)|
    ensures EndOfCentralDirectory(b) == Some(eocd) <==> NothingHidden(b, eocd)
  {
    ArchiveIsLaidOut(front, records, tail);
    FindsLaidOut(b, front, records, eocd);
  }

  lemma EmptyCommentHidesNothing(b: seq<Byte>, front: seq<Byte>, records: seq<Central>, tail: End)
    requires tail.Fits() && Sized(front, records) && b == Archive(front, records, tail)
    requires tail.comment == []
    ensures NothingHidden(b, |front| + |Directory(records)|)
  {
    ArchiveIsLaidOut(front, records, tail);
  }

  lemma LaterSignatureHides(b: seq<Byte>, eocd: nat)
    requires eocd + 2 * EOCD_SIZE <= |b| <= eocd + EOCD_SIZE + MAX_COMMENT_SIZE
    requires U32(b, eocd + EOCD_SIZE) == EOCD_SIGNATURE
    ensures EndOfCentralDirectory(b) != Some(eocd)
  {
  }

  lemma CommentHides(b: seq<Byte>, eocd: nat, comment: seq<Byte>)
    requires At(b, eocd + EOCD_SIZE, comment) && |b| == eocd + EOCD_SIZE + |comment|
    requires EOCD_SIZE <= |comment| <= MAX_COMMENT_SIZE && U32(comment, 0) == EOCD_SIGNATURE
    ensures EndOfCentralDirectory(b) != Some(eocd)
  {
    SameField(b, eocd + EOCD_SIZE, comment);
    LaterSignatureHides(b, eocd);
  }

  /** A comment that begins like an end record, and is long enough to be one, is taken for it. */
  lemma SignatureInCommentHidesTheRecord(
    b: seq<Byte>, front: seq<Byte>, records: seq<Central>, tail: End, eocd: nat)
    requires tail.Fits() && Sized(front, records) && b == Archive(front, records, tail)
    requires eocd == |front| + |Directory(records)|
    requires |tail.comment| >= EOCD_SIZE && U32(tail.comment, 0) == EOCD_SIGNATURE
    ensures EndOfCentralDirectory(b) != Some(eocd)
  {
    ArchiveIsLaidOut(front, records, tail);
    CommentHides(b, eocd, tail.comment);
  }

  /** The error tells what is wrong: with too many entries, or with the first one that is refused. */
  ghost predicate RejectsRightly(entries: seq<ZipEntry>, limits: ZipLimits, e: ArchiveError) {
    if |entries| > limits.maxEntries then e == ExpansionLimit else Tells(e, entries, 0, limits)
  }

  lemma ReadsLaidOut(
    b: seq<Byte>, front: seq<Byte>, records: seq<Central>, eocd: nat, limits: ZipLimits, utf8: seq<Byte> -> string)
    requires Sized(front, records) && LaidOut(b, front, records, eocd) && NothingHidden(b, eocd)
    ensures var r := ReadArchive(b, limits, utf8);
            && (r.Ok? <==> Acceptable(EntriesOf(records, utf8), limits))
            && (r.Ok? ==> r.value == EntriesOf(records, utf8))
            && (r.Err? ==> RejectsRightly(EntriesOf(records, utf8), limits, r.error))
  {
    ReadsFrom(b, front, records, eocd, limits, utf8);
    FindsEnd(b, eocd);
  }

  lemma ReadsFrom(
    b: seq<Byte>, front: seq<Byte>, records: seq<Central>, eocd: nat, limits: ZipLimits, utf8: seq<Byte> -> string)
    requires Sized(front, records) && LaidOut(b, front, records, eocd)
    ensures var r := ReadFrom(b, eocd, limits, utf8);
            && (r.Ok? <==> Acceptable(EntriesOf(records, utf8), limits))
            && (r.Ok? ==> r.value == EntriesOf(records, utf8))
            && (r.Err? ==> RejectsRightly(EntriesOf(records, utf8), limits, r.error))
  {
    var entries := EntriesOf(records, utf8);
    LaidOutRecordsHold(b, |front|, records, utf8, Parser(b, utf8), entries);
    ReadsWhatIsHeld(Parser(b, utf8), Refuser(limits), |front|, entries, 0);
    AdmittedMeans(entries, 0, limits);
    if |records| <= limits.maxEntries {
      var r := ReadRecords(Parser(b, utf8), Refuser(limits), |front|, |entries|, 0);
      assert ReadFrom(b, eocd, limits, utf8) == r;
      if r.Err? {
        RefusedWithTells(entries, 0, limits, r.error);
      }
    }
  }

  /**
   * Reading an archive gives exactly the entries that were laid out, in order, and it does so
   * if and only if there are not too many, each is within its limits and so is their total. Otherwise the
   * error is right.
   */
  lemma ArchiveRoundTrip(
    b: seq<Byte>, front: seq<Byte>, records: seq<Central>, tail: End, limits: ZipLimits, utf8: seq<Byte> -> string)
    requires tail.Fits() && Sized(front, records) && b == Archive(front, records, tail)
    requires NothingHidden(b, |front| + |Directory(records)|)
    ensures var r := ReadArchive(b, limits, utf8);
            && (r.Ok? <==> Acceptable(EntriesOf(records, utf8), limits))
            && (r.Ok? ==> r.value == EntriesOf(records, utf8))
            && (r.Err? ==> RejectsRightly(EntriesOf(records, utf8), limits, r.error))
  {
    ArchiveIsLaidOut(front, records, tail);
    ReadsLaidOut(b, front, records, |front| + |Directory(records)|, limits, utf8);
  }

  // ----- Member data

  function ReadZipEntry(
    b: seq<Byte>, entry: ZipEntry, limits: ZipLimits,
    inflate: (seq<Byte>, nat) -> Result<seq<Byte>, ArchiveError>): Result<seq<Byte>, ArchiveError>
  {
    var header := entry.localHeaderOffset;
    if header + LOCAL_SIZE > |b| || U32(b, header) != LOCAL_SIGNATURE then Err(Invalid)
    else
      var dataStart := header + LOCAL_SIZE + U16(b, header + 26) + U16(b, header + 28);
      var dataEnd := dataStart + entry.compressedSize;
      if dataEnd > |b| then Err(Invalid)
      else if entry.compressionMethod == 0 then Ok(b[dataStart..dataEnd])
      else if entry.compressionMethod != 8 then Err(Invalid)
      else inflate(b[dataStart..dataEnd], limits.maxEntryBytes)
  }

  /** What a reader of the archive should get for a member. */
  ghost function Contents(
    member: Member, limits: ZipLimits,
    inflate: (seq<Byte>, nat) -> Result<seq<Byte>, ArchiveError>): Result<seq<Byte>, ArchiveError>
  {
    if member.compressionMethod == 0 then Ok(member.data)
    else if member.compressionMethod == 8 then inflate(member.data, limits.maxEntryBytes)
    else Err(Invalid)
  }

  lemma MemberAt(
    b: seq<Byte>, front: seq<Byte>, member: Member, entry: ZipEntry, limits: ZipLimits,
    inflate: (seq<Byte>, nat) -> Result<seq<Byte>, ArchiveError>)
    requires member.Fits() && At(b, 0, front) && At(front, entry.localHeaderOffset, EncodeLocal(member))
    requires entry.compressedSize == |member.data| && entry.compressionMethod == member.compressionMethod
    ensures ReadZipEntry(b, entry, limits, inflate) == Contents(member, limits, inflate)
  {
    AtWithin(b, front, entry.localHeaderOffset, EncodeLocal(member));
    ReadLocalFields(b, entry.localHeaderOffset, member);
  }

  /**
   * A whole archive: the k-th entry read from the directory leads to the data of the k-th member,
   * whatever comes before the first member.
   */
  lemma MemberRoundTrip(
    b: seq<Byte>, preamble: seq<Byte>, members: seq<Member>, tail: End, k: nat, limits: ZipLimits,
    utf8: seq<Byte> -> string, inflate: (seq<Byte>, nat) -> Result<seq<Byte>, ArchiveError>)
    requires k < |members| && tail.Fits() && forall m :: m in members ==> m.Fits()
    requires Sized(preamble + Locals(members), Records(members, |preamble|))
    requires b == Archive(preamble + Locals(members), Records(members, |preamble|), tail)
    requires NothingHidden(b, |preamble + Locals(members)| + |Directory(Records(members, |preamble|))|)
    ensures var r := ReadArchive(b, limits, utf8);
            r.Ok? ==>
              && |r.value| == |members|
              && r.value[k].name == utf8(members[k].name)
              && ReadZipEntry(b, r.value[k], limits, inflate) == Contents(members[k], limits, inflate)
  {
    var records := Records(members, |preamble|);
    var front := preamble + Locals(members);
    ArchiveRoundTrip(b, front, records, tail, limits, utf8);
    RecordsDescribe(members, |preamble|, k);
    LocalsAt(preamble, members, k);
    ArchiveIsLaidOut(front, records, tail);
    MemberAt(b, front, members[k], EntryOf(records[k], utf8), limits, inflate);
  }
}
