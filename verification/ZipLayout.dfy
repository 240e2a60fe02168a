/** Little-endian fields and positions in a byte buffer. */
module ZipBytes {
  type Byte = x: int | 0 <= x < 0x100

  function U16(b: seq<Byte>, i: nat): nat
    requires i + 2 <= |b|
  {
    b[i] + 0x100 * (b[i + 1] as int)
  }

  function U32(b: seq<Byte>, i: nat): nat
    requires i + 4 <= |b|
  {
    U16(b, i) + 0x10000 * U16(b, i + 2)
  }

  function Le16(n: nat): (s: seq<Byte>)
    requires n < 0x10000
    ensures |s| == 2 && U16(s, 0) == n
  {
    [n % 0x100, n / 0x100]
  }

  function Le32(n: nat): (s: seq<Byte>)
    requires n < 0x1_0000_0000
    ensures |s| == 4 && U32(s, 0) == n
  {
    var low, high := Le16(n % 0x10000), Le16(n / 0x10000);
    assert U32(low + high, 0) == U16(low, 0) + 0x10000 * U16(high, 0);
    low + high
  }

  /** The bytes from `lo` to `hi`, as far as the buffer has them. */
  function Slice(b: seq<Byte>, lo: nat, hi: nat): seq<Byte>
    requires lo <= |b| && lo <= hi
  {
    b[lo..if hi <= |b| then hi else |b|]
  }

  /** `piece` stands in the buffer at position `i`. */
  ghost predicate At(b: seq<Byte>, i: nat, piece: seq<Byte>) {
    i + |piece| <= |b| && b[i..i + |piece|] == piece
  }

  lemma AtSplit(b: seq<Byte>, i: nat, first: seq<Byte>, second: seq<Byte>)
    requires At(b, i, first + second)
    ensures At(b, i, first) && At(b, i + |first|, second)
  {
    var both := first + second;
    assert both[..|first|] == first && both[|first|..] == second;
    assert b[i..i + |first|] == b[i..i + |both|][..|first|];
    assert b[i + |first|..i + |first| + |second|] == b[i..i + |both|][|first|..];
  }

  lemma AtWithin(b: seq<Byte>, outer: seq<Byte>, i: nat, piece: seq<Byte>)
    requires At(b, 0, outer) && At(outer, i, piece)
    ensures At(b, i, piece)
  {
    assert b[i..i + |piece|] == b[0..|outer|][i..i + |piece|];
  }

  lemma SameField(b: seq<Byte>, i: nat, piece: seq<Byte>)
    requires At(b, i, piece) && |piece| >= 4
    ensures U32(b, i) == U32(piece, 0)
  {
    var copy := b[i..i + |piece|];
    assert forall k :: 0 <= k < 4 ==> b[i + k] == copy[k];
    assert b[i + 0] == copy[0] && b[i + 1] == copy[1] && b[i + 2] == copy[2] && b[i + 3] == copy[3];
  }

  lemma Read16(b: seq<Byte>, i: nat, n: nat)
    requires n < 0x10000 && At(b, i, Le16(n))
    ensures U16(b, i) == n
  {
    var s := Le16(n);
    assert forall k :: 0 <= k < 2 ==> b[i + k] == b[i..i + 2][k] == s[k];
    assert b[i + 0] == s[0] && b[i + 1] == s[1];
  }

  lemma Read32(b: seq<Byte>, i: nat, n: nat)
    requires n < 0x1_0000_0000 && At(b, i, Le32(n))
    ensures U32(b, i) == n
  {
    var s := Le32(n);
    assert forall k :: 0 <= k < 4 ==> b[i + k] == b[i..i + 4][k] == s[k];
    assert b[i + 0] == s[0] && b[i + 1] == s[1] && b[i + 2] == s[2] && b[i + 3] == s[3];
  }
}

/** Writing an archive: local headers with data, central directory, end record. */
module ZipLayout {
  import opened ZipBytes

  const EOCD_SIGNATURE := 0x06054b50
  const CENTRAL_SIGNATURE := 0x02014b50
  const LOCAL_SIGNATURE := 0x04034b50
  const EOCD_SIZE := 22
  const CENTRAL_SIZE := 46
  const LOCAL_SIZE := 30

  /** A central directory record; the reader skips versions, stamp and attributes. */
  datatype Central = Central(
    versions: seq<Byte>, compressionMethod: nat, stamp: seq<Byte>, compressedSize: nat, uncompressedSize: nat,
    attributes: seq<Byte>, localHeaderOffset: nat, name: seq<Byte>, extra: seq<Byte>, comment: seq<Byte>)
  {
    predicate Fits() {
      && |versions| == 6 && |stamp| == 8 && |attributes| == 8
      && compressionMethod < 0x10000 && compressedSize < 0x1_0000_0000 && uncompressedSize < 0x1_0000_0000
      && localHeaderOffset < 0x1_0000_0000 && |name| < 0x10000 && |extra| < 0x10000 && |comment| < 0x10000
    }
  }

  /** The fields from the signature up to the checksum. */
  function CentralStart(r: Central): seq<Byte>
    requires r.Fits()
  {
    Le32(CENTRAL_SIGNATURE) + r.versions + Le16(r.compressionMethod) + r.stamp
  }

  function CentralSizes(r: Central): seq<Byte>
    requires r.Fits()
  {
    Le32(r.compressedSize) + Le32(r.uncompressedSize) + Le16(|r.name|) + Le16(|r.extra|) + Le16(|r.comment|)
  }

  function CentralRest(r: Central): seq<Byte>
    requires r.Fits()
  {
    r.attributes + Le32(r.localHeaderOffset) + r.name + (r.extra + r.comment)
  }

  function EncodeCentral(r: Central): seq<Byte>
    requires r.Fits()
  {
    CentralStart(r) + CentralSizes(r) + CentralRest(r)
  }

  function Directory(records: seq<Central>): seq<Byte>
    requires forall record :: record in records ==> record.Fits()
  {
    if records == [] then [] else EncodeCentral(records[0]) + Directory(records[1..])
  }

  /** The fields the reader looks at are where it looks for them. */
  lemma ReadCentralFields(b: seq<Byte>, i: nat, r: Central)
    requires r.Fits() && At(b, i, EncodeCentral(r))
    ensures |EncodeCentral(r)| == CENTRAL_SIZE + |r.name| + |r.extra| + |r.comment| && i + |EncodeCentral(r)| <= |b|
    ensures U32(b, i) == CENTRAL_SIGNATURE && U16(b, i + 10) == r.compressionMethod
    ensures U32(b, i + 20) == r.compressedSize && U32(b, i + 24) == r.uncompressedSize
    ensures U16(b, i + 28) == |r.name| && U16(b, i + 30) == |r.extra| && U16(b, i + 32) == |r.comment|
    ensures U32(b, i + 42) == r.localHeaderOffset
    ensures Slice(b, i + CENTRAL_SIZE, i + CENTRAL_SIZE + |r.name|) == r.name
  {
    AtSplit(b, i, CentralStart(r) + CentralSizes(r), CentralRest(r));
    AtSplit(b, i, CentralStart(r), CentralSizes(r));
    ReadCentralStart(b, i, r);
    ReadCentralSizes(b, i + 20, r);
    ReadCentralRest(b, i + 34, r);
  }

  lemma ReadCentralStart(b: seq<Byte>, i: nat, r: Central)
    requires r.Fits() && At(b, i, CentralStart(r))
    ensures |CentralStart(r)| == 20
    ensures U32(b, i) == CENTRAL_SIGNATURE && U16(b, i + 10) == r.compressionMethod
  {
    AtSplit(b, i, Le32(CENTRAL_SIGNATURE) + r.versions + Le16(r.compressionMethod), r.stamp);
    AtSplit(b, i, Le32(CENTRAL_SIGNATURE) + r.versions, Le16(r.compressionMethod));
    AtSplit(b, i, Le32(CENTRAL_SIGNATURE), r.versions);
    Read32(b, i, CENTRAL_SIGNATURE);
    Read16(b, i + 10, r.compressionMethod);
  }

  lemma ReadCentralSizes(b: seq<Byte>, i: nat, r: Central)
    requires r.Fits() && At(b, i, CentralSizes(r))
    ensures |CentralSizes(r)| == 14
    ensures U32(b, i) == r.compressedSize && U32(b, i + 4) == r.uncompressedSize
    ensures U16(b, i + 8) == |r.name| && U16(b, i + 10) == |r.extra| && U16(b, i + 12) == |r.comment|
  {
    var sizes := Le32(r.compressedSize) + Le32(r.uncompressedSize);
    AtSplit(b, i, sizes + Le16(|r.name|) + Le16(|r.extra|), Le16(|r.comment|));
    AtSplit(b, i, sizes + Le16(|r.name|), Le16(|r.extra|));
    AtSplit(b, i, sizes, Le16(|r.name|));
    AtSplit(b, i, Le32(r.compressedSize), Le32(r.uncompressedSize));
    Read32(b, i, r.compressedSize);
    Read32(b, i + 4, r.uncompressedSize);
    Read16(b, i + 8, |r.name|);
    Read16(b, i + 10, |r.extra|);
    Read16(b, i + 12, |r.comment|);
  }

  lemma ReadCentralRest(b: seq<Byte>, i: nat, r: Central)
    requires r.Fits() && At(b, i, CentralRest(r))
    ensures |CentralRest(r)| == 12 + |r.name| + |r.extra| + |r.comment|
    ensures U32(b, i + 8) == r.localHeaderOffset && At(b, i + 12, r.name)
  {
    AtSplit(b, i, r.attributes + Le32(r.localHeaderOffset) + r.name, r.extra + r.comment);
    AtSplit(b, i, r.attributes + Le32(r.localHeaderOffset), r.name);
    AtSplit(b, i, r.attributes, Le32(r.localHeaderOffset));
    Read32(b, i + 8, r.localHeaderOffset);
  }

  /** The end record; the reader skips the disk numbers, the directory size and the comment. */
  datatype End = End(disks: seq<Byte>, size: seq<Byte>, comment: seq<Byte>) {
    predicate Fits() {
      |disks| == 6 && |size| == 4 && |comment| < 0x10000
    }
  }

  function EncodeEnd(count: nat, offset: nat, tail: End): seq<Byte>
    requires tail.Fits() && count < 0x10000 && offset < 0x1_0000_0000
  {
    Le32(EOCD_SIGNATURE) + tail.disks + Le16(count) + tail.size + Le32(offset) + (Le16(|tail.comment|) + tail.comment)
  }

  ghost predicate Sized(front: seq<Byte>, records: seq<Central>) {
    |front| < 0x1_0000_0000 && |records| < 0x10000 && forall record :: record in records ==> record.Fits()
  }

  /** Anything, the directory, and the end record that says where the directory starts. */
  function Archive(front: seq<Byte>, records: seq<Central>, tail: End): seq<Byte>
    requires tail.Fits() && Sized(front, records)
  {
    front + Directory(records) + EncodeEnd(|records|, |front|, tail)
  }

  lemma ReadEnd(b: seq<Byte>, i: nat, count: nat, offset: nat, tail: End)
    requires tail.Fits() && count < 0x10000 && offset < 0x1_0000_0000
    requires At(b, i, EncodeEnd(count, offset, tail))
    ensures |EncodeEnd(count, offset, tail)| == EOCD_SIZE + |tail.comment| && i + EOCD_SIZE <= |b|
    ensures U32(b, i) == EOCD_SIGNATURE && U16(b, i + 10) == count && U32(b, i + 16) == offset
    ensures At(b, i + EOCD_SIZE, tail.comment)
  {
    var signed := Le32(EOCD_SIGNATURE) + tail.disks;
    AtSplit(b, i, signed + Le16(count) + tail.size + Le32(offset), Le16(|tail.comment|) + tail.comment);
    AtSplit(b, i + 20, Le16(|tail.comment|), tail.comment);
    AtSplit(b, i, signed + Le16(count) + tail.size, Le32(offset));
    AtSplit(b, i, signed + Le16(count), tail.size);
    AtSplit(b, i, signed, Le16(count));
    AtSplit(b, i, Le32(EOCD_SIGNATURE), tail.disks);
    Read32(b, i, EOCD_SIGNATURE);
    Read16(b, i + 10, count);
    Read32(b, i + 16, offset);
  }

  lemma ThreeParts(b: seq<Byte>, first: seq<Byte>, second: seq<Byte>, third: seq<Byte>)
    requires b == first + second + third
    ensures At(b, 0, first) && At(b, |first|, second) && At(b, |first| + |second|, third)
  {
    assert b[0..|b|] == b;
    AtSplit(b, 0, first + second, third);
    AtSplit(b, 0, first, second);
  }

  /** `b` is an archive whose end record stands at `eocd`: all the reader needs to know of it. */
  ghost predicate LaidOut(b: seq<Byte>, front: seq<Byte>, records: seq<Central>, eocd: nat)
    requires Sized(front, records)
  {
    && eocd + EOCD_SIZE <= |b| <= eocd + EOCD_SIZE + 0xffff && |front| <= eocd
    && At(b, 0, front) && At(b, |front|, Directory(records))
    && U32(b, eocd) == EOCD_SIGNATURE && U16(b, eocd + 10) == |records| && U32(b, eocd + 16) == |front|
  }

  lemma {:induction false} ArchiveIsLaidOut(front: seq<Byte>, records: seq<Central>, tail: End)
    requires tail.Fits() && Sized(front, records)
    ensures var eocd := |front| + |Directory(records)|;
            && LaidOut(Archive(front, records, tail), front, records, eocd)
            && |Archive(front, records, tail)| == eocd + EOCD_SIZE + |tail.comment|
            && At(Archive(front, records, tail), eocd + EOCD_SIZE, tail.comment)
  {
    var b := Archive(front, records, tail);
    var directory, end := Directory(records), EncodeEnd(|records|, |front|, tail);
    ThreeParts(b, front, directory, end);
    ReadEnd(b, |front| + |directory|, |records|, |front|, tail);
  }

  /** A member: its local header, its data and what the directory says of it. */
  datatype Member = Member(
    localFields: seq<Byte>, localExtra: seq<Byte>, name: seq<Byte>, data: seq<Byte>, compressionMethod: nat,
    uncompressedSize: nat, versions: seq<Byte>, stamp: seq<Byte>, attributes: seq<Byte>,
    extra: seq<Byte>, comment: seq<Byte>)
  {
    predicate Fits() {
      |localFields| == 22 && |localExtra| < 0x10000 && |name| < 0x10000
    }
  }

  function EncodeLocal(m: Member): seq<Byte>
    requires m.Fits()
  {
    Le32(LOCAL_SIGNATURE) + m.localFields + Le16(|m.name|) + Le16(|m.localExtra|) + (m.name + m.localExtra) + m.data
  }

  lemma ReadLocalFields(b: seq<Byte>, i: nat, m: Member)
    requires m.Fits() && At(b, i, EncodeLocal(m))
    ensures i + LOCAL_SIZE + |m.name| + |m.localExtra| + |m.data| <= |b|
    ensures U32(b, i) == LOCAL_SIGNATURE && U16(b, i + 26) == |m.name| && U16(b, i + 28) == |m.localExtra|
    ensures At(b, i + LOCAL_SIZE + |m.name| + |m.localExtra|, m.data)
  {
    var start := Le32(LOCAL_SIGNATURE) + m.localFields;
    AtSplit(b, i, start + Le16(|m.name|) + Le16(|m.localExtra|) + (m.name + m.localExtra), m.data);
    AtSplit(b, i, start + Le16(|m.name|) + Le16(|m.localExtra|), m.name + m.localExtra);
    AtSplit(b, i, start + Le16(|m.name|), Le16(|m.localExtra|));
    AtSplit(b, i, start, Le16(|m.name|));
    AtSplit(b, i, Le32(LOCAL_SIGNATURE), m.localFields);
    Read32(b, i, LOCAL_SIGNATURE);
    Read16(b, i + 26, |m.name|);
    Read16(b, i + 28, |m.localExtra|);
  }

  function Locals(members: seq<Member>): seq<Byte>
    requires forall m :: m in members ==> m.Fits()
  {
    if members == [] then [] else EncodeLocal(members[0]) + Locals(members[1..])
  }

  /** The directory records of members laid out from position `at`. */
  function Records(members: seq<Member>, at: nat): (records: seq<Central>)
    requires forall m :: m in members ==> m.Fits()
    ensures |records| == |members|
  {
    if members == [] then []
    else
      var m := members[0];
      [Central(m.versions, m.compressionMethod, m.stamp, |m.data|, m.uncompressedSize, m.attributes, at,
               m.name, m.extra, m.comment)]
      + Records(members[1..], at + |EncodeLocal(m)|)
  }

  lemma {:induction false} RecordsDescribe(members: seq<Member>, at: nat, k: nat)
    requires k < |members| && forall m :: m in members ==> m.Fits()
    ensures var record := Records(members, at)[k];
            && record.name == members[k].name && record.compressedSize == |members[k].data|
            && record.compressionMethod == members[k].compressionMethod
  {
    if k > 0 {
      RecordsDescribe(members[1..], at + |EncodeLocal(members[0])|, k - 1);
    }
  }

  lemma {:induction false} LocalsAt(preamble: seq<Byte>, members: seq<Member>, k: nat)
    requires k < |members| && forall m :: m in members ==> m.Fits()
    ensures At(preamble + Locals(members), Records(members, |preamble|)[k].localHeaderOffset, EncodeLocal(members[k]))
    decreases k
  {
    var first, rest := EncodeLocal(members[0]), Locals(members[1..]);
    assert preamble + Locals(members) == (preamble + first) + rest;
    if k == 0 {
      assert (preamble + first + rest)[|preamble|..|preamble| + |first|] == first;
    } else {
      LocalsAt(preamble + first, members[1..], k - 1);
    }
  }
}
