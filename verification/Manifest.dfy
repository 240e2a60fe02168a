/**
 * The fingerprint of a manifest and the check that a workspace has not changed
 * (apps/run-supervisor/src/source-snapshot.ts).
 */
module Manifest {
  import opened Wrappers
  import opened TextOrder
  import opened SourceTree
  import Utf8

  const NUL: char := '\0'
  const NEWLINE: char := '\n'
  const DEFAULT_LIMITS := Limits(20_000, 512 * 1024 * 1024)

  // ----- Numbers in decimal

  function Digit(d: nat): char
    requires d < 10
  {
    "0123456789"[d]
  }

  function Decimal(n: nat): (s: string)
    ensures s != "" && forall c :: c in s ==> '0' <= c <= '9'
  {
    if n < 10 then [Digit(n)] else Decimal(n / 10) + [Digit(n % 10)]
  }

  /** The number that decimal digits stand for. */
  function Value(digits: string): Option<nat> {
    if digits == "" then Some(0)
    else
      var last := digits[|digits| - 1];
      match Value(digits[..|digits| - 1])
      case Some(n) => if '0' <= last <= '9' then Some(n * 10 + (last as int - '0' as int)) else None
      case None => None
  }

  lemma {:induction false} ValueOfDecimal(n: nat)
    ensures Value(Decimal(n)) == Some(n)
  {
    var s := Decimal(n);
    assert s[|s| - 1] as int - '0' as int == n % 10;
    if n >= 10 {
      assert s[..|s| - 1] == Decimal(n / 10);
      ValueOfDecimal(n / 10);
    } else {
      assert s[..|s| - 1] == "";
    }
  }

  lemma DecimalInjective(a: nat, b: nat)
    requires Decimal(a) == Decimal(b)
    ensures a == b
  {
    ValueOfDecimal(a);
    ValueOfDecimal(b);
  }

  // ----- The bytes fed to the hash

  function EncodeEntry(e: Entry): string {
    e.path + [NUL] + (Decimal(e.size) + [NUL] + ((if e.executable then "1" else "0") + [NUL] + (e.sha256 + [NEWLINE])))
  }

  function Encode(es: seq<Entry>): string {
    if es == [] then "" else EncodeEntry(es[0]) + Encode(es[1..])
  }

  type Hash = seq<Utf8.Byte> -> string

  /** What the hash is fed for a manifest. */
  function Bytes(es: seq<Entry>): seq<Utf8.Byte> {
    Utf8.Encode(Encode(es))
  }

  /** The hash is given one piece after the other; what counts is their concatenation. */
  method FingerprintEntries(es: seq<Entry>, hash: Hash) returns (fingerprint: string)
    ensures fingerprint == hash(Bytes(es))
  {
    var fed: seq<Utf8.Byte> := [];
    var i := 0;
    while i < |es|
      invariant 0 <= i <= |es|
      invariant Bytes(es) == fed + Bytes(es[i..])
    {
      var e := es[i];
      assert es[i..][1..] == es[i + 1..];
      Utf8.EncodeConcat(EncodeEntry(e), Encode(es[i + 1..]));
      Regroup(fed, Utf8.Encode(EncodeEntry(e)), Bytes(es[i + 1..]));
      fed := Feed(fed, e);
      i := i + 1;
    }
    assert es[i..] == [] && fed + [] == fed;
    return hash(fed);
  }

  /** Updates the hash with one entry. */
  method Feed(before: seq<Utf8.Byte>, e: Entry) returns (fed: seq<Utf8.Byte>)
    ensures fed == before + Utf8.Encode(EncodeEntry(e))
  {
    ghost var flag := if e.executable then "1" else "0";
    fed := Update(before, "", e.path, before);
    assert "" + e.path == e.path;
    fed := Update(fed, e.path, [NUL], before);
    fed := Update(fed, e.path + [NUL], Decimal(e.size), before);
    fed := Update(fed, e.path + [NUL] + Decimal(e.size), [NUL], before);
    fed := Update(fed, e.path + [NUL] + Decimal(e.size) + [NUL], if e.executable then "1" else "0", before);
    fed := Update(fed, e.path + [NUL] + Decimal(e.size) + [NUL] + flag, [NUL], before);
    fed := Update(fed, e.path + [NUL] + Decimal(e.size) + [NUL] + flag + [NUL], e.sha256, before);
    fed := Update(fed, e.path + [NUL] + Decimal(e.size) + [NUL] + flag + [NUL] + e.sha256, [NEWLINE], before);
    EntryInPieces(e.path, Decimal(e.size), flag, e.sha256);
  }

  /** Feeds one more piece after the text `done`. */
  method Update(fed: seq<Utf8.Byte>, ghost done: string, piece: string, ghost before: seq<Utf8.Byte>)
    returns (more: seq<Utf8.Byte>)
    requires fed == before + Utf8.Encode(done)
    ensures more == before + Utf8.Encode(done + piece)
  {
    Utf8.EncodeConcat(done, piece);
    Regroup(before, Utf8.Encode(done), Utf8.Encode(piece));
    more := fed + Utf8.Encode(piece);
  }

  lemma EntryInPieces(path: string, size: string, flag: string, sha256: string)
    ensures path + [NUL] + size + [NUL] + flag + [NUL] + sha256 + [NEWLINE]
            == path + [NUL] + (size + [NUL] + (flag + [NUL] + (sha256 + [NEWLINE])))
  {
  }

  lemma Regroup<T>(a: seq<T>, b: seq<T>, c: seq<T>)
    ensures a + (b + c) == a + b + c
  {
  }

  /** Fields that can be told apart in the encoding: paths without NUL, checksums without newline. */
  ghost predicate Separable(es: seq<Entry>) {
    forall e :: e in es ==> NUL !in e.path && NEWLINE !in e.sha256
  }

  // ----- Reading a manifest back

  /** What comes before the first separator, and what comes after it. */
  function Until(s: string, separator: char): (r: Option<(string, string)>)
    ensures r.Some? ==> |r.value.1| < |s|
  {
    if s == "" then None
    else if s[0] == separator then Some(("", s[1..]))
    else
      match Until(s[1..], separator)
      case Some((field, rest)) => Some(([s[0]] + field, rest))
      case None => None
  }

  lemma {:induction false} FieldIsRead(field: string, separator: char, rest: string)
    requires separator !in field
    ensures Until(field + ([separator] + rest), separator) == Some((field, rest))
  {
    var s := field + ([separator] + rest);
    if field == "" {
      assert s == [separator] + rest && s[1..] == rest;
    } else {
      assert s[0] == field[0] && s[1..] == field[1..] + ([separator] + rest);
      FieldIsRead(field[1..], separator, rest);
      assert field == [field[0]] + field[1..];
    }
  }

  /** A line: path, size, `1` for an executable file or `0`, and checksum. */
  function ReadEntry(s: string): (r: Option<(Entry, string)>)
    ensures r.Some? ==> |r.value.1| < |s|
  {
    match Until(s, NUL)
    case None => None
    case Some((path, afterPath)) =>
      match Until(afterPath, NUL)
      case None => None
      case Some((size, afterSize)) =>
        match Until(afterSize, NUL)
        case None => None
        case Some((flag, afterFlag)) =>
          match Until(afterFlag, NEWLINE)
          case None => None
          case Some((sha256, rest)) =>
            if Value(size).Some? && (flag == "0" || flag == "1")
            then Some((Entry(path, Value(size).value, flag == "1", sha256), rest))
            else None
  }

  function ReadEntries(s: string): Option<seq<Entry>>
    decreases |s|
  {
    if s == "" then Some([])
    else
      match ReadEntry(s)
      case None => None
      case Some((e, rest)) =>
        match ReadEntries(rest) case Some(es) => Some([e] + es) case None => None
  }

  /** The text after the path, after the size and after the flag. */
  function AfterFlag(sha256: string, rest: string): string {
    sha256 + ([NEWLINE] + rest)
  }

  function AfterSize(flag: string, sha256: string, rest: string): string {
    flag + ([NUL] + AfterFlag(sha256, rest))
  }

  function AfterPath(size: string, flag: string, sha256: string, rest: string): string {
    size + ([NUL] + AfterSize(flag, sha256, rest))
  }

  lemma FieldsOfEntry(path: string, size: string, flag: string, sha256: string, rest: string)
    ensures path + [NUL] + (size + [NUL] + (flag + [NUL] + (sha256 + [NEWLINE]))) + rest
            == path + ([NUL] + AfterPath(size, flag, sha256, rest))
  {
  }

  lemma FieldsAreRead(path: string, size: string, flag: string, sha256: string, rest: string)
    requires NUL !in path && NUL !in size && NUL !in flag && NEWLINE !in sha256
    ensures Until(path + ([NUL] + AfterPath(size, flag, sha256, rest)), NUL)
            == Some((path, AfterPath(size, flag, sha256, rest)))
    ensures Until(AfterPath(size, flag, sha256, rest), NUL) == Some((size, AfterSize(flag, sha256, rest)))
    ensures Until(AfterSize(flag, sha256, rest), NUL) == Some((flag, AfterFlag(sha256, rest)))
    ensures Until(AfterFlag(sha256, rest), NEWLINE) == Some((sha256, rest))
  {
    FieldIsRead(path, NUL, AfterPath(size, flag, sha256, rest));
    FieldIsRead(size, NUL, AfterSize(flag, sha256, rest));
    FieldIsRead(flag, NUL, AfterFlag(sha256, rest));
    FieldIsRead(sha256, NEWLINE, rest);
  }

  lemma EntryIsRead(e: Entry, rest: string)
    requires NUL !in e.path && NEWLINE !in e.sha256
    ensures ReadEntry(EncodeEntry(e) + rest) == Some((e, rest))
  {
    var flag := if e.executable then "1" else "0";
    FieldsOfEntry(e.path, Decimal(e.size), flag, e.sha256, rest);
    assert flag[0] != NUL;
    FieldsAreRead(e.path, Decimal(e.size), flag, e.sha256, rest);
    ValueOfDecimal(e.size);
  }

  /** A manifest whose fields can be told apart is read back as it was. */
  lemma {:induction false} ManifestRoundTrip(es: seq<Entry>)
    requires Separable(es)
    ensures ReadEntries(Encode(es)) == Some(es)
  {
    if es != [] {
      EntryIsRead(es[0], Encode(es[1..]));
      ManifestRoundTrip(es[1..]);
      assert es == [es[0]] + es[1..];
    }
  }

  /** The bytes that are hashed determine the entries: decoded and read back they are the entries. */
  lemma BytesRoundTrip(es: seq<Entry>)
    requires Separable(es)
    ensures var text := Utf8.Decode(Bytes(es)); text.Some? && ReadEntries(text.value) == Some(es)
  {
    Utf8.DecodeRoundTrip(Encode(es));
    ManifestRoundTrip(es);
  }

  /** Equal byte streams come from equal lists of entries. */
  lemma EncodingIsInjective(a: seq<Entry>, b: seq<Entry>)
    requires Separable(a) && Separable(b) && Bytes(a) == Bytes(b)
    ensures a == b
  {
    BytesRoundTrip(a);
    BytesRoundTrip(b);
  }

  /** Without that proviso two different manifests can feed the hash the same bytes. */
  lemma AmbiguousEncoding(a: Entry, b: Entry)
    requires a == Entry("a", 1, true, "1\0z") && b == Entry("a\01", 1, true, "z")
    ensures a != b && Bytes([a]) == Bytes([b])
  {
    assert Decimal(1) == "1";
    assert EncodeEntry(a) == "a" + [NUL] + ("1" + [NUL] + ("1" + [NUL] + ("1\0z" + [NEWLINE])));
    assert EncodeEntry(b) == "a\01" + [NUL] + ("1" + [NUL] + ("1" + [NUL] + ("z" + [NEWLINE])));
    assert EncodeEntry(a) == EncodeEntry(b);
    assert [a][1..] == [] && [b][1..] == [];
  }

  // ----- Snapshots

  /** Names without NUL and checksums without newline, everywhere in the tree. */
  ghost predicate SeparableTree(n: Node) {
    match n
    case File(_, _, sha256) => NEWLINE !in sha256
    case Dir(children) => forall c :: c in children ==> NUL !in c.name && SeparableTree(c.node)
    case _ => true
  }

  lemma {:induction false} VisibleIsSeparable(
    cs: seq<Child>, dir: string, segments: seq<string>, excluded: set<string>, node: Node)
    requires SeparableTree(Dir(cs)) && NUL !in dir && VisibleAt(cs, dir, segments, excluded, node)
    ensures NUL !in PathOf(dir, segments) && SeparableTree(node)
    decreases |segments|
  {
    var c :| c in cs && VisibleVia(c, dir, segments, excluded, node);
    assert PathOf(dir, segments) == PathOf(Rel(dir, c.name), segments[1..]);
    if |segments| == 1 {
      assert segments[1..] == [];
    } else {
      assert c.node == Dir(c.node.children);
      VisibleIsSeparable(c.node.children, Rel(dir, c.name), segments[1..], excluded, node);
    }
  }

  lemma CollectedIsSeparable(root: seq<Child>, excluded: set<string>, limits: Limits)
    requires SeparableTree(Dir(root)) && Collect(root, excluded, limits).Ok?
    ensures Separable(Collect(root, excluded, limits).value)
  {
    var es := Collect(root, excluded, limits).value;
    CollectSucceeds(root, excluded, limits);
    forall e | e in es ensures NUL !in e.path && NEWLINE !in e.sha256 {
      FilesAreTheVisibleFiles(root, excluded, e);
      var file := File(e.size, e.executable, e.sha256);
      var segments :| VisibleAt(root, "", segments, excluded, file) && PathOf("", segments) == e.path;
      VisibleIsSeparable(root, "", segments, excluded, file);
    }
  }

  /** What the git commands print, trimmed, or None where one fails. */
  datatype GitAnswers = GitAnswers(
    head: Option<string>, branch: Option<string>, status: Option<string>, diff: Option<string>)

  datatype GitInfo = GitInfo(
    available: bool, commit: Option<string>, branch: Option<string>, dirty: bool, dirtyDiff: Option<string>)

  function ReadGit(git: GitAnswers, hash: Hash): GitInfo {
    if git.head.None? then GitInfo(false, None, None, false, None)
    else
      var dirty := git.status.Some? && git.status.value != "";
      var diff := if dirty && git.diff.Some? then Some(hash(Utf8.Encode(git.diff.value))) else None;
      GitInfo(true, git.head, git.branch, dirty, diff)
  }

  /** What is recorded of the repository: what git says, and the hash of the difference only if there is one. */
  lemma GitInfoMeans(git: GitAnswers, hash: Hash)
    ensures var info := ReadGit(git, hash);
            && (info.available <==> git.head.Some?) && info.commit == git.head
            && (info.available ==> info.branch == git.branch)
            && (!info.available ==> info.branch.None? && !info.dirty)
            && (info.dirty <==> git.head.Some? && git.status.Some? && git.status.value != "")
            && (info.dirtyDiff.Some? <==> info.dirty && git.diff.Some?)
            && (info.dirtyDiff.Some? ==> info.dirtyDiff.value == hash(Utf8.Encode(git.diff.value)))
  {
  }

  datatype Project = Project(id: string, canonicalRoot: string)

  datatype Snapshot = Snapshot(
    id: string, projectId: string, rootFingerprint: string, git: GitInfo,
    fingerprint: string, excluded: set<string>, entries: seq<Entry>, createdAt: string)

  /** The identifier and the time are given. A workspace counts as clean if git cannot tell. */
  method CreateSnapshot(
    project: Project, root: seq<Child>, excluded: set<string>, limits: Limits, git: GitAnswers, rejectDirty: bool,
    id: string, createdAt: string, hash: Hash)
    returns (r: Result<Snapshot, SnapshotError>)
    ensures Collect(root, excluded, limits).Err? ==> r == Err(Collect(root, excluded, limits).error)
    ensures Collect(root, excluded, limits).Ok? ==>
              && (r.Err? <==> rejectDirty && git.head.Some? && git.status.Some? && git.status.value != "")
              && (r.Err? ==> r.error == DirtyWorkspace)
    ensures r.Ok? ==>
              var es := Collect(root, excluded, limits).value;
              r.value == Snapshot(id, project.id, hash(Utf8.Encode(project.canonicalRoot)), ReadGit(git, hash),
                                  hash(Bytes(es)), excluded, es, createdAt)
  {
    var collected := CollectEntries(root, excluded, limits);
    if collected.Err? {
      return Err(collected.error);
    }
    var info := ReadGit(git, hash);
    if rejectDirty && info.dirty {
      return Err(DirtyWorkspace);
    }
    var fingerprint := FingerprintEntries(collected.value, hash);
    return Ok(Snapshot(id, project.id, hash(Utf8.Encode(project.canonicalRoot)), info,
                       fingerprint, excluded, collected.value, createdAt));
  }

  /** The check always walks with the default limits, whatever limits the snapshot was taken with. */
  method AssertSnapshotUnchanged(root: seq<Child>, snapshot: Snapshot, hash: Hash)
    returns (r: Option<SnapshotError>)
    ensures match Collect(root, snapshot.excluded, DEFAULT_LIMITS)
            case Err(e) => r == Some(e)
            case Ok(es) =>
              && (r.None? <==> hash(Bytes(es)) == snapshot.fingerprint)
              && (r.Some? ==> r.value.SourceChanged? && IsDiff(r.value.changed, snapshot.entries, es))
  {
    var collected := CollectEntries(root, snapshot.excluded, DEFAULT_LIMITS);
    if collected.Err? {
      return Some(collected.error);
    }
    var current := FingerprintEntries(collected.value, hash);
    if current != snapshot.fingerprint {
      var changed := DiffEntries(snapshot.entries, collected.value);
      return Some(SourceChanged(changed));
    }
    return None;
  }

  /** The hash keeps these two inputs apart. */
  ghost predicate NoCollision(hash: Hash, a: seq<Utf8.Byte>, b: seq<Utf8.Byte>) {
    hash(a) == hash(b) ==> a == b
  }

  /**
   * The check passes if and only if the workspace can be collected within the default limits and
   * has exactly the entries of the snapshot.
   */
  lemma UnchangedMeansSameEntries(
    before: seq<Child>, now: seq<Child>, excluded: set<string>, limits: Limits, hash: Hash)
    requires SeparableTree(Dir(before)) && SeparableTree(Dir(now)) && Collect(before, excluded, limits).Ok?
    requires var es := Collect(before, excluded, limits).value;
             var current := Collect(now, excluded, DEFAULT_LIMITS);
             current.Ok? ==> NoCollision(hash, Bytes(current.value), Bytes(es))
    ensures var es := Collect(before, excluded, limits).value;
            var current := Collect(now, excluded, DEFAULT_LIMITS);
            current.Ok? && hash(Bytes(current.value)) == hash(Bytes(es)) <==> current == Ok(es)
  {
    CollectedIsSeparable(before, excluded, limits);
    var current := Collect(now, excluded, DEFAULT_LIMITS);
    if current.Ok? && hash(Bytes(current.value)) == hash(Bytes(Collect(before, excluded, limits).value)) {
      CollectedIsSeparable(now, excluded, DEFAULT_LIMITS);
      EncodingIsInjective(current.value, Collect(before, excluded, limits).value);
    }
  }

  /**
   * A workspace that has not changed, however its directories are listed now, passes the check if
   * and only if it is within the default limits.
   */
  lemma UnchangedTreePasses(
    before: seq<Child>, now: seq<Child>, excluded: set<string>, limits: Limits)
    requires NamesDistinct(Dir(before)) && Shuffled(Dir(before), Dir(now))
    requires Collect(before, excluded, limits).Ok?
    ensures var es := Collect(before, excluded, limits).value;
            Collect(now, excluded, DEFAULT_LIMITS) == Ok(es)
            <==> |es| <= 20_000 && TotalBytes(es) <= 536_870_912
  {
    CollectForgetsListingOrder(before, now, excluded, DEFAULT_LIMITS);
    CollectSucceeds(before, excluded, limits);
    CollectSucceeds(before, excluded, DEFAULT_LIMITS);
  }

  // ----- Telling what changed

  /** The checksum a list of entries gives for each path; a later entry overrides an earlier one. */
  function Checksums(es: seq<Entry>): map<string, string> {
    if es == [] then map[] else Checksums(es[..|es| - 1])[es[|es| - 1].path := es[|es| - 1].sha256]
  }

  /** The line, if any, that the diagnosis has for a path. */
  function LineFor(before: map<string, string>, after: map<string, string>, path: string): Option<string> {
    if path in after && path !in before then Some("+" + path)
    else if path in after && before[path] != after[path] then Some("~" + path)
    else if path !in after && path in before then Some("-" + path)
    else None
  }

  function Itself(s: string): string { s }

  /** The lines for the paths in `seen`, each once. */
  ghost predicate Covers(before: map<string, string>, after: map<string, string>, seen: set<string>, lines: seq<string>) {
    && DistinctKeys(Itself, lines)
    && forall line :: line in lines <==> exists path :: path in seen && LineFor(before, after, path) == Some(line)
  }

  /** Exactly the lines for the paths whose presence or checksum differs, each once, sorted. */
  ghost predicate IsDiff(changed: seq<string>, before: seq<Entry>, after: seq<Entry>) {
    var b, a := Checksums(before), Checksums(after);
    Sorted(Itself, changed) && Covers(b, a, b.Keys + a.Keys, changed)
  }

  method ToMap(es: seq<Entry>) returns (m: map<string, string>)
    ensures m == Checksums(es)
  {
    m := map[];
    for i := 0 to |es|
      invariant m == Checksums(es[..i])
    {
      assert es[..i + 1][..i] == es[..i];
      m := m[es[i].path := es[i].sha256];
    }
    assert es[..|es|] == es;
  }

  method DiffEntries(before: seq<Entry>, after: seq<Entry>) returns (changed: seq<string>)
    ensures IsDiff(changed, before, after)
  {
    var beforeMap := ToMap(before);
    var afterMap := ToMap(after);
    changed := AddedOrChanged(beforeMap, afterMap);
    changed := Removed(beforeMap, afterMap, changed);
    SortedLines(beforeMap, afterMap, changed);
    changed := SortBy(Itself, changed);
  }

  method AddedOrChanged(before: map<string, string>, after: map<string, string>) returns (changed: seq<string>)
    ensures Covers(before, after, after.Keys, changed)
  {
    changed := [];
    var todo := after.Keys;
    while todo != {}
      invariant todo <= after.Keys && Covers(before, after, after.Keys - todo, changed)
      decreases |todo|
    {
      var path :| path in todo;
      AddLine(before, after, after.Keys - todo, path, changed);
      assert after.Keys - (todo - {path}) == after.Keys - todo + {path};
      if path !in before {
        changed := changed + ["+" + path];
      } else if before[path] != after[path] {
        changed := changed + ["~" + path];
      }
      todo := todo - {path};
    }
    assert after.Keys - todo == after.Keys;
  }

  method Removed(before: map<string, string>, after: map<string, string>, lines: seq<string>)
    returns (changed: seq<string>)
    requires Covers(before, after, after.Keys, lines)
    ensures Covers(before, after, before.Keys + after.Keys, changed)
  {
    changed := lines;
    ghost var seen := after.Keys;
    var todo := before.Keys;
    while todo != {}
      invariant todo <= before.Keys && forall p :: p in seen <==> p in after || (p in before && p !in todo)
      invariant Covers(before, after, seen, changed)
      decreases |todo|
    {
      var path :| path in todo;
      changed := AddIfRemoved(before, after, seen, path, changed);
      seen := seen + {path};
      todo := todo - {path};
    }
    SameCovers(before, after, seen, before.Keys + after.Keys, changed);
  }

  lemma SameCovers(
    before: map<string, string>, after: map<string, string>, s: set<string>, t: set<string>, lines: seq<string>)
    requires Covers(before, after, s, lines) && forall p :: p in s <==> p in t
    ensures Covers(before, after, t, lines)
  {
    assert s == t;
  }

  /** The body of the loop over the earlier paths. */
  method AddIfRemoved(
    before: map<string, string>, after: map<string, string>, ghost seen: set<string>, path: string, lines: seq<string>)
    returns (changed: seq<string>)
    requires Covers(before, after, seen, lines) && path in before && (path in seen <==> path in after)
    ensures Covers(before, after, seen + {path}, changed)
  {
    if path in after {
      assert seen + {path} == seen;
      return lines;
    }
    AddLine(before, after, seen, path, lines);
    return lines + ["-" + path];
  }

  lemma SortedLines(before: map<string, string>, after: map<string, string>, lines: seq<string>)
    requires Covers(before, after, before.Keys + after.Keys, lines)
    ensures Covers(before, after, before.Keys + after.Keys, SortBy(Itself, lines))
    ensures Sorted(Itself, SortBy(Itself, lines))
  {
    SortBySorted(Itself, lines);
    SameElements(lines, SortBy(Itself, lines));
  }

  lemma AddLine(
    before: map<string, string>, after: map<string, string>, seen: set<string>, path: string, lines: seq<string>)
    requires Covers(before, after, seen, lines) && path !in seen
    ensures var more := match LineFor(before, after, path) case Some(line) => lines + [line] case None => lines;
            Covers(before, after, seen + {path}, more)
  {
    var more := match LineFor(before, after, path) case Some(line) => lines + [line] case None => lines;
    if LineFor(before, after, path).Some? {
      var added := LineFor(before, after, path).value;
      assert added !in lines by {
        assert forall p :: LineFor(before, after, p) == Some(added) ==> p == added[1..] == path;
      }
      forall line | line in more ensures multiset(more)[line] == 1 {
        assert multiset(lines)[added] == 0;
      }
    }
    forall line ensures line in more <==>
                          exists p :: p in seen + {path} && LineFor(before, after, p) == Some(line)
    {
      if line in lines {
        var p :| p in seen && LineFor(before, after, p) == Some(line);
        assert p in seen + {path};
      } else if LineFor(before, after, path) == Some(line) {
        assert path in seen + {path};
      }
    }
  }

  /**
   * The diagnosis is empty exactly when no path's presence or checksum differs: a change of size or
   * of the executable bit alone makes the check fail and is not named.
   */
  lemma DiffSeesOnlyChecksums(changed: seq<string>, before: seq<Entry>, after: seq<Entry>)
    requires IsDiff(changed, before, after)
    ensures changed == [] <==> Checksums(before) == Checksums(after)
  {
    var b, a := Checksums(before), Checksums(after);
    if changed == [] {
      assert forall path, line :: path in b.Keys + a.Keys && LineFor(b, a, path) == Some(line) ==> line in changed;
      forall path ensures (path in a <==> path in b) && (path in a ==> a[path] == b[path]) {
        NoLineMeansSame(b, a, path);
      }
      assert a == b;
    } else {
      var path :| path in b.Keys + a.Keys && LineFor(b, a, path) == Some(changed[0]);
      assert (path in b) != (path in a) || b[path] != a[path];
    }
  }

  ghost predicate Lists(es: seq<Entry>, path: string) {
    exists i :: 0 <= i < |es| && es[i].path == path
  }

  lemma {:induction false} ListsOneMore(es: seq<Entry>, path: string)
    requires es != []
    ensures Lists(es, path) <==> Lists(es[..|es| - 1], path) || es[|es| - 1].path == path
  {
    var before := es[..|es| - 1];
    if i :| 0 <= i < |before| && before[i].path == path {
      assert es[i].path == path;
    }
    if i :| 0 <= i < |es| && es[i].path == path {
      assert i < |before| ==> before[i].path == path;
    }
  }

  lemma {:induction false} ChecksumsKnow(es: seq<Entry>)
    requires DistinctEntries(es)
    ensures forall path :: path in Checksums(es) <==> Lists(es, path)
    ensures forall i :: 0 <= i < |es| ==> es[i].path in Checksums(es) && Checksums(es)[es[i].path] == es[i].sha256
  {
    if es != [] {
      var before, last := es[..|es| - 1], es[|es| - 1];
      ChecksumsKnow(before);
      forall path ensures path in Checksums(es) <==> Lists(es, path) {
        assert path in Checksums(before) <==> Lists(before, path);
        ListsOneMore(es, path);
      }
    }
  }

  /** The line that a sign and a path make is in the diagnosis exactly when that path has that line. */
  lemma LineIsListed(changed: seq<string>, before: seq<Entry>, after: seq<Entry>, sign: char, path: string)
    requires IsDiff(changed, before, after) && sign in {'+', '-', '~'}
    ensures [sign] + path in changed <==> LineFor(Checksums(before), Checksums(after), path) == Some([sign] + path)
  {
    var b, a := Checksums(before), Checksums(after);
    var line := [sign] + path;
    if line in changed {
      var p :| p in b.Keys + a.Keys && LineFor(b, a, p) == Some(line);
      assert p == line[1..] == path;
    }
    if LineFor(b, a, path) == Some(line) {
      assert path in b.Keys + a.Keys;
    }
  }

  /** The paths that only the second list has are marked `+`, those that only the first has `-`. */
  lemma SignsTellPresence(changed: seq<string>, before: seq<Entry>, after: seq<Entry>, path: string)
    requires DistinctEntries(before) && DistinctEntries(after) && IsDiff(changed, before, after)
    ensures ['+'] + path in changed <==> Lists(after, path) && !Lists(before, path)
    ensures ['-'] + path in changed <==> Lists(before, path) && !Lists(after, path)
  {
    ChecksumsKnow(before);
    ChecksumsKnow(after);
    LineIsListed(changed, before, after, '+', path);
    LineIsListed(changed, before, after, '-', path);
    SignOfLine(Checksums(before), Checksums(after), path);
  }

  lemma SignOfLine(before: map<string, string>, after: map<string, string>, path: string)
    ensures LineFor(before, after, path) == Some(['+'] + path) <==> path in after && path !in before
    ensures LineFor(before, after, path) == Some(['-'] + path) <==> path !in after && path in before
    ensures LineFor(before, after, path) == Some(['~'] + path)
            <==> path in after && path in before && after[path] != before[path]
  {
    var r := LineFor(before, after, path);
    if r.Some? {
      assert r.value[0] == if path !in before then '+' else if path !in after then '-' else '~';
    }
  }

  /** The paths that both lists have are marked `~` exactly when their checksums differ. */
  lemma SignTellsChange(changed: seq<string>, before: seq<Entry>, after: seq<Entry>, i: nat, j: nat)
    requires DistinctEntries(before) && DistinctEntries(after) && IsDiff(changed, before, after)
    requires i < |before| && j < |after| && before[i].path == after[j].path
    ensures ['~'] + before[i].path in changed <==> before[i].sha256 != after[j].sha256
  {
    ChecksumsKnow(before);
    ChecksumsKnow(after);
    LineIsListed(changed, before, after, '~', before[i].path);
    SignOfLine(Checksums(before), Checksums(after), before[i].path);
  }

  lemma NoLineMeansSame(before: map<string, string>, after: map<string, string>, path: string)
    requires forall line :: path in before.Keys + after.Keys ==> LineFor(before, after, path) != Some(line)
    ensures (path in after <==> path in before) && (path in after ==> after[path] == before[path])
  {
  }
}
