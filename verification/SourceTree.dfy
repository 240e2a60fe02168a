/**
 * The walk over a source tree that produces a snapshot's manifest
 * (apps/run-supervisor/src/source-snapshot.ts, collectEntries).
 */
module SourceTree {
  import opened Wrappers
  import opened TextOrder

  datatype Node =
    | File(size: nat, executable: bool, sha256: string)
    | Dir(children: seq<Child>)
    | Symlink
    | Other

  datatype Child = Child(name: string, node: Node)

  datatype Entry = Entry(path: string, size: nat, executable: bool, sha256: string)

  datatype SnapshotError =
    | SymlinkNotAllowed(path: string)
    | TooManyFiles
    | TooManyBytes
    | SourceChanged(changed: seq<string>)
    | DirtyWorkspace

  datatype Limits = Limits(maxEntries: nat, maxTotalBytes: nat)

  function NameOf(c: Child): string { c.name }

  function Height(n: Node): nat {
    if n.Dir? then 1 + HeightOfAll(n.children) else 0
  }

  function HeightOfAll(cs: seq<Child>): (h: nat) {
    if cs == [] then 0
    else if Height(cs[0].node) > HeightOfAll(cs[1..]) then Height(cs[0].node) else HeightOfAll(cs[1..])
  }

  /** No child is higher than `h`. */
  ghost predicate AtMost(cs: seq<Child>, h: nat) {
    forall c :: c in cs ==> Height(c.node) <= h
  }

  lemma {:induction false} HeightBounds(cs: seq<Child>)
    ensures AtMost(cs, HeightOfAll(cs))
  {
    if cs != [] {
      HeightBounds(cs[1..]);
      assert cs == [cs[0]] + cs[1..];
    }
  }

  function Sort(cs: seq<Child>): (r: seq<Child>)
    ensures multiset(r) == multiset(cs)
  {
    SortBy(NameOf, cs)
  }

  lemma {:induction false} SortKeepsHeight(n: Node, h: nat)
    requires n.Dir? && Height(n) <= h
    ensures h > 0 && AtMost(n.children, h - 1) && AtMost(Sort(n.children), h - 1)
  {
    HeightBounds(n.children);
    SameElements(n.children, Sort(n.children));
  }

  /** A path relative to the root, with slashes. */
  function Rel(dir: string, name: string): string {
    if dir == "" then name else dir + "/" + name
  }

  predicate Excluded(excluded: set<string>, dir: string, name: string) {
    Rel(dir, name) in excluded || name in excluded
  }

  // ----- The walk on values

  datatype Progress = Progress(entries: seq<Entry>, totalBytes: nat)

  function AddFile(p: Progress, path: string, file: Node, limits: Limits): Result<Progress, SnapshotError>
    requires file.File?
  {
    var totalBytes := p.totalBytes + file.size;
    if |p.entries| >= limits.maxEntries then Err(TooManyFiles)
    else if totalBytes > limits.maxTotalBytes then Err(TooManyBytes)
    else Ok(Progress(p.entries + [Entry(path, file.size, file.executable, file.sha256)], totalBytes))
  }

  /** Visits the children of one directory, which are sorted, with those below them. */
  ghost function Walk(cs: seq<Child>, dir: string, h: nat, excluded: set<string>, limits: Limits, p: Progress)
    : Result<Progress, SnapshotError>
    requires AtMost(cs, h)
    decreases h, |cs|
  {
    if cs == [] then Ok(p)
    else
      match Visit(cs[0], dir, h, excluded, limits, p)
      case Err(e) => Err(e)
      case Ok(q) => Walk(cs[1..], dir, h, excluded, limits, q)
  }

  ghost function Visit(c: Child, dir: string, h: nat, excluded: set<string>, limits: Limits, p: Progress)
    : Result<Progress, SnapshotError>
    requires Height(c.node) <= h
    decreases h, 0
  {
    var rel := Rel(dir, c.name);
    if Excluded(excluded, dir, c.name) then Ok(p)
    else
      match c.node
      case Symlink => Err(SymlinkNotAllowed(rel))
      case Dir(children) =>
        SortKeepsHeight(c.node, h);
        Walk(Sort(children), rel, h - 1, excluded, limits, p)
      case Other => Ok(p)
      case File(_, _, _) => AddFile(p, rel, c.node, limits)
  }

  /** What collecting the entries of a root directory gives. */
  ghost function Collect(root: seq<Child>, excluded: set<string>, limits: Limits): Result<seq<Entry>, SnapshotError> {
    var h := HeightOfAll(root);
    HeightBounds(root);
    SameElements(root, Sort(root));
    match Walk(Sort(root), "", h, excluded, limits, Progress([], 0))
    case Err(e) => Err(e)
    case Ok(p) => Ok(p.entries)
  }

  // ----- The walk as the program does it

  class Collector {
    var entries: seq<Entry>
    var totalBytes: nat
    const excluded: set<string>
    const limits: Limits

    constructor (excluded: set<string>, limits: Limits)
      ensures entries == [] && totalBytes == 0 && this.excluded == excluded && this.limits == limits
    {
      this.excluded, this.limits := excluded, limits;
      entries, totalBytes := [], 0;
    }

    ghost function Now(): Progress
      reads this
    {
      Progress(entries, totalBytes)
    }

    method WalkDirectory(listing: seq<Child>, dir: string, ghost h: nat) returns (r: Option<SnapshotError>)
      requires AtMost(listing, h)
      modifies this
      ensures AtMost(Sort(listing), h)
      ensures Agrees(r, Walk(Sort(listing), dir, h, excluded, limits, old(Now())))
      decreases h, 2
    {
      SameElements(listing, Sort(listing));
      var children := Sort(listing);
      ghost var goal := Walk(children, dir, h, excluded, limits, Now());
      var i := 0;
      while i < |children|
        invariant 0 <= i <= |children|
        invariant AtMost(children[i..], h)
        invariant goal == Walk(children[i..], dir, h, excluded, limits, Now())
      {
        StepIn(children, i, h);
        r := VisitChild(children[i], dir, h);
        if r.Some? {
          return;
        }
        i := i + 1;
      }
      return None;
    }

    /** The body of the loop over a directory's children. */
    method VisitChild(child: Child, dir: string, ghost h: nat) returns (r: Option<SnapshotError>)
      requires Height(child.node) <= h
      modifies this
      ensures Agrees(r, Visit(child, dir, h, excluded, limits, old(Now())))
      decreases h, 1
    {
      var rel := Rel(dir, child.name);
      if rel in excluded || child.name in excluded {
        return None;
      }
      match child.node
      case Symlink =>
        return Some(SymlinkNotAllowed(rel));
      case Dir(listing) =>
        SortKeepsHeight(child.node, h);
        r := WalkDirectory(listing, rel, h - 1);
      case Other =>
        return None;
      case File(size, executable, sha256) =>
        totalBytes := totalBytes + size;
        if |entries| >= limits.maxEntries {
          return Some(TooManyFiles);
        }
        if totalBytes > limits.maxTotalBytes {
          return Some(TooManyBytes);
        }
        entries := entries + [Entry(rel, size, executable, sha256)];
        return None;
    }

    /** The method's outcome, and the state it leaves, are those of the walk on values. */
    ghost predicate Agrees(r: Option<SnapshotError>, walk: Result<Progress, SnapshotError>)
      reads this
    {
      match walk
      case Err(e) => r == Some(e)
      case Ok(p) => r == None && Now() == p
    }
  }

  lemma {:induction false} StepIn(children: seq<Child>, i: nat, h: nat)
    requires i < |children| && AtMost(children[i..], h)
    ensures children[i..][0] == children[i] && children[i..][1..] == children[i + 1..]
    ensures Height(children[i].node) <= h && AtMost(children[i + 1..], h)
  {
    var rest := children[i..];
    assert rest[0] in rest;
    assert forall c :: c in rest[1..] ==> c in rest;
  }

  method CollectEntries(root: seq<Child>, excluded: set<string>, limits: Limits)
    returns (r: Result<seq<Entry>, SnapshotError>)
    ensures r == Collect(root, excluded, limits)
  {
    HeightBounds(root);
    var collector := new Collector(excluded, limits);
    var error := collector.WalkDirectory(root, "", HeightOfAll(root));
    r := if error.Some? then Err(error.value) else Ok(collector.entries);
  }

  // ----- The order of directory listings does not matter

  /** `b` is `a` with every directory's listing in some order. */
  ghost predicate Shuffled(a: Node, b: Node)
    decreases b
  {
    match b
    case Dir(bs) => a.Dir? && exists listing :: ShuffledListing(a.children, bs, listing)
    case _ => a == b
  }

  ghost predicate ShuffledListing(cs: seq<Child>, bs: seq<Child>, listing: seq<Child>)
    decreases bs
  {
    && multiset(listing) == multiset(cs)
    && |listing| == |bs|
    && (forall i :: 0 <= i < |bs| ==> listing[i].name == bs[i].name && Shuffled(listing[i].node, bs[i].node))
  }

  /** As a file system has it: no two children of a directory share a name. */
  ghost predicate NamesDistinct(n: Node) {
    n.Dir? ==> ListingDistinct(n.children)
  }

  ghost predicate ListingDistinct(cs: seq<Child>) {
    DistinctKeys(NameOf, cs) && forall c :: c in cs ==> NamesDistinct(c.node)
  }

  ghost predicate ShuffledBelow(x: Child, y: Child) {
    Shuffled(x.node, y.node)
  }

  /** The same names in the same order, and below them the same trees up to the order of listings. */
  ghost predicate Alike(a: seq<Child>, b: seq<Child>) {
    Pairwise(NameOf, ShuffledBelow, a, b)
  }

  lemma {:induction false} ShuffledSortAlike(cs: seq<Child>, bs: seq<Child>, listing: seq<Child>)
    requires ListingDistinct(cs) && ShuffledListing(cs, bs, listing)
    ensures Alike(Sort(cs), Sort(bs)) && ListingDistinct(Sort(cs))
  {
    SortForgetsOrder(NameOf, cs, listing);
    PairwiseAtEach(NameOf, ShuffledBelow, listing, bs);
    SortPairwise(NameOf, ShuffledBelow, listing, bs);
    SameElements(cs, Sort(cs));
  }

  /** What a walk sees of two nodes that are the same up to the order of listings. */
  ghost predicate SameToAWalk(a: Node, b: Node) {
    || (a == b && !b.Dir?)
    || (a.Dir? && b.Dir? && Alike(Sort(a.children), Sort(b.children)) && ListingDistinct(Sort(a.children)))
  }

  lemma {:induction false} ShuffledIsSameToAWalk(a: Node, b: Node)
    requires Shuffled(a, b) && NamesDistinct(a)
    ensures SameToAWalk(a, b)
  {
    if b.Dir? {
      var listing :| ShuffledListing(a.children, b.children, listing);
      ShuffledSortAlike(a.children, b.children, listing);
    }
  }

  // ----- What is collected

  /** Something the walk comes to that is not a directory. */
  datatype Leaf = Leaf(path: string, node: Node)

  /** The leaves below sorted children that no name excludes, in the order of the walk. */
  ghost function Leaves(cs: seq<Child>, dir: string, h: nat, excluded: set<string>): seq<Leaf>
    requires AtMost(cs, h)
    decreases h, |cs|
  {
    if cs == [] then [] else LeavesAt(cs[0], dir, h, excluded) + Leaves(cs[1..], dir, h, excluded)
  }

  ghost function LeavesAt(c: Child, dir: string, h: nat, excluded: set<string>): seq<Leaf>
    requires Height(c.node) <= h
    decreases h, 0
  {
    if Excluded(excluded, dir, c.name) then []
    else if c.node.Dir? then
      SortKeepsHeight(c.node, h);
      Leaves(Sort(c.node.children), Rel(dir, c.name), h - 1, excluded)
    else [Leaf(Rel(dir, c.name), c.node)]
  }

  lemma {:induction false} LeavesOfDir(c: Child, dir: string, h: nat, excluded: set<string>)
    requires Height(c.node) <= h && !Excluded(excluded, dir, c.name) && c.node.Dir?
    ensures h > 0 && AtMost(Sort(c.node.children), h - 1)
    ensures LeavesAt(c, dir, h, excluded) == Leaves(Sort(c.node.children), Rel(dir, c.name), h - 1, excluded)
  {
    SortKeepsHeight(c.node, h);
  }

  lemma {:induction false} LeavesOfOther(c: Child, dir: string, h: nat, excluded: set<string>)
    requires Height(c.node) <= h && (Excluded(excluded, dir, c.name) || !c.node.Dir?)
    ensures LeavesAt(c, dir, h, excluded)
            == if Excluded(excluded, dir, c.name) then [] else [Leaf(Rel(dir, c.name), c.node)]
  {
  }

  ghost function TakeLeaf(l: Leaf, limits: Limits, p: Progress): Result<Progress, SnapshotError> {
    match l.node
    case Symlink => Err(SymlinkNotAllowed(l.path))
    case File(_, _, _) => AddFile(p, l.path, l.node, limits)
    case _ => Ok(p)
  }

  ghost function TakeLeaves(ls: seq<Leaf>, limits: Limits, p: Progress): Result<Progress, SnapshotError> {
    if ls == [] then Ok(p)
    else
      match TakeLeaf(ls[0], limits, p)
      case Err(e) => Err(e)
      case Ok(q) => TakeLeaves(ls[1..], limits, q)
  }

  lemma {:induction false} TakeLeavesConcat(a: seq<Leaf>, b: seq<Leaf>, limits: Limits, p: Progress)
    ensures TakeLeaves(a + b, limits, p)
            == match TakeLeaves(a, limits, p) case Err(e) => Err(e) case Ok(q) => TakeLeaves(b, limits, q)
  {
    if a == [] {
      assert a + b == b;
    } else {
      assert (a + b)[1..] == a[1..] + b;
      var r := TakeLeaf(a[0], limits, p);
      if r.Ok? {
        TakeLeavesConcat(a[1..], b, limits, r.value);
      }
    }
  }

  lemma {:induction false} WalkTakesLeaves(
    cs: seq<Child>, dir: string, h: nat, excluded: set<string>, limits: Limits, p: Progress)
    requires AtMost(cs, h)
    ensures Walk(cs, dir, h, excluded, limits, p) == TakeLeaves(Leaves(cs, dir, h, excluded), limits, p)
    decreases h, |cs|
  {
    if cs != [] {
      assert cs[0] in cs;
      VisitTakesLeaves(cs[0], dir, h, excluded, limits, p);
      TakeLeavesConcat(LeavesAt(cs[0], dir, h, excluded), Leaves(cs[1..], dir, h, excluded), limits, p);
      var r := Visit(cs[0], dir, h, excluded, limits, p);
      if r.Ok? {
        WalkTakesLeaves(cs[1..], dir, h, excluded, limits, r.value);
      }
    }
  }

  lemma {:induction false} VisitTakesLeaves(
    c: Child, dir: string, h: nat, excluded: set<string>, limits: Limits, p: Progress)
    requires Height(c.node) <= h
    ensures Visit(c, dir, h, excluded, limits, p) == TakeLeaves(LeavesAt(c, dir, h, excluded), limits, p)
    decreases h, 0
  {
    if Excluded(excluded, dir, c.name) {
    } else if c.node.Dir? {
      SortKeepsHeight(c.node, h);
      WalkTakesLeaves(Sort(c.node.children), Rel(dir, c.name), h - 1, excluded, limits, p);
    } else {
      TakeOneLeaf(Leaf(Rel(dir, c.name), c.node), limits, p);
    }
  }

  lemma {:induction false} TakeOneLeaf(l: Leaf, limits: Limits, p: Progress)
    ensures TakeLeaves([l], limits, p) == TakeLeaf(l, limits, p)
  {
    assert [l][1..] == [];
  }

  function FilesOf(ls: seq<Leaf>): seq<Entry> {
    if ls == [] then []
    else
      (match ls[0].node
       case File(size, executable, sha256) => [Entry(ls[0].path, size, executable, sha256)]
       case _ => [])
      + FilesOf(ls[1..])
  }

  function TotalBytes(es: seq<Entry>): nat {
    if es == [] then 0 else es[0].size + TotalBytes(es[1..])
  }

  ghost predicate NoSymlink(ls: seq<Leaf>) {
    forall l :: l in ls ==> !l.node.Symlink?
  }

  ghost predicate Fits(es: seq<Entry>, limits: Limits, p: Progress) {
    |p.entries| + |es| <= limits.maxEntries && p.totalBytes + TotalBytes(es) <= limits.maxTotalBytes
  }

  lemma {:induction false} TakeLeavesExact(ls: seq<Leaf>, limits: Limits, p: Progress)
    requires Fits([], limits, p)
    ensures var r := TakeLeaves(ls, limits, p);
            && (r.Ok? <==> NoSymlink(ls) && Fits(FilesOf(ls), limits, p))
            && (r.Ok? ==> r.value.entries == p.entries + FilesOf(ls))
  {
    if ls != [] {
      var l, rest := ls[0], ls[1..];
      NoSymlinkStep(ls);
      var r := TakeLeaf(l, limits, p);
      if l.node.File? {
        FitsStep(ls, limits, p);
      } else {
        assert FilesOf(ls) == FilesOf(rest);
      }
      if r.Ok? {
        TakeLeavesExact(rest, limits, r.value);
      }
    }
  }

  lemma {:induction false} NoSymlinkStep(ls: seq<Leaf>)
    requires ls != []
    ensures NoSymlink(ls) <==> !ls[0].node.Symlink? && NoSymlink(ls[1..])
  {
    assert ls == [ls[0]] + ls[1..];
  }

  lemma {:induction false} FitsStep(ls: seq<Leaf>, limits: Limits, p: Progress)
    requires ls != [] && ls[0].node.File?
    ensures var r := TakeLeaf(ls[0], limits, p);
            && (Fits(FilesOf(ls), limits, p) <==> r.Ok? && Fits(FilesOf(ls[1..]), limits, r.value))
            && (r.Ok? ==> Fits([], limits, r.value)
                          && p.entries + FilesOf(ls) == r.value.entries + FilesOf(ls[1..]))
  {
    var file := ls[0].node;
    var e := Entry(ls[0].path, file.size, file.executable, file.sha256);
    assert FilesOf(ls) == [e] + FilesOf(ls[1..]);
    TotalBytesCons(e, FilesOf(ls[1..]));
    assert p.entries + ([e] + FilesOf(ls[1..])) == p.entries + [e] + FilesOf(ls[1..]);
  }

  /** What a rejection tells: a symbolic link there is, or the limit that the files exceed. */
  ghost predicate Tells(e: SnapshotError, ls: seq<Leaf>, limits: Limits, p: Progress) {
    match e
    case SymlinkNotAllowed(path) => Leaf(path, Symlink) in ls
    case TooManyFiles => |p.entries| + |FilesOf(ls)| > limits.maxEntries
    case TooManyBytes => p.totalBytes + TotalBytes(FilesOf(ls)) > limits.maxTotalBytes
    case _ => false
  }

  lemma {:induction false} TakeLeavesTells(ls: seq<Leaf>, limits: Limits, p: Progress)
    requires TakeLeaves(ls, limits, p).Err?
    ensures Tells(TakeLeaves(ls, limits, p).error, ls, limits, p)
  {
    var r := TakeLeaf(ls[0], limits, p);
    if ls[0].node.File? {
      var e := Entry(ls[0].path, ls[0].node.size, ls[0].node.executable, ls[0].node.sha256);
      assert FilesOf(ls) == [e] + FilesOf(ls[1..]);
      TotalBytesCons(e, FilesOf(ls[1..]));
    } else {
      assert FilesOf(ls) == FilesOf(ls[1..]);
    }
    if r.Ok? {
      TakeLeavesTells(ls[1..], limits, r.value);
    }
  }

  lemma {:induction false} TotalBytesCons(e: Entry, es: seq<Entry>)
    ensures TotalBytes([e] + es) == e.size + TotalBytes(es)
  {
    assert ([e] + es)[1..] == es;
  }

  // ----- Every visible file, exactly once

  /** Following the names in `segments` from `cs` meets no excluded name and ends at `node`. */
  ghost predicate VisibleAt(cs: seq<Child>, dir: string, segments: seq<string>, excluded: set<string>, node: Node)
    decreases |segments|
  {
    segments != [] && exists c :: c in cs && VisibleVia(c, dir, segments, excluded, node)
  }

  ghost predicate VisibleVia(c: Child, dir: string, segments: seq<string>, excluded: set<string>, node: Node)
    requires segments != []
    decreases |segments|, 0
  {
    && c.name == segments[0] && !Excluded(excluded, dir, c.name)
    && if |segments| == 1 then node == c.node
       else c.node.Dir? && VisibleAt(c.node.children, Rel(dir, c.name), segments[1..], excluded, node)
  }

  function PathOf(dir: string, segments: seq<string>): string
    decreases |segments|
  {
    if segments == [] then dir else PathOf(Rel(dir, segments[0]), segments[1..])
  }

  /** Following the names in `segments` from `cs` ends at `node`. */
  ghost predicate LeadsTo(cs: seq<Child>, segments: seq<string>, node: Node)
    decreases |segments|
  {
    segments != []
    && exists c :: c in cs && c.name == segments[0]
                   && if |segments| == 1 then node == c.node
                      else c.node.Dir? && LeadsTo(c.node.children, segments[1..], node)
  }

  function JoinNames(segments: seq<string>): string {
    if segments == [] then ""
    else if |segments| == 1 then segments[0]
    else JoinNames(segments[..|segments| - 1]) + "/" + segments[|segments| - 1]
  }

  lemma {:induction false} PathOneMore(dir: string, segments: seq<string>)
    requires segments != []
    ensures PathOf(dir, segments) == Rel(PathOf(dir, segments[..|segments| - 1]), segments[|segments| - 1])
    decreases |segments|
  {
    if |segments| > 1 {
      PathOneMore(Rel(dir, segments[0]), segments[1..]);
      assert segments[1..][..|segments| - 2] == segments[..|segments| - 1][1..];
    }
  }

  /** A path is its names with slashes between them. */
  lemma {:induction false} PathIsJoined(segments: seq<string>)
    requires forall i :: 0 <= i < |segments| ==> segments[i] != ""
    ensures PathOf("", segments) == JoinNames(segments)
  {
    if segments != [] {
      var before := segments[..|segments| - 1];
      PathIsJoined(before);
      PathOneMore("", segments);
      assert before != [] ==> JoinNames(before) != "" by {
        if before != [] {
          assert before[|before| - 1] != "";
        }
      }
    }
  }

  /** The name at place `i`, or the path up to there, is excluded. */
  ghost predicate ExcludedAt(dir: string, segments: seq<string>, i: nat, excluded: set<string>)
    requires i < |segments|
  {
    segments[i] in excluded || PathOf(dir, segments[..i + 1]) in excluded
  }

  /** No name on the way, and no path on the way, is excluded. */
  ghost predicate NothingExcluded(dir: string, segments: seq<string>, excluded: set<string>) {
    forall i :: 0 <= i < |segments| ==> !ExcludedAt(dir, segments, i, excluded)
  }

  lemma {:induction false} ExcludedBelow(dir: string, segments: seq<string>, i: nat, excluded: set<string>)
    requires i < |segments|
    ensures i == 0 ==> (ExcludedAt(dir, segments, 0, excluded) <==> Excluded(excluded, dir, segments[0]))
    ensures i > 0 ==> (ExcludedAt(dir, segments, i, excluded)
                       <==> ExcludedAt(Rel(dir, segments[0]), segments[1..], i - 1, excluded))
  {
    assert segments[..i + 1][1..] == segments[1..][..i];
    assert i == 0 ==> PathOf(Rel(dir, segments[0]), segments[1..][..i]) == Rel(dir, segments[0]);
  }

  lemma {:induction false} NothingExcludedStep(dir: string, segments: seq<string>, excluded: set<string>)
    requires segments != []
    ensures NothingExcluded(dir, segments, excluded)
            <==> !Excluded(excluded, dir, segments[0])
                 && NothingExcluded(Rel(dir, segments[0]), segments[1..], excluded)
  {
    var deeper, rest := Rel(dir, segments[0]), segments[1..];
    ExcludedBelow(dir, segments, 0, excluded);
    if !Excluded(excluded, dir, segments[0]) && NothingExcluded(deeper, rest, excluded) {
      forall i | 0 <= i < |segments| ensures !ExcludedAt(dir, segments, i, excluded) {
        ExcludedBelow(dir, segments, i, excluded);
        assert i > 0 ==> !ExcludedAt(deeper, rest, i - 1, excluded);
      }
    }
    if NothingExcluded(dir, segments, excluded) {
      forall i | 0 <= i < |rest| ensures !ExcludedAt(deeper, rest, i, excluded) {
        ExcludedBelow(dir, segments, i + 1, excluded);
      }
    }
  }

  /** What is visible: what names lead to, with no name and no path on the way excluded. */
  lemma {:induction false} VisibleMeans(
    cs: seq<Child>, dir: string, segments: seq<string>, excluded: set<string>, node: Node)
    ensures VisibleAt(cs, dir, segments, excluded, node)
            <==> LeadsTo(cs, segments, node) && NothingExcluded(dir, segments, excluded)
    decreases |segments|
  {
    if segments != [] {
      NothingExcludedStep(dir, segments, excluded);
      assert |segments| == 1 ==> NothingExcluded(Rel(dir, segments[0]), segments[1..], excluded);
      if |segments| > 1 {
        forall c | c in cs && c.name == segments[0] && c.node.Dir?
          ensures VisibleAt(c.node.children, Rel(dir, c.name), segments[1..], excluded, node)
                  <==> LeadsTo(c.node.children, segments[1..], node)
                       && NothingExcluded(Rel(dir, c.name), segments[1..], excluded) {
          VisibleMeans(c.node.children, Rel(dir, c.name), segments[1..], excluded, node);
        }
      }
    }
  }

  lemma {:induction false} LeafIsVisible(cs: seq<Child>, dir: string, h: nat, excluded: set<string>, l: Leaf)
    returns (segments: seq<string>)
    requires AtMost(cs, h) && l in Leaves(cs, dir, h, excluded)
    ensures VisibleAt(cs, dir, segments, excluded, l.node) && PathOf(dir, segments) == l.path && !l.node.Dir?
    decreases h, |cs|
  {
    var c := cs[0];
    if l in LeavesAt(c, dir, h, excluded) {
      if c.node.Dir? {
        SortKeepsHeight(c.node, h);
        var rest := LeafIsVisible(Sort(c.node.children), Rel(dir, c.name), h - 1, excluded, l);
        SameElements(c.node.children, Sort(c.node.children));
        VisibleInAnyOrder(Sort(c.node.children), c.node.children, Rel(dir, c.name), rest, excluded, l.node);
        segments := [c.name] + rest;
        assert segments[1..] == rest;
      } else {
        segments := [c.name];
        assert segments[1..] == [];
      }
      assert VisibleVia(c, dir, segments, excluded, l.node);
    } else {
      segments := LeafIsVisible(cs[1..], dir, h, excluded, l);
      var d :| d in cs[1..] && VisibleVia(d, dir, segments, excluded, l.node);
      assert d in cs;
    }
  }

  lemma {:induction false} VisibleInAnyOrder(
    a: seq<Child>, b: seq<Child>, dir: string, segments: seq<string>, excluded: set<string>, node: Node)
    requires VisibleAt(a, dir, segments, excluded, node) && forall c :: c in a ==> c in b
    ensures VisibleAt(b, dir, segments, excluded, node)
  {
    var c :| c in a && VisibleVia(c, dir, segments, excluded, node);
    assert c in b;
  }

  lemma {:induction false} VisibleIsLeaf(
    cs: seq<Child>, dir: string, h: nat, excluded: set<string>, segments: seq<string>, node: Node)
    requires AtMost(cs, h) && VisibleAt(cs, dir, segments, excluded, node) && !node.Dir?
    ensures Leaf(PathOf(dir, segments), node) in Leaves(cs, dir, h, excluded)
    decreases h, |cs|
  {
    var c :| c in cs && VisibleVia(c, dir, segments, excluded, node);
    if c == cs[0] {
      VisibleBelow(c, dir, h, excluded, segments, node);
    } else {
      assert c in cs[1..];
      VisibleIsLeaf(cs[1..], dir, h, excluded, segments, node);
    }
  }

  lemma {:induction false} VisibleBelow(
    c: Child, dir: string, h: nat, excluded: set<string>, segments: seq<string>, node: Node)
    requires Height(c.node) <= h && segments != [] && VisibleVia(c, dir, segments, excluded, node) && !node.Dir?
    ensures Leaf(PathOf(dir, segments), node) in LeavesAt(c, dir, h, excluded)
    decreases h, 0
  {
    if |segments| == 1 {
      assert segments[1..] == [];
    } else {
      VisibleInside(c, dir, h, excluded, segments, node);
    }
  }

  lemma {:induction false} VisibleInside(
    c: Child, dir: string, h: nat, excluded: set<string>, segments: seq<string>, node: Node)
    requires Height(c.node) <= h && !Excluded(excluded, dir, c.name) && c.node.Dir? && !node.Dir?
    requires |segments| > 1 && segments[0] == c.name
    requires VisibleAt(c.node.children, Rel(dir, c.name), segments[1..], excluded, node)
    ensures Leaf(PathOf(dir, segments), node) in LeavesAt(c, dir, h, excluded)
    decreases h, 0, 0
  {
    var sorted, rel, rest := Sort(c.node.children), Rel(dir, c.name), segments[1..];
    LeavesOfDir(c, dir, h, excluded);
    VisibleSorted(c.node.children, rel, rest, excluded, node);
    PathInside(dir, c.name, segments);
    VisibleIsLeaf(sorted, rel, h - 1, excluded, rest, node);
  }

  lemma {:induction false} PathInside(dir: string, name: string, segments: seq<string>)
    requires segments != [] && segments[0] == name
    ensures PathOf(dir, segments) == PathOf(Rel(dir, name), segments[1..])
  {
  }

  lemma {:induction false} VisibleSorted(
    cs: seq<Child>, dir: string, segments: seq<string>, excluded: set<string>, node: Node)
    requires VisibleAt(cs, dir, segments, excluded, node)
    ensures VisibleAt(Sort(cs), dir, segments, excluded, node)
  {
    SameElements(cs, Sort(cs));
    VisibleInAnyOrder(cs, Sort(cs), dir, segments, excluded, node);
  }

  /** As a file system has them: names are not empty and contain no slash. */
  ghost predicate NamesProper(n: Node) {
    n.Dir? ==> ListingProper(n.children)
  }

  ghost predicate ListingProper(cs: seq<Child>) {
    forall c :: c in cs ==> c.name != "" && '/' !in c.name && NamesProper(c.node)
  }

  /** `path` is `base` or something below it. */
  ghost predicate Under(base: string, path: string) {
    base <= path && (|path| > |base| ==> path[|base|] == '/')
  }

  lemma {:induction false} UnderOneName(dir: string, a: string, b: string, path: string)
    requires '/' !in a && '/' !in b && Under(Rel(dir, a), path) && Under(Rel(dir, b), path)
    ensures a == b
  {
    var start := if dir == "" then 0 else |dir| + 1;
    var rest := path[start..];
    assert a == rest[..|a|] && b == rest[..|b|];
  }

  lemma {:induction false} UnderDeeper(base: string, name: string, path: string)
    requires base != "" && Under(Rel(base, name), path)
    ensures Under(base, path)
  {
    assert Rel(base, name)[..|base|] == base && Rel(base, name)[|base|] == '/';
    assert path[..|Rel(base, name)|] == Rel(base, name);
    assert path[|base|] == Rel(base, name)[|base|];
    assert path[..|base|] == base;
  }

  lemma {:induction false} LeavesAreUnder(cs: seq<Child>, dir: string, h: nat, excluded: set<string>, l: Leaf)
    returns (c: Child)
    requires AtMost(cs, h) && ListingProper(cs) && l in Leaves(cs, dir, h, excluded)
    ensures c in cs && Under(Rel(dir, c.name), l.path)
    decreases h, |cs|
  {
    if l in LeavesAt(cs[0], dir, h, excluded) {
      c := cs[0];
      assert c in cs;
      LeavesAtAreUnder(c, dir, h, excluded, l);
    } else {
      c := LeavesAreUnder(cs[1..], dir, h, excluded, l);
      assert c in cs;
    }
  }

  lemma {:induction false} LeavesAtAreUnder(c: Child, dir: string, h: nat, excluded: set<string>, l: Leaf)
    requires Height(c.node) <= h && c.name != "" && NamesProper(c.node) && l in LeavesAt(c, dir, h, excluded)
    ensures Under(Rel(dir, c.name), l.path)
    decreases h, 0
  {
    if c.node.Dir? {
      LeavesOfDir(c, dir, h, excluded);
      SortedProper(c.node.children);
      var d := LeavesAreUnder(Sort(c.node.children), Rel(dir, c.name), h - 1, excluded, l);
      UnderDeeper(Rel(dir, c.name), d.name, l.path);
    }
  }

  lemma {:induction false} SortedProper(cs: seq<Child>)
    requires ListingProper(cs)
    ensures ListingProper(Sort(cs))
  {
    SameElements(cs, Sort(cs));
  }

  ghost predicate DistinctPaths(ls: seq<Leaf>) {
    forall i, j :: 0 <= i < j < |ls| ==> ls[i].path != ls[j].path
  }

  lemma {:induction false} DistinctPathsConcat(a: seq<Leaf>, b: seq<Leaf>)
    requires DistinctPaths(a) && DistinctPaths(b)
    requires forall x, y :: x in a && y in b ==> x.path != y.path
    ensures DistinctPaths(a + b)
  {
    var ls := a + b;
    forall i, j | 0 <= i < j < |ls| ensures ls[i].path != ls[j].path {
      if i < |a| && |a| <= j {
        assert ls[i] in a && ls[j] in b;
      }
    }
  }

  lemma {:induction false} LeavesDistinct(cs: seq<Child>, dir: string, h: nat, excluded: set<string>)
    requires AtMost(cs, h) && ListingProper(cs) && ListingDistinct(cs)
    ensures DistinctPaths(Leaves(cs, dir, h, excluded))
    decreases h, |cs|
  {
    if cs != [] {
      var c, rest := cs[0], cs[1..];
      assert c in cs;
      DistinctTail(NameOf, cs);
      LeavesAtDistinct(c, dir, h, excluded);
      LeavesDistinct(rest, dir, h, excluded);
      forall x, y | x in LeavesAt(c, dir, h, excluded) && y in Leaves(rest, dir, h, excluded) ensures x.path != y.path {
        LeavesAtAreUnder(c, dir, h, excluded, x);
        var d := LeavesAreUnder(rest, dir, h, excluded, y);
        HeadNotInTail(NameOf, cs, d);
        if x.path == y.path {
          UnderOneName(dir, c.name, d.name, x.path);
        }
      }
      DistinctPathsConcat(LeavesAt(c, dir, h, excluded), Leaves(rest, dir, h, excluded));
    }
  }

  lemma {:induction false} LeavesAtDistinct(c: Child, dir: string, h: nat, excluded: set<string>)
    requires Height(c.node) <= h && NamesProper(c.node) && NamesDistinct(c.node)
    ensures DistinctPaths(LeavesAt(c, dir, h, excluded))
    decreases h, 0
  {
    if c.node.Dir? && !Excluded(excluded, dir, c.name) {
      LeavesOfDir(c, dir, h, excluded);
      SortedDistinct(c.node.children);
      LeavesDistinct(Sort(c.node.children), Rel(dir, c.name), h - 1, excluded);
    }
  }

  // ----- The order of the entries

  /** The paths part at some directory, where the first goes on with the lesser name. */
  ghost predicate Before(p: string, q: string) {
    exists dir, a, b :: PartAt(dir, a, b, p, q)
  }

  ghost predicate PartAt(dir: string, a: string, b: string, p: string, q: string) {
    && a != b && '/' !in a && '/' !in b && Leq(a, b)
    && Under(Rel(dir, a), p) && Under(Rel(dir, b), q)
  }

  ghost predicate InOrder(ls: seq<Leaf>) {
    forall i, j :: 0 <= i < j < |ls| ==> Before(ls[i].path, ls[j].path)
  }

  lemma {:induction false} InOrderConcat(a: seq<Leaf>, b: seq<Leaf>)
    requires InOrder(a) && InOrder(b)
    requires forall x, y :: x in a && y in b ==> Before(x.path, y.path)
    ensures InOrder(a + b)
  {
    var ls := a + b;
    forall i, j | 0 <= i < j < |ls| ensures Before(ls[i].path, ls[j].path) {
      if i < |a| && |a| <= j {
        assert ls[i] in a && ls[j] in b;
      }
    }
  }

  lemma {:induction false} LeavesInOrder(cs: seq<Child>, dir: string, h: nat, excluded: set<string>)
    requires AtMost(cs, h) && ListingProper(cs) && ListingDistinct(cs) && Sorted(NameOf, cs)
    ensures InOrder(Leaves(cs, dir, h, excluded))
    decreases h, |cs|
  {
    if cs != [] {
      var c, rest := cs[0], cs[1..];
      assert c in cs;
      DistinctTail(NameOf, cs);
      SortedTail(NameOf, cs);
      LeavesAtInOrder(c, dir, h, excluded);
      LeavesInOrder(rest, dir, h, excluded);
      forall x, y | x in LeavesAt(c, dir, h, excluded) && y in Leaves(rest, dir, h, excluded)
        ensures Before(x.path, y.path) {
        LeavesAtAreUnder(c, dir, h, excluded, x);
        var d := LeavesAreUnder(rest, dir, h, excluded, y);
        HeadNotInTail(NameOf, cs, d);
        HeadIsLeast(NameOf, cs, d);
        assert PartAt(dir, c.name, d.name, x.path, y.path);
      }
      InOrderConcat(LeavesAt(c, dir, h, excluded), Leaves(rest, dir, h, excluded));
    }
  }

  lemma {:induction false} LeavesAtInOrder(c: Child, dir: string, h: nat, excluded: set<string>)
    requires Height(c.node) <= h && NamesProper(c.node) && NamesDistinct(c.node)
    ensures InOrder(LeavesAt(c, dir, h, excluded))
    decreases h, 0, 1
  {
    if c.node.Dir? && !Excluded(excluded, dir, c.name) {
      LeavesOfDir(c, dir, h, excluded);
      SortedInOrder(c.node, Rel(dir, c.name), h, excluded);
    }
  }

  lemma {:induction false} SortedInOrder(n: Node, dir: string, h: nat, excluded: set<string>)
    requires n.Dir? && Height(n) <= h && NamesProper(n) && NamesDistinct(n)
    ensures h > 0 && AtMost(Sort(n.children), h - 1)
    ensures InOrder(Leaves(Sort(n.children), dir, h - 1, excluded))
    decreases h, 0, 0
  {
    SortKeepsHeight(n, h);
    SortedDistinct(n.children);
    SortBySorted(NameOf, n.children);
    LeavesInOrder(Sort(n.children), dir, h - 1, excluded);
  }

  lemma {:induction false} FilesOfInOrder(ls: seq<Leaf>)
    requires InOrder(ls)
    ensures forall i, j :: 0 <= i < j < |FilesOf(ls)| ==> Before(FilesOf(ls)[i].path, FilesOf(ls)[j].path)
  {
    if ls != [] {
      var es := FilesOf(ls[1..]);
      FilesOfInOrder(ls[1..]);
      forall e | e in es ensures Before(ls[0].path, e.path) {
        FilesOfMembers(ls[1..], e);
        var i :| 0 <= i < |ls[1..]| && ls[1..][i] == Leaf(e.path, File(e.size, e.executable, e.sha256));
        assert ls[i + 1].path == e.path;
      }
      if ls[0].node.File? {
        assert FilesOf(ls) == [FilesOf(ls)[0]] + es && FilesOf(ls)[0].path == ls[0].path;
      } else {
        assert FilesOf(ls) == es;
      }
    }
  }

  // ----- The order of listings does not matter

  lemma {:induction false} LeavesAlike(a: seq<Child>, b: seq<Child>, dir: string, h: nat, excluded: set<string>)
    requires Alike(a, b) && AtMost(a, h) && AtMost(b, h) && forall c :: c in a ==> NamesDistinct(c.node)
    ensures Leaves(a, dir, h, excluded) == Leaves(b, dir, h, excluded)
    decreases h, |a|
  {
    if a != [] {
      assert a[0] in a && b[0] in b;
      ShuffledIsSameToAWalk(a[0].node, b[0].node);
      LeavesAtAlike(a[0], b[0], dir, h, excluded);
      LeavesAlike(a[1..], b[1..], dir, h, excluded);
    }
  }

  lemma {:induction false} LeavesAtAlike(x: Child, y: Child, dir: string, h: nat, excluded: set<string>)
    requires x.name == y.name && SameToAWalk(x.node, y.node) && Height(x.node) <= h && Height(y.node) <= h
    ensures LeavesAt(x, dir, h, excluded) == LeavesAt(y, dir, h, excluded)
    decreases h, 0
  {
    if y.node.Dir? && !Excluded(excluded, dir, x.name) {
      LeavesOfDir(x, dir, h, excluded);
      LeavesOfDir(y, dir, h, excluded);
      DistinctBelow(Sort(x.node.children));
      LeavesAlike(Sort(x.node.children), Sort(y.node.children), Rel(dir, x.name), h - 1, excluded);
    }
  }

  lemma {:induction false} DistinctBelow(cs: seq<Child>)
    requires ListingDistinct(cs)
    ensures forall c :: c in cs ==> NamesDistinct(c.node)
  {
  }

  /** A bound on the height that is not tight changes nothing. */
  lemma {:induction false} LeavesHeight(cs: seq<Child>, dir: string, h: nat, k: nat, excluded: set<string>)
    requires AtMost(cs, h) && h <= k
    ensures AtMost(cs, k) && Leaves(cs, dir, h, excluded) == Leaves(cs, dir, k, excluded)
    decreases h, |cs|
  {
    if cs != [] {
      assert cs[0] in cs;
      LeavesAtHeight(cs[0], dir, h, k, excluded);
      LeavesHeight(cs[1..], dir, h, k, excluded);
    }
  }

  lemma {:induction false} LeavesAtHeight(c: Child, dir: string, h: nat, k: nat, excluded: set<string>)
    requires Height(c.node) <= h <= k
    ensures LeavesAt(c, dir, h, excluded) == LeavesAt(c, dir, k, excluded)
    decreases h, 0
  {
    if c.node.Dir? && !Excluded(excluded, dir, c.name) {
      var sorted, rel := Sort(c.node.children), Rel(dir, c.name);
      LeavesOfDir(c, dir, h, excluded);
      LeavesOfDir(c, dir, k, excluded);
      LeavesHeight(sorted, rel, h - 1, k - 1, excluded);
    } else {
      LeavesOfOther(c, dir, h, excluded);
      LeavesOfOther(c, dir, k, excluded);
    }
  }

  // ----- The whole tree

  /** The leaves of a root directory. */
  ghost function RootLeaves(root: seq<Child>, excluded: set<string>): seq<Leaf> {
    HeightBounds(root);
    SameElements(root, Sort(root));
    Leaves(Sort(root), "", HeightOfAll(root), excluded)
  }

  /** The same tree, listed in any order at every level, has the same leaves in the same order. */
  lemma {:induction false} RootLeavesForgetListingOrder(a: seq<Child>, b: seq<Child>, excluded: set<string>)
    requires NamesDistinct(Dir(a)) && Shuffled(Dir(a), Dir(b))
    ensures RootLeaves(a, excluded) == RootLeaves(b, excluded)
  {
    ShuffledIsSameToAWalk(Dir(a), Dir(b));
    HeightBounds(a);
    HeightBounds(b);
    SameElements(a, Sort(a));
    SameElements(b, Sort(b));
    var h, k := HeightOfAll(a), HeightOfAll(b);
    var m := if h < k then k else h;
    LeavesHeight(Sort(a), "", h, m, excluded);
    LeavesHeight(Sort(b), "", k, m, excluded);
    LeavesAlike(Sort(a), Sort(b), "", m, excluded);
  }

  lemma {:induction false} CollectTakesLeaves(root: seq<Child>, excluded: set<string>, limits: Limits)
    ensures Collect(root, excluded, limits)
            == match TakeLeaves(RootLeaves(root, excluded), limits, Progress([], 0))
               case Err(e) => Err(e)
               case Ok(p) => Ok(p.entries)
  {
    HeightBounds(root);
    SameElements(root, Sort(root));
    WalkTakesLeaves(Sort(root), "", HeightOfAll(root), excluded, limits, Progress([], 0));
  }

  /** Determinism: whatever order the directories are listed in, the entries, or the rejection, are the same. */
  lemma {:induction false} CollectForgetsListingOrder(a: seq<Child>, b: seq<Child>, excluded: set<string>, limits: Limits)
    requires NamesDistinct(Dir(a)) && Shuffled(Dir(a), Dir(b))
    ensures Collect(a, excluded, limits) == Collect(b, excluded, limits)
  {
    CollectTakesLeaves(a, excluded, limits);
    CollectTakesLeaves(b, excluded, limits);
    RootLeavesForgetListingOrder(a, b, excluded);
  }

  /** A tree is collected if and only if it has no visible symbolic link and its files are within both limits. */
  lemma {:induction false} CollectSucceeds(root: seq<Child>, excluded: set<string>, limits: Limits)
    ensures var ls := RootLeaves(root, excluded);
            var r := Collect(root, excluded, limits);
            && (r.Ok? <==> NoSymlink(ls) && |FilesOf(ls)| <= limits.maxEntries
                           && TotalBytes(FilesOf(ls)) <= limits.maxTotalBytes)
            && (r.Ok? ==> r.value == FilesOf(ls))
  {
    var ls := RootLeaves(root, excluded);
    CollectTakesLeaves(root, excluded, limits);
    TakeLeavesExact(ls, limits, Progress([], 0));
    assert [] + FilesOf(ls) == FilesOf(ls);
  }

  /** A rejection is right: the symbolic link is visible, or the visible files exceed the limit that is named. */
  lemma {:induction false} RejectionIsRight(root: seq<Child>, excluded: set<string>, limits: Limits)
    requires Collect(root, excluded, limits).Err?
    ensures var ls := RootLeaves(root, excluded);
            match Collect(root, excluded, limits).error
            case SymlinkNotAllowed(path) => Leaf(path, Symlink) in ls
            case TooManyFiles => |FilesOf(ls)| > limits.maxEntries
            case TooManyBytes => TotalBytes(FilesOf(ls)) > limits.maxTotalBytes
            case _ => false
  {
    CollectTakesLeaves(root, excluded, limits);
    TakeLeavesTells(RootLeaves(root, excluded), limits, Progress([], 0));
  }

  /** Some path that meets nothing excluded leads to the leaf. */
  ghost predicate IsVisible(root: seq<Child>, excluded: set<string>, l: Leaf) {
    exists segments :: VisibleAt(root, "", segments, excluded, l.node) && PathOf("", segments) == l.path
  }

  lemma {:induction false} LeavesAreTheVisible(root: seq<Child>, excluded: set<string>, l: Leaf)
    ensures l in RootLeaves(root, excluded) <==> !l.node.Dir? && IsVisible(root, excluded, l)
  {
    HeightBounds(root);
    SameElements(root, Sort(root));
    if l in RootLeaves(root, excluded) {
      var segments := LeafIsVisible(Sort(root), "", HeightOfAll(root), excluded, l);
      VisibleInAnyOrder(Sort(root), root, "", segments, excluded, l.node);
    }
    if !l.node.Dir? && IsVisible(root, excluded, l) {
      var segments :| VisibleAt(root, "", segments, excluded, l.node) && PathOf("", segments) == l.path;
      VisibleInAnyOrder(root, Sort(root), "", segments, excluded, l.node);
      VisibleIsLeaf(Sort(root), "", HeightOfAll(root), excluded, segments, l.node);
    }
  }

  ghost predicate IsFileEntry(root: seq<Child>, excluded: set<string>, e: Entry) {
    IsVisible(root, excluded, Leaf(e.path, File(e.size, e.executable, e.sha256)))
  }

  lemma {:induction false} FilesOfMembers(ls: seq<Leaf>, e: Entry)
    ensures e in FilesOf(ls) <==> Leaf(e.path, File(e.size, e.executable, e.sha256)) in ls
  {
    if ls != [] {
      FilesOfMembers(ls[1..], e);
      assert ls == [ls[0]] + ls[1..];
    }
  }

  lemma {:induction false} FilesAreTheVisibleFiles(root: seq<Child>, excluded: set<string>, e: Entry)
    ensures e in FilesOf(RootLeaves(root, excluded)) <==> IsFileEntry(root, excluded, e)
  {
    FilesOfMembers(RootLeaves(root, excluded), e);
    LeavesAreTheVisible(root, excluded, Leaf(e.path, File(e.size, e.executable, e.sha256)));
  }

  ghost predicate DistinctEntries(es: seq<Entry>) {
    forall i, j :: 0 <= i < j < |es| ==> es[i].path != es[j].path
  }

  lemma {:induction false} FilesOfDistinct(ls: seq<Leaf>)
    requires DistinctPaths(ls)
    ensures DistinctEntries(FilesOf(ls))
  {
    if ls != [] {
      FilesOfDistinct(ls[1..]);
      forall e | e in FilesOf(ls[1..]) ensures e.path != ls[0].path {
        FilesOfMembers(ls[1..], e);
        var i :| 0 <= i < |ls[1..]| && ls[1..][i] == Leaf(e.path, File(e.size, e.executable, e.sha256));
        assert ls[i + 1].path == e.path;
      }
    }
  }

  /** A manifest lists every visible regular file, with its own attributes, once, in order, and nothing else. */
  lemma {:induction false} ManifestIsExact(root: seq<Child>, excluded: set<string>, limits: Limits)
    requires NamesDistinct(Dir(root)) && NamesProper(Dir(root)) && Collect(root, excluded, limits).Ok?
    ensures var entries := Collect(root, excluded, limits).value;
            && (forall e :: e in entries <==> IsFileEntry(root, excluded, e))
            && DistinctEntries(entries)
            && (forall i, j :: 0 <= i < j < |entries| ==> Before(entries[i].path, entries[j].path))
            && |entries| <= limits.maxEntries && TotalBytes(entries) <= limits.maxTotalBytes
  {
    var ls := RootLeaves(root, excluded);
    CollectSucceeds(root, excluded, limits);
    forall e ensures e in FilesOf(ls) <==> IsFileEntry(root, excluded, e) {
      FilesAreTheVisibleFiles(root, excluded, e);
    }
    HeightBounds(root);
    SortedDistinct(root);
    LeavesDistinct(Sort(root), "", HeightOfAll(root), excluded);
    FilesOfDistinct(ls);
    SortBySorted(NameOf, root);
    LeavesInOrder(Sort(root), "", HeightOfAll(root), excluded);
    FilesOfInOrder(ls);
  }

  lemma {:induction false} SortedDistinct(root: seq<Child>)
    requires NamesDistinct(Dir(root)) && NamesProper(Dir(root))
    ensures ListingDistinct(Sort(root)) && ListingProper(Sort(root))
    ensures forall h :: AtMost(root, h) ==> AtMost(Sort(root), h)
  {
    SameElements(root, Sort(root));
  }
}
