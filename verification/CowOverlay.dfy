/**
 * Copy-on-write fixtures (apps/run-supervisor/src/cow-fixture.ts): each fixture is a file tree laid
 * over a common base directory. Trees are maps from normalised paths to contents.
 */
module CowOverlay {
  import opened Wrappers

  type Path = string
  type Files = map<Path, string>
  type Name = string

  datatype Error = MaxFixturesReached | FixtureNotFound | SourceNotFound | FileNotFound

  /** `trees` is what is on disk; `fixtures` has the modified paths of each registered fixture. */
  datatype State = State(base: Files, trees: map<Name, Files>, fixtures: map<Name, set<Path>>)

  // ----- The operations on values

  /** The directory is created if it is not there; what is in it stays. */
  function Create(s: State, name: Name): State {
    State(s.base, if name in s.trees then s.trees else s.trees[name := map[]], s.fixtures[name := {}])
  }

  function TreeOf(s: State, name: Name): Files {
    if name in s.trees then s.trees[name] else map[]
  }

  function Lookup(s: State, name: Name, path: Path): Option<string> {
    if path in TreeOf(s, name) then Some(TreeOf(s, name)[path])
    else if path in s.base then Some(s.base[path])
    else None
  }

  function Write(s: State, name: Name, path: Path, content: string): State
    requires name in s.fixtures
  {
    State(s.base, s.trees[name := TreeOf(s, name)[path := content]], s.fixtures[name := s.fixtures[name] + {path}])
  }

  function Copy(s: State, name: Name, path: Path): State {
    if path in s.base then s.(trees := s.trees[name := TreeOf(s, name)[path := s.base[path]]]) else s
  }

  function Delete(s: State, name: Name, path: Path): State
    requires name in s.fixtures
  {
    State(s.base, s.trees[name := TreeOf(s, name) - {path}], s.fixtures[name := s.fixtures[name] + {path}])
  }

  /** The base with the modified files that are still in the tree. */
  function Merged(base: Files, tree: Files, modified: set<Path>): Files {
    map path | path in base.Keys + tree.Keys && (path in base || path in modified) ::
      if path in modified && path in tree then tree[path] else base[path]
  }

  function Commit(s: State, name: Name): State
    requires name in s.fixtures
  {
    State(Merged(s.base, TreeOf(s, name), s.fixtures[name]), s.trees - {name}, s.fixtures - {name})
  }

  function Rollback(s: State, name: Name): State {
    State(s.base, s.trees - {name}, s.fixtures - {name})
  }

  // ----- The program's object

  class CowFixtureManager {
    var base: Files
    var trees: map<Name, Files>
    var fixtures: map<Name, set<Path>>
    const maxFixtures: nat

    constructor (base: Files, maxFixtures: nat)
      ensures Now() == State(base, map[], map[]) && this.maxFixtures == maxFixtures
    {
      this.base, this.maxFixtures := base, maxFixtures;
      trees, fixtures := map[], map[];
    }

    ghost function Now(): State
      reads this
    {
      State(base, trees, fixtures)
    }

    method CreateFixture(name: Name) returns (r: Option<Error>)
      modifies this
      ensures r == if |old(fixtures)| >= maxFixtures then Some(MaxFixturesReached) else None
      ensures Now() == if r.None? then Create(old(Now()), name) else old(Now())
    {
      if |fixtures| >= maxFixtures {
        return Some(MaxFixturesReached);
      }
      if name !in trees {
        trees := trees[name := map[]];
      }
      fixtures := fixtures[name := {}];
      return None;
    }

    method CopyFile(name: Name, path: Path) returns (r: Option<Error>)
      modifies this
      ensures name !in old(fixtures) ==> r == Some(FixtureNotFound)
      ensures name in old(fixtures) ==> r == if path in base then None else Some(SourceNotFound)
      ensures Now() == if r.None? then Copy(old(Now()), name, path) else old(Now())
    {
      if name !in fixtures {
        return Some(FixtureNotFound);
      }
      if path !in base {
        return Some(SourceNotFound);
      }
      var tree := if name in trees then trees[name] else map[];
      trees := trees[name := tree[path := base[path]]];
      return None;
    }

    method ReadFile(name: Name, path: Path) returns (r: Result<string, Error>)
      ensures name !in fixtures ==> r == Err(FixtureNotFound)
      ensures name in fixtures ==>
                r == match Lookup(Now(), name, path) case Some(c) => Ok(c) case None => Err(FileNotFound)
    {
      if name !in fixtures {
        return Err(FixtureNotFound);
      }
      if name in trees && path in trees[name] {
        return Ok(trees[name][path]);
      }
      if path in base {
        return Ok(base[path]);
      }
      return Err(FileNotFound);
    }

    method WriteFile(name: Name, path: Path, content: string) returns (r: Option<Error>)
      modifies this
      ensures r == if name in old(fixtures) then None else Some(FixtureNotFound)
      ensures Now() == if r.None? then Write(old(Now()), name, path, content) else old(Now())
    {
      if name !in fixtures {
        return Some(FixtureNotFound);
      }
      var tree := if name in trees then trees[name] else map[];
      trees := trees[name := tree[path := content]];
      fixtures := fixtures[name := fixtures[name] + {path}];
      return None;
    }

    method DeleteFile(name: Name, path: Path) returns (r: Option<Error>)
      modifies this
      ensures r == if name in old(fixtures) then None else Some(FixtureNotFound)
      ensures Now() == if r.None? then Delete(old(Now()), name, path) else old(Now())
    {
      if name !in fixtures {
        return Some(FixtureNotFound);
      }
      var tree := if name in trees then trees[name] else map[];
      trees := trees[name := tree - {path}];
      fixtures := fixtures[name := fixtures[name] + {path}];
      return None;
    }

    /** Copies the modified files back one by one, in whatever order the set gives them. */
    method CommitFixture(name: Name) returns (r: Option<Error>)
      modifies this
      ensures r == if name in old(fixtures) then None else Some(FixtureNotFound)
      ensures Now() == if r.None? then Commit(old(Now()), name) else old(Now())
    {
      if name !in fixtures {
        return Some(FixtureNotFound);
      }
      var tree := if name in trees then trees[name] else map[];
      var modified := fixtures[name];
      var todo := modified;
      while todo != {}
        invariant todo <= modified && trees == old(trees) && fixtures == old(fixtures)
        invariant base == Merged(old(base), tree, modified - todo)
        decreases |todo|
      {
        var path :| path in todo;
        todo := todo - {path};
        if path in tree {
          base := base[path := tree[path]];
        }
        assert base == Merged(old(base), tree, modified - todo);
      }
      assert modified - todo == modified;
      trees := trees - {name};
      fixtures := fixtures - {name};
      return None;
    }

    method RollbackFixture(name: Name) returns (r: Option<Error>)
      modifies this
      ensures r == if name in old(fixtures) then None else Some(FixtureNotFound)
      ensures Now() == if r.None? then Rollback(old(Now()), name) else old(Now())
    {
      if name !in fixtures {
        return Some(FixtureNotFound);
      }
      trees := trees - {name};
      fixtures := fixtures - {name};
      return None;
    }
  }

  // ----- The simple form

  /** What a fixture shows. */
  function View(s: State, name: Name): Files {
    s.base + TreeOf(s, name)
  }

  lemma LookupIsView(s: State, name: Name, path: Path)
    ensures Lookup(s, name, path) == if path in View(s, name) then Some(View(s, name)[path]) else None
  {
  }

  /** Files in the tree that were not modified are as in the base. */
  ghost predicate Tracked(base: Files, tree: Files, modified: set<Path>) {
    forall path :: path in tree && path !in modified ==> path in base && base[path] == tree[path]
  }

  /** A commit makes the base what the fixture shows exactly when all differences were tracked. */
  lemma CommitExactlyWhen(s: State, name: Name)
    requires name in s.fixtures
    ensures Commit(s, name).base == View(s, name) <==> Tracked(s.base, TreeOf(s, name), s.fixtures[name])
  {
    var tree, modified := TreeOf(s, name), s.fixtures[name];
    var merged, view := Merged(s.base, tree, modified), View(s, name);
    if Tracked(s.base, tree, modified) {
      forall path ensures path in merged <==> path in view {
      }
      assert merged == view;
    } else {
      var path :| path in tree && path !in modified && !(path in s.base && s.base[path] == tree[path]);
      assert view[path] == tree[path];
      assert path !in s.base ==> path !in merged;
      assert path in s.base ==> merged[path] == s.base[path];
    }
  }

  datatype Op =
    | New(name: Name)
    | Put(name: Name, path: Path, content: string)
    | Reset(name: Name, path: Path)
    | Remove(name: Name, path: Path)
    | Save(name: Name)
    | Drop(name: Name)

  /** Calls on unregistered fixtures fail and change nothing. */
  function Apply(s: State, op: Op): State {
    if op.New? then Create(s, op.name)
    else if op.name !in s.fixtures then s
    else
      match op
      case Put(name, path, content) => Write(s, name, path, content)
      case Reset(name, path) => Copy(s, name, path)
      case Remove(name, path) => Delete(s, name, path)
      case Save(name) => Commit(s, name)
      case Drop(name) => Rollback(s, name)
  }

  function Run(s: State, ops: seq<Op>): State {
    if ops == [] then s else Apply(Run(s, ops[..|ops| - 1]), ops[|ops| - 1])
  }

  /** The simple form: a base, and for each fixture what it has written over it. */
  datatype Simple = Simple(base: Files, writes: map<Name, Files>)

  /** What a fixture should show. */
  function Shown(m: Simple, name: Name): Files
    requires name in m.writes
  {
    m.base + m.writes[name]
  }

  /**
   * Writing updates; copying an existing file, and deleting, go back to the base; committing makes the
   * base what the fixture shows.
   */
  function ApplySimple(m: Simple, op: Op): Simple {
    if op.New? then m.(writes := m.writes[op.name := map[]])
    else if op.name !in m.writes then m
    else
      var w := m.writes[op.name];
      match op
      case Put(name, path, content) => m.(writes := m.writes[name := w[path := content]])
      case Reset(name, path) => if path in m.base then m.(writes := m.writes[name := w - {path}]) else m
      case Remove(name, path) => m.(writes := m.writes[name := w - {path}])
      case Save(name) => Simple(m.base + w, m.writes - {name})
      case Drop(name) => m.(writes := m.writes - {name})
  }

  function RunSimple(base: Files, ops: seq<Op>): Simple {
    if ops == [] then Simple(base, map[]) else ApplySimple(RunSimple(base, ops[..|ops| - 1]), ops[|ops| - 1])
  }

  /** What the tree of a fixture has beyond what was written are copies of files of the base. */
  ghost predicate Overlays(base: Files, tree: Files, modified: set<Path>, writes: Files) {
    && (forall path :: path in writes ==> path in tree && tree[path] == writes[path] && path in modified)
    && CopiesAgree(base, tree, writes)
  }

  ghost predicate CopiesAgree(base: Files, tree: Files, writes: Files) {
    forall path :: path in tree && path !in writes ==> path in base && base[path] == tree[path]
  }

  /** Directories belong to registered fixtures, and each fixture shows what it should. */
  ghost predicate Refines(s: State, m: Simple) {
    && s.base == m.base && s.fixtures.Keys == m.writes.Keys && s.trees.Keys == m.writes.Keys
    && forall name :: name in m.writes ==> Overlays(m.base, s.trees[name], s.fixtures[name], m.writes[name])
  }

  lemma OverlayShows(base: Files, tree: Files, modified: set<Path>, writes: Files)
    requires Overlays(base, tree, modified, writes)
    ensures base + tree == base + writes && Tracked(base, tree, modified)
  {
    assert (base + tree).Keys == (base + writes).Keys;
  }

  /**
   * Committing one fixture under another: the other goes on to show its own writes over the new base if
   * and only if none of the files it holds a copy of has changed.
   */
  lemma CommitSparesOtherExactlyWhen(s: State, m: Simple, name: Name, other: Name)
    requires Refines(s, m) && name in m.writes && other in m.writes && other != name
    ensures Commit(s, name).base == Shown(m, name)
    ensures View(Commit(s, name), other) == Shown(m, name) + m.writes[other]
            <==> CopiesAgree(Shown(m, name), s.trees[other], m.writes[other])
  {
    assert Overlays(m.base, s.trees[name], s.fixtures[name], m.writes[name]);
    OverlayShows(m.base, s.trees[name], s.fixtures[name], m.writes[name]);
    CommitExactlyWhen(s, name);
    var base, tree, writes := Shown(m, name), s.trees[other], m.writes[other];
    assert Overlays(m.base, tree, s.fixtures[other], writes);
    assert TreeOf(Commit(s, name), other) == tree;
    if CopiesAgree(base, tree, writes) {
      OverlayShows(base, tree, s.fixtures[other], writes);
    } else {
      var path :| path in tree && path !in writes && !(path in base && base[path] == tree[path]);
      assert (base + tree)[path] == tree[path];
      assert path in base + writes ==> (base + writes)[path] == base[path];
    }
  }

  /**
   * A name is taken only when its directory has nothing but copies of files of the base, as one that is not
   * there, and a commit changes no file that another fixture holds a copy of.
   */
  ghost predicate Careful(s: State, m: Simple, op: Op) {
    && (op.New? ==> CopiesAgree(m.base, TreeOf(s, op.name), map[]))
    && (op.Save? && op.name in m.writes ==>
          forall other :: other in m.writes && other != op.name && other in s.trees ==>
            CopiesAgree(Shown(m, op.name), s.trees[other], m.writes[other]))
  }

  ghost predicate CarefulRun(base: Files, ops: seq<Op>) {
    ops == []
    || (&& CarefulRun(base, ops[..|ops| - 1])
        && Careful(Run(State(base, map[], map[]), ops[..|ops| - 1]), RunSimple(base, ops[..|ops| - 1]), ops[|ops| - 1]))
  }

  /** Giving one fixture a new tree and new writes leaves the others as they are. */
  lemma UpdateOne(s: State, m: Simple, name: Name, tree: Files, modified: set<Path>, writes: Files)
    requires Refines(s, m) && Overlays(m.base, tree, modified, writes)
    ensures Refines(State(s.base, s.trees[name := tree], s.fixtures[name := modified]),
                    m.(writes := m.writes[name := writes]))
  {
    var t, n := State(s.base, s.trees[name := tree], s.fixtures[name := modified]), m.(writes := m.writes[name := writes]);
    forall other | other in n.writes ensures Overlays(n.base, t.trees[other], t.fixtures[other], n.writes[other]) {
      assert other != name ==> Overlays(m.base, s.trees[other], s.fixtures[other], m.writes[other]);
    }
  }

  lemma PutRefines(s: State, m: Simple, op: Op)
    requires Refines(s, m) && op.Put? && op.name in m.writes
    ensures Refines(Apply(s, op), ApplySimple(m, op))
  {
    var tree, modified, writes := s.trees[op.name], s.fixtures[op.name], m.writes[op.name];
    assert Overlays(m.base, tree, modified, writes);
    UpdateOne(s, m, op.name, tree[op.path := op.content], modified + {op.path}, writes[op.path := op.content]);
  }

  lemma ResetRefines(s: State, m: Simple, op: Op)
    requires Refines(s, m) && op.Reset? && op.name in m.writes
    ensures Refines(Apply(s, op), ApplySimple(m, op))
  {
    var tree, modified, writes := s.trees[op.name], s.fixtures[op.name], m.writes[op.name];
    assert Overlays(m.base, tree, modified, writes);
    if op.path in m.base {
      UpdateOne(s, m, op.name, tree[op.path := m.base[op.path]], modified, writes - {op.path});
      assert s.fixtures[op.name := modified] == s.fixtures;
    }
  }

  lemma RemoveRefines(s: State, m: Simple, op: Op)
    requires Refines(s, m) && op.Remove? && op.name in m.writes
    ensures Refines(Apply(s, op), ApplySimple(m, op))
  {
    var tree, modified, writes := s.trees[op.name], s.fixtures[op.name], m.writes[op.name];
    assert Overlays(m.base, tree, modified, writes);
    UpdateOne(s, m, op.name, tree - {op.path}, modified + {op.path}, writes - {op.path});
  }

  /**
   * Creating a fixture, under a free name or one that is taken: it starts without writes if and only if what
   * is in its directory are copies of files of the base.
   */
  lemma CreateRefinesExactlyWhen(s: State, m: Simple, name: Name)
    requires Refines(s, m)
    ensures Refines(Create(s, name), m.(writes := m.writes[name := map[]]))
            <==> CopiesAgree(m.base, TreeOf(s, name), map[])
  {
    var t, n := Create(s, name), m.(writes := m.writes[name := map[]]);
    assert t.trees == s.trees[name := TreeOf(s, name)];
    if CopiesAgree(m.base, TreeOf(s, name), map[]) {
      UpdateOne(s, m, name, TreeOf(s, name), {}, map[]);
    } else {
      assert !Overlays(n.base, t.trees[name], t.fixtures[name], n.writes[name]);
    }
  }

  lemma SaveRefines(s: State, m: Simple, op: Op)
    requires Refines(s, m) && op.Save? && op.name in m.writes && Careful(s, m, op)
    ensures Refines(Apply(s, op), ApplySimple(m, op))
  {
    var t, n := Apply(s, op), ApplySimple(m, op);
    assert Overlays(m.base, s.trees[op.name], s.fixtures[op.name], m.writes[op.name]);
    OverlayShows(m.base, s.trees[op.name], s.fixtures[op.name], m.writes[op.name]);
    CommitExactlyWhen(s, op.name);
    forall other | other in n.writes ensures Overlays(n.base, t.trees[other], t.fixtures[other], n.writes[other]) {
      assert Overlays(m.base, s.trees[other], s.fixtures[other], m.writes[other]);
    }
  }

  lemma DropRefines(s: State, m: Simple, op: Op)
    requires Refines(s, m) && op.Drop? && op.name in m.writes
    ensures Refines(Apply(s, op), ApplySimple(m, op))
  {
    var t, n := Apply(s, op), ApplySimple(m, op);
    forall other | other in n.writes ensures Overlays(n.base, t.trees[other], t.fixtures[other], n.writes[other]) {
      assert Overlays(m.base, s.trees[other], s.fixtures[other], m.writes[other]);
    }
  }

  lemma ApplyRefines(s: State, m: Simple, op: Op)
    requires Refines(s, m) && Careful(s, m, op)
    ensures Refines(Apply(s, op), ApplySimple(m, op))
  {
    if op.New? {
      CreateRefinesExactlyWhen(s, m, op.name);
    } else if op.name in m.writes {
      match op
      case Put(_, _, _) => PutRefines(s, m, op);
      case Reset(_, _) => ResetRefines(s, m, op);
      case Remove(_, _) => RemoveRefines(s, m, op);
      case Save(_) => SaveRefines(s, m, op);
      case Drop(_) => DropRefines(s, m, op);
    } else {
      assert op.name !in s.fixtures.Keys;
    }
  }

  /**
   * Refinement: for any calls on any number of fixtures, commits and rollbacks among them, each fixture
   * shows its own writes over the base, if a name is taken only when its directory has nothing but copies of
   * files of the base, and no commit changes a file that another fixture holds a copy of.
   */
  lemma {:induction false} RunRefines(base: Files, ops: seq<Op>)
    requires CarefulRun(base, ops)
    ensures Refines(Run(State(base, map[], map[]), ops), RunSimple(base, ops))
  {
    if ops != [] {
      var before, last := ops[..|ops| - 1], ops[|ops| - 1];
      RunRefines(base, before);
      ApplyRefines(Run(State(base, map[], map[]), before), RunSimple(base, before), last);
    }
  }

  /** Only a commit touches the base. */
  lemma {:induction false} OnlyCommitsTouchTheBase(base: Files, ops: seq<Op>)
    requires forall op :: op in ops ==> !op.Save?
    ensures Run(State(base, map[], map[]), ops).base == base
  {
    if ops != [] {
      OnlyCommitsTouchTheBase(base, ops[..|ops| - 1]);
    }
  }

  /**
   * Reading agrees with what the fixture should show, committing makes the base equal to it, and rolling
   * back leaves the base alone. Nothing, deleting included, takes a file of the base away.
   */
  lemma OverlayIsAMap(base: Files, ops: seq<Op>, name: Name, path: Path)
    requires CarefulRun(base, ops) && name in RunSimple(base, ops).writes
    ensures var s := Run(State(base, map[], map[]), ops);
            var shown := Shown(RunSimple(base, ops), name);
            && name in s.fixtures
            && Lookup(s, name, path) == (if path in shown then Some(shown[path]) else None)
            && Commit(s, name).base == shown && s.base.Keys <= shown.Keys
            && Rollback(s, name).base == s.base
  {
    var s, m := Run(State(base, map[], map[]), ops), RunSimple(base, ops);
    RunRefines(base, ops);
    assert Overlays(m.base, s.trees[name], s.fixtures[name], m.writes[name]);
    OverlayShows(m.base, s.trees[name], s.fixtures[name], m.writes[name]);
    LookupIsView(s, name, path);
    CommitExactlyWhen(s, name);
  }

  /** An operation that can bring a path back into a fixture, or ends or restarts the fixture. */
  predicate Restores(op: Op, name: Name, path: Path) {
    op.name == name && !op.Remove? && ((op.Put? || op.Reset?) ==> op.path == path)
  }

  /**
   * What is deleted in a fixture is absent, whatever else is done, exactly as long as the base has no such
   * file; and the base has it after a commit exactly when it had it before.
   */
  lemma {:induction false} DeletedIsAbsentExactlyWhen(s: State, ops: seq<Op>, name: Name, path: Path)
    requires name in s.fixtures && forall op :: op in ops ==> !Restores(op, name, path)
    ensures var t := Run(Delete(s, name, path), ops);
            && name in t.fixtures && path !in TreeOf(t, name)
            && (Lookup(t, name, path).None? <==> path !in t.base)
            && (path in Commit(t, name).base <==> path in t.base)
  {
    if ops != [] {
      DeletedIsAbsentExactlyWhen(s, ops[..|ops| - 1], name, path);
      assert !Restores(ops[|ops| - 1], name, path);
    }
  }

  /**
   * A name that is used again inherits the old tree without its list of modified files: a commit
   * then loses what reading shows.
   */
  lemma ReusedNameLosesWrites(name: Name, path: Path, content: string)
    ensures var s := Run(State(map[], map[], map[]), [New(name), Put(name, path, content), New(name)]);
            && name in s.fixtures
            && Lookup(s, name, path) == Some(content)
            && path !in Commit(s, name).base
  {
    var ops := [New(name), Put(name, path, content), New(name)];
    assert ops[..2] == [New(name), Put(name, path, content)] && ops[..2][..1] == [New(name)] && ops[..2][..1][..0] == [];
    var s0: State := State(map[], map[], map[]);
    assert Run(s0, []) == s0;
    assert Run(s0, ops[..2][..1]) == Create(s0, name);
    assert Run(s0, ops[..2]) == Write(Create(s0, name), name, path, content);
    assert Run(s0, ops) == Create(Write(Create(s0, name), name, path, content), name);
  }
}
