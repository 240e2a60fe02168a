/**
 * Load-order cycle detection over plugin metadata
 * (apps/run-supervisor/src/plugin-metadata.ts).
 *
 * A depth-first search with three colours (unmarked, visiting, done) and an
 * explicit stack of the nodes being visited. The search is exact: it reports
 * no cycle precisely when the known plugins can be put in a load order.
 */
module LoadOrder {
  import opened Wrappers

  datatype Plugin = Plugin(depend: seq<string>, softDepend: seq<string>)

  /** An insertion-ordered map from plugin name to plugin. */
  datatype PluginMap = PluginMap(order: seq<string>, nodes: map<string, Plugin>) {
    ghost predicate Valid() {
      && (forall name :: name in order <==> name in nodes)
      && Distinct(order)
    }

    function Dependencies(name: string): seq<string>
      requires name in nodes
    {
      nodes[name].depend + nodes[name].softDepend
    }
  }

  ghost predicate Distinct(s: seq<string>) {
    forall i, j :: 0 <= i < j < |s| ==> s[i] != s[j]
  }

  /** `from` names `to` as a hard or a soft dependency, and both are known plugins. */
  ghost predicate Edge(plugins: PluginMap, from: string, to: string) {
    && from in plugins.nodes && to in plugins.nodes
    && (to in plugins.nodes[from].depend || to in plugins.nodes[from].softDepend)
  }

  lemma NamesAnEdge(plugins: PluginMap, from: string, dependencies: seq<string>, i: nat)
    requires from in plugins.nodes && dependencies == plugins.Dependencies(from)
    requires i < |dependencies| && dependencies[i] in plugins.nodes
    ensures Edge(plugins, from, dependencies[i])
  {
    assert dependencies[i] in dependencies;
  }

  ghost predicate Walk(plugins: PluginMap, path: seq<string>) {
    forall i :: 0 <= i < |path| - 1 ==> Edge(plugins, path[i], path[i + 1])
  }

  /** A walk of at least one edge that comes back to where it started. */
  ghost predicate Closed(plugins: PluginMap, path: seq<string>) {
    |path| >= 2 && path[0] == path[|path| - 1] && Walk(plugins, path)
  }

  ghost predicate Acyclic(plugins: PluginMap) {
    forall path :: !Closed(plugins, path)
  }

  /** Every plugin exactly once, each after everything it depends on. */
  ghost predicate IsLoadOrder(plugins: PluginMap, order: seq<string>) {
    && (forall name :: name in order <==> name in plugins.nodes)
    && Topological(plugins, order)
  }

  /** No repetition, and every dependency of a listed node is listed before it. */
  ghost predicate Topological(plugins: PluginMap, order: seq<string>) {
    && Distinct(order)
    && (forall i, to :: 0 <= i < |order| && Edge(plugins, order[i], to) ==> to in order[..i])
  }

  lemma Extends(before: seq<string>, after: seq<string>)
    requires before <= after
    ensures forall name :: name in before ==> name in after
  {
    forall name | name in before ensures name in after {
      var i :| 0 <= i < |before| && before[i] == name;
      assert after[i] == name;
    }
  }

  /** The known plugins among the first names are listed. */
  ghost predicate ListedUpTo(plugins: PluginMap, names: seq<string>, i: nat, listed: seq<string>)
    requires i <= |names|
  {
    forall k :: 0 <= k < i && names[k] in plugins.nodes ==> names[k] in listed
  }

  lemma ListedNext(plugins: PluginMap, names: seq<string>, i: nat, before: seq<string>, after: seq<string>)
    requires i < |names| && before <= after && ListedUpTo(plugins, names, i, before)
    requires names[i] in plugins.nodes ==> names[i] in after
    ensures ListedUpTo(plugins, names, i + 1, after)
  {
    Extends(before, after);
  }

  /** Along a walk, positions in a load order strictly fall. */
  lemma {:induction false} WalkDescends(plugins: PluginMap, order: seq<string>, path: seq<string>, first: nat, last: nat)
    requires IsLoadOrder(plugins, order)
    requires Walk(plugins, path) && |path| >= 2
    requires first < |order| && last < |order|
    requires order[first] == path[0] && order[last] == path[|path| - 1]
    ensures last < first
  {
    assert Edge(plugins, path[0], path[1]);
    var next :| 0 <= next < first && order[..first][next] == path[1];
    if |path| == 2 {
      assert order[next] == order[last];
    } else {
      var rest := path[1..];
      forall i | 0 <= i < |rest| - 1 ensures Edge(plugins, rest[i], rest[i + 1]) {
        assert Edge(plugins, path[i + 1], path[i + 2]);
      }
      WalkDescends(plugins, order, rest, next, last);
    }
  }

  /** A load order rules out every cycle. */
  lemma LoadOrderImpliesAcyclic(plugins: PluginMap, order: seq<string>)
    requires IsLoadOrder(plugins, order)
    ensures Acyclic(plugins)
  {
    forall path ensures !Closed(plugins, path) {
      if Closed(plugins, path) {
        assert Edge(plugins, path[0], path[1]);
        assert path[0] in order;
        var i :| 0 <= i < |order| && order[i] == path[0];
        WalkDescends(plugins, order, path, i, i);
      }
    }
  }

  // ----- The simple form

  ghost predicate IsPath(plugins: PluginMap, path: seq<string>) {
    Distinct(path) && forall name :: name in path ==> name in plugins.nodes
  }

  /**
   * The search as it would be without marks: from the end of a path it tries all names in order, goes down
   * the hard dependencies of each before its soft ones, and ends when it comes to a name on the path.
   */
  ghost function Search(plugins: PluginMap, path: seq<string>, names: seq<string>): Option<seq<string>>
    requires IsPath(plugins, path)
    decreases plugins.nodes.Keys - set name | name in path, |names|
  {
    if names == [] then None
    else if names[0] !in plugins.nodes then Search(plugins, path, names[1..])
    else if names[0] in path then
      var start :| 0 <= start < |path| && path[start] == names[0];
      Some(path[start..] + [names[0]])
    else
      var node := plugins.nodes[names[0]];
      assert names[0] in plugins.nodes.Keys - set name | name in path;
      match Search(plugins, path + [names[0]], node.depend + node.softDepend)
      case Some(cycle) => Some(cycle)
      case None => Search(plugins, path, names[1..])
  }

  /** The names are searched one after the other. */
  lemma SearchNext(plugins: PluginMap, path: seq<string>, names: seq<string>, i: nat)
    requires IsPath(plugins, path) && i < |names|
    ensures var next := Search(plugins, path, [names[i]]);
            Search(plugins, path, names[i..]) == if next.Some? then next else Search(plugins, path, names[i + 1..])
    ensures names[i] !in plugins.nodes ==> Search(plugins, path, [names[i]]) == None
  {
    assert names[i..][1..] == names[i + 1..];
    assert [names[i]][1..] == [];
  }

  /** A name that is known and not on the path is searched by way of its dependencies. */
  lemma SearchBelow(plugins: PluginMap, path: seq<string>, name: string, dependencies: seq<string>)
    requires IsPath(plugins, path) && IsPath(plugins, path + [name]) && name !in path
    requires dependencies == plugins.Dependencies(name)
    ensures Search(plugins, path, [name]) == Search(plugins, path + [name], dependencies)
  {
    assert [name][1..] == [];
  }

  /** Below what can be put in a load order there is nothing to find. */
  lemma {:induction false} NothingToFind(plugins: PluginMap, order: seq<string>, k: nat, path: seq<string>, names: seq<string>)
    requires IsPath(plugins, path) && Topological(plugins, order) && k <= |order|
    requires forall name :: name in path ==> name !in order[..k]
    requires forall name :: name in names && name in plugins.nodes ==> name in order[..k]
    ensures Search(plugins, path, names) == None
    decreases k, |names|
  {
    if names != [] {
      var first := names[0];
      assert first in names;
      if first in plugins.nodes {
        var j :| 0 <= j < k && order[..k][j] == first;
        var node := plugins.nodes[first];
        forall name | name in node.depend + node.softDepend && name in plugins.nodes ensures name in order[..j] {
          assert Edge(plugins, order[j], name);
        }
        forall name | name in order[..j] ensures name in order[..k] && name != first {
          var i :| 0 <= i < j && order[..j][i] == name;
          assert order[..k][i] == name;
        }
        NothingToFind(plugins, order, j, path + [first], node.depend + node.softDepend);
      }
      NothingToFind(plugins, order, k, path, names[1..]);
    }
  }

  // ----- The search with marks

  datatype Mark = Visiting | Done

  class CycleDetector {
    const plugins: PluginMap
    var state: map<string, Mark>
    var stack: seq<string>
    /** The nodes marked done, in the order in which they were finished. */
    ghost var finished: seq<string>

    constructor (plugins: PluginMap)
      requires plugins.Valid()
      ensures Valid() && this.plugins == plugins && stack == [] && state == map[]
    {
      this.plugins := plugins;
      state, stack, finished := map[], [], [];
    }

    ghost predicate Valid()
      reads this
    {
      && plugins.Valid()
      && state.Keys <= plugins.nodes.Keys
      && (forall name :: name in stack <==> name in state && state[name] == Visiting)
      && (forall name :: name in finished <==> name in state && state[name] == Done)
      && Distinct(stack)
      && Walk(plugins, stack)
      && Topological(plugins, finished)
    }

    lemma StackIsPath()
      requires Valid()
      ensures IsPath(plugins, stack)
    {
    }

    lemma FinishedIsSearched(name: string)
      requires Valid() && name in finished
      ensures IsPath(plugins, stack) && Search(plugins, stack, [name]) == None
    {
      assert finished[..|finished|] == finished;
      NothingToFind(plugins, finished, |finished|, stack, [name]);
    }

    /** The nodes not reached yet: what makes the recursion end. */
    ghost function Unmarked(): set<string>
      reads this
    {
      plugins.nodes.Keys - state.Keys
    }

    method Visit(name: string) returns (cycle: Option<seq<string>>)
      requires Valid() && name in plugins.nodes
      requires stack != [] ==> Edge(plugins, stack[|stack| - 1], name)
      modifies this
      ensures IsPath(plugins, old(stack)) && cycle == Search(plugins, old(stack), [name])
      ensures cycle.Some? ==> Closed(plugins, cycle.value) && Distinct(cycle.value[1..])
      ensures cycle.None? ==> Valid() && stack == old(stack) && name in finished
      ensures cycle.None? ==> old(finished) <= finished
      ensures cycle.None? ==> Unmarked() <= old(Unmarked())
      decreases Unmarked(), 0
    {
      StackIsPath();
      if name in state && state[name] == Done {
        FinishedIsSearched(name);
        return None;
      }
      if name in state && state[name] == Visiting {
        var start := IndexOf(stack, name);
        cycle := Some(stack[start..] + [name]);
        CloseStack(start, name);
        return;
      }

      Enter(name);
      StackIsPath();
      SearchBelow(plugins, old(stack), name, plugins.Dependencies(name));
      cycle := VisitDependencies(name, plugins.Dependencies(name));
      if cycle.None? {
        Finish(name, plugins.Dependencies(name));
      }
    }

    /** The loop of a visit, with the node on top of the stack. */
    method VisitDependencies(name: string, dependencies: seq<string>) returns (cycle: Option<seq<string>>)
      requires Valid() && stack != [] && stack[|stack| - 1] == name && name in plugins.nodes
      requires dependencies == plugins.Dependencies(name)
      modifies this
      ensures IsPath(plugins, old(stack)) && cycle == Search(plugins, old(stack), dependencies)
      ensures cycle.Some? ==> Closed(plugins, cycle.value) && Distinct(cycle.value[1..])
      ensures cycle.None? ==> Valid() && stack == old(stack) && old(finished) <= finished
      ensures cycle.None? ==> Unmarked() <= old(Unmarked())
      ensures cycle.None? ==> ListedUpTo(plugins, dependencies, |dependencies|, finished)
      decreases Unmarked(), 1
    {
      var i := 0;
      StackIsPath();
      ghost var path, all := stack, Search(plugins, stack, dependencies);
      assert dependencies[0..] == dependencies;
      while i < |dependencies|
        invariant 0 <= i <= |dependencies|
        invariant Valid() && stack == path == old(stack)
        invariant all == Search(plugins, path, dependencies[i..])
        invariant old(finished) <= finished && Unmarked() <= old(Unmarked())
        invariant ListedUpTo(plugins, dependencies, i, finished)
      {
        var dependency := dependencies[i];
        SearchNext(plugins, path, dependencies, i);
        ghost var before := finished;
        if dependency in plugins.nodes {
          NamesAnEdge(plugins, name, dependencies, i);
          cycle := Visit(dependency);
          if cycle.Some? {
            return;
          }
        }
        ListedNext(plugins, dependencies, i, before, finished);
        i := i + 1;
      }
      return None;
    }

    /** Marks an unmarked node as being visited and pushes it. */
    method Enter(name: string)
      requires Valid() && name in plugins.nodes && name !in state
      requires stack != [] ==> Edge(plugins, stack[|stack| - 1], name)
      modifies this
      ensures Valid() && stack == old(stack) + [name] && finished == old(finished)
      ensures Unmarked() < old(Unmarked())
    {
      state := state[name := Visiting];
      stack := stack + [name];
      assert name in old(Unmarked()) && name !in Unmarked();
    }

    /** Pops the node on top of the stack and marks it done. */
    method Finish(name: string, ghost dependencies: seq<string>)
      requires Valid() && stack != [] && stack[|stack| - 1] == name
      requires dependencies == plugins.Dependencies(name)
      requires ListedUpTo(plugins, dependencies, |dependencies|, finished)
      modifies this
      ensures Valid() && stack == old(stack)[..|old(stack)| - 1]
      ensures finished == old(finished) + [name] && state == old(state)[name := Done]
    {
      assert state[name] == Visiting;
      stack := stack[..|stack| - 1];
      state := state[name := Done];
      finished := finished + [name];
      forall i, to | 0 <= i < |finished| && Edge(plugins, finished[i], to) ensures to in finished[..i] {
        if i < |old(finished)| {
          assert old(finished)[i] == finished[i];
          assert to in old(finished)[..i];
          assert finished[..i] == old(finished)[..i];
        } else {
          assert finished[..i] == old(finished);
          assert to in dependencies;
          var k :| 0 <= k < |dependencies| && dependencies[k] == to;
        }
      }
      forall n ensures n in stack <==> n in state && state[n] == Visiting {
        assert old(stack) == stack + [name];
      }
    }

    /** The stack from a node that is being visited, closed by that node, is a cycle. */
    lemma CloseStack(start: nat, name: string)
      requires Valid() && start < |stack| && stack[start] == name
      requires Edge(plugins, stack[|stack| - 1], name)
      ensures Closed(plugins, stack[start..] + [name])
      ensures Distinct((stack[start..] + [name])[1..])
    {
      var path := stack[start..] + [name];
      forall i | 0 <= i < |path| - 1 ensures Edge(plugins, path[i], path[i + 1]) {
        if i < |path| - 2 {
          assert Edge(plugins, stack[start + i], stack[start + i + 1]);
        }
      }
      var tail := path[1..];
      forall i, j | 0 <= i < j < |tail| ensures tail[i] != tail[j] {
        assert tail[i] == stack[start + 1 + i];
        if j < |tail| - 1 {
          assert tail[j] == stack[start + 1 + j];
        }
      }
    }
  }

  /** The first position of a value that occurs in a sequence. */
  method IndexOf(s: seq<string>, x: string) returns (index: nat)
    requires x in s
    ensures index < |s| && s[index] == x && x !in s[..index]
  {
    index := 0;
    while s[index] != x
      invariant index < |s| && x !in s[..index]
      decreases |s| - index
    {
      assert x in s[index + 1..] by {
        assert s == s[..index] + [s[index]] + s[index + 1..];
      }
      index := index + 1;
    }
  }

  /**
   * The search is exact: no cycle is reported if and only if the dependencies between
   * known plugins are acyclic, and a reported cycle is a real one that repeats no node
   * but its end point. When none is reported, a load order exists. Among several cycles it reports the
   * one that the search without marks finds first.
   */
  method DetectLoadingCycle(plugins: PluginMap) returns (cycle: Option<seq<string>>)
    requires plugins.Valid()
    ensures cycle.None? <==> Acyclic(plugins)
    ensures cycle.None? <==> exists order :: IsLoadOrder(plugins, order)
    ensures cycle.Some? ==> Closed(plugins, cycle.value) && Distinct(cycle.value[1..])
    ensures cycle == Search(plugins, [], plugins.order)
  {
    var detector := new CycleDetector(plugins);
    var i := 0;
    assert plugins.order[0..] == plugins.order;
    while i < |plugins.order|
      invariant 0 <= i <= |plugins.order|
      invariant Search(plugins, [], plugins.order) == Search(plugins, [], plugins.order[i..])
      invariant detector.Valid() && detector.plugins == plugins && detector.stack == []
      invariant fresh(detector)
      invariant forall k :: 0 <= k < i ==> plugins.order[k] in detector.finished
    {
      ghost var before := detector.finished;
      SearchNext(plugins, [], plugins.order, i);
      cycle := detector.Visit(plugins.order[i]);
      if cycle.Some? {
        forall order | IsLoadOrder(plugins, order) ensures false {
          LoadOrderImpliesAcyclic(plugins, order);
        }
        return;
      }
      forall k | 0 <= k < i ensures plugins.order[k] in detector.finished {
        assert plugins.order[k] in before;
      }
      i := i + 1;
    }
    assert IsLoadOrder(plugins, detector.finished);
    LoadOrderImpliesAcyclic(plugins, detector.finished);
    return None;
  }
}
