/**
 * `RootNode.Locate`, which rs/call.go relies on: the chain of nodes from a
 * mount root down to the node an absolute path names, one node per path
 * segment, each the first child of the one before with the segment's name.
 */
module Locator {
  import opened Wrappers
  import opened Lists
  import opened Graphs
  import opened Nodes
  import opened Errors
  import Paths
  import Walkers

  /** `y` is the first child of `up` named `name`. */
  ghost predicate FirstNamed(links: seq<Link>, kids: seq<seq<nat>>, up: nat, name: string, y: nat)
  {
    up < |kids| && exists i | 0 <= i < |kids[up]| ::
      kids[up][i] == y && y < |links| && links[y].name == name
      && forall j | 0 <= j < i :: kids[up][j] < |links| && links[kids[up][j]].name != name
  }

  /** No child of `up` is named `name`. */
  ghost predicate NoneNamed(links: seq<Link>, kids: seq<seq<nat>>, up: nat, name: string)
  {
    up < |kids| && forall j | 0 <= j < |kids[up]| :: kids[up][j] < |links| && links[kids[up][j]].name != name
  }

  /** The node above position `k` of a chain hanging below `x`. */
  function Up(x: nat, c: seq<nat>, k: nat): nat
    requires k <= |c|
  {
    if k == 0 then x else c[k - 1]
  }

  /** `c` follows `segs` down from `x`, taking the first child of each name. */
  ghost predicate Follows(links: seq<Link>, kids: seq<seq<nat>>, x: nat, segs: seq<string>, c: seq<nat>)
  {
    |c| == |segs| && forall k | 0 <= k < |c| :: FirstNamed(links, kids, Up(x, c, k), segs[k], c[k])
  }

  /** The chain below `x` for `segs`, following the first child of each name; none when a name is missing. */
  ghost function Descend(links: seq<Link>, kids: seq<seq<nat>>, x: nat, segs: seq<string>): Option<seq<nat>>
    requires WellLinked(links, kids) && x < |links|
    decreases |segs|
  {
    if segs == [] then Some([])
    else
      ChainFacts(links, kids, x);
      var i := FirstIndex(NamesOf(links, kids[x]), segs[0]);
      if i == |kids[x]| then None
      else Prefixed([kids[x][i]], Descend(links, kids, kids[x][i], segs[1..]))
  }

  function Prefixed(p: seq<nat>, o: Option<seq<nat>>): Option<seq<nat>>
  {
    match o
    case None => None
    case Some(c) => Some(p + c)
  }

  /** The part of `abspath` below the mount root's name. */
  predicate UnderRoot(root: string, abspath: string)
  {
    |root| <= |abspath| && abspath[..|root|] == root
  }

  /**
   * `Locate`: the root followed by the chain for the segments of the path
   * below the root's name; a not-found error when the path is not under
   * the root or a segment has no matching child.
   */
  ghost function Located(links: seq<Link>, kids: seq<seq<nat>>, root: nat, abspath: string): Result<seq<nat>, Error>
    requires WellLinked(links, kids) && root < |links|
  {
    var name := links[root].name;
    if !UnderRoot(name, abspath) then Err(NotFound(abspath))
    else
      match Descend(links, kids, root, Paths.Segments(abspath[|name|..]))
      case None => Err(NotFound(abspath))
      case Some(c) => Ok([root] + c)
  }

  /** A chain `Descend` finds follows the segments by first matches. */
  lemma {:induction false} DescendFollows(links: seq<Link>, kids: seq<seq<nat>>, x: nat, segs: seq<string>)
    requires WellLinked(links, kids) && x < |links|
    ensures var r := Descend(links, kids, x, segs);
      r.Some? ==> Follows(links, kids, x, segs, r.value)
    decreases |segs|
  {
    if segs != [] {
      ChainFacts(links, kids, x);
      var i := FirstIndex(NamesOf(links, kids[x]), segs[0]);
      if i < |kids[x]| {
        var y := kids[x][i];
        assert FirstNamed(links, kids, x, segs[0], y);
        DescendFollows(links, kids, y, segs[1..]);
        var r := Descend(links, kids, y, segs[1..]);
        if r.Some? {
          FollowsCons(links, kids, x, y, segs, r.value);
        }
      }
    }
  }

  /** When `Descend` finds nothing, a prefix of the segments is followed to a node with no child of the next name. */
  lemma {:induction false} DescendMisses(links: seq<Link>, kids: seq<seq<nat>>, x: nat, segs: seq<string>)
    requires WellLinked(links, kids) && x < |links|
    ensures Descend(links, kids, x, segs).None? ==>
      exists k, c | 0 <= k < |segs| && |c| == k ::
        Follows(links, kids, x, segs[..k], c) && NoneNamed(links, kids, Up(x, c, k), segs[k])
    decreases |segs|
  {
    if segs != [] {
      ChainFacts(links, kids, x);
      var i := FirstIndex(NamesOf(links, kids[x]), segs[0]);
      if i == |kids[x]| {
        assert Follows(links, kids, x, segs[..0], []);
        assert NoneNamed(links, kids, Up(x, [], 0), segs[0]);
      } else {
        var y := kids[x][i];
        DescendMisses(links, kids, y, segs[1..]);
        if Descend(links, kids, y, segs[1..]).None? {
          MissCons(links, kids, x, y, segs);
        }
      }
    }
  }

  lemma MissCons(links: seq<Link>, kids: seq<seq<nat>>, x: nat, y: nat, segs: seq<string>)
    requires |segs| > 0 && FirstNamed(links, kids, x, segs[0], y)
    requires exists k, c | 0 <= k < |segs[1..]| && |c| == k ::
      Follows(links, kids, y, segs[1..][..k], c) && NoneNamed(links, kids, Up(y, c, k), segs[1..][k])
    ensures exists k, c | 0 <= k < |segs| && |c| == k ::
      Follows(links, kids, x, segs[..k], c) && NoneNamed(links, kids, Up(x, c, k), segs[k])
  {
    var k, c :| 0 <= k < |segs[1..]| && |c| == k && Follows(links, kids, y, segs[1..][..k], c)
                && NoneNamed(links, kids, Up(y, c, k), segs[1..][k]);
    MissAt(links, kids, x, y, segs, k, c);
  }

  /** `MissCons` for the miss at position `k` below `y`: it is the miss at `k + 1` below `x`. */
  lemma MissAt(links: seq<Link>, kids: seq<seq<nat>>, x: nat, y: nat, segs: seq<string>, k: nat, c: seq<nat>)
    requires |segs| > 0 && FirstNamed(links, kids, x, segs[0], y)
    requires k < |segs| - 1 && |c| == k && Follows(links, kids, y, segs[1..][..k], c)
    requires NoneNamed(links, kids, Up(y, c, k), segs[1..][k])
    ensures Follows(links, kids, x, segs[..k + 1], [y] + c) && NoneNamed(links, kids, Up(x, [y] + c, k + 1), segs[k + 1])
  {
    assert segs[1..][..k] == segs[..k + 1][1..];
    FollowsCons(links, kids, x, y, segs[..k + 1], c);
    var d := [y] + c;
    if k == 0 {
      assert d[0] == y;
    } else {
      assert d[k] == c[k - 1];
    }
    assert segs[k + 1] == segs[1..][k];
  }

  lemma FollowsCons(links: seq<Link>, kids: seq<seq<nat>>, x: nat, y: nat, segs: seq<string>, c: seq<nat>)
    requires |segs| > 0 && FirstNamed(links, kids, x, segs[0], y) && Follows(links, kids, y, segs[1..], c)
    ensures Follows(links, kids, x, segs, [y] + c)
  {
    var d := [y] + c;
    forall k | 0 <= k < |d| ensures FirstNamed(links, kids, Up(x, d, k), segs[k], d[k]) {
      if k > 0 {
        assert Up(x, d, k) == Up(y, c, k - 1) && d[k] == c[k - 1] && segs[k] == segs[1..][k - 1];
      }
    }
  }

  /** Node `k` of chain `c` is the first child of node `k - 1` that has its name. */
  ghost predicate Picked(links: seq<Link>, kids: seq<seq<nat>>, c: seq<nat>, k: nat)
    requires 0 < k < |c|
  {
    c[k] < |links| && FirstNamed(links, kids, c[k - 1], links[c[k]].name, c[k])
  }

  /** The first child of a name is a child, linked back to its parent. */
  lemma FirstNamedChild(links: seq<Link>, kids: seq<seq<nat>>, up: nat, name: string, y: nat)
    requires WellLinked(links, kids) && FirstNamed(links, kids, up, name, y)
    ensures y < |links| && links[y].parent == Some(up) && up < |kids| && y in kids[up] && links[y].name == name
  {
    var i :| 0 <= i < |kids[up]| && kids[up][i] == y;
    MemberAfterParent(links, kids, up, i);
  }

  /** One segment down from `x`: its first child of that name. */
  lemma DescendOne(links: seq<Link>, kids: seq<seq<nat>>, x: nat, name: string, y: nat)
    requires WellLinked(links, kids) && x < |links| && FirstNamed(links, kids, x, name, y)
    ensures Descend(links, kids, x, [name]) == Some([y])
  {
    ChainFacts(links, kids, x);
    var i :| 0 <= i < |kids[x]| && kids[x][i] == y && y < |links| && links[y].name == name
      && forall j | 0 <= j < i :: kids[x][j] < |links| && links[kids[x][j]].name != name;
    var names := NamesOf(links, kids[x]);
    assert names[i] == name;
    assert [name][1..] == [];
    assert Descend(links, kids, y, []) == Some([]);
    assert Descend(links, kids, x, [name]) == Prefixed([y], Some([]));
    assert [y] + [] == [y];
  }

  /** Below a root named "/", the directory path "/name/" locates the root and its first child named `name`. */
  lemma LocateFirstChild(links: seq<Link>, kids: seq<seq<nat>>, root: nat, name: string, y: nat)
    requires WellLinked(links, kids) && root < |links| && links[root].name == "/"
    requires name != "" && '/' !in name && FirstNamed(links, kids, root, name, y)
    ensures Located(links, kids, root, "/" + name + "/") == Ok([root, y])
  {
    var abspath := "/" + name + "/";
    Paths.SegmentsBelowRoot(name);
    assert UnderRoot(links[root].name, abspath);
    DescendOne(links, kids, root, name, y);
    assert Descend(links, kids, root, Paths.Segments(abspath[|links[root].name|..])) == Some([y]);
    assert [root] + [y] == [root, y];
  }

  /** Below a root named "/", the path "/name" locates the root and its first child named `name`. */
  lemma LocateChild(links: seq<Link>, kids: seq<seq<nat>>, root: nat, name: string, y: nat)
    requires WellLinked(links, kids) && root < |links| && links[root].name == "/"
    requires name != "" && '/' !in name && FirstNamed(links, kids, root, name, y)
    ensures Located(links, kids, root, "/" + name) == Ok([root, y])
  {
    var abspath := "/" + name;
    assert UnderRoot(links[root].name, abspath) && abspath[|links[root].name|..] == name by {
      assert abspath[..1] == "/" && abspath[1..] == name;
    }
    Paths.SegmentsOfName(name);
    DescendOne(links, kids, root, name, y);
    assert [root] + [y] == [root, y];
  }

  /** Two segments down from `x`: its first child named `a`, then that one's first child named `b`. */
  lemma DescendTwo(links: seq<Link>, kids: seq<seq<nat>>, x: nat, a: string, b: string, y: nat, z: nat)
    requires WellLinked(links, kids) && x < |links|
    requires FirstNamed(links, kids, x, a, y) && FirstNamed(links, kids, y, b, z)
    ensures Descend(links, kids, x, [a, b]) == Some([y, z])
  {
    FirstNamedChild(links, kids, x, a, y);
    DescendOne(links, kids, y, b, z);
    ChainFacts(links, kids, x);
    var i :| 0 <= i < |kids[x]| && kids[x][i] == y && y < |links| && links[y].name == a
      && forall j | 0 <= j < i :: kids[x][j] < |links| && links[kids[x][j]].name != a;
    FirstIndexIs(NamesOf(links, kids[x]), a, i);
    assert [a, b][0] == a && [a, b][1..] == [b];
    assert [y] + [z] == [y, z];
  }

  /** Below a root named "/", the path "/a/b" locates the root, its first child `y` named `a` and that one's first child named `b`. */
  lemma LocateGrandchild(links: seq<Link>, kids: seq<seq<nat>>, root: nat, a: string, b: string, y: nat, z: nat)
    requires WellLinked(links, kids) && root < |links| && links[root].name == "/"
    requires a != "" && '/' !in a && b != "" && '/' !in b
    requires FirstNamed(links, kids, root, a, y) && FirstNamed(links, kids, y, b, z)
    ensures Located(links, kids, root, "/" + a + "/" + b) == Ok([root, y, z])
  {
    var abspath := "/" + a + "/" + b;
    assert UnderRoot(links[root].name, abspath) && abspath[|links[root].name|..] == a + "/" + b by {
      assert abspath[..1] == "/" && abspath[1..] == a + "/" + b;
    }
    Paths.SegmentsOfTwo(a, b);
    DescendTwo(links, kids, root, a, b, y, z);
    assert [root] + [y, z] == [root, y, z];
  }

  /** Below a root named "/", the path "/name" is not found when the root has no child of that name. */
  lemma LocateMissing(links: seq<Link>, kids: seq<seq<nat>>, root: nat, name: string)
    requires WellLinked(links, kids) && root < |links| && links[root].name == "/"
    requires name != "" && '/' !in name && NoneNamed(links, kids, root, name)
    ensures Located(links, kids, root, "/" + name) == Err(NotFound("/" + name))
  {
    var abspath := "/" + name;
    assert UnderRoot(links[root].name, abspath) && abspath[|links[root].name|..] == name by {
      assert abspath[..1] == "/" && abspath[1..] == name;
    }
    Paths.SegmentsOfName(name);
    ChainFacts(links, kids, root);
    FirstIndexAbsent(NamesOf(links, kids[root]), name);
    assert Descend(links, kids, root, [name]) == None;
  }

  /** A located chain is the root followed by a chain that follows the path's segments below the root's name. */
  lemma LocatedFollows(links: seq<Link>, kids: seq<seq<nat>>, root: nat, abspath: string)
    requires WellLinked(links, kids) && root < |links|
    ensures var r := Located(links, kids, root, abspath);
      r.Ok? ==> (UnderRoot(links[root].name, abspath)
                 && var segs := Paths.Segments(abspath[|links[root].name|..]);
                 |r.value| == |segs| + 1 && r.value[0] == root && Follows(links, kids, root, segs, r.value[1..]))
  {
    var name := links[root].name;
    if UnderRoot(name, abspath) {
      var segs := Paths.Segments(abspath[|name|..]);
      DescendFollows(links, kids, root, segs);
      var d := Descend(links, kids, root, segs);
      if d.Some? {
        assert ([root] + d.value)[1..] == d.value;
      }
    }
  }

  /** Position `k` of a chain `[root] + d` that follows `segs`: the first child of position `k - 1` named `segs[k - 1]`. */
  lemma FollowedAt(links: seq<Link>, kids: seq<seq<nat>>, root: nat, segs: seq<string>, c: seq<nat>, k: nat)
    requires WellLinked(links, kids) && |c| == |segs| + 1 && c[0] == root && Follows(links, kids, root, segs, c[1..])
    requires 0 < k < |c|
    ensures c[k] < |links| && links[c[k]].parent == Some(c[k - 1]) && links[c[k]].name == segs[k - 1]
    ensures Picked(links, kids, c, k)
  {
    var d := c[1..];
    assert FirstNamed(links, kids, Up(root, d, k - 1), segs[k - 1], d[k - 1]);
    assert Up(root, d, k - 1) == c[k - 1] && c[k] == d[k - 1];
    FirstNamedChild(links, kids, c[k - 1], segs[k - 1], c[k]);
  }

  /** Each node of a located chain after the root is a child of the node before it. */
  lemma LocatedParents(links: seq<Link>, kids: seq<seq<nat>>, root: nat, abspath: string)
    requires WellLinked(links, kids) && root < |links|
    ensures var r := Located(links, kids, root, abspath);
      r.Ok? ==> (|r.value| > 0 && r.value[0] == root
        && forall k | 0 < k < |r.value| :: r.value[k] < |links| && links[r.value[k]].parent == Some(r.value[k - 1]))
  {
    LocatedFollows(links, kids, root, abspath);
    var r := Located(links, kids, root, abspath);
    if r.Ok? {
      var segs := Paths.Segments(abspath[|links[root].name|..]);
      forall k | 0 < k < |r.value| ensures r.value[k] < |links| && links[r.value[k]].parent == Some(r.value[k - 1]) {
        FollowedAt(links, kids, root, segs, r.value, k);
      }
    }
  }

  /** Each node of a located chain after the root is the first child of the node before it with its name. */
  lemma LocatedPicked(links: seq<Link>, kids: seq<seq<nat>>, root: nat, abspath: string)
    requires WellLinked(links, kids) && root < |links|
    ensures var r := Located(links, kids, root, abspath);
      r.Ok? ==> forall k | 0 < k < |r.value| :: Picked(links, kids, r.value, k)
  {
    LocatedFollows(links, kids, root, abspath);
    var r := Located(links, kids, root, abspath);
    if r.Ok? {
      var segs := Paths.Segments(abspath[|links[root].name|..]);
      forall k | 0 < k < |r.value| ensures Picked(links, kids, r.value, k) {
        FollowedAt(links, kids, root, segs, r.value, k);
      }
    }
  }

  /** The node a path locates below a parentless root is one a walk can start from. */
  lemma LocatedLive(links: seq<Link>, kids: seq<seq<nat>>, root: nat, abspath: string)
    requires WellLinked(links, kids) && root < |links| && links[root].parent == None
    ensures var r := Located(links, kids, root, abspath);
      r.Ok? ==> |r.value| > 0 && Walkers.Live(links, kids, r.value[|r.value| - 1])
  {
    LocatedParents(links, kids, root, abspath);
    LocatedPicked(links, kids, root, abspath);
    var r := Located(links, kids, root, abspath);
    if r.Ok? && |r.value| > 1 {
      var k := |r.value| - 1;
      assert Picked(links, kids, r.value, k);
      FirstNamedChild(links, kids, r.value[k - 1], links[r.value[k]].name, r.value[k]);
    }
  }

  /** The located chain names the path: one node past the root per segment, each carrying that segment's name. */
  lemma LocatedNames(links: seq<Link>, kids: seq<seq<nat>>, root: nat, abspath: string)
    requires WellLinked(links, kids) && root < |links|
    ensures var r := Located(links, kids, root, abspath);
      (r.Err? ==> r.error == NotFound(abspath))
      && (r.Ok? ==> (UnderRoot(links[root].name, abspath)
            && var segs := Paths.Segments(abspath[|links[root].name|..]);
            |r.value| == |segs| + 1
            && forall k | 0 <= k < |segs| :: r.value[k + 1] < |links| && links[r.value[k + 1]].name == segs[k]))
  {
    LocatedFollows(links, kids, root, abspath);
    var r := Located(links, kids, root, abspath);
    if r.Ok? {
      var segs := Paths.Segments(abspath[|links[root].name|..]);
      forall k | 0 <= k < |segs| ensures r.value[k + 1] < |links| && links[r.value[k + 1]].name == segs[k] {
        FollowedAt(links, kids, root, segs, r.value, k + 1);
      }
    }
  }

  /** The first child of `p` named `name`, found by following sibling pointers; nil when there is none. */
  method Child(g: Tree, p: nat, name: string) returns (c: Ref)
    requires g.Valid() && p < |g.links|
    ensures var i := FirstIndex(g.ChildNames(p), name);
      c == if i < |g.kids[p]| then Some(g.kids[p][i]) else None
  {
    Walkers.KidsChainOk(g.links, g.kids, p);
    assert NodeOk(g.links, g.kids, p);
    ghost var names := g.ChildNames(p);
    ghost var j := 0;
    c := g.links[p].child;
    while c != None && g.links[c.value].name != name
      invariant j <= |g.kids[p]| && c == (if j < |g.kids[p]| then Some(g.kids[p][j]) else None)
      invariant forall k | 0 <= k < j :: names[k] != name
      decreases |g.kids[p]| - j
    {
      c := g.links[c.value].sibling;
      j := j + 1;
    }
    if c == None {
      FirstIndexAbsent(names, name);
    } else {
      FirstIndexIs(names, name, j);
    }
  }

  lemma PrefixedNothing(o: Option<seq<nat>>)
    ensures Prefixed([], o) == o
  {
    if o.Some? {
      assert [] + o.value == o.value;
    }
  }

  /** One segment further down: the first child of that name joins the prefix, or the search fails. */
  lemma DescendStep(links: seq<Link>, kids: seq<seq<nat>>, x: nat, segs: seq<string>, i: nat, p: seq<nat>)
    requires WellLinked(links, kids) && x < |links| && i < |segs|
    ensures forall k | 0 <= k < |kids[x]| :: kids[x][k] < |links|
    ensures var k := FirstIndex(NamesOf(links, kids[x]), segs[i]);
      Prefixed(p, Descend(links, kids, x, segs[i..])) ==
        if k == |kids[x]| then None else Prefixed(p + [kids[x][k]], Descend(links, kids, kids[x][k], segs[i + 1..]))
  {
    ChainFacts(links, kids, x);
    assert segs[i..][0] == segs[i] && segs[i..][1..] == segs[i + 1..];
    var k := FirstIndex(NamesOf(links, kids[x]), segs[i]);
    if k < |kids[x]| {
      var d := Descend(links, kids, kids[x][k], segs[i + 1..]);
      if d.Some? {
        assert p + ([kids[x][k]] + d.value) == (p + [kids[x][k]]) + d.value;
      }
    }
  }

  /** `Locate`, walking down segment by segment. */
  method Locate(g: Tree, root: nat, abspath: string) returns (r: Result<seq<nat>, Error>)
    requires g.Valid() && root < |g.links|
    ensures r == Located(g.links, g.kids, root, abspath)
  {
    var name := g.links[root].name;
    if !(|name| <= |abspath| && abspath[..|name|] == name) {
      return Err(NotFound(abspath));
    }
    var segs := Paths.Segments(abspath[|name|..]);
    var nodes := DescendFrom(g, root, segs);
    if nodes == None {
      return Err(NotFound(abspath));
    }
    r := Ok(nodes.value);
  }

  /** `Locate`'s loop: from the root, one child per segment, each the first of that name; none when one is missing. */
  method DescendFrom(g: Tree, root: nat, segs: seq<string>) returns (r: Option<seq<nat>>)
    requires g.Valid() && root < |g.links|
    ensures r == Prefixed([root], Descend(g.links, g.kids, root, segs))
  {
    var cur: nat := root;
    var nodes: seq<nat> := [root];
    var i := 0;
    assert segs[0..] == segs;
    while i < |segs|
      invariant 0 <= i <= |segs| && cur < |g.links|
      invariant Prefixed([root], Descend(g.links, g.kids, root, segs)) == Prefixed(nodes, Descend(g.links, g.kids, cur, segs[i..]))
    {
      var c := Step(g, cur, segs, i, nodes);
      if c == None {
        return None;
      }
      nodes := nodes + [c.value];
      cur := c.value;
      i := i + 1;
    }
    assert segs[i..] == [] && nodes + [] == nodes;
    r := Some(nodes);
  }

  /** One round of `Locate`'s loop: the child named by segment `i`, which joins the chain found so far, or none. */
  method Step(g: Tree, cur: nat, segs: seq<string>, i: nat, ghost found: seq<nat>) returns (c: Ref)
    requires g.Valid() && cur < |g.links| && i < |segs|
    ensures c.Some? ==> c.value < |g.links|
    ensures Prefixed(found, Descend(g.links, g.kids, cur, segs[i..]))
      == if c.None? then None else Prefixed(found + [c.value], Descend(g.links, g.kids, c.value, segs[i + 1..]))
  {
    c := Child(g, cur, segs[i]);
    ChildIndices(g, cur);
    DescendStep(g.links, g.kids, cur, segs, i, found);
  }
}
