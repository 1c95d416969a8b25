/**
 * The older tree of internal/node.go: the same sibling-chain surgery as
 * node.go, but `Add` copies the parent's whole mode, the sort and distinct
 * flags sit at bits 31 and 30, a root is named by its path as given, and
 * the walker can only be stopped. Nodes live in the same arena as node.go's;
 * only a node's mode and source are used, and the parent index the arena
 * keeps is bookkeeping the internal node does not have.
 */
module Internal {
  import opened Wrappers
  import opened Lists
  import opened Lexical
  import opened Graphs
  import Modes
  import opened Nodes
  import opened Walkers
  import Paths

  const ModeSort: Modes.NodeMode := 1 << (32 - 1 - 0)      // sorted by name
  const ModeDistinct: Modes.NodeMode := 1 << (32 - 1 - 1)  // no duplicate children

  predicate IsSorted(m: Modes.NodeMode)
  {
    m & ModeSort == ModeSort
  }

  predicate IsDistinct(m: Modes.NodeMode)
  {
    m & ModeDistinct == ModeDistinct
  }

  /** `newRootNode`: a node named by the path itself, not escaped, carrying exactly `mode`. */
  method NewRootNode(g: Tree, abspath: string, mode: Modes.NodeMode) returns (n: nat)
    requires g.Valid()
    modifies g
    ensures g.Valid() && n == old(|g.links|) && g.Detached(n)
    ensures g.links == old(g.links) + [Link(abspath, None, None, None)]
    ensures g.data == old(g.data) + [Attr(0, 0, mode, Nil)]
    ensures g.kids == old(g.kids) + [[]]
  {
    n := g.NewNode(abspath, Attr(0, 0, mode, Nil));
  }

  /** `NewRoot`: a root with no mode bit set. */
  method NewRoot(g: Tree, abspath: string) returns (n: nat)
    requires g.Valid()
    modifies g
    ensures g.Valid() && n == old(|g.links|) && g.Detached(n)
    ensures g.links == old(g.links) + [Link(abspath, None, None, None)]
    ensures g.data == old(g.data) + [Attr(0, 0, 0, Nil)]
    ensures g.kids == old(g.kids) + [[]]
  {
    n := NewRootNode(g, abspath, 0);
  }

  /** `FirstChild`: the head of the child chain, nil when there is none. */
  function FirstChild(g: Tree, p: nat): (r: Ref)
    reads g
    requires g.Valid() && p < |g.links|
    ensures r == (if g.kids[p] == [] then None else Some(g.kids[p][0]))
  {
    assert NodeOk(g.links, g.kids, p);
    g.links[p].child
  }

  /** `LastChild`: the end of the child chain, nil when there is none. */
  method LastChild(g: Tree, p: nat) returns (last: Ref)
    requires g.Valid() && p < |g.links|
    ensures last == (if g.kids[p] == [] then None else Some(g.kids[p][|g.kids[p]| - 1]))
  {
    last := g.LastChild(p);
  }

  /** `DelChild`: the first child named `name` is cut out and returned, the others keep their order; nil and no change when none is. */
  method DelChild(g: Tree, p: nat, name: string) returns (r: Ref)
    requires g.Valid() && p < |g.links|
    modifies g`links, g`kids
    ensures g.Valid() && SameNodes(g.links, old(g.links))
    ensures var i := FirstIndex(old(g.ChildNames(p)), name);
      if i < |old(g.kids[p])| then
        r == Some(old(g.kids[p])[i]) && g.kids == old(g.kids)[p := RemoveAt(old(g.kids[p]), i)]
      else
        r == None && g.kids == old(g.kids) && g.links == old(g.links)
    ensures g.ChildNames(p) == RemoveFirst(old(g.ChildNames(p)), name)
  {
    ghost var names0 := g.ChildNames(p);
    ghost var chain0 := g.kids[p];
    ghost var links0 := g.links;
    ChildIndices(g, p);
    r := g.DelChild(p, name);
    ghost var i := FirstIndex(names0, name);
    if i < |chain0| {
      NamesOfRemoveAt(links0, chain0, i);
      assert forall k | 0 <= k < |g.kids[p]| :: g.kids[p][k] in chain0;
    }
    ChildIndices(g, p);
    NamesOfSame(g.links, links0, g.kids[p]);
  }

  /**
   * `Add` of a detached node `n` to `p`: `n` takes the parent's mode as it
   * is; in distinct mode the first child of the same name is cut out first;
   * in sorted mode `n` goes to its insertion point, otherwise it becomes the
   * last child.
   */
  method Add(g: Tree, p: nat, n: nat)
    requires g.Valid() && g.Detached(n) && p < n
    modifies g
    ensures g.Valid()
    ensures g.data == old(g.data)[n := old(g.data[n]).(mode := old(g.data[p].mode))]
    ensures |g.links| == old(|g.links|) && NamesKept(old(g.links), g.links)
    ensures var m := old(g.data[p].mode);
      g.kids == old(g.kids)[p := AddChain(old(g.kids[p]), old(g.ChildNames(p)), old(g.links[n].name), n, IsDistinct(m), IsSorted(m))]
    ensures var m := old(g.data[p].mode);
      g.ChildNames(p) == AddNames(old(g.ChildNames(p)), old(g.links[n].name), IsDistinct(m), IsSorted(m))
  {
    ghost var links0 := g.links;
    Adopt(g, p, n);
    var mode := g.data[n].mode;
    ghost var links1 := g.links;
    Settle(g, p, n, mode & ModeDistinct == ModeDistinct, mode & ModeSort == ModeSort);
    KeptThenSame(links0, links1, g.links, n);
  }

  /** The first step of `Add`: `n` takes the parent's mode (and, for the arena's bookkeeping, `p` as parent). */
  method Adopt(g: Tree, p: nat, n: nat)
    requires g.Valid() && g.Detached(n) && p < n
    modifies g`data, g`links
    ensures g.Valid() && Joinable(g.links, g.kids, p, n)
    ensures g.data == old(g.data)[n := old(g.data[n]).(mode := old(g.data[p].mode))]
    ensures g.links == old(g.links)[n := old(g.links[n]).(parent := Some(p))]
    ensures NamesKept(old(g.links), g.links) && g.ChildNames(p) == old(g.ChildNames(p))
  {
    g.data := g.data[n := g.data[n].(mode := g.data[p].mode)];
    ghost var links0 := g.links;
    g.SetParent(n, p);
    ChildIndices(g, p);
    NamesOfSame(g.links, links0, g.kids[p]);
  }

  /** `Make`: `Add` of a new node for each name in turn, named by the escaped name. */
  method Make(g: Tree, p: nat, names: seq<string>)
    requires g.Valid() && p < |g.links|
    modifies g
    ensures g.Valid() && |g.links| == old(|g.links|) + |names|
    ensures NamedAs(g.links, old(|g.links|), EscapeAll(names))
    ensures g.data[p] == old(g.data[p])
    ensures var m := old(g.data[p].mode);
      g.ChildNames(p) == AddAllNames(old(g.ChildNames(p)), EscapeAll(names), IsDistinct(m), IsSorted(m))
  {
    ghost var names0 := g.ChildNames(p);
    ghost var pa := g.data[p];
    ghost var start := |g.links|;
    var i := 0;
    while i < |names|
      invariant 0 <= i <= |names|
      invariant g.Valid() && p < |g.links| && |g.links| == start + i && g.data[p] == pa
      invariant NamedAs(g.links, start, EscapeAll(names[..i]))
      invariant g.ChildNames(p) == AddAllNames(names0, EscapeAll(names[..i]), IsDistinct(pa.mode), IsSorted(pa.mode))
    {
      EscapeAllSnoc(names, i);
      MakeOne(g, p, names[i], names0, EscapeAll(names[..i]), start);
      i := i + 1;
    }
    assert names[..i] == names;
  }

  /** One round of `Make`'s loop, with the names made so far carried along. */
  method MakeOne(g: Tree, p: nat, name: string, ghost names0: seq<string>, ghost esc: seq<string>, ghost start: nat)
    requires g.Valid() && p < |g.links|
    requires NamedAs(g.links, start, esc) && start + |esc| == |g.links|
    requires g.ChildNames(p) == AddAllNames(names0, esc, IsDistinct(g.data[p].mode), IsSorted(g.data[p].mode))
    modifies g
    ensures g.Valid() && |g.links| == old(|g.links|) + 1 && g.data[p] == old(g.data[p])
    ensures NamedAs(g.links, start, esc + [Paths.Escape(name)])
    ensures g.ChildNames(p) == AddAllNames(names0, esc + [Paths.Escape(name)], IsDistinct(g.data[p].mode), IsSorted(g.data[p].mode))
  {
    ghost var links0, cn0, m := g.links, g.ChildNames(p), g.data[p].mode;
    var n := Nodes.NewNode(g, name);
    ChildIndices(g, p);
    assert g.ChildNames(p) == cn0;
    ghost var links1 := g.links;
    Add(g, p, n);
    NamedAsGrows(links0, g.links, start, esc, Paths.Escape(name));
    AddAllNamesSnoc(names0, esc, Paths.Escape(name), IsDistinct(m), IsSorted(m));
  }

  /** The visitor of the internal walk: what it is shown, and whether it calls `Stop`. */
  type Visitor = (Option<Attr>, Attr, string) -> bool

  /** The visits at which the visitor stops the walk. */
  function Stops(links: seq<Link>, data: seq<Attr>, fn: Visitor): Visit -> bool
  {
    (v: Visit) => v.node < |links| == |data| && fn(ParentAttr(links, data, v.node), data[v.node], v.path)
  }

  /**
   * From the stop flag and visits `s0`, `v0`, a walk of `vs` ends with `s`,
   * `v`: nothing happens when already stopped, otherwise the visits of `vs`
   * through the first that stops are made, and the walk ends stopped
   * exactly when one of them stops it.
   */
  predicate Walked(stops: Visit -> bool, s0: bool, v0: seq<Visit>, vs: seq<Visit>, s: bool, v: seq<Visit>)
  {
    if s0 then s && v == v0 else v == v0 + Through(stops, vs) && (s <==> Halts(stops, vs))
  }

  /** A walk of `a` and then, from where it ended, a walk of `b` is the walk of `a + b`. */
  lemma WalkedConcat(stops: Visit -> bool, a: seq<Visit>, b: seq<Visit>, v0: seq<Visit>,
                     s1: bool, v1: seq<Visit>, s2: bool, v2: seq<Visit>)
    requires Walked(stops, false, v0, a, s1, v1) && Walked(stops, s1, v1, b, s2, v2)
    ensures Walked(stops, false, v0, a + b, s2, v2)
  {
    ThroughConcat(stops, a, b);
    if !s1 {
      ThroughIsPrefix(stops, a);
      assert Through(stops, a) == a;
      assert v2 == v0 + (a + Through(stops, b));
    }
  }

  /** Visiting `x`, stopping exactly when the visitor says so, and then walking `a` is the walk of `[x] + a`. */
  lemma WalkedVisit(stops: Visit -> bool, x: Visit, a: seq<Visit>, v0: seq<Visit>,
                    s1: bool, v1: seq<Visit>, s2: bool, v2: seq<Visit>)
    requires v1 == v0 + [x] && (s1 <==> stops(x)) && Walked(stops, s1, v1, a, s2, v2)
    ensures Walked(stops, false, v0, [x] + a, s2, v2)
  {
    assert Halts(stops, [x]) <==> stops(x) by {
      assert [x][1..] == [];
    }
    assert Through(stops, [x]) == [x];
    WalkedConcat(stops, [x], a, v0, s1, v1, s2, v2);
  }

  /** With a visitor that arms nothing, the walk of `chain[i]` is its visit, its children's walk, then its later siblings'. */
  lemma PassiveNext(links: seq<Link>, kids: seq<seq<nat>>, data: seq<Attr>,
                    owner: int, chain: seq<nat>, i: nat, parent: string)
    requires WellLinked(links, kids) && |data| == |links| && ChainOk(links, owner, chain) && i < |chain|
    ensures ChainOk(links, chain[i], kids[chain[i]])
    ensures var x := chain[i];
      var path := Paths.Join(parent, links[x].name);
      Pre(links, kids, data, Passive, owner, chain, i, parent)
      == [Visit(x, path)] + Pre(links, kids, data, Passive, x, kids[x], 0, path) + Pre(links, kids, data, Passive, owner, chain, i + 1, parent)
  {
    KidsChainOk(links, kids, chain[i]);
  }

  class Walker {
    var stopped: bool
    /** The visitor calls made so far, in order. */
    var visits: seq<Visit>

    /** `newWalker`: not stopped, nothing visited. */
    constructor ()
      ensures !stopped && visits == []
    {
      stopped := false;
      visits := [];
    }

    method Stop()
      modifies this`stopped
      ensures stopped
    {
      stopped := true;
    }

    /**
     * `Walk(parent, child, abspath, fn)`: `child` is member `i` of `chain`,
     * the children of `parent` (or the lone start node when there is no
     * parent), or nil when `i == |chain|`. An unstopped walk visits the
     * full preorder from there through the first visit that stops it.
     */
    method Walk(g: Tree, parent: Ref, child: Ref, abspath: string, fn: Visitor,
                ghost owner: int, ghost chain: seq<nat>, ghost i: nat)
      requires g.Valid() && ChainOk(g.links, owner, chain) && ChildrenOf(g.links, owner, chain) && i <= |chain|
      requires child == (if i < |chain| then Some(chain[i]) else None)
      requires parent == (if owner < 0 then None else Some(owner as nat))
      modifies this
      ensures Walked(Stops(g.links, g.data, fn), old(stopped), old(visits), Pre(g.links, g.kids, g.data, Passive, owner, chain, i, abspath), stopped, visits)
      decreases |g.links| - owner, |chain| - i, 1
    {
      if child == None || stopped {
        return;
      }
      ghost var v0 := visits;
      ghost var S := Stops(g.links, g.data, fn);
      var x := child.value;
      PassiveNext(g.links, g.kids, g.data, owner, chain, i, abspath);
      assert g.links[x].sibling == (if i + 1 < |chain| then Some(chain[i + 1]) else None);
      var path := Paths.Join(abspath, g.links[x].name);
      VisitDown(g, parent, x, abspath, fn, owner, chain, i);
      ghost var s1, v1 := stopped, visits;
      Walk(g, parent, g.links[x].sibling, abspath, fn, owner, chain, i + 1);
      WalkedConcat(S, [Visit(x, path)] + Pre(g.links, g.kids, g.data, Passive, x, g.kids[x], 0, path),
                   Pre(g.links, g.kids, g.data, Passive, owner, chain, i + 1, abspath), v0, s1, v1, stopped, visits);
    }

    /** The visit of `chain[i]`, at its path below `abspath`, and the walk of its children. */
    method VisitDown(g: Tree, parent: Ref, x: nat, abspath: string, fn: Visitor,
                     ghost owner: int, ghost chain: seq<nat>, ghost i: nat)
      requires g.Valid() && ChainOk(g.links, owner, chain) && ChildrenOf(g.links, owner, chain) && i < |chain|
      requires x == chain[i] && !stopped
      requires parent == (if owner < 0 then None else Some(owner as nat))
      modifies this
      ensures var path := Paths.Join(abspath, g.links[x].name);
        ChainOk(g.links, x, g.kids[x])
        && Walked(Stops(g.links, g.data, fn), false, old(visits),
               [Visit(x, path)] + Pre(g.links, g.kids, g.data, Passive, x, g.kids[x], 0, path), stopped, visits)
      decreases |g.links| - owner, |chain| - i, 0
    {
      ghost var v0 := visits;
      var path := Paths.Join(abspath, g.links[x].name);
      var pa := if parent.Some? then Some(g.data[parent.value]) else None;
      assert pa == ParentAttr(g.links, g.data, x);
      var stop := fn(pa, g.data[x], path);
      visits := visits + [Visit(x, path)];
      if stop {
        Stop();
      }
      ghost var s1, v1 := stopped, visits;
      KidsChainOk(g.links, g.kids, x);
      KidsAreChildren(g.links, g.kids, x);
      assert NodeOk(g.links, g.kids, x);
      Walk(g, Some(x), g.links[x].child, path, fn, x, g.kids[x], 0);
      WalkedVisit(Stops(g.links, g.data, fn), Visit(x, path), Pre(g.links, g.kids, g.data, Passive, x, g.kids[x], 0, path),
                  v0, s1, v1, stopped, visits);
    }
  }

  /** `RootNode.Walk`: a new walker from the root with an empty parent path; returns the visitor calls it made. */
  method WalkRoot(g: Tree, x: nat, fn: Visitor) returns (visits: seq<Visit>)
    requires g.Valid() && x < |g.links| && g.links[x].parent == None
    ensures visits == Through(Stops(g.links, g.data, fn), Preorder(g.links, g.kids, g.data, x))
    ensures AtAbsPaths(g.links, visits)
  {
    var w := new Walker();
    StartOk(g.links, g.kids, x);
    w.Walk(g, None, Some(x), "", fn, -1, [x], 0);
    visits := w.visits;
    ghost var P := Preorder(g.links, g.kids, g.data, x);
    PrePaths(g.links, g.kids, g.data, Passive, -1, [x], 0, "");
    ThroughIsPrefix(Stops(g.links, g.data, fn), P);
  }

  /** `Find`'s visitor: stop at the node whose walked path is `abspath`. */
  function Matcher(abspath: string): Visitor
  {
    (pa: Option<Attr>, a: Attr, path: string) => path == abspath
  }

  /**
   * `RootNode.Find`: the first node of the root's preorder whose walked
   * path is `abspath`, nil when there is none. The visitor records the
   * matching node; here it is the last visit of a stopped walk.
   */
  method Find(g: Tree, x: nat, abspath: string) returns (r: Ref)
    requires g.Valid() && x < |g.links| && g.links[x].parent == None
    ensures var P := Preorder(g.links, g.kids, g.data, x);
      (r.Some? <==> exists k | 0 <= k < |P| :: P[k].path == abspath)
      && (r.Some? ==> exists k | 0 <= k < |P| :: P[k] == Visit(r.value, abspath) && forall j | 0 <= j < k :: P[j].path != abspath)
  {
    var w := new Walker();
    StartOk(g.links, g.kids, x);
    w.Walk(g, None, Some(x), "", Matcher(abspath), -1, [x], 0);
    ghost var P := Preorder(g.links, g.kids, g.data, x);
    ghost var stops := Stops(g.links, g.data, Matcher(abspath));
    ThroughIsPrefix(stops, P);
    ghost var t := Through(stops, P);
    if w.stopped {
      var last := w.visits[|w.visits| - 1];
      assert t[|t| - 1] == P[|t| - 1];
      r := Some(last.node);
    } else {
      NotHalted(stops, P);
      r := None;
    }
  }
}
