/**
 * The walker of rs/walker.go: nugo's walker, handed to an account's
 * syscalls, that shows a visitor only the resources the account may reach.
 * Walks start at a resource the account has already found (a node of the
 * system's arena) and report each node with a path to it.
 */
module RsWalker {
  import opened Wrappers
  import opened Graphs
  import opened Nodes
  import opened Errors
  import opened Walkers
  import opened WalkFilter
  import opened RsCalls
  import Paths

  /**
   * The parent path `Walk` hands nugo's walker as written: the start node's
   * own `AbsPath` when it has a parent, "" when it has none.
   */
  function WrittenParentPath(links: seq<Link>, x: nat): string
    requires x < |links|
  {
    if links[x].parent.Some? then PathOf(links, x) else ""
  }

  /** Joining a non-empty name that does not start with '/' never gives back the parent path. */
  lemma JoinGrows(p: string, name: string)
    requires name != "" && name[0] != '/'
    ensures Paths.Join(p, name) != p
  {
    if p != "" {
      assert |Paths.Join(p, name)| > |p|;
    }
  }

  /**
   * As written, a walk from a node with a parent and a name reports that
   * node, on its first visit, at a path that is not its `AbsPath`: its own
   * name is joined twice (walking from "/etc" shows it as "/etc/etc").
   */
  lemma WrittenPathMisses(links: seq<Link>, kids: seq<seq<nat>>, data: seq<Attr>, fn: Visitor, x: nat, st: State)
    requires WellLinked(links, kids) && |data| == |links| && Live(links, kids, x)
    requires links[x].parent.Some? && links[x].name != "" && links[x].name[0] != '/'
    requires !st.flags.stopped && !(st.flags.first && st.flags.skipVisit)
    ensures var r := Start(links, kids, data, fn, Some(x), WrittenParentPath(links, x), st);
      |r.visits| > |st.visits| && r.visits[|st.visits|].node == x
      && r.visits[|st.visits|].path == Paths.Join(PathOf(links, x), links[x].name)
      && r.visits[|st.visits|].path != PathOf(links, x)
  {
    StartFirstVisit(links, kids, data, fn, x, WrittenParentPath(links, x), st);
    JoinGrows(PathOf(links, x), links[x].name);
  }

  /** "/" with one child "etc": a walk from "etc" as written shows it at "/etc/etc", not at "/etc". */
  lemma EtcShownTwice(links: seq<Link>, kids: seq<seq<nat>>, data: seq<Attr>, fn: Visitor)
    requires links == [Link("/", None, Some(1), None), Link("etc", Some(0), None, None)]
    requires kids == [[1], []] && |data| == 2
    ensures WellLinked(links, kids) && Live(links, kids, 1) && PathOf(links, 1) == "/etc"
      && var r := Start(links, kids, data, fn, Some(1), WrittenParentPath(links, 1), State(Fresh, []));
      |r.visits| > 0 && r.visits[0] == Visit(1, "/etc/etc")
  {
    assert WellLinked(links, kids) && Live(links, kids, 1) by {
      assert NodeOk(links, kids, 0) && NodeOk(links, kids, 1);
    }
    EtcPaths(links);
    WrittenPathMisses(links, kids, data, fn, 1, State(Fresh, []));
  }

  /** In the tree "/" → "etc", the node "etc" has the path "/etc", and joining its name to that gives "/etc/etc". */
  lemma EtcPaths(links: seq<Link>)
    requires links == [Link("/", None, Some(1), None), Link("etc", Some(0), None, None)]
    ensures links[1].parent.Some? && links[1].name == "etc" && links[1].name[0] != '/'
    ensures PathOf(links, 1) == "/etc" && Paths.Join(PathOf(links, 1), links[1].name) == "/etc/etc"
  {
    assert PathOf(links, 1) == "/etc";
    assert Paths.Join("/etc", "etc") == "/etc/etc";
  }

  class Walker {
    const w: Walkers.Walker
    const sys: Syscall

    /** `NewWalker`: a fresh nugo walker for the account's syscalls. */
    constructor (sys: Syscall)
      ensures this.sys == sys && fresh(w) && w.Current() == State(Fresh, [])
    {
      w := new Walkers.Walker();
      this.sys := sys;
    }

    method SetRecursive(r: bool)
      modifies w`recursive
      ensures w.recursive == r
    {
      w.SetRecursive(r);
    }

    method SkipSibling()
      modifies w`skipSibling
      ensures w.skipSibling
    {
      w.SkipSibling();
    }

    method SkipVisit()
      modifies w`skipVisit
      ensures w.skipVisit
    {
      w.SkipVisit();
    }

    /** `Walk` as written: the walk starts at `x` with `WrittenParentPath`. */
    method WalkAsWritten(x: nat, fn: Visitor) returns (r: Outcome<Error>)
      requires sys.sys.tree.Valid() && Live(sys.sys.tree.links, sys.sys.tree.kids, x)
      modifies w
      ensures r == Pass
      ensures w.Current() == Start(sys.sys.tree.links, sys.sys.tree.kids, sys.sys.tree.data, Filter(sys.acc.uid, sys.acc.groups, fn),
                                   Some(x), WrittenParentPath(sys.sys.tree.links, x), old(w.Current()))
    {
      var parentPath := if sys.sys.tree.links[x].parent.Some? then AbsPath(sys.sys.tree, x) else "";
      w.WalkFrom(sys.sys.tree, Some(x), parentPath, Filter(sys.acc.uid, sys.acc.groups, fn));
      r := Pass;
    }

    /**
     * `Walk` with the start path the walk of rs/call.go uses: the absolute
     * path of `x`'s parent. Every node visited is then shown at its
     * `AbsPath`, and, unless a visit skip was armed before the walk, the
     * wrapped visitor runs only for nodes the account reaches through
     * nodes it has exec on.
     */
    method Walk(x: nat, fn: Visitor) returns (r: Outcome<Error>)
      requires sys.sys.tree.Valid() && Live(sys.sys.tree.links, sys.sys.tree.kids, x)
      modifies w
      ensures r == Pass
      ensures w.Current() == Start(sys.sys.tree.links, sys.sys.tree.kids, sys.sys.tree.data, Filter(sys.acc.uid, sys.acc.groups, fn),
                                   Some(x), ParentPath(sys.sys.tree.links, x), old(w.Current()))
      ensures GrowsAtAbsPaths(sys.sys.tree.links, old(w.Current()), w.Current())
      ensures !(old(w.first) && old(w.skipVisit)) ==>
        forall k | old(|w.visits|) <= k < |w.visits| ::
          GuardOk(sys.sys.tree.links, sys.sys.tree.data, sys.acc.uid, sys.acc.groups, w.visits[k].node) ==>
            Cleared(sys.sys.tree.links, sys.sys.tree.data, sys.acc.uid, sys.acc.groups, StartOwner(sys.sys.tree.links, x), w.visits[k].node)
    {
      var g := sys.sys.tree;
      ghost var st := w.Current();
      var fw := Filter(sys.acc.uid, sys.acc.groups, fn);
      w.WalkFrom(g, Some(x), ParentPath(g.links, x), fw);
      StartPaths(g.links, g.kids, g.data, fw, x, st);
      if !(st.flags.first && st.flags.skipVisit) {
        FilteredWalk(g.links, g.kids, g.data, fn, sys.acc.uid, sys.acc.groups, x, ParentPath(g.links, x), st);
      }
      r := Pass;
    }
  }
}
