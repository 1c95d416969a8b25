/**
 * The access control rs/call.go and rs/walker.go wrap around a visitor:
 * before a node is shown, the account must have exec on the node's parent,
 * or on the node itself when it has none; otherwise the walker is told to
 * skip the node's children and the wrapped visitor is not called.
 */
module WalkFilter {
  import opened Wrappers
  import opened Graphs
  import opened Nodes
  import opened Operations
  import opened Accounts
  import opened Walkers
  import opened Paths
  import Seals

  /** The seal checked at a node: its parent's, or its own for a node without parent. */
  function GuardSeal(pa: Option<Attr>, a: Attr): Seals.Seal
  {
    SealOf(if pa.Some? then pa.value else a)
  }

  /** The account may see a node shown with these attributes. */
  predicate Admits(uid: int, groups: seq<int>, pa: Option<Attr>, a: Attr)
  {
    Permitted(uid, groups, OpExec, GuardSeal(pa, a)).Pass?
  }

  /** What the filter arms for a node the account may not see: `SkipChild`, nothing else. */
  const SkipChildOnly: Action := Continue.(skipChild := true)

  /** The wrapped visitor. */
  function Filter(uid: int, groups: seq<int>, fn: Visitor): Visitor
  {
    (pa: Option<Attr>, a: Attr, path: string) => if Admits(uid, groups, pa, a) then fn(pa, a, path) else SkipChildOnly
  }

  /** The filter admits node `y` of the tree. */
  ghost predicate GuardOk(links: seq<Link>, data: seq<Attr>, uid: int, groups: seq<int>, y: nat)
    requires y < |links| == |data|
  {
    Admits(uid, groups, ParentAttr(links, data, y), data[y])
  }

  /**
   * The filter admits `y` and every node above it up to, but not
   * including, the node `top` the walk started below (-1 for a walk of
   * parentless nodes): exec is granted on each node from `top` down to
   * `y`'s parent.
   */
  ghost predicate Cleared(links: seq<Link>, data: seq<Attr>, uid: int, groups: seq<int>, top: int, y: nat)
    decreases y, 1
  {
    y < |links| == |data| && GuardOk(links, data, uid, groups, y) && Reached(links, data, uid, groups, top, y)
  }

  /** `y` hangs below `top` directly, or below a cleared node, or has no parent. */
  ghost predicate Reached(links: seq<Link>, data: seq<Attr>, uid: int, groups: seq<int>, top: int, y: nat)
    decreases y, 0
  {
    y < |links|
    && match links[y].parent
       case None => true
       case Some(q) => q as int == top || (q < y && Cleared(links, data, uid, groups, top, q))
  }

  /** A visitor that skips the children of every node the account may not see. */
  ghost predicate Guards(fn: Visitor, uid: int, groups: seq<int>)
  {
    forall pa: Option<Attr>, a: Attr, path: string :: !Admits(uid, groups, pa, a) ==> fn(pa, a, path).skipChild
  }

  /** `r` has the visits of `st` and, after them, only visits of reached nodes; a walk that entered a node is past its first. */
  ghost predicate GrowsReached(links: seq<Link>, data: seq<Attr>, uid: int, groups: seq<int>, top: int, st: State, r: State)
  {
    st.visits <= r.visits
    && (forall k | |st.visits| <= k < |r.visits| :: Reached(links, data, uid, groups, top, r.visits[k].node))
    && (r.flags.first ==> r == st)
  }

  /**
   * A guarding visitor never lets the walk below a node the account may
   * not see: every node a walk visits is reached from the chain's owner
   * through admitted nodes only, unless a visit skip armed before the walk
   * let its first node through unchecked.
   */
  lemma {:induction false} RunReached(links: seq<Link>, kids: seq<seq<nat>>, data: seq<Attr>, fn: Visitor,
                                      uid: int, groups: seq<int>, top: int,
                                      owner: int, chain: seq<nat>, i: nat, parent: string, st: State)
    requires WellLinked(links, kids) && |data| == |links| && ChainOk(links, owner, chain) && i <= |chain|
    requires ChildrenOf(links, owner, chain) && owner < |links|
    requires owner == top || (owner >= 0 && Cleared(links, data, uid, groups, top, owner as nat))
    requires Guards(fn, uid, groups) && (st.flags.first ==> !st.flags.skipVisit)
    ensures GrowsReached(links, data, uid, groups, top, st, Run(links, kids, data, fn, owner, chain, i, parent, st))
    decreases |links| - owner, |chain| - i, 1
  {
    if i < |chain| && !st.flags.stopped {
      var st2 := Node(links, kids, data, fn, owner, chain, i, parent, st);
      NodeReached(links, kids, data, fn, uid, groups, top, owner, chain, i, parent, st);
      if !st2.flags.skipSibling {
        var r := Run(links, kids, data, fn, owner, chain, i + 1, parent, st2);
        RunReached(links, kids, data, fn, uid, groups, top, owner, chain, i + 1, parent, st2);
        ReachedTrans(links, data, uid, groups, top, st, st2, r);
      }
    }
  }

  lemma {:induction false} NodeReached(links: seq<Link>, kids: seq<seq<nat>>, data: seq<Attr>, fn: Visitor,
                                       uid: int, groups: seq<int>, top: int,
                                       owner: int, chain: seq<nat>, i: nat, parent: string, st: State)
    requires WellLinked(links, kids) && |data| == |links| && ChainOk(links, owner, chain) && i < |chain|
    requires ChildrenOf(links, owner, chain) && owner < |links|
    requires owner == top || (owner >= 0 && Cleared(links, data, uid, groups, top, owner as nat))
    requires Guards(fn, uid, groups) && (st.flags.first ==> !st.flags.skipVisit)
    ensures var r := Node(links, kids, data, fn, owner, chain, i, parent, st);
      GrowsReached(links, data, uid, groups, top, st, r) && !r.flags.first
    decreases |links| - owner, |chain| - i, 0
  {
    var x := chain[i];
    var path := Join(parent, links[x].name);
    var a := fn(ParentAttr(links, data, x), data[x], path);
    var st1 := Step(links, data, fn, x, path, st);
    assert st1 == State(Arm(Enter(st.flags), a), st.visits + [Visit(x, path)]);
    assert Reached(links, data, uid, groups, top, x);
    assert GrowsReached(links, data, uid, groups, top, st, st1);
    if Descends(data[x], st1.flags) {
      assert !a.skipChild;
      assert Cleared(links, data, uid, groups, top, x);
      KidsChainOk(links, kids, x);
      KidsAreChildren(links, kids, x);
      var r := Run(links, kids, data, fn, x, kids[x], 0, path, st1);
      RunReached(links, kids, data, fn, uid, groups, top, x, kids[x], 0, path, st1);
      ReachedTrans(links, data, uid, groups, top, st, st1, r);
    }
  }

  lemma ReachedTrans(links: seq<Link>, data: seq<Attr>, uid: int, groups: seq<int>, top: int, a: State, b: State, c: State)
    requires GrowsReached(links, data, uid, groups, top, a, b) && GrowsReached(links, data, uid, groups, top, b, c)
    requires !b.flags.first
    ensures GrowsReached(links, data, uid, groups, top, a, c)
  {
  }

  /** The filter guards whatever it wraps. */
  lemma FilterGuards(uid: int, groups: seq<int>, fn: Visitor)
    ensures Guards(Filter(uid, groups, fn), uid, groups)
  {
  }

  /**
   * A walk with the filter, from a walker with no visit skip armed for its
   * first node, calls the wrapped visitor only for nodes the account could
   * reach: at every visit where the filter lets the wrapped visitor run,
   * exec is granted on each node from the start node's parent (or the
   * start node itself, when it has none) down to the visited node's parent.
   */
  lemma FilteredWalk(links: seq<Link>, kids: seq<seq<nat>>, data: seq<Attr>, fn: Visitor,
                     uid: int, groups: seq<int>, x: nat, parent: string, st: State)
    requires WellLinked(links, kids) && |data| == |links| && Live(links, kids, x)
    requires st.flags.first ==> !st.flags.skipVisit
    ensures var r := Start(links, kids, data, Filter(uid, groups, fn), Some(x), parent, st);
      st.visits <= r.visits
      && forall k | |st.visits| <= k < |r.visits| ::
           r.visits[k].node < |links| && (GuardOk(links, data, uid, groups, r.visits[k].node) ==>
             Cleared(links, data, uid, groups, StartOwner(links, x), r.visits[k].node))
  {
    StartOk(links, kids, x);
    assert NodeOk(links, kids, x);
    var owner, chain, i := StartOwner(links, x), StartChain(links, kids, x), StartIndex(links, kids, x);
    if owner >= 0 {
      KidsAreChildren(links, kids, owner as nat);
    }
    FilterGuards(uid, groups, fn);
    RunReached(links, kids, data, Filter(uid, groups, fn), uid, groups, owner, owner, chain, i, parent, st);
  }
}
