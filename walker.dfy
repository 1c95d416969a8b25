/**
 * The walker of walker.go: a preorder walk over a node, its child subtree
 * and then its later siblings, steered by one-shot skip flags, a recursion
 * gate that root nodes pass regardless, and a stop flag. A visitor is a pure
 * function from what it is shown to the flags it arms; the walker records
 * each call it makes in `visits`.
 */
module Walkers {
  import opened Wrappers
  import opened Lists
  import opened Graphs
  import opened Nodes
  import opened Paths

  /** What a visitor asks of the walker: `Stop`, `SkipChild`, `SkipSibling`, `SkipVisit`, `SetRecursive`. */
  datatype Action = Action(stop: bool, skipChild: bool, skipSibling: bool, skipVisit: bool, recursive: Option<bool>)

  const Continue: Action := Action(false, false, false, false, None)

  /** A visitor is shown the parent's attributes (when there is a parent), the node's and its path. */
  type Visitor = (Option<Attr>, Attr, string) -> Action

  /** One call of the visitor: the node and the path it was given. */
  datatype Visit = Visit(node: nat, path: string)

  /** The fields of `Walker`. */
  datatype Flags = Flags(first: bool, recursive: bool, skipChild: bool, skipSibling: bool, skipVisit: bool, stopped: bool)

  /** The walker's flags and the calls made so far. */
  datatype State = State(flags: Flags, visits: seq<Visit>)

  /** `NewWalker`'s flags: first and recursive, nothing armed, not stopped. */
  const Fresh: Flags := Flags(true, true, false, false, false, false)

  /** The attributes of the parent of `x`, if it has one. */
  function ParentAttr(links: seq<Link>, data: seq<Attr>, x: nat): Option<Attr>
    requires x < |links|
  {
    match links[x].parent
    case Some(q) => if q < |data| then Some(data[q]) else None
    case None => None
  }

  /** On entering a node: the skip flags are cleared unless this is the first node of the walk. */
  function Enter(f: Flags): Flags
  {
    if f.first then f.(first := false)
    else f.(first := false, skipChild := false, skipSibling := false, skipVisit := false)
  }

  /** The flags after a visitor armed `a`. */
  function Arm(f: Flags, a: Action): Flags
  {
    Flags(f.first, if a.recursive.Some? then a.recursive.value else f.recursive,
      f.skipChild || a.skipChild, f.skipSibling || a.skipSibling, f.skipVisit || a.skipVisit, f.stopped || a.stop)
  }

  /** Members of `chain` lie after `owner` and their sibling pointers spell the chain. */
  ghost predicate ChainOk(links: seq<Link>, owner: int, chain: seq<nat>)
  {
    forall k | 0 <= k < |chain| :: owner < chain[k] < |links| && links[chain[k]].sibling == Next(chain, k)
  }

  lemma KidsChainOk(links: seq<Link>, kids: seq<seq<nat>>, x: nat)
    requires WellLinked(links, kids) && x < |links|
    ensures ChainOk(links, x, kids[x])
  {
    ChainFacts(links, kids, x);
    assert NodeOk(links, kids, x);
    forall k | 0 <= k < |kids[x]| ensures links[kids[x][k]].sibling == Next(kids[x], k) {
      assert InChain(links, kids, x, k);
    }
  }

  /**
   * `walk(chain[i], parent)` from state `st`, where `chain` is the sibling
   * chain of `owner` (or of no node when `owner` is -1) and `i == |chain|`
   * stands for nil.
   */
  ghost function Run(links: seq<Link>, kids: seq<seq<nat>>, data: seq<Attr>, fn: Visitor,
                     owner: int, chain: seq<nat>, i: nat, parent: string, st: State): State
    requires WellLinked(links, kids) && |data| == |links| && ChainOk(links, owner, chain) && i <= |chain|
    decreases |links| - owner, |chain| - i, 1
  {
    if i == |chain| || st.flags.stopped then st
    else
      var st2 := Node(links, kids, data, fn, owner, chain, i, parent, st);
      if st2.flags.skipSibling then st2 else Run(links, kids, data, fn, owner, chain, i + 1, parent, st2)
  }

  /** The part of `walk` for `chain[i]` before its sibling: enter the node, then descend when the gate allows. */
  ghost function Node(links: seq<Link>, kids: seq<seq<nat>>, data: seq<Attr>, fn: Visitor,
                      owner: int, chain: seq<nat>, i: nat, parent: string, st: State): State
    requires WellLinked(links, kids) && |data| == |links| && ChainOk(links, owner, chain) && i < |chain|
    decreases |links| - owner, |chain| - i, 0
  {
    var x := chain[i];
    var path := Join(parent, links[x].name);
    var st1 := Step(links, data, fn, x, path, st);
    if Descends(data[x], st1.flags) then
      KidsChainOk(links, kids, x);
      Run(links, kids, data, fn, x, kids[x], 0, path, st1)
    else st1
  }

  /** Entering node `x` at `path`: the flags are reset, then the visitor is called unless a visit skip is armed. */
  function Step(links: seq<Link>, data: seq<Attr>, fn: Visitor, x: nat, path: string, st: State): State
    requires x < |links| == |data|
  {
    var f := Enter(st.flags);
    if f.skipVisit then State(f, st.visits)
    else State(Arm(f, fn(ParentAttr(links, data, x), data[x], path)), st.visits + [Visit(x, path)])
  }

  /** The walk goes down into a node when it is a root or the walk is recursive, and no child skip is armed. */
  predicate Descends(a: Attr, f: Flags)
  {
    (IsRoot(a) || f.recursive) && !f.skipChild
  }

  /** `x` is reachable from its parent, or has none; the nodes a walk can start from. */
  ghost predicate Live(links: seq<Link>, kids: seq<seq<nat>>, x: nat)
  {
    x < |links| && |kids| == |links|
    && match links[x].parent
       case None => true
       case Some(q) => q < |kids| && x in kids[q]
  }

  /** The chain a walk from `x` follows: `x` alone for a parentless node, else its parent's children from `x` on. */
  ghost function StartOwner(links: seq<Link>, x: nat): int
    requires x < |links|
  {
    match links[x].parent
    case None => -1
    case Some(q) => q
  }

  ghost function StartChain(links: seq<Link>, kids: seq<seq<nat>>, x: nat): seq<nat>
    requires Live(links, kids, x)
  {
    match links[x].parent
    case None => [x]
    case Some(q) => kids[q]
  }

  ghost function StartIndex(links: seq<Link>, kids: seq<seq<nat>>, x: nat): nat
    requires Live(links, kids, x)
  {
    match links[x].parent
    case None => 0
    case Some(q) => FirstIndex(kids[q], x)
  }

  lemma StartOk(links: seq<Link>, kids: seq<seq<nat>>, x: nat)
    requires WellLinked(links, kids) && Live(links, kids, x)
    ensures var c, i := StartChain(links, kids, x), StartIndex(links, kids, x);
      ChainOk(links, StartOwner(links, x), c) && i < |c| && c[i] == x
  {
    assert NodeOk(links, kids, x);
    match links[x].parent
    case None =>
    case Some(q) =>
      KidsChainOk(links, kids, q);
  }

  /** `walk(node, parent)` from the top: nothing happens for nil. */
  ghost function Start(links: seq<Link>, kids: seq<seq<nat>>, data: seq<Attr>, fn: Visitor, node: Ref, parent: string, st: State): State
    requires WellLinked(links, kids) && |data| == |links| && (node.Some? ==> Live(links, kids, node.value))
  {
    match node
    case None => st
    case Some(x) =>
      StartOk(links, kids, x);
      Run(links, kids, data, fn, StartOwner(links, x), StartChain(links, kids, x), StartIndex(links, kids, x), parent, st)
  }

  /** The visitor never arms `SkipSibling` and never changes recursion; it may stop, skip a visit or skip a node's children. */
  ghost predicate NoSiblingSkip(fn: Visitor)
  {
    forall pa: Option<Attr>, a: Attr, path: string :: !fn(pa, a, path).skipSibling && fn(pa, a, path).recursive.None?
  }

  /** Recursive, no sibling skip, and nothing armed for a first node. */
  predicate Quiet(f: Flags)
  {
    f.recursive && !f.skipSibling && (f.first ==> !f.skipChild && !f.skipVisit)
  }

  /** The visits at which the visitor stops the walk. */
  function Stopper(links: seq<Link>, data: seq<Attr>, fn: Visitor): Visit -> bool
  {
    (v: Visit) => v.node < |links| == |data| && fn(ParentAttr(links, data, v.node), data[v.node], v.path).stop
  }

  /** Some visit in `vs` stops the walk. */
  predicate Halts(stops: Visit -> bool, vs: seq<Visit>)
  {
    vs != [] && (stops(vs[0]) || Halts(stops, vs[1..]))
  }

  /** The visits up to and including the first one that stops the walk; all of them when none does. */
  function Through(stops: Visit -> bool, vs: seq<Visit>): seq<Visit>
  {
    if vs == [] then []
    else if stops(vs[0]) then [vs[0]]
    else [vs[0]] + Through(stops, vs[1..])
  }

  /** `Through` is the prefix ending at the first stopping visit, and nothing before it stops. */
  lemma {:induction false} ThroughIsPrefix(stops: Visit -> bool, vs: seq<Visit>)
    ensures var t := Through(stops, vs);
      t <= vs && (Halts(stops, vs) <==> t != [] && stops(t[|t| - 1]))
      && (!Halts(stops, vs) ==> t == vs)
      && forall k | 0 <= k < |t| - 1 :: !stops(t[k])
  {
    if vs != [] && !stops(vs[0]) {
      var rest := Through(stops, vs[1..]);
      ThroughIsPrefix(stops, vs[1..]);
      var t := [vs[0]] + rest;
      assert vs == [vs[0]] + vs[1..];
      assert t <= vs;
      forall k | 0 <= k < |t| - 1 ensures !stops(t[k]) {
        if k > 0 {
          assert t[k] == rest[k - 1];
        }
      }
      if rest != [] {
        assert t[|t| - 1] == rest[|rest| - 1];
      }
    }
  }

  /** A sequence in which no visit stops has none that stops, position by position. */
  lemma {:induction false} NotHalted(stops: Visit -> bool, vs: seq<Visit>)
    ensures Halts(stops, vs) <==> exists k | 0 <= k < |vs| :: stops(vs[k])
  {
    if vs != [] {
      NotHalted(stops, vs[1..]);
      if exists k | 0 <= k < |vs| :: stops(vs[k]) {
        var k :| 0 <= k < |vs| && stops(vs[k]);
        if k > 0 { assert stops(vs[1..][k - 1]); }
      }
      if exists k | 0 <= k < |vs[1..]| :: stops(vs[1..][k]) {
        var k :| 0 <= k < |vs[1..]| && stops(vs[1..][k]);
        assert stops(vs[k + 1]);
      }
    }
  }

  lemma {:induction false} ThroughConcat(stops: Visit -> bool, a: seq<Visit>, b: seq<Visit>)
    ensures Through(stops, a + b) == if Halts(stops, a) then Through(stops, a) else a + Through(stops, b)
    ensures Halts(stops, a + b) <==> Halts(stops, a) || Halts(stops, b)
  {
    if a == [] {
      assert a + b == b;
    } else {
      assert (a + b)[0] == a[0] && (a + b)[1..] == a[1..] + b;
      ThroughConcat(stops, a[1..], b);
    }
  }

  /** Every visit in `vs` names a node of `links`. */
  ghost predicate NodesIn(links: seq<Link>, vs: seq<Visit>)
  {
    forall k | 0 <= k < |vs| :: vs[k].node < |links|
  }

  /**
   * The preorder a walk follows when nothing but the visitor's own child
   * skips prunes it: each node, then (unless the visitor skips its
   * children) its child subtree, then its later siblings.
   */
  ghost function Pre(links: seq<Link>, kids: seq<seq<nat>>, data: seq<Attr>, fn: Visitor,
                     owner: int, chain: seq<nat>, i: nat, parent: string): (vs: seq<Visit>)
    requires WellLinked(links, kids) && |data| == |links| && ChainOk(links, owner, chain) && i <= |chain|
    ensures NodesIn(links, vs)
    decreases |links| - owner, |chain| - i, 1
  {
    if i == |chain| then []
    else Subtree(links, kids, data, fn, owner, chain, i, parent) + Pre(links, kids, data, fn, owner, chain, i + 1, parent)
  }

  /** The visit of `chain[i]` followed, unless the visitor skips its children there, by its child subtree's preorder. */
  ghost function Subtree(links: seq<Link>, kids: seq<seq<nat>>, data: seq<Attr>, fn: Visitor,
                         owner: int, chain: seq<nat>, i: nat, parent: string): (vs: seq<Visit>)
    requires WellLinked(links, kids) && |data| == |links| && ChainOk(links, owner, chain) && i < |chain|
    ensures NodesIn(links, vs) && |vs| > 0 && vs[0] == Visit(chain[i], Join(parent, links[chain[i]].name))
    decreases |links| - owner, |chain| - i, 0
  {
    var x := chain[i];
    var path := Join(parent, links[x].name);
    if fn(ParentAttr(links, data, x), data[x], path).skipChild then [Visit(x, path)]
    else
      KidsChainOk(links, kids, x);
      [Visit(x, path)] + Pre(links, kids, data, fn, x, kids[x], 0, path)
  }

  /** From `st` the walk made exactly the visits of `vs` through the first that stops, and stopped exactly when one did. */
  predicate Follows(stops: Visit -> bool, st: State, vs: seq<Visit>, r: State)
  {
    r.visits == st.visits + Through(stops, vs)
    && (r.flags.stopped <==> Halts(stops, vs))
    && (!r.flags.stopped ==> Quiet(r.flags))
  }

  /**
   * A walk that is recursive and whose visitor never skips siblings visits
   * the pruned preorder up to and including the first visit that stops it:
   * a `SkipVisit` armed inside a visit never suppresses a later visit, and
   * after `Stop` the visitor is not called again.
   */
  lemma {:induction false} WalkThrough(links: seq<Link>, kids: seq<seq<nat>>, data: seq<Attr>, fn: Visitor,
                                       owner: int, chain: seq<nat>, i: nat, parent: string, st: State)
    requires WellLinked(links, kids) && |data| == |links| && ChainOk(links, owner, chain) && i <= |chain|
    requires NoSiblingSkip(fn) && !st.flags.stopped && Quiet(st.flags)
    ensures Follows(Stopper(links, data, fn), st, Pre(links, kids, data, fn, owner, chain, i, parent),
                    Run(links, kids, data, fn, owner, chain, i, parent, st))
    decreases |links| - owner, |chain| - i, 1
  {
    if i < |chain| {
      var S := Subtree(links, kids, data, fn, owner, chain, i, parent);
      var st2 := Node(links, kids, data, fn, owner, chain, i, parent, st);
      RunNext(links, kids, data, fn, owner, chain, i, parent, st);
      PreNext(links, kids, data, fn, owner, chain, i, parent);
      WalkSubtree(links, kids, data, fn, owner, chain, i, parent, st);
      if !st2.flags.stopped {
        WalkThrough(links, kids, data, fn, owner, chain, i + 1, parent, st2);
      }
      FollowsConcat(Stopper(links, data, fn), st, S, Pre(links, kids, data, fn, owner, chain, i + 1, parent),
                    st2, Run(links, kids, data, fn, owner, chain, i + 1, parent, st2));
    }
  }

  /** Unfolding one member of a chain, for a walk that has not stopped and whose node leaves no sibling skip armed. */
  lemma RunNext(links: seq<Link>, kids: seq<seq<nat>>, data: seq<Attr>, fn: Visitor,
                owner: int, chain: seq<nat>, i: nat, parent: string, st: State)
    requires WellLinked(links, kids) && |data| == |links| && ChainOk(links, owner, chain) && i < |chain|
    requires !st.flags.stopped
    ensures var st2 := Node(links, kids, data, fn, owner, chain, i, parent, st);
      (st2.flags.stopped || !st2.flags.skipSibling) ==> Run(links, kids, data, fn, owner, chain, i, parent, st) == Run(links, kids, data, fn, owner, chain, i + 1, parent, st2)
    ensures var st2 := Node(links, kids, data, fn, owner, chain, i, parent, st);
      st2.flags.stopped ==> Run(links, kids, data, fn, owner, chain, i + 1, parent, st2) == st2
  {
  }

  /** One step of `walk` at `chain[i]`, spelled out. */
  lemma NodeUnfold(links: seq<Link>, kids: seq<seq<nat>>, data: seq<Attr>, fn: Visitor,
                   owner: int, chain: seq<nat>, i: nat, parent: string, st: State)
    requires WellLinked(links, kids) && |data| == |links| && ChainOk(links, owner, chain) && i < |chain|
    requires !st.flags.stopped
    ensures ChainOk(links, chain[i], kids[chain[i]])
    ensures var x := chain[i];
      var path := Join(parent, links[x].name);
      var st1 := Step(links, data, fn, x, path, st);
      Node(links, kids, data, fn, owner, chain, i, parent, st) ==
        if Descends(data[x], st1.flags) then Run(links, kids, data, fn, x, kids[x], 0, path, st1) else st1
    ensures var st2 := Node(links, kids, data, fn, owner, chain, i, parent, st);
      Run(links, kids, data, fn, owner, chain, i, parent, st) ==
        if st2.flags.skipSibling then st2 else Run(links, kids, data, fn, owner, chain, i + 1, parent, st2)
  {
    KidsChainOk(links, kids, chain[i]);
  }

  lemma PreNext(links: seq<Link>, kids: seq<seq<nat>>, data: seq<Attr>, fn: Visitor,
                owner: int, chain: seq<nat>, i: nat, parent: string)
    requires WellLinked(links, kids) && |data| == |links| && ChainOk(links, owner, chain) && i < |chain|
    ensures Pre(links, kids, data, fn, owner, chain, i, parent) ==
      Subtree(links, kids, data, fn, owner, chain, i, parent) + Pre(links, kids, data, fn, owner, chain, i + 1, parent)
  {
  }

  /** A walk that follows `a` and then, unless it stopped, `b` from where it got to, follows `a + b`. */
  lemma FollowsConcat(stops: Visit -> bool, st: State, a: seq<Visit>, b: seq<Visit>, mid: State, r: State)
    requires Follows(stops, st, a, mid)
    requires mid.flags.stopped ==> r == mid
    requires !mid.flags.stopped ==> Follows(stops, mid, b, r)
    ensures Follows(stops, st, a + b, r)
  {
    ThroughConcat(stops, a, b);
    ThroughIsPrefix(stops, a);
    if !mid.flags.stopped {
      assert Through(stops, a) == a;
      assert r.visits == st.visits + (a + Through(stops, b));
    }
  }

  /** One visit made and not skipped: the walk follows the one-visit sequence. */
  lemma FollowsOne(stops: Visit -> bool, st: State, v: Visit, r: State)
    requires r.visits == st.visits + [v] && (r.flags.stopped <==> stops(v))
    requires !r.flags.stopped ==> Quiet(r.flags)
    ensures Follows(stops, st, [v], r)
  {
    assert [v][1..] == [];
  }

  /** The node-and-children half of `WalkThrough`. */
  lemma {:induction false} WalkSubtree(links: seq<Link>, kids: seq<seq<nat>>, data: seq<Attr>, fn: Visitor,
                                       owner: int, chain: seq<nat>, i: nat, parent: string, st: State)
    requires WellLinked(links, kids) && |data| == |links| && ChainOk(links, owner, chain) && i < |chain|
    requires NoSiblingSkip(fn) && !st.flags.stopped && Quiet(st.flags)
    ensures Follows(Stopper(links, data, fn), st, Subtree(links, kids, data, fn, owner, chain, i, parent),
                    Node(links, kids, data, fn, owner, chain, i, parent, st))
    decreases |links| - owner, |chain| - i, 0
  {
    var x := chain[i];
    var path := Join(parent, links[x].name);
    var v := Visit(x, path);
    var a := fn(ParentAttr(links, data, x), data[x], path);
    var st1 := Step(links, data, fn, x, path, st);
    assert st1 == State(Arm(Enter(st.flags), a), st.visits + [v]);
    assert !a.skipSibling && a.recursive.None?;
    FollowsOne(Stopper(links, data, fn), st, v, st1);
    KidsChainOk(links, kids, x);
    if !a.skipChild {
      var below := Pre(links, kids, data, fn, x, kids[x], 0, path);
      var r := Run(links, kids, data, fn, x, kids[x], 0, path, st1);
      assert Node(links, kids, data, fn, owner, chain, i, parent, st) == r;
      assert Subtree(links, kids, data, fn, owner, chain, i, parent) == [v] + below;
      if !a.stop {
        WalkThrough(links, kids, data, fn, x, kids[x], 0, path, st1);
      } else {
        assert r == st1;
      }
      FollowsConcat(Stopper(links, data, fn), st, [v], below, st1, r);
    }
  }

  /** A visitor that never arms `SkipChild` sees the full preorder, whatever else it does. */
  lemma {:induction false} PreWithoutSkips(links: seq<Link>, kids: seq<seq<nat>>, data: seq<Attr>, fn: Visitor, fn': Visitor,
                                           owner: int, chain: seq<nat>, i: nat, parent: string)
    requires WellLinked(links, kids) && |data| == |links| && ChainOk(links, owner, chain) && i <= |chain|
    requires forall pa: Option<Attr>, a: Attr, path: string :: !fn(pa, a, path).skipChild && !fn'(pa, a, path).skipChild
    ensures Pre(links, kids, data, fn, owner, chain, i, parent) == Pre(links, kids, data, fn', owner, chain, i, parent)
    decreases |links| - owner, |chain| - i
  {
    if i < |chain| {
      var x := chain[i];
      KidsChainOk(links, kids, x);
      PreWithoutSkips(links, kids, data, fn, fn', x, kids[x], 0, Join(parent, links[x].name));
      assert Subtree(links, kids, data, fn, owner, chain, i, parent) == Subtree(links, kids, data, fn', owner, chain, i, parent);
      PreWithoutSkips(links, kids, data, fn, fn', owner, chain, i + 1, parent);
    }
  }

  /** The members of `chain` are the children of `owner`, or have no parent when `owner` is -1. */
  ghost predicate ChildrenOf(links: seq<Link>, owner: int, chain: seq<nat>)
  {
    forall k | 0 <= k < |chain| :: chain[k] < |links| && links[chain[k]].parent == (if owner < 0 then None else Some(owner as nat))
  }

  lemma KidsAreChildren(links: seq<Link>, kids: seq<seq<nat>>, x: nat)
    requires WellLinked(links, kids) && x < |links|
    ensures ChildrenOf(links, x, kids[x])
  {
    forall k | 0 <= k < |kids[x]| ensures kids[x][k] < |links| && links[kids[x][k]].parent == Some(x) {
      MemberAfterParent(links, kids, x, k);
    }
  }

  /** Each visit in `vs` was given the node's absolute path. */
  ghost predicate AtAbsPaths(links: seq<Link>, vs: seq<Visit>)
  {
    forall k | 0 <= k < |vs| :: vs[k].node < |links| && vs[k].path == PathOf(links, vs[k].node)
  }

  /** Walking from a parentless node, the visitor is given each node's `AbsPath`. */
  lemma {:induction false} PrePaths(links: seq<Link>, kids: seq<seq<nat>>, data: seq<Attr>, fn: Visitor,
                                    owner: int, chain: seq<nat>, i: nat, parent: string)
    requires WellLinked(links, kids) && |data| == |links| && ChainOk(links, owner, chain) && i <= |chain|
    requires ChildrenOf(links, owner, chain) && owner < |links|
    requires parent == if owner < 0 then "" else PathOf(links, owner as nat)
    ensures AtAbsPaths(links, Pre(links, kids, data, fn, owner, chain, i, parent))
    decreases |links| - owner, |chain| - i
  {
    if i < |chain| {
      var x := chain[i];
      var path := Join(parent, links[x].name);
      PathOfChild(links, owner, x, parent);
      KidsChainOk(links, kids, x);
      KidsAreChildren(links, kids, x);
      PrePaths(links, kids, data, fn, x, kids[x], 0, path);
      PrePaths(links, kids, data, fn, owner, chain, i + 1, parent);
      PreNext(links, kids, data, fn, owner, chain, i, parent);
      SubtreeShape(links, kids, data, fn, owner, chain, i, parent);
      var below := Pre(links, kids, data, fn, x, kids[x], 0, path);
      AtAbsPathsConcat(links, [Visit(x, path)], below);
      AtAbsPathsConcat(links, Subtree(links, kids, data, fn, owner, chain, i, parent), Pre(links, kids, data, fn, owner, chain, i + 1, parent));
    }
  }

  /** A node's walked path is its absolute path when its parent's is. */
  lemma PathOfChild(links: seq<Link>, owner: int, x: nat, parent: string)
    requires x < |links| && owner < x && links[x].parent == (if owner < 0 then None else Some(owner as nat))
    requires parent == if owner < 0 then "" else PathOf(links, owner as nat)
    ensures Join(parent, links[x].name) == PathOf(links, x)
  {
  }

  /** The visits of a subtree: its node, then, unless the visitor skips there, its children's preorder. */
  lemma SubtreeShape(links: seq<Link>, kids: seq<seq<nat>>, data: seq<Attr>, fn: Visitor,
                     owner: int, chain: seq<nat>, i: nat, parent: string)
    requires WellLinked(links, kids) && |data| == |links| && ChainOk(links, owner, chain) && i < |chain|
    ensures ChainOk(links, chain[i], kids[chain[i]])
    ensures var x := chain[i];
      var path := Join(parent, links[x].name);
      var S := Subtree(links, kids, data, fn, owner, chain, i, parent);
      S == [Visit(x, path)] || S == [Visit(x, path)] + Pre(links, kids, data, fn, x, kids[x], 0, path)
  {
    KidsChainOk(links, kids, chain[i]);
  }

  lemma AtAbsPathsConcat(links: seq<Link>, a: seq<Visit>, b: seq<Visit>)
    requires AtAbsPaths(links, a) && AtAbsPaths(links, b)
    ensures AtAbsPaths(links, a + b)
  {
    forall k | 0 <= k < |a + b| ensures (a + b)[k].node < |links| && (a + b)[k].path == PathOf(links, (a + b)[k].node) {
      if k >= |a| { assert (a + b)[k] == b[k - |a|]; }
    }
  }

  /** `r` has the visits of `st` and, after them, only visits at absolute paths. */
  ghost predicate GrowsAtAbsPaths(links: seq<Link>, st: State, r: State)
  {
    st.visits <= r.visits && AtAbsPaths(links, r.visits[|st.visits|..])
  }

  lemma GrowsTrans(links: seq<Link>, a: State, b: State, c: State)
    requires GrowsAtAbsPaths(links, a, b) && GrowsAtAbsPaths(links, b, c)
    ensures GrowsAtAbsPaths(links, a, c)
  {
    assert c.visits[|a.visits|..] == b.visits[|a.visits|..] + c.visits[|b.visits|..];
    AtAbsPathsConcat(links, b.visits[|a.visits|..], c.visits[|b.visits|..]);
  }

  /**
   * Whatever the visitor arms and whatever the flags, a walk whose parent
   * path is the absolute path of the chain's owner (or empty, for a chain
   * of parentless nodes) gives every node it visits its `AbsPath`.
   */
  lemma {:induction false} RunPaths(links: seq<Link>, kids: seq<seq<nat>>, data: seq<Attr>, fn: Visitor,
                                    owner: int, chain: seq<nat>, i: nat, parent: string, st: State)
    requires WellLinked(links, kids) && |data| == |links| && ChainOk(links, owner, chain) && i <= |chain|
    requires ChildrenOf(links, owner, chain) && owner < |links|
    requires parent == if owner < 0 then "" else PathOf(links, owner as nat)
    ensures GrowsAtAbsPaths(links, st, Run(links, kids, data, fn, owner, chain, i, parent, st))
    decreases |links| - owner, |chain| - i, 1
  {
    if i < |chain| && !st.flags.stopped {
      var st2 := Node(links, kids, data, fn, owner, chain, i, parent, st);
      PathOfChild(links, owner, chain[i], parent);
      NodePaths(links, kids, data, fn, owner, chain, i, parent, st);
      NodeUnfold(links, kids, data, fn, owner, chain, i, parent, st);
      if !st2.flags.skipSibling {
        RunPaths(links, kids, data, fn, owner, chain, i + 1, parent, st2);
        GrowsTrans(links, st, st2, Run(links, kids, data, fn, owner, chain, i + 1, parent, st2));
      }
    } else {
      assert st.visits[|st.visits|..] == [];
    }
  }

  /** A node whose walked path is its `AbsPath` is visited there, and so is every node of its subtree. */
  lemma {:induction false} NodePaths(links: seq<Link>, kids: seq<seq<nat>>, data: seq<Attr>, fn: Visitor,
                                     owner: int, chain: seq<nat>, i: nat, parent: string, st: State)
    requires WellLinked(links, kids) && |data| == |links| && ChainOk(links, owner, chain) && i < |chain|
    requires Join(parent, links[chain[i]].name) == PathOf(links, chain[i])
    ensures GrowsAtAbsPaths(links, st, Node(links, kids, data, fn, owner, chain, i, parent, st))
    decreases |links| - owner, |chain| - i, 0
  {
    var x := chain[i];
    var path := Join(parent, links[x].name);
    var st1 := Step(links, data, fn, x, path, st);
    if Enter(st.flags).skipVisit {
      assert st1.visits[|st.visits|..] == [];
    } else {
      assert st1.visits[|st.visits|..] == [Visit(x, path)];
    }
    if Descends(data[x], st1.flags) {
      KidsChainOk(links, kids, x);
      KidsAreChildren(links, kids, x);
      RunPaths(links, kids, data, fn, x, kids[x], 0, path, st1);
      GrowsTrans(links, st, st1, Run(links, kids, data, fn, x, kids[x], 0, path, st1));
    }
  }

  /** Flags armed before `Walk` apply to the first node: with child and sibling skips armed only that node can be visited. */
  lemma FirstNodeFlags(links: seq<Link>, kids: seq<seq<nat>>, data: seq<Attr>, fn: Visitor,
                       owner: int, chain: seq<nat>, i: nat, parent: string, st: State)
    requires WellLinked(links, kids) && |data| == |links| && ChainOk(links, owner, chain) && i < |chain|
    requires st.flags.first && st.flags.skipChild && st.flags.skipSibling && !st.flags.stopped
    ensures Run(links, kids, data, fn, owner, chain, i, parent, st).visits ==
      st.visits + if st.flags.skipVisit then [] else [Visit(chain[i], Join(parent, links[chain[i]].name))]
  {
  }

  /** A walk only appends visits. */
  lemma {:induction false} RunExtends(links: seq<Link>, kids: seq<seq<nat>>, data: seq<Attr>, fn: Visitor,
                                      owner: int, chain: seq<nat>, i: nat, parent: string, st: State)
    requires WellLinked(links, kids) && |data| == |links| && ChainOk(links, owner, chain) && i <= |chain|
    ensures Extends(st, Run(links, kids, data, fn, owner, chain, i, parent, st))
    decreases |links| - owner, |chain| - i, 1
  {
    if i < |chain| && !st.flags.stopped {
      var st2 := Node(links, kids, data, fn, owner, chain, i, parent, st);
      NodeExtends(links, kids, data, fn, owner, chain, i, parent, st);
      NodeUnfold(links, kids, data, fn, owner, chain, i, parent, st);
      if !st2.flags.skipSibling {
        var r := Run(links, kids, data, fn, owner, chain, i + 1, parent, st2);
        RunExtends(links, kids, data, fn, owner, chain, i + 1, parent, st2);
        ExtendsTrans(st, st2, r);
      }
    }
  }

  /** `r` has the visits of `st` and maybe more after them. */
  ghost predicate Extends(st: State, r: State)
  {
    st.visits <= r.visits
  }

  lemma ExtendsTrans(a: State, b: State, c: State)
    requires Extends(a, b) && Extends(b, c)
    ensures Extends(a, c)
  {
  }

  lemma {:induction false} NodeExtends(links: seq<Link>, kids: seq<seq<nat>>, data: seq<Attr>, fn: Visitor,
                                       owner: int, chain: seq<nat>, i: nat, parent: string, st: State)
    requires WellLinked(links, kids) && |data| == |links| && ChainOk(links, owner, chain) && i < |chain|
    ensures Extends(st, Node(links, kids, data, fn, owner, chain, i, parent, st))
    decreases |links| - owner, |chain| - i, 0
  {
    var x := chain[i];
    var path := Join(parent, links[x].name);
    var st1 := Step(links, data, fn, x, path, st);
    if Descends(data[x], st1.flags) {
      KidsChainOk(links, kids, x);
      RunExtends(links, kids, data, fn, x, kids[x], 0, path, st1);
      ExtendsTrans(st, st1, Run(links, kids, data, fn, x, kids[x], 0, path, st1));
    }
  }

  /**
   * Unless a visit skip armed before the walk holds it back, the first
   * visit a walk from `x` makes is of `x` itself, at the parent path
   * joined with `x`'s name.
   */
  lemma StartFirstVisit(links: seq<Link>, kids: seq<seq<nat>>, data: seq<Attr>, fn: Visitor, x: nat, parent: string, st: State)
    requires WellLinked(links, kids) && |data| == |links| && Live(links, kids, x)
    requires !st.flags.stopped && !(st.flags.first && st.flags.skipVisit)
    ensures var r := Start(links, kids, data, fn, Some(x), parent, st);
      |r.visits| > |st.visits| && r.visits[|st.visits|] == Visit(x, Join(parent, links[x].name))
  {
    StartOk(links, kids, x);
    var owner, chain, i := StartOwner(links, x), StartChain(links, kids, x), StartIndex(links, kids, x);
    var path := Join(parent, links[x].name);
    var st1 := Step(links, data, fn, x, path, st);
    assert st1.visits == st.visits + [Visit(x, path)];
    NodeUnfold(links, kids, data, fn, owner, chain, i, parent, st);
    if Descends(data[x], st1.flags) {
      KidsChainOk(links, kids, x);
      RunExtends(links, kids, data, fn, x, kids[x], 0, path, st1);
    }
    var st2 := Node(links, kids, data, fn, owner, chain, i, parent, st);
    if !st2.flags.skipSibling {
      RunExtends(links, kids, data, fn, owner, chain, i + 1, parent, st2);
    }
  }

  /** The absolute path of `x`'s parent, or "" when it has none: the parent path a walk from `x` is meant to start with. */
  function ParentPath(links: seq<Link>, x: nat): string
    requires x < |links|
  {
    match links[x].parent
    case None => ""
    case Some(q) => if q < x then PathOf(links, q) else ""
  }

  /** Started with `ParentPath`, every visit a walk from `x` makes is at the visited node's `AbsPath`. */
  lemma StartPaths(links: seq<Link>, kids: seq<seq<nat>>, data: seq<Attr>, fn: Visitor, x: nat, st: State)
    requires WellLinked(links, kids) && |data| == |links| && Live(links, kids, x)
    ensures GrowsAtAbsPaths(links, st, Start(links, kids, data, fn, Some(x), ParentPath(links, x), st))
  {
    StartOk(links, kids, x);
    assert NodeOk(links, kids, x);
    var owner := StartOwner(links, x);
    if owner >= 0 {
      KidsAreChildren(links, kids, owner as nat);
    }
    RunPaths(links, kids, data, fn, owner, StartChain(links, kids, x), StartIndex(links, kids, x), ParentPath(links, x), st);
  }

  /**
   * A walk from a node without parent reports every node at its `AbsPath`
   * when the parent path it is given, joined with the node's name, gives
   * that name back.
   */
  lemma RootStartPaths(links: seq<Link>, kids: seq<seq<nat>>, data: seq<Attr>, fn: Visitor, x: nat, parent: string, st: State)
    requires WellLinked(links, kids) && |data| == |links| && Live(links, kids, x)
    requires links[x].parent == None && Join(parent, links[x].name) == links[x].name
    ensures GrowsAtAbsPaths(links, st, Start(links, kids, data, fn, Some(x), parent, st))
  {
    StartOk(links, kids, x);
    if !st.flags.stopped {
      NodePaths(links, kids, data, fn, -1, [x], 0, parent, st);
      NodeUnfold(links, kids, data, fn, -1, [x], 0, parent, st);
    } else {
      assert st.visits[|st.visits|..] == [];
    }
  }

  /**
   * Walking from a node on a plain path with the directory of its `AbsPath`
   * as parent path, as rs/call.go does, reports every node at its
   * `AbsPath`; for a node without parent this holds when it is "/".
   */
  lemma DirStartPaths(links: seq<Link>, kids: seq<seq<nat>>, data: seq<Attr>, fn: Visitor, x: nat, st: State)
    requires WellLinked(links, kids) && |data| == |links| && Live(links, kids, x) && PlainPath(links, x)
    requires links[x].parent.Some? || links[x].name == "/"
    ensures GrowsAtAbsPaths(links, st, Start(links, kids, data, fn, Some(x), Dir(PathOf(links, x)), st))
  {
    match links[x].parent
    case None =>
      SplitAt("/", "");
      assert "/" + "" == "/";
      RootStartPaths(links, kids, data, fn, x, Dir(PathOf(links, x)), st);
    case Some(q) =>
      AbsPathSplits(links, x);
      StartPaths(links, kids, data, fn, x, st);
  }

  /** The visitor arms nothing. */
  ghost predicate Inert(fn: Visitor)
  {
    forall pa: Option<Attr>, a: Attr, path: string :: fn(pa, a, path) == Continue
  }

  /** The visits a non-recursive walk makes over a chain of non-root children: each child once, nothing below. */
  function Listing(links: seq<Link>, chain: seq<nat>, parent: string): seq<Visit>
    requires forall k | 0 <= k < |chain| :: chain[k] < |links|
  {
    if chain == [] then []
    else [Visit(chain[0], Join(parent, links[chain[0]].name))] + Listing(links, chain[1..], parent)
  }

  /** An inert visitor in a non-recursive walk past its first node, at a node that is not a root: one visit, nothing armed. */
  lemma InertNode(links: seq<Link>, kids: seq<seq<nat>>, data: seq<Attr>, fn: Visitor,
                  owner: int, chain: seq<nat>, i: nat, parent: string, st: State)
    requires WellLinked(links, kids) && |data| == |links| && ChainOk(links, owner, chain) && i < |chain|
    requires Inert(fn) && !IsRoot(data[chain[i]]) && st.flags == Flags(false, false, false, false, false, false)
    ensures Node(links, kids, data, fn, owner, chain, i, parent, st) ==
      State(st.flags, st.visits + [Visit(chain[i], Join(parent, links[chain[i]].name))])
  {
    var x := chain[i];
    var path := Join(parent, links[x].name);
    assert fn(ParentAttr(links, data, x), data[x], path) == Continue;
  }

  lemma {:induction false} ChildrenOnly(links: seq<Link>, kids: seq<seq<nat>>, data: seq<Attr>, fn: Visitor,
                                        x: nat, i: nat, parent: string, st: State)
    requires WellLinked(links, kids) && |data| == |links| && x < |links| && i <= |kids[x]|
    requires Inert(fn) && forall k | 0 <= k < |kids[x]| :: kids[x][k] < |data| && !IsRoot(data[kids[x][k]])
    requires st.flags == Flags(false, false, false, false, false, false)
    ensures ChainOk(links, x, kids[x])
    ensures Run(links, kids, data, fn, x, kids[x], i, parent, st) == State(st.flags, st.visits + Listing(links, kids[x][i..], parent))
    decreases |kids[x]| - i
  {
    KidsChainOk(links, kids, x);
    if i < |kids[x]| {
      var c := kids[x][i];
      var st1 := State(st.flags, st.visits + [Visit(c, Join(parent, links[c].name))]);
      InertNode(links, kids, data, fn, x, kids[x], i, parent, st);
      RunNext(links, kids, data, fn, x, kids[x], i, parent, st);
      ChildrenOnly(links, kids, data, fn, x, i + 1, parent, st1);
      assert kids[x][i..][1..] == kids[x][i + 1..];
    }
  }

  /**
   * A non-recursive walk from a parentless root lists the root and its
   * children but nothing below them, provided no child is a root itself.
   */
  lemma NonRecursiveListsChildren(links: seq<Link>, kids: seq<seq<nat>>, data: seq<Attr>, fn: Visitor, x: nat)
    requires WellLinked(links, kids) && |data| == |links| && x < |links| && links[x].parent == None
    requires IsRoot(data[x]) && Inert(fn)
    requires forall k | 0 <= k < |kids[x]| :: kids[x][k] < |data| && !IsRoot(data[kids[x][k]])
    ensures Live(links, kids, x)
    ensures Start(links, kids, data, fn, Some(x), "", State(Fresh.(recursive := false), [])).visits ==
      [Visit(x, links[x].name)] + Listing(links, kids[x], links[x].name)
  {
    assert NodeOk(links, kids, x);
    StartOk(links, kids, x);
    var st1 := State(Flags(false, false, false, false, false, false), [Visit(x, links[x].name)]);
    assert Step(links, data, fn, x, links[x].name, State(Fresh.(recursive := false), [])) == st1;
    ChildrenOnly(links, kids, data, fn, x, 0, links[x].name, st1);
    assert kids[x][0..] == kids[x];
    var st2 := Run(links, kids, data, fn, x, kids[x], 0, links[x].name, st1);
    assert Node(links, kids, data, fn, -1, [x], 0, "", State(Fresh.(recursive := false), [])) == st2;
    RunNext(links, kids, data, fn, -1, [x], 0, "", State(Fresh.(recursive := false), []));
  }

  /** Walking a nil node, or with a stopped walker, calls no visitor and changes no flag. */
  lemma NilOrStoppedIsNoop(links: seq<Link>, kids: seq<seq<nat>>, data: seq<Attr>, fn: Visitor, node: Ref, parent: string, st: State)
    requires WellLinked(links, kids) && |data| == |links| && (node.Some? ==> Live(links, kids, node.value))
    requires node.None? || st.flags.stopped
    ensures Start(links, kids, data, fn, node, parent, st) == st
  {
  }

  /** The visitor that arms nothing. */
  const Passive: Visitor := (pa: Option<Attr>, a: Attr, path: string) => Continue

  /** Every node a walk from `x` can reach, in the order an unsteered walk from the empty path visits them. */
  ghost function Preorder(links: seq<Link>, kids: seq<seq<nat>>, data: seq<Attr>, x: nat): (vs: seq<Visit>)
    requires WellLinked(links, kids) && |data| == |links| && Live(links, kids, x)
    ensures NodesIn(links, vs)
  {
    StartOk(links, kids, x);
    Pre(links, kids, data, Passive, StartOwner(links, x), StartChain(links, kids, x), StartIndex(links, kids, x), "")
  }

  /**
   * A walk from `x` with a fresh walker and a visitor that only ever stops
   * makes the visits of `Preorder` through the first one that stops, and
   * ends stopped exactly when one does.
   */
  lemma FreshWalk(links: seq<Link>, kids: seq<seq<nat>>, data: seq<Attr>, fn: Visitor, x: nat)
    requires WellLinked(links, kids) && |data| == |links| && Live(links, kids, x)
    requires forall pa: Option<Attr>, a: Attr, path: string ::
      !fn(pa, a, path).skipChild && !fn(pa, a, path).skipSibling && fn(pa, a, path).recursive.None?
    ensures var P := Preorder(links, kids, data, x);
      var R := Start(links, kids, data, fn, Some(x), "", State(Fresh, []));
      R.visits == Through(Stopper(links, data, fn), P) && (R.flags.stopped <==> Halts(Stopper(links, data, fn), P))
  {
    StartOk(links, kids, x);
    var owner, chain, i := StartOwner(links, x), StartChain(links, kids, x), StartIndex(links, kids, x);
    WalkThrough(links, kids, data, fn, owner, chain, i, "", State(Fresh, []));
    PreWithoutSkips(links, kids, data, fn, Passive, owner, chain, i, "");
  }

  class Walker {
    var first: bool
    var recursive: bool
    var skipChild: bool
    var skipSibling: bool
    var skipVisit: bool
    var stopped: bool
    /** The visitor calls made so far, in order. */
    var visits: seq<Visit>

    function Current(): State
      reads this
    {
      State(Flags(first, recursive, skipChild, skipSibling, skipVisit, stopped), visits)
    }

    /** `NewWalker`: a recursive walker about to enter its first node. */
    constructor ()
      ensures Current() == State(Fresh, [])
    {
      first, recursive := true, true;
      skipChild, skipSibling, skipVisit, stopped := false, false, false, false;
      visits := [];
    }

    method Stop()
      modifies this`stopped
      ensures stopped
    {
      stopped := true;
    }

    method SetRecursive(r: bool)
      modifies this`recursive
      ensures recursive == r
    {
      recursive := r;
    }

    method SkipChild()
      modifies this`skipChild
      ensures skipChild
    {
      skipChild := true;
    }

    method SkipSibling()
      modifies this`skipSibling
      ensures skipSibling
    {
      skipSibling := true;
    }

    method SkipVisit()
      modifies this`skipVisit
      ensures skipVisit
    {
      skipVisit := true;
    }

    /** What the visitor armed, applied the way its calls to the setters would. */
    method Apply(a: Action)
      modifies this`recursive, this`skipChild, this`skipSibling, this`skipVisit, this`stopped
      ensures Current() == old(Current()).(flags := Arm(old(Current()).flags, a))
    {
      if a.stop { Stop(); }
      if a.skipChild { SkipChild(); }
      if a.skipSibling { SkipSibling(); }
      if a.skipVisit { SkipVisit(); }
      if a.recursive.Some? { SetRecursive(a.recursive.value); }
    }

    /** `Walk`: walks `node`, its subtree and its later siblings with an empty parent path. */
    method Walk(g: Tree, node: Ref, fn: Visitor)
      requires g.Valid() && (node.Some? ==> Live(g.links, g.kids, node.value))
      modifies this
      ensures Current() == Start(g.links, g.kids, g.data, fn, node, "", old(Current()))
    {
      WalkFrom(g, node, "", fn);
    }

    /** The walk the callers in rs start with a parent path of their own: `walk(node, parent)`. */
    method WalkFrom(g: Tree, node: Ref, parent: string, fn: Visitor)
      requires g.Valid() && (node.Some? ==> Live(g.links, g.kids, node.value))
      modifies this
      ensures Current() == Start(g.links, g.kids, g.data, fn, node, parent, old(Current()))
    {
      if node == None {
        return;
      }
      var x := node.value;
      StartOk(g.links, g.kids, x);
      assert NodeOk(g.links, g.kids, x);
      walk(g, node, parent, fn, StartOwner(g.links, x), StartChain(g.links, g.kids, x), StartIndex(g.links, g.kids, x));
    }

    /** The start of `walk` for node `x`: reset the skip flags unless first, then call the visitor unless skipped. */
    method Enter(g: Tree, x: nat, path: string, fn: Visitor)
      requires g.Valid() && x < |g.links|
      modifies this
      ensures Current() == Step(g.links, g.data, fn, x, path, old(Current()))
    {
      if !first {
        skipChild := false;
        skipSibling := false;
        skipVisit := false;
      }
      first := false;
      if !skipVisit {
        var a := fn(ParentAttr(g.links, g.data, x), g.data[x], path);
        visits := visits + [Visit(x, path)];
        Apply(a);
      }
    }

    /** `walk`: `node` is member `i` of `chain`, or nil when `i == |chain|`. */
    method walk(g: Tree, node: Ref, parent: string, fn: Visitor, ghost owner: int, ghost chain: seq<nat>, ghost i: nat)
      requires g.Valid() && ChainOk(g.links, owner, chain) && i <= |chain|
      requires node == (if i < |chain| then Some(chain[i]) else None)
      modifies this
      ensures Current() == Run(g.links, g.kids, g.data, fn, owner, chain, i, parent, old(Current()))
      decreases |g.links| - owner, |chain| - i, 1
    {
      if node == None || stopped {
        return;
      }
      visit(g, node.value, parent, fn, owner, chain, i);
      if !skipSibling {
        walk(g, g.links[node.value].sibling, parent, fn, owner, chain, i + 1);
      }
    }

    /** The part of `walk` for the node `x` itself: enter it, then walk its children when the gate allows. */
    method visit(g: Tree, x: nat, parent: string, fn: Visitor, ghost owner: int, ghost chain: seq<nat>, ghost i: nat)
      requires g.Valid() && ChainOk(g.links, owner, chain) && i < |chain| && x == chain[i] && !stopped
      modifies this
      ensures Current() == Node(g.links, g.kids, g.data, fn, owner, chain, i, parent, old(Current()))
      ensures i + 1 <= |chain| && g.links[x].sibling == (if i + 1 < |chain| then Some(chain[i + 1]) else None)
      decreases |g.links| - owner, |chain| - i, 0
    {
      ghost var st0 := Current();
      var path := Join(parent, g.links[x].name);
      NodeUnfold(g.links, g.kids, g.data, fn, owner, chain, i, parent, st0);
      Enter(g, x, path, fn);
      if Descends(g.data[x], Current().flags) {
        assert NodeOk(g.links, g.kids, x);
        walk(g, g.links[x].child, path, fn, x, g.kids[x], 0);
      }
    }
  }
}
