/**
 * The step every syscall layer takes to create a node once the checks have
 * passed: `parent.Make(name)` followed by `SetPerm(mode)` on the new node
 * (rs/call.go, nugo/call.go, sys/system.go, sys/syscall.go).
 */
module Making {
  import opened Wrappers
  import opened Graphs
  import opened Modes
  import opened Nodes
  import Paths
  import Lists

  /**
   * The modes the systems' setup leaves: the root's (a sorted, distinct
   * directory with 01755), a directory's below it with 01755, 00755 or
   * 07777, and an installed command's with 00755.
   */
  const RootMode: NodeMode := ModeDir | ModeRoot | ModeType | 0x3ED
  const BinMode: NodeMode := ModeDir | ModeType | 0x3ED
  const EtcMode: NodeMode := ModeDir | ModeType | 0x1ED
  const TmpMode: NodeMode := ModeDir | ModeType | 0xFFF
  const CmdMode: NodeMode := ModeType | 0x1ED

  /** The mode a child of a node with mode `m` has after `Make` and `SetPerm(perm)`. */
  function MadeMode(m: NodeMode, perm: NodeMode): NodeMode
  {
    WithPerm(Without(m, ModeRoot), perm)
  }

  /**
   * A permission within `ModePerm` becomes the new node's permission bits
   * exactly; the directory, sort and distinct flags come from the parent,
   * and the node is never a root.
   */
  lemma MadeModeBits(m: NodeMode, perm: NodeMode)
    requires perm & !ModePerm == 0
    ensures MadeMode(m, perm) & ModePerm == perm
    ensures MadeMode(m, perm) & ModeRoot == 0
    ensures MadeMode(m, perm) & ModeDir == m & ModeDir
    ensures MadeMode(m, perm) & ModeType == m & ModeType
  {
    WithoutRootKeepsFlags(m);
    SetPermKeepsFlags(Without(m, ModeRoot), perm);
    FlagLayout();
  }

  /**
   * `IsDir` and `IsRoot` of a node made under a parent `pa` and given
   * `perm`, which `SetPerm` does not confine to the permission bits: a
   * directory when its parent is one or `perm` carries the flag, a root
   * only when `perm` carries that flag; with `ModeDir` cleared afterwards,
   * never a directory.
   */
  lemma MadeKind(pa: Attr, perm: NodeMode, src: Source)
    ensures var a := Attr(pa.uid, pa.gid, MadeMode(pa.mode, perm), src);
      (IsDir(a) <==> IsDir(pa) || perm & ModeDir != 0) && (IsRoot(a) <==> perm & ModeRoot != 0)
    ensures var c := Attr(pa.uid, pa.gid, Without(MadeMode(pa.mode, perm), ModeDir), src);
      !IsDir(c) && (IsRoot(c) <==> perm & ModeRoot != 0)
  {
    FlagLayout();
  }

  /** Clearing `ModeDir` afterwards, as `Install` and `Create` do, leaves a non-directory with the same permission bits. */
  lemma FileModeBits(m: NodeMode, perm: NodeMode)
    requires perm & !ModePerm == 0
    ensures Without(MadeMode(m, perm), ModeDir) & ModeDir == 0
    ensures Without(MadeMode(m, perm), ModeDir) & ModePerm == perm
    ensures Without(MadeMode(m, perm), ModeDir) & ModeRoot == 0
    ensures Without(MadeMode(m, perm), ModeDir) & ModeType == m & ModeType
  {
    MadeModeBits(m, perm);
    FlagLayout();
  }

  /**
   * The arena after node `n` with attributes `a` was made under `p` and
   * named `name`: exactly one node more, hanging below `p` and placed
   * among `p`'s children as `Add` places it; every older node keeps its
   * name, parent and attributes, and every other node its children.
   */
  ghost predicate MadeUnder(links0: seq<Link>, kids0: seq<seq<nat>>, data0: seq<Attr>,
                            links: seq<Link>, kids: seq<seq<nat>>, data: seq<Attr>,
                            p: nat, name: string, n: nat, a: Attr)
  {
    WellLinked(links0, kids0) && WellLinked(links, kids) && p < |links0| == |data0|
    && n == |links0| && |links| == n + 1 && data == data0 + [a]
    && links[n].name == Paths.Escape(name) && links[n].parent == Some(p) && kids[n] == [] && n in kids[p]
    && (forall y | 0 <= y < n :: links[y].name == links0[y].name && links[y].parent == links0[y].parent)
    && (forall y | 0 <= y < n && y != p :: kids[y] == kids0[y])
    && (ChainFacts(links0, kids0, p);
        ChainFacts(links, kids, p);
        var m := Without(data0[p].mode, ModeRoot);
        NamesOf(links, kids[p]) == AddNames(NamesOf(links0, kids0[p]), Paths.Escape(name), DistinctMode(m), SortMode(m)))
  }

  /** What `MadeUnder` says of names, parents, children and attributes, without the linking invariants. */
  ghost predicate MadeFacts(links0: seq<Link>, kids0: seq<seq<nat>>, data0: seq<Attr>,
                            links: seq<Link>, kids: seq<seq<nat>>, data: seq<Attr>,
                            p: nat, name: string, n: nat, a: Attr)
  {
    p < |links0| == |data0| == |kids0| && n == |links0| && |links| == |kids| == n + 1 && data == data0 + [a]
    && links[n].name == Paths.Escape(name) && links[n].parent == Some(p) && kids[n] == [] && n in kids[p]
    && (forall y | 0 <= y < n :: links[y].name == links0[y].name && links[y].parent == links0[y].parent)
    && (forall y | 0 <= y < n && y != p :: kids[y] == kids0[y])
    && (forall k | 0 <= k < |kids0[p]| :: kids0[p][k] < |links0|)
    && (forall k | 0 <= k < |kids[p]| :: kids[p][k] < |links|)
    && var m := Without(data0[p].mode, ModeRoot);
       NamesOf(links, kids[p]) == AddNames(NamesOf(links0, kids0[p]), Paths.Escape(name), DistinctMode(m), SortMode(m))
  }

  lemma MadeUnderFacts(links0: seq<Link>, kids0: seq<seq<nat>>, data0: seq<Attr>,
                       links: seq<Link>, kids: seq<seq<nat>>, data: seq<Attr>,
                       p: nat, name: string, n: nat, a: Attr)
    requires MadeUnder(links0, kids0, data0, links, kids, data, p, name, n, a)
    ensures MadeFacts(links0, kids0, data0, links, kids, data, p, name, n, a)
  {
    ChainFacts(links0, kids0, p);
    ChainFacts(links, kids, p);
  }

  /** Node `y` of the arena is named `names[y]` and hangs below `parents[y]`. */
  ghost predicate Shaped(links: seq<Link>, names: seq<string>, parents: seq<Ref>)
  {
    |links| == |names| == |parents|
    && forall y | 0 <= y < |links| :: links[y].name == names[y] && links[y].parent == parents[y]
  }

  /** A node made under `p` extends the arena's shape by its name and parent. */
  lemma ShapedGrows(links0: seq<Link>, kids0: seq<seq<nat>>, data0: seq<Attr>,
                    links: seq<Link>, kids: seq<seq<nat>>, data: seq<Attr>,
                    p: nat, name: string, n: nat, a: Attr, names: seq<string>, parents: seq<Ref>)
    requires MadeFacts(links0, kids0, data0, links, kids, data, p, name, n, a) && Shaped(links0, names, parents)
    ensures Shaped(links, names + [Paths.Escape(name)], parents + [Some(p)])
  {
  }

  /** A chain whose names are those `Add` leaves under a parent without children holds one node, the one added. */
  lemma OnlyChild(links: seq<Link>, chain: seq<nat>, name: string, distinct: bool, sorted: bool, n: nat)
    requires forall k | 0 <= k < |chain| :: chain[k] < |links|
    requires NamesOf(links, chain) == AddNames([], name, distinct, sorted) && n in chain
    ensures chain == [n]
  {
    assert Lists.RemoveFirst([], name) == [];
    assert Lists.InsertAt([], 0, name) == [name];
    assert |chain| == 1;
  }

  /** A node made under a parent without children becomes its only child. */
  lemma MadeFirstChild(links0: seq<Link>, kids0: seq<seq<nat>>, data0: seq<Attr>,
                       links: seq<Link>, kids: seq<seq<nat>>, data: seq<Attr>,
                       p: nat, name: string, n: nat, a: Attr)
    requires MadeFacts(links0, kids0, data0, links, kids, data, p, name, n, a) && kids0[p] == []
    ensures kids == (kids0 + [[]])[p := [n]]
  {
    var m := Without(data0[p].mode, ModeRoot);
    assert NamesOf(links0, kids0[p]) == [];
    OnlyChild(links, kids[p], Paths.Escape(name), DistinctMode(m), SortMode(m), n);
    var want := (kids0 + [[]])[p := [n]];
    assert |kids| == |want|;
    forall y | 0 <= y < |kids|
      ensures kids[y] == want[y]
    {
      if y == n {
        assert want[y] == [];
      } else if y != p {
        assert want[y] == kids0[y];
      }
    }
  }

  /** `Make(name)` on `p`, then `SetPerm(perm)` on the new node. */
  method MakeWithPerm(g: Tree, p: nat, name: string, perm: NodeMode) returns (n: nat)
    requires g.Valid() && p < |g.links|
    modifies g
    ensures g.Valid()
    ensures var pa := old(g.data[p]);
      MadeUnder(old(g.links), old(g.kids), old(g.data), g.links, g.kids, g.data, p, name, n,
                Attr(pa.uid, pa.gid, MadeMode(pa.mode, perm), Nil))
  {
    ChildIndices(g, p);
    n := Make(g, p, name);
    SetPerm(g, n, perm);
    ChildIndices(g, p);
  }

  /** Rewriting only the new node's attributes keeps the record of what was made, with the new attributes. */
  lemma Remade(links0: seq<Link>, kids0: seq<seq<nat>>, data0: seq<Attr>, links: seq<Link>, kids: seq<seq<nat>>,
               data1: seq<Attr>, data: seq<Attr>, p: nat, name: string, n: nat, a1: Attr, a: Attr)
    requires MadeUnder(links0, kids0, data0, links, kids, data1, p, name, n, a1)
    requires data == data1[n := a]
    ensures MadeUnder(links0, kids0, data0, links, kids, data, p, name, n, a)
  {
    assert data == data0 + [a];
  }

  /** `Make` and `SetPerm`, then `SetResource(src)` and `UnsetMode(ModeDir)` on the new node, as `Install` does. */
  method MakeFileWithPerm(g: Tree, p: nat, name: string, perm: NodeMode, src: Source) returns (n: nat)
    requires g.Valid() && p < |g.links|
    modifies g
    ensures g.Valid()
    ensures var pa := old(g.data[p]);
      MadeUnder(old(g.links), old(g.kids), old(g.data), g.links, g.kids, g.data, p, name, n,
                Attr(pa.uid, pa.gid, Without(MadeMode(pa.mode, perm), ModeDir), src))
  {
    ghost var links0, kids0, data0 := g.links, g.kids, g.data;
    n := MakeWithPerm(g, p, name, perm);
    ghost var data1 := g.data;
    SetSource(g, n, src);
    UnsetMode(g, n, ModeDir);
    var pa := data0[p];
    Remade(links0, kids0, data0, g.links, g.kids, data1, g.data, p, name, n,
           Attr(pa.uid, pa.gid, MadeMode(pa.mode, perm), Nil), Attr(pa.uid, pa.gid, Without(MadeMode(pa.mode, perm), ModeDir), src));
  }
}
