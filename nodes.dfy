/**
 * The nodes of node.go: each node of the arena carries an owner, a group, a
 * mode and a source; `Add` links a new child in according to the parent's
 * mode, and the setters rewrite a node's attributes in place.
 */
module Nodes {
  import opened Wrappers
  import opened Lists
  import opened Lexical
  import opened Modes
  import opened Seals
  import opened Graphs
  import Paths

  /** What a node holds: nothing, bytes, or a command that can be run. */
  datatype Source = Nil | Bytes(content: seq<bv8>) | Program(command: string)

  /** The source implements `Executable`. */
  predicate Executable(s: Source)
  {
    s.Program?
  }

  /** The dynamic type `%T` prints for a source that is not executable. */
  function TypeName(s: Source): string
  {
    match s
    case Nil => "<nil>"
    case Bytes(_) => "[]uint8"
    case Program(c) => c
  }

  /** The non-link fields of a node. */
  datatype Attr = Attr(uid: int, gid: int, mode: NodeMode, src: Source)

  /** The arena of nodes. */
  type Tree = Graph<Attr>

  /** `Seal`: the access-control part of a node. */
  function SealOf(a: Attr): Seal
  {
    Seal(a.uid, a.gid, a.mode)
  }

  predicate IsDir(a: Attr)
  {
    a.mode & ModeDir != 0
  }

  predicate IsRoot(a: Attr)
  {
    a.mode & ModeRoot != 0
  }

  /** `SetPerm`'s arithmetic: the permission bits come from `perm`, every other bit from `mode` or `perm`. */
  function WithPerm(mode: NodeMode, perm: NodeMode): (r: NodeMode)
    ensures r & ModePerm == perm & ModePerm
    ensures r & !ModePerm == (mode | perm) & !ModePerm
  {
    (mode & !ModePerm) | perm
  }

  /** A permission within `ModePerm` replaces exactly the 12 permission bits and keeps every flag. */
  lemma SetPermKeepsFlags(mode: NodeMode, perm: NodeMode)
    requires perm & !ModePerm == 0
    ensures WithPerm(mode, perm) & !ModePerm == mode & !ModePerm
    ensures WithPerm(mode, perm) & ModePerm == perm
    ensures WithPerm(mode, perm) & ModeDir == mode & ModeDir && WithPerm(mode, perm) & ModeRoot == mode & ModeRoot
    ensures WithPerm(mode, perm) & ModeType == mode & ModeType
  {
    FlagLayout();
  }

  /** `UnsetMode`'s arithmetic: the bits of `mask` cleared, all others kept. */
  function Without(mode: NodeMode, mask: NodeMode): (r: NodeMode)
    ensures r & mask == 0
    ensures r & !mask == mode & !mask
  {
    mode & !mask
  }

  /** Clearing `ModeRoot` keeps the directory, sort and distinct flags. */
  lemma WithoutRootKeepsFlags(mode: NodeMode)
    ensures Without(mode, ModeRoot) & ModeRoot == 0
    ensures Without(mode, ModeRoot) & ModeDir == mode & ModeDir
    ensures Without(mode, ModeRoot) & ModeSort == mode & ModeSort
    ensures Without(mode, ModeRoot) & ModeDistinct == mode & ModeDistinct
    ensures Without(mode, ModeRoot) & ModePerm == mode & ModePerm
  {
  }

  /** What `Add` gives a new child: the parent's owner, group and mode without `ModeRoot`. */
  function Inherit(parent: Attr, child: Attr): Attr
  {
    Attr(parent.uid, parent.gid, Without(parent.mode, ModeRoot), child.src)
  }

  predicate DistinctMode(mode: NodeMode)
  {
    mode & ModeDistinct == ModeDistinct
  }

  predicate SortMode(mode: NodeMode)
  {
    mode & ModeSort == ModeSort
  }

  /**
   * The child names after adding a node named `name`: with `distinct` the
   * first child of that name goes first; with `sorted` the name goes to its
   * insertion point, otherwise to the end.
   */
  function AddNames(names: seq<string>, name: string, distinct: bool, sorted: bool): seq<string>
  {
    var kept := if distinct then RemoveFirst(names, name) else names;
    if sorted then InsertAt(kept, InsertionPoint(kept, name), name) else kept + [name]
  }

  /** The same change on the chain of child nodes, `n` being the added node. */
  function AddChain(chain: seq<nat>, names: seq<string>, name: string, n: nat, distinct: bool, sorted: bool): seq<nat>
    requires |chain| == |names|
  {
    var kept := if distinct then Kept(chain, names, name) else chain;
    var keptNames := if distinct then RemoveFirst(names, name) else names;
    if sorted then InsertAt(kept, InsertionPoint(keptNames, name), n) else kept + [n]
  }

  /** The names after adding several nodes in turn. */
  function AddAllNames(names: seq<string>, adds: seq<string>, distinct: bool, sorted: bool): seq<string>
  {
    if adds == [] then names
    else AddNames(AddAllNames(names, adds[..|adds| - 1], distinct, sorted), adds[|adds| - 1], distinct, sorted)
  }

  lemma RemoveAtSorted(names: seq<string>, i: nat)
    requires Sorted(names) && i < |names|
    ensures Sorted(RemoveAt(names, i))
  {
    var r := RemoveAt(names, i);
    forall a, b | 0 <= a < b < |r| ensures !Less(r[b], r[a]) {
      var a' := if a < i then a else a + 1;
      var b' := if b < i then b else b + 1;
      assert r[a] == names[a'] && r[b] == names[b'];
    }
  }

  /** In distinct mode the children keep pairwise-different names, and the added name is among them. */
  lemma AddNamesDistinct(names: seq<string>, name: string, sorted: bool)
    requires NoDup(names)
    ensures NoDup(AddNames(names, name, true, sorted)) && name in AddNames(names, name, true, sorted)
  {
    var kept := RemoveFirst(names, name);
    RemoveFirstNoDup(names, name);
    if sorted {
      InsertNoDup(kept, InsertionPoint(kept, name), name);
    } else {
      AppendNoDup(kept, name);
    }
  }

  /** In sorted mode the children stay ordered by name. */
  lemma AddNamesSorted(names: seq<string>, name: string, distinct: bool)
    requires Sorted(names)
    ensures Sorted(AddNames(names, name, distinct, true))
  {
    var kept := if distinct then RemoveFirst(names, name) else names;
    if distinct && FirstIndex(names, name) < |names| {
      RemoveAtSorted(names, FirstIndex(names, name));
    }
    InsertKeepsSorted(kept, name);
  }

  /** A sorted, non-distinct add puts the new name after every child of the same name. */
  lemma AddNamesAfterEqual(names: seq<string>, name: string, k: nat)
    requires Sorted(names) && k < |names| && names[k] == name
    ensures var ip := InsertionPoint(names, name);
      k < ip && AddNames(names, name, false, true) == InsertAt(names, ip, name)
  {
    EqualNamesStayInFront(names, name, k);
  }

  /** An unsorted add keeps the existing children in order and puts the new one last. */
  lemma AddNamesAppends(names: seq<string>, name: string, distinct: bool)
    ensures var r := AddNames(names, name, distinct, false);
      |r| > 0 && r[|r| - 1] == name
      && r[..|r| - 1] == (if distinct then RemoveFirst(names, name) else names)
  {
  }

  /** A distinct add replaces: one child of the name before, exactly one after, all others kept. */
  lemma AddNamesReplaces(names: seq<string>, name: string, sorted: bool)
    ensures multiset(AddNames(names, name, true, sorted)) == multiset(names) - multiset{name} + multiset{name}
  {
    var kept := RemoveFirst(names, name);
    RemoveFirstMultiset(names, name);
    if name !in names {
      assert multiset(names)[name] == 0;
      assert multiset(names) - multiset{name} == multiset(names);
    }
    assert multiset(kept) == multiset(names) - multiset{name};
    if sorted {
      InsertAtMultiset(kept, InsertionPoint(kept, name), name);
    }
  }

  lemma ChildIndices(g: Tree, p: nat)
    requires g.Valid() && p < |g.links|
    ensures forall k | 0 <= k < |g.kids[p]| :: g.kids[p][k] < |g.links|
    ensures g.ChildNames(p) == NamesOf(g.links, g.kids[p])
  {
    ChainFacts(g.links, g.kids, p);
  }

  /** `NewNode`: a detached node whose name is `name` escaped, with no owner, mode or source. */
  method NewNode(g: Tree, name: string) returns (n: nat)
    requires g.Valid()
    modifies g
    ensures g.Valid() && n == old(|g.links|) && g.Detached(n)
    ensures g.links == old(g.links) + [Link(Paths.Escape(name), None, None, None)]
    ensures g.data == old(g.data) + [Attr(0, 0, 0, Nil)]
    ensures g.kids == old(g.kids) + [[]]
  {
    n := g.NewNode(Paths.Escape(name), Attr(0, 0, 0, Nil));
  }

  /** `NewRoot`: a parentless directory root named by the path as given, with no owner. */
  method NewRoot(g: Tree, abspath: string) returns (n: nat)
    requires g.Valid()
    modifies g
    ensures g.Valid() && n == old(|g.links|) && g.Detached(n)
    ensures g.links == old(g.links) + [Link(abspath, None, None, None)]
    ensures g.data == old(g.data) + [Attr(0, 0, ModeDir | ModeRoot, Nil)]
    ensures g.kids == old(g.kids) + [[]]
  {
    n := g.NewNode(abspath, Attr(0, 0, ModeDir | ModeRoot, Nil));
  }

  /** `NewRootNode`: `NewRoot` with the extra `mode` bits set. */
  method NewRootNode(g: Tree, abspath: string, mode: NodeMode) returns (n: nat)
    requires g.Valid()
    modifies g
    ensures g.Valid() && n == old(|g.links|) && g.Detached(n)
    ensures g.links == old(g.links) + [Link(abspath, None, None, None)]
    ensures g.data == old(g.data) + [Attr(0, 0, ModeDir | ModeRoot | mode, Nil)]
    ensures g.kids == old(g.kids) + [[]]
  {
    n := NewRoot(g, abspath);
    g.data := g.data[n := g.data[n].(mode := g.data[n].mode | mode)];
  }

  /** The chain left after `delChild(name)`: the first child of that name cut out, if there is one. */
  function Kept(chain: seq<nat>, names: seq<string>, name: string): seq<nat>
    requires |chain| == |names|
  {
    var i := FirstIndex(names, name);
    if i < |chain| then RemoveAt(chain, i) else chain
  }

  /** The distinct-mode step of `Add`: `delChild` of the new node's name, after which `n` may still join. */
  method Evict(g: Tree, p: nat, n: nat)
    requires g.Valid() && Joinable(g.links, g.kids, p, n)
    modifies g`links, g`kids
    ensures g.Valid() && Joinable(g.links, g.kids, p, n) && SameNodes(g.links, old(g.links))
    ensures g.kids == old(g.kids)[p := Kept(old(g.kids[p]), old(g.ChildNames(p)), old(g.links[n].name))]
    ensures g.ChildNames(p) == RemoveFirst(old(g.ChildNames(p)), old(g.links[n].name))
  {
    ghost var names0 := g.ChildNames(p);
    ghost var chain0 := g.kids[p];
    ghost var links0 := g.links;
    ChildIndices(g, p);
    var name := g.links[n].name;
    var _ := g.DelChild(p, name);
    ghost var i := FirstIndex(names0, name);
    if i < |chain0| {
      NamesOfRemoveAt(links0, chain0, i);
      assert forall k | 0 <= k < |g.kids[p]| :: g.kids[p][k] in chain0;
    }
    ChildIndices(g, p);
    NamesOfSame(g.links, links0, g.kids[p]);
  }

  /** The ordering step of `Add`: `insert` in sorted mode, `append` otherwise. */
  method Place(g: Tree, p: nat, n: nat, sorted: bool)
    requires g.Valid() && Joinable(g.links, g.kids, p, n)
    modifies g`links, g`kids
    ensures g.Valid() && SameNodes(g.links, old(g.links))
    ensures var name, names := old(g.links[n].name), old(g.ChildNames(p));
      g.kids == old(g.kids)[p := if sorted then InsertAt(old(g.kids[p]), InsertionPoint(names, name), n) else old(g.kids[p]) + [n]]
    ensures var name, names := old(g.links[n].name), old(g.ChildNames(p));
      g.ChildNames(p) == if sorted then InsertAt(names, InsertionPoint(names, name), name) else names + [name]
  {
    ghost var chain0 := g.kids[p];
    ghost var links0 := g.links;
    ChildIndices(g, p);
    if sorted {
      ghost var ip := g.Insert(p, n);
      NamesOfInsertAt(links0, chain0, ip, n);
    } else {
      g.Append(p, n);
      NamesOfAppend(links0, chain0, n);
    }
    ChildIndices(g, p);
    NamesOfSame(g.links, links0, g.kids[p]);
  }

  /**
   * `Add` of a detached node `n` to `p`: `n` inherits owner, group and mode
   * (without `ModeRoot`) and gets `p` as parent; in distinct mode the first
   * child of the same name is cut out first; in sorted mode `n` goes to its
   * insertion point, otherwise it becomes the last child.
   */
  method Add(g: Tree, p: nat, n: nat)
    requires g.Valid() && g.Detached(n) && p < n
    modifies g
    ensures g.Valid()
    ensures g.data == old(g.data)[n := Inherit(old(g.data[p]), old(g.data[n]))]
    ensures g.links[n].parent == Some(p)
    ensures |g.links| == old(|g.links|) && NamesKept(old(g.links), g.links)
    ensures ParentsKept(old(g.links), g.links, n)
    ensures var m := g.data[n].mode;
      g.kids == old(g.kids)[p := AddChain(old(g.kids[p]), old(g.ChildNames(p)), old(g.links[n].name), n, DistinctMode(m), SortMode(m))]
    ensures var m := g.data[n].mode;
      g.ChildNames(p) == AddNames(old(g.ChildNames(p)), old(g.links[n].name), DistinctMode(m), SortMode(m))
  {
    ghost var links0 := g.links;
    Adopt(g, p, n);
    var mode := g.data[n].mode;
    ghost var links1 := g.links;
    Settle(g, p, n, mode & ModeDistinct == ModeDistinct, mode & ModeSort == ModeSort);
    KeptThenSame(links0, links1, g.links, n);
  }

  /** The linking steps of `Add` for a node that already has `p` as parent: `delChild` in distinct mode, then `insert` or `append`. */
  method Settle(g: Tree, p: nat, n: nat, distinct: bool, sorted: bool)
    requires g.Valid() && Joinable(g.links, g.kids, p, n)
    modifies g`links, g`kids
    ensures g.Valid() && SameNodes(g.links, old(g.links))
    ensures g.kids == old(g.kids)[p := AddChain(old(g.kids[p]), old(g.ChildNames(p)), old(g.links[n].name), n, distinct, sorted)]
    ensures g.ChildNames(p) == AddNames(old(g.ChildNames(p)), old(g.links[n].name), distinct, sorted)
  {
    if distinct {
      Evict(g, p, n);
    }
    Place(g, p, n, sorted);
  }

  /** The first step of `Add`: `n` takes the parent's owner, group and mode without `ModeRoot`, and `p` as parent. */
  method Adopt(g: Tree, p: nat, n: nat)
    requires g.Valid() && g.Detached(n) && p < n
    modifies g`data, g`links
    ensures g.Valid() && Joinable(g.links, g.kids, p, n)
    ensures g.data == old(g.data)[n := Inherit(old(g.data[p]), old(g.data[n]))]
    ensures g.links == old(g.links)[n := old(g.links[n]).(parent := Some(p))]
    ensures NamesKept(old(g.links), g.links) && g.ChildNames(p) == old(g.ChildNames(p))
  {
    ghost var names0 := g.ChildNames(p);
    var a := g.data[p];
    g.data := g.data[n := Attr(a.uid, a.gid, Without(a.mode, ModeRoot), g.data[n].src)];
    ghost var links0 := g.links;
    g.SetParent(n, p);
    ChildIndices(g, p);
    NamesOfSame(g.links, links0, g.kids[p]);
  }

  lemma KeptThenSame(a: seq<Link>, b: seq<Link>, c: seq<Link>, n: nat)
    requires NamesKept(a, b) && |a| == |b| && SameNodes(b, c) && ParentsKept(a, b, n)
    ensures NamesKept(a, c) && |a| == |c| && ParentsKept(a, c, n)
  {
  }

  /** Every node of `a` but `n` has the same parent in `b`. */
  ghost predicate ParentsKept(a: seq<Link>, b: seq<Link>, n: nat)
  {
    |a| <= |b| && forall y | 0 <= y < |a| && y != n :: b[y].parent == a[y].parent
  }

  /** `Make`: a new node named `name` (escaped) added to `p`. */
  method Make(g: Tree, p: nat, name: string) returns (n: nat)
    requires g.Valid() && p < |g.links|
    modifies g
    ensures g.Valid() && n == old(|g.links|) && n < |g.links| == n + 1
    ensures g.links[n].name == Paths.Escape(name) && g.links[n].parent == Some(p)
    ensures g.data == old(g.data) + [Inherit(old(g.data[p]), Attr(0, 0, 0, Nil))]
    ensures NamesKept(old(g.links), g.links)
    ensures forall y | 0 <= y < n :: g.links[y].parent == old(g.links[y].parent)
    ensures forall y | 0 <= y < n && y != p :: g.kids[y] == old(g.kids[y])
    ensures var m := Without(old(g.data[p].mode), ModeRoot);
      g.ChildNames(p) == AddNames(old(g.ChildNames(p)), Paths.Escape(name), DistinctMode(m), SortMode(m))
    ensures n in g.kids[p] && g.kids[n] == []
  {
    ghost var names0 := g.ChildNames(p);
    n := NewNode(g, name);
    ChildIndices(g, p);
    assert g.ChildNames(p) == names0;
    Add(g, p, n);
    AddChainHas(old(g.kids[p]), names0, Paths.Escape(name), n, DistinctMode(g.data[n].mode), SortMode(g.data[n].mode));
  }

  lemma AddChainHas(chain: seq<nat>, names: seq<string>, name: string, n: nat, distinct: bool, sorted: bool)
    requires |chain| == |names|
    ensures n in AddChain(chain, names, name, n, distinct, sorted)
  {
    var kept := if distinct then Kept(chain, names, name) else chain;
    var keptNames := if distinct then RemoveFirst(names, name) else names;
    if sorted {
      assert AddChain(chain, names, name, n, distinct, sorted)[InsertionPoint(keptNames, name)] == n;
    } else {
      assert AddChain(chain, names, name, n, distinct, sorted)[|kept|] == n;
    }
  }

  /** `MakeAll`: `Make` for each name in turn, returning the new nodes in that order. */
  method MakeAll(g: Tree, p: nat, names: seq<string>) returns (nodes: seq<nat>)
    requires g.Valid() && p < |g.links|
    modifies g
    ensures g.Valid() && |nodes| == |names| && |g.links| == old(|g.links|) + |names|
    ensures forall k | 0 <= k < |nodes| :: nodes[k] == old(|g.links|) + k
    ensures NamedAs(g.links, old(|g.links|), EscapeAll(names))
    ensures g.data[p] == old(g.data[p])
    ensures var m := Without(old(g.data[p].mode), ModeRoot);
      g.ChildNames(p) == AddAllNames(old(g.ChildNames(p)), EscapeAll(names), DistinctMode(m), SortMode(m))
  {
    ghost var names0 := g.ChildNames(p);
    ghost var pa := g.data[p];
    ghost var m := Without(pa.mode, ModeRoot);
    ghost var start := |g.links|;
    nodes := [];
    var i := 0;
    while i < |names|
      invariant 0 <= i <= |names| && |nodes| == i
      invariant g.Valid() && p < |g.links| && |g.links| == start + i && g.data[p] == pa
      invariant forall k | 0 <= k < i :: nodes[k] == start + k
      invariant NamedAs(g.links, start, EscapeAll(names[..i]))
      invariant g.ChildNames(p) == AddAllNames(names0, EscapeAll(names[..i]), DistinctMode(m), SortMode(m))
    {
      EscapeAllSnoc(names, i);
      var n := MakeNext(g, p, names[i], names0, EscapeAll(names[..i]), m, start);
      nodes := nodes + [n];
      i := i + 1;
    }
    assert names[..i] == names;
  }

  lemma EscapeAllSnoc(names: seq<string>, i: nat)
    requires i < |names|
    ensures EscapeAll(names[..i + 1]) == EscapeAll(names[..i]) + [Paths.Escape(names[i])]
  {
  }

  /** One round of `MakeAll`'s loop: `Make`, with the names made so far carried along. */
  method MakeNext(g: Tree, p: nat, name: string, ghost names0: seq<string>, ghost esc: seq<string>, ghost m: NodeMode, ghost start: nat)
    returns (n: nat)
    requires g.Valid() && p < |g.links| && m == Without(g.data[p].mode, ModeRoot)
    requires NamedAs(g.links, start, esc) && start + |esc| == |g.links|
    requires g.ChildNames(p) == AddAllNames(names0, esc, DistinctMode(m), SortMode(m))
    modifies g
    ensures g.Valid() && n == old(|g.links|) && |g.links| == n + 1 && g.data[p] == old(g.data[p])
    ensures NamedAs(g.links, start, esc + [Paths.Escape(name)])
    ensures g.ChildNames(p) == AddAllNames(names0, esc + [Paths.Escape(name)], DistinctMode(m), SortMode(m))
  {
    ghost var links0, data0, cn0 := g.links, g.data, g.ChildNames(p);
    ghost var e := Paths.Escape(name);
    n := Make(g, p, name);
    assert g.data[p] == data0[p];
    NamedAsGrows(links0, g.links, start, esc, e);
    AddAllNamesSnoc(names0, esc, e, DistinctMode(m), SortMode(m));
  }

  /** Every node of `a` keeps its name in `b`, which may have more nodes. */
  ghost predicate NamesKept(a: seq<Link>, b: seq<Link>)
  {
    |a| <= |b| && forall y | 0 <= y < |a| :: b[y].name == a[y].name
  }

  /** The nodes from `start` on are named `names`, in order. */
  ghost predicate NamedAs(links: seq<Link>, start: nat, names: seq<string>)
  {
    start + |names| <= |links| && forall k | 0 <= k < |names| :: links[start + k].name == names[k]
  }

  lemma NamedAsGrows(a: seq<Link>, b: seq<Link>, start: nat, names: seq<string>, x: string)
    requires NamedAs(a, start, names) && NamesKept(a, b) && start + |names| == |a| < |b| && b[|a|].name == x
    ensures NamedAs(b, start, names + [x])
  {
    forall k | 0 <= k < |names| + 1 ensures b[start + k].name == (names + [x])[k] {
      if k < |names| {
        assert a[start + k].name == names[k];
      }
    }
  }

  lemma AddAllNamesSnoc(names: seq<string>, adds: seq<string>, x: string, distinct: bool, sorted: bool)
    ensures AddAllNames(names, adds + [x], distinct, sorted) == AddNames(AddAllNames(names, adds, distinct, sorted), x, distinct, sorted)
  {
    assert (adds + [x])[..|adds|] == adds;
  }

  /** An add that does not deduplicate keeps every child and adds one of the name. */
  lemma AddNamesKeeps(names: seq<string>, name: string, sorted: bool)
    ensures multiset(AddNames(names, name, false, sorted)) == multiset(names) + multiset{name}
  {
    if sorted {
      var i := InsertionPoint(names, name);
      assert names == names[..i] + names[i..];
      assert multiset(InsertAt(names, i, name)) == multiset(names[..i]) + multiset{name} + multiset(names[i..]);
    }
  }

  /** Several adds without deduplication: the old children and one child per added name. */
  lemma {:induction false} AddAllNamesKeeps(names: seq<string>, adds: seq<string>, sorted: bool)
    ensures multiset(AddAllNames(names, adds, false, sorted)) == multiset(names) + multiset(adds)
  {
    if adds != [] {
      var init, x := adds[..|adds| - 1], adds[|adds| - 1];
      AddAllNamesKeeps(names, init, sorted);
      AddNamesKeeps(AddAllNames(names, init, false, sorted), x, sorted);
      assert adds == init + [x];
    }
  }

  /** Several adds in distinct mode: no duplicates, and exactly the names that were there or were added. */
  lemma {:induction false} AddAllNamesDistinct(names: seq<string>, adds: seq<string>, sorted: bool)
    requires NoDup(names)
    ensures var r := AddAllNames(names, adds, true, sorted);
      NoDup(r) && forall y :: y in r <==> y in names || y in adds
  {
    if adds != [] {
      var init, x := adds[..|adds| - 1], adds[|adds| - 1];
      assert adds == init + [x];
      AddAllNamesDistinct(names, init, sorted);
      var r0 := AddAllNames(names, init, true, sorted);
      AddNamesDistinct(r0, x, sorted);
      AddNamesReplaces(r0, x, sorted);
      ReplacedMembers(r0, AddNames(r0, x, true, sorted), x, names, init, adds);
    }
  }

  /**
   * A list holding the elements of `a`, with one copy of `x` taken out and
   * one put back, has the members of `a` and `x`: when `a` has those of
   * `names` and `init`, it has those of `names` and `init + [x]`.
   */
  lemma ReplacedMembers(a: seq<string>, b: seq<string>, x: string, names: seq<string>, init: seq<string>, adds: seq<string>)
    requires multiset(b) == multiset(a) - multiset{x} + multiset{x}
    requires adds == init + [x] && forall y :: y in a <==> y in names || y in init
    ensures forall y :: y in b <==> y in names || y in adds
  {
    forall y ensures y in b <==> y in names || y in adds {
      assert y in b <==> y in multiset(b);
      assert y in a <==> y in multiset(a);
      assert y in adds <==> y in init || y == x;
    }
  }

  /** Several adds in sorted mode keep the children ordered by name. */
  lemma {:induction false} AddAllNamesSorted(names: seq<string>, adds: seq<string>, distinct: bool)
    requires Sorted(names)
    ensures Sorted(AddAllNames(names, adds, distinct, true))
  {
    if adds != [] {
      AddAllNamesSorted(names, adds[..|adds| - 1], distinct);
      AddNamesSorted(AddAllNames(names, adds[..|adds| - 1], distinct, true), adds[|adds| - 1], distinct);
    }
  }

  /** The escaped form of each name. */
  function EscapeAll(names: seq<string>): (r: seq<string>)
    ensures |r| == |names| && forall k | 0 <= k < |names| :: r[k] == Paths.Escape(names[k])
  {
    seq(|names|, k requires 0 <= k < |names| => Paths.Escape(names[k]))
  }

  /** `SetPerm`: only the mode of `x` changes, to `WithPerm`. */
  method SetPerm(g: Tree, x: nat, perm: NodeMode)
    requires g.Valid() && x < |g.links|
    modifies g`data
    ensures g.Valid()
    ensures g.data == old(g.data)[x := old(g.data[x]).(mode := WithPerm(old(g.data[x].mode), perm))]
  {
    g.data := g.data[x := g.data[x].(mode := (g.data[x].mode & !ModePerm) | perm)];
  }

  /** `UnsetMode`: only the mode of `x` changes, losing the bits of `mask`. */
  method UnsetMode(g: Tree, x: nat, mask: NodeMode)
    requires g.Valid() && x < |g.links|
    modifies g`data
    ensures g.Valid()
    ensures g.data == old(g.data)[x := old(g.data[x]).(mode := Without(old(g.data[x].mode), mask))]
  {
    g.data := g.data[x := g.data[x].(mode := g.data[x].mode & !mask)];
  }

  /** `SetSeal`: owner, group and permission bits of `x` in one go. */
  method SetSeal(g: Tree, x: nat, uid: int, gid: int, perm: NodeMode)
    requires g.Valid() && x < |g.links|
    modifies g`data
    ensures g.Valid()
    ensures g.data == old(g.data)[x := Attr(uid, gid, WithPerm(old(g.data[x].mode), perm), old(g.data[x].src))]
  {
    g.data := g.data[x := g.data[x].(uid := uid, gid := gid)];
    SetPerm(g, x, perm);
  }

  /** `SetSource`: only the source of `x` changes. */
  method SetSource(g: Tree, x: nat, src: Source)
    requires g.Valid() && x < |g.links|
    modifies g`data
    ensures g.Valid()
    ensures g.data == old(g.data)[x := old(g.data[x]).(src := src)]
  {
    g.data := g.data[x := g.data[x].(src := src)];
  }

  /** `Copy`: a new node with the name, parent, owner, group and mode of `x`, but no child, sibling or source. */
  method Copy(g: Tree, x: nat) returns (c: nat)
    requires g.Valid() && x < |g.links|
    modifies g
    ensures g.Valid() && c == old(|g.links|)
    ensures g.links == old(g.links) + [Link(old(g.links[x].name), old(g.links[x].parent), None, None)]
    ensures g.data == old(g.data) + [old(g.data[x]).(src := Nil)]
    ensures g.kids == old(g.kids) + [[]]
  {
    c := g.Clone(x, g.data[x].(src := Nil));
  }

  /**
   * `AbsPath`: the name of a node without parent, otherwise its parent's
   * path joined with its name. Parents come before their children in the
   * arena, which the recursion relies on.
   */
  function PathOf(links: seq<Link>, x: nat): (r: string)
    requires x < |links|
    ensures links[x].name == "" || links[x].name[0] != '/' ==>
      |links[x].name| <= |r| && r[|r| - |links[x].name|..] == links[x].name
    decreases x
  {
    match links[x].parent
    case None => links[x].name
    case Some(q) => if q < x then Paths.Join(PathOf(links, q), links[x].name) else links[x].name
  }

  /** On a plain path, a node's absolute path starts with '/' and ends with a name, or is "/". */
  function AbsPath(g: Tree, x: nat): (r: string)
    reads g
    requires x < |g.links|
    ensures PlainPath(g.links, x) ==> r != "" && r[0] == '/' && (r == "/" || r[|r| - 1] != '/')
  {
    PlainPathClean(g.links, x);
    PathOf(g.links, x)
  }

  /**
   * The names from `x` up to its root spell a clean absolute path: the
   * root's name starts with '/' and, unless it is "/", does not end with
   * one; every name below it is non-empty and free of '/'.
   */
  ghost predicate PlainPath(links: seq<Link>, x: nat)
    requires x < |links|
    decreases x
  {
    match links[x].parent
    case None => var n := links[x].name; n != "" && n[0] == '/' && (n == "/" || n[|n| - 1] != '/')
    case Some(q) => q < x && links[x].name != "" && '/' !in links[x].name && PlainPath(links, q)
  }

  /** The `AbsPath` of a node on a plain path is itself a clean absolute path. */
  lemma {:induction false} PlainPathClean(links: seq<Link>, x: nat)
    requires x < |links|
    ensures PlainPath(links, x) ==> var p := PathOf(links, x); p != "" && p[0] == '/' && (p == "/" || p[|p| - 1] != '/')
    decreases x
  {
    match links[x].parent
    case None =>
    case Some(q) =>
      if PlainPath(links, x) {
        PlainPathClean(links, q);
        var p, n := PathOf(links, q), links[x].name;
        if p == "/" {
          assert Paths.Join(p, n) == p + n;
        } else {
          assert Paths.Join(p, n) == p + "/" + n;
        }
      }
  }

  /**
   * `path.Split` and `path.Dir` undo `AbsPath` one level: on a plain path,
   * a node's absolute path is its parent's followed by its name, and the
   * directory of it is the parent's absolute path.
   */
  lemma AbsPathSplits(links: seq<Link>, x: nat)
    requires x < |links| && PlainPath(links, x) && links[x].parent.Some?
    ensures var q := links[x].parent.value; var p := PathOf(links, q);
      q < x && Paths.Split(PathOf(links, x)) == (if p == "/" then p else p + "/", links[x].name)
      && Paths.Dir(PathOf(links, x)) == p
  {
    var q := links[x].parent.value;
    PlainPathClean(links, q);
    Paths.SplitJoin(PathOf(links, q), links[x].name);
  }
}
