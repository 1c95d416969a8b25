/**
 * The first-child/next-sibling node graph shared by node.go and
 * internal/node.go. Nodes live in an arena and are named by their index;
 * a `Link` holds the pointers of one node. Every node also carries a ghost
 * list of its children, in sibling order, which the pointers must spell out.
 */
module Graphs {
  import opened Wrappers
  import opened Lists
  import opened Lexical

  /** A pointer to a node: its index in the arena, or nil. */
  type Ref = Option<nat>

  datatype Link = Link(name: string, parent: Ref, child: Ref, sibling: Ref)

  /** The first element of a chain, or nil for an empty chain. */
  function Head(s: seq<nat>): Ref
  {
    if s == [] then None else Some(s[0])
  }

  /** The element after position `i` of a chain, or nil at its end. */
  function Next(s: seq<nat>, i: nat): Ref
    requires i < |s|
  {
    if i + 1 < |s| then Some(s[i + 1]) else None
  }

  /** Member `i` of `x`'s children points back to `x` and on to member `i + 1`. */
  ghost predicate InChain(links: seq<Link>, kids: seq<seq<nat>>, x: nat, i: nat)
    requires x < |kids| && i < |kids[x]|
  {
    var c := kids[x][i];
    c < |links| && links[c].parent == Some(x) && links[c].sibling == Next(kids[x], i)
  }

  /**
   * Node `x` is linked up correctly: its parent was allocated before it, a
   * node without parent has no sibling, its child pointer is the head of its
   * children and the children form a duplicate-free chain back to `x`.
   * A node cut out of a chain keeps its parent and sibling pointers, as the
   * Go code leaves them; nothing is asked of those.
   */
  ghost predicate NodeOk(links: seq<Link>, kids: seq<seq<nat>>, x: nat)
    requires x < |links| == |kids|
  {
    var l := links[x];
    (l.parent.Some? ==> l.parent.value < x)
    && (l.parent.None? ==> l.sibling.None?)
    && l.child == Head(kids[x])
    && NoDup(kids[x])
    && forall i | 0 <= i < |kids[x]| :: InChain(links, kids, x, i)
  }

  ghost predicate WellLinked(links: seq<Link>, kids: seq<seq<nat>>)
  {
    |links| == |kids| && forall x | 0 <= x < |links| :: NodeOk(links, kids, x)
  }

  /** A member of a chain has that chain's owner as parent, so lies after it. */
  lemma MemberAfterParent(links: seq<Link>, kids: seq<seq<nat>>, x: nat, i: nat)
    requires WellLinked(links, kids) && x < |links| && i < |kids[x]|
    ensures kids[x][i] < |links| && x < kids[x][i]
    ensures links[kids[x][i]].parent == Some(x)
  {
    assert NodeOk(links, kids, x);
    assert InChain(links, kids, x, i);
    assert NodeOk(links, kids, kids[x][i]);
  }

  /** Every member of `p`'s children lies after `p` and has `p` as parent. */
  lemma ChainFacts(links: seq<Link>, kids: seq<seq<nat>>, p: nat)
    requires WellLinked(links, kids) && p < |links|
    ensures forall k | 0 <= k < |kids[p]| :: kids[p][k] < |links| && p < kids[p][k] && links[kids[p][k]].parent == Some(p)
  {
    forall k | 0 <= k < |kids[p]|
      ensures kids[p][k] < |links| && p < kids[p][k] && links[kids[p][k]].parent == Some(p)
    {
      MemberAfterParent(links, kids, p, k);
    }
  }

  /**
   * Replacing the children of `p` by the chain `s`: when every node of `s`
   * already has `p` as parent, the new pointers spell `s`, and no other
   * pointer changed, the graph is well linked again.
   */
  lemma Rewire(links: seq<Link>, kids: seq<seq<nat>>, links': seq<Link>, p: nat, s: seq<nat>)
    requires WellLinked(links, kids) && p < |links| && |links'| == |links|
    requires NoDup(s)
    requires forall i | 0 <= i < |s| :: s[i] < |links| && links[s[i]].parent == Some(p)
    requires forall i | 0 <= i < |s| :: links'[s[i]].parent == Some(p) && links'[s[i]].sibling == Next(s, i)
    requires forall i | 0 <= i < |s| :: links'[s[i]].child == links[s[i]].child
    requires links'[p].child == Head(s)
    requires links'[p].parent == links[p].parent && links'[p].sibling == links[p].sibling
    requires forall y | 0 <= y < |links| && y != p && y !in s :: links'[y] == links[y]
    ensures WellLinked(links', kids[p := s])
  {
    var kids' := kids[p := s];
    forall x | 0 <= x < |links'|
      ensures NodeOk(links', kids', x)
    {
      assert NodeOk(links, kids, x);
      if x == p {
        forall i | 0 <= i < |s| ensures InChain(links', kids', x, i) { }
      } else {
        forall i | 0 <= i < |kids'[x]| ensures InChain(links', kids', x, i) {
          var c := kids[x][i];
          assert InChain(links, kids, x, i);
          assert forall k | 0 <= k < |s| :: s[k] != c;
          if c != p {
            assert links'[c] == links[c];
          }
        }
        if x in s {
          var k :| 0 <= k < |s| && s[k] == x;
          assert links[x].parent == Some(p);
        } else {
          assert links'[x] == links[x];
        }
      }
    }
  }

  /** The two links agree on every node's name and parent. */
  ghost predicate SameNodes(a: seq<Link>, b: seq<Link>)
  {
    |a| == |b| && forall y | 0 <= y < |a| :: a[y].name == b[y].name && a[y].parent == b[y].parent
  }

  /** `n`, whose parent is already `p`, may enter `p`'s chain. */
  ghost predicate Joinable(links: seq<Link>, kids: seq<seq<nat>>, p: nat, n: nat)
    requires WellLinked(links, kids)
  {
    p < n < |links| && links[n].parent == Some(p) && links[n].sibling == None && n !in kids[p]
  }

  /** Splicing `n` in right after member `j`: `n` takes that member's sibling and becomes it. */
  lemma InsertAfterOk(links: seq<Link>, kids: seq<seq<nat>>, p: nat, j: nat, n: nat)
    requires WellLinked(links, kids) && Joinable(links, kids, p, n) && j < |kids[p]|
    ensures kids[p][j] < |links| && kids[p][j] != n
    ensures var c := kids[p][j];
      var links2 := links[n := links[n].(sibling := links[c].sibling)][c := links[c].(sibling := Some(n))];
      WellLinked(links2, kids[p := InsertAt(kids[p], j + 1, n)]) && SameNodes(links2, links)
  {
    MemberAfterParent(links, kids, p, j);
    var c := kids[p][j];
    var links2 := links[n := links[n].(sibling := links[c].sibling)][c := links[c].(sibling := Some(n))];
    var s := InsertAt(kids[p], j + 1, n);
    InsertAfterSiblings(links, kids, p, j, n, links2, s);
    InsertAfterFrame(links, kids, p, j, n, links2, s);
    assert NodeOk(links, kids, p);
    InsertNoDup(kids[p], j + 1, n);
    Rewire(links, kids, links2, p, s);
  }

  lemma InsertAfterSiblings(links: seq<Link>, kids: seq<seq<nat>>, p: nat, j: nat, n: nat, links2: seq<Link>, s: seq<nat>)
    requires WellLinked(links, kids) && Joinable(links, kids, p, n) && j < |kids[p]| && kids[p][j] < |links|
    requires links2 == links[n := links[n].(sibling := links[kids[p][j]].sibling)][kids[p][j] := links[kids[p][j]].(sibling := Some(n))]
    requires s == InsertAt(kids[p], j + 1, n)
    ensures forall i | 0 <= i < |s| ::
      s[i] < |links| && links2[s[i]].sibling == Next(s, i) && links[s[i]].parent == Some(p)
      && links2[s[i]].parent == Some(p) && links2[s[i]].child == links[s[i]].child
  {
    ChainFacts(links, kids, p);
    var c := kids[p][j];
    assert c != n;
    MemberAfterParent(links, kids, p, j);
    assert NodeOk(links, kids, p);
    assert s[j] == c && s[j + 1] == n;
    forall i | 0 <= i < |s| ensures s[i] < |links| && links2[s[i]].sibling == Next(s, i) && links[s[i]].parent == Some(p)
      && links2[s[i]].parent == Some(p) && links2[s[i]].child == links[s[i]].child
    {
      if i < j { assert InChain(links, kids, p, i); }
      else if i == j { assert InChain(links, kids, p, j); }
      else if i == j + 1 { assert InChain(links, kids, p, j); }
      else { assert InChain(links, kids, p, i - 1); }
    }
  }

  lemma InsertAfterFrame(links: seq<Link>, kids: seq<seq<nat>>, p: nat, j: nat, n: nat, links2: seq<Link>, s: seq<nat>)
    requires WellLinked(links, kids) && Joinable(links, kids, p, n) && j < |kids[p]| && kids[p][j] < |links|
    requires links2 == links[n := links[n].(sibling := links[kids[p][j]].sibling)][kids[p][j] := links[kids[p][j]].(sibling := Some(n))]
    requires s == InsertAt(kids[p], j + 1, n)
    ensures links2[p] == links[p] && Head(s) == Head(kids[p]) && SameNodes(links2, links)
    ensures forall y | 0 <= y < |links| && y !in s :: links2[y] == links[y]
  {
    MemberAfterParent(links, kids, p, j);
    assert s[j] == kids[p][j] && s[j + 1] == n;
  }

  /** Splicing `n` in as the first child: `n` takes the old first child as sibling. */
  lemma InsertFrontOk(links: seq<Link>, kids: seq<seq<nat>>, p: nat, n: nat)
    requires WellLinked(links, kids) && Joinable(links, kids, p, n)
    ensures var links1 := links[n := links[n].(sibling := links[p].child)];
      var links2 := links1[p := links1[p].(child := Some(n))];
      WellLinked(links2, kids[p := InsertAt(kids[p], 0, n)]) && SameNodes(links2, links)
  {
    var links1 := links[n := links[n].(sibling := links[p].child)];
    var links2 := links1[p := links1[p].(child := Some(n))];
    var s := InsertAt(kids[p], 0, n);
    ChainFacts(links, kids, p);
    assert NodeOk(links, kids, p);
    forall i | 0 <= i < |s| ensures links2[s[i]].sibling == Next(s, i) {
      if i > 0 { assert InChain(links, kids, p, i - 1); }
    }
    InsertNoDup(kids[p], 0, n);
    Rewire(links, kids, links2, p, s);
  }

  /** Cutting out member `j + 1`: member `j` takes over its sibling. */
  lemma CutAfterOk(links: seq<Link>, kids: seq<seq<nat>>, p: nat, j: nat)
    requires WellLinked(links, kids) && p < |links| && j + 1 < |kids[p]|
    ensures kids[p][j] < |links| && kids[p][j + 1] < |links|
    ensures var c, d := kids[p][j], kids[p][j + 1];
      var links' := links[c := links[c].(sibling := links[d].sibling)];
      WellLinked(links', kids[p := RemoveAt(kids[p], j + 1)]) && SameNodes(links', links)
  {
    ChainFacts(links, kids, p);
    var c, d := kids[p][j], kids[p][j + 1];
    var links' := links[c := links[c].(sibling := links[d].sibling)];
    var s := RemoveAt(kids[p], j + 1);
    assert NodeOk(links, kids, p);
    forall k | 0 <= k < |s| ensures links'[s[k]].sibling == Next(s, k) {
      if k < j { assert InChain(links, kids, p, k); }
      else if k == j { assert InChain(links, kids, p, j + 1); }
      else { assert InChain(links, kids, p, k + 1); }
    }
    RemoveAtNoDup(kids[p], j + 1);
    Rewire(links, kids, links', p, s);
  }

  /** Cutting out the first child: its sibling becomes the first child. */
  lemma CutFrontOk(links: seq<Link>, kids: seq<seq<nat>>, p: nat)
    requires WellLinked(links, kids) && p < |links| && 0 < |kids[p]|
    ensures kids[p][0] < |links|
    ensures var links' := links[p := links[p].(child := links[kids[p][0]].sibling)];
      WellLinked(links', kids[p := RemoveAt(kids[p], 0)]) && SameNodes(links', links)
  {
    ChainFacts(links, kids, p);
    var links' := links[p := links[p].(child := links[kids[p][0]].sibling)];
    var s := RemoveAt(kids[p], 0);
    assert NodeOk(links, kids, p);
    forall k | 0 <= k < |s| ensures links'[s[k]].sibling == Next(s, k) {
      assert InChain(links, kids, p, k + 1);
    }
    assert InChain(links, kids, p, 0);
    RemoveAtNoDup(kids[p], 0);
    Rewire(links, kids, links', p, s);
  }

  /** The names of the nodes of a chain, in order. */
  function NamesOf(links: seq<Link>, chain: seq<nat>): (names: seq<string>)
    requires forall k | 0 <= k < |chain| :: chain[k] < |links|
    ensures |names| == |chain|
    ensures forall k | 0 <= k < |chain| :: names[k] == links[chain[k]].name
  {
    seq(|chain|, k requires 0 <= k < |chain| => links[chain[k]].name)
  }

  /** Links that agree on names give a chain the same names. */
  lemma NamesOfSame(a: seq<Link>, b: seq<Link>, chain: seq<nat>)
    requires |a| == |b| && forall y | 0 <= y < |a| :: a[y].name == b[y].name
    requires forall k | 0 <= k < |chain| :: chain[k] < |a|
    ensures NamesOf(a, chain) == NamesOf(b, chain)
  {
  }

  lemma NamesOfRemoveAt(links: seq<Link>, chain: seq<nat>, i: nat)
    requires i < |chain| && forall k | 0 <= k < |chain| :: chain[k] < |links|
    ensures forall k | 0 <= k < |RemoveAt(chain, i)| :: RemoveAt(chain, i)[k] < |links|
    ensures NamesOf(links, RemoveAt(chain, i)) == RemoveAt(NamesOf(links, chain), i)
  {
  }

  lemma NamesOfInsertAt(links: seq<Link>, chain: seq<nat>, i: nat, n: nat)
    requires i <= |chain| && n < |links| && forall k | 0 <= k < |chain| :: chain[k] < |links|
    ensures forall k | 0 <= k < |InsertAt(chain, i, n)| :: InsertAt(chain, i, n)[k] < |links|
    ensures NamesOf(links, InsertAt(chain, i, n)) == InsertAt(NamesOf(links, chain), i, links[n].name)
  {
  }

  lemma NamesOfAppend(links: seq<Link>, chain: seq<nat>, n: nat)
    requires n < |links| && forall k | 0 <= k < |chain| :: chain[k] < |links|
    ensures NamesOf(links, chain + [n]) == NamesOf(links, chain) + [links[n].name]
  {
  }

  /** A node arena; `kids[x]` lists the children of node `x` in sibling order. */
  class Graph<T> {
    var links: seq<Link>
    var data: seq<T>
    ghost var kids: seq<seq<nat>>

    ghost predicate Valid()
      reads this
    {
      |data| == |links| && WellLinked(links, kids)
    }

    constructor ()
      ensures Valid() && links == [] && data == [] && kids == []
    {
      links, data, kids := [], [], [];
    }

    /** The names of `p`'s children, in sibling order. */
    ghost function ChildNames(p: nat): (names: seq<string>)
      reads this
      requires Valid() && p < |links|
      ensures |names| == |kids[p]|
      ensures forall k | 0 <= k < |kids[p]| :: kids[p][k] < |links| && names[k] == links[kids[p][k]].name
    {
      ChainFacts(links, kids, p);
      NamesOf(links, kids[p])
    }

    /** A node on its own: no parent, no child and no sibling. */
    ghost predicate Detached(n: nat)
      reads this
      requires Valid()
    {
      n < |links| && links[n].parent == None && links[n].child == None && kids[n] == []
    }

    /** A new node without relations; `name` is used as given. */
    method NewNode(name: string, d: T) returns (n: nat)
      requires Valid()
      modifies this
      ensures Valid() && n == old(|links|) && Detached(n)
      ensures links == old(links) + [Link(name, None, None, None)]
      ensures data == old(data) + [d]
      ensures kids == old(kids) + [[]]
    {
      n := |links|;
      links := links + [Link(name, None, None, None)];
      data := data + [d];
      kids := kids + [[]];
      assert NodeOk(links, kids, n);
      forall x | 0 <= x < n ensures NodeOk(links, kids, x) {
        assert NodeOk(old(links), old(kids), x);
        forall i | 0 <= i < |kids[x]| ensures InChain(links, kids, x, i) {
          assert InChain(old(links), old(kids), x, i);
        }
      }
    }

    /** A new node with the name and parent of `x` but no child and no sibling; it belongs to no chain. */
    method Clone(x: nat, d: T) returns (c: nat)
      requires Valid() && x < |links|
      modifies this
      ensures Valid() && c == old(|links|)
      ensures links == old(links) + [Link(old(links[x].name), old(links[x].parent), None, None)]
      ensures data == old(data) + [d]
      ensures kids == old(kids) + [[]]
    {
      c := |links|;
      var l := Link(links[x].name, links[x].parent, None, None);
      assert NodeOk(links, kids, x);
      links := links + [l];
      data := data + [d];
      kids := kids + [[]];
      assert NodeOk(links, kids, c);
      forall y | 0 <= y < c ensures NodeOk(links, kids, y) {
        assert NodeOk(old(links), old(kids), y);
        forall i | 0 <= i < |kids[y]| ensures InChain(links, kids, y, i) {
          assert InChain(old(links), old(kids), y, i);
        }
      }
    }

    /** Records `p` as the parent of the detached node `n`; no chain changes yet. */
    method SetParent(n: nat, p: nat)
      requires Valid() && Detached(n) && p < n
      modifies this`links
      ensures Valid() && Joinable(links, kids, p, n)
      ensures links == old(links)[n := old(links)[n].(parent := Some(p))]
    {
      var links0 := links;
      links := links[n := links[n].(parent := Some(p))];
      forall x | 0 <= x < |links| ensures NodeOk(links, kids, x) {
        assert NodeOk(links0, kids, x);
        forall i | 0 <= i < |kids[x]| ensures InChain(links, kids, x, i) {
          assert InChain(links0, kids, x, i);
          MemberAfterParent(links0, kids, x, i);
        }
      }
      ChainFacts(links0, kids, p);
      assert NodeOk(links0, kids, n);
    }

    /** The last child of `p`, found by walking the sibling pointers from the first child. */
    method LastChild(p: nat) returns (last: Ref)
      requires Valid() && p < |links|
      ensures last == (if kids[p] == [] then None else Some(kids[p][|kids[p]| - 1]))
    {
      assert NodeOk(links, kids, p);
      if links[p].child == None {
        return None;
      }
      var c := links[p].child.value;
      ghost var j := 0;
      while true
        invariant j < |kids[p]| && c == kids[p][j]
        decreases |kids[p]| - j
      {
        assert InChain(links, kids, p, j);
        if links[c].sibling == None {
          break;
        }
        c := links[c].sibling.value;
        j := j + 1;
      }
      assert InChain(links, kids, p, j);
      return Some(c);
    }

    /** `append`: makes `n`, whose parent is already `p`, the last child of `p`. */
    method Append(p: nat, n: nat)
      requires Valid() && Joinable(links, kids, p, n)
      modifies this`links, this`kids
      ensures Valid() && SameNodes(links, old(links))
      ensures kids == old(kids)[p := old(kids[p]) + [n]]
    {
      var last := LastChild(p);
      assert NodeOk(links, kids, p);
      if last == None {
        InsertFrontOk(links, kids, p, n);
        assert InsertAt(kids[p], 0, n) == kids[p] + [n];
        assert links[n := links[n].(sibling := links[p].child)] == links;
        links := links[p := links[p].(child := Some(n))];
        kids := kids[p := kids[p] + [n]];
      } else {
        var j := |kids[p]| - 1;
        InsertAfterOk(links, kids, p, j, n);
        assert InsertAt(kids[p], j + 1, n) == kids[p] + [n];
        assert NodeOk(links, kids, p) && InChain(links, kids, p, j);
        var l := last.value;
        assert links[n := links[n].(sibling := links[l].sibling)] == links;
        links := links[l := links[l].(sibling := Some(n))];
        kids := kids[p := kids[p] + [n]];
      }
    }

    /** `insertSibling`: from child `c` on, puts `n` before the first later sibling it is less than, or last. */
    method InsertSibling(p: nat, c: nat, n: nat, ghost j0: nat) returns (ghost ip: nat)
      requires Valid() && Joinable(links, kids, p, n)
      requires j0 < |kids[p]| && c == kids[p][j0]
      requires forall k | 0 <= k <= j0 :: !Less(links[n].name, ChildNames(p)[k])
      modifies this`links, this`kids
      ensures ip == InsertionPoint(old(ChildNames(p)), old(links[n].name))
      ensures Valid() && SameNodes(links, old(links))
      ensures kids == old(kids)[p := InsertAt(old(kids[p]), ip, n)]
    {
      var last, j := LastNotAfter(p, c, links[n].name, j0);
      ip := j + 1;
      InsertionPointIs(ChildNames(p), links[n].name, ip);
      InsertAfterOk(links, kids, p, j, n);
      links := links[n := links[n].(sibling := links[last].sibling)];
      links := links[last := links[last].(sibling := Some(n))];
      kids := kids[p := InsertAt(kids[p], ip, n)];
    }

    /** From child `j0` on, follows sibling pointers to the last child whose name `name` does not sort before. */
    method LastNotAfter(p: nat, c: nat, name: string, ghost j0: nat) returns (last: nat, ghost j: nat)
      requires Valid() && p < |links| && j0 < |kids[p]| && c == kids[p][j0]
      requires forall k | 0 <= k <= j0 :: !Less(name, ChildNames(p)[k])
      ensures j < |kids[p]| && last == kids[p][j]
      ensures forall k | 0 <= k <= j :: !Less(name, ChildNames(p)[k])
      ensures j + 1 < |kids[p]| ==> Less(name, ChildNames(p)[j + 1])
    {
      ghost var names := ChildNames(p);
      last, j := c, j0;
      assert NodeOk(links, kids, p);
      while true
        invariant j < |kids[p]| && last == kids[p][j]
        invariant forall k | 0 <= k <= j :: !Less(name, names[k])
        decreases |kids[p]| - j
      {
        assert InChain(links, kids, p, j);
        if links[last].sibling == None {
          return;
        }
        var next := links[last].sibling.value;
        if Less(name, links[next].name) {
          return;
        }
        last := next;
        j := j + 1;
      }
    }

    /** `insert`: makes `n`, whose parent is already `p`, a child of `p` at its place by name. */
    method Insert(p: nat, n: nat) returns (ghost ip: nat)
      requires Valid() && Joinable(links, kids, p, n)
      modifies this`links, this`kids
      ensures ip == InsertionPoint(old(ChildNames(p)), old(links[n].name))
      ensures Valid() && SameNodes(links, old(links))
      ensures kids == old(kids)[p := InsertAt(old(kids[p]), ip, n)]
    {
      ghost var names := ChildNames(p);
      assert NodeOk(links, kids, p);
      if links[p].child == None || Less(links[n].name, links[links[p].child.value].name) {
        ip := 0;
        InsertFrontOk(links, kids, p, n);
        links := links[n := links[n].(sibling := links[p].child)];
        links := links[p := links[p].(child := Some(n))];
        kids := kids[p := InsertAt(kids[p], 0, n)];
      } else {
        ip := InsertSibling(p, links[p].child.value, n, 0);
      }
    }

    /** `delSibling`: cuts out the first sibling after `c` named `name`; the cut node keeps its pointers. */
    method DelSibling(p: nat, c: nat, name: string, ghost j0: nat) returns (r: Ref)
      requires Valid() && p < |links|
      requires j0 < |kids[p]| && c == kids[p][j0]
      requires forall k | 0 <= k <= j0 :: ChildNames(p)[k] != name
      modifies this`links, this`kids
      ensures Valid() && SameNodes(links, old(links))
      ensures var i := FirstIndex(old(ChildNames(p)), name);
        if i < |old(kids[p])| then
          r == Some(old(kids[p])[i]) && kids == old(kids)[p := RemoveAt(old(kids[p]), i)]
        else
          r == None && kids == old(kids) && links == old(links)
      ensures forall y | 0 <= y < |links| && y != p && y !in old(kids[p]) :: links[y] == old(links[y])
    {
      ghost var names := ChildNames(p);
      var c := c;
      ghost var j := j0;
      assert NodeOk(links, kids, p);
      while true
        invariant j < |kids[p]| && c == kids[p][j]
        invariant forall k | 0 <= k <= j :: names[k] != name
        decreases |kids[p]| - j
      {
        assert InChain(links, kids, p, j);
        if links[c].sibling == None {
          FirstIndexAbsent(names, name);
          return None;
        }
        var sib := links[c].sibling.value;
        if links[sib].name == name {
          FirstIndexIs(names, name, j + 1);
          CutAfterOk(links, kids, p, j);
          links := links[c := links[c].(sibling := links[sib].sibling)];
          kids := kids[p := RemoveAt(kids[p], j + 1)];
          return Some(sib);
        }
        c := sib;
        j := j + 1;
      }
    }

    /** `delChild`: cuts out the first child of `p` named `name` and returns it, or nil when there is none. */
    method DelChild(p: nat, name: string) returns (r: Ref)
      requires Valid() && p < |links|
      modifies this`links, this`kids
      ensures Valid() && SameNodes(links, old(links))
      ensures var i := FirstIndex(old(ChildNames(p)), name);
        if i < |old(kids[p])| then
          r == Some(old(kids[p])[i]) && kids == old(kids)[p := RemoveAt(old(kids[p]), i)]
        else
          r == None && kids == old(kids) && links == old(links)
      ensures forall y | 0 <= y < |links| && y != p && y !in old(kids[p]) :: links[y] == old(links[y])
    {
      ghost var names := ChildNames(p);
      assert NodeOk(links, kids, p);
      if links[p].child == None {
        return None;
      }
      var first := links[p].child.value;
      if links[first].name == name {
        FirstIndexIs(names, name, 0);
        CutFrontOk(links, kids, p);
        links := links[p := links[p].(child := links[first].sibling)];
        kids := kids[p := RemoveAt(kids[p], 0)];
        return Some(first);
      }
      r := DelSibling(p, first, name, 0);
    }
  }

  /** The insertion point is the first position past a run of names the new one is not less than. */
  lemma InsertionPointIs(names: seq<string>, x: string, ip: nat)
    requires 0 < ip <= |names|
    requires forall k | 0 <= k < ip :: !Less(x, names[k])
    requires ip < |names| ==> Less(x, names[ip])
    ensures InsertionPoint(names, x) == ip
  {
  }

  lemma FirstIndexIs<U>(s: seq<U>, x: U, i: nat)
    requires i < |s| && s[i] == x && forall k | 0 <= k < i :: s[k] != x
    ensures FirstIndex(s, x) == i
  {
  }

  lemma FirstIndexAbsent<U>(s: seq<U>, x: U)
    requires forall k | 0 <= k < |s| :: s[k] != x
    ensures FirstIndex(s, x) == |s|
  {
  }

  lemma RemoveAtNoDup<U>(s: seq<U>, i: nat)
    requires i < |s| && NoDup(s)
    ensures NoDup(RemoveAt(s, i))
  {
    var r := RemoveAt(s, i);
    forall a, b | 0 <= a < b < |r| ensures r[a] != r[b] {
      var a' := if a < i then a else a + 1;
      var b' := if b < i then b else b + 1;
      assert r[a] == s[a'] && r[b] == s[b'];
    }
  }
}
