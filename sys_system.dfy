/**
 * The system of sys/system.go and sys/syscall.go: one tree under the root
 * node "/", the accounts of sys/perm.go working on it, and the calls that
 * find, create and install resources there.
 */
module SysSystem {
  import opened Wrappers
  import opened Graphs
  import opened Modes
  import opened Nodes
  import opened Errors
  import opened Operations
  import opened Accounts
  import opened Locator
  import opened Access
  import opened Making
  import opened Lists
  import Lexical
  import Paths

  class System {
    /** The arena the tree lives in. */
    const tree: Tree
    /** The root node; `mounts` answers it for every path. */
    const rn: nat

    ghost predicate Valid()
      reads this, tree
    {
      tree.Valid() && rn < |tree.links| && tree.links[rn].parent == None
    }

    /** `&System{rn: rn}`. */
    constructor (tree: Tree, rn: nat)
      ensures this.tree == tree && this.rn == rn
    {
      this.tree := tree;
      this.rn := rn;
    }

    /** What `Stat` answers `acc` for `abspath`: the path is located from the one root. */
    ghost function Stated(abspath: string, acc: Account): Result<nat, Error>
      reads this, tree, acc
      requires Valid()
    {
      StatReport(Resolved(tree.links, tree.kids, tree.data, rn, abspath, acc.uid, acc.groups))
    }

    /**
     * `Stat`: `Locate`'s error as it is; a refusal of exec on any node of
     * the chain, target included, reported as "Stat <path> uid:<uid>: ...";
     * otherwise the last node of the chain.
     */
    method Stat(abspath: string, acc: Account) returns (r: Result<nat, Error>)
      requires Valid()
      ensures r == Stated(abspath, acc)
      ensures r.Ok? ==> r.value < |tree.links|
    {
      LocatedNames(tree.links, tree.kids, rn, abspath);
      var nodes := Locate(tree, rn, abspath);
      if nodes.Err? {
        return Err(nodes.error);
      }
      LocatedParents(tree.links, tree.kids, rn, abspath);
      var e := CheckChain(acc, tree, nodes.value);
      if e.Fail? {
        return Err(StatFailed(AtPath(abspath, acc.uid, e.error)));
      }
      r := Ok(nodes.value[|nodes.value| - 1]);
    }

    /**
     * `Install`: `Stat` of the directory part, its error as it is, and a
     * write check there, its refusal behind "Install"; then a new node with
     * the last part as name, `mode` as permission, `resource` as source and
     * `ModeDir` cleared.
     */
    method Install(abspath: string, resource: Source, acc: Account, mode: NodeMode) returns (r: Result<nat, Error>)
      requires Valid()
      modifies tree
      ensures Valid()
      ensures var (dir, name) := Paths.Split(abspath);
        var s := old(Stated(dir, acc));
        if s.Err? then r == s && unchanged(tree)
        else
          var w := old(WriteCheck(tree.data, s.value, acc.uid, acc.groups));
          var pa := old(tree.data[s.value]);
          if w.Fail? then r == Err(Wrapped("Install", w.error)) && unchanged(tree)
          else r.Ok? && MadeUnder(old(tree.links), old(tree.kids), old(tree.data), tree.links, tree.kids, tree.data,
                                  s.value, name, r.value, Attr(pa.uid, pa.gid, Without(MadeMode(pa.mode, mode), ModeDir), resource))
    {
      var (dir, name) := Paths.Split(abspath);
      var n := Stat(dir, acc);
      if n.Err? {
        return n;
      }
      var p := n.value;
      var w := acc.CheckPermitted(OpWrite, SealOf(tree.data[p]));
      if w.Fail? {
        return Err(Wrapped("Install", w.error));
      }
      var c := MakeFileWithPerm(tree, p, name, mode, resource);
      r := Ok(c);
    }

    /**
     * `Mkdir`: `Stat` of the directory part and a write check there, each
     * error behind "Mkdir"; then a new node with the last part as name, the
     * parent's owner, group and flags, and `mode` as permission.
     */
    method Mkdir(abspath: string, mode: NodeMode, acc: Account) returns (r: Result<nat, Error>)
      requires Valid()
      modifies tree
      ensures Valid()
      ensures var (dir, name) := Paths.Split(abspath);
        var s := old(Stated(dir, acc));
        if s.Err? then r == Err(Wrapped("Mkdir", s.error)) && unchanged(tree)
        else
          var w := old(WriteCheck(tree.data, s.value, acc.uid, acc.groups));
          var pa := old(tree.data[s.value]);
          if w.Fail? then r == Err(Wrapped("Mkdir", w.error)) && unchanged(tree)
          else r.Ok? && MadeUnder(old(tree.links), old(tree.kids), old(tree.data), tree.links, tree.kids, tree.data,
                                  s.value, name, r.value, Attr(pa.uid, pa.gid, MadeMode(pa.mode, mode), Nil))
    {
      var (dir, name) := Paths.Split(abspath);
      var n := Stat(dir, acc);
      if n.Err? {
        return Err(Wrapped("Mkdir", n.error));
      }
      var p := n.value;
      var w := acc.CheckPermitted(OpWrite, SealOf(tree.data[p]));
      if w.Fail? {
        return Err(Wrapped("Mkdir", w.error));
      }
      var c := MakeWithPerm(tree, p, name, mode);
      r := Ok(c);
    }
  }

  /**
   * `NewSystem`: the root node "/", a sorted and distinct directory owned
   * by uid and group 1 with 01755; "bin" made under it; root's `Install`
   * of the mkdir command as /bin/mkdir with 00755; then "etc" with 00755
   * and "accounts" in it. The install goes through, so the tree is these
   * five nodes, with "bin" before "etc" under "/".
   */
  method NewSystem(root: Account) returns (sys: System)
    requires root.uid == RootUid
    ensures sys.Valid() && sys.rn == 0
    ensures Shaped(sys.tree.links, ["/", "bin", "mkdir", "etc", "accounts"],
                   [None, Some(0), Some(1), Some(0), Some(3)])
    ensures sys.tree.kids == [[1, 3], [2], [], [4], []]
    ensures sys.tree.data == [Attr(1, 1, RootMode, Nil), Attr(1, 1, BinMode, Nil), Attr(1, 1, CmdMode, Program("*sys.MkdirCmd")),
                              Attr(1, 1, EtcMode, Nil), Attr(1, 1, EtcMode, Nil)]
  {
    var tree := RootWithBin();
    sys := new System(tree, 0);
    InstallMkdir(sys, root);
    MakeEtc(tree);
  }

  /** `NewRootNode("/", ...)`, `SetSeal(1, 1, 01755)` and `Make("bin")`. */
  method RootWithBin() returns (tree: Tree)
    ensures fresh(tree) && tree.Valid()
    ensures Shaped(tree.links, ["/", "bin"], [None, Some(0)]) && tree.kids == [[1], []]
    ensures tree.data == [Attr(1, 1, RootMode, Nil), Attr(1, 1, BinMode, Nil)]
  {
    tree := SealedRoot();
    MakeBin(tree);
  }

  /** `NewRootNode("/", ...)` and `SetSeal(1, 1, 01755)` on a new arena. */
  method SealedRoot() returns (tree: Tree)
    ensures fresh(tree) && tree.Valid()
    ensures tree.links == [Link("/", None, None, None)] && tree.kids == [[]]
    ensures tree.data == [Attr(1, 1, RootMode, Nil)]
  {
    tree := new Graph();
    var rn := NewRootNode(tree, "/", ModeDir | ModeSort | ModeDistinct);
    SetSeal(tree, rn, 1, 1, 0x3ED);
  }

  /** `Make("bin")` under the sealed root. */
  method MakeBin(tree: Tree)
    requires tree.Valid()
    requires tree.links == [Link("/", None, None, None)] && tree.kids == [[]]
    requires tree.data == [Attr(1, 1, RootMode, Nil)]
    modifies tree
    ensures tree.Valid()
    ensures Shaped(tree.links, ["/", "bin"], [None, Some(0)]) && tree.kids == [[1], []]
    ensures tree.data == [Attr(1, 1, RootMode, Nil), Attr(1, 1, BinMode, Nil)]
  {
    ChildIndices(tree, 0);
    assert tree.ChildNames(0) == [];
    var name := "bin";
    Paths.EscapePlain(name);
    var bin := Make(tree, 0, name);
    ChildIndices(tree, 0);
    BinMade(tree.links, tree.kids, tree.data, DistinctMode(Without(RootMode, ModeRoot)), SortMode(Without(RootMode, ModeRoot)));
  }

  /** The tree after "bin" was made under the root: its only child, with the root's attributes but `ModeRoot`. */
  lemma BinMade(links: seq<Link>, kids: seq<seq<nat>>, data: seq<Attr>, distinct: bool, sorted: bool)
    requires |links| == |kids| == 2 && links[0].name == "/" && links[0].parent == None
    requires links[1].name == "bin" && links[1].parent == Some(0) && kids[1] == []
    requires forall k | 0 <= k < |kids[0]| :: kids[0][k] < 2
    requires NamesOf(links, kids[0]) == AddNames([], "bin", distinct, sorted) && 1 in kids[0]
    requires data == [Attr(1, 1, RootMode, Nil)] + [Inherit(Attr(1, 1, RootMode, Nil), Attr(0, 0, 0, Nil))]
    ensures Shaped(links, ["/", "bin"], [None, Some(0)]) && kids == [[1], []]
    ensures data == [Attr(1, 1, RootMode, Nil), Attr(1, 1, BinMode, Nil)]
  {
    OnlyChild(links, kids[0], "bin", distinct, sorted, 1);
    assert Without(RootMode, ModeRoot) == BinMode;
  }

  /** Root's `Install` of the mkdir command at /bin/mkdir goes through and hangs it below "bin". */
  method InstallMkdir(sys: System, root: Account)
    requires sys.Valid() && sys.rn == 0 && root.uid == RootUid
    requires Shaped(sys.tree.links, ["/", "bin"], [None, Some(0)]) && sys.tree.kids == [[1], []]
    requires sys.tree.data == [Attr(1, 1, RootMode, Nil), Attr(1, 1, BinMode, Nil)]
    modifies sys.tree
    ensures sys.Valid()
    ensures Shaped(sys.tree.links, ["/", "bin", "mkdir"], [None, Some(0), Some(1)])
    ensures sys.tree.kids == [[1], [2], []]
    ensures sys.tree.data == [Attr(1, 1, RootMode, Nil), Attr(1, 1, BinMode, Nil), Attr(1, 1, CmdMode, Program("*sys.MkdirCmd"))]
  {
    ghost var links0, kids0, data0 := sys.tree.links, sys.tree.kids, sys.tree.data;
    BinLocated(sys, root);
    var r := sys.Install("/bin/mkdir", Program("*sys.MkdirCmd"), root, 0x1ED);
    Paths.EscapePlain("mkdir");
    MadeUnderFacts(links0, kids0, data0, sys.tree.links, sys.tree.kids, sys.tree.data, 1, "mkdir", r.value,
                   Attr(1, 1, Without(MadeMode(BinMode, 0x1ED), ModeDir), Program("*sys.MkdirCmd")));
    MkdirInstalled(links0, kids0, data0, sys.tree.links, sys.tree.kids, sys.tree.data, "mkdir", r.value,
                   Attr(1, 1, Without(MadeMode(BinMode, 0x1ED), ModeDir), Program("*sys.MkdirCmd")));
  }

  /** The tree after the mkdir command was made under "bin". */
  lemma MkdirInstalled(links0: seq<Link>, kids0: seq<seq<nat>>, data0: seq<Attr>,
                       links: seq<Link>, kids: seq<seq<nat>>, data: seq<Attr>, name: string, n: nat, a: Attr)
    requires Paths.Escape(name) == "mkdir" && a == Attr(1, 1, Without(MadeMode(BinMode, 0x1ED), ModeDir), Program("*sys.MkdirCmd"))
    requires Shaped(links0, ["/", "bin"], [None, Some(0)]) && kids0 == [[1], []]
    requires data0 == [Attr(1, 1, RootMode, Nil), Attr(1, 1, BinMode, Nil)]
    requires MadeFacts(links0, kids0, data0, links, kids, data, 1, name, n, a)
    ensures Shaped(links, ["/", "bin", "mkdir"], [None, Some(0), Some(1)])
    ensures kids == [[1], [2], []]
    ensures data == [Attr(1, 1, RootMode, Nil), Attr(1, 1, BinMode, Nil), Attr(1, 1, CmdMode, Program("*sys.MkdirCmd"))]
  {
    ShapedGrows(links0, kids0, data0, links, kids, data, 1, name, n, a, ["/", "bin"], [None, Some(0)]);
    MadeFirstChild(links0, kids0, data0, links, kids, data, 1, name, n, a);
    assert Without(MadeMode(BinMode, 0x1ED), ModeDir) == CmdMode;
  }

  /** `Make("etc")` under the root, `SetPerm(00755)` on it and `Make("accounts")` under it. */
  method MakeEtc(tree: Tree)
    requires tree.Valid()
    requires Shaped(tree.links, ["/", "bin", "mkdir"], [None, Some(0), Some(1)])
    requires tree.kids == [[1], [2], []]
    requires tree.data == [Attr(1, 1, RootMode, Nil), Attr(1, 1, BinMode, Nil), Attr(1, 1, CmdMode, Program("*sys.MkdirCmd"))]
    modifies tree
    ensures tree.Valid()
    ensures Shaped(tree.links, ["/", "bin", "mkdir", "etc", "accounts"],
                   [None, Some(0), Some(1), Some(0), Some(3)])
    ensures tree.kids == [[1, 3], [2], [], [4], []]
    ensures tree.data == [Attr(1, 1, RootMode, Nil), Attr(1, 1, BinMode, Nil), Attr(1, 1, CmdMode, Program("*sys.MkdirCmd")),
                          Attr(1, 1, EtcMode, Nil), Attr(1, 1, EtcMode, Nil)]
  {
    MakeEtcDir(tree);
    MakeAccounts(tree);
  }

  /** `Make("accounts")` under "etc". */
  method MakeAccounts(tree: Tree)
    requires tree.Valid()
    requires Shaped(tree.links, ["/", "bin", "mkdir", "etc"], [None, Some(0), Some(1), Some(0)])
    requires tree.kids == [[1, 3], [2], [], []]
    requires tree.data == [Attr(1, 1, RootMode, Nil), Attr(1, 1, BinMode, Nil), Attr(1, 1, CmdMode, Program("*sys.MkdirCmd")),
                           Attr(1, 1, EtcMode, Nil)]
    modifies tree
    ensures tree.Valid()
    ensures Shaped(tree.links, ["/", "bin", "mkdir", "etc", "accounts"],
                   [None, Some(0), Some(1), Some(0), Some(3)])
    ensures tree.kids == [[1, 3], [2], [], [4], []]
    ensures tree.data == [Attr(1, 1, RootMode, Nil), Attr(1, 1, BinMode, Nil), Attr(1, 1, CmdMode, Program("*sys.MkdirCmd")),
                          Attr(1, 1, EtcMode, Nil), Attr(1, 1, EtcMode, Nil)]
  {
    ghost var links0, kids0, data0 := tree.links, tree.kids, tree.data;
    ChildIndices(tree, 3);
    var name := "accounts";
    Paths.EscapePlain(name);
    var accounts := Make(tree, 3, name);
    ChildIndices(tree, 3);
    OnlyChild(tree.links, tree.kids[3], Paths.Escape(name), DistinctMode(Without(EtcMode, ModeRoot)), SortMode(Without(EtcMode, ModeRoot)), accounts);
    AccountsMade(links0, kids0, data0, tree.links, tree.kids, tree.data);
  }

  /** The tree after "accounts" was made under "etc", the only child there. */
  lemma AccountsMade(links0: seq<Link>, kids0: seq<seq<nat>>, data0: seq<Attr>,
                     links: seq<Link>, kids: seq<seq<nat>>, data: seq<Attr>)
    requires Shaped(links0, ["/", "bin", "mkdir", "etc"], [None, Some(0), Some(1), Some(0)])
    requires kids0 == [[1, 3], [2], [], []]
    requires data0 == [Attr(1, 1, RootMode, Nil), Attr(1, 1, BinMode, Nil), Attr(1, 1, CmdMode, Program("*sys.MkdirCmd")),
                       Attr(1, 1, EtcMode, Nil)]
    requires |links| == |kids| == 5 && links[4].name == "accounts" && links[4].parent == Some(3)
    requires forall y | 0 <= y < 4 :: links[y].name == links0[y].name && links[y].parent == links0[y].parent
    requires forall y | 0 <= y < 4 && y != 3 :: kids[y] == kids0[y]
    requires kids[3] == [4] && kids[4] == []
    requires data == data0 + [Inherit(data0[3], Attr(0, 0, 0, Nil))]
    ensures Shaped(links, ["/", "bin", "mkdir", "etc", "accounts"],
                   [None, Some(0), Some(1), Some(0), Some(3)])
    ensures kids == [[1, 3], [2], [], [4], []]
    ensures data == [Attr(1, 1, RootMode, Nil), Attr(1, 1, BinMode, Nil), Attr(1, 1, CmdMode, Program("*sys.MkdirCmd")),
                     Attr(1, 1, EtcMode, Nil), Attr(1, 1, EtcMode, Nil)]
  {
  }

  /** `Make("etc")` under the root and `SetPerm(00755)` on it. */
  method MakeEtcDir(tree: Tree)
    requires tree.Valid()
    requires Shaped(tree.links, ["/", "bin", "mkdir"], [None, Some(0), Some(1)])
    requires tree.kids == [[1], [2], []]
    requires tree.data == [Attr(1, 1, RootMode, Nil), Attr(1, 1, BinMode, Nil), Attr(1, 1, CmdMode, Program("*sys.MkdirCmd"))]
    modifies tree
    ensures tree.Valid()
    ensures Shaped(tree.links, ["/", "bin", "mkdir", "etc"], [None, Some(0), Some(1), Some(0)])
    ensures tree.kids == [[1, 3], [2], [], []]
    ensures tree.data == [Attr(1, 1, RootMode, Nil), Attr(1, 1, BinMode, Nil), Attr(1, 1, CmdMode, Program("*sys.MkdirCmd")),
                          Attr(1, 1, EtcMode, Nil)]
  {
    ghost var links0, kids0, data0 := tree.links, tree.kids, tree.data;
    ChildIndices(tree, 0);
    assert tree.ChildNames(0) == ["bin"];
    var name := "etc";
    Paths.EscapePlain(name);
    var etc := Make(tree, 0, name);
    ChildIndices(tree, 0);
    ghost var data1 := tree.data;
    SetPerm(tree, etc, 0x1ED);
    EtcMade(links0, kids0, data0, tree.links, tree.kids, data1, tree.data);
  }

  /**
   * The tree after "etc" was made under the root and given 00755: sorted
   * order puts it after "bin", and it takes the root's owner, group and
   * flags without `ModeRoot`.
   */
  lemma EtcMade(links0: seq<Link>, kids0: seq<seq<nat>>, data0: seq<Attr>,
                links: seq<Link>, kids: seq<seq<nat>>, data1: seq<Attr>, data: seq<Attr>)
    requires Shaped(links0, ["/", "bin", "mkdir"], [None, Some(0), Some(1)])
    requires kids0 == [[1], [2], []]
    requires data0 == [Attr(1, 1, RootMode, Nil), Attr(1, 1, BinMode, Nil), Attr(1, 1, CmdMode, Program("*sys.MkdirCmd"))]
    requires |links| == |kids| == 4 && links[3].name == "etc" && links[3].parent == Some(0)
    requires forall y | 0 <= y < 3 :: links[y].name == links0[y].name && links[y].parent == links0[y].parent
    requires forall y | 1 <= y < 3 :: kids[y] == kids0[y]
    requires forall k | 0 <= k < |kids[0]| :: kids[0][k] < 4
    requires kids[3] == [] && NamesOf(links, kids[0]) == AddNames(["bin"], "etc", true, true)
    requires data1 == data0 + [Inherit(data0[0], Attr(0, 0, 0, Nil))]
    requires data == data1[3 := data1[3].(mode := WithPerm(data1[3].mode, 0x1ED))]
    ensures Shaped(links, ["/", "bin", "mkdir", "etc"], [None, Some(0), Some(1), Some(0)])
    ensures kids == [[1, 3], [2], [], []]
    ensures data == [Attr(1, 1, RootMode, Nil), Attr(1, 1, BinMode, Nil), Attr(1, 1, CmdMode, Program("*sys.MkdirCmd")),
                     Attr(1, 1, EtcMode, Nil)]
  {
    assert Lexical.InsertionPoint(["bin"], "etc") == 1;
    assert NamesOf(links, kids[0]) == ["bin", "etc"];
    var k := kids[0];
    assert links[k[0]].name == "bin" && links[k[1]].name == "etc";
    assert k == [1, 3];
    assert WithPerm(Without(RootMode, ModeRoot), 0x1ED) == EtcMode;
  }

  /** Right after "bin" is made under the root, root reaches it at "/bin/" and may write there. */
  lemma BinLocated(sys: System, root: Account)
    requires sys.Valid() && sys.rn == 0 && root.uid == RootUid && |sys.tree.links| == 2
    requires sys.tree.links[0].name == "/" && sys.tree.links[1].name == "bin" && sys.tree.kids[0] == [1]
    ensures sys.Stated("/bin/", root) == Ok(1)
    ensures WriteCheck(sys.tree.data, 1, root.uid, root.groups) == Pass
    ensures Paths.Split("/bin/mkdir") == ("/bin/", "mkdir")
  {
    var links, kids := sys.tree.links, sys.tree.kids;
    assert FirstNamed(links, kids, 0, "bin", 1) by {
      assert kids[0][0] == 1;
    }
    LocateFirstChild(links, kids, 0, "bin", 1);
    assert "/" + "bin" + "/" == "/bin/";
    RootPassesChain(sys.tree.data, [0, 1], root.groups);
    RootPassesAll(root.groups, OpWrite, SealOf(sys.tree.data[1]));
    Paths.SplitAt("/bin/", "mkdir");
    assert "/bin/" + "mkdir" == "/bin/mkdir";
  }

  /** The syscalls of sys/syscall.go: an account bound to a system. */
  class Syscall {
    const acc: Account
    const sys: System

    constructor (acc: Account, sys: System)
      ensures this.acc == acc && this.sys == sys
    {
      this.acc := acc;
      this.sys := sys;
    }

    /**
     * `Mkdir`: the system's `Stat` of the directory part for the account
     * and a write check there, each error behind "Mkdir"; then a new node
     * as the system's `Mkdir` makes it.
     */
    method Mkdir(abspath: string, mode: NodeMode) returns (r: Result<nat, Error>)
      requires sys.Valid()
      modifies sys.tree
      ensures sys.Valid()
      ensures var (dir, name) := Paths.Split(abspath);
        var s := old(sys.Stated(dir, acc));
        if s.Err? then r == Err(Wrapped("Mkdir", s.error)) && unchanged(sys.tree)
        else
          var w := old(WriteCheck(sys.tree.data, s.value, acc.uid, acc.groups));
          var pa := old(sys.tree.data[s.value]);
          if w.Fail? then r == Err(Wrapped("Mkdir", w.error)) && unchanged(sys.tree)
          else r.Ok? && MadeUnder(old(sys.tree.links), old(sys.tree.kids), old(sys.tree.data), sys.tree.links, sys.tree.kids, sys.tree.data,
                                  s.value, name, r.value, Attr(pa.uid, pa.gid, MadeMode(pa.mode, mode), Nil))
    {
      var (dir, name) := Paths.Split(abspath);
      var parent := sys.Stat(dir, acc);
      if parent.Err? {
        return Err(Wrapped("Mkdir", parent.error));
      }
      var p := parent.value;
      var w := acc.CheckPermitted(OpWrite, SealOf(sys.tree.data[p]));
      if w.Fail? {
        return Err(Wrapped("Mkdir", w.error));
      }
      var c := MakeWithPerm(sys.tree, p, name, mode);
      r := Ok(c);
    }
  }
}
