/**
 * `NewSystem` and `installSys` of rs/system.go: root mounts "/" as a
 * sorted, distinct directory and then, through its own syscalls, makes
 * /bin, /etc, /etc/accounts and /tmp and installs the mkdir and ls
 * commands under /bin. On the freshly mounted "/" every one of those calls
 * goes through, so the tree that comes out is known node by node.
 */
module RsSetup {
  import opened Wrappers
  import opened Graphs
  import opened Modes
  import opened Nodes
  import opened Errors
  import opened Operations
  import opened Accounts
  import opened Locator
  import opened Access
  import opened Making
  import opened RsSystem
  import opened RsCalls
  import Lexical
  import Lists
  import Paths
  import Seals
  import Decimal

  /** The attributes `NewSystem` leaves, all owned by root's uid and group. */
  const RootDir: Attr := Attr(1, 1, RootMode, Nil)
  const BinDir: Attr := Attr(1, 1, BinMode, Nil)
  const EtcDir: Attr := Attr(1, 1, EtcMode, Nil)
  const TmpDir: Attr := Attr(1, 1, TmpMode, Nil)
  const MkdirCmd: Attr := Attr(1, 1, CmdMode, Program("*rs.mkdirCmd"))
  const LsCmd: Attr := Attr(1, 1, CmdMode, Program("*rs.lsCmd"))

  /** The tree `NewSystem` leaves: node names, parents, children and attributes, node by node. */
  const SetupNames: seq<string> := ["/", "bin", "etc", "accounts", "tmp", "mkdir", "ls"]
  const SetupParents: seq<Ref> := [None, Some(0), Some(0), Some(2), Some(0), Some(1), Some(1)]
  const SetupKids: seq<seq<nat>> := [[1, 2, 4], [6, 5], [3], [], [], [], []]
  const SetupData: seq<Attr> := [RootDir, BinDir, EtcDir, EtcDir, TmpDir, MkdirCmd, LsCmd]

  /** "/" is the only mount, at node 0, and node `y` of the arena is named `names[y]`, hangs below `parents[y]`, has children `kids[y]` and attributes `data[y]`. */
  ghost predicate Laid(sys: System, names: seq<string>, parents: seq<Ref>, kids: seq<seq<nat>>, data: seq<Attr>)
    reads sys, sys.tree
  {
    sys.mounts == map["/" := 0] && Shaped(sys.tree.links, names, parents) && sys.tree.kids == kids && sys.tree.data == data
  }

  /** The older nodes of `links0`/`data0` keep their names, parents and attributes in `links`/`data`. */
  ghost predicate Grown(links0: seq<Link>, data0: seq<Attr>, links: seq<Link>, data: seq<Attr>)
  {
    |links0| <= |links| && |data0| <= |data| && data[..|data0|] == data0
    && forall y | 0 <= y < |links0| :: links[y].name == links0[y].name && links[y].parent == links0[y].parent
  }

  lemma GrownSame(links: seq<Link>, data: seq<Attr>)
    ensures Grown(links, data, links, data)
  {
    assert data[..|data|] == data;
  }

  /** A node made under `p` leaves every older node as it was. */
  lemma MadeGrown(links0: seq<Link>, kids0: seq<seq<nat>>, data0: seq<Attr>,
                  links: seq<Link>, kids: seq<seq<nat>>, data: seq<Attr>,
                  p: nat, name: string, n: nat, a: Attr)
    requires MadeFacts(links0, kids0, data0, links, kids, data, p, name, n, a)
    ensures Grown(links0, data0, links, data)
  {
    assert data[..|data0|] == data0;
  }

  lemma GrownTrans(l0: seq<Link>, d0: seq<Attr>, l1: seq<Link>, d1: seq<Attr>, l2: seq<Link>, d2: seq<Attr>)
    requires Grown(l0, d0, l1, d1) && Grown(l1, d1, l2, d2)
    ensures Grown(l0, d0, l2, d2)
  {
    assert d2[..|d0|] == d2[..|d1|][..|d0|];
  }

  /** The modes `installSys` asks for come out as the layout's constants, and "/" and "bin" keep children sorted and distinct. */
  lemma SetupModes()
    ensures MadeMode(RootMode, 0x3ED) == BinMode && MadeMode(RootMode, 0x1ED) == EtcMode
    ensures MadeMode(EtcMode, 0x1ED) == EtcMode && MadeMode(RootMode, 0xFFF) == TmpMode
    ensures Without(MadeMode(BinMode, 0x1ED), ModeDir) == CmdMode
    ensures DistinctMode(Without(RootMode, ModeRoot)) && SortMode(Without(RootMode, ModeRoot))
    ensures DistinctMode(Without(BinMode, ModeRoot)) && SortMode(Without(BinMode, ModeRoot))
  {
  }

  /** With "/" the only mount, `rootNode` answers its node for every path. */
  lemma OnlyRootMount(mounts: map<string, nat>, abspath: string)
    requires mounts == map["/" := 0]
    ensures MountOf(mounts, abspath) == 0
  {
    Settled(mounts, abspath, "/");
  }

  /** With "/" the only mount, root's `stat` of "/" answers the mount's node, and root may write there. */
  lemma RootAtRoot(s: Syscall)
    requires s.Ready() && s.sys.mounts == map["/" := 0] && s.acc.uid == RootUid
    ensures s.Stated("/") == Ok(0)
    ensures 0 < |s.sys.tree.data| && WriteCheck(s.sys.tree.data, 0, s.acc.uid, s.acc.groups) == Pass
  {
    var links, kids := s.sys.tree.links, s.sys.tree.kids;
    OnlyRootMount(s.sys.mounts, "/");
    assert links[0].name == "/";
    assert "/"[|links[0].name|..] == "";
    assert Descend(links, kids, 0, Paths.Segments("")) == Some([]);
    assert [0] + [] == [0];
    assert Located(links, kids, 0, "/") == Ok([0]);
    RootPassesChain(s.sys.tree.data, [0], s.acc.groups);
    RootPassesAll(s.acc.groups, OpWrite, SealOf(s.sys.tree.data[0]));
  }

  /** With "/" the only mount, root's `stat` of "/name/" answers the first child of "/" with that name, and root may write there. */
  lemma RootAtChild(s: Syscall, name: string, y: nat)
    requires s.Ready() && s.sys.mounts == map["/" := 0] && s.acc.uid == RootUid
    requires name != "" && '/' !in name && FirstNamed(s.sys.tree.links, s.sys.tree.kids, 0, name, y)
    ensures s.Stated("/" + name + "/") == Ok(y)
    ensures y < |s.sys.tree.data| && WriteCheck(s.sys.tree.data, y, s.acc.uid, s.acc.groups) == Pass
  {
    var links, kids := s.sys.tree.links, s.sys.tree.kids;
    OnlyRootMount(s.sys.mounts, "/" + name + "/");
    assert links[0].name == "/";
    LocateFirstChild(links, kids, 0, name, y);
    FirstNamedChild(links, kids, 0, name, y);
    RootPassesChain(s.sys.tree.data, [0, y], s.acc.groups);
    RootPassesAll(s.acc.groups, OpWrite, SealOf(s.sys.tree.data[y]));
  }

  /**
   * A node made under `p` of a laid-out arena, with a name escaping does
   * not change: the layout grows by it, and no node but `p` changes its
   * children.
   */
  lemma LaidGrows(links0: seq<Link>, kids0: seq<seq<nat>>, data0: seq<Attr>,
                  links: seq<Link>, kids: seq<seq<nat>>, data: seq<Attr>,
                  p: nat, name: string, n: nat, a: Attr, names: seq<string>, parents: seq<Ref>)
    requires MadeFacts(links0, kids0, data0, links, kids, data, p, name, n, a) && Shaped(links0, names, parents)
    requires Paths.Escape(name) == name
    ensures Shaped(links, names + [name], parents + [Some(p)])
    ensures kids == (kids0 + [[]])[p := kids[p]] && data == data0 + [a]
  {
    ShapedGrows(links0, kids0, data0, links, kids, data, p, name, n, a, names, parents);
    var want := (kids0 + [[]])[p := kids[p]];
    forall y | 0 <= y < |kids| ensures kids[y] == want[y] {
      if y == n {
        assert want[y] == [];
      } else if y != p {
        assert want[y] == kids0[y];
      }
    }
  }

  /** The layout's names are all different: no two start with the same character. */
  lemma SetupDistinct()
    ensures |SetupNames| == 7 && Lists.NoDup(SetupNames)
  {
    var ns := SetupNames;
    var cs := ['/', 'b', 'e', 'a', 't', 'm', 'l'];
    forall y | 0 <= y < 7 ensures |ns[y]| > 0 && ns[y][0] == cs[y] {
    }
    forall y, z | 0 <= y < z < 7 ensures ns[y] != ns[z] {
      assert ns[y][0] == cs[y] != cs[z] == ns[z][0];
    }
  }

  /** None of the layout's names but "/" holds a '/' or a character that needs escaping. */
  lemma SetupNamed()
    ensures |SetupNames| == 7 && forall y | 1 <= y < 7 :: '/' !in SetupNames[y] && '%' !in SetupNames[y]
  {
  }

  /** Sorted, distinct insertion puts "etc" after "bin". */
  lemma EtcOrdered()
    ensures AddNames([SetupNames[1]], SetupNames[2], true, true) == [SetupNames[1], SetupNames[2]]
  {
    assert Lists.RemoveFirst(["bin"], "etc") == ["bin"];
    assert Lexical.InsertionPoint(["bin"], "etc") == 1;
  }

  /** Sorted, distinct insertion puts "tmp" after "bin" and "etc". */
  lemma TmpOrdered()
    ensures AddNames([SetupNames[1], SetupNames[2]], SetupNames[4], true, true) == [SetupNames[1], SetupNames[2], SetupNames[4]]
  {
    assert Lists.RemoveFirst(["bin", "etc"], "tmp") == ["bin", "etc"];
    assert Lexical.InsertionPoint(["etc"], "tmp") == 1;
    assert Lexical.InsertionPoint(["bin", "etc"], "tmp") == 2;
  }

  /** Sorted, distinct insertion puts "ls" before "mkdir". */
  lemma LsOrdered()
    ensures AddNames([SetupNames[5]], SetupNames[6], true, true) == [SetupNames[6], SetupNames[5]]
  {
    assert Lists.RemoveFirst(["mkdir"], "ls") == ["mkdir"];
    assert Lexical.InsertionPoint(["mkdir"], "ls") == 0;
  }

  /** In an arena whose nodes all have different names, a chain is known by its names. */
  lemma NamesDetermine(links: seq<Link>, names: seq<string>, parents: seq<Ref>, c: seq<nat>, d: seq<nat>)
    requires Shaped(links, names, parents) && Lists.NoDup(names)
    requires (forall k | 0 <= k < |c| :: c[k] < |links|) && (forall k | 0 <= k < |d| :: d[k] < |links|)
    requires NamesOf(links, c) == NamesOf(links, d)
    ensures c == d
  {
    assert |c| == |d|;
    forall k | 0 <= k < |c| ensures c[k] == d[k] {
      assert names[c[k]] == NamesOf(links, c)[k] == names[d[k]];
    }
  }

  /**
   * Root's `mkdir` of `dir + name`: when `dir` states a node root may
   * write, the directory is made there with the mode `Mkdir` gives it.
   */
  method RootMkdir(asRoot: Syscall, dir: string, name: string, perm: NodeMode) returns (r: Result<nat, Error>)
    requires asRoot.Ready() && Paths.Split(dir + name) == (dir, name)
    modifies asRoot.sys.tree
    ensures asRoot.Ready() && asRoot.sys.mounts == old(asRoot.sys.mounts)
    ensures Grown(old(asRoot.sys.tree.links), old(asRoot.sys.tree.data), asRoot.sys.tree.links, asRoot.sys.tree.data)
    ensures var s := old(asRoot.Stated(dir));
      s.Ok? && old(WriteCheck(asRoot.sys.tree.data, s.value, asRoot.acc.uid, asRoot.acc.groups)) == Pass ==>
        var pa := old(asRoot.sys.tree.data)[s.value];
        r.Ok? && MadeFacts(old(asRoot.sys.tree.links), old(asRoot.sys.tree.kids), old(asRoot.sys.tree.data),
                           asRoot.sys.tree.links, asRoot.sys.tree.kids, asRoot.sys.tree.data, s.value, name, r.value,
                           Attr(pa.uid, pa.gid, MadeMode(pa.mode, perm), Nil))
  {
    ghost var links0, kids0, data0 := asRoot.sys.tree.links, asRoot.sys.tree.kids, asRoot.sys.tree.data;
    ghost var s := asRoot.Stated(dir);
    ghost var w := if s.Ok? then WriteCheck(data0, s.value, asRoot.acc.uid, asRoot.acc.groups) else Pass;
    r := asRoot.Mkdir(dir + name, perm);
    if s.Ok? && w == Pass {
      var pa := data0[s.value];
      MadeUnderFacts(links0, kids0, data0, asRoot.sys.tree.links, asRoot.sys.tree.kids, asRoot.sys.tree.data, s.value, name, r.value,
                     Attr(pa.uid, pa.gid, MadeMode(pa.mode, perm), Nil));
      MadeGrown(links0, kids0, data0, asRoot.sys.tree.links, asRoot.sys.tree.kids, asRoot.sys.tree.data, s.value, name, r.value,
                Attr(pa.uid, pa.gid, MadeMode(pa.mode, perm), Nil));
    } else {
      GrownSame(links0, data0);
    }
  }

  /**
   * Root's `Install` of `cmd` at `dir + name`: when `dir` states a node
   * root may write, the command node is made there, a directory no more.
   */
  method RootInstall(asRoot: Syscall, dir: string, name: string, cmd: Source, perm: NodeMode) returns (r: Result<nat, Error>)
    requires asRoot.Ready() && Paths.Split(dir + name) == (dir, name)
    modifies asRoot.sys.tree
    ensures asRoot.Ready() && asRoot.sys.mounts == old(asRoot.sys.mounts)
    ensures Grown(old(asRoot.sys.tree.links), old(asRoot.sys.tree.data), asRoot.sys.tree.links, asRoot.sys.tree.data)
    ensures var s := old(asRoot.Stated(dir));
      s.Ok? && old(WriteCheck(asRoot.sys.tree.data, s.value, asRoot.acc.uid, asRoot.acc.groups)) == Pass ==>
        var pa := old(asRoot.sys.tree.data)[s.value];
        r.Ok? && MadeFacts(old(asRoot.sys.tree.links), old(asRoot.sys.tree.kids), old(asRoot.sys.tree.data),
                           asRoot.sys.tree.links, asRoot.sys.tree.kids, asRoot.sys.tree.data, s.value, name, r.value,
                           Attr(pa.uid, pa.gid, Without(MadeMode(pa.mode, perm), ModeDir), cmd))
  {
    ghost var links0, kids0, data0 := asRoot.sys.tree.links, asRoot.sys.tree.kids, asRoot.sys.tree.data;
    ghost var s := asRoot.Stated(dir);
    ghost var w := if s.Ok? then WriteCheck(data0, s.value, asRoot.acc.uid, asRoot.acc.groups) else Pass;
    r := asRoot.Install(dir + name, cmd, perm);
    if s.Ok? && w == Pass {
      var pa := data0[s.value];
      MadeUnderFacts(links0, kids0, data0, asRoot.sys.tree.links, asRoot.sys.tree.kids, asRoot.sys.tree.data, s.value, name, r.value,
                     Attr(pa.uid, pa.gid, Without(MadeMode(pa.mode, perm), ModeDir), cmd));
      MadeGrown(links0, kids0, data0, asRoot.sys.tree.links, asRoot.sys.tree.kids, asRoot.sys.tree.data, s.value, name, r.value,
                Attr(pa.uid, pa.gid, Without(MadeMode(pa.mode, perm), ModeDir), cmd));
    } else {
      GrownSame(links0, data0);
    }
  }

  /** Root's `mkdir("/bin", 01755)`: on the freshly mounted "/", "bin" becomes its only child. */
  method MkdirBin(asRoot: Syscall)
    requires asRoot.Ready() && asRoot.acc.uid == RootUid
    modifies asRoot.sys.tree
    ensures asRoot.Ready() && asRoot.sys.mounts == old(asRoot.sys.mounts)
    ensures Grown(old(asRoot.sys.tree.links), old(asRoot.sys.tree.data), asRoot.sys.tree.links, asRoot.sys.tree.data)
    ensures old(Laid(asRoot.sys, SetupNames[..1], SetupParents[..1], [[]], SetupData[..1])) ==>
      Laid(asRoot.sys, SetupNames[..2], SetupParents[..2], [[1], []], SetupData[..2])
  {
    var sys := asRoot.sys;
    ghost var was := Laid(sys, SetupNames[..1], SetupParents[..1], [[]], SetupData[..1]);
    ghost var links0, kids0, data0 := sys.tree.links, sys.tree.kids, sys.tree.data;
    Paths.SplitAt("/", "bin");
    if was {
      RootAtRoot(asRoot);
    }
    var r := RootMkdir(asRoot, "/", "bin", 0x3ED);
    if was {
      SetupNamed();
      BinMade(links0, kids0, data0, sys.tree.links, sys.tree.kids, sys.tree.data, r.value, SetupNames);
    }
  }

  /** The arena after "bin" was made under the fresh "/". */
  lemma BinMade(links0: seq<Link>, kids0: seq<seq<nat>>, data0: seq<Attr>, links: seq<Link>, kids: seq<seq<nat>>, data: seq<Attr>,
                n: nat, ns: seq<string>)
    requires |ns| == 7 && '/' !in ns[1] && '%' !in ns[1]
    requires Shaped(links0, ns[..1], SetupParents[..1]) && kids0 == [[]] && data0 == SetupData[..1]
    requires MadeFacts(links0, kids0, data0, links, kids, data, 0, ns[1], n, Attr(1, 1, MadeMode(RootMode, 0x3ED), Nil))
    ensures Shaped(links, ns[..2], SetupParents[..2]) && kids == [[1], []] && data == SetupData[..2]
  {
    Paths.EscapePlain(ns[1]);
    var a := Attr(1, 1, MadeMode(RootMode, 0x3ED), Nil);
    LaidGrows(links0, kids0, data0, links, kids, data, 0, ns[1], n, a, ns[..1], SetupParents[..1]);
    assert ns[..1] + [ns[1]] == ns[..2] && SetupParents[..1] + [Some(0)] == SetupParents[..2];
    MadeFirstChild(links0, kids0, data0, links, kids, data, 0, ns[1], n, a);
    SetupModes();
  }

  /** Root's `mkdir("/etc", 00755)`: "etc" goes after "bin" among the children of "/". */
  method MkdirEtc(asRoot: Syscall)
    requires asRoot.Ready() && asRoot.acc.uid == RootUid
    modifies asRoot.sys.tree
    ensures asRoot.Ready() && asRoot.sys.mounts == old(asRoot.sys.mounts)
    ensures Grown(old(asRoot.sys.tree.links), old(asRoot.sys.tree.data), asRoot.sys.tree.links, asRoot.sys.tree.data)
    ensures old(Laid(asRoot.sys, SetupNames[..2], SetupParents[..2], [[1], []], SetupData[..2])) ==>
      Laid(asRoot.sys, SetupNames[..3], SetupParents[..3], [[1, 2], [], []], SetupData[..3])
  {
    var sys := asRoot.sys;
    ghost var was := Laid(sys, SetupNames[..2], SetupParents[..2], [[1], []], SetupData[..2]);
    ghost var links0, kids0, data0 := sys.tree.links, sys.tree.kids, sys.tree.data;
    Paths.SplitAt("/", "etc");
    if was {
      RootAtRoot(asRoot);
    }
    var r := RootMkdir(asRoot, "/", "etc", 0x1ED);
    if was {
      SetupNamed();
      SetupDistinct();
      EtcOrdered();
      EtcMade(links0, kids0, data0, sys.tree.links, sys.tree.kids, sys.tree.data, r.value, SetupNames);
    }
  }

  /** The arena after "etc" was made under "/": sorted order puts it after "bin". */
  lemma EtcMade(links0: seq<Link>, kids0: seq<seq<nat>>, data0: seq<Attr>, links: seq<Link>, kids: seq<seq<nat>>, data: seq<Attr>,
                n: nat, ns: seq<string>)
    requires |ns| == 7 && Lists.NoDup(ns) && '/' !in ns[2] && '%' !in ns[2] && AddNames([ns[1]], ns[2], true, true) == [ns[1], ns[2]]
    requires Shaped(links0, ns[..2], SetupParents[..2]) && kids0 == [[1], []] && data0 == SetupData[..2]
    requires MadeFacts(links0, kids0, data0, links, kids, data, 0, ns[2], n, Attr(1, 1, MadeMode(RootMode, 0x1ED), Nil))
    ensures Shaped(links, ns[..3], SetupParents[..3]) && kids == [[1, 2], [], []] && data == SetupData[..3]
  {
    Paths.EscapePlain(ns[2]);
    var a := Attr(1, 1, MadeMode(RootMode, 0x1ED), Nil);
    LaidGrows(links0, kids0, data0, links, kids, data, 0, ns[2], n, a, ns[..2], SetupParents[..2]);
    assert ns[..2] + [ns[2]] == ns[..3] && SetupParents[..2] + [Some(0)] == SetupParents[..3];
    SetupModes();
    EtcPlaced(links0, links, kids[0], ns);
  }

  /** "etc" added next to "bin" under "/" goes after it. */
  lemma EtcPlaced(links0: seq<Link>, links: seq<Link>, chain: seq<nat>, ns: seq<string>)
    requires |ns| == 7 && Lists.NoDup(ns) && AddNames([ns[1]], ns[2], true, true) == [ns[1], ns[2]]
    requires Shaped(links0, ns[..2], SetupParents[..2]) && Shaped(links, ns[..3], SetupParents[..3])
    requires forall k | 0 <= k < |chain| :: chain[k] < |links|
    requires NamesOf(links, chain) == AddNames(NamesOf(links0, [1]), ns[2], true, true)
    ensures chain == [1, 2]
  {
    assert NamesOf(links0, [1]) == [ns[1]];
    assert NamesOf(links, [1, 2]) == [ns[1], ns[2]];
    assert Lists.NoDup(ns[..3]);
    NamesDetermine(links, ns[..3], SetupParents[..3], chain, [1, 2]);
  }

  /** Root's `mkdir("/etc/accounts", 00755)`: "accounts" becomes the only child of "etc". */
  method MkdirAccounts(asRoot: Syscall)
    requires asRoot.Ready() && asRoot.acc.uid == RootUid
    modifies asRoot.sys.tree
    ensures asRoot.Ready() && asRoot.sys.mounts == old(asRoot.sys.mounts)
    ensures Grown(old(asRoot.sys.tree.links), old(asRoot.sys.tree.data), asRoot.sys.tree.links, asRoot.sys.tree.data)
    ensures old(Laid(asRoot.sys, SetupNames[..3], SetupParents[..3], [[1, 2], [], []], SetupData[..3])) ==>
      Laid(asRoot.sys, SetupNames[..4], SetupParents[..4], [[1, 2], [], [3], []], SetupData[..4])
  {
    var sys := asRoot.sys;
    ghost var was := Laid(sys, SetupNames[..3], SetupParents[..3], [[1, 2], [], []], SetupData[..3]);
    ghost var links0, kids0, data0 := sys.tree.links, sys.tree.kids, sys.tree.data;
    Paths.SplitAt("/etc/", "accounts");
    if was {
      assert FirstNamed(links0, kids0, 0, "etc", 2) by {
        assert kids0[0][1] == 2 && kids0[0][0] == 1;
      }
      assert "/" + "etc" + "/" == "/etc/";
      RootAtChild(asRoot, "etc", 2);
    }
    var r := RootMkdir(asRoot, "/etc/", "accounts", 0x1ED);
    if was {
      SetupNamed();
      AccountsMade(links0, kids0, data0, sys.tree.links, sys.tree.kids, sys.tree.data, r.value, SetupNames);
    }
  }

  /** The arena after "accounts" was made under "etc". */
  lemma AccountsMade(links0: seq<Link>, kids0: seq<seq<nat>>, data0: seq<Attr>, links: seq<Link>, kids: seq<seq<nat>>, data: seq<Attr>,
                     n: nat, ns: seq<string>)
    requires |ns| == 7 && '/' !in ns[3] && '%' !in ns[3]
    requires Shaped(links0, ns[..3], SetupParents[..3]) && kids0 == [[1, 2], [], []] && data0 == SetupData[..3]
    requires MadeFacts(links0, kids0, data0, links, kids, data, 2, ns[3], n, Attr(1, 1, MadeMode(EtcMode, 0x1ED), Nil))
    ensures Shaped(links, ns[..4], SetupParents[..4]) && kids == [[1, 2], [], [3], []] && data == SetupData[..4]
  {
    Paths.EscapePlain(ns[3]);
    var a := Attr(1, 1, MadeMode(EtcMode, 0x1ED), Nil);
    LaidGrows(links0, kids0, data0, links, kids, data, 2, ns[3], n, a, ns[..3], SetupParents[..3]);
    assert ns[..3] + [ns[3]] == ns[..4] && SetupParents[..3] + [Some(2)] == SetupParents[..4];
    MadeFirstChild(links0, kids0, data0, links, kids, data, 2, ns[3], n, a);
    SetupModes();
  }

  /** Root's `mkdir("/tmp", 07777)`: "tmp" goes last among the children of "/". */
  method MkdirTmp(asRoot: Syscall)
    requires asRoot.Ready() && asRoot.acc.uid == RootUid
    modifies asRoot.sys.tree
    ensures asRoot.Ready() && asRoot.sys.mounts == old(asRoot.sys.mounts)
    ensures Grown(old(asRoot.sys.tree.links), old(asRoot.sys.tree.data), asRoot.sys.tree.links, asRoot.sys.tree.data)
    ensures old(Laid(asRoot.sys, SetupNames[..4], SetupParents[..4], [[1, 2], [], [3], []], SetupData[..4])) ==>
      Laid(asRoot.sys, SetupNames[..5], SetupParents[..5], [[1, 2, 4], [], [3], [], []], SetupData[..5])
  {
    var sys := asRoot.sys;
    ghost var was := Laid(sys, SetupNames[..4], SetupParents[..4], [[1, 2], [], [3], []], SetupData[..4]);
    ghost var links0, kids0, data0 := sys.tree.links, sys.tree.kids, sys.tree.data;
    Paths.SplitAt("/", "tmp");
    if was {
      RootAtRoot(asRoot);
    }
    var r := RootMkdir(asRoot, "/", "tmp", 0xFFF);
    if was {
      SetupNamed();
      SetupDistinct();
      TmpOrdered();
      TmpMade(links0, kids0, data0, sys.tree.links, sys.tree.kids, sys.tree.data, r.value, SetupNames);
    }
  }

  /** The arena after "tmp" was made under "/": sorted order puts it after "bin" and "etc". */
  lemma TmpMade(links0: seq<Link>, kids0: seq<seq<nat>>, data0: seq<Attr>, links: seq<Link>, kids: seq<seq<nat>>, data: seq<Attr>,
                n: nat, ns: seq<string>)
    requires |ns| == 7 && Lists.NoDup(ns) && '/' !in ns[4] && '%' !in ns[4]
    requires AddNames([ns[1], ns[2]], ns[4], true, true) == [ns[1], ns[2], ns[4]]
    requires Shaped(links0, ns[..4], SetupParents[..4]) && kids0 == [[1, 2], [], [3], []] && data0 == SetupData[..4]
    requires MadeFacts(links0, kids0, data0, links, kids, data, 0, ns[4], n, Attr(1, 1, MadeMode(RootMode, 0xFFF), Nil))
    ensures Shaped(links, ns[..5], SetupParents[..5]) && kids == [[1, 2, 4], [], [3], [], []] && data == SetupData[..5]
  {
    Paths.EscapePlain(ns[4]);
    var a := Attr(1, 1, MadeMode(RootMode, 0xFFF), Nil);
    LaidGrows(links0, kids0, data0, links, kids, data, 0, ns[4], n, a, ns[..4], SetupParents[..4]);
    assert ns[..4] + [ns[4]] == ns[..5] && SetupParents[..4] + [Some(0)] == SetupParents[..5];
    SetupModes();
    TmpPlaced(links0, links, kids[0], ns);
  }

  /** "tmp" added next to "bin" and "etc" under "/" goes after both. */
  lemma TmpPlaced(links0: seq<Link>, links: seq<Link>, chain: seq<nat>, ns: seq<string>)
    requires |ns| == 7 && Lists.NoDup(ns) && AddNames([ns[1], ns[2]], ns[4], true, true) == [ns[1], ns[2], ns[4]]
    requires Shaped(links0, ns[..4], SetupParents[..4]) && Shaped(links, ns[..5], SetupParents[..5])
    requires forall k | 0 <= k < |chain| :: chain[k] < |links|
    requires NamesOf(links, chain) == AddNames(NamesOf(links0, [1, 2]), ns[4], true, true)
    ensures chain == [1, 2, 4]
  {
    assert NamesOf(links0, [1, 2]) == [ns[1], ns[2]];
    assert NamesOf(links, [1, 2, 4]) == [ns[1], ns[2], ns[4]];
    assert Lists.NoDup(ns[..5]);
    NamesDetermine(links, ns[..5], SetupParents[..5], chain, [1, 2, 4]);
  }

  /** Root's `Install("/bin/mkdir", &mkdirCmd{}, 00755)`: the command becomes the only child of "bin". */
  method InstallMkdir(asRoot: Syscall)
    requires asRoot.Ready() && asRoot.acc.uid == RootUid
    modifies asRoot.sys.tree
    ensures asRoot.Ready() && asRoot.sys.mounts == old(asRoot.sys.mounts)
    ensures Grown(old(asRoot.sys.tree.links), old(asRoot.sys.tree.data), asRoot.sys.tree.links, asRoot.sys.tree.data)
    ensures old(Laid(asRoot.sys, SetupNames[..5], SetupParents[..5], [[1, 2, 4], [], [3], [], []], SetupData[..5])) ==>
      Laid(asRoot.sys, SetupNames[..6], SetupParents[..6], [[1, 2, 4], [5], [3], [], [], []], SetupData[..6])
  {
    var sys := asRoot.sys;
    ghost var was := Laid(sys, SetupNames[..5], SetupParents[..5], [[1, 2, 4], [], [3], [], []], SetupData[..5]);
    ghost var links0, kids0, data0 := sys.tree.links, sys.tree.kids, sys.tree.data;
    Paths.SplitAt("/bin/", "mkdir");
    if was {
      assert FirstNamed(links0, kids0, 0, "bin", 1) by {
        assert kids0[0][0] == 1;
      }
      assert "/" + "bin" + "/" == "/bin/";
      RootAtChild(asRoot, "bin", 1);
    }
    var r := RootInstall(asRoot, "/bin/", "mkdir", Program("*rs.mkdirCmd"), 0x1ED);
    if was {
      SetupNamed();
      MkdirInstalled(links0, kids0, data0, sys.tree.links, sys.tree.kids, sys.tree.data, r.value, SetupNames);
    }
  }

  /** The arena after the mkdir command was made under "bin". */
  lemma MkdirInstalled(links0: seq<Link>, kids0: seq<seq<nat>>, data0: seq<Attr>, links: seq<Link>, kids: seq<seq<nat>>, data: seq<Attr>,
                       n: nat, ns: seq<string>)
    requires |ns| == 7 && '/' !in ns[5] && '%' !in ns[5]
    requires Shaped(links0, ns[..5], SetupParents[..5]) && kids0 == [[1, 2, 4], [], [3], [], []]
    requires data0 == SetupData[..5]
    requires MadeFacts(links0, kids0, data0, links, kids, data, 1, ns[5], n,
                       Attr(1, 1, Without(MadeMode(BinMode, 0x1ED), ModeDir), Program("*rs.mkdirCmd")))
    ensures Shaped(links, ns[..6], SetupParents[..6]) && kids == [[1, 2, 4], [5], [3], [], [], []] && data == SetupData[..6]
  {
    Paths.EscapePlain(ns[5]);
    var a := Attr(1, 1, Without(MadeMode(BinMode, 0x1ED), ModeDir), Program("*rs.mkdirCmd"));
    LaidGrows(links0, kids0, data0, links, kids, data, 1, ns[5], n, a, ns[..5], SetupParents[..5]);
    assert ns[..5] + [ns[5]] == ns[..6] && SetupParents[..5] + [Some(1)] == SetupParents[..6];
    MadeFirstChild(links0, kids0, data0, links, kids, data, 1, ns[5], n, a);
    SetupModes();
  }

  /** Root's `Install("/bin/ls", &lsCmd{}, 00755)`: sorted order puts "ls" before "mkdir" under "bin". */
  method InstallLs(asRoot: Syscall)
    requires asRoot.Ready() && asRoot.acc.uid == RootUid
    modifies asRoot.sys.tree
    ensures asRoot.Ready() && asRoot.sys.mounts == old(asRoot.sys.mounts)
    ensures Grown(old(asRoot.sys.tree.links), old(asRoot.sys.tree.data), asRoot.sys.tree.links, asRoot.sys.tree.data)
    ensures old(Laid(asRoot.sys, SetupNames[..6], SetupParents[..6], [[1, 2, 4], [5], [3], [], [], []], SetupData[..6])) ==>
      Laid(asRoot.sys, SetupNames, SetupParents, SetupKids, SetupData)
  {
    var sys := asRoot.sys;
    ghost var was := Laid(sys, SetupNames[..6], SetupParents[..6], [[1, 2, 4], [5], [3], [], [], []], SetupData[..6]);
    ghost var links0, kids0, data0 := sys.tree.links, sys.tree.kids, sys.tree.data;
    Paths.SplitAt("/bin/", "ls");
    if was {
      assert FirstNamed(links0, kids0, 0, "bin", 1) by {
        assert kids0[0][0] == 1;
      }
      assert "/" + "bin" + "/" == "/bin/";
      RootAtChild(asRoot, "bin", 1);
    }
    var r := RootInstall(asRoot, "/bin/", "ls", Program("*rs.lsCmd"), 0x1ED);
    if was {
      SetupNamed();
      SetupDistinct();
      LsOrdered();
      LsInstalled(links0, kids0, data0, sys.tree.links, sys.tree.kids, sys.tree.data, r.value, SetupNames);
    }
  }

  /** The arena after the ls command was made under "bin". */
  lemma LsInstalled(links0: seq<Link>, kids0: seq<seq<nat>>, data0: seq<Attr>, links: seq<Link>, kids: seq<seq<nat>>, data: seq<Attr>,
                    n: nat, ns: seq<string>)
    requires |ns| == 7 && Lists.NoDup(ns) && '/' !in ns[6] && '%' !in ns[6]
    requires AddNames([ns[5]], ns[6], true, true) == [ns[6], ns[5]]
    requires Shaped(links0, ns[..6], SetupParents[..6]) && kids0 == [[1, 2, 4], [5], [3], [], [], []]
    requires data0 == SetupData[..6]
    requires MadeFacts(links0, kids0, data0, links, kids, data, 1, ns[6], n,
                       Attr(1, 1, Without(MadeMode(BinMode, 0x1ED), ModeDir), Program("*rs.lsCmd")))
    ensures Shaped(links, ns, SetupParents) && kids == SetupKids && data == SetupData
  {
    Paths.EscapePlain(ns[6]);
    var a := Attr(1, 1, Without(MadeMode(BinMode, 0x1ED), ModeDir), Program("*rs.lsCmd"));
    LaidGrows(links0, kids0, data0, links, kids, data, 1, ns[6], n, a, ns[..6], SetupParents[..6]);
    assert ns[..6] + [ns[6]] == ns && SetupParents[..6] + [Some(1)] == SetupParents;
    SetupModes();
    LsPlaced(links0, links, kids[1], ns);
  }

  /** "ls" added next to "mkdir" under "bin" goes before it. */
  lemma LsPlaced(links0: seq<Link>, links: seq<Link>, chain: seq<nat>, ns: seq<string>)
    requires |ns| == 7 && Lists.NoDup(ns) && AddNames([ns[5]], ns[6], true, true) == [ns[6], ns[5]]
    requires Shaped(links0, ns[..6], SetupParents[..6]) && Shaped(links, ns, SetupParents)
    requires forall k | 0 <= k < |chain| :: chain[k] < |links|
    requires NamesOf(links, chain) == AddNames(NamesOf(links0, [5]), ns[6], true, true)
    ensures chain == [6, 5]
  {
    assert NamesOf(links0, [5]) == [ns[5]];
    assert NamesOf(links, [6, 5]) == [ns[6], ns[5]];
    NamesDetermine(links, ns, SetupParents, chain, [6, 5]);
  }

  /**
   * `installSys`: root's `mkdir` of /bin, /etc, /etc/accounts and /tmp,
   * then its `Install` of the mkdir and ls commands under /bin, each
   * call's error ignored. On a system that holds only the freshly mounted
   * "/", the tree comes out as `SetupNames` to `SetupData` lay it out;
   * on any other, no mount moves and no existing node changes.
   */
  method InstallSys(sys: System, root: Account)
    requires sys.Valid() && "/" in sys.mounts && root.uid == RootUid
    modifies sys.tree
    ensures sys.Valid() && sys.mounts == old(sys.mounts)
    ensures Grown(old(sys.tree.links), old(sys.tree.data), sys.tree.links, sys.tree.data)
    ensures old(Laid(sys, SetupNames[..1], SetupParents[..1], [[]], SetupData[..1])) ==>
      Laid(sys, SetupNames, SetupParents, SetupKids, SetupData)
  {
    var asRoot := new Syscall(root, sys);
    ghost var l0, d0 := sys.tree.links, sys.tree.data;
    MkdirBin(asRoot);
    ghost var l1, d1 := sys.tree.links, sys.tree.data;
    MkdirEtc(asRoot);
    GrownTrans(l0, d0, l1, d1, sys.tree.links, sys.tree.data);
    l1, d1 := sys.tree.links, sys.tree.data;
    MkdirAccounts(asRoot);
    GrownTrans(l0, d0, l1, d1, sys.tree.links, sys.tree.data);
    l1, d1 := sys.tree.links, sys.tree.data;
    MkdirTmp(asRoot);
    GrownTrans(l0, d0, l1, d1, sys.tree.links, sys.tree.data);
    l1, d1 := sys.tree.links, sys.tree.data;
    InstallMkdir(asRoot);
    GrownTrans(l0, d0, l1, d1, sys.tree.links, sys.tree.data);
    l1, d1 := sys.tree.links, sys.tree.data;
    InstallLs(asRoot);
    GrownTrans(l0, d0, l1, d1, sys.tree.links, sys.tree.data);
  }

  /**
   * `NewSystem`: an empty system on which root mounts "/" as a sorted,
   * distinct directory, then `installSys`. "/" is the only mount, and the
   * tree is the one `SetupNames` to `SetupData` lay out node by node.
   */
  method NewSystem() returns (sys: System)
    ensures sys.Valid() && Laid(sys, SetupNames, SetupParents, SetupKids, SetupData)
  {
    sys := new System();
    var root := new Account("root", RootUid);
    var asRoot := new Syscall(root, sys);
    var r := asRoot.mount("/", ModeDir | ModeSort | ModeDistinct);
    assert sys.mounts == map["/" := 0];
    assert sys.tree.data[0].mode == RootMode;
    assert Laid(sys, SetupNames[..1], SetupParents[..1], [[]], SetupData[..1]);
    InstallSys(sys, root);
  }
  /** The anonymous account on the system `NewSystem` returns: uid 0, its only group 0. */
  ghost predicate AnonymousOnSetup(s: Syscall)
    reads s, s.sys, s.sys.tree, s.acc
  {
    s.Ready() && Laid(s.sys, SetupNames, SetupParents, SetupKids, SetupData)
    && s.acc.uid == AnonymousUid && s.acc.groups == [AnonymousUid]
  }

  /** The anonymous exec check on the directories `NewSystem` makes: "/" and /bin (01755) let it through, /etc (00755) does not. */
  lemma AnonymousExec(groups: seq<int>)
    requires groups == [AnonymousUid]
    ensures Permitted(AnonymousUid, groups, OpExec, SealOf(RootDir)) == Pass
    ensures Permitted(AnonymousUid, groups, OpExec, SealOf(BinDir)) == Pass
    ensures Permitted(AnonymousUid, groups, OpExec, SealOf(EtcDir)) == Fail(Denied(SealOf(EtcDir), OpExec))
  {
  }

  /** The exec check along the chains to "/", /bin, /etc and /etc/accounts, for the anonymous account. */
  lemma AnonymousChains(data: seq<Attr>, groups: seq<int>)
    requires data == SetupData && groups == [AnonymousUid]
    ensures ExecRefusal(data, [0], AnonymousUid, groups) == Pass
    ensures ExecRefusal(data, [0, 1], AnonymousUid, groups) == Pass
    ensures ExecRefusal(data, [0, 2], AnonymousUid, groups) == Fail(Denied(SealOf(EtcDir), OpExec))
    ensures ExecRefusal(data, [0, 2, 3], AnonymousUid, groups) == Fail(Denied(SealOf(EtcDir), OpExec))
  {
    AnonymousExec(groups);
    assert [0][1..] == [] && [0, 1][1..] == [1] && [1][1..] == [];
    assert [0, 2][1..] == [2] && [0, 2, 3][1..] == [2, 3];
  }

  /** The paths the anonymous `stat` calls name, as the root's name followed by segments. */
  lemma PathTexts()
    ensures "/" + "bin" == "/bin" && "/" + "etc" == "/etc" && "/" + "nothing" == "/nothing"
    ensures "/" + "etc" + "/" + "accounts" == "/etc/accounts"
  {
  }

  /** The anonymous `stat` of "/" answers the root. */
  lemma AnonymousStatsRoot(s: Syscall)
    requires AnonymousOnSetup(s)
    ensures s.Stated("/") == Ok(0)
  {
    var links, kids := s.sys.tree.links, s.sys.tree.kids;
    OnlyRootMount(s.sys.mounts, "/");
    assert links[0].name == "/";
    assert "/"[|links[0].name|..] == "";
    assert Descend(links, kids, 0, Paths.Segments("")) == Some([]);
    assert [0] + [] == [0];
    AnonymousChains(s.sys.tree.data, s.acc.groups);
  }

  /** The anonymous `stat` of "/bin" answers /bin. */
  lemma AnonymousStatsBin(s: Syscall)
    requires AnonymousOnSetup(s)
    ensures s.Stated("/bin") == Ok(1)
  {
    var links, kids := s.sys.tree.links, s.sys.tree.kids;
    OnlyRootMount(s.sys.mounts, "/bin");
    assert kids[0][0] == 1 && links[1].name == "bin";
    LocateChild(links, kids, 0, "bin", 1);
    PathTexts();
    AnonymousChains(s.sys.tree.data, s.acc.groups);
  }

  /** The anonymous `stat` of "/etc" is refused: /etc does not grant it exec. */
  lemma AnonymousStatsEtc(s: Syscall)
    requires AnonymousOnSetup(s)
    ensures s.Stated("/etc") == Err(AtPath("/etc", AnonymousUid, Denied(SealOf(EtcDir), OpExec)))
  {
    var links, kids := s.sys.tree.links, s.sys.tree.kids;
    OnlyRootMount(s.sys.mounts, "/etc");
    assert kids[0][1] == 2 && links[2].name == "etc" && links[kids[0][0]].name != "etc";
    LocateChild(links, kids, 0, "etc", 2);
    PathTexts();
    AnonymousChains(s.sys.tree.data, s.acc.groups);
  }

  /** The anonymous `stat` of "/etc/accounts" is refused on the way, at /etc. */
  lemma AnonymousStatsAccounts(s: Syscall)
    requires AnonymousOnSetup(s)
    ensures s.Stated("/etc/accounts") == Err(AtPath("/etc/accounts", AnonymousUid, Denied(SealOf(EtcDir), OpExec)))
  {
    var links, kids := s.sys.tree.links, s.sys.tree.kids;
    OnlyRootMount(s.sys.mounts, "/etc/accounts");
    assert kids[0][1] == 2 && links[2].name == "etc" && links[kids[0][0]].name != "etc";
    assert kids[2][0] == 3 && links[3].name == "accounts";
    LocateGrandchild(links, kids, 0, "etc", "accounts", 2, 3);
    PathTexts();
    AnonymousChains(s.sys.tree.data, s.acc.groups);
  }

  /** The anonymous `stat` of "/nothing" is not found: "/" has no child of that name. */
  lemma AnonymousStatsNothing(s: Syscall)
    requires AnonymousOnSetup(s)
    ensures s.Stated("/nothing") == Err(NotFound("/nothing"))
  {
    var links, kids := s.sys.tree.links, s.sys.tree.kids;
    OnlyRootMount(s.sys.mounts, "/nothing");
    assert NoneNamed(links, kids, 0, "nothing") by {
      assert kids[0] == [1, 2, 4];
      assert links[1].name == "bin" && links[2].name == "etc" && links[4].name == "tmp";
    }
    LocateMissing(links, kids, 0, "nothing");
    PathTexts();
  }

  /** The text of the refusal `Stat` gives the anonymous account for /etc/accounts. */
  lemma AnonymousDeniedText()
    ensures Message(StatFailed(AtPath("/etc/accounts", AnonymousUid, Denied(SealOf(EtcDir), OpExec))))
      == "Stat " + "/etc/accounts" + " uid:" + "0" + ": " + "d---rwxr-xr-x 1 1" + " exec denied"
  {
    Modes.StringVisible(EtcMode);
    Modes.StringVisible(ModeDir | 0x1ED);
    assert Visible(EtcMode) == Visible(ModeDir | 0x1ED);
    Seals.StringExample();
    var seal := "d---rwxr-xr-x 1 1";
    assert Seals.String(SealOf(EtcDir)) == seal;
    assert Message(Denied(SealOf(EtcDir), OpExec)) == seal + " " + "exec" + " denied";
    assert Decimal.IntText(AnonymousUid) == "0";
    assert Message(AtPath("/etc/accounts", AnonymousUid, Denied(SealOf(EtcDir), OpExec)))
      == "/etc/accounts" + " uid:" + "0" + ": " + (seal + " " + "exec" + " denied");
  }

  /**
   * What the anonymous account sees of a new system: `Stat` finds "/" and
   * /bin, is refused at /etc for /etc and everything below it, and finds no
   * "/nothing".
   */
  lemma AnonymousStats(s: Syscall)
    requires AnonymousOnSetup(s)
    ensures s.Stated("/") == Ok(0) && s.Stated("/bin") == Ok(1)
    ensures s.Stated("/etc") == Err(AtPath("/etc", AnonymousUid, Denied(SealOf(EtcDir), OpExec)))
    ensures s.Stated("/etc/accounts") == Err(AtPath("/etc/accounts", AnonymousUid, Denied(SealOf(EtcDir), OpExec)))
    ensures Message(StatFailed(s.Stated("/etc/accounts").error))
      == "Stat " + "/etc/accounts" + " uid:" + "0" + ": " + "d---rwxr-xr-x 1 1" + " exec denied"
    ensures s.Stated("/nothing") == Err(NotFound("/nothing"))
  {
    AnonymousStatsRoot(s);
    AnonymousStatsBin(s);
    AnonymousStatsEtc(s);
    AnonymousStatsAccounts(s);
    AnonymousDeniedText();
    AnonymousStatsNothing(s);
  }
}
