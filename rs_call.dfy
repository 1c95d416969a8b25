/**
 * The syscalls of rs/call.go: an account's handle on a resource system.
 * Every call first picks the mount of the path, locates the path's chain
 * there and, depending on the call, asks for exec on the whole chain or
 * write on the parent a new node goes under.
 */
module RsCalls {
  import opened Wrappers
  import opened Lists
  import opened Graphs
  import opened Modes
  import opened Nodes
  import opened Errors
  import opened Operations
  import opened Accounts
  import opened Locator
  import opened Access
  import opened Making
  import opened Walkers
  import opened WalkFilter
  import opened RsSystem
  import Paths

  /**
   * What `Walk` shows from node `x`, located by `abspath`: every node it
   * clears is reachable through nodes the account may pass, and when
   * `abspath` is the clean spelling of `x`'s absolute path, every node is
   * shown at its own absolute path.
   */
  lemma FilteredShown(links: seq<Link>, kids: seq<seq<nat>>, data: seq<Attr>, fn: Visitor,
                      uid: int, groups: seq<int>, x: nat, abspath: string, recursive: bool)
    requires WellLinked(links, kids) && |data| == |links| && Live(links, kids, x)
    ensures var vs := Start(links, kids, data, Filter(uid, groups, fn), Some(x), Paths.Dir(abspath),
                            State(Fresh.(recursive := recursive), [])).visits;
      (forall k | 0 <= k < |vs| ::
         vs[k].node < |links|
         && (GuardOk(links, data, uid, groups, vs[k].node) ==> Cleared(links, data, uid, groups, StartOwner(links, x), vs[k].node)))
      && ((PlainPath(links, x) && abspath == PathOf(links, x) && (links[x].parent.Some? || abspath == "/")) ==> AtAbsPaths(links, vs))
  {
    var st := State(Fresh.(recursive := recursive), []);
    FilteredWalk(links, kids, data, fn, uid, groups, x, Paths.Dir(abspath), st);
    if PlainPath(links, x) && abspath == PathOf(links, x) && (links[x].parent.Some? || abspath == "/") {
      DirStartPaths(links, kids, data, Filter(uid, groups, fn), x, st);
      var vs := Start(links, kids, data, Filter(uid, groups, fn), Some(x), Paths.Dir(abspath), st).visits;
      assert vs[0..] == vs;
    }
  }

  class Syscall {
    const sys: System
    const acc: Account

    /** `Account.Use`: the account's handle on the system. */
    constructor (acc: Account, sys: System)
      ensures this.acc == acc && this.sys == sys
    {
      this.acc := acc;
      this.sys := sys;
    }

    /** The system is linked up and has its "/" mount. */
    ghost predicate Ready()
      reads this, sys, sys.tree
    {
      sys.Valid() && "/" in sys.mounts
    }

    /** `rootNode(abspath).Locate(abspath)`. */
    ghost function Chain(abspath: string): (r: Result<seq<nat>, Error>)
      reads this, sys, sys.tree
      requires Ready()
      ensures r.Ok? ==> (|r.value| > 0 && (forall k | 0 <= k < |r.value| :: r.value[k] < |sys.tree.links|)
                         && Live(sys.tree.links, sys.tree.kids, r.value[|r.value| - 1]))
    {
      var rn := MountOf(sys.mounts, abspath);
      LocatedParents(sys.tree.links, sys.tree.kids, rn, abspath);
      LocatedLive(sys.tree.links, sys.tree.kids, rn, abspath);
      Located(sys.tree.links, sys.tree.kids, rn, abspath)
    }

    /** What `stat` answers for `abspath`. */
    ghost function Stated(abspath: string): (r: Result<nat, Error>)
      reads this, sys, sys.tree, acc
      requires Ready()
      ensures r.Ok? ==> r.value < |sys.tree.links|
    {
      Resolved(sys.tree.links, sys.tree.kids, sys.tree.data, MountOf(sys.mounts, abspath), abspath, acc.uid, acc.groups)
    }

    /**
     * `stat`: the error of `Locate` as it is; a refusal of exec on any node
     * of the chain, target included, reported with the path and the uid;
     * otherwise the last node of the chain.
     */
    method stat(abspath: string) returns (r: Result<nat, Error>)
      requires Ready()
      ensures r == Stated(abspath)
    {
      var rn := sys.RootNode(abspath);
      var nodes := Locate(sys.tree, rn, abspath);
      if nodes.Err? {
        return Err(nodes.error);
      }
      LocatedParents(sys.tree.links, sys.tree.kids, rn, abspath);
      var e := CheckChain(acc, sys.tree, nodes.value);
      if e.Fail? {
        return Err(AtPath(abspath, acc.uid, e.error));
      }
      r := Ok(nodes.value[|nodes.value| - 1]);
    }

    /** `Stat`: the node of `stat`, or its error behind "Stat". */
    method Stat(abspath: string) returns (r: Result<nat, Error>)
      requires Ready()
      ensures Stated(abspath).Ok? ==> r == Stated(abspath)
      ensures Stated(abspath).Err? ==> r == Err(StatFailed(Stated(abspath).error))
    {
      r := stat(abspath);
      if r.Err? {
        r := Err(StatFailed(r.error));
      }
    }

    /**
     * `SetMode`: only the owner of the node, or the `root` account itself,
     * may set its permission bits, and only to a mode within `ModePerm`;
     * nothing changes on any error.
     */
    method SetMode(abspath: string, mode: NodeMode, root: Account) returns (r: Outcome<Error>)
      requires Ready()
      modifies sys.tree`data
      ensures Ready()
      ensures var s := old(Stated(abspath));
        if s.Err? then r == Fail(Wrapped("SetMode", s.error)) && sys.tree.data == old(sys.tree.data)
        else if old(sys.tree.data[s.value].uid) != acc.uid && acc != root then
          r == Fail(NotOwner(acc.uid, abspath)) && sys.tree.data == old(sys.tree.data)
        else if mode > ModePerm then r == Fail(InvalidMode) && sys.tree.data == old(sys.tree.data)
        else r == Pass && sys.tree.data == old(sys.tree.data)[s.value := old(sys.tree.data[s.value]).(mode := WithPerm(old(sys.tree.data[s.value].mode), mode))]
    {
      var n := stat(abspath);
      if n.Err? {
        return Fail(Wrapped("SetMode", n.error));
      }
      var owns := acc.Owns(sys.tree.data[n.value].uid);
      if !owns && acc != root {
        return Fail(NotOwner(acc.uid, abspath));
      }
      if mode > ModePerm {
        return Fail(InvalidMode);
      }
      SetPerm(sys.tree, n.value, mode);
      r := Pass;
    }

    /** A successful `SetMode` changes the permission bits of the node and nothing else in the tree. */
    lemma SetModeOnlyPerm(data0: seq<Attr>, data: seq<Attr>, x: nat, mode: NodeMode)
      requires x < |data0| && mode <= ModePerm
      requires data == data0[x := data0[x].(mode := WithPerm(data0[x].mode, mode))]
      ensures |data| == |data0| && forall y | 0 <= y < |data| && y != x :: data[y] == data0[y]
      ensures data[x].uid == data0[x].uid && data[x].gid == data0[x].gid && data[x].src == data0[x].src
      ensures data[x].mode & ModePerm == mode && data[x].mode & !ModePerm == data0[x].mode & !ModePerm
    {
      assert mode & !ModePerm == 0 by {
        FlagLayout();
      }
      SetPermKeepsFlags(data0[x].mode, mode);
    }

    /** `RemoveAll` panics on a chain of one node: the source demands that a path reachable in full names a node below its mount root. */
    ghost predicate BelowRoot(abspath: string)
      reads this, sys, sys.tree, acc
      requires Ready()
    {
      var c := Chain(abspath);
      c.Ok? && ExecRefusal(sys.tree.data, c.value, acc.uid, acc.groups).Pass? ==> |c.value| >= 2
    }

    /**
     * `RemoveAll`: locates the path, wrapping its error; asks for exec on
     * every node of the chain, reporting a refusal with the path and the
     * uid; then unlinks the target from its parent's children and nothing
     * else. The target is the first child of its name there, so
     * `DelChild` by name removes exactly it.
     */
    method RemoveAll(abspath: string) returns (r: Outcome<Error>)
      requires Ready() && BelowRoot(abspath)
      modifies sys.tree`links, sys.tree`kids
      ensures Ready() && SameNodes(sys.tree.links, old(sys.tree.links))
      ensures match old(Chain(abspath))
        case Err(e) => r == Fail(Wrapped("RemoveAll", e)) && sys.tree.kids == old(sys.tree.kids)
        case Ok(c) =>
          match old(ExecRefusal(sys.tree.data, c, acc.uid, acc.groups))
          case Fail(e) => r == Fail(AtPath(abspath, acc.uid, e)) && sys.tree.kids == old(sys.tree.kids)
          case Pass =>
            var p, t := c[|c| - 2], c[|c| - 1];
            r == Pass && t !in sys.tree.kids[p]
            && exists i | 0 <= i < |old(sys.tree.kids[p])| ::
                 old(sys.tree.kids[p])[i] == t && sys.tree.kids == old(sys.tree.kids)[p := RemoveAt(old(sys.tree.kids[p]), i)]
    {
      var rn := sys.RootNode(abspath);
      var nodes := Locate(sys.tree, rn, abspath);
      if nodes.Err? {
        return Fail(Wrapped("RemoveAll", nodes.error));
      }
      LocatedParents(sys.tree.links, sys.tree.kids, rn, abspath);
      var e := CheckChain(acc, sys.tree, nodes.value);
      if e.Fail? {
        return Fail(AtPath(abspath, acc.uid, e.error));
      }
      var c := nodes.value;
      var last := |c| - 1;
      LocatedPicked(sys.tree.links, sys.tree.kids, rn, abspath);
      assert Picked(sys.tree.links, sys.tree.kids, c, last);
      Unlink(c[last - 1], c[last]);
      r := Pass;
    }

    /** `nodes[last-1].DelChild(nodes[last].Name())` when `t` is the first child of its name under `p`: exactly `t` leaves `p`'s children. */
    method Unlink(p: nat, t: nat)
      requires Ready() && p < |sys.tree.links| && t < |sys.tree.links|
      requires FirstNamed(sys.tree.links, sys.tree.kids, p, sys.tree.links[t].name, t)
      modifies sys.tree`links, sys.tree`kids
      ensures Ready() && SameNodes(sys.tree.links, old(sys.tree.links))
      ensures t !in sys.tree.kids[p]
      ensures exists i | 0 <= i < |old(sys.tree.kids[p])| ::
        old(sys.tree.kids[p])[i] == t && sys.tree.kids == old(sys.tree.kids)[p := RemoveAt(old(sys.tree.kids[p]), i)]
    {
      ghost var i := Unlinks(sys.tree, p, t);
      ghost var kids0 := sys.tree.kids;
      ghost var links0 := sys.tree.links;
      assert NodeOk(links0, kids0, p);
      var _ := sys.tree.DelChild(p, sys.tree.links[t].name);
      MountedKept(sys.mounts, links0, sys.tree.links);
      assert sys.tree.kids[p] == RemoveAt(kids0[p], i);
      RemovedGone(kids0[p], i);
    }

    /** The first child of `p` named like `t`, when `t` is that child, is where `DelChild` cuts. */
    lemma Unlinks(g: Tree, p: nat, t: nat) returns (i: nat)
      requires g.Valid() && p < |g.links| && t < |g.links| && FirstNamed(g.links, g.kids, p, g.links[t].name, t)
      ensures i < |g.kids[p]| && g.kids[p][i] == t && FirstIndex(g.ChildNames(p), g.links[t].name) == i
    {
      i :| 0 <= i < |g.kids[p]| && g.kids[p][i] == t && t < |g.links| && g.links[t].name == g.links[t].name
        && forall j | 0 <= j < i :: g.kids[p][j] < |g.links| && g.links[g.kids[p][j]].name != g.links[t].name;
      var names := g.ChildNames(p);
      assert names[i] == g.links[t].name;
      assert forall j | 0 <= j < i :: names[j] != g.links[t].name;
    }

    /** Cutting the one occurrence of a member out of a duplicate-free list leaves it absent. */
    lemma RemovedGone(s: seq<nat>, i: nat)
      requires i < |s| && NoDup(s)
      ensures s[i] !in RemoveAt(s, i)
    {
      var r := RemoveAt(s, i);
      forall k | 0 <= k < |r| ensures r[k] != s[i] {
        if k < i {
          assert r[k] == s[k];
        } else {
          assert r[k] == s[k + 1];
        }
      }
    }

    /**
     * `ExecCmd`, without running anything: the error of `stat` as it is;
     * the node's source when it is executable, which is then run; "Cannot
     * run" naming the source's type otherwise.
     */
    method ExecCmd(abspath: string) returns (r: Result<Source, Error>)
      requires Ready()
      ensures var s := Stated(abspath);
        (r.Ok? <==> s.Ok? && Executable(sys.tree.data[s.value].src))
        && (r.Ok? ==> r.value == sys.tree.data[s.value].src)
        && (s.Err? ==> r == Err(s.error))
        && (s.Ok? && !Executable(sys.tree.data[s.value].src) ==> r == Err(CannotRun(TypeName(sys.tree.data[s.value].src))))
    {
      var n := stat(abspath);
      if n.Err? {
        return Err(n.error);
      }
      var src := sys.tree.data[n.value].src;
      if src.Program? {
        return Ok(src);
      }
      r := Err(CannotRun(TypeName(src)));
    }

    /** `Make` and `SetPerm` under a checked parent; the mounts stay where they are. */
    method MakeNode(p: nat, name: string, perm: NodeMode) returns (n: nat)
      requires Ready() && p < |sys.tree.links|
      modifies sys.tree
      ensures Ready()
      ensures var pa := old(sys.tree.data[p]);
        MadeUnder(old(sys.tree.links), old(sys.tree.kids), old(sys.tree.data), sys.tree.links, sys.tree.kids, sys.tree.data,
                  p, name, n, Attr(pa.uid, pa.gid, MadeMode(pa.mode, perm), Nil))
    {
      ghost var links0 := sys.tree.links;
      n := MakeWithPerm(sys.tree, p, name, perm);
      MountedKept(sys.mounts, links0, sys.tree.links);
    }

    /** `Make`, `SetPerm`, `SetResource(src)` and `UnsetMode(ModeDir)` under a checked parent; the mounts stay where they are. */
    method MakeFile(p: nat, name: string, perm: NodeMode, src: Source) returns (n: nat)
      requires Ready() && p < |sys.tree.links|
      modifies sys.tree
      ensures Ready()
      ensures var pa := old(sys.tree.data[p]);
        MadeUnder(old(sys.tree.links), old(sys.tree.kids), old(sys.tree.data), sys.tree.links, sys.tree.kids, sys.tree.data,
                  p, name, n, Attr(pa.uid, pa.gid, Without(MadeMode(pa.mode, perm), ModeDir), src))
    {
      ghost var links0 := sys.tree.links;
      n := MakeFileWithPerm(sys.tree, p, name, perm, src);
      MountedKept(sys.mounts, links0, sys.tree.links);
    }

    /** `UnsetMode(ModeDir)` on the node just made, without touching its source. */
    method MakePlain(p: nat, name: string, perm: NodeMode) returns (n: nat)
      requires Ready() && p < |sys.tree.links|
      modifies sys.tree
      ensures Ready()
      ensures var pa := old(sys.tree.data[p]);
        MadeUnder(old(sys.tree.links), old(sys.tree.kids), old(sys.tree.data), sys.tree.links, sys.tree.kids, sys.tree.data,
                  p, name, n, Attr(pa.uid, pa.gid, Without(MadeMode(pa.mode, perm), ModeDir), Nil))
    {
      ghost var links0, kids0, data0 := sys.tree.links, sys.tree.kids, sys.tree.data;
      n := MakeNode(p, name, perm);
      ghost var data1 := sys.tree.data;
      UnsetMode(sys.tree, n, ModeDir);
      var pa := data0[p];
      Remade(links0, kids0, data0, sys.tree.links, sys.tree.kids, data1, sys.tree.data, p, name, n,
             Attr(pa.uid, pa.gid, MadeMode(pa.mode, perm), Nil), Attr(pa.uid, pa.gid, Without(MadeMode(pa.mode, perm), ModeDir), Nil));
    }

    /**
     * `Mkdir`: `stat` of the directory part and a write check on it, each
     * error behind "Mkdir"; then a new node with the last part as name,
     * the parent's owner, group and flags, and `mode` as permission.
     */
    method Mkdir(abspath: string, mode: NodeMode) returns (r: Result<nat, Error>)
      requires Ready()
      modifies sys.tree
      ensures Ready()
      ensures var (dir, name) := Paths.Split(abspath);
        var s := old(Stated(dir));
        if s.Err? then r == Err(Wrapped("Mkdir", s.error)) && unchanged(sys.tree)
        else
          var w := old(WriteCheck(sys.tree.data, s.value, acc.uid, acc.groups));
          var pa := old(sys.tree.data[s.value]);
          if w.Fail? then r == Err(Wrapped("Mkdir", w.error)) && unchanged(sys.tree)
          else r.Ok? && MadeUnder(old(sys.tree.links), old(sys.tree.kids), old(sys.tree.data),
                                  sys.tree.links, sys.tree.kids, sys.tree.data, s.value, name, r.value,
                                  Attr(pa.uid, pa.gid, MadeMode(pa.mode, mode), Nil))
    {
      var (dir, name) := Paths.Split(abspath);
      var parent := stat(dir);
      if parent.Err? {
        return Err(Wrapped("Mkdir", parent.error));
      }
      var p := parent.value;
      var w := acc.CheckPermitted(OpWrite, SealOf(sys.tree.data[p]));
      if w.Fail? {
        return Err(Wrapped("Mkdir", w.error));
      }
      var n := MakeNode(p, name, mode);
      r := Ok(n);
    }

    /**
     * `Install`: `Stat` of the directory part and a write check on it, each
     * error behind "Install"; then a new node with the last part as name,
     * `mode` as permission, `cmd` as source and `ModeDir` cleared.
     */
    method Install(abspath: string, cmd: Source, mode: NodeMode) returns (r: Result<nat, Error>)
      requires Ready()
      modifies sys.tree
      ensures Ready()
      ensures var (dir, name) := Paths.Split(abspath);
        var s := old(Stated(dir));
        if s.Err? then r == Err(Wrapped("Install", StatFailed(s.error))) && unchanged(sys.tree)
        else
          var w := old(WriteCheck(sys.tree.data, s.value, acc.uid, acc.groups));
          var pa := old(sys.tree.data[s.value]);
          if w.Fail? then r == Err(Wrapped("Install", w.error)) && unchanged(sys.tree)
          else r.Ok? && MadeUnder(old(sys.tree.links), old(sys.tree.kids), old(sys.tree.data),
                                  sys.tree.links, sys.tree.kids, sys.tree.data, s.value, name, r.value,
                                  Attr(pa.uid, pa.gid, Without(MadeMode(pa.mode, mode), ModeDir), cmd))
    {
      var (dir, name) := Paths.Split(abspath);
      var parent := Stat(dir);
      if parent.Err? {
        return Err(Wrapped("Install", parent.error));
      }
      var p := parent.value;
      var w := acc.CheckPermitted(OpWrite, SealOf(sys.tree.data[p]));
      if w.Fail? {
        return Err(Wrapped("Install", w.error));
      }
      var n := MakeFile(p, name, mode, cmd);
      r := Ok(n);
    }

    /**
     * `Create`, without the buffer and the lock: refused when the path
     * already names a directory the account can reach; otherwise `Stat` of
     * the directory part and a write check on it, each error behind
     * "Create"; then a new node with permission 00644 that is not a
     * directory.
     */
    method Create(abspath: string) returns (r: Result<nat, Error>)
      requires Ready()
      modifies sys.tree
      ensures Ready()
      ensures var (dir, name) := Paths.Split(abspath);
        var t, s := old(Stated(abspath)), old(Stated(dir));
        if t.Ok? && IsDir(old(sys.tree.data[t.value])) then r == Err(IsDirectory(abspath)) && unchanged(sys.tree)
        else if s.Err? then r == Err(Wrapped("Create", StatFailed(s.error))) && unchanged(sys.tree)
        else
          var w := old(WriteCheck(sys.tree.data, s.value, acc.uid, acc.groups));
          var pa := old(sys.tree.data[s.value]);
          if w.Fail? then r == Err(Wrapped("Create", w.error)) && unchanged(sys.tree)
          else r.Ok? && MadeUnder(old(sys.tree.links), old(sys.tree.kids), old(sys.tree.data),
                                  sys.tree.links, sys.tree.kids, sys.tree.data, s.value, name, r.value,
                                  Attr(pa.uid, pa.gid, Without(MadeMode(pa.mode, 0x1A4), ModeDir), Nil))
    {
      var rif := Stat(abspath);
      if rif.Ok? && IsDir(sys.tree.data[rif.value]) {
        return Err(IsDirectory(abspath));
      }
      var (dir, name) := Paths.Split(abspath);
      var parent := Stat(dir);
      if parent.Err? {
        return Err(Wrapped("Create", parent.error));
      }
      var p := parent.value;
      var w := acc.CheckPermitted(OpWrite, SealOf(sys.tree.data[p]));
      if w.Fail? {
        return Err(Wrapped("Create", w.error));
      }
      var n := MakePlain(p, name, 0x1A4);
      r := Ok(n);
    }

    /**
     * `mount`: a new root node for `abspath` with the directory and root
     * flags and `mode`, sealed with the account's uid and first group and
     * permission 01755, registered under its name unless that is taken.
     */
    method mount(abspath: string, mode: NodeMode) returns (r: Outcome<Error>)
      requires sys.Valid() && |acc.groups| > 0
      modifies sys.tree, sys`mounts
      ensures sys.Valid()
      ensures var n := old(|sys.tree.links|);
        |sys.tree.links| == n + 1 && sys.tree.links[..n] == old(sys.tree.links) && sys.tree.data[..n] == old(sys.tree.data)
        && sys.tree.links[n] == Link(abspath, None, None, None) && sys.tree.kids == old(sys.tree.kids) + [[]]
        && sys.tree.data[n] == Attr(acc.uid, acc.Gid(), WithPerm(ModeDir | ModeRoot | mode, 0x3ED), Nil)
        && if abspath in old(sys.mounts) then r == Fail(MountExists(abspath)) && sys.mounts == old(sys.mounts)
           else r == Pass && sys.mounts == old(sys.mounts)[abspath := n]
    {
      ghost var links0 := sys.tree.links;
      var rn := NewRootNode(sys.tree, abspath, mode);
      SetSeal(sys.tree, rn, acc.uid, acc.Gid(), 0x3ED);
      MountedKept(sys.mounts, links0, sys.tree.links);
      assert sys.tree.links[..rn] == links0;
      r := sys.Mount(rn);
    }

    /**
     * `Walk`: locates the path and returns `Locate`'s error as it is;
     * otherwise walks from its node, with the path's directory as parent
     * path, with the visitor behind the exec filter, on a new walker told
     * only whether to recurse. Every node the wrapped visitor is shown is
     * reachable through nodes the account may pass. When `abspath` is the
     * clean spelling of its node's absolute path, every node is shown at
     * its own absolute path, except below a mount root other than "/",
     * which the directory of its path puts one level too deep.
     */
    method Walk(abspath: string, recursive: bool, fn: Visitor) returns (r: Outcome<Error>, visits: seq<Visit>)
      requires Ready()
      ensures match Chain(abspath)
        case Err(e) => r == Fail(e) && visits == []
        case Ok(c) =>
          r == Pass
          && visits == Start(sys.tree.links, sys.tree.kids, sys.tree.data, Filter(acc.uid, acc.groups, fn),
                             Some(c[|c| - 1]), Paths.Dir(abspath), State(Fresh.(recursive := recursive), [])).visits
          && (forall k | 0 <= k < |visits| ::
                visits[k].node < |sys.tree.links|
                && (GuardOk(sys.tree.links, sys.tree.data, acc.uid, acc.groups, visits[k].node) ==>
                      Cleared(sys.tree.links, sys.tree.data, acc.uid, acc.groups, StartOwner(sys.tree.links, c[|c| - 1]), visits[k].node)))
          && ((PlainPath(sys.tree.links, c[|c| - 1]) && abspath == AbsPath(sys.tree, c[|c| - 1])
               && (sys.tree.links[c[|c| - 1]].parent.Some? || abspath == "/")) ==> AtAbsPaths(sys.tree.links, visits))
    {
      var w := new Walker();
      w.SetRecursive(recursive);
      var rn := sys.RootNode(abspath);
      var nodes := Locate(sys.tree, rn, abspath);
      if nodes.Err? {
        return Fail(nodes.error), [];
      }
      LocatedLive(sys.tree.links, sys.tree.kids, rn, abspath);
      var child := nodes.value[|nodes.value| - 1];
      w.WalkFrom(sys.tree, Some(child), Paths.Dir(abspath), Filter(acc.uid, acc.groups, fn));
      FilteredShown(sys.tree.links, sys.tree.kids, sys.tree.data, fn, acc.uid, acc.groups, child, abspath, recursive);
      r, visits := Pass, w.visits;
    }
  }
}
