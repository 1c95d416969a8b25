/**
 * The syscalls of nugo/call.go, the older copy of the syscall layer: an
 * account bound to a system with one root, whose `mounts` answers that
 * root for every path.
 */
module NugoCalls {
  import opened Wrappers
  import opened Graphs
  import opened Modes
  import opened Nodes
  import opened Errors
  import opened Operations
  import opened Accounts
  import opened Locator
  import opened Access
  import opened Making
  import opened SysSystem
  import Paths

  class Syscall {
    const sys: System
    const acc: Account

    constructor (sys: System, acc: Account)
      ensures this.sys == sys && this.acc == acc
    {
      this.sys := sys;
      this.acc := acc;
    }

    /**
     * `Stat`: locates `abspath` from the root, `Locate`'s error as it is;
     * then exec on every node of the chain, a refusal reported as
     * "Stat <path> uid:<uid>: ..."; otherwise the last node of the chain.
     */
    method Stat(abspath: string) returns (r: Result<nat, Error>)
      requires sys.Valid()
      ensures r == sys.Stated(abspath, acc)
      ensures r.Ok? ==> r.value < |sys.tree.links|
    {
      var rn := sys.rn;
      LocatedNames(sys.tree.links, sys.tree.kids, rn, abspath);
      var nodes := Locate(sys.tree, rn, abspath);
      if nodes.Err? {
        return Err(nodes.error);
      }
      LocatedParents(sys.tree.links, sys.tree.kids, rn, abspath);
      var e := CheckChain(acc, sys.tree, nodes.value);
      if e.Fail? {
        return Err(StatFailed(AtPath(abspath, acc.uid, e.error)));
      }
      r := Ok(nodes.value[|nodes.value| - 1]);
    }

    /**
     * `Install`: `Stat` of the directory part, its error as it is, and a
     * write check there, its refusal behind "Install"; then a new node with
     * the last part as name, `mode` as permission, `resource` as source and
     * `ModeDir` cleared. Nothing changes when a check fails.
     */
    method Install(abspath: string, resource: Source, mode: NodeMode) returns (r: Result<nat, Error>)
      requires sys.Valid()
      modifies sys.tree
      ensures sys.Valid()
      ensures var (dir, name) := Paths.Split(abspath);
        var s := old(sys.Stated(dir, acc));
        if s.Err? then r == s && unchanged(sys.tree)
        else
          var w := old(WriteCheck(sys.tree.data, s.value, acc.uid, acc.groups));
          var pa := old(sys.tree.data[s.value]);
          if w.Fail? then r == Err(Wrapped("Install", w.error)) && unchanged(sys.tree)
          else r.Ok? && MadeUnder(old(sys.tree.links), old(sys.tree.kids), old(sys.tree.data),
                                  sys.tree.links, sys.tree.kids, sys.tree.data,
                                  s.value, name, r.value, Attr(pa.uid, pa.gid, Without(MadeMode(pa.mode, mode), ModeDir), resource))
    {
      var (dir, name) := Paths.Split(abspath);
      var n := Stat(dir);
      if n.Err? {
        return n;
      }
      var p := n.value;
      var w := acc.CheckPermitted(OpWrite, SealOf(sys.tree.data[p]));
      if w.Fail? {
        return Err(Wrapped("Install", w.error));
      }
      var c := MakeFileWithPerm(sys.tree, p, name, mode, resource);
      r := Ok(c);
    }

    /**
     * `Exec`, without running anything: the error of `Stat` as it is; the
     * node's source when it is executable, which is then run; "Cannot run"
     * naming the source's type otherwise.
     */
    method Exec(abspath: string) returns (r: Result<Source, Error>)
      requires sys.Valid()
      ensures var s := sys.Stated(abspath, acc);
        (r.Ok? <==> s.Ok? && Executable(sys.tree.data[s.value].src))
        && (r.Ok? ==> r.value == sys.tree.data[s.value].src)
        && (s.Err? ==> r == Err(s.error))
        && (s.Ok? && !Executable(sys.tree.data[s.value].src) ==> r == Err(CannotRun(TypeName(sys.tree.data[s.value].src))))
    {
      var n := Stat(abspath);
      if n.Err? {
        return Err(n.error);
      }
      var src := sys.tree.data[n.value].src;
      if src.Program? {
        return Ok(src);
      }
      r := Err(CannotRun(TypeName(src)));
    }

    /**
     * `Mkdir`: `Stat` of the directory part and a write check there, each
     * error behind "Mkdir"; then a new node with the last part as name, the
     * parent's owner, group and flags, and `mode` as permission.
     */
    method Mkdir(abspath: string, mode: NodeMode) returns (r: Result<nat, Error>)
      requires sys.Valid()
      modifies sys.tree
      ensures sys.Valid()
      ensures var (dir, name) := Paths.Split(abspath);
        var s := old(sys.Stated(dir, acc));
        if s.Err? then r == Err(Wrapped("Mkdir", s.error)) && unchanged(sys.tree)
        else
          var w := old(WriteCheck(sys.tree.data, s.value, acc.uid, acc.groups));
          var pa := old(sys.tree.data[s.value]);
          if w.Fail? then r == Err(Wrapped("Mkdir", w.error)) && unchanged(sys.tree)
          else r.Ok? && MadeUnder(old(sys.tree.links), old(sys.tree.kids), old(sys.tree.data),
                                  sys.tree.links, sys.tree.kids, sys.tree.data,
                                  s.value, name, r.value, Attr(pa.uid, pa.gid, MadeMode(pa.mode, mode), Nil))
    {
      var (dir, name) := Paths.Split(abspath);
      var parent := Stat(dir);
      if parent.Err? {
        return Err(Wrapped("Mkdir", parent.error));
      }
      var p := parent.value;
      var w := acc.CheckPermitted(OpWrite, SealOf(sys.tree.data[p]));
      if w.Fail? {
        return Err(Wrapped("Mkdir", w.error));
      }
      var c := MakeWithPerm(sys.tree, p, name, mode);
      r := Ok(c);
    }
  }
}
