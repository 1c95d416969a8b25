/**
 * The checks the syscall layers make before touching the tree: exec on
 * every node of a located chain, the target included (`stat` in
 * rs/call.go, `Stat` in nugo/call.go and sys/system.go), and write on the
 * parent a new node goes under.
 */
module Access {
  import opened Wrappers
  import opened Graphs
  import opened Nodes
  import opened Errors
  import opened Operations
  import opened Accounts
  import opened Locator

  /** The refusal of the first node of `chain` whose seal denies exec; nothing when every node grants it. */
  function ExecRefusal(data: seq<Attr>, chain: seq<nat>, uid: int, groups: seq<int>): Outcome<Error>
    requires forall k | 0 <= k < |chain| :: chain[k] < |data|
  {
    if chain == [] then Pass
    else match Permitted(uid, groups, OpExec, SealOf(data[chain[0]]))
      case Fail(e) => Fail(e)
      case Pass => ExecRefusal(data, chain[1..], uid, groups)
  }

  /** The account may pass through node `x`. */
  predicate ExecGranted(data: seq<Attr>, x: nat, uid: int, groups: seq<int>)
    requires x < |data|
  {
    Permitted(uid, groups, OpExec, SealOf(data[x])).Pass?
  }

  /**
   * The check passes exactly when every node grants exec, and a refusal is
   * the denial of the first node that does not, naming its seal.
   */
  lemma {:induction false} ExecRefusalMeaning(data: seq<Attr>, chain: seq<nat>, uid: int, groups: seq<int>)
    requires forall k | 0 <= k < |chain| :: chain[k] < |data|
    ensures ExecRefusal(data, chain, uid, groups).Pass? <==>
      forall k | 0 <= k < |chain| :: ExecGranted(data, chain[k], uid, groups)
    ensures ExecRefusal(data, chain, uid, groups).Fail? ==>
      exists k | 0 <= k < |chain| ::
        (forall j | 0 <= j < k :: ExecGranted(data, chain[j], uid, groups))
        && ExecRefusal(data, chain, uid, groups).error == Denied(SealOf(data[chain[k]]), OpExec)
  {
    if chain != [] {
      ExecRefusalMeaning(data, chain[1..], uid, groups);
      var r := ExecRefusal(data, chain, uid, groups);
      if ExecGranted(data, chain[0], uid, groups) {
        assert r == ExecRefusal(data, chain[1..], uid, groups);
        if r.Fail? {
          var k :| 0 <= k < |chain[1..]| && (forall j | 0 <= j < k :: ExecGranted(data, chain[1..][j], uid, groups))
            && r.error == Denied(SealOf(data[chain[1..][k]]), OpExec);
          assert forall j | 0 <= j < k + 1 :: ExecGranted(data, chain[j], uid, groups) by {
            forall j | 0 <= j < k + 1 ensures ExecGranted(data, chain[j], uid, groups) {
              if j > 0 { assert chain[j] == chain[1..][j - 1]; }
            }
          }
          assert chain[k + 1] == chain[1..][k];
        } else {
          forall k | 0 <= k < |chain| ensures ExecGranted(data, chain[k], uid, groups) {
            if k > 0 { assert chain[k] == chain[1..][k - 1]; }
          }
        }
      } else {
        DeniedNamesSeal(uid, groups, OpExec, SealOf(data[chain[0]]));
      }
    }
  }

  /** Root passes through every chain. */
  lemma {:induction false} RootPassesChain(data: seq<Attr>, chain: seq<nat>, groups: seq<int>)
    requires forall k | 0 <= k < |chain| :: chain[k] < |data|
    ensures ExecRefusal(data, chain, RootUid, groups) == Pass
  {
    if chain != [] {
      RootPassesChain(data, chain[1..], groups);
    }
  }

  /**
   * `stat`: the error of `Locate` as it is; otherwise the first exec refusal
   * on the chain, reported with the path and the uid; otherwise the last
   * node of the chain.
   */
  ghost function Resolved(links: seq<Link>, kids: seq<seq<nat>>, data: seq<Attr>, root: nat, abspath: string,
                          uid: int, groups: seq<int>): (r: Result<nat, Error>)
    requires WellLinked(links, kids) && |data| == |links| && root < |links|
    ensures r.Ok? ==> r.value < |links|
  {
    LocatedParents(links, kids, root, abspath);
    match Located(links, kids, root, abspath)
    case Err(e) => Err(e)
    case Ok(c) =>
      match ExecRefusal(data, c, uid, groups)
      case Fail(e) => Err(AtPath(abspath, uid, e))
      case Pass => Ok(c[|c| - 1])
  }

  /**
   * What `stat` promises: a node comes back only when the path locates a
   * chain every node of which grants exec, and it is the chain's last node;
   * an error is the not-found of `Locate` or an exec denial at the path.
   */
  lemma ResolvedMeaning(links: seq<Link>, kids: seq<seq<nat>>, data: seq<Attr>, root: nat, abspath: string,
                        uid: int, groups: seq<int>)
    requires WellLinked(links, kids) && |data| == |links| && root < |links|
    ensures var r := Resolved(links, kids, data, root, abspath, uid, groups);
      var l := Located(links, kids, root, abspath);
      (r.Ok? <==> l.Ok? && forall k | 0 <= k < |l.value| :: l.value[k] < |data| && ExecGranted(data, l.value[k], uid, groups))
      && (r.Ok? ==> |l.value| > 0 && r.value == l.value[|l.value| - 1])
      && (r.Err? ==> r.error == NotFound(abspath) || exists s :: r.error == AtPath(abspath, uid, Denied(s, OpExec)))
  {
    LocatedParents(links, kids, root, abspath);
    LocatedNames(links, kids, root, abspath);
    var l := Located(links, kids, root, abspath);
    if l.Ok? {
      ExecRefusalMeaning(data, l.value, uid, groups);
    }
  }

  /**
   * The answer of `Stat` in sys/system.go and nugo/call.go, which check the
   * chain as `stat` does but put an exec denial behind "Stat".
   */
  function StatReport(r: Result<nat, Error>): Result<nat, Error>
  {
    if r.Err? && r.error.AtPath? then Err(StatFailed(r.error)) else r
  }

  /**
   * What those `Stat`s promise: a node comes back exactly when the path
   * locates a chain every node of which grants exec, and it is the chain's
   * last node; an error is the not-found of `Locate`, or an exec denial
   * naming the path and the uid behind "Stat".
   */
  lemma StatReportMeaning(links: seq<Link>, kids: seq<seq<nat>>, data: seq<Attr>, root: nat, abspath: string,
                          uid: int, groups: seq<int>)
    requires WellLinked(links, kids) && |data| == |links| && root < |links|
    ensures var r := StatReport(Resolved(links, kids, data, root, abspath, uid, groups));
      var l := Located(links, kids, root, abspath);
      (r.Ok? <==> l.Ok? && forall k | 0 <= k < |l.value| :: l.value[k] < |data| && ExecGranted(data, l.value[k], uid, groups))
      && (r.Ok? ==> |l.value| > 0 && r.value == l.value[|l.value| - 1])
      && (r.Err? ==> r.error == NotFound(abspath) || exists s :: r.error == StatFailed(AtPath(abspath, uid, Denied(s, OpExec))))
  {
    ResolvedMeaning(links, kids, data, root, abspath, uid, groups);
    var r0 := Resolved(links, kids, data, root, abspath, uid, groups);
    if r0.Err? && r0.error != NotFound(abspath) {
      var s :| r0.error == AtPath(abspath, uid, Denied(s, OpExec));
      assert StatReport(r0).error == StatFailed(AtPath(abspath, uid, Denied(s, OpExec)));
    }
  }

  /** The write check on the node a new child goes under. */
  function WriteCheck(data: seq<Attr>, p: nat, uid: int, groups: seq<int>): Outcome<Error>
    requires p < |data|
  {
    Permitted(uid, groups, OpWrite, SealOf(data[p]))
  }

  /** The exec check over a chain, one node after the other, stopping at the first refusal. */
  method CheckChain(acc: Account, g: Tree, nodes: seq<nat>) returns (r: Outcome<Error>)
    requires g.Valid() && forall k | 0 <= k < |nodes| :: nodes[k] < |g.links|
    ensures r == ExecRefusal(g.data, nodes, acc.uid, acc.groups)
  {
    var i := 0;
    while i < |nodes|
      invariant 0 <= i <= |nodes|
      invariant ExecRefusal(g.data, nodes, acc.uid, acc.groups) == ExecRefusal(g.data, nodes[i..], acc.uid, acc.groups)
    {
      assert nodes[i..][1..] == nodes[i + 1..];
      var e := acc.CheckPermitted(OpExec, SealOf(g.data[nodes[i]]));
      if e.Fail? {
        return e;
      }
      i := i + 1;
    }
    return Pass;
  }
}
