/**
 * The resource system of rs/system.go: trees mounted under absolute paths,
 * and the choice of the mount an absolute path falls under. All mounted
 * trees share one arena; a mount is the index of a parentless node there.
 */
module RsSystem {
  import opened Graphs
  import opened Nodes
  import opened Errors
  import opened Wrappers
  import Locator

  /** `strings.Index(abspath, p) == 0`: `p` starts `abspath`, character for character. */
  predicate Covers(p: string, abspath: string)
  {
    Locator.UnderRoot(p, abspath)
  }

  /** `p` is the longest mounted key starting `abspath`, and longer than "/". */
  ghost predicate Longest(mounts: map<string, nat>, abspath: string, p: string)
  {
    p in mounts && Covers(p, abspath) && |p| > 1
    && forall q | q in mounts && Covers(q, abspath) :: |q| <= |p|
  }

  /** No mounted key starting `abspath` is longer than "/". */
  ghost predicate OnlyShort(mounts: map<string, nat>, abspath: string)
  {
    forall q | q in mounts && Covers(q, abspath) :: |q| <= 1
  }

  /** `rn` is the mount `rootNode` settles on: the longest covering key's root, or the root of "/" when none is longer. */
  ghost predicate MountFor(mounts: map<string, nat>, abspath: string, rn: nat)
    requires "/" in mounts
  {
    (exists p :: Longest(mounts, abspath, p) && rn == mounts[p])
    || (OnlyShort(mounts, abspath) && rn == mounts["/"])
  }

  /** The length of the longest prefix of `abspath` no longer than `j` that is mounted; -1 when there is none. */
  function CoverLen(mounts: map<string, nat>, abspath: string, j: nat): (r: int)
    requires j <= |abspath|
    ensures -1 <= r <= j && (r >= 0 ==> abspath[..r] in mounts)
    ensures forall k | r < k <= j :: abspath[..k] !in mounts
  {
    if abspath[..j] in mounts then j
    else if j == 0 then -1
    else CoverLen(mounts, abspath, j - 1)
  }

  /** The key `abspath` is looked up under: its longest mounted prefix when that is longer than "/", else "/". */
  function MountKey(mounts: map<string, nat>, abspath: string): (k: string)
    requires "/" in mounts
    ensures k in mounts
  {
    var j := CoverLen(mounts, abspath, |abspath|);
    if j > 1 then abspath[..j] else "/"
  }

  /** The mount of `abspath`: the root mounted under its key. */
  function MountOf(mounts: map<string, nat>, abspath: string): nat
    requires "/" in mounts
  {
    mounts[MountKey(mounts, abspath)]
  }

  /**
   * `MountOf` is the mount `rootNode` is after, and the only one: two
   * covering keys of the same length are the same key, so the choice does
   * not depend on the order the map is ranged in.
   */
  lemma MountOfIsMountFor(mounts: map<string, nat>, abspath: string, rn: nat)
    requires "/" in mounts
    ensures MountFor(mounts, abspath, MountOf(mounts, abspath))
    ensures MountFor(mounts, abspath, rn) ==> rn == MountOf(mounts, abspath)
  {
    var j := CoverLen(mounts, abspath, |abspath|);
    forall q | q in mounts && Covers(q, abspath) ensures |q| <= j {
      assert abspath[..|q|] == q;
    }
    if j > 1 {
      assert Covers(abspath[..j], abspath);
      assert Longest(mounts, abspath, abspath[..j]);
    } else {
      assert OnlyShort(mounts, abspath);
    }
    if MountFor(mounts, abspath, rn) {
      if p :| Longest(mounts, abspath, p) && rn == mounts[p] {
        assert Covers(abspath[..j], abspath);
        assert p == abspath[..|p|];
      }
    }
  }

  /** A key that starts `abspath`, or "/", at least as long as every mounted key that starts it, is the one `MountOf` picks. */
  lemma Settled(mounts: map<string, nat>, abspath: string, best: string)
    requires "/" in mounts && best in mounts && (best == "/" || (|best| > 1 && Covers(best, abspath)))
    requires forall q | q in mounts && Covers(q, abspath) :: |q| <= |best|
    ensures mounts[best] == MountOf(mounts, abspath)
  {
    if best == "/" {
      assert OnlyShort(mounts, abspath);
    } else {
      assert Longest(mounts, abspath, best);
    }
    MountOfIsMountFor(mounts, abspath, mounts[best]);
  }

  /** Each mount is a parentless node named by its key. */
  ghost predicate Mounted(mounts: map<string, nat>, links: seq<Link>)
  {
    forall k | k in mounts :: mounts[k] < |links| && links[mounts[k]].parent == None && links[mounts[k]].name == k
  }

  /** Growing the arena, or relinking it, without renaming or reparenting any node keeps the mounts in place. */
  lemma MountedKept(mounts: map<string, nat>, a: seq<Link>, b: seq<Link>)
    requires Mounted(mounts, a) && |a| <= |b|
    requires forall y | 0 <= y < |a| :: b[y].name == a[y].name && b[y].parent == a[y].parent
    ensures Mounted(mounts, b)
  {
  }

  class System {
    /** The arena every mounted tree lives in. */
    const tree: Tree
    var mounts: map<string, nat>

    /** The arena is linked up and each mount is one of its roots. */
    ghost predicate Valid()
      reads this, tree
    {
      tree.Valid() && Mounted(mounts, tree.links)
    }

    /** `&System{mounts: make(...)}`: nothing mounted yet. */
    constructor ()
      ensures Valid() && fresh(tree) && tree.links == [] && mounts == map[]
    {
      tree := new Graph();
      mounts := map[];
    }

    /**
     * `mount`: registers the root `rn` under its name, which `path.Clean`
     * leaves as it is for the clean names used here; a name that is
     * already mounted is refused and nothing changes.
     */
    method Mount(rn: nat) returns (r: Outcome<Error>)
      requires Valid() && rn < |tree.links| && tree.links[rn].parent == None
      modifies this`mounts
      ensures Valid()
      ensures var key := tree.links[rn].name;
        if key in old(mounts) then r == Fail(MountExists(key)) && mounts == old(mounts)
        else r == Pass && mounts == old(mounts)[key := rn]
    {
      var key := tree.links[rn].name;
      if key in mounts {
        return Fail(MountExists(key));
      }
      mounts := mounts[key := rn];
      r := Pass;
    }

    /**
     * `rootNode`: starting from the mount of "/", ranges over the mounts
     * in any order and takes a mount whose key starts `abspath` when its
     * root's name is longer than the one held.
     */
    method RootNode(abspath: string) returns (rn: nat)
      requires Valid() && "/" in mounts
      ensures rn < |tree.links| && rn == MountOf(mounts, abspath)
    {
      rn := mounts["/"];
      ghost var best: string := "/";
      var keys := mounts.Keys;
      while keys != {}
        invariant keys <= mounts.Keys
        invariant best in mounts && rn == mounts[best] && |tree.links[rn].name| == |best| >= 1
        invariant best == "/" || (|best| > 1 && Covers(best, abspath))
        invariant forall q | q in mounts && q !in keys && Covers(q, abspath) :: |q| <= |best|
        decreases |keys|
      {
        var p :| p in keys;
        assert tree.links[mounts[p]].name == p;
        if Covers(p, abspath) && |tree.links[mounts[p]].name| > |tree.links[rn].name| {
          rn := mounts[p];
          best := p;
        }
        keys := keys - {p};
      }
      Settled(mounts, abspath, best);
    }
  }
}
