/** The access-control seal of a node: owner, group and mode, with its text form "<mode> <uid> <gid>". */
module Seals {
  import Modes
  import opened Decimal

  datatype Seal = Seal(uid: int, gid: int, mode: Modes.NodeMode)

  /** `Seal.String`: the rwx rendering of the mode, the owner and the group in decimal. */
  function String(s: Seal): string
  {
    Modes.String(s.mode) + " " + IntText(s.uid) + " " + IntText(s.gid)
  }

  /** The text starts with the 13-character mode rendering and a space, then the two ids. */
  lemma StringLayout(s: Seal)
    ensures |String(s)| == 13 + 1 + |IntText(s.uid)| + 1 + |IntText(s.gid)|
    ensures String(s)[..13] == Modes.String(s.mode) && String(s)[13] == ' '
    ensures String(s)[14..] == IntText(s.uid) + " " + IntText(s.gid)
  {
    var t := String(s);
    var m := Modes.String(s.mode);
    assert t == m + (" " + IntText(s.uid) + " " + IntText(s.gid));
  }

  /** Two space-free words followed by a space split a text in one way only. */
  lemma {:induction false} SplitAtSpace(a: string, b: string, c: string, d: string)
    requires ' ' !in a && ' ' !in c
    requires a + " " + b == c + " " + d
    ensures a == c && b == d
  {
    var t := a + " " + b;
    assert t == c + " " + d;
    // the first space of `t` is at |a| and at |c|
    assert t[|a|] == ' ' && forall k | 0 <= k < |a| :: t[k] == a[k];
    assert t[|c|] == ' ' && forall k | 0 <= k < |c| :: t[k] == c[k];
    assert |a| == |c|;
    assert a == t[..|a|] == c;
    assert b == t[|a| + 1..] == d;
  }

  /**
   * Two seals read alike exactly when they have the same owner and group
   * and their modes agree on the directory flag and the permission bits.
   */
  lemma StringSameIff(s: Seal, t: Seal)
    ensures String(s) == String(t) <==>
      s.uid == t.uid && s.gid == t.gid && Modes.Visible(s.mode) == Modes.Visible(t.mode)
  {
    Modes.StringSameIff(s.mode, t.mode);
    StringLayout(s);
    StringLayout(t);
    if String(s) == String(t) {
      assert Modes.String(s.mode) == Modes.String(t.mode);
      SplitAtSpace(IntText(s.uid), IntText(s.gid), IntText(t.uid), IntText(t.gid));
      IntTextInjective(s.uid, t.uid);
      IntTextInjective(s.gid, t.gid);
    }
  }

  /** The seal Root puts on /etc: a directory with permissions 00755, owned by uid and gid 1. */
  lemma StringExample()
    ensures String(Seal(1, 1, Modes.ModeDir | 0x1ED)) == "d---rwxr-xr-x 1 1"
  {
    Modes.StringExample();
  }
}
