/**
 * The 32-bit node mode: four flag bits at the top and twelve permission bits
 * at the bottom, three (read, write, execute) for each of the tiers anonymous,
 * user, group and other. Go writes the masks in octal; they are written here
 * in hexadecimal with the octal value alongside.
 */
module Modes {

  type NodeMode = bv32

  const ModeDir: NodeMode := 1 << (32 - 1 - 0)
  const ModeSort: NodeMode := 1 << (32 - 1 - 1)      // children kept sorted by name
  const ModeDistinct: NodeMode := 1 << (32 - 1 - 2)  // no two children share a name
  const ModeRoot: NodeMode := 1 << (32 - 1 - 3)
  const ModeType: NodeMode := ModeSort | ModeDistinct
  const ModePerm: NodeMode := 0xFFF                  // 07777

  /** The bits `String` shows: the directory flag and the permission bits. */
  function Visible(m: NodeMode): NodeMode
  {
    m & (ModeDir | ModePerm)
  }

  /** `c` when every bit of `mask` is set in `m`, otherwise '-'. */
  function MChar(m: NodeMode, mask: NodeMode, c: char): char
  {
    if m & mask == mask then c else '-'
  }

  /**
   * The bit each position of the rendering shows: the directory flag, then
   * 04000 down to 00001.
   */
  const Shown: seq<NodeMode> :=
    [ModeDir, 0x800, 0x400, 0x200, 0x100, 0x080, 0x040, 0x020, 0x010, 0x008, 0x004, 0x002, 0x001]

  /** The letter each position shows when its bit is set. */
  const Letters: string := "drwxrwxrwxrwx"

  /** The rwx rendering: 'd' or '-', then rwx for anonymous, user, group and other. */
  function String(m: NodeMode): (s: string)
    ensures |s| == 13
  {
    seq(13, k requires 0 <= k < 13 => MChar(m, Shown[k], Letters[k]))
  }

  /** For a single bit, "every bit of the mask is set" is "the mask meets the mode". */
  lemma SingleBit(m: NodeMode, mask: NodeMode)
    requires mask & (mask - 1) == 0 && mask != 0
    ensures m & mask == mask <==> m & mask != 0
  {
  }

  /** Every position shows one bit, with a letter other than '-'. */
  lemma ShownSingle(k: nat)
    requires k < 13
    ensures Shown[k] & (Shown[k] - 1) == 0 && Shown[k] != 0
    ensures Shown[k] & (ModeDir | ModePerm) == Shown[k]
    ensures Letters[k] != '-'
  {
    if k == 0 { }
    else if k == 1 { }
    else if k == 2 { }
    else if k == 3 { }
    else if k == 4 { }
    else if k == 5 { }
    else if k == 6 { }
    else if k == 7 { }
    else if k == 8 { }
    else if k == 9 { }
    else if k == 10 { }
    else if k == 11 { }
    else { }
  }

  /** Position 0 shows the directory flag, positions 1 to 12 the permission bits as r, w, x per tier. */
  lemma StringChars(m: NodeMode, k: nat)
    requires k < 13
    ensures k == 0 ==> String(m)[k] == (if m & ModeDir != 0 then 'd' else '-')
    ensures k > 0 ==> String(m)[k] == (if m & Shown[k] != 0 then "rwx"[(k - 1) % 3] else '-')
    ensures k > 0 ==> Shown[k] == (1 as NodeMode) << (12 - k)
  {
    ShownSingle(k);
    SingleBit(m, Shown[k]);
    if k > 0 {
      ShownLayout(k);
    }
  }

  /** Position `k` past the first shows bit 12 - k with the letter of its place in its tier. */
  lemma ShownLayout(k: nat)
    requires 0 < k < 13
    ensures Shown[k] == (1 as NodeMode) << (12 - k)
    ensures Letters[k] == "rwx"[(k - 1) % 3]
  {
    if k == 1 { }
    else if k == 2 { }
    else if k == 3 { }
    else if k == 4 { }
    else if k == 5 { }
    else if k == 6 { }
    else if k == 7 { }
    else if k == 8 { }
    else if k == 9 { }
    else if k == 10 { }
    else if k == 11 { }
    else { }
  }

  /** The bit one position of a rendering stands for: `b` when it shows `c`, nothing otherwise. */
  function ReadChar(x: char, c: char, b: NodeMode): NodeMode
  {
    if x == c then b else 0
  }

  /** Reads positions `k` and on of a rendering back into the bits they show. */
  function ParseFrom(s: string, k: nat): NodeMode
    requires |s| == 13 && k <= 13
    decreases 13 - k
  {
    if k == 13 then 0 else ReadChar(s[k], Letters[k], Shown[k]) | ParseFrom(s, k + 1)
  }

  /** Reads a rendering back into the bits it shows. */
  function Parse(s: string): NodeMode
    requires |s| == 13
  {
    ParseFrom(s, 0)
  }

  /** The bits shown from position `k` on. */
  function ShownFrom(k: nat): NodeMode
    requires k <= 13
    decreases 13 - k
  {
    if k == 13 then 0 else Shown[k] | ShownFrom(k + 1)
  }

  /** Reading back the position that shows a single bit gives that bit of the mode. */
  lemma ReadBack(m: NodeMode, b: NodeMode, c: char)
    requires b & (b - 1) == 0 && b != 0 && c != '-'
    ensures ReadChar(MChar(m, b, c), c, b) == m & b
  {
  }

  lemma AndDistributes(m: NodeMode, a: NodeMode, b: NodeMode)
    ensures (m & a) | (m & b) == m & (a | b)
  {
  }

  lemma {:induction false} ParseFromString(m: NodeMode, k: nat)
    requires k <= 13
    ensures ParseFrom(String(m), k) == m & ShownFrom(k)
    decreases 13 - k
  {
    if k < 13 {
      ParseFromString(m, k + 1);
      ShownSingle(k);
      ReadBack(m, Shown[k], Letters[k]);
      assert String(m)[k] == MChar(m, Shown[k], Letters[k]);
      AndDistributes(m, Shown[k], ShownFrom(k + 1));
    }
  }

  /** The rendering round-trips: parsing it gives back exactly the visible bits. */
  lemma ParseString(m: NodeMode)
    ensures Parse(String(m)) == Visible(m)
  {
    ParseFromString(m, 0);
    assert ShownFrom(0) == ModeDir | ModePerm;
  }

  /** The rendering depends on the visible bits only. */
  lemma StringVisible(m: NodeMode)
    ensures String(m) == String(Visible(m))
  {
    forall k | 0 <= k < 13
      ensures String(m)[k] == String(Visible(m))[k]
    {
      ShownSingle(k);
    }
  }

  /** Two modes render alike exactly when they agree on the directory flag and the permission bits. */
  lemma StringSameIff(a: NodeMode, b: NodeMode)
    ensures String(a) == String(b) <==> Visible(a) == Visible(b)
  {
    ParseString(a);
    ParseString(b);
    StringVisible(a);
    StringVisible(b);
  }

  /** The flag bits are bits 31 to 28 and none of them overlaps the permission bits. */
  lemma FlagLayout()
    ensures ModeDir == 0x8000_0000 && ModeSort == 0x4000_0000
    ensures ModeDistinct == 0x2000_0000 && ModeRoot == 0x1000_0000
    ensures (ModeDir | ModeSort | ModeDistinct | ModeRoot) & ModePerm == 0
  {
  }

  /** The listing of a directory with permissions 01755. */
  lemma StringExample()
    ensures String(ModeDir | 0x3ED) == "d--xrwxr-xr-x"
  {
  }
}
