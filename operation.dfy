/** The three operations an account asks permission for, and the mode bits that grant each one per tier. */
module Operations {
  import opened Modes

  /** Go's `Operation uint`: 0, 1 and 2 are the defined operations. */
  type Operation = nat

  const OpRead: Operation := 0
  const OpWrite: Operation := 1
  const OpExec: Operation := 2

  /** The operations `Modes` has masks for; any other value makes it panic. */
  predicate Known(op: Operation)
  {
    op <= OpExec
  }

  /** The bit granting an operation to the anonymous, user, group and other tier. */
  datatype Masks = Masks(n: NodeMode, u: NodeMode, g: NodeMode, o: NodeMode)

  /**
   * `Modes`: each tier's bit for the operation. The other tier's bit is
   * read 4, write 2 or exec 1, and each tier above it sits three bits higher.
   */
  function ModesOf(op: Operation): (m: Masks)
    requires Known(op)
    ensures m.o == (1 as NodeMode) << (2 - op)
    ensures m.g == m.o << 3 && m.u == m.o << 6 && m.n == m.o << 9
  {
    match op
    case 0 => Masks(0x800, 0x100, 0x020, 0x004)  // 04000 00400 00040 00004
    case 1 => Masks(0x400, 0x080, 0x010, 0x002)  // 02000 00200 00020 00002
    case 2 => Masks(0x200, 0x040, 0x008, 0x001)  // 01000 00100 00010 00001
  }

  /** All four masks of one operation or another together. */
  function Union(m: Masks): NodeMode
  {
    m.n | m.u | m.g | m.o
  }

  /** Different operations never share a bit, and together the masks are exactly `ModePerm`. */
  lemma ModesPartitionPerm()
    ensures Union(ModesOf(OpRead)) & Union(ModesOf(OpWrite)) == 0
    ensures Union(ModesOf(OpRead)) & Union(ModesOf(OpExec)) == 0
    ensures Union(ModesOf(OpWrite)) & Union(ModesOf(OpExec)) == 0
    ensures Union(ModesOf(OpRead)) | Union(ModesOf(OpWrite)) | Union(ModesOf(OpExec)) == ModePerm
  {
  }

  /** Within one operation the four tier bits are distinct single bits of `ModePerm`. */
  lemma ModesSingleBits(op: Operation)
    requires Known(op)
    ensures var m := ModesOf(op);
      m.n & m.u == 0 && m.n & m.g == 0 && m.n & m.o == 0 && m.u & m.g == 0 && m.u & m.o == 0 && m.g & m.o == 0
    ensures var m := ModesOf(op);
      m.n & (m.n - 1) == 0 && m.u & (m.u - 1) == 0 && m.g & (m.g - 1) == 0 && m.o & (m.o - 1) == 0
    ensures Union(ModesOf(op)) & ModePerm == Union(ModesOf(op)) && Union(ModesOf(op)) != 0
  {
  }

  /** `Operation.String`: the name of a known operation, the empty string for any other value. */
  function Name(op: Operation): (s: string)
    ensures s == "" <==> !Known(op)
  {
    if op == OpRead then "read"
    else if op == OpWrite then "write"
    else if op == OpExec then "exec"
    else ""
  }

  /** Known operations have different names. */
  lemma NameInjective(a: Operation, b: Operation)
    requires Known(a) && Known(b) && Name(a) == Name(b)
    ensures a == b
  {
  }
}
