/** The errors the tree and the syscall layer return, and the text each one prints. */
module Errors {
  import opened Decimal
  import Seals
  import Operations

  datatype Error =
    | Denied(seal: Seals.Seal, op: Operations.Operation)  // "<seal> <op> denied"
    | AtPath(path: string, uid: int, cause: Error)        // "<path> uid:<uid>: <cause>"
    | Wrapped(prefix: string, cause: Error)               // "<prefix>: <cause>"
    | StatFailed(cause: Error)                            // "Stat <cause>"
    | NotFound(path: string)
    | NotRoot(path: string)
    | NotOwner(uid: int, path: string)
    | InvalidMode
    | IsDirectory(path: string)
    | CannotRun(typeName: string)
    | MountExists(path: string)

  /** The text `err.Error()` returns. */
  function Message(e: Error): string
  {
    match e
    case Denied(s, op) => Seals.String(s) + " " + Operations.Name(op) + " denied"
    case AtPath(p, uid, c) => p + " uid:" + IntText(uid) + ": " + Message(c)
    case Wrapped(prefix, c) => prefix + ": " + Message(c)
    case StatFailed(c) => "Stat " + Message(c)
    case NotFound(p) => p + " no such directory or resource"
    case NotRoot(p) => p + " not root"
    case NotOwner(uid, p) => "SetMode: " + IntText(uid) + " not owner of " + p
    case InvalidMode => "SetMode: invalid mode"
    case IsDirectory(p) => "Create: " + p + " is a directory"
    case CannotRun(t) => "Cannot run " + t
    case MountExists(p) => "mount: " + p + " already exists"
  }
}
