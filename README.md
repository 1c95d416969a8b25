# nugo: a verified model of the node tree, its walker and its syscall layer

nugo keeps an in-memory tree of named nodes. Each node holds a name, an
owner uid, a group gid, a 32-bit mode and an optional source. The links
between nodes are first-child and next-sibling pointers. Four flag bits sit
at the top of the mode:

- `ModeDir`, `ModeSort`, `ModeDistinct` and `ModeRoot`.

Twelve permission bits sit at the bottom, in four tiers:

- anonymous, user, group and other, each with read, write and exec.

An account is a uid and a list of groups. Root (uid 1) passes every check.
Any other account is granted an operation when at least one tier it falls
in (anonymous for uid 0, user for the owner, group for a member of the
node's gid, other for any uid above 0) has the operation's bit set.

On top of the tree, a syscall layer resolves absolute paths from a mount
root:

- `Stat` asks for exec on every node of the resolved chain, including the target.
- `Mkdir`, `Install` and `Create` ask for write on the parent.
- `SetMode` is allowed only for the owner or Root.
- `RemoveAll` unlinks the target.
- Walks pass through a filter that hides what the account may not reach.

The repository holds several generations of this code: nugo itself
(node.go, walker.go), a stripped-down `internal` package, the `rs` package
and the older `nugo/` and `sys/` packages. Each is modelled in its own
module.

The tree is an arena, `Graphs.Graph<T>` (the tree of nodes is
`Graph<Attr>`):

- `links` is a sequence of `Link(name, parent, child, sibling)` records, with references as indices.
- `data` holds each node's attributes.
- The ghost `kids[p]` is the child list of `p` that the sibling chain spells out.

Every pointer-rewriting operation is a method on this arena. Its contract
states the new child list as a function of the old one. Lemmas then prove
what the source promises about those lists: sortedness, distinct names,
"a new name goes after equal names", first-match deletion and "nothing
else changes".

The walker is a class with the same flags as walker.go. Its recursive
`walk` is proved equal to the ghost function `Walkers.Run`. The lemmas
about `Run` prove the following:

- the visit order is preorder;
- every visit carries the node's absolute path;
- stop, skip and recursion behave as documented;
- a fresh walk is the preorder listing cut at the first stop.

The visitor is a pure function of (parent attributes, node attributes,
path) returning which flags to arm. The visits the walker makes are
recorded in a sequence field.

| module | file | models |
|---|---|---|
| `Modes` | mode.dfy | mode.go, node.go:43-80 |
| `Seals` | seal.dfy | seal.go |
| `Operations` | operation.dfy | rs/operation.go |
| `Accounts` | account.dfy | rs/account.go, sys/perm.go |
| `Graphs` | graph.dfy | the pointer surgery of node.go and internal/node.go |
| `Nodes`, `Making` | nodes.dfy, making.dfy | node.go |
| `Walkers` | walker.dfy | walker.go |
| `Finder` | find.dfy | node.go `Find` |
| `Internal` | internal.dfy | internal/node.go |
| `Locator`, `Access` | locate.dfy, access.dfy | path resolution and the exec chain used by every `stat` |
| `RsSystem`, `RsCalls`, `WalkFilter`, `RsWalker` | rs_system.dfy, rs_call.dfy, filter.dfy, rs_walker.dfy | rs/system.go, rs/call.go, rs/walker.go |
| `RsSetup` | rs_setup.dfy | rs/system.go `NewSystem` and `installSys`, and the tree they leave |
| `SysSystem`, `NugoCalls` | sys_system.dfy, nugo_call.dfy | sys/system.go, sys/syscall.go, nugo/call.go |

Helper modules: `Wrappers`, `Errors`, `Decimal`, `Lexical`, `Lists` and `Paths`.

## Model

| member | source | states |
|---|---|---|
| Modes.FlagLayout | mode.go:8-16 | ModeDir, ModeSort, ModeDistinct and ModeRoot are bits 31, 30, 29 and 28, and none of them overlaps ModePerm |
| Modes.String | mode.go:19-35 | the rendering of any mode is exactly 13 characters |
| Modes.StringChars | mode.go:19-42 | character 0 is 'd' iff ModeDir is set; character k shows bit 1<<(12-k) as the matching r/w/x letter, or '-' when the bit is clear |
| Modes.ShownLayout | mode.go:22-33 | characters 1-12 show bits 04000 down to 00001 as r, w, x repeating per tier |
| Modes.StringVisible | mode.go:19-35 | the rendering ignores every bit outside ModeDir and ModePerm |
| Modes.ParseString | mode.go:19-42 | reading a rendering back gives exactly the ModeDir and permission bits of the mode (round trip) |
| Modes.StringSameIff | mode.go:19-42 | two modes render alike iff they agree on ModeDir and on the 12 permission bits |
| Modes.StringExample | mode.go:19-35 | ModeDir\|01755 renders as "d--xrwxr-xr-x" |
| Seals.StringLayout | seal.go:15-17 | a seal's text is the 13-character mode, a space, the decimal uid, a space, the decimal gid, with that length |
| Seals.StringSameIff | seal.go:15-17 | two seals print alike iff they have the same uid and gid and their modes agree on ModeDir and the permission bits |
| Seals.StringExample | seal.go:15-17 | Root's seal of a ModeDir\|0755 node prints "d---rwxr-xr-x 1 1" |
| Operations.ModesOf | rs/operation.go:14-24 | for a known operation, the other mask is 1<<(2-op), and the group, user and anonymous masks are it shifted by 3, 6 and 9 |
| Operations.ModesSingleBits | rs/operation.go:14-24 | the four masks of an operation are distinct single bits inside ModePerm |
| Operations.ModesPartitionPerm | rs/operation.go:14-24 | the masks of read, write and exec are pairwise disjoint, and together they make ModePerm |
| Operations.Name | rs/operation.go:26-37 | the name is empty exactly for values that are not read, write or exec |
| Operations.NameInjective | rs/operation.go:26-37 | different known operations have different names |
| Accounts.Account.constructor | rs/account.go:18-24 | a new account's groups are [uid], so its gid is its uid |
| Accounts.Account.AddGroup | rs/account.go:38-47 | appends gid unless it is already present; groups stay duplicate-free |
| Accounts.Account.DelGroup | rs/account.go:50-59 | removes the first occurrence of gid, keeps the others in order, and is a no-op when gid is absent |
| Accounts.Account.Member | rs/account.go:88-95 | true iff gid is in groups |
| Accounts.Account.CheckPermitted | rs/account.go:70-84 | the method's answer is the permission function's answer |
| Accounts.WithGroupKeepsNoDup | sys/perm.go:23-32 | adding a group keeps the list duplicate-free, contains the group, and is idempotent |
| Accounts.WithoutGroupKeepsNoDup | sys/perm.go:34-43 | removing a group keeps the list duplicate-free, and the group is gone |
| Accounts.AddThenDelRestores | sys/perm.go:23-43 | adding a new group and then deleting it restores the original list |
| Accounts.RootPassesAll | rs/account.go:70-73 | uid 1 is granted every operation on every seal |
| Accounts.PermittedByTiers | rs/account.go:74-83 | a non-root account is granted iff it is in some tier whose bit for the operation is set (anonymous: uid 0; user: owner; group: member of the seal's gid; other: uid > 0) |
| Accounts.TierBitsAreModes | rs/account.go:74-83 | the bit each tier tests is the operation's mask for that tier |
| Accounts.DeniedNamesSeal | rs/account.go:83 | a refusal is the error naming the seal and the operation |
| Accounts.AnonymousOnly | rs/account.go:76 | when only the anonymous bit is set, a non-root account is granted iff its uid is 0 |
| Accounts.OtherOnly | rs/account.go:79 | when only the other bit is set, a non-root account is granted iff its uid is positive |
| Lexical.InsertKeepsSorted | node.go:213-239 | inserting at the insertion point keeps a sorted name list sorted |
| Lexical.EqualNamesStayInFront | node.go:217 | the strict comparison puts a new name after every existing equal name |
| Graphs.Graph.NewNode | node.go:83-86 | a new detached node is added; nothing else changes |
| Graphs.Graph.LastChild | node.go:245-257 | walks the sibling chain to the last child, or None for no children |
| Graphs.Graph.Append | node.go:203-210 | the child list becomes the old list with n at the end; other nodes keep their links |
| Graphs.Graph.Insert | node.go:213-223 | n is inserted into the child list at the first position whose name is greater |
| Graphs.Graph.InsertSibling | node.go:226-239 | from a child that is not after n, n is inserted at the same insertion point |
| Graphs.Graph.LastNotAfter | node.go:228-235 | the loop stops at the last child whose name is not greater than n's |
| Graphs.Graph.DelSibling | node.go:298-311 | the first child named `name` after c is unlinked and returned; the rest keep their order |
| Graphs.Graph.DelChild | node.go:286-296 | the first child named `name` is unlinked and returned, the others keep their order; with no match, None and no change |
| Graphs.Graph.Clone | node.go:269-275 | a new node with x's name and parent, and no child or sibling |
| Nodes.NewNode | node.go:83-86 | a detached node with the escaped name and zero attributes |
| Nodes.NewRoot | node.go:324-329 | a detached node named abspath with ModeDir\|ModeRoot |
| Nodes.NewRootNode | node.go:332-336 | as NewRoot, with the given mode bits added |
| Nodes.Add | node.go:182-201 | the child takes the parent's uid, gid and mode without ModeRoot, and gets the parent as its parent; the child list becomes AddChain of the old one and nothing else moves |
| Nodes.Settle | node.go:191-198 | the names of the children become AddNames of the old names under the distinct and sorted flags |
| Nodes.Evict | node.go:191-193 | in distinct mode, the first same-named child is removed |
| Nodes.Place | node.go:194-198 | the child is inserted in sorted mode and appended otherwise |
| Nodes.Adopt | node.go:186-190 | the inherited attributes and the parent link are set, and the child list is unchanged |
| Nodes.AddNamesDistinct | node.go:191-193 | after a distinct add, the names are still pairwise distinct and include the new name |
| Nodes.AddNamesSorted | node.go:213-239 | after a sorted add, the names are still sorted |
| Nodes.AddNamesAfterEqual | node.go:217 | an added name equal to existing names goes after all of them |
| Nodes.AddNamesAppends | node.go:194-210 | without ModeSort, the new name is last and the old names keep their order |
| Nodes.AddNamesKeeps | node.go:194-198 | a non-distinct add adds exactly the one name |
| Nodes.AddNamesReplaces | node.go:191-193 | a distinct add replaces at most one occurrence of the name |
| Nodes.AddAllNamesKeeps | node.go:171-177 | adding several names adds exactly those names |
| Nodes.AddAllNamesDistinct | node.go:171-177 | in distinct mode, the names stay distinct over several adds, and every added name is present |
| Nodes.AddAllNamesSorted | node.go:171-177 | in sorted mode, the names stay sorted over several adds |
| Nodes.Make | node.go:164-168 | one new child with the escaped name, the inherited attributes and the parent set |
| Nodes.MakeAll | node.go:171-177 | one new child per name, in order, under the parent |
| Nodes.SetPerm | node.go:129-132 | only the mode of the node changes, to WithPerm |
| Nodes.WithPerm | node.go:129-132 | the permission bits become perm, and the other bits are kept |
| Nodes.SetPermKeepsFlags | node.go:129-132 | setting a permission keeps ModeDir, ModeRoot and the type bits |
| Nodes.UnsetMode | node.go:151-153 | only the mode of the node changes, to Without(mask) |
| Nodes.Without | node.go:151-153 | the masked bits become clear, and all others are kept |
| Nodes.WithoutRootKeepsFlags | node.go:186-190 | clearing ModeRoot keeps the dir, sort, distinct and permission bits |
| Nodes.SetSeal | node.go:156-160 | the node gets the uid and gid, and its permission bits are set |
| Nodes.SetSource | node.go:135 | only the source of the node changes |
| Nodes.Copy | node.go:269-275 | a new node with the same name, parent, uid, gid and mode, with no child, no sibling and no source |
| Making.MadeModeBits | rs/call.go:209-211 | a node made and then given perm has those permission bits, no ModeRoot, and the parent's dir and type bits |
| Making.FileModeBits | rs/call.go:138-153 | made, given perm and with ModeDir cleared, the node is not a directory and keeps perm and the type bits |
| Making.MakeWithPerm | sys/syscall.go:28-30 | one new child under the parent, with the inherited bits and the given permission |
| Making.MakeFileWithPerm | rs/call.go:145-152 | as MakeWithPerm, plus the source set and ModeDir cleared |
| Making.MadeFirstChild | sys/system.go:14-35 | making the first child of a childless parent gives a child list of exactly that child |
| Making.MadeKind | node.go:137-148 | a made node is a directory iff its parent is or perm carries ModeDir, and a root iff perm carries ModeRoot; with ModeDir cleared it is never a directory |
| Finder.Find | node.go:340-356 | a receiver without ModeRoot gives a "not root" error; otherwise the result is the first preorder node whose path is abspath, or not found |
| Internal.NewRootNode | internal/node.go:170-177 | a detached node named abspath (unescaped) with exactly the given mode |
| Internal.NewRoot | internal/node.go:163-165 | a root node with no mode bits set |
| Internal.FirstChild | internal/node.go:114 | the head of the child list, or None |
| Internal.LastChild | internal/node.go:117-129 | the last child of the list, or None |
| Internal.Add | internal/node.go:60-73 | the child takes the parent's whole mode; distinct removes a same-named child; sort inserts, otherwise it appends |
| Internal.DelChild | internal/node.go:133-158 | the first child with the name is removed and returned; the others stay in order; with no match, no change |
| Internal.Make | internal/node.go:52-56 | one escaped child per name, and the names of the children follow AddAllNames |
| Internal.Walker.Walk | internal/node.go:219-226 | the visits are the preorder listing with joined paths, cut at the first stop |
| Internal.WalkRoot | internal/node.go:199-201 | a root walk is the preorder of the tree up to the first stop, and each visit is at the node's absolute path |
| Internal.Find | internal/node.go:185-195 | the first preorder node whose path is abspath, or None when none is |
| Walkers.Walker.constructor | walker.go:12-17 | first and recursive are true; stopped and all skips are false; no visits |
| Walkers.Walker.Stop | walker.go:30 | sets stopped |
| Walkers.Walker.SetRecursive | walker.go:33 | sets recursive |
| Walkers.Walker.SkipChild | walker.go:37 | arms skipChild |
| Walkers.Walker.SkipSibling | walker.go:41 | arms skipSibling |
| Walkers.Walker.SkipVisit | walker.go:45 | arms skipVisit |
| Walkers.Walker.Walk | walker.go:48-50 | the new walker state is the walk function applied to the tree from node, with the empty parent path |
| Walkers.Walker.walk | walker.go:52-73 | the recursive method computes the Run function over the sibling chain |
| Walkers.Walker.visit | walker.go:56-72 | one node: flag reset, visit, descent gate, then the sibling check |
| Walkers.NilOrStoppedIsNoop | walker.go:53-55 | walking None, or with a stopped walker, changes nothing |
| Walkers.FirstNodeFlags | walker.go:56-62 | flags armed before the walk apply to the first node |
| Walkers.WalkThrough | walker.go:52-73 | without skips, a walk is the preorder listing cut at the first visit that stops it |
| Walkers.WalkSubtree | walker.go:64-72 | a node is visited before its subtree, and the subtree is finished before its next sibling |
| Walkers.PreWithoutSkips | walker.go:64-72 | the preorder listing does not depend on the visitor when the visitor arms no skip |
| Walkers.PrePaths | walker.go:63-71 | every visit in the preorder listing is at the node's absolute path |
| Walkers.RunPaths | walker.go:63-71 | whatever the visitor does, every visit the walk adds is at that node's absolute path |
| Walkers.StartPaths | walker.go:48-73 | started with its parent's path, a walk reports each node at its absolute path |
| Walkers.RootStartPaths | walker.go:48-73 | a walk from a parentless node, started with a parent path that joins to its name, reports each node at its absolute path |
| Walkers.DirStartPaths | walker.go:48-73 | started with path.Dir of a node's clean absolute path, a walk reports each node at its absolute path |
| Walkers.Walker.WalkFrom | walker.go:48-50 | the new walker state is the walk function applied from the node with the given parent path |
| Walkers.StartFirstVisit | walker.go:56-63 | unless a visit skip is armed, the first visit is the start node at Join(parent, name) |
| Walkers.RunExtends | walker.go:52-73 | a walk only appends visits, and never clears stopped |
| Walkers.ChildrenOnly | walker.go:67-69 | non-recursive below the root: the children are listed and not descended into |
| Walkers.NonRecursiveListsChildren | walker.go:67-69 | a non-recursive walk from the root lists the root and its direct children only |
| Walkers.FreshWalk | walker.go:12-73 | a fresh walk is the preorder of the tree cut at the first visit after which the walker is stopped |
| Walkers.ThroughIsPrefix | walker.go:30 | after a stop, the visitor is not called again: the cut listing is a prefix that ends at the stop |
| Walkers.NotHalted | walker.go:30 | the walk halts iff some visit stops it |
| Locator.Locate | rs/call.go:228 | the method computes Located: NotFound when the path is outside the root or a segment is missing, otherwise the chain from the root |
| Locator.LocatedNames | rs/call.go:228-236 | each node of a located chain carries the matching segment's name |
| Locator.LocatedParents | rs/call.go:228-236 | each node of a located chain is a child of the node before it |
| Locator.LocatedPicked | rs/call.go:228-236 | each step of a located chain picks the first child with the segment's name |
| Locator.LocateFirstChild | rs/call.go:228 | "/name/" resolves to the root and its first child named name |
| Locator.LocateChild | rs/call.go:228 | "/name" resolves to the root and its first child named name |
| Locator.DescendTwo | rs/call.go:228 | two segments lead to the first child named by the first, then its first child named by the second |
| Locator.LocateGrandchild | rs/call.go:228 | "/a/b" resolves to the root, its first child named a and that one's first child named b |
| Locator.LocateMissing | rs/call.go:228 | "/name" is NotFound("/name") when the root has no child of that name |
| Locator.Child | rs/call.go:228 | the first child with the name, or None when there is none |
| Access.ExecRefusalMeaning | rs/call.go:232-236 | the chain passes iff the account has exec on every node of it; otherwise the error is the refusal at the first such node |
| Access.RootPassesChain | rs/call.go:232-236 | Root passes every chain |
| Access.CheckChain | rs/call.go:232-236 | the loop over the chain computes ExecRefusal |
| Access.ResolvedMeaning | rs/call.go:226-238 | stat gives the last node of the located chain iff every node of it grants exec; a locate error is passed on |
| Access.StatReportMeaning | sys/system.go:82-94 | the stat report keeps the located node or the error of the first refusal |
| RsCalls.Syscall.stat | rs/call.go:226-238 | the result is the stat of the path: Locate's error, the first exec refusal with path and uid, or the last node |
| RsCalls.Syscall.Stat | rs/call.go:216-222 | as stat, with an error wrapped as "Stat ..." |
| RsCalls.Syscall.SetMode | rs/call.go:22-35 | a stat error is wrapped; a caller that is neither the owner nor Root is refused; mode > 07777 is refused; otherwise only the permission bits change |
| RsCalls.Syscall.SetModeOnlyPerm | rs/call.go:31-34 | a successful SetMode changes only the permission bits of the one node |
| RsCalls.Syscall.RemoveAll | rs/call.go:38-52 | a locate error is wrapped; an exec refusal on the chain is reported with path and uid; otherwise only the target leaves its parent's children |
| RsCalls.Syscall.Unlink | rs/call.go:51 | DelChild by the target's name removes exactly the target |
| RsCalls.Syscall.ExecCmd | rs/call.go:171-194 | a stat error is passed on; a non-executable source gives "Cannot run <type>"; otherwise the source to run |
| RsCalls.Syscall.Mkdir | rs/call.go:200-212 | nothing changes unless the parent stats and grants write; then one child is made with the parent's owner and flags and mode as its permission |
| RsCalls.Syscall.Install | rs/call.go:138-153 | same authorization as Mkdir, for any command including none; the new node has perm = mode, source = cmd and no ModeDir |
| RsCalls.Syscall.Create | rs/call.go:78-99 | refused if the path is a directory; otherwise a write check on the parent, then a non-directory node with perm 0644 |
| RsCalls.Syscall.mount | rs/call.go:248-252 | a new root node sealed by the account (uid and first group) with 01755 and no children, mounted unless its name is taken |
| RsCalls.Syscall.Walk | rs/call.go:254-291 | a locate error is passed on; otherwise the filtered walk from the target with path.Dir(abspath) as parent path, where every visited node the filter admits was reached through nodes granting exec, and, when abspath is the node's clean absolute path, every visit is at its node's absolute path |
| RsCalls.FilteredShown | rs/call.go:263-291 | the visits of the filtered walk from a node are reached through nodes granting exec, and are at their absolute paths when started from the node's own clean path |
| RsSetup.RootMkdir | rs/call.go:200-212 | when the directory stats to a node root may write, exactly one child with the given name and MadeMode(parent, perm) is made under it; no mount moves and no older node changes |
| RsSetup.RootInstall | rs/call.go:138-153 | as RootMkdir, with the command as source and ModeDir cleared |
| RsSetup.MkdirBin | rs/system.go:40 | on the freshly mounted "/", /bin becomes its only child, with 01755 and the root's owner and flags |
| RsSetup.MkdirEtc | rs/system.go:41 | /etc (00755) is placed after /bin in "/"'s sorted children |
| RsSetup.MkdirAccounts | rs/system.go:42 | /etc/accounts (00755) becomes /etc's only child |
| RsSetup.MkdirTmp | rs/system.go:43 | /tmp (07777) is placed after /bin and /etc |
| RsSetup.InstallMkdir | rs/system.go:44 | /bin/mkdir, with the mkdir command, 00755 and no ModeDir, becomes /bin's only child |
| RsSetup.InstallLs | rs/system.go:45 | /bin/ls, with the ls command, is placed before /bin/mkdir; the whole tree is then the setup layout |
| RsSetup.BinMade | rs/system.go:40 | the arena after /bin: names, parents, children and attributes of both nodes |
| RsSetup.EtcMade | rs/system.go:41 | the arena after /etc, node by node |
| RsSetup.AccountsMade | rs/system.go:42 | the arena after /etc/accounts, node by node |
| RsSetup.TmpMade | rs/system.go:43 | the arena after /tmp, node by node |
| RsSetup.MkdirInstalled | rs/system.go:44 | the arena after /bin/mkdir, node by node |
| RsSetup.LsInstalled | rs/system.go:45 | the arena after /bin/ls is the full setup layout |
| RsSetup.EtcPlaced | node.go:191-198 | the only chain of "/"'s children with the names bin, etc is /bin then /etc |
| RsSetup.TmpPlaced | node.go:191-198 | the only chain with the names bin, etc, tmp is /bin, /etc, /tmp |
| RsSetup.LsPlaced | node.go:191-198 | the only chain of /bin's children with the names ls, mkdir is /bin/ls then /bin/mkdir |
| RsSetup.EtcOrdered | node.go:213-239 | a sorted, distinct add of "etc" to ["bin"] gives ["bin", "etc"] |
| RsSetup.TmpOrdered | node.go:213-239 | a sorted, distinct add of "tmp" to ["bin", "etc"] gives ["bin", "etc", "tmp"] |
| RsSetup.LsOrdered | node.go:213-239 | a sorted, distinct add of "ls" to ["mkdir"] gives ["ls", "mkdir"] |
| RsSetup.SetupDistinct | rs/system.go:38-46 | the seven names of the setup tree are pairwise different |
| RsSetup.NamesDetermine | node.go:191-198 | in an arena whose names are all different, two chains with the same names are the same chain |
| RsSetup.RootAtRoot | rs/call.go:226-238 | with "/" the only mount, Root's stat of "/" is the root, which Root may write |
| RsSetup.RootAtChild | rs/call.go:226-238 | with "/" the only mount, Root's stat of "/name/" is the root's first child so named, which Root may write |
| RsSetup.InstallSys | rs/system.go:36-46 | no mount moves and no existing node changes; on a system holding only the fresh "/", the result is exactly the tree "/" (01755), /bin (01755) with ls and mkdir (00755, not directories, in that order), /etc (00755) with accounts (00755), and /tmp (07777), all owned by 1/1 |
| RsSetup.NewSystem | rs/system.go:24-34 | "/" is the only mount, and the tree is exactly the one InstallSys lays out, under a root that is a sorted, distinct directory with perm 01755 |
| RsSetup.AnonymousExec | rs/account.go:74-83 | the anonymous account may pass "/" and /bin and is refused at /etc |
| RsSetup.AnonymousChains | rs/call.go:232-236 | for the anonymous account, the chains to "/" and /bin pass and those to /etc and /etc/accounts are refused at /etc |
| RsSetup.AnonymousStatsRoot | rs/call_test.go:145 | the anonymous stat of "/" is the root |
| RsSetup.AnonymousStatsBin | rs/call_test.go:146 | the anonymous stat of "/bin" is /bin |
| RsSetup.AnonymousStatsEtc | rs/call_test.go:147 | the anonymous stat of "/etc" is refused at /etc with path and uid 0 |
| RsSetup.AnonymousStatsAccounts | rs/call_test.go:131-137 | the anonymous stat of "/etc/accounts" is refused at /etc with path and uid 0 |
| RsSetup.AnonymousStatsNothing | rs/call_test.go:148 | the anonymous stat of "/nothing" is NotFound("/nothing") |
| RsSetup.AnonymousDeniedText | rs/call_test.go:131-137 | the refusal prints "Stat /etc/accounts uid:0: d---rwxr-xr-x 1 1 exec denied" |
| RsSetup.AnonymousStats | rs/call_test.go:131-148 | on a new system the anonymous account stats "/" and "/bin", is refused for "/etc" and "/etc/accounts" with the printed error, and finds no "/nothing" |
| RsSystem.System.Mount | rs/system.go:59-66 | stores the root under its name; fails and leaves the map as it is when the name is taken |
| RsSystem.System.RootNode | rs/system.go:70-80 | the loop finds the mount with the longest name that is a prefix of abspath, and "/" by default |
| RsSystem.MountOfIsMountFor | rs/system.go:70-80 | MountOf is the one mount that satisfies the longest-prefix specification |
| WalkFilter.FilterGuards | rs/walker.go:28-43 | the wrapped visitor arms SkipChild for every node whose guarding seal (the parent's, or the node's own) denies exec |
| WalkFilter.FilteredWalk | rs/walker.go:26-52 | in a filtered walk, every admitted visit is of a node reached through nodes that grant exec |
| WalkFilter.RunReached | rs/walker.go:33-36 | a denied node's children are not walked |
| RsWalker.Walker.constructor | rs/walker.go:7-12 | a fresh inner walker |
| RsWalker.Walker.SetRecursive | rs/walker.go:20 | forwards to the inner walker |
| RsWalker.Walker.SkipSibling | rs/walker.go:23 | forwards to the inner walker |
| RsWalker.Walker.SkipVisit | rs/walker.go:24 | forwards to the inner walker |
| RsWalker.Walker.WalkAsWritten | rs/walker.go:44-51 | as written: the walk starts with the node's own path as the parent path, and returns nil |
| RsWalker.EtcShownTwice | rs/walker.go:44-50 | as written, a walk from /etc reports it first as "/etc/etc" |
| RsWalker.WrittenPathMisses | rs/walker.go:44-50 | as written, a start node with a parent and a name is first reported at its path joined with its own name, which is never its absolute path |
| RsWalker.Walker.Walk | rs/walker.go:26-52 | corrected: each visit is at its absolute path, and admitted nodes are reachable by exec |
| SysSystem.System.Stat | sys/system.go:82-94 | the single root is used; a locate error is passed on; an exec refusal is reported as "Stat <path> uid:<uid>: ..."; otherwise the last node |
| SysSystem.System.Mkdir | sys/system.go:97-109 | nothing changes unless the parent stats and grants write; then one child whose permission is mode |
| SysSystem.System.Install | sys/system.go:57-78 | same authorization; the new node has perm = mode, the resource as source and no ModeDir |
| SysSystem.NewSystem | sys/system.go:14-35 | exactly the tree "/" (Dir\|Sort\|Distinct, 1/1, 01755) with /bin, /bin/mkdir (00755, not a directory), /etc (00755) and /etc/accounts, in that order |
| SysSystem.BinLocated | sys/system.go:82-94 | in the new system, Root stats "/bin/" to /bin and may write there |
| SysSystem.Syscall.Mkdir | sys/syscall.go:17-30 | the parent must stat and grant write; then exactly one child named after the last segment, whose permission is mode |
| NugoCalls.Syscall.Stat | nugo/call.go:78-90 | the stat of the one root: Locate's error unchanged, an exec refusal, or the last node |
| NugoCalls.Syscall.Mkdir | nugo/call.go:62-74 | nothing changes unless the parent stats and grants write; then one child whose permission is mode |
| NugoCalls.Syscall.Install | nugo/call.go:16-37 | same authorization; perm = mode, the resource set, ModeDir cleared |
| NugoCalls.Syscall.Exec | nugo/call.go:41-54 | succeeds iff the node stats and its source is executable; otherwise "Cannot run <type>" or the stat error |
| Paths.UnescapeEscape | internal/node.go:33-36 | escaping a node name loses nothing |
| Paths.SplitJoin | node.go:103-109 | path.Split and path.Dir undo the join of a clean absolute directory and a plain name |
| Paths.SegmentsOfName | rs/call.go:228 | a plain name is a path of that one segment |
| Paths.SegmentsOfTwo | rs/call.go:228 | "a/b" is a path of the two segments a and b |
| Paths.EscapePlain | node.go:83-86 | a name without '/' and '%' escapes to itself |
| Nodes.PathOf | node.go:103-109 | a node's absolute path ends with its own name, whenever that name does not start with '/' |
| Nodes.AbsPath | node.go:103-109 | for a node whose names are plain, the absolute path starts with '/' and does not end with '/' unless it is "/" |
| Nodes.AbsPathSplits | node.go:103-109 | path.Split of a child's absolute path gives its parent's path (with a '/') and its name, and path.Dir gives the parent's path |
| Decimal.ParseIntText | seal.go:15-17 | the decimal text of an integer reads back to it |

## Left out

- Locking: the tree mutex, the per-node locks and the account lock. The model is sequential.
- `Open`, `Save`, `SaveAs` and `Load`: gob encoding, byte buffers and resource handles are I/O.
- Running an `Executable` and the audit logging. `ExecCmd` and `Exec` return the source that would be run.
- The command-line commands (rs/cmd.go, rs/ls.go, rs/mkacc.go, nugo/cmd.go, sys/cmd.go, `MkdirCmd`), the printers and `dumprs`. They are flag parsing and output.
- nugo/system.go and the stale top-level system.go and tests. They only set up a tree through commands, or name APIs that do not exist.
- `path.Clean` is taken as the identity: every path given to the model is assumed clean.
- `url.PathEscape` is modelled for '/' and '%' only. Those are the two characters that decide how a name splits into segments.
- `Locate` and `nugo.RootNode` are not part of this model. `Locator.Located` states what they are taken to do: follow the first child named by each segment from the mount root, and report NotFound otherwise.
- Several callers use a four-argument `Walk` and a `Skip()` that walker.go does not define. walker.go's `Walk(node, fn)` is followed, with the parent path as an added argument (`Walkers.Walker.WalkFrom`). `Skip()` in rs/call.go is taken as `SkipChild`.
- Nodes enter a child chain only when freshly made (`Make`), as every caller in the source does. `Add` of a node that already sits in another chain is not modelled.
- RsCalls.Syscall.RemoveAll: requires a chain of at least two nodes. On a one-node chain the source indexes `nodes[-1]` and panics.
- RsCalls.Syscall.mount: requires a non-empty group list. The seal takes `gid()`, the first group, and Go's `gid()` panics on an empty list, which `DelGroup` can leave.
- RsCalls.Syscall.Walk: the absolute-path promise is stated only below the "/" mount. Below a mount root other than "/", the parent path `path.Dir(abspath)` is joined with the root's full name, so the root of "/mnt/usb" is shown at "/mnt/mnt/usb", as Go's `path.Join` also gives.
- rs/system.go:40-43 calls a lowercase `mkdir` that rs/call.go does not define. It is modelled as `Mkdir` (`RsSetup.RootMkdir`).
- RsSetup.AnonymousStats: the printed refusal is stated as the concatenation of its parts ("Stat " + path + " uid:" + "0" + ": " + seal + " exec denied").
- RsCalls.Syscall.SetMode: the source compares the account object with Root by identity; the model passes the Root object as a parameter.
- Accounts.Account.Owns: it is `uid == id` and carries no separate contract.
- Accounts.Account.Gid: it is the first group and carries no separate contract beyond the constructor's `Gid() == uid`.
- Mode values are 32-bit (`bv32`), as `NodeMode` is `uint32`. Wider mode arguments are not modelled.
- internal/seal.go is left out: it calls a `String` the internal package does not define.

## Findings

| source | as written | input that shows it | evidently intended | confidence | as-written member | corrected member |
|---|---|---|---|---|---|---|
| rs/walker.go:44-50 | the parent path handed to the inner walk is the start node's own `AbsPath()` | a walk from the node "/etc" of a tree "/" → "etc" | the parent's path, so that the start node is reported at "/etc", as the walk in rs/call.go does | medium, not executed | RsWalker.EtcShownTwice | RsWalker.Walker.Walk |
