/**
 * Accounts and the permission check of rs/account.go; sys/perm.go keeps a
 * copy of the account half with the same group handling.
 */
module Accounts {
  import opened Wrappers
  import opened Lists
  import opened Modes
  import opened Operations
  import opened Seals
  import opened Errors

  /** The uid of the Root account; an account with this uid passes every check. */
  const RootUid: int := 1
  /** The uid of the Anonymous account. */
  const AnonymousUid: int := 0

  /** Every bit of `mask` is set in `mode`. */
  predicate Has(mode: NodeMode, mask: NodeMode)
  {
    mode & mask == mask
  }

  /**
   * `permitted`: Root passes; otherwise the account passes when some tier
   * it falls in has the operation's bit set, the tiers being tried as
   * anonymous (uid 0), owner, group member and other (any uid above 0),
   * each falling through to the next; otherwise the seal and
   * the operation are reported as denied. The masks are only looked up for
   * a non-Root account, so only that case needs a known operation.
   */
  function Permitted(uid: int, groups: seq<int>, op: Operation, seal: Seal): Outcome<Error>
    requires uid == RootUid || Known(op)
  {
    if uid == RootUid then Pass
    else
      var m := ModesOf(op);
      if uid == 0 && Has(seal.mode, m.n) then Pass
      else if uid == seal.uid && Has(seal.mode, m.u) then Pass
      else if seal.gid in groups && Has(seal.mode, m.g) then Pass
      else if uid > 0 && Has(seal.mode, m.o) then Pass
      else Fail(Denied(seal, op))
  }

  /** The bit of tier `t` (0 anonymous, 1 user, 2 group, 3 other) for a known operation, by position. */
  function TierBit(op: Operation, t: nat): NodeMode
    requires Known(op) && t < 4
  {
    (1 as NodeMode) << ((3 - t) * 3 + (2 - op))
  }

  /** The tiers an account falls in for a seal. */
  predicate InTier(uid: int, groups: seq<int>, seal: Seal, t: nat)
  {
    (t == 0 && uid == 0) || (t == 1 && uid == seal.uid) || (t == 2 && seal.gid in groups) || (t == 3 && uid > 0)
  }

  lemma TierBitsAreModes(op: Operation)
    requires Known(op)
    ensures TierBit(op, 0) == ModesOf(op).n && TierBit(op, 1) == ModesOf(op).u
    ensures TierBit(op, 2) == ModesOf(op).g && TierBit(op, 3) == ModesOf(op).o
  {
  }

  /**
   * The check agrees with the bit layout: a non-Root account is granted
   * exactly when some tier it falls in has the operation's bit set.
   */
  lemma PermittedByTiers(uid: int, groups: seq<int>, op: Operation, seal: Seal)
    requires uid != RootUid && Known(op)
    ensures Permitted(uid, groups, op, seal).Pass? <==>
      exists t | 0 <= t < 4 :: InTier(uid, groups, seal, t) && Has(seal.mode, TierBit(op, t))
  {
    TierBitsAreModes(op);
    var m := ModesOf(op);
    if Permitted(uid, groups, op, seal).Pass? {
      if uid == 0 && Has(seal.mode, m.n) { assert InTier(uid, groups, seal, 0); }
      else if uid == seal.uid && Has(seal.mode, m.u) { assert InTier(uid, groups, seal, 1); }
      else if seal.gid in groups && Has(seal.mode, m.g) { assert InTier(uid, groups, seal, 2); }
      else { assert InTier(uid, groups, seal, 3); }
    }
  }

  /** Root is granted every operation on every seal, even one `Modes` knows nothing of. */
  lemma RootPassesAll(groups: seq<int>, op: Operation, seal: Seal)
    ensures Permitted(RootUid, groups, op, seal) == Pass
  {
  }

  /** A refusal names the seal and the operation. */
  lemma DeniedNamesSeal(uid: int, groups: seq<int>, op: Operation, seal: Seal)
    requires uid == RootUid || Known(op)
    ensures Permitted(uid, groups, op, seal).Fail? ==> Permitted(uid, groups, op, seal).error == Denied(seal, op)
  {
  }

  /** When only the anonymous bit grants the operation, a non-Root account passes exactly when its uid is 0. */
  lemma AnonymousOnly(uid: int, groups: seq<int>, op: Operation, seal: Seal)
    requires uid != RootUid && Known(op)
    requires var m := ModesOf(op);
      Has(seal.mode, m.n) && !Has(seal.mode, m.u) && !Has(seal.mode, m.g) && !Has(seal.mode, m.o)
    ensures Permitted(uid, groups, op, seal).Pass? <==> uid == 0
  {
  }

  /** When only the other bit grants the operation, a non-Root account passes exactly when its uid is above 0. */
  lemma OtherOnly(uid: int, groups: seq<int>, op: Operation, seal: Seal)
    requires uid != RootUid && Known(op)
    requires var m := ModesOf(op);
      !Has(seal.mode, m.n) && !Has(seal.mode, m.u) && !Has(seal.mode, m.g) && Has(seal.mode, m.o)
    ensures Permitted(uid, groups, op, seal).Pass? <==> uid > 0
  {
  }

  /** The group list after `AddGroup(gid)`: unchanged when present, otherwise `gid` appended. */
  function WithGroup(groups: seq<int>, gid: int): seq<int>
  {
    if gid in groups then groups else groups + [gid]
  }

  /** `AddGroup` never creates a duplicate, and a second `AddGroup` of the same id changes nothing. */
  lemma WithGroupKeepsNoDup(groups: seq<int>, gid: int)
    requires NoDup(groups)
    ensures NoDup(WithGroup(groups, gid)) && gid in WithGroup(groups, gid)
    ensures WithGroup(WithGroup(groups, gid), gid) == WithGroup(groups, gid)
  {
    if gid !in groups {
      AppendNoDup(groups, gid);
    }
  }

  /** `DelGroup` leaves no duplicate and removes the id for good. */
  lemma WithoutGroupKeepsNoDup(groups: seq<int>, gid: int)
    requires NoDup(groups)
    ensures NoDup(RemoveFirst(groups, gid)) && gid !in RemoveFirst(groups, gid)
  {
    RemoveFirstNoDup(groups, gid);
  }

  /** Adding a new group and deleting it again gives back the original list. */
  lemma AddThenDelRestores(groups: seq<int>, gid: int)
    requires gid !in groups
    ensures RemoveFirst(WithGroup(groups, gid), gid) == groups
  {
    RemoveFirstAfterAppend(groups, gid);
  }

  class Account {
    var name: string
    var uid: int
    var groups: seq<int>

    ghost predicate Valid()
      reads this
    {
      NoDup(groups)
    }

    /** `NewAccount`: the uid doubles as the account's only group. */
    constructor (name: string, uid: int)
      ensures Valid() && this.name == name && this.uid == uid && groups == [uid]
      ensures |groups| > 0 && Gid() == uid
    {
      this.name := name;
      this.uid := uid;
      groups := [uid];
    }

    /** `gid`: the first group; the Go code indexes the slice, so the list must not be empty. */
    function Gid(): int
      reads this
      requires |groups| > 0
    {
      groups[0]
    }

    function Owns(id: int): bool
      reads this
    {
      uid == id
    }

    /** `member`: scans the groups for `gid`. */
    method Member(gid: int) returns (b: bool)
      ensures b <==> gid in groups
    {
      var i := 0;
      while i < |groups|
        invariant 0 <= i <= |groups|
        invariant gid !in groups[..i]
      {
        if groups[i] == gid {
          return true;
        }
        i := i + 1;
      }
      assert groups[..i] == groups;
      return false;
    }

    /** `permitted`, with the group scan done by `Member`. */
    method CheckPermitted(op: Operation, seal: Seal) returns (r: Outcome<Error>)
      requires uid == RootUid || Known(op)
      ensures r == Permitted(uid, groups, op, seal)
    {
      if uid == RootUid {
        return Pass;
      }
      var m := ModesOf(op);
      var member := Member(seal.gid);
      if uid == 0 && Has(seal.mode, m.n) {
        r := Pass;
      } else if uid == seal.uid && Has(seal.mode, m.u) {
        r := Pass;
      } else if member && Has(seal.mode, m.g) {
        r := Pass;
      } else if uid > 0 && Has(seal.mode, m.o) {
        r := Pass;
      } else {
        r := Fail(Denied(seal, op));
      }
    }

    /** `AddGroup`: appends `gid` unless the scan finds it already there. */
    method AddGroup(gid: int)
      requires Valid()
      modifies this`groups
      ensures Valid()
      ensures groups == WithGroup(old(groups), gid)
    {
      var i := 0;
      while i < |groups|
        invariant 0 <= i <= |groups|
        invariant gid !in groups[..i]
      {
        if groups[i] == gid {
          return;
        }
        i := i + 1;
      }
      assert groups[..i] == groups;
      WithGroupKeepsNoDup(groups, gid);
      groups := groups + [gid];
    }

    /** `DelGroup`: splices out the first occurrence of `gid`, keeping the order of the rest. */
    method DelGroup(gid: int)
      requires Valid()
      modifies this`groups
      ensures Valid()
      ensures groups == RemoveFirst(old(groups), gid)
    {
      var i := 0;
      while i < |groups|
        invariant 0 <= i <= |groups|
        invariant forall k | 0 <= k < i :: groups[k] != gid
      {
        if groups[i] == gid {
          assert FirstIndex(groups, gid) == i;
          WithoutGroupKeepsNoDup(groups, gid);
          groups := groups[..i] + groups[i + 1..];
          return;
        }
        i := i + 1;
      }
      WithoutGroupKeepsNoDup(groups, gid);
    }
  }
}
