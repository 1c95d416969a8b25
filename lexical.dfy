/** Go's `<` on strings: lexicographic order by character, a proper prefix first. */
module Lexical {

  /** `a < b` as Go evaluates it on two strings. */
  predicate Less(a: string, b: string)
  {
    if |a| == 0 then |b| > 0
    else if |b| == 0 then false
    else if a[0] != b[0] then a[0] < b[0]
    else Less(a[1..], b[1..])
  }

  lemma {:induction false} LessIrreflexive(a: string)
    ensures !Less(a, a)
  {
    if |a| > 0 {
      LessIrreflexive(a[1..]);
    }
  }

  lemma {:induction false} LessTransitive(a: string, b: string, c: string)
    requires Less(a, b) && Less(b, c)
    ensures Less(a, c)
  {
    if |a| > 0 && |b| > 0 && |c| > 0 && a[0] == b[0] == c[0] {
      LessTransitive(a[1..], b[1..], c[1..]);
    }
  }

  lemma {:induction false} LessTotal(a: string, b: string)
    ensures a == b || Less(a, b) || Less(b, a)
  {
    if |a| > 0 && |b| > 0 && a[0] == b[0] {
      LessTotal(a[1..], b[1..]);
      if a[1..] == b[1..] {
        assert a == [a[0]] + a[1..] && b == [b[0]] + b[1..];
      }
    }
  }

  /** Non-decreasing by name: no later name is Go-less than an earlier one. */
  ghost predicate Sorted(names: seq<string>)
  {
    forall i, j | 0 <= i < j < |names| :: !Less(names[j], names[i])
  }

  /**
   * Where a sorted insert puts a new name: in front of the first name the new
   * one is strictly less than, or at the end. Names equal to the new one stay
   * in front of it.
   */
  function InsertionPoint(names: seq<string>, x: string): (i: nat)
    ensures i <= |names|
    ensures forall k | 0 <= k < i :: !Less(x, names[k])
    ensures i < |names| ==> Less(x, names[i])
  {
    if names == [] then 0
    else if Less(x, names[0]) then 0
    else 1 + InsertionPoint(names[1..], x)
  }

  /** Inserting at the insertion point keeps a sorted list sorted. */
  lemma InsertKeepsSorted(names: seq<string>, x: string)
    requires Sorted(names)
    ensures Sorted(names[..InsertionPoint(names, x)] + [x] + names[InsertionPoint(names, x)..])
  {
    var i := InsertionPoint(names, x);
    var r := names[..i] + [x] + names[i..];
    forall a, b | 0 <= a < b < |r|
      ensures !Less(r[b], r[a])
    {
      if b < i {
        assert r[a] == names[a] && r[b] == names[b];
      } else if b == i {
        assert r[a] == names[a] && r[b] == x;
      } else if a == i {
        // names[i] <= names[b-1] and x < names[i]
        assert r[b] == names[b - 1];
        if Less(names[b - 1], x) {
          if b - 1 == i {
            LessIrreflexive(x);
            LessTransitive(x, names[i], x);
          } else {
            LessTransitive(names[b - 1], x, names[i]);
          }
        }
      } else if a < i {
        assert r[a] == names[a] && r[b] == names[b - 1];
      } else {
        assert r[a] == names[a - 1] && r[b] == names[b - 1];
      }
    }
  }

  /** In a sorted list every name equal to the inserted one ends up in front of it. */
  lemma {:induction false} EqualNamesStayInFront(names: seq<string>, x: string, k: nat)
    requires Sorted(names)
    requires k < |names| && names[k] == x
    ensures k < InsertionPoint(names, x)
  {
    var i := InsertionPoint(names, x);
    if i == k {
      LessIrreflexive(x);
    }
  }
}
