/** Cycles as sequences of recipe ids: the list operations the cycle finder
    uses (`index`, `min`, slicing) and the normal form that makes two
    rotations of one cycle the same entry. */
module Cycles {

  /** No element occurs twice. */
  predicate Distinct<T(==)>(s: seq<T>) {
    forall i, j | 0 <= i < j < |s| :: s[i] != s[j]
  }

  /** Python's `s.index(x)`: the position of the first occurrence of `x`. */
  function IndexOf(s: seq<nat>, x: nat): (k: nat)
    requires x in s
    ensures k < |s| && s[k] == x
    ensures forall i | 0 <= i < k :: s[i] != x
  {
    if s[0] == x then 0 else 1 + IndexOf(s[1..], x)
  }

  /** Python's `min(s)` on a non-empty list. */
  function Min(s: seq<nat>): (m: nat)
    requires |s| > 0
    ensures m in s
    ensures forall i | 0 <= i < |s| :: m <= s[i]
  {
    if |s| == 1 then s[0]
    else
      var rest := Min(s[1..]);
      if s[0] <= rest then s[0] else rest
  }

  /** `s[k:] + s[:k]`: the rotation that starts at position `k`. */
  function Rotate(s: seq<nat>, k: nat): seq<nat>
    requires k <= |s|
  {
    s[k..] + s[..k]
  }

  /** The cycle rotated so that its first minimum comes first: the same ids,
      as often as before, starting with the smallest. */
  function Normalize(c: seq<nat>): (r: seq<nat>)
    requires |c| > 0
    ensures |r| == |c| && r[0] == Min(c)
    ensures multiset(r) == multiset(c)
  {
    var k := IndexOf(c, Min(c));
    RotateSameElements(c, k);
    Rotate(c, k)
  }

  /** A cycle in normal form starts with its smallest id. */
  predicate IsNormalized(c: seq<nat>) {
    |c| > 0 && forall i | 0 <= i < |c| :: c[0] <= c[i]
  }

  /** Position `i` of a rotation holds element `k + i` of the original,
      wrapping around the end. */
  lemma RotateAt(s: seq<nat>, k: nat, i: nat)
    requires k <= |s| && i < |s|
    ensures |Rotate(s, k)| == |s|
    ensures Rotate(s, k)[i] == s[if k + i < |s| then k + i else k + i - |s|]
  {
  }

  /** A rotation holds exactly the elements of the original. */
  lemma RotateSameElements(s: seq<nat>, k: nat)
    requires k <= |s|
    ensures |Rotate(s, k)| == |s|
    ensures multiset(Rotate(s, k)) == multiset(s)
    ensures forall x :: x in Rotate(s, k) <==> x in s
  {
    assert s == s[..k] + s[k..];
  }

  /** Rotating by `k` and then by `t` is one rotation by `k + t`, modulo the length. */
  lemma {:induction false} RotateRotate(s: seq<nat>, k: nat, t: nat)
    requires k <= |s| && t <= |s|
    ensures |Rotate(s, k)| == |s|
    ensures Rotate(Rotate(s, k), t) == Rotate(s, if k + t < |s| then k + t else k + t - |s|)
  {
    var r := Rotate(s, k);
    var m := if k + t < |s| then k + t else k + t - |s|;
    var lhs := Rotate(r, t);
    var rhs := Rotate(s, m);
    forall i | 0 <= i < |s| ensures lhs[i] == rhs[i] {
      RotateAt(s, k, 0);
      var j := if t + i < |s| then t + i else t + i - |s|;
      RotateAt(r, t, i);
      RotateAt(s, k, j);
      RotateAt(s, m, i);
    }
  }

  /** Rotation keeps a cycle free of repeated ids. */
  lemma RotateDistinct(s: seq<nat>, k: nat)
    requires k <= |s| && Distinct(s)
    ensures Distinct(Rotate(s, k))
  {
    var r := Rotate(s, k);
    forall i, j | 0 <= i < j < |r| ensures r[i] != r[j] {
      RotateAt(s, k, i);
      RotateAt(s, k, j);
    }
  }

  /** In a sequence without repeats, `index` finds the only occurrence. */
  lemma IndexOfDistinct(s: seq<nat>, i: nat)
    requires Distinct(s) && i < |s|
    ensures IndexOf(s, s[i]) == i
  {
  }

  /** Two sequences with the same elements have the same minimum. */
  lemma MinSameElements(s: seq<nat>, t: seq<nat>)
    requires |s| > 0 && |t| > 0
    requires forall x :: x in s <==> x in t
    ensures Min(s) == Min(t)
  {
    var a, b := Min(s), Min(t);
    var i :| 0 <= i < |t| && t[i] == a;
    var j :| 0 <= j < |s| && s[j] == b;
  }

  /** No id of the normal form is smaller than its first, and it holds
      exactly the ids of the cycle. */
  lemma NormalizeShape(c: seq<nat>)
    requires |c| > 0
    ensures IsNormalized(Normalize(c))
    ensures forall x :: x in Normalize(c) <==> x in c
  {
    var k := IndexOf(c, Min(c));
    RotateSameElements(c, k);
    var n := Normalize(c);
    forall i | 0 <= i < |n| ensures n[0] <= n[i] {
      RotateAt(c, k, 0);
      RotateAt(c, k, i);
    }
  }

  /** A cycle already in normal form is left as it is. */
  lemma NormalizedFixed(c: seq<nat>)
    requires IsNormalized(c)
    ensures Normalize(c) == c
  {
    assert c[0] == Min(c);
  }

  /** Normalizing twice is normalizing once. */
  lemma NormalizeIdempotent(c: seq<nat>)
    requires |c| > 0
    ensures Normalize(Normalize(c)) == Normalize(c)
  {
    NormalizeShape(c);
    NormalizedFixed(Normalize(c));
  }

  /** Without repeats, the normal form starts wherever the minimum is. */
  lemma NormalizeAt(r: seq<nat>, p: nat)
    requires Distinct(r) && p < |r| && r[p] == Min(r)
    ensures Normalize(r) == Rotate(r, p)
  {
    IndexOfDistinct(r, p);
  }

  /** Every rotation of a cycle without repeated ids has the same normal
      form: rotations found from different start recipes collapse to one. */
  lemma NormalizeRotation(c: seq<nat>, s: nat)
    requires |c| > 0 && s <= |c| && Distinct(c)
    ensures Normalize(Rotate(c, s)) == Normalize(c)
  {
    var n := |c|;
    var r := Rotate(c, s);
    var k := IndexOf(c, Min(c));
    var p := if s <= k then k - s else k + n - s;
    var q := if s + p < n then s + p else s + p - n;
    assert p < n && q == k;
    RotateSameElements(c, s);
    MinSameElements(r, c);
    assert Min(r) == c[k];
    RotateAt(c, s, p);
    assert r[p] == c[k];
    RotateDistinct(c, s);
    NormalizeAt(r, p);
    RotateRotate(c, s, p);
    assert Normalize(r) == Rotate(c, k);
  }
}
