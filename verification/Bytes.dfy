/** Octets, and the comparison that C's `memcmp` makes over the shorter of two lengths. */
module Bytes {

  type Byte = b: int | 0 <= b < 256

  const LF: Byte := 10

  /** Length of the longest common prefix. */
  function Common(a: seq<Byte>, b: seq<Byte>): (d: nat)
    ensures d <= |a| && d <= |b|
    ensures forall i :: 0 <= i < d ==> a[i] == b[i]
    ensures d < |a| && d < |b| ==> a[d] != b[d]
  {
    if a == [] || b == [] || a[0] != b[0] then 0
    else
      var d := 1 + Common(a[1..], b[1..]);
      assert forall i :: 1 <= i < d ==> a[i] == a[1..][i - 1] && b[i] == b[1..][i - 1];
      d
  }

  /** `memcmp(a, b, min(|a|, |b|))`: zero when one text is a prefix of the other. */
  function Cmp(a: seq<Byte>, b: seq<Byte>): int {
    var d := Common(a, b);
    if d < |a| && d < |b| then a[d] as int - b[d] as int else 0
  }

  /** The common prefix is determined by what its contract says of it. */
  lemma CommonUnique(a: seq<Byte>, b: seq<Byte>, d: nat)
    requires d <= |a| && d <= |b|
    requires forall i :: 0 <= i < d ==> a[i] == b[i]
    requires d < |a| && d < |b| ==> a[d] != b[d]
    ensures d == Common(a, b)
  {
  }

  lemma CmpZeroIffPrefix(a: seq<Byte>, b: seq<Byte>)
    ensures Cmp(a, b) == 0 <==> a <= b || b <= a
  {
  }

  lemma CmpAntisymmetric(a: seq<Byte>, b: seq<Byte>)
    ensures Cmp(a, b) == -Cmp(b, a)
  {
    CommonUnique(b, a, Common(a, b));
  }

  /** A strict difference is transitive, although ties between prefixes are not. */
  lemma CmpLessTransitive(a: seq<Byte>, b: seq<Byte>, c: seq<Byte>)
    requires Cmp(a, b) < 0 && Cmp(b, c) < 0
    ensures Cmp(a, c) < 0
  {
    var d, e := Common(a, b), Common(b, c);
    CommonUnique(a, c, if d < e then d else e);
  }

  /** On texts of one length `Cmp` is a total preorder. */
  lemma CmpLessEqTransitive(a: seq<Byte>, b: seq<Byte>, c: seq<Byte>)
    requires |a| == |b| == |c|
    requires Cmp(a, b) <= 0 && Cmp(b, c) <= 0
    ensures Cmp(a, c) <= 0
  {
    if Cmp(a, b) < 0 && Cmp(b, c) < 0 {
      CmpLessTransitive(a, b, c);
    } else if Cmp(a, b) == 0 {
      assert a == b;
    } else {
      assert b == c;
    }
  }

  /** Comparing whole texts never contradicts comparing their first `k` bytes. */
  lemma CmpOnHeads(a: seq<Byte>, b: seq<Byte>, k: nat)
    requires k <= |a| && k <= |b|
    ensures Cmp(a, b) < 0 ==> Cmp(a[..k], b[..k]) <= 0
    ensures Cmp(a, b) >= 0 ==> Cmp(a[..k], b[..k]) >= 0
  {
    var d := Common(a, b);
    CommonUnique(a[..k], b[..k], if d < k then d else k);
  }
}
