/** Comparing domain names: one trailing dot and the case of ASCII letters do not matter. */
module DnsNames {
  import opened Common

  type Name = seq<Byte>

  const DOT: Byte := 46

  function Lower(b: Byte): Byte {
    if 65 <= b <= 90 then b + 32 else b
  }

  function StripDot(n: Name): Name {
    if n != [] && n[|n| - 1] == DOT then n[..|n| - 1] else n
  }

  /** The canonical spelling; two names are the same exactly when these are equal. */
  function Canon(n: Name): Name {
    var s := StripDot(n);
    seq(|s|, i requires 0 <= i < |s| => Lower(s[i]))
  }

  /** Two bytes that are the same, or the same ASCII letter in upper and lower case. */
  predicate SameLetter(x: Byte, y: Byte) {
    x == y || (65 <= x <= 90 && y == x + 32) || (65 <= y <= 90 && x == y + 32)
  }

  /** The length of a name without one trailing dot. */
  function Extent(n: Name): nat {
    if n != [] && n[|n| - 1] == 46 then |n| - 1 else |n|
  }

  /** Equal canonical spellings are equal lengths, but for a trailing dot, and the same letters. */
  lemma CanonIsSpelling(left: Name, right: Name)
    ensures Canon(left) == Canon(right) <==>
            Extent(left) == Extent(right) && forall i :: 0 <= i < Extent(left) ==> SameLetter(left[i], right[i])
  {
    var a, b := Canon(left), Canon(right);
    assert |a| == Extent(left) && |b| == Extent(right);
    if |a| == |b| {
      forall i | 0 <= i < |a|
        ensures a[i] == b[i] <==> SameLetter(left[i], right[i])
      {
      }
      if a == b {
        assert forall i :: 0 <= i < |a| ==> a[i] == b[i];
      }
    }
  }

  predicate Same(left: Option<Name>, right: Option<Name>) {
    left.Some? && right.Some? && Canon(left.value) == Canon(right.value)
  }

  /** The comparison loop of the code, which never builds a canonical name. */
  method SameName(left: Option<Name>, right: Option<Name>) returns (same: bool)
    ensures same <==> Same(left, right)
  {
    if left.None? || right.None? { return false; }
    var leftName, rightName := left.value, right.value;
    var leftSize, rightSize := |leftName|, |rightName|;
    if leftSize != 0 && leftName[leftSize - 1] == DOT { leftSize := leftSize - 1; }
    if rightSize != 0 && rightName[rightSize - 1] == DOT { rightSize := rightSize - 1; }
    ghost var leftCanon, rightCanon := Canon(leftName), Canon(rightName);
    assert |leftCanon| == leftSize && |rightCanon| == rightSize;
    if leftSize != rightSize { return false; }
    for index := 0 to leftSize
      invariant leftCanon[..index] == rightCanon[..index]
    {
      var first, second := leftName[index], rightName[index];
      if 65 <= first <= 90 { first := first + 32; }
      if 65 <= second <= 90 { second := second + 32; }
      assert leftCanon[index] == first && rightCanon[index] == second;
      if first != second { return false; }
    }
    assert leftCanon == leftCanon[..leftSize] && rightCanon == rightCanon[..leftSize];
    return true;
  }
}
