/** `crypto.randomInt`: rejection sampling from 64-bit draws.  The result is exactly uniform, because
    every integer of the range has the same number of accepted draws. */
module RandomInt {

  const TWO_48: int := 0x1_0000_0000_0000
  const TWO_53: int := 0x20_0000_0000_0000
  const TWO_64: int := 0x1_0000_0000_0000_0000
  const SAFE: int := TWO_53 - 1

  /** A Float64 argument: not a number, infinite, or a real number. */
  datatype Number = NaN | Infinite(negative: bool) | Finite(value: real)

  datatype Outcome = Picked(value: int) | Refused | NoEntropy

  /** The comparisons of the code; they are false for NaN. */
  predicate AtLeast(x: Number, bound: int) {
    match x
    case NaN => false
    case Infinite(negative) => !negative
    case Finite(v) => v >= bound as real
  }

  predicate AtMost(x: Number, bound: int) {
    match x
    case NaN => false
    case Infinite(negative) => negative
    case Finite(v) => v <= bound as real
  }

  predicate Above(x: Number, y: Number) {
    match (x, y)
    case (Finite(v), Finite(w)) => v > w
    case (Infinite(negative), Finite(_)) => !negative
    case (Finite(_), Infinite(negative)) => negative
    case (Infinite(a), Infinite(b)) => !a && b
    case (_, _) => false
  }

  /** The bounds to be accepted: ordered safe integers less than 2**48 apart. */
  ghost predicate Bounds(minimum: Number, maximum: Number, first: int, last: int) {
    && minimum == Finite(first as real) && maximum == Finite(last as real)
    && -9007199254740991 <= first < last <= 9007199254740991 && last - first < 281474976710656
  }

  /** Draws below the limit are accepted. */
  function Limit(width: int): int
    requires 0 < width
  {
    (TWO_64 - 1) - (TWO_64 - 1) % width
  }

  /** The accepted draws that lead to offset `r`. */
  ghost function DrawsFor(width: int, r: int): set<int>
    requires 0 < width
  {
    set v | 0 <= v < Limit(width) && v % width == r
  }

  // ---------- division ----------

  lemma {:induction false} ProductIsAtLeast(x: int, w: int)
    requires x >= 1 && w > 0
    ensures x * w >= w
  {
    if x > 1 {
      ProductIsAtLeast(x - 1, w);
      assert x * w == (x - 1) * w + w;
    }
  }

  lemma ProductGrows(x: int, y: int, w: int)
    requires x < y && w > 0
    ensures x * w + w <= y * w
  {
    ProductIsAtLeast(y - x, w);
    assert (y - x) * w == y * w - x * w;
  }

  lemma DivisionIsUnique(v: int, w: int, q: int, r: int)
    requires w > 0 && v == q * w + r && 0 <= r < w
    ensures v / w == q && v % w == r
  {
    var q' := v / w;
    assert v == q' * w + v % w;
    if q' < q {
      ProductGrows(q', q, w);
    } else if q < q' {
      ProductGrows(q, q', w);
    }
  }

  // ---------- counting ----------

  function At(q: int, width: int, r: int): int {
    q * width + r
  }

  /** The accepted draws are whole blocks of the width, and fewer than 2**48 draws are rejected. */
  lemma LimitIsMultiple(width: int)
    requires 0 < width < TWO_48
    ensures Limit(width) == At((TWO_64 - 1) / width, width, 0) && Limit(width) / width == (TWO_64 - 1) / width
    ensures 0 < TWO_64 - Limit(width) < TWO_48
  {
    DivisionIsUnique(Limit(width), width, (TWO_64 - 1) / width, 0);
  }

  ghost function Multiples(width: int, r: int, n: nat): set<int> {
    set q | 0 <= q < n :: At(q, width, r)
  }

  lemma {:induction false} MultiplesCount(width: int, r: int, n: nat)
    requires 0 < width
    ensures |Multiples(width, r, n)| == n
  {
    if n > 0 {
      MultiplesCount(width, r, n - 1);
      assert Multiples(width, r, n) == Multiples(width, r, n - 1) + {At(n - 1, width, r)};
      forall q | 0 <= q < n - 1
        ensures At(q, width, r) != At(n - 1, width, r)
      {
        ProductGrows(q, n - 1, width);
      }
    }
  }

  lemma QuotientBelow(q: int, n: int, w: int, r: int)
    requires w > 0 && r >= 0 && q * w + r < n * w
    ensures q < n
  {
    if q > n { ProductGrows(n, q, w); }
  }

  lemma QuotientNotNegative(q: int, w: int, r: int)
    requires w > 0 && 0 <= r < w && q * w + r >= 0
    ensures q >= 0
  {
    if q < 0 { ProductGrows(q, 0, w); }
  }

  lemma AcceptedDrawIsMultiple(width: int, r: int, v: int)
    requires 0 < width < TWO_48 && 0 <= v < Limit(width) && v % width == r
    ensures v in Multiples(width, r, Limit(width) / width)
  {
    LimitIsMultiple(width);
    assert v == At(v / width, width, r);
    QuotientBelow(v / width, Limit(width) / width, width, r);
    QuotientNotNegative(v / width, width, r);
  }

  lemma MultipleIsAcceptedDraw(width: int, r: int, q: int)
    requires 0 < width < TWO_48 && 0 <= r < width && 0 <= q < Limit(width) / width
    ensures At(q, width, r) in DrawsFor(width, r)
  {
    LimitIsMultiple(width);
    ProductGrows(q, Limit(width) / width, width);
    DivisionIsUnique(At(q, width, r), width, q, r);
    if q > 0 { ProductIsAtLeast(q, width); }
  }

  /** Exactly uniform: every offset has the same number of accepted draws. */
  lemma EveryOffsetIsEquallyLikely(width: int, r: int)
    requires 0 < width < TWO_48 && 0 <= r < width
    ensures |DrawsFor(width, r)| == Limit(width) / width
  {
    LimitIsMultiple(width);
    var n := Limit(width) / width;
    forall v | v in DrawsFor(width, r)
      ensures v in Multiples(width, r, n)
    {
      AcceptedDrawIsMultiple(width, r, v);
    }
    forall q | 0 <= q < n
      ensures At(q, width, r) in DrawsFor(width, r)
    {
      MultipleIsAcceptedDraw(width, r, q);
    }
    assert DrawsFor(width, r) == Multiples(width, r, n);
    MultiplesCount(width, r, n);
  }

  /** The same over the range itself: every integer of it is picked for equally many draws. */
  lemma EveryIntegerIsEquallyLikely(first: int, last: int, x: int, y: int)
    requires 0 < last - first < TWO_48 && first <= x < last && first <= y < last
    ensures var width := last - first;
            |set v | 0 <= v < Limit(width) && first + v % width == x|
            == |set v | 0 <= v < Limit(width) && first + v % width == y|
            == Limit(width) / width
  {
    var width := last - first;
    EveryOffsetIsEquallyLikely(width, x - first);
    EveryOffsetIsEquallyLikely(width, y - first);
    assert (set v | 0 <= v < Limit(width) && first + v % width == x) == DrawsFor(width, x - first);
    assert (set v | 0 <= v < Limit(width) && first + v % width == y) == DrawsFor(width, y - first);
  }

  /** Truncation toward zero, which for a safe number is what the conversion to Int64 does. */
  function Truncated(x: real): int {
    if x >= 0.0 then x.Floor else -((-x).Floor)
  }

  lemma TruncatedInteger(a: int)
    ensures Truncated(a as real) == a
  {
    assert (-(a as real)) == (-a) as real;
  }

  /** The checks on the bounds, in the order of the code. */
  method CheckBounds(minimum: Number, maximum: Number) returns (ok: bool, first: int, last: int)
    ensures ok ==> Bounds(minimum, maximum, first, last)
    ensures ok <==> exists a, b :: Bounds(minimum, maximum, a, b)
  {
    ok, first, last := false, 0, 0;
    if !(AtLeast(minimum, -SAFE) && AtMost(maximum, SAFE) && Above(maximum, minimum)) { return; }
    first, last := Truncated(minimum.value), Truncated(maximum.value);
    forall a, b | Bounds(minimum, maximum, a, b)
      ensures a == first && b == last
    {
      TruncatedInteger(a);
      TruncatedInteger(b);
    }
    if first as real != minimum.value || last as real != maximum.value { return; }
    if last - first >= TWO_48 { return; }
    assert Bounds(minimum, maximum, first, last);
    ok := true;
  }

  predicate FirstAccepted(draws: seq<int>, i: nat, limit: int) {
    i < |draws| && 0 <= draws[i] < limit && forall j :: 0 <= j < i ==> draws[j] >= limit
  }

  /** The source fails before it yields a draw below the limit. */
  ghost predicate NoneAccepted(draws: seq<int>, limit: int) {
    forall i: nat :: !FirstAccepted(draws, i, limit)
  }

  ghost predicate PicksFirstAccepted(draws: seq<int>, first: int, width: int, value: int) {
    0 < width && exists i: nat :: FirstAccepted(draws, i, Limit(width)) && value == first + draws[i] % width
  }

  /** The loop over fresh draws.  A negative entry of the script, or its end, stands for a failing
      entropy source.  The number picked lies in the range, is a safe integer, and is the offset of
      the first draw below the limit. */
  method Pick(minimum: Number, maximum: Number, draws: seq<int>) returns (outcome: Outcome)
    requires forall i :: 0 <= i < |draws| ==> draws[i] < TWO_64
    ensures outcome == Refused <==> !exists first, last :: Bounds(minimum, maximum, first, last)
    ensures forall first, last :: outcome.Picked? && Bounds(minimum, maximum, first, last) ==>
              && first <= outcome.value < last && -SAFE <= outcome.value <= SAFE
              && PicksFirstAccepted(draws, first, last - first, outcome.value)
    ensures forall first, last :: Bounds(minimum, maximum, first, last) ==>
              (outcome == NoEntropy <==> NoneAccepted(draws, Limit(last - first)))
  {
    var ok, first, last := CheckBounds(minimum, maximum);
    if !ok { return Refused; }
    var width := last - first;
    var limit := Limit(width);
    assert forall a, b :: Bounds(minimum, maximum, a, b) ==> a == first && b == last;
    for i := 0 to |draws|
      invariant forall j :: 0 <= j < i ==> draws[j] >= limit
    {
      if draws[i] < 0 { return NoEntropy; }
      if draws[i] < limit {
        assert FirstAccepted(draws, i, limit);
        return Picked(first + draws[i] % width);
      }
    }
    return NoEntropy;
  }
}
