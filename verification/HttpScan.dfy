/** The incremental part of the HTTP request parser: finding the end of the headers with a 32-bit
    rolling window, and collecting the request target and body in growing buffers.  Nothing may
    depend on how the input was cut into feeds. */
module HttpScan {

  type Octet = bv8

  const HEADER_LIMIT: nat := 64 * 1024
  const BODY_LIMIT: nat := 256 * 1024 * 1024

  /** CR LF CR LF, as the window sees it. */
  const PATTERN: bv32 := 0x0d0a0d0a

  /** The bytes end with CR LF CR LF. */
  predicate Terminated(s: seq<Octet>) {
    |s| >= 4 && s[|s| - 4..] == [13, 10, 13, 10]
  }

  // ---------- the window ----------

  function Shift(w: bv32, b: Octet): bv32 {
    (w << 8) | (b as bv32)
  }

  function Window(s: seq<Octet>): bv32 {
    if s == [] then 0 else Shift(Window(s[..|s| - 1]), s[|s| - 1])
  }

  lemma WindowAppend(s: seq<Octet>, b: Octet)
    ensures Window(s + [b]) == Shift(Window(s), b)
  {
    assert (s + [b])[..|s|] == s;
  }

  /** Four shifts forget everything before: the window is exactly the last four bytes. */
  lemma FourShifts(w: bv32, a: Octet, b: Octet, c: Octet, d: Octet)
    ensures Shift(Shift(Shift(Shift(w, a), b), c), d) == PATTERN <==> a == 13 && b == 10 && c == 13 && d == 10
  {
  }

  /** Fewer than four leave a zero at its top. */
  lemma ThreeShifts(a: Octet, b: Octet, c: Octet)
    ensures Shift(0, a) != PATTERN
    ensures Shift(Shift(0, a), b) != PATTERN
    ensures Shift(Shift(Shift(0, a), b), c) != PATTERN
  {
  }

  lemma WindowOfFour(s: seq<Octet>, a: Octet, b: Octet, c: Octet, d: Octet)
    ensures Window(s + [a] + [b] + [c] + [d]) == Shift(Shift(Shift(Shift(Window(s), a), b), c), d)
  {
    WindowAppend(s, a);
    WindowAppend(s + [a], b);
    WindowAppend(s + [a] + [b], c);
    WindowAppend(s + [a] + [b] + [c], d);
  }

  lemma ShortWindow(s: seq<Octet>)
    requires |s| < 4
    ensures Window(s) != PATTERN
  {
    if |s| == 1 {
      assert s == [] + [s[0]];
      WindowAppend([], s[0]);
      ThreeShifts(s[0], 0, 0);
    } else if |s| == 2 {
      assert s == [] + [s[0]] + [s[1]];
      WindowAppend([], s[0]);
      WindowAppend([] + [s[0]], s[1]);
      ThreeShifts(s[0], s[1], 0);
    } else if |s| == 3 {
      assert s == [] + [s[0]] + [s[1]] + [s[2]];
      WindowAppend([], s[0]);
      WindowAppend([] + [s[0]], s[1]);
      WindowAppend([] + [s[0]] + [s[1]], s[2]);
      ThreeShifts(s[0], s[1], s[2]);
    }
  }

  lemma LastFour(s: seq<Octet>, n: nat)
    requires |s| == n + 4
    ensures s == s[..n] + [s[n]] + [s[n + 1]] + [s[n + 2]] + [s[n + 3]]
    ensures s[n..] == [s[n], s[n + 1], s[n + 2], s[n + 3]]
  {
  }

  lemma TerminatedByFour(s: seq<Octet>, n: nat)
    requires |s| == n + 4
    ensures Terminated(s) <==> s[n] == 13 && s[n + 1] == 10 && s[n + 2] == 13 && s[n + 3] == 10
  {
    LastFour(s, n);
  }

  /** So comparing the window with the pattern finds exactly the terminator. */
  lemma WindowFindsTerminator(s: seq<Octet>)
    ensures Window(s) == PATTERN <==> Terminated(s)
  {
    if |s| < 4 {
      ShortWindow(s);
    } else {
      var n := |s| - 4;
      LastFour(s, n);
      WindowOfFour(s[..n], s[n], s[n + 1], s[n + 2], s[n + 3]);
      FourShifts(Window(s[..n]), s[n], s[n + 1], s[n + 2], s[n + 3]);
      TerminatedByFour(s, n);
    }
  }

  // ---------- what the scan is to find ----------

  /** The first terminator ends at position `n`. */
  ghost predicate HeadersEndAt(s: seq<Octet>, n: nat) {
    n <= |s| && Terminated(s[..n]) && forall m :: 0 <= m < n ==> !Terminated(s[..m])
  }

  ghost predicate NoTerminatorWithin(s: seq<Octet>, n: nat) {
    forall m :: 0 <= m <= n && m <= |s| ==> !Terminated(s[..m])
  }

  /** Too many bytes have come without a terminator. */
  ghost predicate Overflows(s: seq<Octet>) {
    |s| > 65536 && NoTerminatorWithin(s, 65536)
  }

  lemma PrefixKept(s: seq<Octet>, t: seq<Octet>, m: nat)
    requires m <= |s|
    ensures (s + t)[..m] == s[..m]
  {
  }

  lemma QuietLonger(s: seq<Octet>, t: seq<Octet>, n: nat)
    requires NoTerminatorWithin(s, n) && n <= |s|
    ensures NoTerminatorWithin(s + t, n)
  {
    forall m | 0 <= m <= n
      ensures !Terminated((s + t)[..m])
    {
      PrefixKept(s, t, m);
    }
  }

  lemma QuietStep(s: seq<Octet>, b: Octet)
    requires NoTerminatorWithin(s, |s|) && !Terminated(s + [b])
    ensures NoTerminatorWithin(s + [b], |s| + 1)
  {
    QuietLonger(s, [b], |s|);
    assert (s + [b])[..|s| + 1] == s + [b];
  }

  lemma EndStep(s: seq<Octet>, b: Octet)
    requires NoTerminatorWithin(s, |s|) && Terminated(s + [b])
    ensures HeadersEndAt(s + [b], |s| + 1)
  {
    QuietLonger(s, [b], |s|);
    assert (s + [b])[..|s| + 1] == s + [b];
  }

  lemma EndKept(s: seq<Octet>, t: seq<Octet>, n: nat)
    requires HeadersEndAt(s, n)
    ensures HeadersEndAt(s + t, n)
  {
    PrefixKept(s, t, n);
    forall m | 0 <= m < n
      ensures !Terminated((s + t)[..m])
    {
      PrefixKept(s, t, m);
    }
  }

  lemma OverflowKept(s: seq<Octet>, t: seq<Octet>)
    requires Overflows(s)
    ensures Overflows(s + t)
  {
    QuietLonger(s, t, HEADER_LIMIT);
  }

  /** The scan's state: bytes counted, window, and whether the terminator has been found. */
  datatype ScanState = ScanState(headerBytes: nat, delimiter: bv32, complete: bool)

  /** What the state says about everything fed so far. */
  ghost predicate ScanInv(c: ScanState, seen: seq<Octet>) {
    if c.complete then c.headerBytes <= HEADER_LIMIT && HeadersEndAt(seen, c.headerBytes)
    else if c.headerBytes > HEADER_LIMIT then Overflows(seen)
    else c.headerBytes == |seen| && c.delimiter == Window(seen) && NoTerminatorWithin(seen, |seen|)
  }

  /** The loop body; the second part says that the feed is rejected. */
  function ScanByte(c: ScanState, b: Octet): (ScanState, bool) {
    var d := c.(headerBytes := c.headerBytes + 1);
    if d.headerBytes > HEADER_LIMIT then (d, true)
    else
      var w := Shift(c.delimiter, b);
      (d.(delimiter := w, complete := w == PATTERN), false)
  }

  lemma ScanByteKeepsInv(c: ScanState, seen: seq<Octet>, b: Octet)
    requires ScanInv(c, seen) && !c.complete
    ensures ScanInv(ScanByte(c, b).0, seen + [b])
    ensures ScanByte(c, b).1 <==> ScanByte(c, b).0.headerBytes > HEADER_LIMIT
  {
    if c.headerBytes > HEADER_LIMIT {
      OverflowKept(seen, [b]);
    } else if c.headerBytes == HEADER_LIMIT {
      QuietLonger(seen, [b], HEADER_LIMIT);
    } else {
      WindowAppend(seen, b);
      WindowFindsTerminator(seen + [b]);
      if Terminated(seen + [b]) { EndStep(seen, b); } else { QuietStep(seen, b); }
    }
  }

  /** The rest of a feed is not looked at once the verdict is in. */
  lemma VerdictStands(c: ScanState, seen: seq<Octet>, rest: seq<Octet>)
    requires ScanInv(c, seen) && (c.complete || c.headerBytes > HEADER_LIMIT || rest == [])
    ensures ScanInv(c, seen + rest)
  {
    if c.complete {
      EndKept(seen, rest, c.headerBytes);
    } else if c.headerBytes > HEADER_LIMIT {
      OverflowKept(seen, rest);
    } else {
      assert seen + rest == seen;
    }
  }

  /** The state determines the verdict on all bytes fed, so the verdict depends on them alone. */
  lemma StateIsVerdict(c: ScanState, seen: seq<Octet>)
    requires ScanInv(c, seen)
    ensures c.complete <==> exists n: nat :: n <= HEADER_LIMIT && HeadersEndAt(seen, n)
    ensures c.complete ==> HeadersEndAt(seen, c.headerBytes)
    ensures !c.complete && c.headerBytes > HEADER_LIMIT <==> Overflows(seen)
    ensures forall n: nat :: c.complete && HeadersEndAt(seen, n) ==> n == c.headerBytes
  {
    if c.complete {
      assert Terminated(seen[..c.headerBytes]);
      forall n: nat | HeadersEndAt(seen, n)
        ensures n == c.headerBytes
      {
        assert Terminated(seen[..n]);
      }
    } else {
      forall n: nat | n <= HEADER_LIMIT && n <= |seen|
        ensures !HeadersEndAt(seen, n)
      {
        assert !Terminated(seen[..n]);
      }
    }
  }

  lemma NextPrefix(before: seq<Octet>, bytes: seq<Octet>, index: nat)
    requires index < |bytes|
    ensures (before + bytes[..index]) + [bytes[index]] == before + bytes[..index + 1]
  {
  }

  lemma WholeFeed(before: seq<Octet>, bytes: seq<Octet>, index: nat)
    requires index <= |bytes|
    ensures (before + bytes[..index]) + bytes[index..] == before + bytes
    ensures bytes[index..] == [] <==> index == |bytes|
  {
  }

  class HeaderScan {
    var state: ScanState

    /** Everything fed so far, in however many pieces. */
    ghost var seen: seq<Octet>

    constructor ()
      ensures ScanInv(state, seen) && seen == []
    {
      state, seen := ScanState(0, 0, false), [];
    }

    /** A feed.  Whatever the pieces were: the headers are complete exactly when the bytes so far
        contain the terminator in time, `headerBytes` is then the position just past its first
        occurrence, and the feed is rejected exactly when too many bytes have come without it. */
    method Feed(bytes: seq<Octet>) returns (rejected: bool)
      requires ScanInv(state, seen)
      modifies this
      ensures ScanInv(state, seen) && seen == old(seen) + bytes
      ensures rejected <==> bytes != [] && Overflows(seen)
      ensures state.complete <==> exists n: nat :: n <= 65536 && HeadersEndAt(seen, n)
      ensures state.complete ==> HeadersEndAt(seen, state.headerBytes)
    {
      var index := 0;
      rejected := false;
      ghost var fed := seen;
      while !state.complete && index < |bytes| && !rejected
        invariant index <= |bytes| && fed == seen + bytes[..index] && ScanInv(state, fed)
        invariant seen == old(seen)
        invariant rejected ==> index > 0 && !state.complete && state.headerBytes > HEADER_LIMIT
        invariant !rejected && index > 0 ==> state.complete || state.headerBytes <= HEADER_LIMIT
      {
        ScanByteKeepsInv(state, fed, bytes[index]);
        NextPrefix(seen, bytes, index);
        fed := fed + [bytes[index]];
        var (after, refused) := ScanByte(state, bytes[index]);
        state, rejected := after, refused;
        index := index + 1;
      }
      WholeFeed(seen, bytes, index);
      VerdictStands(state, fed, bytes[index..]);
      seen := seen + bytes;
      StateIsVerdict(state, seen);
    }
  }
}
