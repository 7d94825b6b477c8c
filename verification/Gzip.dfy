/** Concatenated gzip members and a deterministic decoder for them.  `determined[k]` says how many
    bytes of a member's payload its first `k` bytes determine, which is all that is assumed about
    the format. */
module Gzip {
  import opened Common

  datatype Member = Member(bytes: seq<Byte>, payload: seq<Byte>, determined: seq<nat>)

  /** A member starts with a non-zero byte (the magic number does) and decodes monotonically, from
      nothing to its whole payload. */
  predicate WellFormed(m: Member) {
    && |m.bytes| > 0 && m.bytes[0] != 0
    && |m.determined| == |m.bytes| + 1
    && m.determined[0] == 0 && m.determined[|m.bytes|] == |m.payload|
    && (forall i, j :: 0 <= i <= j <= |m.bytes| ==> m.determined[i] <= m.determined[j])
  }

  predicate AllWellFormed(ms: seq<Member>) {
    forall i :: 0 <= i < |ms| ==> WellFormed(ms[i])
  }

  function Stream(ms: seq<Member>): seq<Byte> {
    if ms == [] then [] else Stream(ms[..|ms| - 1]) + ms[|ms| - 1].bytes
  }

  function Payload(ms: seq<Member>): seq<Byte> {
    if ms == [] then [] else Payload(ms[..|ms| - 1]) + ms[|ms| - 1].payload
  }

  // ---------- the concatenation, laid out ----------

  /** `starts[k]` and `gives[k]` are where member `k` begins in the stream and in the payload. */
  datatype Archive = Archive(
    members: seq<Member>, stream: seq<Byte>, payload: seq<Byte>, starts: seq<nat>, gives: seq<nat>)

  predicate MemberAt(a: Archive, k: nat)
    requires k < |a.members| < |a.starts| && |a.gives| == |a.starts|
  {
    && a.starts[k + 1] == a.starts[k] + |a.members[k].bytes|
    && a.gives[k + 1] == a.gives[k] + |a.members[k].payload|
    && a.starts[k] < |a.stream| && a.stream[a.starts[k]] != 0
  }

  predicate ArchiveInv(a: Archive) {
    && AllWellFormed(a.members)
    && |a.starts| == |a.gives| == |a.members| + 1
    && a.starts[0] == a.gives[0] == 0
    && a.starts[|a.members|] == |a.stream| && a.gives[|a.members|] == |a.payload|
    && (forall k :: 0 <= k < |a.members| ==> MemberAt(a, k))
    && (forall j, k :: 0 <= j <= k <= |a.members| ==> a.starts[j] <= a.starts[k] && a.gives[j] <= a.gives[k])
  }

  function Extend(a: Archive, m: Member): Archive {
    Archive(a.members + [m], a.stream + m.bytes, a.payload + m.payload,
            a.starts + [|a.stream| + |m.bytes|], a.gives + [|a.payload| + |m.payload|])
  }

  function ArchiveOf(ms: seq<Member>): Archive {
    if ms == [] then Archive([], [], [], [0], [0]) else Extend(ArchiveOf(ms[..|ms| - 1]), ms[|ms| - 1])
  }

  lemma ExtendKeepsInv(a: Archive, m: Member)
    requires ArchiveInv(a) && WellFormed(m)
    ensures ArchiveInv(Extend(a, m))
  {
    var b := Extend(a, m);
    var n := |a.members|;
    forall k | 0 <= k < |b.members|
      ensures MemberAt(b, k)
    {
      if k < n { assert MemberAt(a, k); }
    }
    forall j, k | 0 <= j <= k <= |b.members|
      ensures b.starts[j] <= b.starts[k] && b.gives[j] <= b.gives[k]
    {
      if k <= n {
        assert a.starts[j] <= a.starts[k];
      } else if j <= n {
        assert a.starts[j] <= a.starts[n] && a.gives[j] <= a.gives[n];
      }
    }
  }

  /** The layout is that of the members' concatenation. */
  lemma {:induction false} ArchiveIsConcatenation(ms: seq<Member>)
    requires AllWellFormed(ms)
    ensures ArchiveInv(ArchiveOf(ms))
    ensures ArchiveOf(ms).members == ms
    ensures ArchiveOf(ms).stream == Stream(ms) && ArchiveOf(ms).payload == Payload(ms)
  {
    if ms != [] {
      ArchiveIsConcatenation(ms[..|ms| - 1]);
      ExtendKeepsInv(ArchiveOf(ms[..|ms| - 1]), ms[|ms| - 1]);
    }
  }

  /** Member `k`'s own bytes and payload lie at its place in the layout. */
  predicate InPlace(a: Archive, k: nat)
    requires ArchiveInv(a) && k < |a.members|
  {
    && a.starts[k] + |a.members[k].bytes| <= |a.stream|
    && a.gives[k] + |a.members[k].payload| <= |a.payload|
    && a.stream[a.starts[k]..a.starts[k] + |a.members[k].bytes|] == a.members[k].bytes
    && a.payload[a.gives[k]..a.gives[k] + |a.members[k].payload|] == a.members[k].payload
  }

  lemma SliceOfConcatenation(s: seq<Byte>, t: seq<Byte>, from: nat, to: nat)
    requires from <= to <= |s|
    ensures (s + t)[from..to] == s[from..to]
    ensures (s + t)[|s|..|s| + |t|] == t
  {
  }

  lemma ExtendKeepsPlaces(a: Archive, m: Member, k: nat)
    requires ArchiveInv(a) && WellFormed(m) && ArchiveInv(Extend(a, m)) && k <= |a.members|
    requires k < |a.members| ==> InPlace(a, k)
    ensures InPlace(Extend(a, m), k)
  {
    if k < |a.members| {
      SliceOfConcatenation(a.stream, m.bytes, a.starts[k], a.starts[k] + |a.members[k].bytes|);
      SliceOfConcatenation(a.payload, m.payload, a.gives[k], a.gives[k] + |a.members[k].payload|);
    } else {
      SliceOfConcatenation(a.stream, m.bytes, 0, 0);
      SliceOfConcatenation(a.payload, m.payload, 0, 0);
    }
  }

  lemma {:induction false} MembersLieInPlace(ms: seq<Member>, k: nat)
    requires AllWellFormed(ms) && k < |ms|
    ensures ArchiveInv(ArchiveOf(ms)) && |ArchiveOf(ms).members| == |ms| && InPlace(ArchiveOf(ms), k)
  {
    var init := ms[..|ms| - 1];
    ArchiveIsConcatenation(ms);
    ArchiveIsConcatenation(init);
    if k < |init| { MembersLieInPlace(init, k); }
    ExtendKeepsPlaces(ArchiveOf(init), ms[|ms| - 1], k);
  }

  // ---------- what a part of the stream determines ----------

  function DeterminedFrom(a: Archive, k: nat, n: nat): nat
    requires ArchiveInv(a) && k <= |a.members|
    decreases |a.members| - k
  {
    if k == |a.members| then |a.payload|
    else if n < a.starts[k] then a.gives[k]
    else if n - a.starts[k] < |a.members[k].bytes| then a.gives[k] + a.members[k].determined[n - a.starts[k]]
    else DeterminedFrom(a, k + 1, n)
  }

  /** How many payload bytes the first `n` bytes of the stream determine: the reference against which
      every way of cutting the stream into writes is measured. */
  function Determined(a: Archive, n: nat): nat
    requires ArchiveInv(a)
  {
    DeterminedFrom(a, 0, n)
  }

  /** Inside member `m`, that is what went before plus what the member's own bytes determine. */
  lemma {:induction false} DeterminedWithin(a: Archive, k: nat, m: nat, pos: nat)
    requires ArchiveInv(a) && k <= m < |a.members| && pos <= |a.members[m].bytes|
    ensures DeterminedFrom(a, k, a.starts[m] + pos) == a.gives[m] + a.members[m].determined[pos]
    decreases m - k
  {
    assert MemberAt(a, k) && MemberAt(a, m) && WellFormed(a.members[m]);
    if k < m {
      DeterminedWithin(a, k + 1, m, pos);
    } else if pos == |a.members[m].bytes| && m + 1 < |a.members| {
      assert MemberAt(a, m + 1) && WellFormed(a.members[m + 1]);
    }
  }

  lemma WholeStreamDetermines(a: Archive)
    requires ArchiveInv(a)
    ensures Determined(a, |a.stream|) == |a.payload|
  {
    if a.members != [] {
      var last := |a.members| - 1;
      assert MemberAt(a, last) && WellFormed(a.members[last]);
      DeterminedWithin(a, 0, last, |a.members[last].bytes|);
    }
  }

  lemma {:induction false} DeterminedIsMonotone(a: Archive, k: nat, n: nat, n': nat)
    requires ArchiveInv(a) && k <= |a.members| && n <= n'
    ensures a.gives[k] <= DeterminedFrom(a, k, n) <= DeterminedFrom(a, k, n') <= |a.payload|
    decreases |a.members| - k
  {
    if k < |a.members| {
      assert MemberAt(a, k) && WellFormed(a.members[k]);
      DeterminedIsMonotone(a, k + 1, n, n');
    }
  }

  // ---------- the decoder ----------

  /** `inflate` stands in member `member`, has consumed `pos` of its bytes and produced `out` of its
      payload. */
  datatype Decoder = Decoder(archive: Archive, member: nat, pos: nat, out: nat)

  predicate DecoderInv(d: Decoder) {
    && ArchiveInv(d.archive)
    && d.member < |d.archive.members|
    && d.pos <= |d.archive.members[d.member].bytes|
    && d.out <= d.archive.members[d.member].determined[d.pos]
  }

  predicate AtEnd(d: Decoder)
    requires DecoderInv(d)
  {
    d.pos == |d.archive.members[d.member].bytes| && d.out == |d.archive.members[d.member].payload|
  }

  /** Everything the consumed bytes determine has been produced. */
  predicate Drained(d: Decoder)
    requires DecoderInv(d)
  {
    d.out == d.archive.members[d.member].determined[d.pos]
  }

  /** Bytes of the stream consumed and of the payload produced so far. */
  function Consumed(d: Decoder): nat
    requires DecoderInv(d)
  {
    d.archive.starts[d.member] + d.pos
  }

  function Produced(d: Decoder): nat
    requires DecoderInv(d)
  {
    d.archive.gives[d.member] + d.out
  }

  /** One call of `inflate`, as zlib documents it: it goes on until the member ends, the output space
      is full, or the input is used up and everything it determines has been produced.  When told to
      (`block`), it may also stop earlier, at a block boundary it has moved to. */
  predicate Inflates(d: Decoder, available: nat, space: nat, block: bool, e: Decoder)
    requires DecoderInv(d)
  {
    && DecoderInv(e) && e.archive == d.archive && e.member == d.member
    && d.pos <= e.pos && e.pos - d.pos <= available
    && d.out <= e.out && e.out - d.out <= space
    && (|| AtEnd(e) || e.out - d.out == space
        || (e.pos - d.pos == available && Drained(e))
        || (block && e.pos - d.pos < available && (d.pos < e.pos || d.out < e.out)))
  }

  lemma InflateExists(d: Decoder, available: nat, space: nat, block: bool) returns (e: Decoder)
    requires DecoderInv(d)
    ensures Inflates(d, available, space, block, e)
  {
    var m := d.archive.members[d.member];
    assert WellFormed(m);
    var rest := |m.bytes| - d.pos;
    var pos := d.pos + if available <= rest then available else rest;
    var due := m.determined[pos] - d.out;
    e := d.(pos := pos, out := d.out + if due <= space then due else space);
  }

  // ---------- a decoder in the middle of a write ----------

  /** The write began when `given` payload bytes had been produced and is to bring the decoder to
      position `target`; it stands at `d`, with `rest` still to be consumed and `data` produced. */
  ghost predicate Underway(given: nat, target: nat, d: Decoder, rest: seq<Byte>, data: seq<Byte>) {
    && DecoderInv(d)
    && target <= |d.archive.stream| && Consumed(d) + |rest| == target
    && rest == d.archive.stream[Consumed(d)..target]
    && given <= Produced(d) <= |d.archive.payload|
    && data == d.archive.payload[given..Produced(d)]
  }

  /** At the end of a member with input left, there is another member, it starts with a non-zero
      byte, and moving to it changes neither position nor output. */
  lemma NextMember(given: nat, target: nat, d: Decoder, rest: seq<Byte>, data: seq<Byte>)
    requires Underway(given, target, d, rest, data) && AtEnd(d) && rest != []
    ensures d.member + 1 < |d.archive.members| && rest[0] != 0
    ensures Underway(given, target, d.(member := d.member + 1, pos := 0, out := 0), rest, data)
  {
    var a := d.archive;
    assert MemberAt(a, d.member);
    if d.member + 1 < |a.members| {
      assert MemberAt(a, d.member + 1);
    }
  }

  lemma SliceJoins(s: seq<Byte>, i: nat, j: nat, k: nat)
    requires i <= j <= k <= |s|
    ensures s[i..j] + s[j..k] == s[i..k]
  {
  }

  lemma SliceTail(s: seq<Byte>, i: nat, j: nat, k: nat)
    requires i <= j <= k <= |s|
    ensures s[i..k][j - i..] == s[j..k]
  {
  }

  lemma CallMoves(
    given: nat, target: nat, d: Decoder, e: Decoder, space: nat, block: bool, rest: seq<Byte>, data: seq<Byte>)
    requires Underway(given, target, d, rest, data) && Inflates(d, |rest|, space, block, e)
    ensures Produced(d) <= Produced(e) <= |d.archive.payload|
    ensures Underway(given, target, e, rest[e.pos - d.pos..], data + d.archive.payload[Produced(d)..Produced(e)])
  {
    var a := d.archive;
    assert MemberAt(a, d.member) && WellFormed(a.members[d.member]);
    assert a.gives[d.member + 1] <= a.gives[|a.members|];
    SliceJoins(a.payload, given, Produced(d), Produced(e));
    SliceTail(a.stream, Consumed(d), Consumed(e), target);
  }

  /** A drained decoder has produced exactly what the bytes it consumed determine, and one under way
      never more than its target does. */
  lemma ProducedIsDetermined(d: Decoder, target: nat)
    requires DecoderInv(d) && Consumed(d) <= target
    ensures Produced(d) <= Determined(d.archive, Consumed(d)) <= Determined(d.archive, target) <= |d.archive.payload|
    ensures Drained(d) ==> Produced(d) == Determined(d.archive, Consumed(d))
  {
    DeterminedWithin(d.archive, 0, d.member, d.pos);
    DeterminedIsMonotone(d.archive, 0, Consumed(d), target);
  }

  /** The position is the end of a member. */
  ghost predicate EndsMember(a: Archive, n: nat)
    requires ArchiveInv(a)
  {
    exists k :: 0 < k <= |a.members| && n == a.starts[k]
  }

  lemma AtEndEndsMember(d: Decoder)
    requires DecoderInv(d) && AtEnd(d)
    ensures EndsMember(d.archive, Consumed(d))
  {
    assert MemberAt(d.archive, d.member);
    assert Consumed(d) == d.archive.starts[d.member + 1];
  }

  lemma InsideEndsNoMember(d: Decoder)
    requires DecoderInv(d) && d.pos < |d.archive.members[d.member].bytes| && (d.pos > 0 || d.member == 0)
    ensures !EndsMember(d.archive, Consumed(d))
  {
    var a := d.archive;
    assert MemberAt(a, d.member);
    forall k | 0 < k <= |a.members|
      ensures Consumed(d) != a.starts[k]
    {
      if k <= d.member {
        assert a.starts[k] <= a.starts[d.member];
      } else {
        assert a.starts[d.member + 1] <= a.starts[k];
      }
    }
  }
}
