/** The wire format of the worker channel: a four-byte little-endian length, then a kind byte and a
    body.  The two facts the protocol rests on are that the length survives the round trip and that
    a concatenation of frames can be cut back into frames in only one way. */
module WorkerFrames {
  import opened Common

  const FRAME_LIMIT: nat := 16 * 1024 * 1024 + 1
  const QUEUE_LIMIT: nat := 64 * 1024 * 1024

  datatype Message = Message(kind: Byte, body: seq<Byte>)

  /** The messages that `send` does not refuse for their size. */
  predicate Sendable(m: Message) {
    |m.body| < FRAME_LIMIT
  }

  predicate AllSendable(ms: seq<Message>) {
    forall i :: 0 <= i < |ms| ==> Sendable(ms[i])
  }

  function LittleEndian(n: nat, width: nat): (r: seq<Byte>)
    ensures |r| == width
  {
    if width == 0 then [] else [n % 256] + LittleEndian(n / 256, width - 1)
  }

  function FromLittleEndian(s: seq<Byte>): nat {
    if s == [] then 0 else s[0] + 256 * FromLittleEndian(s[1..])
  }

  function Power256(k: nat): (p: nat)
    ensures p > 0
  {
    if k == 0 then 1 else 256 * Power256(k - 1)
  }

  lemma {:induction false} LittleEndianRoundTrip(n: nat, width: nat)
    requires n < Power256(width)
    ensures FromLittleEndian(LittleEndian(n, width)) == n
  {
    if width > 0 {
      var rest := LittleEndian(n / 256, width - 1);
      LittleEndianRoundTrip(n / 256, width - 1);
      assert LittleEndian(n, width)[1..] == rest;
    }
  }

  lemma {:induction false} FromLittleEndianAppend(s: seq<Byte>, b: Byte)
    ensures FromLittleEndian(s + [b]) == FromLittleEndian(s) + b * Power256(|s|)
  {
    if s == [] {
      assert [b][1..] == [];
    } else {
      assert (s + [b])[1..] == s[1..] + [b];
      FromLittleEndianAppend(s[1..], b);
      assert 256 * (b * Power256(|s| - 1)) == b * Power256(|s|);
    }
  }

  lemma SplitDigit(b: Byte, rest: nat)
    ensures (b + 256 * rest) % 256 == b && (b + 256 * rest) / 256 == rest
  {
  }

  lemma {:induction false} LittleEndianOfDecoded(s: seq<Byte>)
    ensures LittleEndian(FromLittleEndian(s), |s|) == s
  {
    if s != [] {
      var rest := FromLittleEndian(s[1..]);
      SplitDigit(s[0], rest);
      LittleEndianOfDecoded(s[1..]);
      calc {
        LittleEndian(s[0] + 256 * rest, |s|);
        [s[0]] + LittleEndian(rest, |s| - 1);
        [s[0]] + s[1..];
        s;
      }
    }
  }

  /** The four-byte length in front of a payload of `n` bytes. */
  function Prefix(n: nat): (r: seq<Byte>)
    ensures |r| == 4
  {
    LittleEndian(n, 4)
  }

  /** The least significant byte comes first. */
  lemma PrefixBytes(n: nat)
    ensures Prefix(n) == [n % 256, n / 256 % 256, n / 65536 % 256, n / 16777216 % 256]
  {
    var a, b, c := n / 256, n / 65536, n / 16777216;
    assert LittleEndian(c, 1) == [c % 256] + LittleEndian(c / 256, 0);
    assert LittleEndian(b, 2) == [b % 256] + LittleEndian(c, 1);
    assert LittleEndian(a, 3) == [a % 256] + LittleEndian(b, 2);
  }

  lemma PrefixRoundTrip(n: nat)
    requires n < 0x1_0000_0000
    ensures FromLittleEndian(Prefix(n)) == n
  {
    assert Power256(2) == 256 * Power256(1);
    assert Power256(4) == 256 * Power256(3);
    LittleEndianRoundTrip(n, 4);
  }

  function Frame(m: Message): (r: seq<Byte>)
    ensures |r| == |m.body| + 5 && r[4] == m.kind && r[5..] == m.body
  {
    Prefix(|m.body| + 1) + [m.kind] + m.body
  }

  function Stream(ms: seq<Message>): seq<Byte> {
    if ms == [] then [] else Frame(ms[0]) + Stream(ms[1..])
  }

  lemma {:induction false} StreamAppend(ms: seq<Message>, m: Message)
    ensures Stream(ms + [m]) == Stream(ms) + Frame(m)
  {
    if ms == [] {
      assert [m][1..] == [];
    } else {
      assert (ms + [m])[1..] == ms[1..] + [m];
      StreamAppend(ms[1..], m);
    }
  }

  /** A frame is determined by any byte string it is a prefix of. */
  lemma FrameUnique(m: Message, n: Message, x: seq<Byte>, y: seq<Byte>)
    requires Sendable(m) && Sendable(n)
    requires Frame(m) + x <= Frame(n) + y
    ensures m == n && x <= y
  {
    var left, right := Frame(m) + x, Frame(n) + y;
    assert left[..4] == Prefix(|m.body| + 1) && right[..4] == Prefix(|n.body| + 1);
    assert left[..4] == right[..4];
    PrefixRoundTrip(|m.body| + 1);
    PrefixRoundTrip(|n.body| + 1);
    assert left[4] == m.kind && right[4] == n.kind;
    assert m.body == left[5..5 + |m.body|] == right[5..5 + |m.body|] == n.body;
    assert x == left[|Frame(m)|..] && y == right[|Frame(n)|..];
  }

  /** Cutting a stream into frames is unique: a stream that starts like another one carries a
      prefix of its messages, and what is left over starts the stream of the remaining ones. */
  lemma {:induction false} StreamPrefix(ms: seq<Message>, rest: seq<Byte>, ns: seq<Message>)
    requires AllSendable(ms) && AllSendable(ns)
    requires Stream(ms) + rest <= Stream(ns)
    ensures ms <= ns
    ensures rest <= Stream(ns[|ms|..])
  {
    if ms == [] {
      assert Stream(ms) + rest == rest && ns[0..] == ns;
    } else {
      assert Stream(ms) + rest == Frame(ms[0]) + (Stream(ms[1..]) + rest);
      FrameUnique(ms[0], ns[0], Stream(ms[1..]) + rest, Stream(ns[1..]));
      StreamPrefix(ms[1..], rest, ns[1..]);
      assert ns[|ms|..] == ns[1..][|ms| - 1..];
      assert ms == [ms[0]] + ms[1..] && ns == [ns[0]] + ns[1..];
    }
  }
}
