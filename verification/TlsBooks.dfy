/** The accounts of a TLS socket, as values: what was written and how far it has come, what was
    received, sent, opened and handed out.  Every operation of the socket is one of the entries below,
    and each is shown to keep the accounts. */
module TlsBooks {
  import opened Common
  import opened TlsTransport

  const INPUT_LIMIT: nat := 65536
  const OUTPUT_LIMIT: nat := 16777216
  const QUEUE_LIMIT: nat := 268435456
  const SLICE: nat := 16384

  /** The first `handed` bytes of plaintext opened are those delivered, and they are counted. */
  ghost predicate DeliveredInv(plaintext: seq<Byte>, handed: nat, delivered: seq<Byte>, count: nat) {
    handed <= |plaintext| && delivered == plaintext[..handed] && count == handed
  }

  lemma FetchKeepsDelivered(s: Ssl, delivered: seq<Byte>, count: nat)
    requires DeliveredInv(s.core.plaintext, s.core.handed, delivered, count)
    ensures var t := SslFetch(s).0; DeliveredInv(t.core.plaintext, t.core.handed, delivered, count)
  {
    var t := SslFetch(s).0;
    assert t.core.plaintext[..s.core.handed] == s.core.plaintext[..s.core.handed];
  }

  lemma ReadDelivers(s: Ssl, capacity: nat, delivered: seq<Byte>, count: nat)
    requires DeliveredInv(s.core.plaintext, s.core.handed, delivered, count)
    ensures var bytes := Readable(s.core, capacity);
            DeliveredInv(s.core.plaintext, s.core.handed + |bytes|, delivered + bytes, count + |bytes|)
  {
  }

  /** Moving bytes from the front of one sequence to the end of another. */
  lemma Shift(front: seq<Byte>, back: seq<Byte>, length: nat, n: nat)
    requires n <= length <= |back|
    ensures (front + back[..length][..n]) + back[n..] == front + back
  {
    assert back[..length][..n] == back[..n];
  }

  lemma ExchangeKeepsTransport(s: Ssl, a: Answer)
    ensures var t := Exchange(s, a);
            && |t.input| <= |s.input|
            && t.core.taken + t.input == s.core.taken + s.input
            && forall sent: seq<Byte> :: s.core.produced == sent + s.output ==> t.core.produced == sent + t.output
  {
    var n := if a.consume <= |s.input| then a.consume else |s.input|;
    Shift(s.core.taken, s.input, |s.input|, n);
    assert s.input[..|s.input|][..n] == s.input[..n];
    forall sent: seq<Byte> | s.core.produced == sent + s.output
      ensures s.core.produced + a.emit == sent + (s.output + a.emit)
    {
    }
  }

  /** A successful write seals the accepted part of what it was offered, and leaves what had been
      transmitted transmitted. */
  lemma SealAppends(s: Ssl, slice: seq<Byte>, sent: nat)
    requires 0 < |slice| <= SLICE && (s.core.retry.Some? ==> s.core.retry.value == slice) && !s.core.sentShutdown
    requires SslWrite(s, slice).1.Done?
    ensures var (t, r) := SslWrite(s, slice);
            && 0 < r.count <= |slice|
            && Plain(t.core.records) == Plain(s.core.records) + slice[..r.count]
            && Reached(s.core.records, sent) <= Reached(t.core.records, sent)
  {
    var (t, r) := SslWrite(s, slice);
    var record := t.core.records[|s.core.records|];
    PlainAppend(s.core.records, record);
    ReachedGrows(s.core.records, record, sent, sent);
  }

  lemma AcceptedPrefix(written: seq<Byte>, base: nat, offset: nat, length: nat, n: nat)
    requires base + offset + length <= |written| && n <= length
    ensures written[..base + offset] + written[base..][offset..offset + length][..n] == written[..base + offset + n]
  {
  }

  /** Offering the queue's next slice extends the sealed prefix of what was accepted. */
  lemma SliceSealed(s: Ssl, slice: seq<Byte>, written: seq<Byte>, base: nat, offset: nat, sent: nat)
    requires 0 < |slice| <= SLICE && (s.core.retry.Some? ==> s.core.retry.value == slice) && !s.core.sentShutdown
    requires SslWrite(s, slice).1.Done?
    requires base + offset + |slice| <= |written| && slice == written[base..][offset..offset + |slice|]
    requires Plain(s.core.records) == written[..base + offset] <= Reached(s.core.records, sent)
    ensures var (t, r) := SslWrite(s, slice);
            && 0 < r.count <= |slice|
            && Plain(t.core.records) == written[..base + offset + r.count]
            && written[..base + offset] <= Reached(t.core.records, sent)
  {
    SealAppends(s, slice, sent);
    AcceptedPrefix(written, base, offset, |slice|, SslWrite(s, slice).1.count);
  }

  lemma SealKeepsRecordEnds(s: Ssl, slice: seq<Byte>)
    requires 0 < |slice| <= SLICE && (s.core.retry.Some? ==> s.core.retry.value == slice) && !s.core.sentShutdown
    requires forall i :: 0 <= i < |s.core.records| ==> s.core.records[i].end <= |s.core.produced|
    ensures var t := SslWrite(s, slice).0;
            forall i :: 0 <= i < |t.core.records| ==> t.core.records[i].end <= |t.core.produced|
  {
  }

  lemma NothingYet()
    ensures Plain([]) == [] && Reached([], 0) == []
  {
  }

  /** Ciphertext leaves in order, none lost or repeated, and is counted. */
  ghost predicate OutboundInv(
    produced: seq<Byte>, pending: seq<Byte>, records: seq<Record>, sent: seq<Byte>, count: nat)
  {
    && produced == sent + pending
    && count == |sent|
    && forall i :: 0 <= i < |records| ==> records[i].end <= |produced|
  }

  /** Ciphertext arrives in order and never fills more than the input budget: what was received is
      what the record layer took, what waits for it, and what could not be retained; all but the last
      is counted. */
  ghost predicate InboundInv(
    taken: seq<Byte>, pending: seq<Byte>, unretained: seq<Byte>, received: seq<Byte>, count: nat)
  {
    && |pending| <= INPUT_LIMIT
    && received == (taken + pending) + unretained
    && count + |unretained| == |received|
  }

  /** What the socket took moves from the output buffer to the end of what was sent. */
  lemma TransmitKeepsOutbound(
    produced: seq<Byte>, pending: seq<Byte>, records: seq<Record>, sent: seq<Byte>, count: nat, length: nat, n: nat)
    requires OutboundInv(produced, pending, records, sent, count) && n <= length <= |pending|
    ensures OutboundInv(produced, pending[n..], records, sent + pending[..length][..n], count + n)
  {
    Shift(sent, pending, length, n);
  }

  lemma ReceiveKeepsInbound(
    taken: seq<Byte>, pending: seq<Byte>, unretained: seq<Byte>, received: seq<Byte>, count: nat, bytes: seq<Byte>)
    requires InboundInv(taken, pending, unretained, received, count) && |pending| + |bytes| <= INPUT_LIMIT
    ensures unretained == [] ==> InboundInv(taken, pending + bytes, unretained, received + bytes, count + |bytes|)
    ensures InboundInv(taken, pending, unretained + bytes, received + bytes, count)
    ensures bytes == [] ==> InboundInv(taken, pending, unretained, received + bytes, count)
  {
    assert received + bytes == (taken + pending) + (unretained + bytes);
    if unretained == [] { assert received + bytes == (taken + (pending + bytes)) + []; }
    if bytes == [] { assert received + bytes == received; }
  }

  /** How much one read may bring. */
  function ReadSize(pending: nat): (size: nat)
    requires pending < INPUT_LIMIT
    ensures 0 < size <= SLICE && pending + size <= INPUT_LIMIT
  {
    if INPUT_LIMIT - pending > SLICE then SLICE else INPUT_LIMIT - pending
  }

  /** Where counting fails: a byte that is read and not retained has been received, but is neither
      counted nor buffered. */
  lemma UnretainedByteIsNotCounted(w: Wire, b: Byte)
    requires w.arrivals == [Data([b], false)] && w.received == [] && w.unretained == [] && !w.ended
    ensures var after := WireRead(w, ReadSize(0)).0;
            && after.received == [b] && after.unretained == [b] && after.broken
            && InboundInv([], [], after.unretained, after.received, 0)
  {
    ReceiveKeepsInbound([], [], [], [], 0, [b]);
  }

  /** The queue holds exactly the accepted bytes from `base` on, and an interrupted write will be
      repeated verbatim: same bytes, same length. */
  ghost predicate QueueInv(
    written: seq<Byte>, base: nat, output: seq<Byte>, offset: nat, length: nat, accepted: nat, retry: Option<seq<Byte>>)
  {
    && offset + accepted <= |output| && offset + length <= |output| <= offset + QUEUE_LIMIT
    && base <= |written| && output == written[base..]
    && (accepted > 0 ==> length == 0)
    && length <= SLICE
    && retry == (if length > 0 then Some(output[offset..offset + length]) else None)
  }

  /** The record layer has sealed exactly the first bytes accepted, up to those awaiting
      transmission; those before the offset have been transmitted. */
  ghost predicate SealInv(written: seq<Byte>, done: nat, accepted: nat, records: seq<Record>, sent: nat) {
    && done + accepted <= |written|
    && Plain(records) == written[..done + accepted]
    && written[..done] <= Reached(records, sent)
  }

  /** close_notify came after everything accepted had been transmitted. */
  ghost predicate ClosedInv(written: seq<Byte>, reachedAtClose: nat, records: seq<Record>, sent: nat) {
    reachedAtClose == |written| && Reached(records, sent) == written
  }

  lemma DropTwice(s: seq<Byte>, m: nat, n: nat)
    requires m + n <= |s|
    ensures s[m..][n..] == s[m + n..]
  {
  }

  lemma SliceOfSuffix(s: seq<Byte>, offset: nat, length: nat)
    requires offset + length <= |s|
    ensures s[offset..][0..0 + length] == s[offset..offset + length]
  {
  }

  lemma SliceOfExtended(s: seq<Byte>, more: seq<Byte>, offset: nat, length: nat)
    requires offset + length <= |s|
    ensures (s + more)[offset..offset + length] == s[offset..offset + length]
  {
  }

  /** Compaction keeps the queue and the interrupted slice. */
  lemma CompactKeepsQueue(
    written: seq<Byte>, base: nat, output: seq<Byte>, offset: nat, length: nat, accepted: nat, retry: Option<seq<Byte>>)
    requires QueueInv(written, base, output, offset, length, accepted, retry)
    ensures QueueInv(written, base + offset, output[offset..], 0, length, accepted, retry)
  {
    DropTwice(written, base, offset);
    SliceOfSuffix(output, offset, length);
  }

  /** So does appending to it. */
  lemma ExtendKeepsQueue(
    written: seq<Byte>, base: nat, output: seq<Byte>, offset: nat, length: nat, accepted: nat, retry: Option<seq<Byte>>,
    more: seq<Byte>)
    requires QueueInv(written, base, output, offset, length, accepted, retry)
    requires |output| + |more| <= offset + QUEUE_LIMIT
    ensures QueueInv(written + more, base, output + more, offset, length, accepted, retry)
  {
    SliceOfExtended(output, more, offset, length);
    assert (written + more)[base..] == written[base..] + more;
  }

  lemma ExtendKeepsSeal(written: seq<Byte>, done: nat, accepted: nat, records: seq<Record>, sent: nat, more: seq<Byte>)
    requires SealInv(written, done, accepted, records, sent)
    ensures SealInv(written + more, done, accepted, records, sent)
  {
    assert (written + more)[..done] == written[..done];
    assert (written + more)[..done + accepted] == written[..done + accepted];
  }

  /** What has been transmitted stays transmitted while more is sent. */
  lemma SealStays(written: seq<Byte>, done: nat, accepted: nat, records: seq<Record>, sent: nat, more: nat)
    requires SealInv(written, done, accepted, records, sent) && sent <= more
    ensures SealInv(written, done, accepted, records, more)
  {
    ReachedGrows(records, Record([], 0), sent, more);
  }

  lemma ClosedStays(written: seq<Byte>, reachedAtClose: nat, records: seq<Record>, sent: nat, more: nat)
    requires ClosedInv(written, reachedAtClose, records, sent) && sent <= more && Plain(records) <= written
    ensures ClosedInv(written, reachedAtClose, records, more)
  {
    ReachedGrows(records, Record([], 0), sent, more);
    ReachedIsPrefix(records, more);
  }

  /** What the peer can read from the ciphertext transmitted so far is a prefix of what the
      application wrote, at least up to the queue's offset; once the output buffer is empty it is
      everything the record layer has accepted. */
  lemma PeerReadsPrefix(
    written: seq<Byte>, done: nat, accepted: nat, records: seq<Record>,
    produced: seq<Byte>, pending: seq<Byte>, sent: seq<Byte>, count: nat)
    requires OutboundInv(produced, pending, records, sent, count)
    requires SealInv(written, done, accepted, records, |sent|)
    ensures written[..done] <= Reached(records, |sent|) <= written
    ensures pending == [] ==> Reached(records, |sent|) == written[..done + accepted]
  {
    ReachedIsPrefix(records, |sent|);
    if pending == [] {
      assert produced == sent;
      AllReached(records, |sent|);
    }
  }

  /** What the record layer accepts becomes a sealed prefix that awaits transmission. */
  lemma AcceptKeepsQueue(
    s: Ssl, slice: seq<Byte>, written: seq<Byte>, base: nat, output: seq<Byte>, offset: nat, length: nat,
    sent: seq<Byte>, count: nat)
    requires 0 < |slice| <= SLICE && (s.core.retry.Some? ==> s.core.retry.value == slice) && !s.core.sentShutdown
    requires SslWrite(s, slice).1.Done?
    requires offset + |slice| <= |output| && slice == output[offset..offset + |slice|]
    requires QueueInv(written, base, output, offset, length, 0, s.core.retry)
    requires SealInv(written, base + offset, 0, s.core.records, |sent|)
    requires OutboundInv(s.core.produced, s.output, s.core.records, sent, count)
    ensures var (t, r) := SslWrite(s, slice);
            && 0 < r.count
            && QueueInv(written, base, output, offset, 0, r.count, t.core.retry)
            && SealInv(written, base + offset, r.count, t.core.records, |sent|)
            && Plain(t.core.records) <= written
            && OutboundInv(t.core.produced, t.output, t.core.records, sent, count)
  {
    SliceSealed(s, slice, written, base, offset, |sent|);
    SealKeepsRecordEnds(s, slice);
    ExchangeKeepsTransport(s, NextAnswer(s));
  }

  // ---------- all accounts together ----------

  /** The fields of a socket that the accounts speak of. */
  datatype Books = Books(
    ssl: Ssl, wire: Wire, output: seq<Byte>, offset: nat, length: nat, accepted: nat,
    written: seq<Byte>, base: nat, reachedAtClose: nat, delivered: seq<Byte>,
    bytesRead: nat, bytesWritten: nat, wireRead: nat, wireWritten: nat)

  /** What everybody may know of them.  `live` says that the socket may still write. */
  ghost predicate Bounds(b: Books, live: bool) {
    && |b.ssl.input| <= INPUT_LIMIT && b.ssl.core.handed <= |b.ssl.core.plaintext|
    && (live ==>
          && b.offset + b.accepted <= |b.output| && b.offset + b.length <= |b.output| <= b.offset + QUEUE_LIMIT
          && b.length <= SLICE && (b.ssl.core.retry.Some? <==> b.length > 0)
          && (b.ssl.core.sentShutdown ==> b.output == []))
  }

  ghost predicate Kept(b: Books, live: bool) {
    && OutboundInv(b.ssl.core.produced, b.ssl.output, b.ssl.core.records, b.wire.sent, b.wireWritten)
    && InboundInv(b.ssl.core.taken, b.ssl.input, b.wire.unretained, b.wire.received, b.wireRead)
    && (!b.wire.broken ==> b.wire.unretained == [])
    && DeliveredInv(b.ssl.core.plaintext, b.ssl.core.handed, b.delivered, b.bytesRead)
    && Plain(b.ssl.core.records) <= b.written && b.bytesWritten == |b.written|
    && (live ==>
          && QueueInv(b.written, b.base, b.output, b.offset, b.length, b.accepted, b.ssl.core.retry)
          && SealInv(b.written, b.base + b.offset, b.accepted, b.ssl.core.records, |b.wire.sent|))
    && (b.ssl.core.sentShutdown ==> ClosedInv(b.written, b.reachedAtClose, b.ssl.core.records, |b.wire.sent|))
  }

  datatype Finding = Balanced | Unbalanced

  /** Whether the accounts are kept.  The bound variable keeps that folded for those who only pass it on. */
  ghost function Audit(b: Books, live: bool): Finding {
    if Bounds(b, live) && forall l :: l == live ==> Kept(b, l) then Balanced else Unbalanced
  }

  ghost predicate Sound(b: Books, live: bool) {
    Audit(b, live).Balanced?
  }

  lemma Fold(b: Books, live: bool)
    requires Bounds(b, live) && Kept(b, live)
    ensures Sound(b, live)
  {
  }

  lemma Unfold(b: Books, live: bool)
    requires Sound(b, live)
    ensures Kept(b, live)
  {
  }

  lemma Opening(b: Books, live: bool)
    requires b.wire.received == b.wire.sent == b.wire.unretained == [] && !b.ssl.core.sentShutdown
    requires b.ssl.input == b.ssl.output == b.ssl.core.taken == b.ssl.core.produced == b.ssl.core.plaintext == []
    requires b.ssl.core.records == [] && b.ssl.core.retry == None && b.ssl.core.handed == 0
    requires b.output == b.written == b.delivered == [] && b.offset == b.length == b.accepted == b.base == 0
    requires b.bytesRead == b.bytesWritten == b.wireRead == b.wireWritten == 0
    ensures Sound(b, live)
  {
    NothingYet();
    assert b.wire.sent + b.ssl.output == b.ssl.core.produced;
    Fold(b, live);
  }

  /** A socket that stops being live promises no more about its queue. */
  lemma Retire(b: Books, live: bool)
    requires Sound(b, live)
    ensures Sound(b, false)
  {
    Unfold(b, live);
    Fold(b, false);
  }

  /** Only its transport is new. */
  lemma Attach(b: Books, live: bool)
    requires Sound(b, live)
    ensures Sound(b.(ssl := WithCore(b.ssl, b.ssl.core.(transport := true))), live)
  {
    Unfold(b, live);
    Fold(b.(ssl := WithCore(b.ssl, b.ssl.core.(transport := true))), live);
  }

  // ---------- the transport ----------

  /** The entry made for an answer to a read of the wire. */
  function AfterReceive(b: Books, after: Wire, answer: ReadAnswer): Books {
    if answer.Data? && answer.bytes != [] && answer.retained then
      b.(wire := after, ssl := b.ssl.(input := b.ssl.input + answer.bytes), wireRead := b.wireRead + |answer.bytes|)
    else b.(wire := after)
  }

  /** Entries that only concern what arrives. */
  lemma InboundEntry(b: Books, c: Books, live: bool)
    requires Kept(b, live)
    requires c == b.(wire := c.wire, ssl := b.ssl.(input := c.ssl.input), wireRead := c.wireRead)
    requires c.wire.sent == b.wire.sent && (!c.wire.broken ==> c.wire.unretained == [])
    requires InboundInv(c.ssl.core.taken, c.ssl.input, c.wire.unretained, c.wire.received, c.wireRead)
    ensures Kept(c, live)
  {
  }

  lemma ReceiveKeepsAccount(b: Books, after: Wire, answer: ReadAnswer, size: nat)
    requires InboundInv(b.ssl.core.taken, b.ssl.input, b.wire.unretained, b.wire.received, b.wireRead)
    requires b.wire.unretained == [] && !b.wire.ended && 0 < size && |b.ssl.input| + size <= INPUT_LIMIT
    requires (after, answer) == WireRead(b.wire, size)
    ensures var c := AfterReceive(b, after, answer);
            InboundInv(c.ssl.core.taken, c.ssl.input, c.wire.unretained, c.wire.received, c.wireRead)
  {
    if answer.Data? {
      ReceiveKeepsInbound(b.ssl.core.taken, b.ssl.input, b.wire.unretained, b.wire.received, b.wireRead, answer.bytes);
    }
  }

  lemma ReceiveEntry(b: Books, live: bool, size: nat)
    requires Sound(b, live) && !b.wire.broken && !b.wire.ended && 0 < size && |b.ssl.input| + size <= INPUT_LIMIT
    ensures var (after, answer) := WireRead(b.wire, size);
            if answer.Data? && answer.bytes != [] && answer.retained then
              Sound(b.(wire := after, ssl := b.ssl.(input := b.ssl.input + answer.bytes),
                       wireRead := b.wireRead + |answer.bytes|), live)
            else Sound(b.(wire := after), live)
  {
    Unfold(b, live);
    var (after, answer) := WireRead(b.wire, size);
    ReceiveKeepsAccount(b, after, answer, size);
    InboundEntry(b, AfterReceive(b, after, answer), live);
    Fold(AfterReceive(b, after, answer), live);
  }

  function AfterTransmit(b: Books, after: Wire, answer: WriteAnswer): Books
    requires answer.Took? ==> answer.count <= |b.ssl.output|
  {
    if answer.Took? then
      b.(wire := after, ssl := b.ssl.(output := b.ssl.output[answer.count..]),
         wireWritten := b.wireWritten + answer.count)
    else b.(wire := after)
  }

  lemma StaysTransmitted(b: Books, live: bool, more: nat)
    requires Kept(b, live) && |b.wire.sent| <= more
    ensures live ==> SealInv(b.written, b.base + b.offset, b.accepted, b.ssl.core.records, more)
    ensures b.ssl.core.sentShutdown ==> ClosedInv(b.written, b.reachedAtClose, b.ssl.core.records, more)
  {
    if live { SealStays(b.written, b.base + b.offset, b.accepted, b.ssl.core.records, |b.wire.sent|, more); }
    if b.ssl.core.sentShutdown { ClosedStays(b.written, b.reachedAtClose, b.ssl.core.records, |b.wire.sent|, more); }
  }

  lemma TransmitEntry(b: Books, live: bool, length: nat)
    requires Sound(b, live) && 0 < length <= |b.ssl.output|
    ensures var (after, answer) := WireWrite(b.wire, b.ssl.output[..length]);
            if answer.Took? then
              && answer.count <= length
              && Sound(b.(wire := after, ssl := b.ssl.(output := b.ssl.output[answer.count..]),
                          wireWritten := b.wireWritten + answer.count), live)
            else Sound(b.(wire := after), live)
  {
    Unfold(b, live);
    var (after, answer) := WireWrite(b.wire, b.ssl.output[..length]);
    if answer.Took? {
      TransmitKeepsOutbound(b.ssl.core.produced, b.ssl.output, b.ssl.core.records, b.wire.sent, b.wireWritten,
                            length, answer.count);
      StaysTransmitted(b, live, |after.sent|);
    }
    Fold(AfterTransmit(b, after, answer), live);
  }

  // ---------- the record layer ----------

  lemma ExchangeKeeps(b: Books, live: bool, a: Answer)
    requires Kept(b, live)
    ensures Kept(b.(ssl := Exchange(b.ssl, a)), live)
  {
    ExchangeKeepsTransport(b.ssl, a);
  }

  /** One call was made and came to this. */
  ghost predicate Called(before: Core, after: Core, outcome: Outcome) {
    && after.calls == before.calls + 1 && after.last == outcome && after.transport == before.transport
    && (before.fatal ==> after.fatal) && (outcome == Fatal ==> after.fatal)
  }

  /** The handshake. */
  method CallLayer(s: Ssl, ghost b: Books, ghost live: bool) returns (after: Ssl, outcome: Outcome)
    requires Sound(b, live) && b.ssl == s
    ensures Sound(b.(ssl := after), live)
    ensures Called(s.core, after.core, outcome) && after.core.sentShutdown == s.core.sentShutdown
  {
    Unfold(b, live);
    ExchangeKeeps(b, live, NextAnswer(b.ssl));
    var (t, r) := SslCall(s);
    Fold(b.(ssl := t), live);
    return t, r;
  }

  /** Entries that only concern what was opened. */
  lemma OpenedEntry(b: Books, c: Books, live: bool)
    requires Kept(b, live)
    requires c == b.(ssl := WithCore(b.ssl, b.ssl.core.(calls := c.ssl.core.calls, plaintext := c.ssl.core.plaintext,
                                               last := c.ssl.core.last)))
    requires DeliveredInv(c.ssl.core.plaintext, c.ssl.core.handed, c.delivered, c.bytesRead)
    ensures Kept(c, live)
  {
  }

  lemma FetchEntry(b: Books, live: bool)
    requires Sound(b, live)
    ensures Sound(b.(ssl := SslFetch(b.ssl).0), live)
  {
    Unfold(b, live);
    var c := b.(ssl := SslFetch(b.ssl).0);
    FetchKeepsDelivered(b.ssl, b.delivered, b.bytesRead);
    if b.ssl.core.handed < |b.ssl.core.plaintext| {
      OpenedEntry(b, c, live);
    } else {
      ExchangeKeeps(b, live, NextAnswer(b.ssl));
      OpenedEntry(b.(ssl := Exchange(b.ssl, NextAnswer(b.ssl))), c, live);
    }
    Fold(c, live);
  }

  /** `SSL_read` or `SSL_peek`, up to the plaintext it shows. */
  method FetchLayer(s: Ssl, ghost b: Books, ghost live: bool) returns (after: Ssl, outcome: Outcome)
    requires Sound(b, live) && b.ssl == s
    ensures Sound(b.(ssl := after), live)
    ensures Called(s.core, after.core, outcome) && after.core.sentShutdown == s.core.sentShutdown
    ensures after.core.handed == s.core.handed
    ensures outcome.Done? <==> after.core.handed < |after.core.plaintext|
  {
    FetchEntry(b, live);
    var (t, r) := SslFetch(s);
    return t, r;
  }

  function AfterHandOut(b: Books, bytes: seq<Byte>): Books {
    b.(ssl := WithCore(b.ssl, b.ssl.core.(handed := b.ssl.core.handed + |bytes|)), delivered := b.delivered + bytes,
       bytesRead := b.bytesRead + |bytes|)
  }

  lemma HandOutEntry(b: Books, live: bool, capacity: nat)
    requires Sound(b, live)
    ensures Sound(AfterHandOut(b, Readable(b.ssl.core, capacity)), live)
  {
    Unfold(b, live);
    ReadDelivers(b.ssl, capacity, b.delivered, b.bytesRead);
    Fold(AfterHandOut(b, Readable(b.ssl.core, capacity)), live);
  }

  /** `SSL_read` hands out plaintext. */
  method HandOutLayer(core: Core, capacity: nat, ghost b: Books, ghost live: bool)
    returns (bytes: seq<Byte>, after: Core)
    requires Sound(b, live) && b.ssl.core == core
    ensures Sound(b.(ssl := WithCore(b.ssl, after), delivered := b.delivered + bytes,
                     bytesRead := b.bytesRead + |bytes|), live)
    ensures |bytes| <= capacity && (|bytes| == capacity || after.handed == |after.plaintext|)
    ensures capacity > 0 && core.handed < |core.plaintext| ==> |bytes| > 0
    ensures after.calls == core.calls && after.last == core.last
    ensures after.transport == core.transport && after.sentShutdown == core.sentShutdown
  {
    HandOutEntry(b, live, capacity);
    bytes := Readable(core, capacity);
    after := core.(handed := core.handed + |bytes|);
  }

  /** The slice that may be offered now: the interrupted one, if there is one. */
  ghost predicate Offerable(b: Books, slice: seq<Byte>) {
    && b.accepted == 0 && !b.ssl.core.sentShutdown
    && b.offset + |slice| <= |b.output| && 0 < |slice| <= SLICE
    && slice == b.output[b.offset..b.offset + |slice|]
    && (b.ssl.core.retry.Some? ==> b.ssl.core.retry.value == slice)
  }

  lemma OfferedAgain(b: Books, slice: seq<Byte>)
    requires Sound(b, true) && b.accepted == 0 && 0 < |slice| <= SLICE && b.offset + |slice| <= |b.output|
    requires slice == b.output[b.offset..b.offset + |slice|] && (b.length > 0 ==> |slice| == b.length)
    ensures Offerable(b, slice)
  {
    Unfold(b, true);
  }

  lemma InterruptEntry(b: Books, slice: seq<Byte>)
    requires Sound(b, true) && Offerable(b, slice)
    requires SslWrite(b.ssl, slice).1.WantRead? || SslWrite(b.ssl, slice).1.WantWrite?
    ensures Sound(b.(ssl := SslWrite(b.ssl, slice).0, length := |slice|), true)
  {
    Unfold(b, true);
    ExchangeKeepsTransport(b.ssl, NextAnswer(b.ssl));
    Fold(b.(ssl := SslWrite(b.ssl, slice).0, length := |slice|), true);
  }

  lemma AcceptEntry(b: Books, slice: seq<Byte>)
    requires Sound(b, true) && Offerable(b, slice) && SslWrite(b.ssl, slice).1.Done?
    ensures 0 < SslWrite(b.ssl, slice).1.count
    ensures var (s, r) := SslWrite(b.ssl, slice); Sound(b.(ssl := s, length := 0, accepted := r.count), true)
  {
    Unfold(b, true);
    ExchangeKeepsTransport(b.ssl, NextAnswer(b.ssl));
    AcceptKeepsQueue(b.ssl, slice, b.written, b.base, b.output, b.offset, b.length, b.wire.sent, b.wireWritten);
    var (s, r) := SslWrite(b.ssl, slice);
    Fold(b.(ssl := s, length := 0, accepted := r.count), true);
  }

  lemma BreakEntry(b: Books, slice: seq<Byte>)
    requires Sound(b, true) && Offerable(b, slice) && SslWrite(b.ssl, slice).1 == Fatal
    ensures Sound(b.(ssl := SslWrite(b.ssl, slice).0), false)
  {
    Unfold(b, true);
    ExchangeKeepsTransport(b.ssl, NextAnswer(b.ssl));
    Fold(b.(ssl := SslWrite(b.ssl, slice).0), false);
  }

  /** `SSL_write` with that slice: interrupted, accepted in part or whole, or broken. */
  method WriteLayer(s: Ssl, slice: seq<Byte>, ghost b: Books) returns (after: Ssl, outcome: Outcome)
    requires Sound(b, true) && b.ssl == s && Offerable(b, slice)
    ensures (after, outcome) == SslWrite(s, slice)
    ensures outcome.Done? || outcome == WantRead || outcome == WantWrite || outcome == Fatal
    ensures outcome == WantRead || outcome == WantWrite ==>
              after.core.retry.Some? && Sound(b.(ssl := after, length := |slice|), true)
    ensures outcome.Done? ==> 0 < outcome.count && Sound(b.(ssl := after, length := 0, accepted := outcome.count), true)
    ensures outcome == Fatal ==> Sound(b.(ssl := after), false)
    ensures Called(s.core, after.core, outcome) && after.core.sentShutdown == s.core.sentShutdown
  {
    var (t, r) := SslWrite(s, slice);
    if r.Done? {
      AcceptEntry(b, slice);
    } else if r == Fatal {
      BreakEntry(b, slice);
    } else {
      InterruptEntry(b, slice);
    }
    return t, r;
  }

  // ---------- the queue ----------

  /** The output buffer is empty, so what the record layer accepted has been transmitted. */
  lemma AdvanceEntry(b: Books)
    requires Sound(b, true) && b.ssl.output == []
    ensures Sound(b.(offset := b.offset + b.accepted, accepted := 0), true)
  {
    Unfold(b, true);
    PeerReadsPrefix(b.written, b.base + b.offset, b.accepted, b.ssl.core.records,
                    b.ssl.core.produced, b.ssl.output, b.wire.sent, b.wireWritten);
    Fold(b.(offset := b.offset + b.accepted, accepted := 0), true);
  }

  lemma ClearEntry(b: Books)
    requires Sound(b, true) && b.offset == |b.output|
    ensures Sound(b.(base := b.base + |b.output|, output := [], offset := 0), true)
  {
    Unfold(b, true);
    Fold(b.(base := b.base + |b.output|, output := [], offset := 0), true);
  }

  /** close_notify is asked for with an empty queue: all that was ever written has been transmitted. */
  lemma ShutdownEntry(b: Books)
    requires Sound(b, true) && b.output == [] && !b.ssl.core.sentShutdown
    ensures Reached(b.ssl.core.records, |b.wire.sent|) == b.written
    ensures Sound(b.(ssl := SslShutdown(b.ssl).0, reachedAtClose := |Reached(b.ssl.core.records, |b.wire.sent|)|), true)
  {
    Unfold(b, true);
    ReachedIsPrefix(b.ssl.core.records, |b.wire.sent|);
    assert b.written[..b.base] == b.written;
    ExchangeKeepsTransport(b.ssl, NextAnswer(b.ssl));
    Fold(b.(ssl := SslShutdown(b.ssl).0, reachedAtClose := |Reached(b.ssl.core.records, |b.wire.sent|)|), true);
  }

  /** `SSL_shutdown`. */
  method ShutdownLayer(s: Ssl, ghost b: Books) returns (after: Ssl, outcome: Outcome)
    requires Sound(b, true) && b.ssl == s && b.output == [] && !s.core.sentShutdown
    ensures Sound(b.(ssl := after, reachedAtClose := |b.written|), true)
    ensures Called(s.core, after.core, outcome)
    ensures after.core.sentShutdown <==> outcome.Done? || outcome == ZeroReturn
  {
    ShutdownEntry(b);
    var (t, r) := SslShutdown(s);
    return t, r;
  }

  lemma CompactEntry(b: Books)
    requires Sound(b, true)
    ensures Sound(b.(base := b.base + b.offset, output := b.output[b.offset..], offset := 0), true)
  {
    Unfold(b, true);
    CompactKeepsQueue(b.written, b.base, b.output, b.offset, b.length, b.accepted, b.ssl.core.retry);
    Fold(b.(base := b.base + b.offset, output := b.output[b.offset..], offset := 0), true);
  }

  function AfterExtend(b: Books, more: seq<Byte>): Books {
    b.(output := b.output + more, bytesWritten := b.bytesWritten + |more|, written := b.written + more)
  }

  lemma ExtendEntry(b: Books, more: seq<Byte>)
    requires Sound(b, true) && !b.ssl.core.sentShutdown && |b.output| + |more| <= b.offset + QUEUE_LIMIT
    ensures Sound(AfterExtend(b, more), true)
  {
    Unfold(b, true);
    ExtendKeepsQueue(b.written, b.base, b.output, b.offset, b.length, b.accepted, b.ssl.core.retry, more);
    ExtendKeepsSeal(b.written, b.base + b.offset, b.accepted, b.ssl.core.records, |b.wire.sent|, more);
    Fold(AfterExtend(b, more), true);
  }

  lemma DropEntry(b: Books)
    requires Sound(b, false)
    ensures Sound(b.(output := [], offset := 0, length := 0, accepted := 0), false)
  {
    Unfold(b, false);
    Fold(b.(output := [], offset := 0, length := 0, accepted := 0), false);
  }

  // ---------- what the accounts come to ----------

  /** Ciphertext came in order, and the count of received bytes is exact if and only if no byte was read
      that could not be retained. */
  lemma ReceivedIsAccounted(b: Books, live: bool)
    requires Sound(b, live)
    ensures b.wire.received == (b.ssl.core.taken + b.ssl.input) + b.wire.unretained
    ensures b.wireRead == |b.wire.received| <==> b.wire.unretained == []
    ensures b.wire.unretained != [] ==> b.wire.broken
    ensures b.wireWritten == |b.wire.sent|
  {
    Unfold(b, live);
  }

  /** What the peer can read is a prefix of what was written, all of it once close_notify was sent, and
      all that was sealed once the output buffer is empty. */
  lemma SentIsAccounted(b: Books, live: bool)
    requires Sound(b, live)
    ensures Reached(b.ssl.core.records, |b.wire.sent|) <= Plain(b.ssl.core.records) <= b.written
    ensures b.ssl.core.sentShutdown ==> Reached(b.ssl.core.records, |b.wire.sent|) == b.written
    ensures b.ssl.output == [] ==> Reached(b.ssl.core.records, |b.wire.sent|) == Plain(b.ssl.core.records)
  {
    Unfold(b, live);
    ReachedIsPrefix(b.ssl.core.records, |b.wire.sent|);
    if b.ssl.output == [] {
      assert b.wire.sent + [] == b.wire.sent;
      AllReached(b.ssl.core.records, |b.wire.sent|);
    }
  }

  lemma DeliveredIsAccounted(b: Books, live: bool)
    requires Sound(b, live)
    ensures b.delivered + b.ssl.core.plaintext[b.ssl.core.handed..] == b.ssl.core.plaintext
    ensures b.bytesRead == |b.delivered|
  {
    Unfold(b, live);
    var plaintext, handed := b.ssl.core.plaintext, b.ssl.core.handed;
    assert plaintext[..handed] + plaintext[handed..] == plaintext;
  }
}
