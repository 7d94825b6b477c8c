/** What surrounds the TLS socket: the kernel socket and the record layer (OpenSSL with a memory
    buffer on either side).  Both are automata driven by an arbitrary finite script of answers, so
    that a theorem about every script is a theorem about every behaviour of the library and the
    network.  A script that has run out answers "not ready". */
module TlsTransport {
  import opened Common

  // ---------- the kernel socket ----------

  /** `retained` is false when the memory buffer cannot take the bytes that were read. */
  datatype ReadAnswer = Data(bytes: seq<Byte>, retained: bool) | ReadNotReady | ReadError

  datatype WriteAnswer = Took(count: nat) | WriteNotReady | WriteError

  /** `received` and `sent` are all bytes ever taken from and given to the network.  The calls made
      are counted, with whether the last of each kind found the socket not ready; `unretained` are the
      bytes read that the input buffer did not take, and `broken` says that there are some, or that a
      call failed. */
  datatype Wire = Wire(
    arrivals: seq<ReadAnswer>, departures: seq<WriteAnswer>,
    received: seq<Byte>, sent: seq<Byte>, ended: bool,
    readCalls: nat, readBlocked: bool, writeCalls: nat, writeBlocked: bool,
    unretained: seq<Byte>, broken: bool)

  predicate Unretained(a: ReadAnswer) {
    a.Data? && a.bytes != [] && !a.retained
  }

  /** Empty data is the peer's end of file, after which the code must not read again. */
  function WireRead(w: Wire, capacity: nat): (r: (Wire, ReadAnswer))
    requires !w.ended && capacity > 0
    ensures r.0.sent == w.sent && r.0.writeCalls == w.writeCalls && r.0.writeBlocked == w.writeBlocked
    ensures r.0.readCalls == w.readCalls + 1 && r.0.readBlocked == r.1.ReadNotReady?
    ensures r.0.unretained == if Unretained(r.1) then w.unretained + r.1.bytes else w.unretained
    ensures r.0.broken == (w.broken || r.1.ReadError? || Unretained(r.1))
    ensures r.1.Data? ==> |r.1.bytes| <= capacity && r.0.received == w.received + r.1.bytes
    ensures !r.1.Data? ==> r.0.received == w.received
    ensures r.0.ended == (r.1.Data? && r.1.bytes == [])
  {
    var called := w.(readCalls := w.readCalls + 1, readBlocked := false);
    if w.arrivals == [] then (called.(readBlocked := true), ReadNotReady)
    else
      var rest := called.(arrivals := w.arrivals[1..]);
      match w.arrivals[0]
      case Data(bytes, retained) =>
        var got := if |bytes| <= capacity then bytes else bytes[..capacity];
        var lost := Unretained(Data(got, retained));
        (rest.(received := w.received + got, ended := got == [],
               unretained := if lost then w.unretained + got else w.unretained, broken := w.broken || lost),
         Data(got, retained))
      case ReadNotReady => (rest.(readBlocked := true), ReadNotReady)
      case ReadError => (rest.(broken := true), ReadError)
  }

  function WireWrite(w: Wire, bytes: seq<Byte>): (r: (Wire, WriteAnswer))
    requires bytes != []
    ensures r.0.received == w.received && r.0.ended == w.ended
    ensures r.0.readCalls == w.readCalls && r.0.readBlocked == w.readBlocked && r.0.unretained == w.unretained
    ensures r.0.writeCalls == w.writeCalls + 1 && r.0.writeBlocked == r.1.WriteNotReady?
    ensures r.0.broken == (w.broken || r.1.WriteError? || r.1 == Took(0))
    ensures r.1.Took? ==> r.1.count <= |bytes| && r.0.sent == w.sent + bytes[..r.1.count]
    ensures !r.1.Took? ==> r.0.sent == w.sent
  {
    var called := w.(writeCalls := w.writeCalls + 1, writeBlocked := false);
    if w.departures == [] then (called.(writeBlocked := true), WriteNotReady)
    else
      var rest := called.(departures := w.departures[1..]);
      match w.departures[0]
      case Took(count) =>
        var n := if count <= |bytes| then count else |bytes|;
        (rest.(sent := w.sent + bytes[..n], broken := w.broken || n == 0), Took(n))
      case WriteNotReady => (rest.(writeBlocked := true), WriteNotReady)
      case WriteError => (rest.(broken := true), WriteError)
  }

  // ---------- the record layer ----------

  datatype Outcome = Done(count: nat) | WantRead | WantWrite | ZeroReturn | Fatal

  /** What one call does besides its result: ciphertext consumed, ciphertext emitted, plaintext opened
      (by a read), and whether the peer's close_notify was met. */
  datatype Answer = Answer(consume: nat, emit: seq<Byte>, plain: seq<Byte>, closed: bool, outcome: Outcome)

  /** Plaintext sealed by one successful write; its ciphertext ends at position `end` of everything
      the record layer has produced. */
  datatype Record = Record(plain: seq<Byte>, end: nat)

  /** The state of the record layer apart from its transport buffers.  `calls` counts the calls made, and
      `fatal` says that one ended in an error.  `taken` and `produced` are all ciphertext ever read from
      and written to the buffers.  `plaintext` is all that was ever opened, of which the first `handed`
      bytes have been handed to the application; `last` is what the last call came to. */
  datatype Core = Core(
    answers: seq<Answer>, calls: nat, fatal: bool, transport: bool,
    taken: seq<Byte>, produced: seq<Byte>, records: seq<Record>, retry: Option<seq<Byte>>,
    sentShutdown: bool, receivedShutdown: bool,
    plaintext: seq<Byte>, handed: nat, last: Outcome)

  datatype Ssl = Ssl(core: Core, input: seq<Byte>, output: seq<Byte>)

  function Plain(records: seq<Record>): seq<Byte> {
    if records == [] then [] else records[0].plain + Plain(records[1..])
  }

  /** The plaintext whose ciphertext lies within the first `sent` bytes produced. */
  function Reached(records: seq<Record>, sent: nat): seq<Byte> {
    if records == [] || records[0].end > sent then []
    else records[0].plain + Reached(records[1..], sent)
  }

  function WithCore(s: Ssl, core: Core): Ssl {
    s.(core := core)
  }

  /** The side effects every call may have. */
  function Exchange(s: Ssl, a: Answer): Ssl {
    var n := if a.consume <= |s.input| then a.consume else |s.input|;
    Ssl(
      s.core.(answers := if s.core.answers == [] then [] else s.core.answers[1..],
              calls := s.core.calls + 1, last := a.outcome, fatal := s.core.fatal || a.outcome.Fatal?,
              taken := s.core.taken + s.input[..n], produced := s.core.produced + a.emit,
              receivedShutdown := s.core.receivedShutdown || a.closed),
      s.input[n..], s.output + a.emit)
  }

  function NextAnswer(s: Ssl): Answer {
    if s.core.answers == [] then Answer(0, [], [], false, WantRead) else s.core.answers[0]
  }

  /** The handshake: no plaintext is sealed or opened. */
  function SslCall(s: Ssl): (Ssl, Outcome) {
    (Exchange(s, NextAnswer(s)), NextAnswer(s).outcome)
  }

  /** `SSL_write` with partial writes enabled.  After WANT_READ or WANT_WRITE it must be offered the
      same bytes again, and nothing may be written after close_notify; both are preconditions. */
  function SslWrite(s: Ssl, buffer: seq<Byte>): (Ssl, Outcome)
    requires 0 < |buffer| <= 16384
    requires s.core.retry.Some? ==> s.core.retry.value == buffer
    requires !s.core.sentShutdown
  {
    var a := NextAnswer(s);
    var t := Exchange(s, a);
    match a.outcome
    case Done(count) =>
      var n := if 0 < count <= |buffer| then count else |buffer|;
      var record := Record(buffer[..n], |t.core.produced|);
      (WithCore(t, t.core.(retry := None, records := s.core.records + [record], last := Done(n))), Done(n))
    case WantRead => (WithCore(t, t.core.(retry := Some(buffer))), WantRead)
    case WantWrite => (WithCore(t, t.core.(retry := Some(buffer))), WantWrite)
    case other => (WithCore(t, t.core.(fatal := true, last := Fatal)), Fatal)
  }

  /** `SSL_read` and `SSL_peek` up to the plaintext they show: there is some at once if it was opened
      before and not handed out, and else if the records now processed yield some. */
  function SslFetch(s: Ssl): (r: (Ssl, Outcome))
    requires s.core.handed <= |s.core.plaintext|
    ensures r.1.Done? <==> r.0.core.handed < |r.0.core.plaintext|
    ensures r.0.core.last == r.1 && r.0.core.handed == s.core.handed && s.core.plaintext <= r.0.core.plaintext
    ensures r.0.core.calls == s.core.calls + 1
  {
    if s.core.handed < |s.core.plaintext| then
      (WithCore(s, s.core.(calls := s.core.calls + 1, last := Done(1))), Done(1))
    else
      var a := NextAnswer(s);
      var outcome := if a.outcome.Done? && a.plain == [] then WantRead else a.outcome;
      var t := Exchange(s, a);
      (WithCore(t, t.core.(plaintext := if outcome.Done? then s.core.plaintext + a.plain else s.core.plaintext,
                           last := outcome)), outcome)
  }

  /** The plaintext a read of this capacity is handed. */
  function Readable(core: Core, capacity: nat): (r: seq<Byte>)
    requires core.handed <= |core.plaintext|
    ensures |r| <= capacity && core.handed + |r| <= |core.plaintext|
    ensures |r| == capacity || core.handed + |r| == |core.plaintext|
  {
    var left := |core.plaintext| - core.handed;
    core.plaintext[core.handed..core.handed + if capacity <= left then capacity else left]
  }

  /** `SSL_shutdown`: close_notify is produced unless the call fails or must be retried. */
  function SslShutdown(s: Ssl): (Ssl, Outcome)
    requires !s.core.sentShutdown
  {
    var a := NextAnswer(s);
    var t := Exchange(s, a);
    (WithCore(t, t.core.(sentShutdown := a.outcome.Done? || a.outcome.ZeroReturn?)), a.outcome)
  }

  // ---------- facts about sealed and transmitted plaintext ----------

  lemma {:induction false} PlainAppend(records: seq<Record>, r: Record)
    ensures Plain(records + [r]) == Plain(records) + r.plain
  {
    if records == [] {
      assert Plain([r]) == r.plain + Plain([]);
    } else {
      assert (records + [r])[1..] == records[1..] + [r];
      PlainAppend(records[1..], r);
    }
  }

  lemma {:induction false} ReachedIsPrefix(records: seq<Record>, sent: nat)
    ensures Reached(records, sent) <= Plain(records)
  {
    if records != [] && records[0].end <= sent {
      ReachedIsPrefix(records[1..], sent);
    }
  }

  lemma {:induction false} ReachedGrows(records: seq<Record>, r: Record, sent: nat, more: nat)
    requires sent <= more
    ensures Reached(records, sent) <= Reached(records, more)
    ensures Reached(records, sent) <= Reached(records + [r], sent)
  {
    if records != [] && records[0].end <= sent {
      assert (records + [r])[1..] == records[1..] + [r];
      ReachedGrows(records[1..], r, sent, more);
    }
  }

  /** When the output buffer is empty, everything sealed has been transmitted. */
  lemma {:induction false} AllReached(records: seq<Record>, sent: nat)
    requires forall i :: 0 <= i < |records| ==> records[i].end <= sent
    ensures Reached(records, sent) == Plain(records)
  {
    if records != [] {
      AllReached(records[1..], sent);
    }
  }
}
