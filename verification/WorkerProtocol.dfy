/** One worker channel as a state machine whose steps are single system calls and API calls, and two
    channels joined by a byte pipe in each direction.  The channel value carries its history
    (messages accepted, bytes put on and taken off the wire, messages consumed), so that the
    theorems below speak about whole runs. */
module WorkerProtocol {
  import opened Common
  import opened WorkerFrames

  /** The status codes of the API; `Os` is an error number handed through from the kernel. */
  datatype Status =
    | Ok | EPIPE | EMSGSIZE | ENOBUFS | ENOMEM | EPROTO | EBADF | EINVAL | ETIMEDOUT
    | Os(code: int)

  datatype Outgoing = Outgoing(bytes: seq<Byte>, offset: nat)

  datatype Incoming = Incoming(length: nat, bytes: seq<Byte>)

  datatype Channel = Channel(
    open: bool, failure: Status, writeFailure: Status, eof: bool,
    queue: seq<Outgoing>, header: seq<Byte>, incoming: Option<Incoming>,
    accepted: seq<Message>, wireOut: seq<Byte>, wireIn: seq<Byte>, consumed: seq<Message>)

  const Initial: Channel := Channel(true, Ok, Ok, false, [], [], None, [], [], [], [])

  /** What one system call or API call does to a channel.  `Received` says whether the allocation
      that follows a complete length prefix succeeds. */
  datatype Event =
    | Accept(message: Message)
    | Sent(count: nat)
    | WriteFail(status: Status)
    | Received(bytes: seq<Byte>, granted: bool)
    | Ended
    | ReadFail(status: Status)
    | Consume
    | Close

  function Rest(o: Outgoing): seq<Byte> {
    if o.offset <= |o.bytes| then o.bytes[o.offset..] else []
  }

  function Unsent(queue: seq<Outgoing>): seq<Byte> {
    if queue == [] then [] else Rest(queue[0]) + Unsent(queue[1..])
  }

  predicate Complete(c: Channel) {
    c.incoming.Some? && |c.incoming.value.bytes| == c.incoming.value.length && c.incoming.value.length > 0
  }

  /** The message `worker_message` reports. */
  function Current(c: Channel): Message
    requires Complete(c)
  {
    Message(c.incoming.value.bytes[0], c.incoming.value.bytes[1..])
  }

  /** How many bytes the next `recv` asks for, before the 64 KiB cap. */
  function Wanted(c: Channel): int {
    if c.incoming.None? then 4 - |c.header| else c.incoming.value.length - |c.incoming.value.bytes|
  }

  predicate Writable(c: Channel) {
    c.open && c.failure.Ok? && c.writeFailure.Ok? && !c.eof
  }

  predicate Readable(c: Channel) {
    c.open && c.failure.Ok? && !c.eof && Wanted(c) > 0
  }

  predicate Enabled(c: Channel, e: Event) {
    match e
    case Accept(m) => Writable(c) && Sendable(m) && |Frame(m)| <= QUEUE_LIMIT - |Unsent(c.queue)|
    case Sent(n) => Writable(c) && c.queue != [] && 0 < n <= |c.queue[0].bytes| - c.queue[0].offset
    case WriteFail(s) => c.open && c.queue != [] && (s == EPIPE || s.Os?)
    case Received(bytes, _) => Readable(c) && 0 < |bytes| <= Wanted(c)
    case Ended => Readable(c)
    case ReadFail(s) => Readable(c) && s.Os?
    case Consume => Complete(c)
    case Close => true
  }

  function AfterSend(queue: seq<Outgoing>, n: nat): seq<Outgoing>
    requires queue != []
  {
    if queue[0].offset + n == |queue[0].bytes| then queue[1..]
    else [queue[0].(offset := queue[0].offset + n)] + queue[1..]
  }

  function Chunk(queue: seq<Outgoing>, n: nat): seq<Byte>
    requires queue != [] && n <= |queue[0].bytes| - queue[0].offset
  {
    queue[0].bytes[queue[0].offset..queue[0].offset + n]
  }

  /** A length prefix has just been completed: open the frame or fail the channel. */
  function OpenFrame(c: Channel, granted: bool): Channel {
    var length := FromLittleEndian(c.header);
    if length == 0 || length > FRAME_LIMIT then c.(failure := EMSGSIZE)
    else if !granted then c.(failure := ENOMEM)
    else c.(header := [], incoming := Some(Incoming(length, [])))
  }

  function Take(c: Channel, bytes: seq<Byte>, granted: bool): Channel {
    var d := c.(wireIn := c.wireIn + bytes);
    if c.incoming.Some? then
      d.(incoming := Some(c.incoming.value.(bytes := c.incoming.value.bytes + bytes)))
    else
      var d := d.(header := c.header + bytes);
      if |d.header| == 4 then OpenFrame(d, granted) else d
  }

  function Apply(c: Channel, e: Event): Channel
    requires Enabled(c, e)
  {
    match e
    case Accept(m) =>
      c.(queue := c.queue + [Outgoing(Frame(m), 0)], accepted := c.accepted + [m])
    case Sent(n) =>
      c.(queue := AfterSend(c.queue, n), wireOut := c.wireOut + Chunk(c.queue, n))
    case WriteFail(s) => c.(writeFailure := s, queue := [])
    case Received(bytes, granted) => Take(c, bytes, granted)
    case Ended =>
      c.(eof := true, failure := if c.header != [] || c.incoming.Some? then EPROTO else Ok)
    case ReadFail(s) => c.(failure := s)
    case Consume => c.(incoming := None, consumed := c.consumed + [Current(c)])
    case Close => c.(open := false, queue := [], incoming := None)
  }

  /** The channel after a run, if every event was enabled when it happened. */
  function Replay(run: seq<Event>): Option<Channel> {
    if run == [] then Some(Initial)
    else
      match Replay(run[..|run| - 1])
      case None => None
      case Some(c) =>
        if Enabled(c, run[|run| - 1]) then Some(Apply(c, run[|run| - 1])) else None
  }

  /** The run leads to this state.  The bound variable keeps the replay folded for those who only pass
      it on. */
  ghost predicate Reaches(run: seq<Event>, c: Channel) {
    forall r :: r == run ==> Replay(r) == Some(c)
  }

  lemma ReachesIsReplay(run: seq<Event>, c: Channel)
    ensures Reaches(run, c) <==> Replay(run) == Some(c)
  {
  }

  // ---------- what every step of one channel keeps ----------

  ghost predicate QueueInv(c: Channel) {
    && (forall i :: 0 <= i < |c.queue| ==> c.queue[i].offset < |c.queue[i].bytes|)
    && |Unsent(c.queue)| <= QUEUE_LIMIT
    && (!c.open || !c.writeFailure.Ok? ==> c.queue == [])
    && (c.writeFailure in {Ok, EPIPE} || c.writeFailure.Os?)
  }

  /** While the channel can still write, wire and queue together are exactly the frames accepted. */
  ghost predicate SendInv(c: Channel) {
    && AllSendable(c.accepted)
    && if c.open && c.writeFailure.Ok? then c.wireOut + Unsent(c.queue) == Stream(c.accepted)
       else c.wireOut <= Stream(c.accepted)
  }

  /** The part of the wire that has not become a consumed message. */
  function Partial(c: Channel): seq<Byte> {
    if c.incoming.None? then c.header else Prefix(c.incoming.value.length) + c.incoming.value.bytes
  }

  predicate PartOfFrame(part: seq<Byte>) {
    0 < |part| && (|part| < 4 || |part| < 4 + FromLittleEndian(part[..4]) <= 4 + FRAME_LIMIT)
  }

  /** The bytes end inside a frame: some messages, then a proper, non-empty part of one frame or of
      a length prefix. */
  ghost predicate CutMidFrame(bytes: seq<Byte>) {
    exists ms, part :: AllSendable(ms) && bytes == Stream(ms) + part && PartOfFrame(part)
  }

  ghost predicate ReceiveInv(c: Channel) {
    && AllSendable(c.consumed)
    && Stream(c.consumed) <= c.wireIn
    && (c.open ==> c.wireIn == Stream(c.consumed) + Partial(c))
    && (c.failure in {Ok, EMSGSIZE, ENOMEM, EPROTO} || c.failure.Os?)
    && |c.header| <= 4
    && (|c.header| == 4 ==> !c.failure.Ok? && !c.eof)
    && (c.failure == EMSGSIZE ==>
          && |c.header| == 4
          && (FromLittleEndian(c.header) == 0 || FromLittleEndian(c.header) > FRAME_LIMIT)
          && Stream(c.consumed) + c.header == c.wireIn)
    && (c.incoming.Some? ==>
          && c.header == []
          && 0 < c.incoming.value.length <= FRAME_LIMIT
          && |c.incoming.value.bytes| <= c.incoming.value.length)
    && (c.eof ==>
          && (c.failure == Ok || c.failure == EPROTO)
          && (c.failure == Ok ==> c.header == [] && c.incoming == None && c.wireIn == Stream(c.consumed))
          && (c.failure == EPROTO ==> CutMidFrame(c.wireIn)))
    && (c.failure == EPROTO ==> c.eof)
    && (c.incoming.Some? && Wanted(c) == 0 ==> c.open && c.failure.Ok? && !c.eof)
    && (!c.open ==> c.incoming == None)
  }

  ghost predicate Inv(c: Channel) {
    QueueInv(c) && SendInv(c) && ReceiveInv(c)
  }

  lemma {:induction false} UnsentAppend(queue: seq<Outgoing>, o: Outgoing)
    requires o.offset == 0
    ensures Unsent(queue + [o]) == Unsent(queue) + o.bytes
  {
    assert Rest(o) == o.bytes;
    if queue == [] {
      assert Unsent([o]) == o.bytes + Unsent([]);
    } else {
      UnsentAppend(queue[1..], o);
      calc {
        Unsent(queue + [o]);
        { assert (queue + [o])[1..] == queue[1..] + [o]; }
        Rest(queue[0]) + Unsent(queue[1..] + [o]);
        Rest(queue[0]) + (Unsent(queue[1..]) + o.bytes);
        Unsent(queue) + o.bytes;
      }
    }
  }

  lemma Assoc<T>(a: seq<T>, b: seq<T>, c: seq<T>)
    ensures (a + b) + c == a + (b + c)
  {
  }

  lemma RestAfterSend(f: Outgoing, n: nat)
    requires n <= |f.bytes| - f.offset
    ensures Rest(f) == f.bytes[f.offset..f.offset + n] + Rest(f.(offset := f.offset + n))
  {
  }

  lemma UnsentCons(o: Outgoing, queue: seq<Outgoing>)
    ensures Unsent([o] + queue) == Rest(o) + Unsent(queue)
  {
    assert ([o] + queue)[1..] == queue;
  }

  lemma UnsentAfterHead(queue: seq<Outgoing>, g: Outgoing)
    requires queue != [] && g.bytes == queue[0].bytes && queue[0].offset <= g.offset <= |g.bytes|
    ensures Rest(g) + Unsent(queue[1..]) == Unsent(AfterSend(queue, g.offset - queue[0].offset))
  {
    if g.offset == |g.bytes| {
      assert Rest(g) == [];
    } else {
      assert g == queue[0].(offset := g.offset);
      UnsentCons(g, queue[1..]);
    }
  }

  lemma UnsentAfterSend(queue: seq<Outgoing>, n: nat)
    requires queue != [] && 0 < n <= |queue[0].bytes| - queue[0].offset
    ensures Chunk(queue, n) + Unsent(AfterSend(queue, n)) == Unsent(queue)
  {
    var f, tail := queue[0], Unsent(queue[1..]);
    var g := f.(offset := f.offset + n);
    var sent := Chunk(queue, n);
    RestAfterSend(f, n);
    Assoc(sent, Rest(g), tail);
    calc {
      Unsent(queue);
      Rest(f) + tail;
      sent + (Rest(g) + tail);
      { UnsentAfterHead(queue, g); }
      sent + Unsent(AfterSend(queue, n));
    }
  }

  lemma AcceptStep(c: Channel, m: Message)
    requires QueueInv(c) && SendInv(c) && Enabled(c, Accept(m))
    ensures QueueInv(Apply(c, Accept(m))) && SendInv(Apply(c, Accept(m)))
  {
    UnsentAppend(c.queue, Outgoing(Frame(m), 0));
    StreamAppend(c.accepted, m);
    Assoc(c.wireOut, Unsent(c.queue), Frame(m));
  }

  lemma AfterSendKeepsOffsets(queue: seq<Outgoing>, n: nat)
    requires queue != [] && 0 < n <= |queue[0].bytes| - queue[0].offset
    requires forall i :: 0 <= i < |queue| ==> queue[i].offset < |queue[i].bytes|
    ensures var after := AfterSend(queue, n);
            forall i :: 0 <= i < |after| ==> after[i].offset < |after[i].bytes|
  {
  }

  /** `send` only moves bytes from the head of the queue to the end of the wire. */
  lemma SendMovesBytes(wire: seq<Byte>, queue: seq<Outgoing>, n: nat)
    requires queue != [] && 0 < n <= |queue[0].bytes| - queue[0].offset
    ensures (wire + Chunk(queue, n)) + Unsent(AfterSend(queue, n)) == wire + Unsent(queue)
    ensures |Unsent(AfterSend(queue, n))| + n == |Unsent(queue)|
  {
    UnsentAfterSend(queue, n);
    Assoc(wire, Chunk(queue, n), Unsent(AfterSend(queue, n)));
  }

  lemma SentStep(c: Channel, n: nat)
    requires QueueInv(c) && SendInv(c) && Enabled(c, Sent(n))
    ensures QueueInv(Apply(c, Sent(n))) && SendInv(Apply(c, Sent(n)))
  {
    SendMovesBytes(c.wireOut, c.queue, n);
    AfterSendKeepsOffsets(c.queue, n);
  }

  lemma DropQueueStep(c: Channel)
    requires SendInv(c)
    ensures c.wireOut <= Stream(c.accepted)
  {
  }

  lemma ReadsKeepOutput(c: Channel, e: Event)
    requires Enabled(c, e) && (e.Received? || e.Ended? || e.ReadFail? || e.Consume?)
    ensures var d := Apply(c, e);
            && d.open == c.open && d.writeFailure == c.writeFailure && d.queue == c.queue
            && d.accepted == c.accepted && d.wireOut == c.wireOut
  {
  }

  lemma SendStep(c: Channel, e: Event)
    requires QueueInv(c) && SendInv(c) && Enabled(c, e)
    ensures QueueInv(Apply(c, e)) && SendInv(Apply(c, e))
  {
    match e
    case Accept(m) => AcceptStep(c, m);
    case Sent(n) => SentStep(c, n);
    case WriteFail(_) => DropQueueStep(c);
    case Close => DropQueueStep(c);
    case _ => ReadsKeepOutput(c, e);
  }

  lemma TakeStep(c: Channel, bytes: seq<Byte>, granted: bool)
    requires Inv(c) && Enabled(c, Received(bytes, granted))
    ensures ReceiveInv(Take(c, bytes, granted))
  {
    var d := Take(c, bytes, granted);
    if c.incoming.Some? {
      Assoc(Prefix(c.incoming.value.length), c.incoming.value.bytes, bytes);
    } else {
      var header := c.header + bytes;
      if |header| == 4 {
        LittleEndianOfDecoded(header);
        assert header + [] == header;
      }
    }
    assert Partial(d) == Partial(c) + bytes;
    Assoc(Stream(c.consumed), Partial(c), bytes);
    assert Stream(c.consumed) <= c.wireIn + bytes;
  }

  lemma EndStep(c: Channel)
    requires Inv(c) && Enabled(c, Ended)
    ensures ReceiveInv(Apply(c, Ended))
  {
    assert Stream(c.consumed) + [] == Stream(c.consumed);
    if c.header != [] || c.incoming.Some? {
      var part := Partial(c);
      if c.incoming.Some? {
        PrefixRoundTrip(c.incoming.value.length);
        assert part[..4] == Prefix(c.incoming.value.length);
      }
      assert c.wireIn == Stream(c.consumed) + part && PartOfFrame(part);
      assert CutMidFrame(c.wireIn);
    }
  }

  lemma ConsumeStep(c: Channel)
    requires ReceiveInv(c) && Complete(c)
    ensures c.open ==> Stream(c.consumed + [Current(c)]) == c.wireIn
    ensures Frame(Current(c)) == Partial(c) && Sendable(Current(c))
  {
    var m := Current(c);
    assert [m.kind] + m.body == c.incoming.value.bytes;
    assert Frame(m) == Partial(c);
    StreamAppend(c.consumed, m);
  }

  lemma ConsumeKeeps(c: Channel)
    requires ReceiveInv(c) && Complete(c)
    ensures ReceiveInv(Apply(c, Consume))
  {
    ConsumeStep(c);
    var d := Apply(c, Consume);
    assert Partial(d) == [];
    assert Stream(d.consumed) + [] == Stream(d.consumed);
  }

  lemma CloseKeeps(c: Channel)
    requires ReceiveInv(c)
    ensures ReceiveInv(Apply(c, Close))
  {
  }

  lemma WritesKeepInput(c: Channel, e: Event)
    requires ReceiveInv(c) && Enabled(c, e) && (e.Accept? || e.Sent? || e.WriteFail? || e.ReadFail?)
    ensures ReceiveInv(Apply(c, e))
  {
  }

  lemma InvStep(c: Channel, e: Event)
    requires Inv(c) && Enabled(c, e)
    ensures Inv(Apply(c, e))
  {
    SendStep(c, e);
    match e
    case Received(bytes, granted) => TakeStep(c, bytes, granted);
    case Ended => EndStep(c);
    case Consume => ConsumeKeeps(c);
    case Close => CloseKeeps(c);
    case _ => WritesKeepInput(c, e);
  }

  lemma {:induction false} EveryRunKeepsInv(run: seq<Event>, c: Channel)
    requires Replay(run) == Some(c)
    ensures Inv(c)
  {
    if run == [] {
      assert [] + [] == Stream([]);
    } else {
      var before := Replay(run[..|run| - 1]).value;
      EveryRunKeepsInv(run[..|run| - 1], before);
      InvStep(before, run[|run| - 1]);
    }
  }

  // ---------- truncated streams ----------

  ghost predicate AtFrameBoundary(bytes: seq<Byte>) {
    exists ms :: AllSendable(ms) && bytes == Stream(ms)
  }

  lemma {:induction false} StreamConcat(ms: seq<Message>, ns: seq<Message>)
    ensures Stream(ms + ns) == Stream(ms) + Stream(ns)
  {
    if ms == [] {
      assert [] + ns == ns;
    } else {
      assert (ms + ns)[1..] == ms[1..] + ns;
      StreamConcat(ms[1..], ns);
    }
  }

  /** A part of a frame is no whole number of frames. */
  lemma PartIsNoStream(part: seq<Byte>, ms: seq<Message>)
    requires PartOfFrame(part) && AllSendable(ms)
    ensures part != Stream(ms)
  {
    if part == Stream(ms) {
      var frame := Frame(ms[0]);
      assert part == frame + Stream(ms[1..]);
      assert part[..4] == frame[..4] == Prefix(|ms[0].body| + 1);
      PrefixRoundTrip(|ms[0].body| + 1);
      assert false;
    }
  }

  lemma CutIsNoBoundary(bytes: seq<Byte>)
    requires CutMidFrame(bytes)
    ensures !AtFrameBoundary(bytes)
  {
    var ms, part :| AllSendable(ms) && bytes == Stream(ms) + part && PartOfFrame(part);
    if ns :| AllSendable(ns) && bytes == Stream(ns) {
      StreamPrefix(ms, part, ns);
      StreamConcat(ms, ns[|ms|..]);
      assert ms + ns[|ms|..] == ns;
      PartIsNoStream(part, ns[|ms|..]);
    }
  }

  /** A stream cut inside a frame is never taken for a clean end, and a clean end is never reported
      as an error: after end of file the channel is sound exactly when the bytes received are a
      whole number of frames, and then every one of them has been consumed. */
  lemma EndOfFileIsCleanExactlyAtBoundary(run: seq<Event>, c: Channel)
    requires Replay(run) == Some(c) && c.eof
    ensures c.failure == Ok <==> AtFrameBoundary(c.wireIn)
    ensures c.failure == Ok ==> c.wireIn == Stream(c.consumed) && c.incoming == None
    ensures c.failure != Ok ==> c.failure == EPROTO
  {
    EveryRunKeepsInv(run, c);
    if c.failure != Ok {
      CutIsNoBoundary(c.wireIn);
    }
  }

  // ---------- after a write failure ----------

  lemma ReplaySplit(run: seq<Event>, e: Event)
    ensures Replay(run + [e]) ==
            match Replay(run)
            case None => None
            case Some(c) => if Enabled(c, e) then Some(Apply(c, e)) else None
  {
    assert (run + [e])[..|run|] == run;
  }

  ghost predicate Silenced(c: Channel) {
    c.queue == [] && (!c.writeFailure.Ok? || !c.open)
  }

  lemma SilencedStep(c: Channel, e: Event)
    requires Silenced(c) && Enabled(c, e)
    ensures Silenced(Apply(c, e))
    ensures Apply(c, e).wireOut == c.wireOut && Apply(c, e).accepted == c.accepted
  {
  }

  /** Once a write has failed (and the rest of its frame has been discarded), or the channel has
      been closed, no continuation of the run puts another byte on the wire or accepts a message. */
  lemma {:induction false} NothingIsWrittenAfterFailure(run: seq<Event>, more: seq<Event>, c: Channel, d: Channel)
    requires Replay(run) == Some(c) && Silenced(c)
    requires Replay(run + more) == Some(d)
    ensures d.wireOut == c.wireOut && d.accepted == c.accepted && Silenced(d)
    decreases |more|
  {
    if more == [] {
      assert run + more == run;
    } else {
      var init, e := more[..|more| - 1], more[|more| - 1];
      assert run + more == (run + init) + [e];
      ReplaySplit(run + init, e);
      var before := Replay(run + init).value;
      NothingIsWrittenAfterFailure(run, init, c, before);
      SilencedStep(before, e);
    }
  }

  /** Both ways of losing the write side leave the channel silenced. */
  lemma WriteFailureSilences(run: seq<Event>, c: Channel)
    requires Replay(run) == Some(c) && (!c.writeFailure.Ok? || !c.open)
    ensures Silenced(c)
  {
    EveryRunKeepsInv(run, c);
  }

  // ---------- what a flush tells ----------

  /** The channel was once closed while messages were pending. */
  predicate ClosedWithQueue(run: seq<Event>) {
    run != [] &&
    var init := run[..|run| - 1];
    (ClosedWithQueue(init) || (run[|run| - 1].Close? && Replay(init).Some? && Replay(init).value.queue != []))
  }

  lemma UnsentIsEmpty(queue: seq<Outgoing>)
    requires forall i :: 0 <= i < |queue| ==> queue[i].offset < |queue[i].bytes|
    ensures Unsent(queue) == [] <==> queue == []
  {
    if queue != [] {
      assert Rest(queue[0]) != [];
    }
  }

  /** The wire shows all accepted messages but those still queued, unless a close discarded some. */
  ghost predicate WireShows(run: seq<Event>, c: Channel) {
    if ClosedWithQueue(run) then !c.open && |c.wireOut| < |Stream(c.accepted)|
    else c.wireOut + Unsent(c.queue) == Stream(c.accepted)
  }

  lemma WireShowsStep(run: seq<Event>, c: Channel, e: Event)
    requires Replay(run) == Some(c) && WireShows(run, c) && Inv(c) && Enabled(c, e)
    requires c.writeFailure == Ok && Apply(c, e).writeFailure == Ok
    ensures WireShows(run + [e], Apply(c, e))
  {
    assert (run + [e])[..|run|] == run;
    var d := Apply(c, e);
    UnsentIsEmpty(c.queue);
    if e.Close? {
      assert c.wireOut + [] == c.wireOut;
    } else if d.open {
      InvStep(c, e);
    }
  }

  lemma {:induction false} EveryRunShowsWire(run: seq<Event>, c: Channel)
    requires Replay(run) == Some(c) && c.writeFailure == Ok
    ensures WireShows(run, c)
  {
    EveryRunKeepsInv(run, c);
    if run == [] {
      assert [] + [] == Stream([]);
    } else {
      var init, e := run[..|run| - 1], run[|run| - 1];
      var before := Replay(init).value;
      EveryRunKeepsInv(init, before);
      EveryRunShowsWire(init, before);
      WireShowsStep(init, before, e);
      assert init + [e] == run;
    }
  }

  /** An empty queue without a write failure, which is all that a flush looks at, means that every
      accepted message went out if and only if the channel was never closed on pending ones. */
  lemma FlushedMeansSent(run: seq<Event>, c: Channel)
    requires Replay(run) == Some(c) && c.writeFailure == Ok && c.queue == []
    ensures c.wireOut == Stream(c.accepted) <==> !ClosedWithQueue(run)
    ensures c.open ==> !ClosedWithQueue(run)
  {
    EveryRunShowsWire(run, c);
    assert c.wireOut + [] == c.wireOut;
  }

  lemma WholeWithoutRest(wire: seq<Byte>, rest: seq<Byte>, whole: seq<Byte>)
    requires wire + rest == whole
    ensures wire == whole <==> rest == []
  {
    if rest == [] {
      assert wire + [] == wire;
    }
  }

  /** What a caller can check before closing: nothing is lost exactly when nothing is pending. */
  lemma CloseKeepsExactlyWhatWasSent(run: seq<Event>, c: Channel)
    requires Replay(run) == Some(c) && c.open && c.writeFailure == Ok
    ensures Apply(c, Close).wireOut == Stream(Apply(c, Close).accepted) <==> c.queue == []
  {
    EveryRunKeepsInv(run, c);
    UnsentIsEmpty(c.queue);
    WholeWithoutRest(c.wireOut, Unsent(c.queue), Stream(c.accepted));
  }

  /** A message that is accepted and then closed on is lost, and the channel looks flushed. */
  lemma ClosedChannelLooksFlushed(m: Message)
    requires Sendable(m)
    ensures Replay([Accept(m), Close]).Some? && ClosedWithQueue([Accept(m), Close])
    ensures var c := Replay([Accept(m), Close]).value;
            c.queue == [] && c.writeFailure == Ok && c.accepted == [m] && c.wireOut == [] != Stream([m])
  {
    var c := Initial;
    assert Enabled(c, Accept(m));
    ReplaySplit([], Accept(m));
    assert [] + [Accept(m)] == [Accept(m)];
    var d := Apply(c, Accept(m));
    assert Replay([Accept(m)]) == Some(d);
    ReplaySplit([Accept(m)], Close);
    assert [Accept(m)] + [Close] == [Accept(m), Close];
    assert [Accept(m), Close][..1] == [Accept(m)];
    assert Stream([m]) == Frame(m) + Stream([m][1..]);
  }

  // ---------- two channels joined by a pipe in each direction ----------

  datatype System = System(here: Channel, there: Channel, outbound: seq<Byte>, inbound: seq<Byte>)

  const Joined: System := System(Initial, Initial, [], [])

  function Mirror(s: System): System {
    System(s.there, s.here, s.inbound, s.outbound)
  }

  /** The pipe hands over bytes in order; a read may return any non-empty part of what it holds,
      and end of file may strike at any point, because a worker process can die at any point. */
  predicate CanAct(s: System, e: Event) {
    Enabled(s.here, e) && (e.Received? ==> e.bytes <= s.inbound)
  }

  function Act(s: System, e: Event): System
    requires CanAct(s, e)
  {
    var after := Apply(s.here, e);
    System(
      after, s.there,
      s.outbound + after.wireOut[|s.here.wireOut|..],
      if e.Received? then s.inbound[|e.bytes|..] else s.inbound)
  }

  /** One step of either endpoint. */
  datatype Step = Here(event: Event) | There(event: Event)

  predicate CanStep(s: System, step: Step) {
    if step.Here? then CanAct(s, step.event) else CanAct(Mirror(s), step.event)
  }

  function Next(s: System, step: Step): System
    requires CanStep(s, step)
  {
    if step.Here? then Act(s, step.event) else Mirror(Act(Mirror(s), step.event))
  }

  function RunSystem(steps: seq<Step>): Option<System> {
    if steps == [] then Some(Joined)
    else
      match RunSystem(steps[..|steps| - 1])
      case None => None
      case Some(s) =>
        if CanStep(s, steps[|steps| - 1]) then Some(Next(s, steps[|steps| - 1])) else None
  }

  ghost predicate Flow(sender: Channel, pipe: seq<Byte>, receiver: Channel) {
    sender.wireOut == receiver.wireIn + pipe
  }

  ghost predicate SystemInv(s: System) {
    && Inv(s.here) && Inv(s.there)
    && Flow(s.here, s.outbound, s.there) && Flow(s.there, s.inbound, s.here)
  }

  lemma WireStep(c: Channel, e: Event)
    requires Enabled(c, e)
    ensures c.wireOut <= Apply(c, e).wireOut
    ensures e.Received? ==> Apply(c, e).wireIn == c.wireIn + e.bytes
    ensures !e.Received? ==> Apply(c, e).wireIn == c.wireIn
    ensures !e.Sent? ==> Apply(c, e).wireOut == c.wireOut
  {
  }

  lemma FlowStep(s: System, e: Event)
    requires Flow(s.here, s.outbound, s.there) && Flow(s.there, s.inbound, s.here)
    requires CanAct(s, e)
    ensures Flow(Act(s, e).here, Act(s, e).outbound, Act(s, e).there)
    ensures Flow(Act(s, e).there, Act(s, e).inbound, Act(s, e).here)
  {
    WireStep(s.here, e);
    var after := Apply(s.here, e);
    assert after.wireOut == s.here.wireOut + after.wireOut[|s.here.wireOut|..];
    if e.Received? {
      assert s.inbound == e.bytes + s.inbound[|e.bytes|..];
    }
  }

  lemma ActKeepsInv(s: System, e: Event)
    requires SystemInv(s) && CanAct(s, e)
    ensures SystemInv(Act(s, e))
  {
    InvStep(s.here, e);
    FlowStep(s, e);
  }

  lemma {:induction false} EveryRunKeepsSystemInv(steps: seq<Step>, s: System)
    requires RunSystem(steps) == Some(s)
    ensures SystemInv(s)
  {
    if steps == [] {
      EveryRunKeepsInv([], Initial);
    } else {
      var before := RunSystem(steps[..|steps| - 1]).value;
      EveryRunKeepsSystemInv(steps[..|steps| - 1], before);
      var step := steps[|steps| - 1];
      ActKeepsInv(if step.Here? then before else Mirror(before), step.event);
    }
  }

  /** Everything the receiving application has been or can now be shown. */
  function Delivered(c: Channel): seq<Message> {
    c.consumed + if Complete(c) then [Current(c)] else []
  }

  lemma DeliveredIsOnTheWire(c: Channel)
    requires Inv(c)
    ensures Stream(Delivered(c)) <= c.wireIn && AllSendable(Delivered(c))
  {
    if Complete(c) {
      ConsumeStep(c);
    } else {
      assert Delivered(c) == c.consumed;
    }
  }

  lemma OneWayDelivery(sender: Channel, pipe: seq<Byte>, receiver: Channel)
    requires Inv(sender) && Inv(receiver) && Flow(sender, pipe, receiver)
    ensures Delivered(receiver) <= sender.accepted
    ensures receiver.failure != EMSGSIZE
  {
    DropQueueStep(sender);
    assert receiver.wireIn <= sender.wireOut;
    DeliveredIsOnTheWire(receiver);
    var shown := Stream(Delivered(receiver));
    assert shown + [] == shown;
    StreamPrefix(Delivered(receiver), [], sender.accepted);
    if receiver.failure == EMSGSIZE {
      StreamPrefix(receiver.consumed, receiver.header, sender.accepted);
      var rest := sender.accepted[|receiver.consumed|..];
      assert receiver.header == Prefix(|rest[0].body| + 1);
      PrefixRoundTrip(|rest[0].body| + 1);
      assert false;
    }
  }

  /** The channel's central promise.  In every run of two joined channels, whatever the kernel
      answers and however the steps interleave, each side is shown a prefix, in order and byte for
      byte, of the messages the other side accepted; and no frame that `send` accepted is refused
      for its length on the other side. */
  lemma DeliveryIsFifo(steps: seq<Step>, s: System)
    requires RunSystem(steps) == Some(s)
    ensures Delivered(s.there) <= s.here.accepted
    ensures Delivered(s.here) <= s.there.accepted
    ensures s.here.failure != EMSGSIZE && s.there.failure != EMSGSIZE
  {
    EveryRunKeepsSystemInv(steps, s);
    OneWayDelivery(s.here, s.outbound, s.there);
    OneWayDelivery(s.there, s.inbound, s.here);
  }

  /** The same for any two runs of single channels, such as the runs two channel objects carry: it
      takes no more than that one side has read a prefix of what the other has written. */
  lemma PairedRunsDeliverInOrder(sending: seq<Event>, receiving: seq<Event>, sender: Channel, receiver: Channel)
    requires Replay(sending) == Some(sender) && Replay(receiving) == Some(receiver)
    requires receiver.wireIn <= sender.wireOut
    ensures Delivered(receiver) <= sender.accepted
    ensures receiver.failure != EMSGSIZE
  {
    EveryRunKeepsInv(sending, sender);
    EveryRunKeepsInv(receiving, receiver);
    var pipe := sender.wireOut[|receiver.wireIn|..];
    assert sender.wireOut == receiver.wireIn + pipe;
    OneWayDelivery(sender, pipe, receiver);
  }

  /** Messages are determined by their stream. */
  lemma StreamIsInjective(ms: seq<Message>, ns: seq<Message>)
    requires AllSendable(ms) && AllSendable(ns) && Stream(ms) == Stream(ns)
    ensures ms == ns
  {
    assert Stream(ms) + [] == Stream(ns) && Stream(ns) + [] == Stream(ms);
    StreamPrefix(ms, [], ns);
    StreamPrefix(ns, [], ms);
  }

  /** Nothing is lost either: when a writer has flushed its queue without failing, the pipe is
      drained and the reader is between frames, the reader has consumed exactly what was accepted. */
  lemma FlushedMessagesAllArrive(steps: seq<Step>, s: System)
    requires RunSystem(steps) == Some(s)
    requires s.here.open && s.here.writeFailure == Ok && s.here.queue == [] && s.outbound == []
    requires s.there.open && Partial(s.there) == []
    ensures s.there.consumed == s.here.accepted
  {
    EveryRunKeepsSystemInv(steps, s);
    assert s.there.wireIn == Stream(s.there.consumed) + [];
    assert s.here.wireOut + [] == Stream(s.here.accepted) == s.there.wireIn;
    StreamIsInjective(s.there.consumed, s.here.accepted);
  }
}
