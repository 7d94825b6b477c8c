/** The worker channel as the code keeps it: a linked output queue with a running byte count, a
    length prefix being collected and an incoming frame being filled.  Every method is tied to the
    state machine of `WorkerProtocol`: the object carries the run of system-call steps it has made,
    and its fields always show the state that this run replays to. */
module WorkerChannel {
  import opened Common
  import opened WorkerFrames
  import opened WorkerProtocol

  datatype SendAnswer = Wrote(count: nat) | SendInterrupted | SendWouldBlock | SendFailed(code: int)

  datatype ReceiveAnswer = Got(bytes: seq<Byte>) | ReadInterrupted | ReadWouldBlock | ReadFailed(code: int)

  const INT_MAX: int := 0x7fff_ffff

  /** What the allocator's script answers next; beyond its end everything is granted. */
  predicate Granted(allocations: seq<bool>) {
    allocations == [] || allocations[0]
  }

  /** The socket behind a channel's descriptor: an arbitrary finite script of answers to each kind of
      call, and a record of the bytes that went through it.  When a script is used up, the descriptor
      is not ready and time has run out. */
  class Socket {
    var sends: seq<SendAnswer>
    var receives: seq<ReceiveAnswer>
    var allocations: seq<bool>
    var clock: seq<int>
    const clockWorks: bool
    var polls: seq<Option<int>>

    /** Every byte taken and handed out, the calls made and the last answer of each kind, how often
        memory was denied, what the clock last said and what the last poll did. */
    ghost var sent: seq<Byte>
    ghost var received: seq<Byte>
    ghost var sendCalls: nat
    ghost var receiveCalls: nat
    ghost var lastSend: SendAnswer
    ghost var lastReceive: ReceiveAnswer
    ghost var denials: nat
    ghost var measured: nat
    ghost var elapsed: int
    ghost var polled: nat
    ghost var pollError: Option<int>

    constructor (sends: seq<SendAnswer>, receives: seq<ReceiveAnswer>, allocations: seq<bool>,
                 clock: seq<int>, clockWorks: bool, polls: seq<Option<int>>)
      ensures sent == [] && received == []
    {
      this.sends, this.receives, this.allocations := sends, receives, allocations;
      this.clock, this.clockWorks, this.polls := clock, clockWorks, polls;
      sent, received, sendCalls, receiveCalls := [], [], 0, 0;
      lastSend, lastReceive, denials := SendWouldBlock, ReadWouldBlock, 0;
      measured, elapsed, polled, pollError := 0, 0, 0, None;
    }

    method Send(data: seq<Byte>) returns (r: SendAnswer)
      modifies this`sends, this`sent, this`sendCalls, this`lastSend
      ensures r.Wrote? ==> r.count <= |data|
      ensures sent == if r.Wrote? then old(sent) + data[..r.count] else old(sent)
      ensures sendCalls == old(sendCalls) + 1 && lastSend == r
      ensures |sends| <= |old(sends)|
      ensures r.SendInterrupted? ==> |sends| < |old(sends)|
    {
      r := SendWouldBlock;
      if sends != [] {
        r, sends := sends[0], sends[1..];
        if r.Wrote? && r.count > |data| { r := Wrote(|data|); }
      }
      if r.Wrote? { sent := sent + data[..r.count]; }
      sendCalls, lastSend := sendCalls + 1, r;
    }

    /** An empty `Got` is end of file. */
    method Receive(size: nat) returns (r: ReceiveAnswer)
      modifies this`receives, this`received, this`receiveCalls, this`lastReceive
      ensures r.Got? ==> |r.bytes| <= size
      ensures received == if r.Got? then old(received) + r.bytes else old(received)
      ensures receiveCalls == old(receiveCalls) + 1 && lastReceive == r
    {
      r := ReadWouldBlock;
      if receives != [] {
        r, receives := receives[0], receives[1..];
        if r.Got? && |r.bytes| > size { r := Got(r.bytes[..size]); }
      }
      if r.Got? { received := received + r.bytes; }
      receiveCalls, lastReceive := receiveCalls + 1, r;
    }

    method Allocate() returns (granted: bool)
      modifies this`allocations, this`denials
      ensures granted == Granted(old(allocations))
      ensures denials == old(denials) + if granted then 0 else 1
    {
      granted := true;
      if allocations != [] { granted, allocations := allocations[0], allocations[1..]; }
      if !granted { denials := denials + 1; }
    }

    /** Milliseconds since the caller's start. */
    method Elapsed() returns (ms: int)
      modifies this`clock, this`measured, this`elapsed
      ensures |clock| < |old(clock)| || ms > INT_MAX
      ensures measured == old(measured) + 1 && elapsed == ms
    {
      ms := INT_MAX + 1;
      if clock != [] { ms, clock := clock[0], clock[1..]; }
      measured, elapsed := measured + 1, ms;
    }

    /** `Some` is an error other than an interruption. */
    method Poll() returns (error: Option<int>)
      modifies this`polls, this`polled, this`pollError
      ensures polled == old(polled) + 1 && pollError == error
    {
      error := None;
      if polls != [] { error, polls := polls[0], polls[1..]; }
      polled, pollError := polled + 1, error;
    }

    /** Give up at the deadline, else wait for the descriptor. */
    method Pause(timeout: int) returns (status: Status)
      requires timeout <= INT_MAX
      modifies this`clock, this`measured, this`elapsed, this`polls, this`polled, this`pollError
      ensures status == Ok ==> |clock| < |old(clock)|
      ensures measured == old(measured) + 1 && polled == old(polled) + if status == ETIMEDOUT then 0 else 1
      ensures status == if elapsed >= timeout then ETIMEDOUT
                        else if pollError.Some? then Os(pollError.value) else Ok
    {
      var passed := Elapsed();
      if timeout - passed <= 0 { return ETIMEDOUT; }
      var error := Poll();
      if error.Some? { return Os(error.value); }
      return Ok;
    }
  }

  class Node {
    const bytes: seq<Byte>
    var offset: nat
    var next: Node?

    constructor (bytes: seq<Byte>)
      ensures this.bytes == bytes && offset == 0 && next == null
    {
      this.bytes, offset, next := bytes, 0, null;
    }
  }

  lemma UnsentShrinks(queue: seq<Outgoing>, n: nat)
    requires queue != [] && 0 < n <= |queue[0].bytes| - queue[0].offset
    ensures |Unsent(AfterSend(queue, n))| + n == |Unsent(queue)|
  {
    UnsentAfterSend(queue, n);
  }

  lemma UnsentGrows(queue: seq<Outgoing>, frame: seq<Byte>)
    ensures |Unsent(queue + [Outgoing(frame, 0)])| == |Unsent(queue)| + |frame|
  {
    UnsentAppend(queue, Outgoing(frame, 0));
  }

  lemma PartlySent(queue: seq<Outgoing>, n: nat)
    requires queue != [] && queue[0].offset + n < |queue[0].bytes|
    ensures var after := AfterSend(queue, n);
            && |after| == |queue| && after[0] == Outgoing(queue[0].bytes, queue[0].offset + n)
            && forall i :: 0 < i < |queue| ==> after[i] == queue[i]
  {
  }

  /** The output fields of the channel: a null-terminated list of frames from `first` to `last` and
      the running count of the bytes in it that have not been sent. */
  class OutputQueue {
    var first: Node?
    var last: Node?
    var bytes: nat

    ghost var nodes: seq<Node>
    ghost var Repr: set<Node>
    ghost var contents: seq<Outgoing>

    ghost predicate Linked()
      reads this`first, this`last, this`nodes, this`Repr, Repr
    {
      && (forall i :: 0 <= i < |nodes| ==> nodes[i] in Repr)
      && (nodes == [] ==> first == null && last == null)
      && (nodes != [] ==> first == nodes[0] && last == nodes[|nodes| - 1] && last.next == null)
      && (forall i :: 0 <= i < |nodes| - 1 ==> nodes[i].next == nodes[i + 1])
      && (forall i, j :: 0 <= i < j < |nodes| ==> nodes[i] != nodes[j])
    }

    /** `contents` are the frames of the list. */
    ghost predicate Mirrored()
      reads this`first, this`last, this`nodes, this`Repr, this`contents, Repr
    {
      && Linked()
      && |contents| == |nodes|
      && (forall i :: 0 <= i < |nodes| ==> contents[i] == Outgoing(nodes[i].bytes, nodes[i].offset))
    }

    ghost predicate Intact()
      reads this, Repr
    {
      Mirrored() && bytes == |Unsent(contents)|
    }

    /** The list is intact.  The bound variable keeps that folded for those who only pass it on. */
    ghost predicate Valid()
      reads this, Repr
    {
      && (first == null <==> contents == [])
      && (first != null ==> first in Repr) && (last != null ==> last in Repr)
      && forall q :: q == this ==> q.Intact()
    }

    constructor ()
      ensures Valid() && contents == [] && Repr == {}
    {
      first, last, bytes, nodes, contents, Repr := null, null, 0, [], [], {};
    }

    lemma EndsInRepr()
      requires Mirrored()
      ensures first == null <==> contents == []
      ensures (first != null ==> first in Repr) && (last != null ==> last in Repr)
    {
    }

    method Link(node: Node)
      requires Mirrored() && node !in Repr && node.next == null
      modifies this`first, this`last, this`nodes, this`Repr, this`contents, last
      ensures Mirrored() && nodes == old(nodes) + [node] && Repr == old(Repr) + {node}
      ensures contents == old(contents) + [Outgoing(node.bytes, node.offset)]
    {
      if last == null { first := node; } else { last.next := node; }
      last := node;
      nodes, Repr := nodes + [node], Repr + {node};
      contents := contents + [Outgoing(node.bytes, node.offset)];
    }

    method Append(frame: seq<Byte>)
      requires Valid()
      modifies this, last
      ensures Valid() && contents == old(contents) + [Outgoing(frame, 0)]
      ensures fresh(Repr - old(Repr))
    {
      assert Intact();
      UnsentGrows(contents, frame);
      var node := new Node(frame);
      Link(node);
      bytes := bytes + |frame|;
      EndsInRepr();
    }

    /** The frame whose bytes go out next. */
    method Head() returns (bytes: seq<Byte>, offset: nat)
      requires Valid() && first != null
      ensures contents != [] && contents[0] == Outgoing(bytes, offset)
    {
      assert Intact() && first == nodes[0];
      return first.bytes, first.offset;
    }

    /** How many bytes wait to be sent. */
    method Pending() returns (n: nat)
      requires Valid()
      ensures n == |Unsent(contents)|
    {
      assert Intact();
      return bytes;
    }

    /** The list without its first node, whatever has been written of that one. */
    method Pop()
      requires Linked() && nodes != [] && |contents| == |nodes|
      requires forall i :: 0 < i < |nodes| ==> contents[i] == Outgoing(nodes[i].bytes, nodes[i].offset)
      modifies this`first, this`last, this`nodes, this`contents
      ensures Mirrored() && contents == old(contents)[1..]
    {
      assert |nodes| > 1 ==> nodes[0].next == nodes[0 + 1];
      first := first.next;
      if first == null { last := null; }
      nodes := nodes[1..];
      contents := contents[1..];
      assert forall i :: 0 <= i < |nodes| ==> nodes[i] == old(nodes)[i + 1];
    }

    method Finish(n: nat)
      requires Mirrored() && contents != []
      modifies this`first, this`last, this`nodes, this`contents, first`offset
      ensures Mirrored() && contents == old(contents)[1..]
    {
      first.offset := first.offset + n;
      Pop();
    }

    method Shorten(n: nat)
      requires Mirrored() && contents != [] && contents[0].offset + n < |contents[0].bytes|
      modifies this`contents, first`offset
      ensures Mirrored() && contents == AfterSend(old(contents), n)
    {
      PartlySent(contents, n);
      first.offset := first.offset + n;
      contents := AfterSend(contents, n);
    }

    /** The bookkeeping after `send` has taken `n` bytes of the first frame. */
    method Advance(n: nat)
      requires Valid() && contents != [] && 0 < n <= |contents[0].bytes| - contents[0].offset
      modifies this, first
      ensures Valid() && contents == AfterSend(old(contents), n)
      ensures Repr == old(Repr)
    {
      assert Intact();
      UnsentShrinks(contents, n);
      bytes := bytes - n;
      if first.offset + n < |first.bytes| { Shorten(n); } else { Finish(n); }
      EndsInRepr();
    }

    method Discard()
      requires Valid()
      modifies this
      ensures Valid() && contents == [] && Repr == old(Repr)
    {
      assert Intact();
      while first != null
        invariant first == if nodes == [] then null else nodes[0]
        invariant forall i :: 0 <= i < |nodes| - 1 ==> nodes[i].next == nodes[i + 1]
        invariant nodes != [] ==> nodes[|nodes| - 1].next == null
        invariant Repr == old(Repr) && forall i :: 0 <= i < |nodes| ==> nodes[i] in Repr
        decreases |nodes|
      {
        ghost var before := nodes;
        assert |before| > 1 ==> before[0].next == before[0 + 1];
        first := first.next;
        nodes := nodes[1..];
        assert forall i :: 0 <= i < |nodes| ==> nodes[i] == before[i + 1];
      }
      last := null;
      bytes := 0;
      contents := [];
    }
  }

  /** The loop that writes the length prefix of a frame, byte by byte. */
  method EncodePrefix(payload: nat) returns (r: seq<Byte>)
    requires payload < 0x1_0000_0000
    ensures r == Prefix(payload)
  {
    r := [];
    var rest := payload;
    for index := 0 to 4
      invariant |r| == index
      invariant r + LittleEndian(rest, 4 - index) == Prefix(payload)
    {
      assert LittleEndian(rest, 4 - index) == [rest % 256] + LittleEndian(rest / 256, 3 - index);
      r := r + [rest % 256];
      rest := rest / 256;
    }
  }

  /** The loop that reads it back. */
  method DecodePrefix(header: seq<Byte>) returns (length: nat)
    requires |header| == 4
    ensures length == FromLittleEndian(header)
  {
    length := 0;
    var weight: nat := 1;
    for index := 0 to 4
      invariant weight == Power256(index)
      invariant length == FromLittleEndian(header[..index])
    {
      FromLittleEndianAppend(header[..index], header[index]);
      assert header[..index + 1] == header[..index] + [header[index]];
      length := length + header[index] * weight;
      weight := weight * 256;
    }
    assert header[..4] == header;
  }

  lemma ReachesNext(run: seq<Event>, c: Channel, e: Event)
    requires Reaches(run, c) && Enabled(c, e)
    ensures Reaches(run + [e], Apply(c, e))
  {
    ReachesIsReplay(run, c);
    ReplaySplit(run, e);
  }

  lemma FramesHaveBytes(run: seq<Event>, c: Channel)
    requires Reaches(run, c)
    ensures c.incoming.Some? ==> c.incoming.value.length > 0
  {
    ReachesIsReplay(run, c);
    EveryRunKeepsInv(run, c);
  }

  lemma FlushedShowsSent(run: seq<Event>, c: Channel)
    requires Reaches(run, c) && c.writeFailure == Ok && c.queue == []
    ensures c.wireOut == Stream(c.accepted) <==> !ClosedWithQueue(run)
    ensures c.open ==> !ClosedWithQueue(run)
  {
    ReachesIsReplay(run, c);
    FlushedMeansSent(run, c);
  }

  lemma WantsMoreUnlessComplete(run: seq<Event>, c: Channel)
    requires Reaches(run, c) && c.failure.Ok?
    ensures Wanted(c) >= 0
    ensures Wanted(c) == 0 <==> Complete(c)
  {
    ReachesIsReplay(run, c);
    EveryRunKeepsInv(run, c);
  }

  /** `after` continues `before` with write steps only. */
  ghost predicate OnlyWrites(before: seq<Event>, after: seq<Event>) {
    before <= after && forall i :: |before| <= i < |after| ==> after[i].Sent? || after[i].WriteFail?
  }

  ghost predicate OnlyReads(before: seq<Event>, after: seq<Event>) {
    before <= after &&
    forall i :: |before| <= i < |after| ==> after[i].Received? || after[i].Ended? || after[i].ReadFail?
  }

  lemma OneRead(run: seq<Event>, e: Event)
    requires e.Received? || e.Ended? || e.ReadFail?
    ensures OnlyReads(run, run + [e])
  {
  }

  lemma OneWrite(run: seq<Event>, e: Event)
    requires e.Sent? || e.WriteFail?
    ensures OnlyWrites(run, run + [e])
  {
  }

  /** Steps that neither accept, consume nor discard a message. */
  ghost predicate OnlyTransport(before: seq<Event>, after: seq<Event>) {
    before <= after &&
    forall i :: |before| <= i < |after| ==> !after[i].Accept? && !after[i].Consume? && !after[i].Close?
  }

  lemma QueuedFramesHaveBytes(run: seq<Event>, c: Channel)
    requires Reaches(run, c)
    ensures forall i :: 0 <= i < |c.queue| ==> c.queue[i].offset < |c.queue[i].bytes|
  {
    ReachesIsReplay(run, c);
    EveryRunKeepsInv(run, c);
  }

  /** Why a round of reads may stop on a sound channel: end of file, an undelivered message, its
      eight turns, or a descriptor that was asked and is not ready. */
  predicate ReadRound(c: Channel, calls: int, blocked: bool) {
    c.eof || Complete(c) || calls == 8 || (calls > 0 && blocked)
  }

  /** Why a round of writes may stop: nothing is queued (a failure discards the queue too), its
      256 KiB are used up, or a descriptor that was asked and is not ready. */
  predicate WriteRound(c: Channel, written: int, calls: int, blocked: bool) {
    c.queue == [] || written == 256 * 1024 || (calls > 0 && blocked)
  }

  /** What an answer of `recv` means as a step. */
  function Heard(last: ReceiveAnswer, granted: bool): seq<Event> {
    match last
    case Got(bytes) => [if bytes == [] then Ended else Received(bytes, granted)]
    case ReadFailed(code) => [ReadFail(Os(code))]
    case ReadInterrupted => []
    case ReadWouldBlock => []
  }

  /** The last answer of `recv` has had its effect: end of file is noted, with EPROTO exactly inside a
      frame or a length prefix, and an error is kept. */
  predicate Heeded(calls: int, last: ReceiveAnswer, c: Channel) {
    calls > 0 ==>
      && (last == Got([]) ==>
            c.eof && c.failure == if c.header != [] || c.incoming.Some? then EPROTO else Ok)
      && (last.ReadFailed? ==> c.failure == Os(last.code))
  }

  lemma EndLeavesNothing(run: seq<Event>, c: Channel)
    requires Reaches(run, c)
    ensures c.eof && c.failure == Ok ==> c.incoming.None?
  {
    ReachesIsReplay(run, c);
    EveryRunKeepsInv(run, c);
  }

  /** What a read round may make of a sound channel: a failure of `recv` is kept, end of file is an empty
      answer, ENOMEM a denied allocation, and EMSGSIZE comes with bytes. */
  predicate ReadFault(failure: Status, ended: bool, last: ReceiveAnswer, denied: bool) {
    && (ended ==> last == Got([]))
    && match failure
       case Ok => true
       case Os(code) => last == ReadFailed(code)
       case EPROTO => last == Got([])
       case EMSGSIZE => last.Got? && last.bytes != []
       case ENOMEM => denied
       case _ => false
  }

  /** The failure an answer of `send` means, if any. */
  function SendFault(last: SendAnswer): Status {
    match last
    case SendFailed(code) => Os(code)
    case Wrote(count) => if count == 0 then EPIPE else Ok
    case _ => Ok
  }

  /** A write side is lost only to a failed `send`, or to the peer's end of file. */
  predicate WriteFault(before: Status, after: Status, eof: bool, last: SendAnswer) {
    after == before || (eof && after == EPIPE) || (after != Ok && after == SendFault(last))
  }

  /** A wait gives up only when the clock, read during it, shows that the time is up, and hands through
      a failure of the channel or of a poll made during it. */
  predicate Waited(
    status: Status, failure: Status, writeFailure: Status, timeout: int,
    measured: int, elapsed: int, polled: int, pollError: Option<int>)
  {
    && (status == ETIMEDOUT ==> measured > 0 && elapsed >= timeout)
    && (status.Os? && status != failure && status != writeFailure ==> polled > 0 && pollError == Some(status.code))
  }

  lemma SliceStart(s: seq<Byte>, offset: nat, size: nat, n: nat)
    requires n <= size && offset + size <= |s|
    ensures s[offset..offset + size][..n] == s[offset..offset + n]
  {
  }

  /** Why `Send` refuses a message before touching the queue. */
  function Refusal(c: Channel, m: Message): Status {
    if !c.open || c.eof then EPIPE
    else if c.failure != Ok then c.failure
    else if c.writeFailure != Ok then c.writeFailure
    else if !Sendable(m) then EMSGSIZE
    else if |Frame(m)| > QUEUE_LIMIT - |Unsent(c.queue)| then ENOBUFS
    else Ok
  }

  lemma RefusesUnlessEnabled(c: Channel, m: Message)
    ensures Refusal(c, m) == Ok <==> Enabled(c, Accept(m))
  {
  }

  lemma TransportChains(a: seq<Event>, b: seq<Event>, c: seq<Event>)
    requires OnlyTransport(a, b) && OnlyTransport(b, c)
    ensures OnlyTransport(a, c)
  {
  }

  lemma ReadsAreTransport(before: seq<Event>, after: seq<Event>)
    requires OnlyReads(before, after)
    ensures OnlyTransport(before, after)
  {
  }

  lemma LostWriteSide(run: seq<Event>, c: Channel)
    requires Reaches(run, c) && c.writeFailure != Ok
    ensures c.queue == []
  {
    ReachesIsReplay(run, c);
    EveryRunKeepsInv(run, c);
  }

  /** A channel fails only with these codes, or with one handed through from the kernel. */
  lemma FailuresAreKnown(run: seq<Event>, c: Channel)
    requires Reaches(run, c)
    ensures c.failure in {Ok, EMSGSIZE, ENOMEM, EPROTO} || c.failure.Os?
    ensures c.writeFailure in {Ok, EPIPE} || c.writeFailure.Os?
  {
    ReachesIsReplay(run, c);
    EveryRunKeepsInv(run, c);
  }

  lemma ClosedHasNoQueue(run: seq<Event>, c: Channel)
    requires Reaches(run, c) && !c.open
    ensures c.queue == []
  {
    ReachesIsReplay(run, c);
    EveryRunKeepsInv(run, c);
  }

  class WorkerChannel {
    const socket: Socket
    var descriptor: int
    var failure: Status
    var writeFailure: Status
    var eof: bool
    const output: OutputQueue
    var incoming: Option<Incoming>
    var header: seq<Byte>

    ghost var run: seq<Event>
    ghost var model: Channel

    ghost predicate Shows()
      reads this, output
    {
      && model.open == (descriptor >= 0)
      && model.failure == failure && model.writeFailure == writeFailure && model.eof == eof
      && model.queue == output.contents
      && model.header == header && model.incoming == incoming
    }

    ghost predicate Sound()
      reads this, output, output.Repr
    {
      && Reaches(run, model)
      && output.Valid()
      && Shows()
    }

    /** The fields show the state that the run made so far replays to, and the bytes of that run are
        those that went through the socket. */
    ghost predicate Valid()
      reads this, output, output.Repr, socket
    {
      Sound() && socket.sent == model.wireOut && socket.received == model.wireIn
    }

    constructor (socket: Socket, descriptor: nat)
      requires socket.sent == [] && socket.received == []
      ensures Valid() && run == [] && fresh(output) && output.Repr == {} && this.socket == socket
    {
      this.socket := socket;
      this.descriptor, failure, writeFailure, eof := descriptor, Ok, Ok, false;
      output := new OutputQueue();
      incoming, header := None, [];
      run, model := [], Initial;
    }

    ghost method Record(e: Event)
      requires Reaches(run, model) && Enabled(model, e)
      modifies this`run, this`model
      ensures run == old(run) + [e] && model == Apply(old(model), e)
      ensures Reaches(run, model)
      ensures e.Received? ==> model.wireIn == old(model).wireIn + e.bytes
      ensures !e.Received? ==> model.wireIn == old(model).wireIn
      ensures !e.Sent? ==> model.wireOut == old(model).wireOut
    {
      WireStep(model, e);
      ReachesNext(run, model, e);
      run := run + [e];
      model := Apply(model, e);
    }

    method FailWrite(status: Status)
      requires Sound() && (status == EPIPE || status.Os?) && descriptor >= 0 && output.contents != []
      modifies this`writeFailure, this`run, this`model, output
      ensures Sound() && output.Repr == old(output.Repr)
      ensures run == old(run) + [WriteFail(status)] && model == Apply(old(model), WriteFail(status))
    {
      Record(WriteFail(status));
      writeFailure := status;
      output.Discard();
    }

    method TakeWritten(n: nat)
      requires Sound() && Enabled(model, Sent(n))
      modifies this`run, this`model, output, output.first
      ensures Sound() && output.Repr == old(output.Repr)
      ensures run == old(run) + [Sent(n)] && model == Apply(old(model), Sent(n)) && writeFailure == old(writeFailure)
    {
      Record(Sent(n));
      output.Advance(n);
    }

    /** Call `send` with the next bytes of the first frame. */
    method Offer(budget: nat) returns (answer: SendAnswer)
      requires Sound() && output.first != null
      modifies socket`sends, socket`sent, socket`sendCalls, socket`lastSend
      ensures output.contents != []
      ensures answer.Wrote? ==>
                && answer.count <= budget
                && output.contents[0].offset + answer.count <= |output.contents[0].bytes|
                && socket.sent == old(socket.sent) + Chunk(output.contents, answer.count)
      ensures !answer.Wrote? ==> socket.sent == old(socket.sent)
      ensures socket.sendCalls == old(socket.sendCalls) + 1 && socket.lastSend == answer
      ensures |socket.sends| <= |old(socket.sends)|
      ensures answer.SendInterrupted? ==> |socket.sends| < |old(socket.sends)|
    {
      QueuedFramesHaveBytes(run, model);
      var bytes, offset := output.Head();
      var size := |bytes| - offset;
      if size > budget { size := budget; }
      answer := socket.Send(bytes[offset..offset + size]);
      if answer.Wrote? { SliceStart(bytes, offset, size, answer.count); }
    }

    /** The socket has taken that much of the first frame; nothing at all counts as a failure. */
    method TakeAccepted(count: nat) returns (more: bool)
      requires Sound() && Writable(model) && output.contents != []
      requires output.contents[0].offset + count <= |output.contents[0].bytes|
      modifies this`writeFailure, this`run, this`model, output, output.first
      ensures Sound() && output.Repr == old(output.Repr) && OnlyWrites(old(run), run)
      ensures model.wireOut == old(model).wireOut + Chunk(old(output.contents), count)
      ensures model.wireIn == old(model).wireIn
      ensures more <==> count > 0
      ensures more ==> run == old(run) + [Sent(count)]
      ensures writeFailure == if count == 0 then EPIPE else Ok
      ensures if more then Writable(model) else output.contents == []
    {
      if count == 0 {
        OneWrite(run, WriteFail(EPIPE));
        FailWrite(EPIPE);
        return false;
      }
      OneWrite(run, Sent(count));
      TakeWritten(count);
      return true;
    }

    /** One call of `send` for at most `budget` bytes; `more` asks for another turn. */
    method WriteOnce(budget: nat) returns (written: nat, more: bool)
      requires Valid() && Writable(model) && output.first != null && budget > 0
      modifies this`writeFailure, this`run, this`model, output, output.Repr,
               socket`sends, socket`sent, socket`sendCalls, socket`lastSend
      ensures Valid() && (more ==> Writable(model))
      ensures output.Repr == old(output.Repr)
      ensures OnlyWrites(old(run), run)
      ensures written <= budget && |model.wireOut| == |old(model).wireOut| + written
      ensures more ==> written > 0 || |socket.sends| < |old(socket.sends)|
      ensures socket.sendCalls == old(socket.sendCalls) + 1
      ensures !more ==> output.contents == [] || socket.lastSend.SendWouldBlock?
      ensures writeFailure == SendFault(socket.lastSend)
      ensures socket.lastSend.SendFailed? ==> writeFailure == Os(socket.lastSend.code)
      ensures socket.lastSend == Wrote(0) ==> writeFailure == EPIPE
      ensures socket.lastSend.SendInterrupted? || socket.lastSend.SendWouldBlock? ==> run == old(run)
      ensures socket.lastSend.Wrote? && socket.lastSend.count > 0 ==>
                written == socket.lastSend.count && run == old(run) + [Sent(written)] && writeFailure == Ok
    {
      var answer := Offer(budget);
      written, more := 0, false;
      match answer
      case SendInterrupted =>
        more := true;
      case SendWouldBlock =>
      case SendFailed(code) =>
        OneWrite(run, WriteFail(Os(code)));
        FailWrite(Os(code));
      case Wrote(count) =>
        more := TakeAccepted(count);
        written := count;
    }

    method WritePending()
      requires Valid() && Writable(model)
      modifies this`writeFailure, this`run, this`model, output, output.Repr,
               socket`sends, socket`sent, socket`sendCalls, socket`lastSend
      ensures Valid()
      ensures output.Repr == old(output.Repr)
      ensures OnlyWrites(old(run), run)
      ensures |model.wireOut| <= |old(model).wireOut| + 256 * 1024
      ensures socket.sendCalls >= old(socket.sendCalls)
      ensures writeFailure == if socket.sendCalls > old(socket.sendCalls) then SendFault(socket.lastSend) else Ok
      ensures WriteRound(model, |model.wireOut| - |old(model).wireOut|,
                         socket.sendCalls - old(socket.sendCalls), socket.lastSend.SendWouldBlock?)
    {
      var budget: nat := 256 * 1024;
      var more := true;
      while output.first != null && budget != 0 && more
        invariant Valid() && (more ==> Writable(model))
        invariant output.Repr == old(output.Repr)
        invariant OnlyWrites(old(run), run)
        invariant |model.wireOut| + budget == |old(model).wireOut| + 256 * 1024
        invariant socket.sendCalls >= old(socket.sendCalls)
        invariant writeFailure == if socket.sendCalls > old(socket.sendCalls) then SendFault(socket.lastSend) else Ok
        invariant !more ==>
            output.contents == [] || (socket.sendCalls > old(socket.sendCalls) && socket.lastSend.SendWouldBlock?)
        decreases more, budget, |socket.sends|
      {
        var written;
        written, more := WriteOnce(budget);
        budget := budget - written;
      }
    }

    /** `recv` has delivered bytes into the frame being filled. */
    method TakeBody(bytes: seq<Byte>)
      requires Sound() && Readable(model) && 0 < |bytes| <= Wanted(model) && incoming.Some?
      modifies this`incoming, this`run, this`model
      ensures Sound() && model.open && !model.eof
      ensures run == old(run) + [Received(bytes, Granted(socket.allocations))]
      ensures model.wireIn == old(model).wireIn + bytes && model.wireOut == old(model).wireOut
    {
      Record(Received(bytes, Granted(socket.allocations)));
      incoming := Some(incoming.value.(bytes := incoming.value.bytes + bytes));
    }

    method OpenIncoming(bytes: seq<Byte>, length: nat)
      requires Sound() && Readable(model) && incoming.None? && 0 < |bytes| && |header| + |bytes| == 4
      requires length == FromLittleEndian(header + bytes) && 0 < length <= FRAME_LIMIT
      modifies this`incoming, this`header, this`run, this`model
      ensures Sound() && failure == Ok && model.open && !model.eof
      ensures run == old(run) + [Received(bytes, true)]
      ensures model.wireIn == old(model).wireIn + bytes && model.wireOut == old(model).wireOut
    {
      Record(Received(bytes, true));
      incoming, header := Some(Incoming(length, [])), [];
    }

    method RefuseFrame(bytes: seq<Byte>, granted: bool, status: Status)
      requires Sound() && Readable(model) && incoming.None? && 0 < |bytes| && |header| + |bytes| == 4
      requires var length := FromLittleEndian(header + bytes);
               if length == 0 || length > FRAME_LIMIT then status == EMSGSIZE else !granted && status == ENOMEM
      modifies this`failure, this`header, this`run, this`model
      ensures Sound() && failure == status && model.open && !model.eof
      ensures run == old(run) + [Received(bytes, granted)]
      ensures model.wireIn == old(model).wireIn + bytes && model.wireOut == old(model).wireOut
    {
      Record(Received(bytes, granted));
      header := header + bytes;
      failure := status;
    }

    /** The bytes complete the length prefix. */
    method CompleteHeader(bytes: seq<Byte>) returns (status: Status)
      requires Sound() && Readable(model) && incoming.None? && 0 < |bytes| && |header| + |bytes| == 4
      modifies this`failure, this`incoming, this`header, this`run, this`model, socket`allocations, socket`denials
      ensures Sound() && status == failure && model.open && !model.eof
      ensures run == old(run) + [Received(bytes, Granted(old(socket.allocations)))]
      ensures status in {Ok, EMSGSIZE, ENOMEM}
      ensures socket.denials == old(socket.denials) + if status == ENOMEM then 1 else 0
      ensures model.wireIn == old(model).wireIn + bytes && model.wireOut == old(model).wireOut
    {
      var length := DecodePrefix(header + bytes);
      if length == 0 || length > FRAME_LIMIT {
        RefuseFrame(bytes, Granted(socket.allocations), EMSGSIZE);
        return EMSGSIZE;
      }
      var granted := socket.Allocate();
      if !granted {
        RefuseFrame(bytes, false, ENOMEM);
        return ENOMEM;
      }
      OpenIncoming(bytes, length);
      return Ok;
    }

    /** `recv` has delivered bytes into the length prefix. */
    method TakeHeader(bytes: seq<Byte>) returns (status: Status)
      requires Sound() && Readable(model) && 0 < |bytes| <= Wanted(model) && incoming.None?
      modifies this`failure, this`incoming, this`header, this`run, this`model, socket`allocations, socket`denials
      ensures Sound() && status == failure && model.open && !model.eof
      ensures run == old(run) + [Received(bytes, Granted(old(socket.allocations)))]
      ensures status in {Ok, EMSGSIZE, ENOMEM}
      ensures socket.denials == old(socket.denials) + if status == ENOMEM then 1 else 0
      ensures model.wireIn == old(model).wireIn + bytes && model.wireOut == old(model).wireOut
    {
      if |header| + |bytes| == 4 {
        status := CompleteHeader(bytes);
      } else {
        Record(Received(bytes, Granted(socket.allocations)));
        header := header + bytes;
        status := Ok;
      }
    }

    /** `recv` returned zero. */
    method TakeEnd()
      requires Sound() && Readable(model)
      modifies this`failure, this`eof, this`run, this`model
      ensures Sound() && model.open && model.eof
      ensures failure == if header != [] || incoming.Some? then EPROTO else Ok
      ensures run == old(run) + [Ended]
      ensures model.wireIn == old(model).wireIn && model.wireOut == old(model).wireOut
    {
      Record(Ended);
      eof := true;
      if header != [] || incoming.Some? { failure := EPROTO; }
    }

    /** `recv` failed. */
    method TakeError(status: Status)
      requires Sound() && Readable(model) && status.Os?
      modifies this`failure, this`run, this`model
      ensures Sound() && model.open && failure == status
      ensures run == old(run) + [ReadFail(status)]
      ensures model.wireIn == old(model).wireIn && model.wireOut == old(model).wireOut
    {
      Record(ReadFail(status));
      failure := status;
    }

    method TakeAnswer(bytes: seq<Byte>) returns (more: bool)
      requires Sound() && Readable(model) && |bytes| <= Wanted(model)
      modifies this`failure, this`eof, this`incoming, this`header, this`run, this`model,
               socket`allocations, socket`denials
      ensures Sound() && model.open && OnlyReads(old(run), run)
      ensures run == old(run) + [if bytes == [] then Ended else Received(bytes, Granted(old(socket.allocations)))]
      ensures eof <==> bytes == []
      ensures eof ==> header == old(header) && incoming == old(incoming)
      ensures eof ==> failure == if header != [] || incoming.Some? then EPROTO else Ok
      ensures more <==> failure == Ok && !eof
      ensures ReadFault(failure, eof, Got(bytes), socket.denials > old(socket.denials))
      ensures socket.denials >= old(socket.denials)
      ensures model.wireIn == old(model).wireIn + bytes && model.wireOut == old(model).wireOut
    {
      if bytes == [] {
        OneRead(run, Ended);
        assert model.wireIn + [] == model.wireIn;
        TakeEnd();
        return false;
      }
      OneRead(run, Received(bytes, Granted(socket.allocations)));
      if incoming.Some? {
        TakeBody(bytes);
        return true;
      }
      var status := TakeHeader(bytes);
      return status == Ok;
    }

    /** One call of `recv`; `more` asks for another turn. */
    method ReadOnce() returns (more: bool)
      requires Valid() && Readable(model)
      modifies this`failure, this`eof, this`incoming, this`header, this`run, this`model,
               socket`receives, socket`received, socket`receiveCalls, socket`lastReceive,
               socket`allocations, socket`denials
      ensures Valid() && model.open && OnlyReads(old(run), run)
      ensures more ==> failure == Ok && !eof
      ensures !more ==> failure != Ok || eof || socket.lastReceive.ReadWouldBlock?
      ensures run == old(run) + Heard(socket.lastReceive, Granted(old(socket.allocations)))
      ensures Heeded(1, socket.lastReceive, model)
      ensures socket.lastReceive.Got? ==> |socket.lastReceive.bytes| <= 64 * 1024
      ensures ReadFault(failure, eof, socket.lastReceive, socket.denials > old(socket.denials))
      ensures socket.denials >= old(socket.denials)
      ensures socket.receiveCalls == old(socket.receiveCalls) + 1
    {
      var size := if incoming.None? then 4 - |header| else incoming.value.length - |incoming.value.bytes|;
      if size > 64 * 1024 { size := 64 * 1024; }
      var answer := socket.Receive(size);
      more := false;
      assert run + [] == run;
      match answer
      case ReadInterrupted =>
        more := true;
      case ReadWouldBlock =>
      case ReadFailed(code) =>
        OneRead(run, ReadFail(Os(code)));
        TakeError(Os(code));
      case Got(bytes) =>
        more := TakeAnswer(bytes);
    }

    /** Up to eight reads, none of them past an undelivered message. */
    method ReadPending() returns (status: Status)
      requires Valid() && model.open && failure == Ok
      modifies this`failure, this`eof, this`incoming, this`header, this`run, this`model,
               socket`receives, socket`received, socket`receiveCalls, socket`lastReceive,
               socket`allocations, socket`denials
      ensures Valid() && status == failure && model.open
      ensures OnlyReads(old(run), run)
      ensures Complete(old(model)) || old(eof) ==>
                run == old(run) && status == Ok && eof == old(eof) && socket.receiveCalls == old(socket.receiveCalls)
      ensures ReadFault(failure, eof && !old(eof), socket.lastReceive, socket.denials > old(socket.denials))
      ensures Heeded(socket.receiveCalls - old(socket.receiveCalls), socket.lastReceive, model)
      ensures socket.receiveCalls == old(socket.receiveCalls) ==> socket.lastReceive == old(socket.lastReceive)
      ensures socket.receiveCalls >= old(socket.receiveCalls)
      ensures status == Ok ==>
                ReadRound(model, socket.receiveCalls - old(socket.receiveCalls), socket.lastReceive.ReadWouldBlock?)
    {
      if eof { return Ok; }
      var turn := 0;
      var more := true;
      while turn < 8 && more
        invariant Valid() && model.open && (more ==> failure == Ok && !eof)
        invariant OnlyReads(old(run), run)
        invariant Complete(old(model)) ==> run == old(run) && model == old(model) && turn == 0 && eof == old(eof)
        invariant socket.receiveCalls == old(socket.receiveCalls) + turn && turn <= 8
        invariant !more ==> failure != Ok || eof || (turn > 0 && socket.lastReceive.ReadWouldBlock?)
        invariant ReadFault(failure, eof, socket.lastReceive, socket.denials > old(socket.denials))
        invariant Heeded(turn, socket.lastReceive, model)
        invariant turn == 0 ==> socket.lastReceive == old(socket.lastReceive)
        invariant socket.denials >= old(socket.denials)
      {
        WantsMoreUnlessComplete(run, model);
        if incoming.Some? && |incoming.value.bytes| == incoming.value.length { return Ok; }
        more := ReadOnce();
        turn := turn + 1;
      }
      return failure;
    }

    /** The second half of a round: what is queued cannot be sent after end of file, and is sent
        otherwise. */
    method WriteSide()
      requires Valid() && model.open && failure == Ok
      modifies this`writeFailure, this`run, this`model, output, output.Repr,
               socket`sends, socket`sent, socket`sendCalls, socket`lastSend
      ensures Valid() && output.Repr == old(output.Repr)
      ensures OnlyTransport(old(run), run)
      ensures eof ==> output.first == null
      ensures eof && old(output.first) != null ==> writeFailure == EPIPE
      ensures WriteFault(old(writeFailure), writeFailure, eof, socket.lastSend)
      ensures socket.sendCalls >= old(socket.sendCalls)
      ensures socket.sendCalls > old(socket.sendCalls) ==> writeFailure == SendFault(socket.lastSend)
      ensures WriteRound(model, |model.wireOut| - |old(model).wireOut|,
                         socket.sendCalls - old(socket.sendCalls), socket.lastSend.SendWouldBlock?)
    {
      if eof {
        if output.first != null {
          OneWrite(run, WriteFail(EPIPE));
          FailWrite(EPIPE);
        }
      } else if writeFailure == Ok {
        WritePending();
      } else {
        LostWriteSide(run, model);
      }
    }

    method BothRounds() returns (status: Status)
      requires Valid() && model.open && failure == Ok
      modifies this`failure, this`writeFailure, this`eof, this`incoming, this`header, this`run, this`model,
               output, output.Repr, socket`sends, socket`sent, socket`sendCalls, socket`lastSend,
               socket`receives, socket`received, socket`receiveCalls, socket`lastReceive,
               socket`allocations, socket`denials
      ensures Valid() && output.Repr == old(output.Repr)
      ensures OnlyTransport(old(run), run) && status == failure
      ensures old(eof) ==> eof && socket.receiveCalls == old(socket.receiveCalls)
      ensures ReadFault(failure, eof && !old(eof), socket.lastReceive, socket.denials > old(socket.denials))
      ensures WriteFault(old(writeFailure), writeFailure, eof, socket.lastSend)
      ensures socket.sendCalls >= old(socket.sendCalls)
      ensures socket.sendCalls > old(socket.sendCalls) ==> writeFailure == SendFault(socket.lastSend)
      ensures Heeded(socket.receiveCalls - old(socket.receiveCalls), socket.lastReceive, model)
      ensures socket.receiveCalls == old(socket.receiveCalls) ==> socket.lastReceive == old(socket.lastReceive)
      ensures socket.receiveCalls >= old(socket.receiveCalls)
      ensures status == Ok && eof ==> output.first == null
      ensures status == Ok ==>
                && ReadRound(model, socket.receiveCalls - old(socket.receiveCalls), socket.lastReceive.ReadWouldBlock?)
                && WriteRound(model, |model.wireOut| - |old(model).wireOut|,
                              socket.sendCalls - old(socket.sendCalls), socket.lastSend.SendWouldBlock?)
    {
      status := ReadPending();
      ReadsAreTransport(old(run), run);
      if status != Ok { return; }
      ghost var read := run;
      WriteSide();
      TransportChains(old(run), read, run);
    }

    /** One round of reads and one of writes.  Each goes as far as it may. */
    method Progress() returns (status: Status)
      requires Valid()
      modifies this, output, output.Repr, socket
      ensures Valid() && descriptor == old(descriptor)
      ensures output.Repr == old(output.Repr) && socket.clock == old(socket.clock)
      ensures socket.measured == old(socket.measured) && socket.polled == old(socket.polled)
      ensures OnlyTransport(old(run), run)
      ensures status == if descriptor < 0 then EBADF else failure
      ensures old(descriptor < 0 || failure != Ok) ==> run == old(run)
      ensures old(descriptor < 0 || failure != Ok || eof) ==> socket.receiveCalls == old(socket.receiveCalls)
      ensures old(eof) ==> eof
      ensures old(failure) == Ok ==>
                ReadFault(failure, eof && !old(eof), socket.lastReceive, socket.denials > old(socket.denials))
      ensures WriteFault(old(writeFailure), writeFailure, eof, socket.lastSend)
      ensures socket.sendCalls >= old(socket.sendCalls)
      ensures socket.sendCalls > old(socket.sendCalls) ==> writeFailure == SendFault(socket.lastSend)
      ensures Heeded(socket.receiveCalls - old(socket.receiveCalls), socket.lastReceive, model)
      ensures socket.receiveCalls == old(socket.receiveCalls) ==> socket.lastReceive == old(socket.lastReceive)
      ensures socket.receiveCalls >= old(socket.receiveCalls)
      ensures status == Ok && eof ==> output.first == null
      ensures status == Ok ==>
                && ReadRound(model, socket.receiveCalls - old(socket.receiveCalls), socket.lastReceive.ReadWouldBlock?)
                && WriteRound(model, |model.wireOut| - |old(model).wireOut|,
                              socket.sendCalls - old(socket.sendCalls), socket.lastSend.SendWouldBlock?)
    {
      if descriptor < 0 { return EBADF; }
      if failure != Ok { return failure; }
      status := BothRounds();
    }

    method Enqueue(kind: Byte, body: seq<Byte>)
      requires Valid() && Enabled(model, Accept(Message(kind, body)))
      modifies this`run, this`model, output, output.last
      ensures Valid() && run == old(run) + [Accept(Message(kind, body))]
      ensures fresh(output.Repr - old(output.Repr))
    {
      var prefix := EncodePrefix(|body| + 1);
      output.Append(prefix + [kind] + body);
      Record(Accept(Message(kind, body)));
    }

    /** The reasons to refuse a message, in the order of the code. */
    method Check(kind: Byte, body: seq<Byte>) returns (status: Status)
      requires Valid()
      ensures status == Refusal(model, Message(kind, body))
    {
      if descriptor < 0 || eof { return EPIPE; }
      if failure != Ok { return failure; }
      if writeFailure != Ok { return writeFailure; }
      if |body| >= FRAME_LIMIT { return EMSGSIZE; }
      var size := |body| + 5;
      var pending := output.Pending();
      if size > QUEUE_LIMIT - pending { return ENOBUFS; }
      return Ok;
    }

    /** Queue a message.  The refusals are those of the code, in its order; an accepted message is
        followed by one round of progress, whose failure the caller is told about. */
    method Send(kind: Byte, body: seq<Byte>) returns (status: Status)
      requires Valid()
      modifies this, output, output.Repr, socket
      ensures Valid() && descriptor == old(descriptor)
      ensures fresh(output.Repr - old(output.Repr))
      ensures old(descriptor < 0 || eof) ==> status == EPIPE && run == old(run)
      ensures old(descriptor >= 0 && !eof && failure != Ok) ==> status == old(failure) && run == old(run)
      ensures old(descriptor >= 0 && !eof && failure == Ok && writeFailure != Ok) ==>
                status == old(writeFailure) && run == old(run)
      ensures old(Writable(model)) && |body| > 16 * 1024 * 1024 ==> status == EMSGSIZE && run == old(run)
      ensures (&& old(Writable(model)) && |body| <= 16 * 1024 * 1024
               && |body| + 5 + |Unsent(old(output.contents))| > 64 * 1024 * 1024) ==>
                status == ENOBUFS && run == old(run)
      ensures old(Refusal(model, Message(kind, body))) != Ok ==>
                status == old(Refusal(model, Message(kind, body))) && run == old(run)
      ensures old(Refusal(model, Message(kind, body))) == Ok ==>
                if !Granted(old(socket.allocations)) then status == ENOMEM && run == old(run)
                else && OnlyTransport(old(run) + [Accept(Message(kind, body))], run)
                     && status == if failure != Ok then failure else writeFailure
      ensures old(Refusal(model, Message(kind, body))) == Ok && Granted(old(socket.allocations)) ==>
                && ReadFault(failure, eof, socket.lastReceive, socket.denials > old(socket.denials))
                && WriteFault(Ok, writeFailure, eof, socket.lastSend)
      ensures status == Ok ==>
                && ReadRound(model, socket.receiveCalls - old(socket.receiveCalls), socket.lastReceive.ReadWouldBlock?)
                && WriteRound(model, |model.wireOut| - |old(model).wireOut|,
                              socket.sendCalls - old(socket.sendCalls), socket.lastSend.SendWouldBlock?)
    {
      status := Check(kind, body);
      if status != Ok { return; }
      RefusesUnlessEnabled(model, Message(kind, body));
      var granted := socket.Allocate();
      if !granted { return ENOMEM; }
      Enqueue(kind, body);
      status := Progress();
      status := if status != Ok then status else writeFailure;
    }

    /** The message waiting to be consumed, if a whole frame has arrived. */
    method Peek() returns (m: Option<Message>)
      requires Valid()
      ensures m == if Complete(model) then Some(Current(model)) else None
    {
      if incoming.None? || |incoming.value.bytes| != incoming.value.length { return None; }
      FramesHaveBytes(run, model);
      return Some(Message(incoming.value.bytes[0], incoming.value.bytes[1..]));
    }

    /** Callers consume only a message that `Peek` has shown them. */
    method ConsumeMessage()
      requires Valid() && Complete(model)
      modifies this`incoming, this`run, this`model
      ensures Valid() && run == old(run) + [Consume]
    {
      Record(Consume);
      incoming := None;
    }

    method CloseChannel()
      requires Valid()
      modifies this`descriptor, this`incoming, this`run, this`model, output
      ensures Valid() && run == old(run) + [Close] && output.Repr == old(output.Repr)
    {
      Record(Close);
      descriptor := -1;
      output.Discard();
      incoming := None;
    }

    /** Drive the channel until its queue is empty.  Success on an open channel means that every
        byte of every accepted message has been handed to the socket. */
    method Flush(timeout: int) returns (status: Status)
      requires Valid() && timeout <= INT_MAX
      modifies this, output, output.Repr, socket
      ensures Valid() && OnlyTransport(old(run), run)
      ensures descriptor == old(descriptor)
      ensures status == Ok ==> (socket.sent == Stream(model.accepted) <==> !ClosedWithQueue(run))
      ensures status == Ok && descriptor >= 0 ==> socket.sent == Stream(model.accepted)
      ensures old(writeFailure) != Ok ==> status == old(writeFailure) && run == old(run)
      ensures status == EINVAL <==> old(writeFailure) == Ok && (timeout < 0 || !socket.clockWorks)
      ensures descriptor < 0 && old(writeFailure) == Ok && status != EINVAL ==> status == Ok && run == old(run)
      ensures status == ETIMEDOUT ==> output.contents != []
      ensures Waited(status, failure, writeFailure, timeout, socket.measured - old(socket.measured), socket.elapsed,
                     socket.polled - old(socket.polled), socket.pollError)
    {
      FailuresAreKnown(run, model);
      if writeFailure != Ok { return writeFailure; }
      if !socket.clockWorks || timeout < 0 { return EINVAL; }
      if descriptor < 0 { ClosedHasNoQueue(run, model); }
      while output.first != null
        invariant Valid() && OnlyTransport(old(run), run) && writeFailure == Ok && descriptor == old(descriptor)
        invariant output.Repr == old(output.Repr) && (descriptor < 0 ==> output.first == null && run == old(run))
        invariant socket.measured >= old(socket.measured) && socket.polled >= old(socket.polled)
        decreases |socket.clock|
      {
        ghost var before := run;
        status := Progress();
        FailuresAreKnown(run, model);
        TransportChains(old(run), before, run);
        if status != Ok { return; }
        if writeFailure != Ok { return writeFailure; }
        if output.first == null { break; }
        status := socket.Pause(timeout);
        if status != Ok { return; }
      }
      FlushedShowsSent(run, model);
      return Ok;
    }

    /** What a turn of waiting, or all of it, may end with. */
    ghost predicate Settled(status: Status)
      reads this
    {
      && (status == Ok ==> Complete(model))
      && (status == EPIPE ==> eof && !Complete(model))
      && (status == ETIMEDOUT ==> !eof && !Complete(model))
      && status != EINVAL
      && (descriptor >= 0 && eof ==> status == if failure != Ok then failure else EPIPE)
    }

    /** One round of progress; if nothing came of it, wait for the descriptor. */
    method WaitTurn(timeout: int) returns (done: bool, status: Status)
      requires Valid() && timeout <= INT_MAX
      modifies this, output, output.Repr, socket
      ensures Valid() && OnlyTransport(old(run), run) && descriptor == old(descriptor)
      ensures output.Repr == old(output.Repr)
      ensures socket.measured >= old(socket.measured) && socket.polled >= old(socket.polled)
      ensures socket.receiveCalls >= old(socket.receiveCalls)
      ensures socket.receiveCalls == old(socket.receiveCalls) ==> socket.lastReceive == old(socket.lastReceive)
      ensures done ==>
                && Settled(status)
                && Waited(status, failure, EPIPE, timeout, socket.measured - old(socket.measured), socket.elapsed,
                          socket.polled - old(socket.polled), socket.pollError)
      ensures !done ==> |socket.clock| < |old(socket.clock)| && failure == Ok && descriptor >= 0 && !eof
      ensures old(failure == Ok && descriptor >= 0 && !eof) && socket.lastReceive == Got([])
              && socket.receiveCalls > old(socket.receiveCalls) ==>
                done && eof && (status == EPIPE || status == EPROTO)
      ensures old(failure != Ok || descriptor < 0 || eof) ==>
                done && socket.receiveCalls == old(socket.receiveCalls)
    {
      EndLeavesNothing(run, model);
      status := Progress();
      FailuresAreKnown(run, model);
      EndLeavesNothing(run, model);
      if status != Ok { return true, status; }
      WantsMoreUnlessComplete(run, model);
      if incoming.Some? && |incoming.value.bytes| == incoming.value.length { return true, Ok; }
      if eof { return true, EPIPE; }
      status := socket.Pause(timeout);
      done := status != Ok;
    }

    /** Drive the channel until a message can be consumed. */
    method Wait(timeout: int) returns (status: Status)
      requires Valid() && timeout <= INT_MAX
      modifies this, output, output.Repr, socket
      ensures Valid() && OnlyTransport(old(run), run) && descriptor == old(descriptor)
      ensures status == EINVAL <==> timeout < 0 || !socket.clockWorks
      ensures status != EINVAL ==> Settled(status)
      ensures Waited(status, failure, EPIPE, timeout, socket.measured - old(socket.measured), socket.elapsed,
                     socket.polled - old(socket.polled), socket.pollError)
      ensures socket.receiveCalls > old(socket.receiveCalls) && socket.lastReceive == Got([]) ==>
                eof && (status == EPIPE || status == EPROTO)
    {
      if timeout < 0 || !socket.clockWorks { return EINVAL; }
      var done := false;
      status := Ok;
      while !done
        invariant Valid() && OnlyTransport(old(run), run) && descriptor == old(descriptor)
        invariant output.Repr == old(output.Repr) && socket.receiveCalls >= old(socket.receiveCalls)
        invariant socket.measured >= old(socket.measured) && socket.polled >= old(socket.polled)
        invariant done ==>
            && Settled(status)
            && Waited(status, failure, EPIPE, timeout, socket.measured - old(socket.measured), socket.elapsed,
                      socket.polled - old(socket.polled), socket.pollError)
        invariant socket.receiveCalls > old(socket.receiveCalls) ==>
            if done then socket.lastReceive == Got([]) ==> eof && (status == EPIPE || status == EPROTO)
            else failure == Ok && descriptor >= 0 && !eof && socket.lastReceive != Got([])
        decreases !done, |socket.clock|
      {
        ghost var before := run;
        done, status := WaitTurn(timeout);
        TransportChains(old(run), before, run);
      }
    }
  }

  /** Two channel objects, whatever calls were made on them: if one socket has handed out a prefix of
      what the other has taken, the messages shown on its side are a prefix of those accepted on the
      other, and none was refused for its length. */
  lemma ChannelsDeliverInOrder(sender: WorkerChannel, receiver: WorkerChannel)
    requires sender.Valid() && receiver.Valid()
    requires receiver.socket.received <= sender.socket.sent
    ensures Delivered(receiver.model) <= sender.model.accepted
    ensures receiver.failure != EMSGSIZE
  {
    ReachesIsReplay(sender.run, sender.model);
    ReachesIsReplay(receiver.run, receiver.model);
    PairedRunsDeliverInOrder(sender.run, receiver.run, sender.model, receiver.model);
  }

  /** Transport steps change neither the messages accepted nor those consumed, so a channel's
      progress, flush and wait are invisible to both applications. */
  lemma {:induction false} TransportKeepsMessages(before: seq<Event>, after: seq<Event>, c: Channel, d: Channel)
    requires Replay(before) == Some(c) && Replay(after) == Some(d) && OnlyTransport(before, after)
    ensures d.accepted == c.accepted && d.consumed == c.consumed
    decreases |after|
  {
    if |before| < |after| {
      var init := after[..|after| - 1];
      TransportKeepsMessages(before, init, c, Replay(init).value);
    } else {
      assert before == after;
    }
  }
}
