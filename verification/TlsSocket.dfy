/** The TLS socket: a queue of plaintext that is compacted in place, offered to the record layer at
    most 16 KiB at a time, and dropped only when its ciphertext has left the output buffer. */
module TlsSocket {
  import opened Common
  import opened TlsTransport
  import opened TlsBooks

  datatype Retry = NoRetry | RetryRead | RetryWrite

  datatype Progressed = Idle | Moved | Failed

  datatype ReadResult = Bytes(bytes: seq<Byte>) | EndOfFile | TryAgain | ReadFailure

  /** What a read that asked has handed out: the next plaintext, as much as there is room for. */
  ghost predicate Handed(result: ReadResult, capacity: nat, before: seq<Byte>, after: seq<Byte>, core: Core) {
    if result.Bytes? then
      && after == before + result.bytes && 0 < |result.bytes| <= capacity
      && (|result.bytes| == capacity || core.handed == |core.plaintext|)
    else after == before
  }

  /** What the application is told. */
  function Shown(outcome: Outcome, bytes: seq<Byte>): ReadResult {
    match outcome
    case Done(_) => Bytes(bytes)
    case ZeroReturn => EndOfFile
    case Fatal => ReadFailure
    case WantRead => TryAgain
    case WantWrite => TryAgain
  }

  /** Why the pump may stop reading: end of file, a full input buffer, its 64 KiB, or a socket that
      was asked and is not ready. */
  predicate ReadOut(before: Wire, after: Wire, input: seq<Byte>) {
    after.ended || |input| == INPUT_LIMIT || |after.received| - |before.received| >= 65536 ||
    (after.readCalls > before.readCalls && after.readBlocked)
  }

  /** Why it may stop writing: nothing is left, its 64 KiB, or a socket that is not ready. */
  predicate WrittenOut(before: Wire, after: Wire, output: seq<Byte>) {
    output == [] || |after.sent| - |before.sent| >= 65536 ||
    (after.writeCalls > before.writeCalls && after.writeBlocked)
  }

  /** Time has passed on the wire. */
  predicate Later(before: Wire, after: Wire) {
    && |before.received| <= |after.received| && |before.sent| <= |after.sent|
    && before.readCalls <= after.readCalls && before.writeCalls <= after.writeCalls
  }

  /** Since `start`, the pump has moved what it may in both directions, and nothing was added after. */
  predicate Pumped(start: Wire, wire: Wire, input: seq<Byte>, output: seq<Byte>) {
    Later(start, wire) && ReadOut(start, wire, input) && WrittenOut(start, wire, output)
  }

  lemma PumpedSince(start: Wire, middle: Wire, wire: Wire, input: seq<Byte>, output: seq<Byte>)
    requires Later(start, middle) && Pumped(middle, wire, input, output)
    ensures Pumped(start, wire, input, output)
  {
  }

  predicate SameReads(before: Wire, after: Wire) {
    && after.received == before.received && after.ended == before.ended
    && after.readCalls == before.readCalls && after.readBlocked == before.readBlocked
    && after.unretained == before.unretained
  }

  /** One call handed `count` bytes to the network. */
  predicate Gave(before: Wire, after: Wire, count: nat) {
    |after.sent| == |before.sent| + count && after.writeCalls == before.writeCalls + 1
  }

  lemma WriteGives(w: Wire, bytes: seq<Byte>)
    requires bytes != []
    ensures var (after, answer) := WireWrite(w, bytes);
            && w.sent <= after.sent && SameReads(w, after)
            && Gave(w, after, if answer.Took? then answer.count else 0)
  {
  }

  /** What the network endpoint says next: an error, that it is still connecting, or that it is ready. */
  function EndpointStatus(endpoint: seq<int>): int {
    if endpoint == [] then 0 else endpoint[0]
  }

  function Skipped(endpoint: seq<int>): seq<int> {
    if endpoint == [] then [] else endpoint[1..]
  }

  /** What makes a ready socket fail. */
  predicate Faulty(wire: Wire, core: Core, output: seq<Byte>) {
    wire.broken || core.fatal || |output| > OUTPUT_LIMIT
  }

  predicate SameWrites(before: Wire, after: Wire) {
    after.sent == before.sent && after.writeCalls == before.writeCalls && after.writeBlocked == before.writeBlocked
  }

  class TlsSocket {
    var wire: Wire
    var core: Core
    var inputBuffer: seq<Byte>
    var outputBuffer: seq<Byte>
    var endpoint: seq<int>
    var open: bool
    var connecting: bool
    var ready: bool
    var ending: bool
    var readEnded: bool
    var transportReadEnded: bool
    var writeEnded: bool
    var closeAfterFlush: bool
    var failed: bool
    var output: seq<Byte>
    var outputOffset: nat
    var writeLength: nat
    var writeAccepted: nat
    var writeRetry: Retry
    var bytesRead: nat
    var bytesWritten: nat
    var wireBytesRead: nat
    var wireBytesWritten: nat

    /** Everything `Write` ever accepted, how much of it has left the front of the queue, and how
        much had been transmitted when close_notify was produced. */
    ghost var written: seq<Byte>
    ghost var base: nat
    ghost var reachedAtClose: nat

    /** Everything `Read` ever handed out. */
    ghost var delivered: seq<Byte>

    /** How often the transport has been pumped. */
    ghost var pumps: nat

    /** Whether the transport buffers can be made, and the results of the handshake kept. */
    const initializes: bool
    const keeps: bool

    /** The record layer with its transport buffers. */
    function Layer(): Ssl
      reads this
    {
      Ssl(core, inputBuffer, outputBuffer)
    }

    /** The accounts the fields show. */
    ghost function Ledger(): Books
      reads this
    {
      Books(Layer(), wire, output, outputOffset, writeLength, writeAccepted, written, base, reachedAtClose, delivered,
            bytesRead, bytesWritten, wireBytesRead, wireBytesWritten)
    }

    ghost predicate Live()
      reads this
    {
      !failed && (open || connecting)
    }

    ghost predicate Steady()
      reads this
    {
      && Sound(Ledger(), Live())
      && wire.ended == transportReadEnded
      && (core.sentShutdown ==> ending) && (writeEnded ==> core.sentShutdown)
      && (failed ==> !open && !connecting)
      && (connecting ==> !ready && !core.transport && inputBuffer == [] && outputBuffer == [])
      && (open && !connecting ==> core.transport)
    }

    ghost predicate Valid()
      reads this
    {
      Steady() && (!failed ==> !wire.broken)
    }

    /** The ends that have been reached are noted, and the socket is closed if they call for it. */
    ghost predicate Concluded()
      reads this
    {
      && (core.sentShutdown && outputBuffer == [] ==> writeEnded)
      && (core.receivedShutdown ==> readEnded)
      && (writeEnded && (readEnded || closeAfterFlush) ==> !open)
    }

    /** Why a call may leave plaintext in the queue: 64 KiB of it went, ciphertext waits for the
        socket, or the record layer was asked and wants to be asked again.  With an empty queue an
        ended socket has asked for close_notify, and the ends are noted. */
    ghost predicate Advanced(offset: nat, calls: nat)
      reads this
    {
      if output == [] then Concluded() && (ending ==> core.sentShutdown || core.calls > calls)
      else outputOffset >= offset + 65536 || outputBuffer != [] || (core.retry.Some? && core.calls > calls)
    }

    // ---------- the transport pump ----------

    /** Bytes were read and fit into the input buffer. */
    method Retain(after: Wire, bytes: seq<Byte>)
      requires Steady() && !connecting && after.ended == transportReadEnded
      requires Sound(Ledger().(wire := after, ssl := Ssl(core, inputBuffer + bytes, outputBuffer),
                               wireRead := wireBytesRead + |bytes|), Live())
      modifies this`wire, this`inputBuffer, this`wireBytesRead
      ensures Steady() && wire == after && inputBuffer == old(inputBuffer) + bytes
    {
      wire := after;
      inputBuffer := inputBuffer + bytes;
      wireBytesRead := wireBytesRead + |bytes|;
    }

    /** Nothing was read that fits into the buffer: not ready, end of file, or a failure. */
    method Observe(after: Wire)
      requires Steady() && !connecting && !transportReadEnded && Sound(Ledger().(wire := after), Live())
      modifies this`wire, this`transportReadEnded
      ensures Steady() && wire == after
    {
      wire := after;
      if after.ended { transportReadEnded := true; }
    }

    /** The socket took nothing. */
    method Stall(after: Wire)
      requires Steady() && !connecting && after.ended == transportReadEnded && Sound(Ledger().(wire := after), Live())
      modifies this`wire
      ensures Steady() && wire == after
    {
      wire := after;
    }

    /** The socket took bytes from the front of the output buffer. */
    method Depart(after: Wire, count: nat)
      requires Steady() && !connecting && count <= |outputBuffer| && after.ended == transportReadEnded
      requires Sound(Ledger().(wire := after, ssl := Ssl(core, inputBuffer, outputBuffer[count..]),
                               wireWritten := wireBytesWritten + count), Live())
      modifies this`wire, this`outputBuffer, this`wireBytesWritten
      ensures Steady() && wire == after && outputBuffer == old(outputBuffer)[count..]
    {
      wire := after;
      outputBuffer := outputBuffer[count..];
      wireBytesWritten := wireBytesWritten + count;
    }

    /** One read into the free part of the input buffer. */
    method ReceiveOnce() returns (ok: bool, count: nat)
      requires Steady() && !connecting && !wire.broken && !transportReadEnded && |inputBuffer| < INPUT_LIMIT
      modifies this`wire, this`inputBuffer, this`transportReadEnded, this`wireBytesRead
      ensures Steady() && (ok <==> !wire.broken)
      ensures wire == WireRead(old(wire), ReadSize(|old(inputBuffer)|)).0
      ensures ok ==> |wire.received| == |old(wire.received)| + count
      ensures ok && count == 0 ==> wire.ended || wire.readBlocked
      ensures ok && count > 0 ==> !wire.ended
      ensures old(inputBuffer) <= inputBuffer
    {
      var capacity := INPUT_LIMIT - |inputBuffer|;
      if capacity > SLICE { capacity := SLICE; }
      ReceiveEntry(Ledger(), Live(), capacity);
      var (after, answer) := WireRead(wire, capacity);
      if answer.Data? && answer.bytes != [] && answer.retained {
        Retain(after, answer.bytes);
        return true, |answer.bytes|;
      }
      Observe(after);
      return answer.ReadNotReady? || wire.ended, 0;
    }

    /** The receiving half: at most 64 KiB, never past the input budget, never after end of file. */
    method Receive() returns (ok: bool)
      requires Steady() && !connecting && !wire.broken
      modifies this`wire, this`inputBuffer, this`transportReadEnded, this`wireBytesRead
      ensures Steady() && (ok <==> !wire.broken)
      ensures ok ==> Later(old(wire), wire) && ReadOut(old(wire), wire, inputBuffer)
      ensures old(inputBuffer) <= inputBuffer
      ensures SameWrites(old(wire), wire)
      ensures old(wire.ended) ==> wire == old(wire)
    {
      var received: int := 0;
      var more := true;
      while !transportReadEnded && received < 65536 && |inputBuffer| < INPUT_LIMIT && more
        invariant Steady() && !wire.broken && old(inputBuffer) <= inputBuffer
        invariant SameWrites(old(wire), wire)
        invariant old(wire.ended) ==> wire == old(wire)
        invariant |wire.received| == |old(wire.received)| + received && received >= 0
        invariant wire.readCalls >= old(wire.readCalls)
        invariant !more ==> wire.ended || (wire.readCalls > old(wire.readCalls) && wire.readBlocked)
        decreases more, 65536 - received
      {
        var count;
        ok, count := ReceiveOnce();
        if !ok { return; }
        received, more := received + count, count > 0;
      }
      return true;
    }

    /** One write from the front of the output buffer. */
    method TransmitOnce() returns (ok: bool, count: nat)
      requires Steady() && !connecting && !wire.broken && outputBuffer != []
      modifies this`wire, this`outputBuffer, this`wireBytesWritten
      ensures Steady() && (ok <==> !wire.broken)
      ensures ok ==> Gave(old(wire), wire, count) && (count == 0 ==> wire.writeBlocked)
      ensures old(wire.sent) <= wire.sent && SameReads(old(wire), wire)
    {
      var length := |outputBuffer|;
      if length > SLICE { length := SLICE; }
      var offered := outputBuffer[..length];
      TransmitEntry(Ledger(), Live(), length);
      WriteGives(wire, offered);
      var (after, answer) := WireWrite(wire, offered);
      count := if answer.Took? then answer.count else 0;
      ok := if answer.Took? then count > 0 else answer.WriteNotReady?;
      if answer.Took? {
        Depart(after, count);
      } else {
        Stall(after);
      }
    }

    /** The sending half: exactly what the socket took leaves the front of the output buffer. */
    method Transmit() returns (ok: bool)
      requires Steady() && !connecting && !wire.broken
      modifies this`wire, this`outputBuffer, this`wireBytesWritten
      ensures Steady() && (ok <==> !wire.broken)
      ensures ok ==> Later(old(wire), wire) && WrittenOut(old(wire), wire, outputBuffer)
      ensures old(wire.sent) <= wire.sent && SameReads(old(wire), wire)
    {
      var sent: int := 0;
      var more := true;
      while sent < 65536 && outputBuffer != [] && more
        invariant Steady() && !wire.broken
        invariant old(wire.sent) <= wire.sent && SameReads(old(wire), wire)
        invariant |wire.sent| == |old(wire.sent)| + sent && sent >= 0 && wire.writeCalls >= old(wire.writeCalls)
        invariant !more ==> wire.writeCalls > old(wire.writeCalls) && wire.writeBlocked
        decreases more, 65536 - sent
      {
        var count;
        ok, count := TransmitOnce();
        if !ok { return; }
        sent, more := sent + count, count > 0;
      }
      return true;
    }

    method Pump() returns (ok: bool)
      requires Valid() && !failed && !connecting
      modifies this`wire, this`inputBuffer, this`outputBuffer, this`transportReadEnded,
               this`wireBytesRead, this`wireBytesWritten, this`pumps
      ensures pumps == old(pumps) + 1
      ensures Steady() && (ok ==> Valid())
      ensures old(wire.sent) <= wire.sent
      ensures ok <==> open && |old(outputBuffer)| <= 16777216 && !wire.broken
      ensures |old(outputBuffer)| > 16777216 ==> outputBuffer == old(outputBuffer)
      ensures ok ==> Pumped(old(wire), wire, inputBuffer, outputBuffer)
    {
      pumps := pumps + 1;
      if !open || !core.transport { return false; }
      if |inputBuffer| > INPUT_LIMIT || |outputBuffer| > OUTPUT_LIMIT { return false; }
      ok := Receive();
      if ok { ok := Transmit(); }
    }

    method Fail()
      requires Steady()
      modifies this`failed, this`connecting, this`open
      ensures Valid() && failed && !open && !connecting
    {
      Retire(Ledger(), Live());
      failed, connecting, open := true, false, false;
    }

    /** Pump, and fail the socket if that fails. */
    method PumpOrFail(ghost start: Wire) returns (ok: bool)
      requires Valid() && !failed && open && !connecting && Later(start, wire)
      modifies this`wire, this`inputBuffer, this`outputBuffer, this`transportReadEnded,
               this`wireBytesRead, this`wireBytesWritten, this`pumps, this`failed, this`connecting, this`open
      ensures Valid() && !connecting && ok == !failed
      ensures if ok then open && Pumped(start, wire, inputBuffer, outputBuffer) else Faulty(wire, core, outputBuffer)
      ensures pumps == old(pumps) + 1
    {
      ghost var before := wire;
      ok := Pump();
      if ok { PumpedSince(start, before, wire, inputBuffer, outputBuffer); } else { Fail(); }
    }

    /** What a call of the record layer leaves behind. */
    method Install(after: Ssl)
      modifies this`core, this`inputBuffer, this`outputBuffer
      ensures core == after.core && inputBuffer == after.input && outputBuffer == after.output
      ensures Layer() == after
    {
      core, inputBuffer, outputBuffer := after.core, after.input, after.output;
    }

    /** A record-layer call that neither seals nor opens plaintext. */
    method Call() returns (outcome: Outcome)
      requires Valid() && !failed && !connecting
      modifies this`core, this`inputBuffer, this`outputBuffer
      ensures Valid() && Called(old(core), core, outcome)
    {
      var after;
      after, outcome := CallLayer(Layer(), Ledger(), Live());
      Install(after);
    }

    // ---------- the write side ----------

    /** Note what a call of `SSL_write` has left of the slice it was offered. */
    method Note(after: Ssl, length: nat, accepted: nat)
      requires Valid() && Live() && !connecting
      requires Sound(Ledger().(ssl := after, length := length, accepted := accepted), true)
      requires after.core.sentShutdown == core.sentShutdown && after.core.transport == core.transport
      modifies this`core, this`inputBuffer, this`outputBuffer, this`writeLength, this`writeAccepted
      ensures Valid() && Layer() == after && writeLength == length && writeAccepted == accepted
    {
      Install(after);
      writeLength, writeAccepted := length, accepted;
    }

    /** `SSL_write` must be called again with the same bytes. */
    method Interrupted(after: Ssl, length: nat, retry: Retry)
      requires Valid() && Live() && !connecting && Sound(Ledger().(ssl := after, length := length), true)
      requires after.core.sentShutdown == core.sentShutdown && after.core.transport == core.transport
      modifies this`core, this`inputBuffer, this`outputBuffer, this`writeLength, this`writeAccepted, this`writeRetry
      ensures Valid() && Layer() == after && writeLength == length && writeRetry == retry
      ensures writeAccepted == old(writeAccepted)
    {
      Note(after, length, writeAccepted);
      writeRetry := retry;
    }

    /** `SSL_write` took the first bytes of the slice. */
    method Accepted(after: Ssl, count: nat)
      requires Valid() && Live() && !connecting
      requires Sound(Ledger().(ssl := after, length := 0, accepted := count), true)
      requires after.core.sentShutdown == core.sentShutdown && after.core.transport == core.transport
      modifies this`core, this`inputBuffer, this`outputBuffer, this`writeLength, this`writeAccepted, this`writeRetry
      ensures Valid() && Layer() == after && writeAccepted == count && writeLength == 0 && writeRetry == NoRetry
    {
      Note(after, 0, count);
      writeRetry := NoRetry;
    }

    method Broken(after: Ssl)
      requires Valid() && Live() && !connecting && Sound(Ledger().(ssl := after), false)
      requires after.core.sentShutdown == core.sentShutdown && after.core.transport == core.transport
      modifies this`core, this`inputBuffer, this`outputBuffer, this`failed, this`connecting, this`open
      ensures Valid() && failed && !connecting && Layer() == after
    {
      Install(after);
      failed, connecting, open := true, false, false;
    }

    /** The bytes `SSL_write` is offered: the interrupted slice again, or at most 16 KiB. */
    method NextSlice() returns (slice: seq<Byte>)
      requires Valid() && Live() && !connecting && outputOffset < |output| && writeAccepted == 0
      ensures Offerable(Ledger(), slice)
      ensures writeLength == 0 ==> |slice| == 16384 || outputOffset + |slice| == |output|
    {
      var length := writeLength;
      if length == 0 {
        var remaining := |output| - outputOffset;
        length := if remaining > SLICE then SLICE else remaining;
      }
      slice := output[outputOffset..outputOffset + length];
      OfferedAgain(Ledger(), slice);
    }

    /** Offer the next slice, or repeat the interrupted one. */
    method Seal() returns (outcome: Outcome)
      requires Valid() && Live() && !connecting && outputOffset < |output| && writeAccepted == 0
      modifies this`core, this`inputBuffer, this`outputBuffer, this`writeLength, this`writeAccepted, this`writeRetry,
               this`failed, this`connecting, this`open
      ensures Valid() && (outcome == Fatal <==> failed)
      ensures !connecting && (!failed ==> open == old(open))
      ensures outcome.Done? ==> 0 < writeAccepted == outcome.count
      ensures outcome in {WantRead, WantWrite, Fatal} || outcome.Done?
      ensures outcome in {WantRead, WantWrite} ==> core.retry.Some?
      ensures outcome != Fatal ==>
                writeRetry == if outcome.Done? then NoRetry else if outcome == WantRead then RetryRead else RetryWrite
      ensures Called(old(core), core, outcome)
    {
      var slice := NextSlice();
      var after;
      after, outcome := WriteLayer(Layer(), slice, Ledger());
      if outcome == WantRead || outcome == WantWrite {
        Interrupted(after, |slice|, if outcome == WantRead then RetryRead else RetryWrite);
      } else if outcome.Done? {
        Accepted(after, outcome.count);
      } else {
        Broken(after);
      }
    }

    /** The output buffer is empty, so what the record layer accepted has been transmitted. */
    method Advance()
      requires Valid() && Live() && outputBuffer == []
      modifies this`outputOffset, this`writeAccepted
      ensures Valid() && writeAccepted == 0 && outputOffset == old(outputOffset + writeAccepted)
    {
      AdvanceEntry(Ledger());
      outputOffset := outputOffset + writeAccepted;
      writeAccepted := 0;
    }

    method SealAndPump(ghost start: Wire) returns (stop: bool)
      requires Valid() && !failed && open && !connecting && outputOffset < |output| && writeAccepted == 0
      requires Later(start, wire)
      modifies this`wire, this`core, this`inputBuffer, this`outputBuffer, this`transportReadEnded,
               this`wireBytesRead, this`wireBytesWritten, this`pumps,
               this`writeLength, this`writeAccepted, this`writeRetry,
               this`failed, this`connecting, this`open
      ensures Valid() && !connecting && (failed ==> stop) && (!failed ==> open)
      ensures !stop ==> 0 < writeAccepted
      ensures core.calls > old(core.calls) && (failed ==> Faulty(wire, core, outputBuffer))
      ensures stop && !failed ==> core.retry.Some?
      ensures !failed ==> Pumped(start, wire, inputBuffer, outputBuffer)
      ensures core.transport == old(core.transport)
      ensures pumps >= old(pumps)
    {
      var outcome := Seal();
      if failed { return true; }
      var ok := PumpOrFail(start);
      return !ok || !outcome.Done?;
    }

    /** One turn: account for what has been transmitted, then offer the next slice. */
    method WriteTurn(ghost start: Wire, before: int) returns (done: bool, stop: bool, progressed: int)
      requires Valid() && !failed && open && !connecting && Pumped(start, wire, inputBuffer, outputBuffer)
      requires outputOffset < |output| && before < 65536
      modifies this`wire, this`core, this`inputBuffer, this`outputBuffer, this`transportReadEnded,
               this`wireBytesRead, this`wireBytesWritten, this`pumps,
               this`outputOffset, this`writeLength, this`writeAccepted, this`writeRetry,
               this`failed, this`connecting, this`open
      ensures Valid() && !connecting && core.calls >= old(core.calls)
      ensures if failed then stop && Faulty(wire, core, outputBuffer)
              else open && Pumped(start, wire, inputBuffer, outputBuffer)
      ensures outputOffset - old(outputOffset) == progressed - before
      ensures progressed == before + if old(outputBuffer) == [] then old(writeAccepted) else 0
      ensures stop ==> done
      ensures stop && !failed ==>
                outputOffset < |output| && (outputBuffer != [] || (core.retry.Some? && core.calls > old(core.calls)))
      ensures done && !stop ==> outputOffset == |output| || progressed >= 65536
      ensures !done ==> writeAccepted > 0 && old(outputBuffer) == []
      ensures core.transport == old(core.transport)
      ensures pumps >= old(pumps)
    {
      progressed := before;
      if outputBuffer != [] { return true, true, progressed; }
      if writeAccepted != 0 {
        progressed := progressed + writeAccepted;
        Advance();
        if outputOffset == |output| || progressed >= 65536 { return true, false, progressed; }
      }
      stop := SealAndPump(start);
      done := stop;
    }

    /** The write loop: at most 64 KiB of progress, and never a new slice while ciphertext waits.
        `stop` means that the caller returns at once. */
    method WriteQueued(ghost start: Wire) returns (stop: bool)
      requires Valid() && !failed && open && !connecting && Pumped(start, wire, inputBuffer, outputBuffer)
      modifies this`wire, this`core, this`inputBuffer, this`outputBuffer, this`transportReadEnded,
               this`wireBytesRead, this`wireBytesWritten, this`pumps,
               this`outputOffset, this`writeLength, this`writeAccepted, this`writeRetry,
               this`failed, this`connecting, this`open
      ensures Valid() && (failed ==> stop) && !connecting && (!failed ==> open)
      ensures if failed then Faulty(wire, core, outputBuffer) else Pumped(start, wire, inputBuffer, outputBuffer)
      ensures core.calls >= old(core.calls)
      ensures stop && !failed ==>
                outputOffset < |output| && (outputBuffer != [] || (core.retry.Some? && core.calls > old(core.calls)))
      ensures !stop ==> outputOffset == |output| || outputOffset >= old(outputOffset) + 65536
      ensures core.transport == old(core.transport)
      ensures pumps >= old(pumps)
    {
      var progressed := 0;
      var done := false;
      stop := false;
      while outputOffset < |output| && progressed < 65536 && !done
        invariant Valid() && !connecting && core.calls >= old(core.calls) && core.transport == old(core.transport)
        invariant pumps >= old(pumps)
        invariant if failed then stop && Faulty(wire, core, outputBuffer)
                  else open && Pumped(start, wire, inputBuffer, outputBuffer)
        invariant outputOffset == old(outputOffset) + progressed
        invariant stop ==> done
        invariant stop && !failed ==>
            outputOffset < |output| && (outputBuffer != [] || (core.retry.Some? && core.calls > old(core.calls)))
        invariant done && !stop ==> outputOffset == |output| || progressed >= 65536
        decreases !done, 65536 - progressed, if writeAccepted == 0 then 1 else 0
      {
        done, stop, progressed := WriteTurn(start, progressed);
      }
    }

    method CloseNotify()
      requires Valid() && !failed && open && !connecting && ending && output == [] && !core.sentShutdown
      modifies this`core, this`inputBuffer, this`outputBuffer, this`reachedAtClose,
               this`failed, this`connecting, this`open
      ensures Valid() && !connecting && (!failed ==> open)
      ensures Called(old(core), core, core.last) && (failed <==> core.last == Fatal)
      ensures core.sentShutdown <==> core.last.Done? || core.last == ZeroReturn
    {
      var after, outcome := ShutdownLayer(Layer(), Ledger());
      reachedAtClose := |written|;
      Install(after);
      if outcome == Fatal { Fail(); }
    }

    method Clear()
      requires Valid() && Live() && outputOffset == |output|
      modifies this`output, this`outputOffset, this`base
      ensures Valid() && output == [] && outputOffset == 0
    {
      ClearEntry(Ledger());
      base := base + |output|;
      output, outputOffset := [], 0;
    }

    /** An exhausted queue is freed; if the application has ended its side, close_notify follows. */
    method Settle()
      requires Valid() && !failed && open && !connecting
      modifies this`core, this`inputBuffer, this`outputBuffer,
               this`output, this`outputOffset, this`base, this`reachedAtClose,
               this`failed, this`connecting, this`open
      ensures Valid() && !connecting && (!failed ==> open) && (failed ==> core.fatal)
      ensures !old(ending) || old(outputOffset < |output|) ==> Layer() == old(Layer())
      ensures if old(outputOffset < |output|) then output == old(output) && outputOffset == old(outputOffset)
              else output == []
      ensures core.calls >= old(core.calls)
      ensures ending && old(outputOffset == |output|) ==> core.sentShutdown || core.calls > old(core.calls)
      ensures core.transport == old(core.transport)
    {
      if outputOffset == |output| {
        Clear();
        if ending && !core.sentShutdown { CloseNotify(); }
      }
    }

    /** Note the ends that have been reached, and close when both (or the flushed one) are. */
    method Conclude()
      requires Valid() && !failed && open && !connecting
      modifies this`writeEnded, this`readEnded, this`open
      ensures Valid()
      ensures writeEnded == (old(writeEnded) || (core.sentShutdown && outputBuffer == []))
      ensures readEnded == (old(readEnded) || core.receivedShutdown)
      ensures open == !(writeEnded && (readEnded || closeAfterFlush))
    {
      Retire(Ledger(), Live());
      if core.sentShutdown && outputBuffer == [] { writeEnded := true; }
      if core.receivedShutdown { readEnded := true; }
      if writeEnded && (readEnded || closeAfterFlush) { open := false; }
    }

    method AttachTransport()
      requires Valid() && !failed && connecting
      modifies this`connecting, this`open, this`core
      ensures Valid() && open && !connecting
      ensures core == old(core).(transport := true)
    {
      Attach(Ledger(), Live());
      core := core.(transport := true);
      open, connecting := true, false;
    }

    /** Wait for the connection; `ready` says that the transport is there. */
    method Connect() returns (connected: bool)
      requires Valid() && !failed && connecting
      modifies this`endpoint, this`failed, this`connecting, this`open, this`core
      ensures Valid() && (connected ==> !failed && open && !connecting)
      ensures !connected ==> failed || connecting
      ensures connected <==> EndpointStatus(old(endpoint)) > 0 && initializes
      ensures connecting <==> EndpointStatus(old(endpoint)) == 0
      ensures connected ==> core.transport
      ensures endpoint == Skipped(old(endpoint))
      ensures core == old(core).(transport := core.transport)
    {
      var status := EndpointStatus(endpoint);
      if endpoint != [] { endpoint := endpoint[1..]; }
      if status == 0 { return false; }
      if status < 0 || !initializes {
        Fail();
        return false;
      }
      AttachTransport();
      return true;
    }

    /** `ready` is set once the handshake has completed and its results could be kept. */
    method Shake()
      requires Valid() && !failed && open && !connecting && !ready
      modifies this`core, this`inputBuffer, this`outputBuffer, this`ready, this`failed, this`connecting, this`open
      ensures Valid() && !connecting && Called(old(core), core, core.last) && (!failed ==> open)
      ensures failed <==> core.last == ZeroReturn || core.last == Fatal || (core.last.Done? && !keeps)
      ensures !failed ==> (ready <==> core.last.Done?)
    {
      var outcome := Call();
      if outcome == ZeroReturn || outcome == Fatal || (outcome.Done? && !keeps) {
        Fail();
      } else if outcome.Done? {
        ready := true;
      }
    }

    method Handshake(ghost start: Wire) returns (stop: bool)
      requires Valid() && !failed && open && !connecting && !ready && Later(start, wire)
      modifies this`wire, this`core, this`inputBuffer, this`outputBuffer, this`transportReadEnded,
               this`wireBytesRead, this`wireBytesWritten, this`pumps,
               this`ready, this`failed, this`connecting, this`open
      ensures Valid() && !connecting && (!stop ==> !failed && open && ready)
      ensures stop && !failed ==> !ready
      ensures !failed ==> Pumped(start, wire, inputBuffer, outputBuffer)
      ensures Called(old(core), core, core.last) && (!failed ==> (ready <==> core.last.Done?))
      ensures !failed && !ready ==> core.last == WantRead || core.last == WantWrite
      ensures failed ==> Faulty(wire, core, outputBuffer) || core.last == ZeroReturn || (core.last.Done? && !keeps)
      ensures pumps >= old(pumps)
    {
      Shake();
      if failed { return true; }
      var ok := PumpOrFail(start);
      return !ok || !ready;
    }

    method PumpAndConclude()
      requires Valid() && !failed && open && !connecting
      modifies this`wire, this`inputBuffer, this`outputBuffer, this`transportReadEnded,
               this`wireBytesRead, this`wireBytesWritten, this`pumps,
               this`readEnded, this`writeEnded, this`failed, this`connecting, this`open
      ensures Valid() && !connecting
      ensures if failed then Faulty(wire, core, outputBuffer)
              else Concluded() && Pumped(old(wire), wire, inputBuffer, outputBuffer)
      ensures pumps >= old(pumps)
    {
      var ok := PumpOrFail(wire);
      if ok { Conclude(); }
    }

    method Finish(ghost start: Wire)
      requires Valid() && !failed && open && !connecting && Later(start, wire)
      modifies this`wire, this`core, this`inputBuffer, this`outputBuffer, this`transportReadEnded,
               this`wireBytesRead, this`wireBytesWritten, this`pumps,
               this`output, this`outputOffset, this`base, this`reachedAtClose, this`readEnded, this`writeEnded,
               this`failed, this`connecting, this`open
      ensures Valid() && !connecting && (failed ==> Faulty(wire, core, outputBuffer))
      ensures core.calls >= old(core.calls)
      ensures if old(outputOffset < |output|) then output == old(output) && outputOffset == old(outputOffset)
              else output == []
      ensures !failed && ending && output == [] ==> core.sentShutdown || core.calls > old(core.calls)
      ensures !failed ==> Concluded() && Pumped(start, wire, inputBuffer, outputBuffer)
      ensures core.transport == old(core.transport)
      ensures pumps >= old(pumps)
    {
      Settle();
      if failed { return; }
      ghost var before := wire;
      PumpAndConclude();
      if !failed { PumpedSince(start, before, wire, inputBuffer, outputBuffer); }
    }

    method DriveReady(ghost start: Wire) returns (result: Progressed)
      requires Valid() && !failed && open && !connecting && Pumped(start, wire, inputBuffer, outputBuffer)
      modifies this`wire, this`core, this`inputBuffer, this`outputBuffer, this`transportReadEnded,
               this`wireBytesRead, this`wireBytesWritten, this`pumps,
               this`output, this`outputOffset, this`writeLength, this`writeAccepted, this`writeRetry,
               this`base, this`reachedAtClose, this`readEnded, this`writeEnded,
               this`failed, this`connecting, this`open
      ensures Valid() && !connecting && (if failed then result == Failed else result == Moved)
      ensures if failed then Faulty(wire, core, outputBuffer) else Pumped(start, wire, inputBuffer, outputBuffer)
      ensures core.calls >= old(core.calls)
      ensures !failed ==> Advanced(old(outputOffset), old(core.calls))
      ensures core.transport == old(core.transport)
      ensures pumps >= old(pumps)
    {
      var stop := WriteQueued(start);
      if !stop { Finish(start); }
      return if failed then Failed else Moved;
    }

    /** What one call does for a connected socket. */
    method Drive(ghost start: Wire) returns (result: Progressed)
      requires Valid() && !failed && open && !connecting && Pumped(start, wire, inputBuffer, outputBuffer)
      modifies this`wire, this`core, this`inputBuffer, this`outputBuffer, this`transportReadEnded,
               this`wireBytesRead, this`wireBytesWritten, this`pumps,
               this`output, this`outputOffset, this`writeLength, this`writeAccepted, this`writeRetry,
               this`base, this`reachedAtClose, this`ready, this`readEnded, this`writeEnded,
               this`failed, this`connecting, this`open
      ensures Valid() && !connecting && (result == Failed <==> failed)
      ensures failed && old(ready) ==> Faulty(wire, core, outputBuffer)
      ensures failed ==> Faulty(wire, core, outputBuffer) || core.last == ZeroReturn || (core.last.Done? && !keeps)
      ensures core.calls >= old(core.calls) && core.transport == old(core.transport)
      ensures !old(ready) && !failed ==> core.calls > old(core.calls)
      ensures result == Idle <==> !failed && !ready
      ensures result == Idle ==> core.calls > old(core.calls) && (core.last == WantRead || core.last == WantWrite)
      ensures result == Moved ==> ready && Advanced(old(outputOffset), old(core.calls))
      ensures !failed ==> Pumped(start, wire, inputBuffer, outputBuffer)
      ensures pumps >= old(pumps)
    {
      if !ready {
        var stop := Handshake(start);
        if stop { return if failed then Failed else Idle; }
      }
      result := DriveReady(start);
    }

    method PumpAndDrive() returns (result: Progressed)
      requires Valid() && !failed && open && !connecting
      modifies this`wire, this`core, this`inputBuffer, this`outputBuffer, this`transportReadEnded,
               this`wireBytesRead, this`wireBytesWritten, this`pumps,
               this`output, this`outputOffset, this`writeLength, this`writeAccepted, this`writeRetry,
               this`base, this`reachedAtClose, this`ready, this`readEnded, this`writeEnded,
               this`failed, this`connecting, this`open
      ensures Valid() && !connecting && (result == Failed <==> failed)
      ensures failed && old(ready) ==> Faulty(wire, core, outputBuffer)
      ensures failed ==> Faulty(wire, core, outputBuffer) || core.last == ZeroReturn || (core.last.Done? && !keeps)
      ensures core.calls >= old(core.calls) && core.transport == old(core.transport)
      ensures !old(ready) && !failed ==> core.calls > old(core.calls)
      ensures result == Idle <==> !failed && !ready
      ensures result == Idle ==> core.calls > old(core.calls) && (core.last == WantRead || core.last == WantWrite)
      ensures result == Moved ==> ready && Advanced(old(outputOffset), old(core.calls))
      ensures !failed ==> Pumped(old(wire), wire, inputBuffer, outputBuffer)
      ensures pumps > old(pumps)
    {
      var ok := PumpOrFail(wire);
      if !ok { return Failed; }
      result := Drive(old(wire));
    }

    method ConnectAndDrive() returns (result: Progressed)
      requires Valid() && !failed && connecting
      modifies this`wire, this`core, this`inputBuffer, this`outputBuffer, this`transportReadEnded,
               this`wireBytesRead, this`wireBytesWritten, this`pumps,
               this`output, this`outputOffset, this`writeLength, this`writeAccepted, this`writeRetry,
               this`base, this`reachedAtClose, this`ready, this`readEnded, this`writeEnded,
               this`failed, this`connecting, this`open, this`endpoint
      ensures Valid() && (result == Failed <==> failed) && core.calls >= old(core.calls)
      ensures endpoint == Skipped(old(endpoint))
      ensures connecting <==> old(endpoint == [] || endpoint[0] == 0)
      ensures connecting ==> result == Idle && core == old(core) && wire == old(wire)
      ensures old(endpoint != [] && endpoint[0] < 0) || (!connecting && !initializes) ==> failed
      ensures failed ==>
                || Faulty(wire, core, outputBuffer) || core.last == ZeroReturn || (core.last.Done? && !keeps)
                || !initializes || old(endpoint != [] && endpoint[0] < 0)
      ensures !connecting && !failed ==> core.transport && core.calls > old(core.calls)
      ensures result == Idle <==> !failed && !ready
      ensures result == Idle && !connecting ==> core.last == WantRead || core.last == WantWrite
      ensures result == Moved ==> Advanced(old(outputOffset), old(core.calls))
      ensures !connecting && !failed ==> Pumped(old(wire), wire, inputBuffer, outputBuffer)
      ensures pumps > old(pumps) || connecting || !initializes || old(endpoint != [] && endpoint[0] < 0)
    {
      var connected := Connect();
      if !connected { return if failed then Failed else Idle; }
      result := PumpAndDrive();
    }

    /** A socket that is connecting or connected. */
    method DriveLive() returns (result: Progressed)
      requires Valid() && Live()
      modifies this`wire, this`core, this`inputBuffer, this`outputBuffer, this`transportReadEnded,
               this`wireBytesRead, this`wireBytesWritten, this`pumps,
               this`output, this`outputOffset, this`writeLength, this`writeAccepted, this`writeRetry,
               this`base, this`reachedAtClose, this`ready, this`readEnded, this`writeEnded,
               this`failed, this`connecting, this`open, this`endpoint
      ensures Valid() && (result == Failed <==> failed)
      ensures failed && old(ready) ==> Faulty(wire, core, outputBuffer)
      ensures core.calls >= old(core.calls)
      ensures result == Idle ==> (!open && !connecting) || !ready
      ensures old(connecting) ==>
                && endpoint == Skipped(old(endpoint))
                && (connecting <==> old(endpoint == [] || endpoint[0] == 0))
                && (old(endpoint != [] && endpoint[0] < 0) || (!connecting && !initializes) ==> failed)
                && (!connecting && !failed ==> core.transport && core.calls > old(core.calls))
                && (connecting ==> result == Idle && core == old(core) && wire == old(wire))
      ensures !old(connecting) ==> endpoint == old(endpoint)
      ensures old(!connecting && !ready) && !failed ==> core.calls > old(core.calls)
      ensures open && !connecting && !ready ==>
                result == Idle && core.calls > old(core.calls) && (core.last == WantRead || core.last == WantWrite)
      ensures failed ==>
                || Faulty(wire, core, outputBuffer)
                || (!old(ready) && (core.last == ZeroReturn || (core.last.Done? && !keeps)))
                || (old(connecting) && (!initializes || old(endpoint != [] && endpoint[0] < 0)))
      ensures result == Moved ==> ready && Advanced(old(outputOffset), old(core.calls))
      ensures result == Moved || (open && !connecting) ==> Pumped(old(wire), wire, inputBuffer, outputBuffer)
      ensures old(!connecting) ==> pumps > old(pumps)
    {
      if connecting {
        result := ConnectAndDrive();
      } else {
        result := PumpAndDrive();
      }
    }

    method Progress() returns (result: Progressed)
      requires Valid()
      modifies this`wire, this`core, this`inputBuffer, this`outputBuffer, this`transportReadEnded,
               this`wireBytesRead, this`wireBytesWritten, this`pumps,
               this`output, this`outputOffset, this`writeLength, this`writeAccepted, this`writeRetry,
               this`base, this`reachedAtClose, this`ready, this`readEnded, this`writeEnded,
               this`failed, this`connecting, this`open, this`endpoint
      ensures Valid() && (result == Failed <==> failed)
      ensures failed && old(ready && !failed) ==> Faulty(wire, core, outputBuffer)
      ensures core.calls >= old(core.calls)
      ensures result == Idle ==> (!open && !connecting) || !ready
      ensures old(connecting && !failed) ==>
                && endpoint == Skipped(old(endpoint))
                && (connecting <==> old(endpoint == [] || endpoint[0] == 0))
                && (old(endpoint != [] && endpoint[0] < 0) || (!connecting && !initializes) ==> failed)
                && (!connecting && !failed ==> core.transport && core.calls > old(core.calls))
                && (connecting ==> result == Idle && core == old(core) && wire == old(wire))
      ensures !old(connecting) ==> endpoint == old(endpoint)
      ensures old(open && !connecting && !ready && !failed) && !failed ==> core.calls > old(core.calls)
      ensures open && !connecting && !ready ==>
                result == Idle && core.calls > old(core.calls) && (core.last == WantRead || core.last == WantWrite)
      ensures old(!open && !connecting && !failed) ==> result == Idle && core == old(core) && wire == old(wire)
      ensures failed && !old(failed) ==>
                || Faulty(wire, core, outputBuffer)
                || (!old(ready) && (core.last == ZeroReturn || (core.last.Done? && !keeps)))
                || (old(connecting) && (!initializes || old(endpoint != [] && endpoint[0] < 0)))
      ensures result == Moved ==> ready && Advanced(old(outputOffset), old(core.calls))
      ensures result == Moved || (open && !connecting) ==> Pumped(old(wire), wire, inputBuffer, outputBuffer)
      ensures old(open && !connecting && !failed) ==> pumps > old(pumps)
    {
      if failed { return Failed; }
      if !open && !connecting { return Idle; }
      result := DriveLive();
    }

    /** A client socket starts out connecting; an accepted one has its transport already. */
    constructor (wire: Wire, answers: seq<Answer>, endpoint: seq<int>, connecting: bool, open: bool,
                 initializes: bool, keeps: bool)
      requires wire.received == [] && wire.sent == [] && !wire.ended && !wire.broken && wire.unretained == []
      ensures Valid() && written == delivered == [] && !ending
    {
      this.wire, this.endpoint, this.initializes, this.keeps := wire, endpoint, initializes, keeps;
      core := Core(answers, 0, false, !connecting, [], [], [], None, false, false, [], 0, WantRead);
      inputBuffer, outputBuffer := [], [];
      this.connecting, this.open, ready, ending := connecting, open, false, false;
      readEnded, transportReadEnded, writeEnded, closeAfterFlush, failed := false, false, false, false, false;
      output, outputOffset, writeLength, writeAccepted, writeRetry := [], 0, 0, 0, NoRetry;
      bytesRead, bytesWritten, wireBytesRead, wireBytesWritten := 0, 0, 0, 0;
      written, base, reachedAtClose, delivered, pumps := [], 0, 0, [], 0;
      new;
      Opening(Ledger(), Live());
    }

    method Extend(bytes: seq<Byte>)
      requires Valid() && Live() && !ending && outputOffset == 0 && |output| + |bytes| <= QUEUE_LIMIT
      modifies this`output, this`bytesWritten, this`written
      ensures Valid() && output == old(output) + bytes && written == old(written) + bytes
    {
      ExtendEntry(Ledger(), bytes);
      output := output + bytes;
      bytesWritten := bytesWritten + |bytes|;
      written := written + bytes;
    }

    method Restart(rest: seq<Byte>)
      requires Valid() && Live()
      requires Sound(Ledger().(base := base + outputOffset, output := rest, offset := 0), true)
      modifies this`output, this`outputOffset, this`base
      ensures Valid() && outputOffset == 0 && output == rest
    {
      base := base + outputOffset;
      output := rest;
      outputOffset := 0;
    }

    method Compact()
      requires Valid() && Live()
      modifies this`output, this`outputOffset, this`base
      ensures Valid() && outputOffset == 0 && output == old(output[outputOffset..])
    {
      CompactEntry(Ledger());
      Restart(output[outputOffset..]);
    }

    /** Queue plaintext, compacting the queue first.  An interrupted slice keeps its bytes and its
        length, because compaction only drops what lies before the offset. */
    method Write(bytes: seq<Byte>, memory: bool) returns (accepted: bool)
      requires Valid()
      modifies this`output, this`outputOffset, this`bytesWritten, this`written, this`base
      ensures Valid()
      ensures accepted == (!ending && Live() && |bytes| <= 268435456 - old(|output| - outputOffset) &&
                           (bytes == [] || memory))
      ensures written == old(written) + if accepted then bytes else []
      ensures Live() ==> output[outputOffset..] == old(output[outputOffset..]) + if accepted then bytes else []
    {
      if ending || failed || (!open && !connecting) { return false; }
      var retained := |output| - outputOffset;
      if |bytes| > QUEUE_LIMIT - retained { return false; }
      if bytes == [] { return true; }
      Compact();
      if !memory { return false; }
      Extend(bytes);
      return true;
    }

    method End() returns (ok: bool)
      requires Valid()
      modifies this
      ensures Valid() && ending && written == old(written) && ok == !failed
      ensures closeAfterFlush == old(closeAfterFlush)
      ensures ok && ready && (open || connecting) ==> Advanced(old(outputOffset), old(core.calls))
      ensures ok && open && !connecting ==> Pumped(old(wire), wire, inputBuffer, outputBuffer)
      ensures old(open && !connecting && !failed) ==> pumps > old(pumps)
      ensures old(connecting && !failed) ==>
                endpoint == Skipped(old(endpoint)) && (connecting <==> old(endpoint == [] || endpoint[0] == 0))
    {
      ending := true;
      var result := Progress();
      return result != Failed;
    }

    method FinishResponse() returns (ok: bool)
      requires Valid()
      modifies this
      ensures Valid() && ending && closeAfterFlush && written == old(written) && ok == !failed
      ensures ok && ready && (open || connecting) ==> Advanced(old(outputOffset), old(core.calls))
      ensures ok && open && !connecting ==> Pumped(old(wire), wire, inputBuffer, outputBuffer)
      ensures old(open && !connecting && !failed) ==> pumps > old(pumps)
      ensures old(connecting && !failed) ==>
                endpoint == Skipped(old(endpoint)) && (connecting <==> old(endpoint == [] || endpoint[0] == 0))
    {
      closeAfterFlush := true;
      ok := End();
    }

    /** Whether the record layer may be asked for plaintext now: not while an interrupted write
        waits to be written out. */
    predicate Askable()
      reads this
    {
      !failed && !connecting && open && !readEnded && ready && writeRetry != RetryWrite
    }

    /** One read or peek of the record layer, up to the plaintext it shows. */
    method Fetch() returns (outcome: Outcome)
      requires Valid() && !failed && !connecting
      modifies this`core, this`inputBuffer, this`outputBuffer
      ensures Valid() && Called(old(core), core, outcome)
      ensures outcome.Done? <==> core.handed < |core.plaintext|
    {
      var after;
      after, outcome := FetchLayer(Layer(), Ledger(), Live());
      Install(after);
    }

    /** The same with its consequences for the socket. */
    method Ask() returns (outcome: Outcome)
      requires Valid() && Askable()
      modifies this`core, this`inputBuffer, this`outputBuffer, this`readEnded, this`failed, this`open, this`connecting
      ensures Valid() && !connecting
      ensures core.calls > old(core.calls) && outcome == core.last
      ensures outcome.Done? <==> core.handed < |core.plaintext|
      ensures (failed <==> outcome == Fatal) && (readEnded <==> outcome == ZeroReturn) && (open <==> !failed)
    {
      outcome := Fetch();
      if outcome == ZeroReturn { readEnded := true; }
      if outcome == Fatal { Fail(); }
    }

    method HandOut(capacity: nat) returns (bytes: seq<Byte>)
      requires Valid() && capacity > 0 && core.handed < |core.plaintext|
      modifies this`core, this`bytesRead, this`delivered
      ensures Valid() && delivered == old(delivered) + bytes
      ensures 0 < |bytes| <= capacity && (|bytes| == capacity || core.handed == |core.plaintext|)
      ensures core.calls == old(core.calls) && core.last == old(core.last)
    {
      var after;
      bytes, after := HandOutLayer(core, capacity, Ledger(), Live());
      core := after;
      bytesRead := bytesRead + |bytes|;
      delivered := delivered + bytes;
    }

    /** What a read that asked comes to: the result is what the record layer said, plaintext is handed
        out in order and as far as there is room, and the end of a stream whose other direction has
        ended closes the socket. */
    ghost predicate Answered(result: ReadResult, capacity: nat, before: seq<Byte>)
      reads this
    {
      && result == Shown(core.last, if result.Bytes? then result.bytes else [])
      && Handed(result, capacity, before, delivered, core)
      && (failed <==> result == ReadFailure) && (readEnded <==> result == EndOfFile)
      && (open <==> !failed && !(readEnded && writeEnded))
    }

    method Take(capacity: nat) returns (result: ReadResult)
      requires Valid() && Askable() && capacity > 0
      modifies this`core, this`inputBuffer, this`outputBuffer, this`readEnded,
               this`failed, this`open, this`connecting, this`bytesRead, this`delivered
      ensures Valid() && !connecting
      ensures core.calls > old(core.calls) && Answered(result, capacity, old(delivered))
    {
      var outcome := Ask();
      result := Shown(outcome, []);
      if outcome.Done? {
        var bytes := HandOut(capacity);
        result := Bytes(bytes);
      } else if outcome == ZeroReturn && writeEnded {
        Retire(Ledger(), Live());
        open := false;
      }
    }

    /** What stands in the way of asking the record layer. */
    function EarlyRead(): ReadResult
      reads this
    {
      if failed then ReadFailure
      else if connecting then TryAgain
      else if !open || readEnded then EndOfFile
      else TryAgain
    }

    /** Ask the record layer, unless something stands in the way. */
    method AskIfPossible(capacity: nat) returns (result: ReadResult, ghost asked: bool)
      requires Valid() && !failed && capacity > 0
      modifies this`core, this`inputBuffer, this`outputBuffer, this`readEnded,
               this`failed, this`open, this`connecting, this`bytesRead, this`delivered
      ensures Valid() && connecting == old(connecting)
      ensures asked <==> old(Askable())
      ensures !asked ==> !Askable() && result == EarlyRead() && delivered == old(delivered)
      ensures core.calls >= old(core.calls)
      ensures asked ==> core.calls > old(core.calls) && Answered(result, capacity, old(delivered))
    {
      asked := false;
      if connecting { return TryAgain, false; }
      if !open || readEnded { return EndOfFile, false; }
      if !ready || writeRetry == RetryWrite { return TryAgain, false; }
      result := Take(capacity);
      asked := true;
    }

    /** Drive the socket, then read.  `asked` says that the record layer was asked for plaintext, which
        it is whenever the socket is connected, ready, not at its end, and not about to repeat an
        interrupted write; the result is then what the record layer said, and else what stands in the
        way. */
    method Read(capacity: nat) returns (result: ReadResult, ghost asked: bool)
      requires Valid()
      modifies this`wire, this`core, this`inputBuffer, this`outputBuffer, this`transportReadEnded,
               this`wireBytesRead, this`wireBytesWritten, this`pumps,
               this`output, this`outputOffset, this`writeLength, this`writeAccepted, this`writeRetry,
               this`base, this`reachedAtClose, this`ready, this`readEnded, this`writeEnded,
               this`failed, this`connecting, this`open, this`endpoint, this`bytesRead,
               this`delivered
      ensures Valid()
      ensures capacity == 0 ==> result == Bytes([]) && !asked
      ensures !asked ==> delivered == old(delivered) && (capacity == 0 || (!Askable() && result == EarlyRead()))
      ensures asked ==>
                && core.calls > old(core.calls) && ready && !connecting && writeRetry != RetryWrite
                && Answered(result, capacity, old(delivered))
      ensures capacity > 0 && old(open && !connecting && !failed) ==> pumps > old(pumps)
      ensures capacity > 0 && old(connecting && !failed) ==>
                endpoint == Skipped(old(endpoint)) && (connecting <==> old(endpoint == [] || endpoint[0] == 0))
    {
      asked := false;
      if capacity == 0 { return Bytes([]), false; }
      var progressed := Progress();
      if progressed == Failed { return ReadFailure, false; }
      result, asked := AskIfPossible(capacity);
    }

    /** What a peek that asked comes to: a byte shown is the one that the next read hands out first. */
    ghost predicate Glimpsed(result: ReadResult)
      reads this
    {
      && result == Shown(core.last, if result.Bytes? then result.bytes else [])
      && (result.Bytes? ==> core.handed < |core.plaintext| && result.bytes == [core.plaintext[core.handed]])
      && (failed <==> result == ReadFailure) && (readEnded <==> result == EndOfFile) && (open <==> !failed)
    }

    method Look() returns (result: ReadResult)
      requires Valid() && Askable()
      modifies this`core, this`inputBuffer, this`outputBuffer, this`readEnded, this`failed, this`open, this`connecting
      ensures Valid() && !connecting && core.calls > old(core.calls) && Glimpsed(result)
    {
      var outcome := Ask();
      result := Shown(outcome, if outcome.Done? then Readable(core, 1) else []);
    }

    function EarlyPeek(): ReadResult
      reads this
    {
      if failed then ReadFailure else if readEnded || (!open && !connecting) then EndOfFile else TryAgain
    }

    /** The same without taking anything. */
    method Peek() returns (result: ReadResult, ghost asked: bool)
      requires Valid()
      modifies this`wire, this`core, this`inputBuffer, this`outputBuffer, this`transportReadEnded,
               this`wireBytesRead, this`wireBytesWritten, this`pumps,
               this`output, this`outputOffset, this`writeLength, this`writeAccepted, this`writeRetry,
               this`base, this`reachedAtClose, this`ready, this`readEnded, this`writeEnded,
               this`failed, this`connecting, this`open, this`endpoint
      ensures Valid()
      ensures !asked ==> !Askable() && result == EarlyPeek()
      ensures asked ==>
                && core.calls > old(core.calls) && ready && !connecting && writeRetry != RetryWrite
                && Glimpsed(result)
      ensures old(open && !connecting && !failed) ==> pumps > old(pumps)
      ensures old(connecting && !failed) ==>
                endpoint == Skipped(old(endpoint)) && (connecting <==> old(endpoint == [] || endpoint[0] == 0))
    {
      asked := false;
      var progressed := Progress();
      if progressed == Failed { return ReadFailure, false; }
      if readEnded || (!open && !connecting) { return EndOfFile, false; }
      if !ready || writeRetry == RetryWrite { return TryAgain, false; }
      result := Look();
      asked := true;
    }

    method DropQueue()
      requires Valid() && !Live() && ending
      modifies this`output, this`outputOffset, this`writeLength, this`writeAccepted, this`writeRetry
      ensures Valid() && output == [] && writeRetry == NoRetry
    {
      DropEntry(Ledger());
      output, outputOffset, writeLength, writeAccepted := [], 0, 0, 0;
      writeRetry := NoRetry;
    }

    method Destroy()
      requires Valid()
      modifies this`connecting, this`open, this`ending, this`output, this`outputOffset,
               this`writeLength, this`writeAccepted, this`writeRetry
      ensures Valid() && !open && !connecting && ending && output == [] && writeRetry == NoRetry
    {
      Retire(Ledger(), Live());
      connecting, open, ending := false, false, true;
      DropQueue();
    }
  }

  /** A socket after any calls, failed or not: ciphertext came in order, and the count of received
      bytes is exact if and only if no byte was read that could not be retained, which fails the
      socket. */
  lemma ReceivedIsCounted(t: TlsSocket)
    requires t.Valid()
    ensures t.wire.received == (t.core.taken + t.inputBuffer) + t.wire.unretained && |t.inputBuffer| <= 65536
    ensures t.wireBytesRead == |t.wire.received| <==> t.wire.unretained == []
    ensures t.wire.unretained == [] ==> t.wire.received == t.core.taken + t.inputBuffer
    ensures t.wire.unretained != [] ==> t.failed && t.wire.broken
    ensures t.wireBytesWritten == |t.wire.sent|
  {
    ReceivedIsAccounted(t.Ledger(), t.Live());
    assert (t.core.taken + t.inputBuffer) + [] == t.core.taken + t.inputBuffer;
  }

  /** A socket after any calls: what `Read` has handed out is the plaintext the record layer opened, in
      order, without loss or repetition, and counted; the rest of it is still to be handed out. */
  lemma ReadsDeliverInOrder(t: TlsSocket)
    requires t.Valid()
    ensures t.core.handed <= |t.core.plaintext| && t.delivered + t.core.plaintext[t.core.handed..] == t.core.plaintext
    ensures t.bytesRead == |t.delivered|
  {
    DeliveredIsAccounted(t.Ledger(), t.Live());
  }

  /** A socket after any calls: what the peer can read is a prefix of what `Write` accepted, also of
      a socket that failed or was destroyed, and once writing has ended it is all of it. */
  lemma PeerReadsWhatWasWritten(t: TlsSocket)
    requires t.Valid()
    ensures Reached(t.core.records, |t.wire.sent|) <= Plain(t.core.records) <= t.written
    ensures t.writeEnded ==> Reached(t.core.records, |t.wire.sent|) == t.written
    ensures t.outputBuffer == [] ==> Reached(t.core.records, |t.wire.sent|) == Plain(t.core.records)
  {
    SentIsAccounted(t.Ledger(), t.Live());
  }
}
