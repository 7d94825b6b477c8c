/** The compression loops: a growing output buffer with a one-byte overflow probe, and the loops that
    feed an engine until it has taken what it can and given what it has. */
module Compression {
  import opened Common
  import opened Gzip

  const OUTPUT_LIMIT: nat := 268435456
  const UINT_MAX: nat := 0xffff_ffff
  const Z_FINISH: int := 4
  const Z_BLOCK: int := 5
  const BROTLI_FINISH: int := 2

  datatype Failure = NoMemory | OverLimit | Truncated | Rejected

  datatype Result = Success | Failed(failure: Failure)

  // ---------- the output buffer ----------

  predicate Acceptable(limit: nat, chunk: nat) {
    0 < limit <= OUTPUT_LIMIT && 64 <= chunk <= OUTPUT_LIMIT
  }

  class Output {
    const limit: nat
    const chunk: nat
    var data: seq<Byte>
    var capacity: nat

    /** The allocator's answers, in order; beyond the end of the script it grants everything. */
    const grants: seq<bool>
    var asked: nat
    var denied: bool

    ghost predicate Valid()
      reads this
    {
      Acceptable(limit, chunk) && |data| <= capacity <= limit && (denied ==> false in grants)
    }

    constructor (limit: nat, chunk: nat, grants: seq<bool>)
      requires Acceptable(limit, chunk)
      ensures Valid() && data == [] && !denied
      ensures this.limit == limit && this.chunk == chunk && this.grants == grants
    {
      this.limit, this.chunk, this.grants := limit, chunk, grants;
      data, capacity, asked, denied := [], 0, 0, false;
    }

    method Allocate() returns (granted: bool)
      requires Valid()
      modifies this`asked, this`denied
      ensures Valid() && denied == (old(denied) || !granted)
    {
      granted := asked >= |grants| || grants[asked];
      asked, denied := asked + 1, denied || !granted;
    }

    /** Room for the codec to write to: none only when memory is denied.  A full buffer offers one byte
        that does not count, so that a codec with more to say is found out. */
    method Space() returns (available: nat)
      requires Valid() && !denied
      modifies this`capacity, this`asked, this`denied
      ensures Valid() && available <= chunk
      ensures available == 0 <==> denied
      ensures if |data| == limit then available == 1 else available <= capacity - |data|
    {
      if |data| == limit { return 1; }
      if |data| == capacity {
        var grown := if capacity == 0 then chunk else if capacity > limit / 2 then limit else capacity * 2;
        if grown > limit { grown := limit; }
        var granted := Allocate();
        if !granted { return 0; }
        capacity := grown;
      }
      available := capacity - |data|;
      if available > chunk { available := chunk; }
    }

    method Advance(bytes: seq<Byte>) returns (ok: bool)
      requires Valid() && (|data| < limit ==> |bytes| <= capacity - |data|)
      modifies this`data
      ensures Valid()
      ensures ok <==> |old(data)| + |bytes| <= limit
      ensures data == old(data) + if ok then bytes else []
    {
      if |bytes| > limit - |data| { return false; }
      data := data + bytes;
      return true;
    }
  }

  // ---------- the engine ----------

  datatype Status = Progressing | BufferError | StreamEnd | NeedDictionary | EngineError

  datatype Answer = Answer(consumed: nat, produced: seq<Byte>, status: Status)

  predicate Moved(a: Answer) {
    a.consumed > 0 || a.produced != []
  }

  /** What is assumed of any zlib engine.  `touched` says that the current member has seen progress
      before, and `asked` that it has asked for its dictionary: an engine ends a member, or asks for
      a dictionary, only once it has made progress on it, and asks at most once. */
  predicate Plausible(touched: bool, asked: bool, available: nat, space: nat, a: Answer) {
    && a.consumed <= available && |a.produced| <= space
    && (a.status == StreamEnd || a.status == NeedDictionary ==> touched || Moved(a))
    && (a.status == NeedDictionary ==> !asked)
  }

  /** The answer of `inflate` on concatenated gzip members, moving from `d` to `e`. */
  ghost predicate DecoderAnswers(d: Decoder, e: Decoder, a: Answer)
    requires DecoderInv(d) && DecoderInv(e)
  {
    && d.pos <= e.pos && d.archive == e.archive && Produced(d) <= Produced(e) <= |d.archive.payload|
    && a.consumed == e.pos - d.pos && a.produced == d.archive.payload[Produced(d)..Produced(e)]
    && (if AtEnd(e) then a.status == StreamEnd else a.status == Progressing || a.status == BufferError)
  }

  /** The zlib stream of the code.  Without a decoder it is an arbitrary engine. */
  class Engine {
    var touched: bool
    var asked: bool
    var decoder: Option<Decoder>

    /** Everything the engine ever took and produced, and what it last said: whether it moved, has
        ended the member, wants a dictionary it was not given, refused the one it was offered, accepted
        new parameters, or wants more room to accept them.  An error is for good. */
    ghost var taken: seq<Byte>
    ghost var produced: seq<Byte>
    ghost var moved: bool
    ghost var ended: bool
    ghost var wanting: bool
    ghost var offers: nat
    ghost var refused: bool
    ghost var changed: bool
    ghost var cramped: bool
    ghost var erred: bool

    ghost predicate Valid()
      reads this
    {
      decoder.Some? ==> DecoderInv(decoder.value)
    }

    ghost predicate Ended()
      reads this
      requires Valid()
    {
      decoder.Some? && AtEnd(decoder.value)
    }

    constructor (decoder: Option<Decoder>)
      requires decoder.Some? ==> DecoderInv(decoder.value)
      ensures Valid() && this.decoder == decoder
      ensures taken == produced == [] && !ended && !wanting && !erred
    {
      touched, asked, this.decoder := false, false, decoder;
      taken, produced, moved, ended, wanting := [], [], false, false, false;
      offers, refused, changed, cramped, erred := 0, false, false, false, false;
    }

    method Inflate(available: nat, space: nat, block: bool) returns (a: Answer)
      requires Valid() && decoder.Some? && !AtEnd(decoder.value)
      modifies this`decoder
      ensures Valid() && decoder.Some? && Inflates(old(decoder).value, available, space, block, decoder.value)
      ensures DecoderAnswers(old(decoder).value, decoder.value, a)
      ensures a.consumed <= available && |a.produced| <= space && a.status != NeedDictionary
      ensures a.status == StreamEnd ==> Moved(a)
    {
      var d := decoder.value;
      ghost var one := InflateExists(d, available, space, block);
      var e: Decoder :| Inflates(d, available, space, block, e);
      assert DecoderInv(d) && Inflates(d, available, space, block, e);
      ProducedIsDetermined(e, Consumed(e));
      var short: bool := *;
      a := Answer(e.pos - d.pos, d.archive.payload[Produced(d)..Produced(e)],
                  if AtEnd(e) then StreamEnd else if short then BufferError else Progressing);
      decoder := Some(e);
    }

    /** What the engine answers to a call. */
    method Choose(available: nat, space: nat, block: bool) returns (a: Answer)
      requires Valid() && !Ended()
      modifies this`decoder
      ensures Valid() && Plausible(touched, asked, available, space, a)
      ensures decoder.Some? == old(decoder).Some?
      ensures decoder.Some? ==>
                && Inflates(old(decoder).value, available, space, block, decoder.value)
                && DecoderAnswers(old(decoder).value, decoder.value, a)
    {
      if decoder.Some? {
        a := Inflate(available, space, block);
      } else {
        assert Plausible(touched, asked, available, space, Answer(0, [], BufferError));
        a :| Plausible(touched, asked, available, space, a);
      }
    }

    /** What is known of it after an answer. */
    method Note(rest: seq<Byte>, a: Answer)
      requires a.consumed <= |rest|
      modifies this`touched, this`asked, this`taken, this`produced, this`moved, this`ended,
               this`wanting, this`refused, this`erred
      ensures touched == (old(touched) || Moved(a))
      ensures asked == (old(asked) || a.status == NeedDictionary)
      ensures taken == old(taken) + rest[..a.consumed] && produced == old(produced) + a.produced
      ensures moved == Moved(a) && ended == (a.status == StreamEnd)
      ensures wanting == (a.status == NeedDictionary) && !refused
      ensures erred == (old(erred) || a.status == EngineError)
    {
      touched := touched || Moved(a);
      asked := asked || a.status == NeedDictionary;
      taken, produced, moved := taken + rest[..a.consumed], produced + a.produced, Moved(a);
      ended, wanting, refused := a.status == StreamEnd, a.status == NeedDictionary, false;
      erred := erred || a.status == EngineError;
    }

    /** `deflate` or `inflate` on the bytes of `rest`, of which it takes some from the front. */
    method Call(rest: seq<Byte>, space: nat, block: bool) returns (a: Answer)
      requires Valid() && !Ended()
      modifies this
      ensures Valid() && Plausible(old(touched), old(asked), |rest|, space, a)
      ensures touched == (old(touched) || Moved(a))
      ensures asked == (old(asked) || a.status == NeedDictionary)
      ensures taken == old(taken) + rest[..a.consumed] && produced == old(produced) + a.produced
      ensures moved == Moved(a) && ended == (a.status == StreamEnd)
      ensures wanting == (a.status == NeedDictionary) && !refused
      ensures erred == (old(erred) || a.status == EngineError)
      ensures decoder.Some? == old(decoder).Some?
      ensures decoder.Some? ==>
                && Inflates(old(decoder).value, |rest|, space, block, decoder.value)
                && DecoderAnswers(old(decoder).value, decoder.value, a)
      ensures offers == old(offers)
    {
      a := Choose(|rest|, space, block);
      Note(rest, a);
    }

    /** `inflateSetDictionary`. */
    method SetDictionary() returns (ok: bool)
      modifies this`wanting, this`offers, this`refused
      ensures wanting == refused == !ok && offers == old(offers) + 1
    {
      ok := *;
      wanting, offers, refused := !ok, offers + 1, !ok;
    }

    /** `deflateParams`: it may have to flush first, and says so by filling the space it is given. */
    method ChangeParameters(space: nat) returns (output: seq<Byte>, status: Status)
      modifies this`produced, this`changed, this`cramped
      ensures |output| <= space
      ensures produced == old(produced) + output && changed == (status == Progressing)
      ensures cramped == (status == BufferError && |output| == space)
    {
      output, status := *, *;
      if |output| > space { output := output[..space]; }
      produced, changed := produced + output, status == Progressing;
      cramped := status == BufferError && |output| == space;
    }

    /** `inflateReset2`, after which the next member is expected. */
    method Reset()
      requires Valid() && (decoder.Some? ==> decoder.value.member + 1 < |decoder.value.archive.members|)
      modifies this`touched, this`asked, this`decoder, this`ended
      ensures Valid() && !touched && !asked && !ended
      ensures decoder == if old(decoder).None? then None
                         else Some(old(decoder).value.(member := old(decoder).value.member + 1, pos := 0, out := 0))
    {
      touched, asked, ended := false, false, false;
      if decoder.Some? {
        decoder := Some(decoder.value.(member := decoder.value.member + 1, pos := 0, out := 0));
      }
    }
  }

  // ---------- what one answer does to a write ----------

  /** How the loop reacts to an answer that fits into the output; `wanting` says that a dictionary was
      asked for and not supplied. */
  ghost predicate Judged(
    a: Answer, finish: bool, next: seq<Byte>, available: nat, finished: bool, wanting: bool, stop: Option<Result>)
  {
    && (finished <==> a.status == StreamEnd)
    && (wanting ==> a.status == NeedDictionary)
    && match a.status
       case StreamEnd => stop == None
       case EngineError => stop == Some(Failed(Rejected))
       case NeedDictionary => stop == if wanting then Some(Failed(Rejected)) else None
       case _ =>
         stop == if !finish && next == [] && |a.produced| < available then Some(Success)
                 else if !Moved(a) then Some(Failed(Truncated)) else None
  }

  /** What is left of the input, and what the buffer holds, after an answer. */
  function Left(rest: seq<Byte>, a: Answer): seq<Byte>
    requires a.consumed <= |rest|
  {
    rest[a.consumed..]
  }

  function Kept(data: seq<Byte>, a: Answer, maximum: nat): seq<Byte> {
    if |data| + |a.produced| > maximum then data else data + a.produced
  }

  /** A configured dictionary is offered exactly once for a request whose answer fits. */
  function Offers(a: Answer, data: seq<Byte>, maximum: nat, dictionary: bool): nat {
    if a.status == NeedDictionary && dictionary && |data| + |a.produced| <= maximum then 1 else 0
  }

  ghost predicate JudgedWithin(
    data: seq<Byte>, a: Answer, finish: bool, next: seq<Byte>, available: nat, finished: bool, wanting: bool,
    stop: Option<Result>, maximum: nat)
  {
    if |data| + |a.produced| > maximum then stop == Some(Failed(OverLimit))
    else Judged(a, finish, next, available, finished, wanting, stop)
  }

  /** Why a write goes on, succeeds or fails, in terms of what the engine and the allocator said: it
      succeeds only if no call ended in an error or wants a dictionary, and then either the stream has
      ended and no gzip member follows in what is left, or all input is taken and more may come. */
  ghost predicate Justified(
    stop: Option<Result>, finish: bool, gzip: bool, finished: bool, next: seq<Byte>,
    ended: bool, erred: bool, wanting: bool, moved: bool, denied: bool)
  {
    && (stop == Some(Failed(OverLimit)) || finished == ended)
    && (denied <==> stop == Some(Failed(NoMemory)))
    && (stop != Some(Failed(OverLimit)) ==> (erred || wanting <==> stop == Some(Failed(Rejected))))
    && (stop == Some(Success) ==>
          if finished then !gzip || next == [] || next[0] == 0 else !finish && next == [])
    && (stop == Some(Failed(Truncated)) ==> !finished && !moved && (finish || next != []))
  }

  lemma JudgedIsJustified(
    data: seq<Byte>, a: Answer, finish: bool, gzip: bool, next: seq<Byte>, available: nat, finished: bool,
    wanting: bool, stop: Option<Result>, maximum: nat)
    requires JudgedWithin(data, a, finish, next, available, finished, wanting, stop, maximum) && available > 0
    ensures Justified(stop, finish, gzip, finished, next, a.status == StreamEnd, a.status == EngineError, wanting,
                      Moved(a), false)
  {
  }

  /** Input and output are accounted for: what is left is the end of the input, and the buffer holds
      everything produced, unless that was too much. */
  ghost predicate Accounted(
    rest: seq<Byte>, next: seq<Byte>, before: seq<Byte>, data: seq<Byte>, produced: seq<Byte>,
    stop: Option<Result>, maximum: nat)
  {
    && |next| <= |rest| && next == rest[|rest| - |next|..]
    && |data| <= maximum
    && (stop == Some(Failed(OverLimit)) <==> |before| + |produced| > maximum)
    && (stop != Some(Failed(OverLimit)) ==> data == before + produced)
  }

  lemma AccountNothing(rest: seq<Byte>, data: seq<Byte>, stop: Option<Result>, maximum: nat)
    requires |data| <= maximum && stop != Some(Failed(OverLimit))
    ensures Accounted(rest, rest, data, data, [], stop, maximum)
  {
    assert data + [] == data;
  }

  lemma AccountMore(
    input: seq<Byte>, rest: seq<Byte>, next: seq<Byte>, middle: seq<Byte>, data: seq<Byte>,
    emitted: seq<Byte>, produced: seq<Byte>, stop: Option<Result>, maximum: nat)
    requires Accounted(input, rest, [], middle, emitted, None, maximum)
    requires Accounted(rest, next, middle, data, produced, stop, maximum)
    ensures Accounted(input, next, [], data, emitted + produced, stop, maximum)
  {
    assert [] + emitted == emitted;
    assert [] + (emitted + produced) == emitted + produced;
  }

  lemma AccountStep(
    rest: seq<Byte>, a: Answer, data: seq<Byte>, finish: bool, available: nat, finished: bool, wanting: bool,
    stop: Option<Result>, maximum: nat)
    requires a.consumed <= |rest| && |data| <= maximum
    requires JudgedWithin(data, a, finish, Left(rest, a), available, finished, wanting, stop, maximum)
    ensures Accounted(rest, Left(rest, a), data, Kept(data, a, maximum), a.produced, stop, maximum)
    ensures stop != Some(Failed(NoMemory))
    ensures |Left(rest, a)| + |data| <= |rest| + |Kept(data, a, maximum)|
    ensures stop.None? && Moved(a) ==> |Left(rest, a)| + |data| < |rest| + |Kept(data, a, maximum)|
    ensures stop.None? && !Moved(a) ==> Left(rest, a) == rest && Kept(data, a, maximum) == data
  {
  }

  // ---------- a write on gzip members ----------

  /** The write loop's view of a tracked decoder: the flag says that the member has ended, and a
      member that has been entered has been consumed from. */
  ghost predicate Tracked(
    given: nat, target: nat, d: Decoder, finished: bool, rest: seq<Byte>, data: seq<Byte>)
  {
    && Underway(given, target, d, rest, data)
    && (finished <==> AtEnd(d))
    && (d.pos > 0 || d.member == 0)
  }

  /** A decoder between two writes. */
  ghost predicate Resting(d: Decoder, finished: bool) {
    && DecoderInv(d) && Drained(d)
    && (finished <==> AtEnd(d))
    && (d.pos > 0 || d.member == 0)
  }

  /** The decoder stands inside a member, or at the start of one with input to enter it. */
  ghost predicate Enterable(given: nat, target: nat, d: Decoder, rest: seq<Byte>, data: seq<Byte>) {
    && Underway(given, target, d, rest, data) && !AtEnd(d)
    && (d.pos > 0 || d.member == 0 || rest != [])
  }

  lemma RestAfter(rest: seq<Byte>, n: nat)
    requires n <= |rest|
    ensures rest[n..] == [] <==> n == |rest|
  {
  }

  lemma CallEnters(d: Decoder, available: nat, space: nat, block: bool, e: Decoder)
    requires DecoderInv(d) && Inflates(d, available, space, block, e) && space > 0
    requires d.pos > 0 || d.member == 0 || available > 0
    ensures e.pos > 0 || e.member == 0
  {
    assert WellFormed(d.archive.members[d.member]);
  }

  /** One call of a tracked decoder: it stays under way; if it has taken all input and left room without
      ending the member, it has produced all that determines; and unless it was stopped at a block
      boundary, not taking all input means that the room is full or the member has ended. */
  lemma CallTracks(
    given: nat, target: nat, d: Decoder, e: Decoder, space: nat, block: bool, rest: seq<Byte>, data: seq<Byte>,
    a: Answer)
    requires Enterable(given, target, d, rest, data) && Inflates(d, |rest|, space, block, e) && space > 0
    requires DecoderAnswers(d, e, a)
    ensures Underway(given, target, e, rest[a.consumed..], data + a.produced)
    ensures |a.produced| < space && !AtEnd(e) ==> Moved(a) || (rest[a.consumed..] == [] && Drained(e))
    ensures |a.produced| < space && !AtEnd(e) && rest[a.consumed..] == [] ==> Drained(e)
    ensures e.pos > 0 || e.member == 0
  {
    CallMoves(given, target, d, e, space, block, rest, data);
    CallEnters(d, |rest|, space, block, e);
    RestAfter(rest, e.pos - d.pos);
  }

  /** What it means for the loop to stop on a tracked decoder. */
  ghost predicate TrackedStop(stop: Option<Result>, finish: bool, d: Decoder, next: seq<Byte>)
    requires DecoderInv(d)
  {
    && (stop == Some(Success) ==> next == [] && Drained(d) && (finish ==> AtEnd(d)))
    && (stop == Some(Failed(Truncated)) ==> next == [] && finish && !AtEnd(d) && Drained(d))
    && stop != Some(Failed(Rejected))
  }

  /** Where an iteration leaves a tracked decoder. */
  ghost predicate TrackedAfter(
    archive: Archive, given: nat, target: nat, d: Decoder, finished: bool, next: seq<Byte>, data: seq<Byte>,
    stop: Option<Result>, finish: bool, maximum: nat)
  {
    && DecoderInv(d) && d.archive == archive
    && if stop == Some(Failed(OverLimit)) then Consumed(d) <= target && given + maximum < Produced(d) else
       && Tracked(given, target, d, finished, next, data)
       && TrackedStop(stop, finish, d, next)
  }

  lemma JudgedTracks(
    given: nat, target: nat, d: Decoder, e: Decoder, space: nat, block: bool, rest: seq<Byte>, data: seq<Byte>,
    a: Answer, finished: bool, wanting: bool, stop: Option<Result>, finish: bool, maximum: nat)
    requires Enterable(given, target, d, rest, data) && Inflates(d, |rest|, space, block, e) && space > 0
    requires DecoderAnswers(d, e, a)
    requires JudgedWithin(data, a, finish, Left(rest, a), space, finished, wanting, stop, maximum)
    ensures TrackedAfter(d.archive, given, target, e, finished, Left(rest, a), Kept(data, a, maximum),
                         stop, finish, maximum)
  {
    CallTracks(given, target, d, e, space, block, rest, data, a);
  }

  /** A write of `length` bytes from position `before` delivered just what those bytes determine, and
      succeeded exactly when that fits (and ends a member, if it was declared to be the end). */
  ghost predicate WroteDetermined(
    a: Archive, before: nat, length: nat, finish: bool, maximum: nat,
    result: Result, data: seq<Byte>, consumed: nat, d: Decoder)
  {
    && ArchiveInv(a) && DecoderInv(d)
    && Determined(a, before) <= Determined(a, before + length) <= |a.payload|
    && (result.Success? ==>
          && consumed == length && Consumed(d) == before + length
          && data == a.payload[Determined(a, before)..Determined(a, before + length)])
    && (result.Success? <==>
          && Determined(a, before + length) - Determined(a, before) <= maximum
          && (finish ==> EndsMember(a, before + length)))
  }

  /** What a whole write on a tracked decoder comes to, whatever the sizes of the engine's steps and of
      the buffer were: it succeeds exactly when what the new input determines fits, and, if the
      stream was declared finished, when it ends with a member; and then it delivers just that. */
  lemma WriteComesTo(
    archive: Archive, given: nat, target: nat, d: Decoder, finished: bool, next: seq<Byte>, data: seq<Byte>,
    result: Result, finish: bool, maximum: nat)
    requires TrackedAfter(archive, given, target, d, finished, next, data, Some(result), finish, maximum)
    requires result != Failed(NoMemory) && |data| <= maximum
    ensures result.Success? ==>
              && next == [] && Consumed(d) == target && Drained(d)
              && given <= Determined(archive, target) <= |archive.payload|
              && data == archive.payload[given..Determined(archive, target)]
    ensures result.Success? <==>
            Determined(archive, target) - given <= maximum && (finish ==> EndsMember(archive, target))
  {
    ProducedIsDetermined(d, target);
    match result
    case Success =>
      if finish { AtEndEndsMember(d); }
    case Failed(OverLimit) =>
    case Failed(_) =>
      InsideEndsNoMember(d);
  }

  lemma WriteDelivers(
    archive: Archive, before: nat, length: nat, d: Decoder, finished: bool, next: seq<Byte>, data: seq<Byte>,
    result: Result, finish: bool, maximum: nat, consumed: nat)
    requires ArchiveInv(archive)
    requires Determined(archive, before) <= Determined(archive, before + length) <= |archive.payload|
    requires TrackedAfter(archive, Determined(archive, before), before + length, d, finished, next, data,
                          Some(result), finish, maximum)
    requires result != Failed(NoMemory) && |data| <= maximum && consumed + |next| == length
    ensures WroteDetermined(archive, before, length, finish, maximum,
                            result, if result.Success? then data else [], consumed, d)
    ensures result.Success? ==> Resting(d, finished)
  {
    WriteComesTo(archive, Determined(archive, before), before + length, d, finished, next, data,
                 result, finish, maximum);
  }

  lemma StartsTracked(d: Decoder, finished: bool, input: seq<Byte>)
    requires Resting(d, finished)
    requires Consumed(d) + |input| <= |d.archive.stream|
    requires input == d.archive.stream[Consumed(d)..Consumed(d) + |input|]
    ensures Tracked(Determined(d.archive, Consumed(d)), Consumed(d) + |input|, d, finished, input, [])
    ensures Determined(d.archive, Consumed(d)) <= Determined(d.archive, Consumed(d) + |input|) <= |d.archive.payload|
  {
    ProducedIsDetermined(d, Consumed(d) + |input|);
  }

  // ---------- the codec ----------

  /** The parameters of a compression stream that may be set while it runs. */
  predicate ValidParameters(level: int, strategy: int) {
    -1 <= level <= 9 && 0 <= strategy <= 4
  }

  lemma Append(log: seq<Byte>, before: seq<Byte>, more: seq<Byte>)
    ensures (log + before) + more == log + (before + more)
  {
  }

  /** The log of bytes taken grew from `before` to `after` by what lies between `rest` and `next`. */
  ghost predicate Took(before: seq<Byte>, after: seq<Byte>, rest: seq<Byte>, next: seq<Byte>) {
    |next| <= |rest| && after == before + rest[..|rest| - |next|]
  }

  lemma TookNothing(log: seq<Byte>, rest: seq<Byte>)
    ensures Took(log, log, rest, rest)
  {
    assert rest[..0] == [];
  }

  lemma TookMore(
    before: seq<Byte>, middle: seq<Byte>, after: seq<Byte>, input: seq<Byte>, rest: seq<Byte>, next: seq<Byte>)
    requires Took(before, middle, input, rest) && rest == input[|input| - |rest|..] && Took(middle, after, rest, next)
    ensures Took(before, after, input, next)
  {
    var i, j := |input| - |rest|, |input| - |next|;
    assert rest[..|rest| - |next|] == input[i..j];
    SliceJoins(input, 0, i, j);
    Append(before, input[..i], input[i..j]);
  }

  class Codec {
    const maximum: nat
    const chunk: nat
    const compressing: bool
    const dictionary: bool
    const engine: Engine
    const gzip: bool
    var finished: bool
    var failed: bool

    ghost predicate Valid()
      reads this, engine
    {
      && Acceptable(maximum, chunk) && engine.Valid()
      && (!failed ==> finished == engine.ended && !engine.erred && !engine.wanting)
      && (engine.decoder.Some? && !failed ==> !compressing && gzip && Resting(engine.decoder.value, finished))
    }

    constructor (maximum: nat, chunk: nat, compressing: bool, gzip: bool, dictionary: bool, decoder: Option<Decoder>)
      requires Acceptable(maximum, chunk) && (gzip ==> !compressing)
      requires decoder.Some? ==> gzip && DecoderInv(decoder.value) && decoder.value.member == decoder.value.pos == 0
      ensures Valid() && !failed && !finished && fresh(engine) && engine.decoder == decoder
    {
      this.maximum, this.chunk := maximum, chunk;
      this.compressing, this.gzip, this.dictionary := compressing, gzip, dictionary;
      engine := new Engine(decoder);
      finished, failed := false, false;
    }

    /** The order in which iterations without progress can follow one another. */
    ghost function Rank(): nat
      reads this, engine
    {
      if finished then 1 else if !engine.touched then 0 else if !engine.asked then 3 else 2
    }

    /** What the loop makes of an answer; `None` is another turn. */
    method Judge(a: Answer, finish: bool, next: seq<Byte>, available: nat) returns (stop: Option<Result>)
      requires !finished && engine.wanting == (a.status == NeedDictionary) && !engine.refused
      modifies this`finished, engine`wanting, engine`offers, engine`refused
      ensures stop.None? ==> Moved(a) || a.status in {StreamEnd, NeedDictionary}
      ensures Judged(a, finish, next, available, finished, engine.wanting, stop)
      ensures engine.offers == old(engine.offers) + if a.status == NeedDictionary && dictionary then 1 else 0
      ensures a.status == NeedDictionary ==> (stop.None? <==> dictionary && !engine.refused)
      ensures engine.wanting ==> !dictionary || engine.refused
    {
      if a.status == NeedDictionary && dictionary {
        var applied := engine.SetDictionary();
        if applied { return None; }
      }
      if a.status == StreamEnd {
        finished := true;
        return None;
      }
      if a.status != Progressing && a.status != BufferError { return Some(Failed(Rejected)); }
      if !finish && next == [] && |a.produced| < available { return Some(Success); }
      if a.consumed == 0 && a.produced == [] { return Some(Failed(Truncated)); }
      return None;
    }

    /** The second half of an iteration: call the engine, keep its output, judge its answer. */
    method Step(rest: seq<Byte>, flush: int, output: Output, available: nat)
      returns (next: seq<Byte>, stop: Option<Result>, ghost a: Answer)
      requires engine.Valid() && !engine.Ended() && output.Valid() && output.limit == maximum && !finished
      requires 0 < available && (|output.data| < maximum ==> available <= output.capacity - |output.data|)
      modifies this`finished, engine, output`data
      ensures engine.Valid() && output.Valid() && engine.decoder.Some? == old(engine.decoder).Some?
      ensures a.consumed <= |rest| && next == Left(rest, a)
      ensures output.data == Kept(old(output.data), a, maximum)
      ensures JudgedWithin(old(output.data), a, flush == Z_FINISH, next, available, finished, engine.wanting,
                           stop, maximum)
      ensures Took(old(engine.taken), engine.taken, rest, next)
      ensures engine.produced == old(engine.produced) + a.produced && engine.moved == Moved(a)
      ensures engine.ended == (a.status == StreamEnd)
      ensures engine.erred == (old(engine.erred) || a.status == EngineError)
      ensures engine.offers == old(engine.offers) + Offers(a, old(output.data), maximum, dictionary)
      ensures stop != Some(Failed(OverLimit)) && engine.wanting ==> !dictionary || engine.refused
      ensures stop.None? ==> Moved(a) || (old(engine.touched) && Rank() < old(Rank()))
      ensures engine.decoder.Some? ==>
                && Inflates(old(engine.decoder).value, |rest|, available, flush == Z_BLOCK, engine.decoder.value)
                && DecoderAnswers(old(engine.decoder).value, engine.decoder.value, a)
    {
      var answer := engine.Call(rest, available, flush == Z_BLOCK);
      a := answer;
      next := rest[answer.consumed..];
      var ok := output.Advance(answer.produced);
      if !ok { return next, Some(Failed(OverLimit)), a; }
      stop := Judge(answer, flush == Z_FINISH, next, available);
    }

    /** The first half: a finished codec returns, unless another gzip member follows. */
    method Enter(rest: seq<Byte>, ghost given: nat, ghost target: nat, ghost data: seq<Byte>) returns (done: bool)
      requires engine.Valid() && finished == engine.ended
      requires engine.decoder.Some? ==> gzip && Tracked(given, target, engine.decoder.value, finished, rest, data)
      modifies this`finished, engine`touched, engine`asked, engine`decoder, engine`ended
      ensures engine.Valid() && engine.decoder.Some? == old(engine.decoder).Some? && finished == engine.ended
      ensures done ==> old(finished) && finished && engine.decoder == old(engine.decoder)
      ensures done <==> old(finished) && (!gzip || rest == [] || rest[0] == 0)
      ensures done && engine.decoder.Some? ==> rest == []
      ensures !done && old(finished) ==> !engine.touched
      ensures !old(finished) ==> engine.touched == old(engine.touched) && engine.asked == old(engine.asked)
      ensures !done ==> !finished
      ensures !done && engine.decoder.Some? ==>
                && engine.decoder.value.archive == old(engine.decoder).value.archive
                && Enterable(given, target, engine.decoder.value, rest, data)
    {
      if !finished { return false; }
      if !gzip || rest == [] { return true; }
      if engine.decoder.Some? { NextMember(given, target, engine.decoder.value, rest, data); }
      if rest[0] == 0 { return true; }
      engine.Reset();
      finished := false;
      return false;
    }

    /** The state of the engine justifies what the loop does next. */
    ghost predicate Explains(stop: Option<Result>, flush: int, next: seq<Byte>, denied: bool)
      reads this, engine
    {
      && Justified(stop, flush == 4, gzip, finished, next,
                   engine.ended, engine.erred, engine.wanting, engine.moved, denied)
      && (stop == Some(Failed(Rejected)) && !engine.erred ==> !dictionary || engine.refused)
    }

    /** The second half with what it comes to, for the engine, the accounts and a tracked decoder. */
    method Work(rest: seq<Byte>, flush: int, output: Output, available: nat,
                ghost archive: Archive, ghost given: nat, ghost target: nat)
      returns (next: seq<Byte>, stop: Option<Result>, ghost produced: seq<Byte>)
      requires engine.Valid() && output.Valid() && output.limit == maximum
      requires 0 < available && (|output.data| < maximum ==> available <= output.capacity - |output.data|)
      requires !finished && !engine.erred
      requires engine.decoder.Some? ==>
                 engine.decoder.value.archive == archive &&
                 Enterable(given, target, engine.decoder.value, rest, output.data)
      modifies this`finished, engine, output`data
      ensures engine.Valid() && output.Valid() && engine.decoder.Some? == old(engine.decoder).Some?
      ensures engine.produced == old(engine.produced) + produced && Explains(stop, flush, next, false)
      ensures Took(old(engine.taken), engine.taken, rest, next)
      ensures Accounted(rest, next, old(output.data), output.data, produced, stop, maximum)
      ensures stop.None? ==>
                || |next| + |old(output.data)| < |rest| + |output.data|
                || (&& next == rest && output.data == old(output.data)
                    && old(engine.touched) && Rank() < old(Rank()))
      ensures engine.decoder.Some? ==>
                TrackedAfter(archive, given, target, engine.decoder.value, finished, next, output.data,
                             stop, flush == Z_FINISH, maximum)
    {
      ghost var before, data, a := engine.decoder, output.data, Answer(0, [], BufferError);
      next, stop, a := Step(rest, flush, output, available);
      produced := a.produced;
      AccountStep(rest, a, data, flush == Z_FINISH, available, finished, engine.wanting, stop, maximum);
      JudgedIsJustified(data, a, flush == Z_FINISH, gzip, next, available, finished, engine.wanting, stop, maximum);
      if before.Some? {
        JudgedTracks(given, target, before.value, engine.decoder.value, available, flush == Z_BLOCK, rest, data, a,
                     finished, engine.wanting, stop, flush == Z_FINISH, maximum);
      }
    }

    /** One iteration, given room for the output.  `stop` is the loop's result, if it returns. */
    method Turn(rest: seq<Byte>, flush: int, output: Output, available: nat,
                ghost archive: Archive, ghost given: nat, ghost target: nat)
      returns (next: seq<Byte>, stop: Option<Result>, ghost produced: seq<Byte>)
      requires engine.Valid() && output.Valid() && output.limit == maximum
      requires 0 < available && (|output.data| < maximum ==> available <= output.capacity - |output.data|)
      requires finished == engine.ended && !engine.erred && !engine.wanting
      requires engine.decoder.Some? ==>
                 gzip && engine.decoder.value.archive == archive &&
                 Tracked(given, target, engine.decoder.value, finished, rest, output.data)
      modifies this`finished, engine, output`data
      ensures engine.Valid() && output.Valid() && engine.decoder.Some? == old(engine.decoder).Some?
      ensures engine.produced == old(engine.produced) + produced && Explains(stop, flush, next, false)
      ensures Took(old(engine.taken), engine.taken, rest, next)
      ensures Accounted(rest, next, old(output.data), output.data, produced, stop, maximum)
      ensures stop.None? ==>
                || |next| + |old(output.data)| < |rest| + |output.data|
                || (next == rest && output.data == old(output.data) && Rank() < old(Rank()))
      ensures engine.decoder.Some? ==>
                TrackedAfter(archive, given, target, engine.decoder.value, finished, next, output.data,
                             stop, flush == Z_FINISH, maximum)
    {
      var done := Enter(rest, given, target, output.data);
      if done {
        AccountNothing(rest, output.data, Some(Success), maximum);
        TookNothing(engine.taken, rest);
        assert engine.produced + [] == engine.produced;
        return rest, Some(Success), [];
      }
      next, stop, produced := Work(rest, flush, output, available, archive, given, target);
    }

    /** One iteration from its beginning: find room, then take the turn. */
    method Round(rest: seq<Byte>, flush: int, output: Output,
                 ghost archive: Archive, ghost given: nat, ghost target: nat)
      returns (next: seq<Byte>, stop: Option<Result>, ghost produced: seq<Byte>)
      requires engine.Valid() && output.Valid() && output.limit == maximum && !output.denied
      requires finished == engine.ended && !engine.erred && !engine.wanting
      requires engine.decoder.Some? ==>
                 gzip && TrackedAfter(archive, given, target, engine.decoder.value, finished, rest, output.data,
                                      None, flush == Z_FINISH, maximum)
      modifies this`finished, engine, output
      ensures engine.Valid() && output.Valid() && engine.decoder.Some? == old(engine.decoder).Some?
      ensures engine.produced == old(engine.produced) + produced && Explains(stop, flush, next, output.denied)
      ensures Took(old(engine.taken), engine.taken, rest, next)
      ensures Accounted(rest, next, old(output.data), output.data, produced, stop, maximum)
      ensures stop.None? ==>
                || |next| + |old(output.data)| < |rest| + |output.data|
                || (next == rest && output.data == old(output.data) && Rank() < old(Rank()))
      ensures engine.decoder.Some? ==>
                TrackedAfter(archive, given, target, engine.decoder.value, finished, next, output.data,
                             stop, flush == Z_FINISH, maximum)
    {
      var available := output.Space();
      if available == 0 {
        AccountNothing(rest, output.data, Some(Failed(NoMemory)), maximum);
        TookNothing(engine.taken, rest);
        assert engine.produced + [] == engine.produced;
        return rest, Some(Failed(NoMemory)), [];
      }
      next, stop, produced := Turn(rest, flush, output, available, archive, given, target);
    }

    /** The zlib loop.  It ends because every turn that does not return consumes input, produces
        output, or moves on in the member's life; `emitted` is what the engine produced meanwhile. */
    method WriteZlib(input: seq<Byte>, flush: int, output: Output,
                     ghost archive: Archive, ghost given: nat, ghost target: nat)
      returns (result: Result, consumed: nat, ghost emitted: seq<Byte>)
      requires engine.Valid() && output.Valid() && output.limit == maximum && output.data == [] && !output.denied
      requires finished == engine.ended && !engine.erred && !engine.wanting
      requires engine.decoder.Some? ==>
                 gzip && engine.decoder.value.archive == archive &&
                 Tracked(given, target, engine.decoder.value, finished, input, [])
      modifies this`finished, engine, output
      ensures engine.Valid() && output.Valid() && engine.decoder.Some? == old(engine.decoder).Some?
      ensures consumed <= |input|
      ensures engine.taken == old(engine.taken) + input[..consumed]
      ensures engine.produced == old(engine.produced) + emitted
      ensures result == Failed(OverLimit) <==> |emitted| > maximum
      ensures result != Failed(OverLimit) ==> output.data == emitted
      ensures Explains(Some(result), flush, input[consumed..], output.denied)
      ensures engine.decoder.Some? ==>
                TrackedAfter(archive, given, target, engine.decoder.value, finished, input[consumed..], output.data,
                             Some(result), flush == Z_FINISH, maximum)
    {
      var rest, stop := input, None;
      emitted := [];
      AccountNothing(input, [], None, maximum);
      TookNothing(engine.taken, input);
      assert engine.produced + [] == engine.produced;
      while stop.None?
        invariant engine.Valid() && output.Valid() && engine.decoder.Some? == old(engine.decoder).Some?
        invariant Accounted(input, rest, [], output.data, emitted, stop, maximum)
        invariant engine.produced == old(engine.produced) + emitted && Explains(stop, flush, rest, output.denied)
        invariant Took(old(engine.taken), engine.taken, input, rest)
        invariant engine.decoder.Some? ==>
            TrackedAfter(archive, given, target, engine.decoder.value, finished, rest, output.data,
                         stop, flush == Z_FINISH, maximum)
        decreases stop.None?, |rest| + (maximum - |output.data|), Rank()
      {
        ghost var data, produced, taken := output.data, [], engine.taken;
        var next;
        next, stop, produced := Round(rest, flush, output, archive, given, target);
        AccountMore(input, rest, next, data, output.data, emitted, produced, stop, maximum);
        Append(old(engine.produced), emitted, produced);
        TookMore(old(engine.taken), taken, engine.taken, input, rest, next);
        rest, emitted := next, emitted + produced;
      }
      result, consumed := stop.value, |input| - |rest|;
    }

    /** The input continues the archive where the decoder stands. */
    ghost predicate Feeds(input: seq<Byte>)
      reads this, engine
      requires engine.Valid()
    {
      engine.decoder.Some? ==>
        var d := engine.decoder.value;
        Consumed(d) + |input| <= |d.archive.stream| &&
        input == d.archive.stream[Consumed(d)..Consumed(d) + |input|]
    }

    ghost function Position(): nat
      reads this, engine
      requires engine.Valid() && engine.decoder.Some?
    {
      Consumed(engine.decoder.value)
    }

    /** The arguments and states a write rejects without touching the codec. */
    ghost predicate Refuses(input: seq<Byte>, flush: int)
      reads this
    {
      failed || |input| > 4_294_967_295 || !(0 <= flush <= 5) || (finished && compressing && input != [])
    }

    method WriteOpen(input: seq<Byte>, flush: int, grants: seq<bool>)
      returns (result: Result, data: seq<Byte>, consumed: nat, ghost emitted: seq<Byte>)
      requires Valid() && !failed && Feeds(input)
      modifies this`finished, this`failed, engine
      ensures Valid() && engine.decoder.Some? == old(engine.decoder).Some?
      ensures engine.decoder.Some? ==> engine.decoder.value.archive == old(engine.decoder).value.archive
      ensures failed == (result != Success) && consumed <= |input|
      ensures Explains(Some(result), flush, input[consumed..], result == Failed(NoMemory))
      ensures consumed <= |input| && engine.taken == old(engine.taken) + input[..consumed]
      ensures engine.produced == old(engine.produced) + emitted
      ensures result == Failed(OverLimit) <==> |emitted| > maximum
      ensures result == Failed(NoMemory) ==> false in grants
      ensures data == if result == Success then emitted else []
      ensures engine.decoder.Some? && result != Failed(NoMemory) ==>
                WroteDetermined(engine.decoder.value.archive, old(Position()), |input|, flush == Z_FINISH, maximum,
                                result, data, consumed, engine.decoder.value)
    {
      var output := new Output(maximum, chunk, grants);
      ghost var archive, given, target := Archive([], [], [], [0], [0]), 0, 0;
      if engine.decoder.Some? {
        archive := engine.decoder.value.archive;
        given, target := Determined(archive, Position()), Position() + |input|;
        StartsTracked(engine.decoder.value, finished, input);
      }
      result, consumed, emitted := WriteZlib(input, flush, output, archive, given, target);
      if engine.decoder.Some? && result != Failed(NoMemory) {
        WriteDelivers(archive, old(Position()), |input|, engine.decoder.value, finished, input[consumed..], output.data,
                      result, flush == Z_FINISH, maximum, consumed);
      }
      failed := result != Success;
      data := if failed then [] else output.data;
    }

    /** One write: `data` is everything the engine produced during it, or nothing if the write fails,
        which also fails the codec.  On concatenated gzip members it delivers what its input
        determines. */
    method Write(input: seq<Byte>, flush: int, grants: seq<bool>)
      returns (result: Result, data: seq<Byte>, consumed: nat, ghost emitted: seq<Byte>)
      requires Valid() && (!failed ==> Feeds(input))
      modifies this, engine
      ensures Valid() && engine.decoder.Some? == old(engine.decoder).Some?
      ensures engine.decoder.Some? ==> engine.decoder.value.archive == old(engine.decoder).value.archive
      ensures old(Refuses(input, flush)) ==>
                && result == Failed(Rejected) && emitted == [] && consumed == 0
                && failed == old(failed) && finished == old(finished) && engine.decoder == old(engine.decoder)
      ensures !old(Refuses(input, flush)) ==>
                && failed == (result != Success) && consumed <= |input|
                && Explains(Some(result), flush, input[consumed..], result == Failed(NoMemory))
      ensures consumed <= |input| && engine.taken == old(engine.taken) + input[..consumed]
      ensures engine.produced == old(engine.produced) + emitted
      ensures result == Failed(OverLimit) <==> |emitted| > maximum
      ensures result == Failed(NoMemory) ==> false in grants
      ensures data == if result == Success then emitted else []
      ensures engine.decoder.Some? && !old(Refuses(input, flush)) && result != Failed(NoMemory) ==>
                WroteDetermined(engine.decoder.value.archive, old(Position()), |input|, flush == Z_FINISH, maximum,
                                result, data, consumed, engine.decoder.value)
    {
      if failed || |input| > UINT_MAX || flush < 0 || flush > Z_BLOCK || (finished && compressing && input != []) {
        TookNothing(engine.taken, input);
        assert engine.produced + [] == engine.produced;
        return Failed(Rejected), [], 0, [];
      }
      result, data, consumed, emitted := WriteOpen(input, flush, grants);
    }

    ghost predicate RefusesParameters(level: int, strategy: int)
      reads this
    {
      failed || finished || !compressing || !(-1 <= level <= 9) || !(0 <= strategy <= 4)
    }

    method FlushForParameters(output: Output) returns (result: Result, ghost emitted: seq<Byte>)
      requires output.Valid() && output.limit == maximum && output.data == [] && !output.denied
      modifies output, engine`produced, engine`changed, engine`cramped
      ensures output.Valid()
      ensures engine.produced == old(engine.produced) + emitted
      ensures result == Failed(OverLimit) <==> |emitted| > maximum
      ensures result != Failed(OverLimit) ==> output.data == emitted
      ensures result == Failed(NoMemory) <==> output.denied
      ensures result == Success ==> engine.changed
      ensures result == Failed(Rejected) ==> !engine.changed && !engine.cramped
      ensures result != Failed(Truncated)
    {
      emitted := [];
      assert engine.produced + [] == engine.produced;
      while true
        invariant output.Valid() && output.data == emitted && !output.denied
        invariant engine.produced == old(engine.produced) + emitted
        decreases maximum - |output.data|
      {
        var available := output.Space();
        if available == 0 { return Failed(NoMemory), emitted; }
        var produced, status := engine.ChangeParameters(available);
        var ok := output.Advance(produced);
        Append(old(engine.produced), emitted, produced);
        emitted := emitted + produced;
        if !ok { return Failed(OverLimit), emitted; }
        if status == Progressing { return Success, emitted; }
        if status != BufferError || |produced| < available { return Failed(Rejected), emitted; }
      }
    }

    /** Change the parameters of a running compression: the output flushed on the way is delivered
        complete and within the limit, or the codec fails.  The loop ends because it goes on only
        after a turn that has filled its space. */
    method UpdateParameters(level: int, strategy: int, grants: seq<bool>)
      returns (result: Result, data: seq<Byte>, ghost emitted: seq<Byte>)
      requires Valid()
      modifies this`failed, engine`produced, engine`changed, engine`cramped
      ensures Valid() && failed == (old(failed) || (result != Success && !old(RefusesParameters(level, strategy))))
      ensures old(RefusesParameters(level, strategy)) ==> result == Failed(Rejected) && emitted == []
      ensures engine.produced == old(engine.produced) + emitted
      ensures result == Failed(OverLimit) <==> |emitted| > maximum
      ensures result == Failed(NoMemory) ==> false in grants
      ensures result == Success ==> engine.changed
      ensures result == Failed(Rejected) && !old(RefusesParameters(level, strategy)) ==>
                !engine.changed && !engine.cramped
      ensures result != Failed(Truncated)
      ensures data == if result == Success then emitted else []
    {
      if failed || finished || !compressing || !ValidParameters(level, strategy) {
        assert engine.produced + [] == engine.produced;
        return Failed(Rejected), [], [];
      }
      var output := new Output(maximum, chunk, grants);
      result, emitted := FlushForParameters(output);
      if result != Success { failed := true; }
      data := if result == Success then output.data else [];
    }
  }

  // ---------- Brotli ----------

  lemma TookSlice(log: seq<Byte>, input: seq<Byte>, consumed: nat, more: nat)
    requires consumed + more <= |input|
    ensures (log + input[..consumed]) + input[consumed..][..more] == log + input[..consumed + more]
  {
    assert input[consumed..][..more] == input[consumed..consumed + more];
    SliceJoins(input, 0, consumed, consumed + more);
    Append(log, input[..consumed], input[consumed..consumed + more]);
  }

  /** What a Brotli engine reports after a call: an error, completion, or that it waits for more input
      with nothing more to say; anything else asks for another turn. */
  datatype BrotliStatus = BrotliError | BrotliDone | BrotliWaiting | BrotliBusy

  /** Any Brotli encoder or decoder: it consumes and produces within bounds. */
  class BrotliEngine {
    /** Everything it ever took and produced, and what it last said; an error is for good. */
    ghost var taken: seq<Byte>
    ghost var produced: seq<Byte>
    ghost var moved: bool
    ghost var done: bool
    ghost var waiting: bool
    ghost var erred: bool

    constructor ()
      ensures taken == produced == [] && !done && !erred
    {
      taken, produced, moved, done, waiting, erred := [], [], false, false, false, false;
    }

    method Call(rest: seq<Byte>, space: nat) returns (consumed: nat, output: seq<Byte>, status: BrotliStatus)
      modifies this
      ensures consumed <= |rest| && |output| <= space
      ensures taken == old(taken) + rest[..consumed]
      ensures produced == old(produced) + output && moved == (consumed > 0 || output != [])
      ensures done == (status == BrotliDone) && waiting == (status == BrotliWaiting)
      ensures erred == (old(erred) || status == BrotliError)
    {
      consumed, output, status := *, *, *;
      if consumed > |rest| { consumed := |rest|; }
      if |output| > space { output := output[..space]; }
      taken := taken + rest[..consumed];
      produced, moved := produced + output, consumed > 0 || output != [];
      done, waiting := status == BrotliDone, status == BrotliWaiting;
      erred := erred || status == BrotliError;
    }
  }

  /** Why a Brotli write ends as it does, in terms of what the engine said. */
  ghost predicate BrotliJustified(
    result: Result, finish: bool, finished: bool, left: nat, done: bool, erred: bool, waiting: bool, moved: bool)
  {
    && (result.Success? ==> !erred && (finished || (waiting && left == 0 && !finish)))
    && (result == Failed(Rejected) <==> erred && result != Failed(OverLimit))
    && (result == Failed(Truncated) ==> !moved && !finished && !(waiting && left == 0 && !finish))
    && (result.Success? ==> finished == done)
  }

  class Brotli {
    const maximum: nat
    const chunk: nat
    const encoding: bool
    const engine: BrotliEngine
    var finished: bool
    var failed: bool

    ghost predicate Valid()
      reads this, engine
    {
      Acceptable(maximum, chunk) && (!failed ==> finished == engine.done && !engine.erred)
    }

    constructor (maximum: nat, chunk: nat, encoding: bool)
      requires Acceptable(maximum, chunk)
      ensures Valid() && this.maximum == maximum && this.chunk == chunk && this.encoding == encoding
      ensures !finished && !failed && fresh(engine)
    {
      this.maximum, this.chunk, this.encoding := maximum, chunk, encoding;
      engine := new BrotliEngine();
      finished, failed := false, false;
    }

    /** The Brotli loop; `emitted` is what the engine produced meanwhile.  What an encoder produces in a
        call that fails is not kept. */
    method WriteBrotli(input: seq<Byte>, finish: bool, output: Output)
      returns (result: Result, consumed: nat, ghost emitted: seq<Byte>)
      requires Valid() && !failed
      requires output.Valid() && output.limit == maximum && output.data == [] && !output.denied
      modifies this`finished, engine, output
      ensures output.Valid() && consumed <= |input|
      ensures old(engine.taken) + input[..consumed] <= engine.taken
      ensures !(encoding && engine.erred) ==> engine.taken == old(engine.taken) + input[..consumed]
      ensures engine.produced == old(engine.produced) + emitted
      ensures encoding && engine.erred ==> result == Failed(Rejected)
      ensures !(encoding && engine.erred) ==> (result == Failed(OverLimit) <==> |emitted| > maximum)
      ensures !(encoding && engine.erred) && result != Failed(OverLimit) ==> output.data == emitted
      ensures BrotliJustified(result, finish, finished, |input| - consumed,
                              engine.done, engine.erred, engine.waiting, engine.moved)
      ensures old(finished) ==> finished && consumed == 0 && emitted == [] && result in {Success, Failed(NoMemory)}
      ensures result == Failed(NoMemory) <==> output.denied
    {
      consumed, emitted := 0, [];
      assert engine.produced + [] == engine.produced && engine.taken + input[..0] == engine.taken;
      while true
        invariant output.Valid() && consumed <= |input| && output.data == emitted && !output.denied
        invariant engine.taken == old(engine.taken) + input[..consumed]
        invariant engine.produced == old(engine.produced) + emitted
        invariant finished == engine.done && !engine.erred
        invariant old(finished) ==> finished && consumed == 0 && emitted == []
        decreases (|input| - consumed) + (maximum - |output.data|)
      {
        var available := output.Space();
        if available == 0 { return Failed(NoMemory), consumed, emitted; }
        if finished { return Success, consumed, emitted; }
        var taken, produced, status := engine.Call(input[consumed..], available);
        TookSlice(old(engine.taken), input, consumed, taken);
        Append(old(engine.produced), emitted, produced);
        emitted := emitted + produced;
        if encoding && status == BrotliError { return Failed(Rejected), consumed, emitted; }
        consumed := consumed + taken;
        var ok := output.Advance(produced);
        if !ok { return Failed(OverLimit), consumed, emitted; }
        finished := status == BrotliDone;
        if finished || (status == BrotliWaiting && consumed == |input| && !finish) {
          return Success, consumed, emitted;
        }
        if status == BrotliError { return Failed(Rejected), consumed, emitted; }
        if taken == 0 && produced == [] { return Failed(Truncated), consumed, emitted; }
      }
    }

    ghost predicate Refuses(input: seq<Byte>, flush: int)
      reads this
    {
      failed || |input| > 4_294_967_295 || !(0 <= flush <= 2) || (finished && encoding && input != [])
    }

    /** One write: everything the engine produced during it, or nothing and a failed codec. */
    method Write(input: seq<Byte>, flush: int, grants: seq<bool>)
      returns (result: Result, data: seq<Byte>, consumed: nat, ghost emitted: seq<Byte>)
      requires Valid()
      modifies this, engine
      ensures Valid() && consumed <= |input|
      ensures old(Refuses(input, flush)) ==>
                && result == Failed(Rejected) && emitted == [] && consumed == 0
                && failed == old(failed) && finished == old(finished)
      ensures !old(Refuses(input, flush)) ==>
                && failed == (result != Success)
                && BrotliJustified(result, flush == BROTLI_FINISH, finished, |input| - consumed,
                                   engine.done, engine.erred, engine.waiting, engine.moved)
                && (!(encoding && engine.erred) ==>
                      && (result == Failed(OverLimit) <==> |emitted| > maximum)
                      && engine.taken == old(engine.taken) + input[..consumed])
      ensures old(engine.taken) + input[..consumed] <= engine.taken
      ensures engine.produced == old(engine.produced) + emitted
      ensures result == Failed(NoMemory) ==> false in grants
      ensures data == if result == Success then emitted else []
    {
      if failed || |input| > UINT_MAX || flush < 0 || flush > BROTLI_FINISH || (finished && encoding && input != []) {
        assert engine.produced + [] == engine.produced;
        return Failed(Rejected), [], 0, [];
      }
      var output := new Output(maximum, chunk, grants);
      result, consumed, emitted := WriteBrotli(input, flush == BROTLI_FINISH, output);
      failed := result != Success;
      data := if failed then [] else output.data;
    }
  }

  // ---------- feeding a stream in pieces ----------

  function Joined(chunks: seq<seq<Byte>>): seq<Byte> {
    if chunks == [] then [] else Joined(chunks[..|chunks| - 1]) + chunks[|chunks| - 1]
  }

  lemma {:induction false} JoinedPrefix(chunks: seq<seq<Byte>>, k: nat)
    requires k < |chunks|
    ensures Joined(chunks[..k + 1]) == Joined(chunks[..k]) + chunks[k]
    ensures Joined(chunks[..k + 1]) <= Joined(chunks)
    decreases |chunks| - k
  {
    assert chunks[..k + 1][..k] == chunks[..k];
    if k + 1 < |chunks| {
      JoinedPrefix(chunks, k + 1);
    } else {
      assert chunks[..k + 1] == chunks;
    }
  }

  predicate PieceFits(a: Archive, chunks: seq<seq<Byte>>, k: nat, maximum: nat)
    requires ArchiveInv(a) && k < |chunks|
  {
    |chunks[k]| <= UINT_MAX &&
    Determined(a, |Joined(chunks[..k + 1])|) - Determined(a, |Joined(chunks[..k])|) <= maximum
  }

  /** Each piece determines no more than one write may deliver (and is no longer than one may be). */
  ghost predicate PiecesFit(a: Archive, chunks: seq<seq<Byte>>, maximum: nat)
    requires ArchiveInv(a)
  {
    forall k :: 0 <= k < |chunks| ==> PieceFits(a, chunks, k, maximum)
  }

  lemma NothingDetermined(a: Archive)
    requires ArchiveInv(a) && a.members != []
    ensures Determined(a, 0) == 0
  {
    assert WellFormed(a.members[0]);
  }

  lemma NextPiece(stream: seq<Byte>, before: seq<Byte>, piece: seq<Byte>)
    requires before + piece <= stream
    ensures piece == stream[|before|..|before| + |piece|]
  {
    assert (before + piece)[|before|..] == piece;
  }

  method FeedPiece(codec: Codec, piece: seq<Byte>, ghost a: Archive, ghost before: nat)
    returns (fits: bool, data: seq<Byte>)
    requires codec.Valid() && !codec.failed && codec.engine.decoder.Some?
    requires codec.engine.decoder.value.archive == a && codec.Position() == before
    requires before + |piece| <= |a.stream| && piece == a.stream[before..before + |piece|]
    modifies codec, codec.engine
    ensures codec.Valid() && codec.engine.decoder.Some? && codec.engine.decoder.value.archive == a
    ensures Determined(a, before) <= Determined(a, before + |piece|) <= |a.payload|
    ensures fits <==> |piece| <= UINT_MAX && Determined(a, before + |piece|) - Determined(a, before) <= codec.maximum
    ensures fits ==> !codec.failed && codec.Position() == before + |piece|
    ensures fits ==> data == a.payload[Determined(a, before)..Determined(a, before + |piece|)]
  {
    DeterminedIsMonotone(a, 0, before, before + |piece|);
    var result, output, consumed, emitted := codec.Write(piece, 0, []);
    return result.Success?, output;
  }

  /** A stream of gzip members fed in any pieces, one write each: the writes all succeed exactly when
      each piece's share fits, and then their outputs together are what the pieces together
      determine; for the whole stream, the concatenated payloads.  Where the cuts lie, how large the
      buffer is and how the engine proceeds make no difference. */
  method Feed(codec: Codec, chunks: seq<seq<Byte>>, ghost a: Archive) returns (ok: bool, all: seq<Byte>)
    requires codec.Valid() && !codec.failed && codec.engine.decoder.Some?
    requires codec.engine.decoder.value.archive == a && codec.Position() == 0
    requires Joined(chunks) <= a.stream
    modifies codec, codec.engine
    ensures ArchiveInv(a) && (ok <==> PiecesFit(a, chunks, codec.maximum))
    ensures ok ==> Determined(a, |Joined(chunks)|) <= |a.payload| && all == a.payload[..Determined(a, |Joined(chunks)|)]
    ensures ok && Joined(chunks) == a.stream ==> all == a.payload
    ensures ok ==> codec.Valid() && codec.engine.decoder.Some? && codec.Position() == |Joined(chunks)|
  {
    all := [];
    NothingDetermined(a);
    var k := 0;
    while k < |chunks|
      invariant k <= |chunks| && codec.Valid() && !codec.failed && codec.engine.decoder.Some?
      invariant codec.engine.decoder.value.archive == a
      invariant codec.Position() == |Joined(chunks[..k])|
      invariant Determined(a, |Joined(chunks[..k])|) <= |a.payload|
      invariant all == a.payload[..Determined(a, |Joined(chunks[..k])|)]
      invariant forall j :: 0 <= j < k ==> PieceFits(a, chunks, j, codec.maximum)
    {
      JoinedPrefix(chunks, k);
      NextPiece(a.stream, Joined(chunks[..k]), chunks[k]);
      var fits, data := FeedPiece(codec, chunks[k], a, |Joined(chunks[..k])|);
      assert fits <==> PieceFits(a, chunks, k, codec.maximum);
      if !fits { return false, all; }
      SliceJoins(a.payload, 0, Determined(a, |Joined(chunks[..k])|), Determined(a, |Joined(chunks[..k + 1])|));
      all := all + data;
      k := k + 1;
    }
    assert chunks[..k] == chunks;
    WholeStreamDetermines(a);
    assert a.payload[..|a.payload|] == a.payload;
    return true, all;
  }
}
