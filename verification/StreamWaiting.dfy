/** The worker of a read from something that is not a regular file: it waits for the descriptor in
    short polls, so that a dropped request is noticed, and reads when there is something to read. */
module StreamWaiting {

  const UV_EBADF: int := -9
  const UV_ECANCELED: int := -125

  /** What `F_GETFL` says about the descriptor. */
  datatype Flags = NoFlags(error: int) | WriteOnly | Readable

  datatype PollAnswer = TimedOut | PollInterrupted | PollFailed(error: int) | Invalid | Ready

  datatype ReadAnswer = Got(count: nat) | ReadInterrupted | NotReady | ReadFailed(error: int)

  /** The operations of the loop, in the order in which they are made. */
  datatype Event = Load(cancelled: bool) | Poll(poll: PollAnswer) | Read(read: ReadAnswer)

  /** The request and its descriptor.  The owner sets the flag once, before some load, and never
      clears it; scripts that have run out answer "not ready". */
  class Source {
    var loadsUntilCancelled: nat
    var polls: seq<PollAnswer>
    var answers: seq<ReadAnswer>
    ghost var log: seq<Event>

    constructor (loads: nat, polls: seq<PollAnswer>, answers: seq<ReadAnswer>)
      ensures log == []
    {
      loadsUntilCancelled, this.polls, this.answers, log := loads, polls, answers, [];
    }

    method LoadCancelled() returns (cancelled: bool)
      modifies this`loadsUntilCancelled, this`log
      ensures cancelled <==> old(loadsUntilCancelled) == 0
      ensures cancelled ==> loadsUntilCancelled == 0
      ensures !cancelled ==> loadsUntilCancelled + 1 == old(loadsUntilCancelled)
      ensures log == old(log) + [Load(cancelled)]
    {
      cancelled := loadsUntilCancelled == 0;
      if !cancelled { loadsUntilCancelled := loadsUntilCancelled - 1; }
      log := log + [Load(cancelled)];
    }

    method PollOnce() returns (answer: PollAnswer)
      modifies this`polls, this`log
      ensures log == old(log) + [Poll(answer)]
    {
      answer := TimedOut;
      if polls != [] { answer, polls := polls[0], polls[1..]; }
      log := log + [Poll(answer)];
    }

    method ReadOnce() returns (answer: ReadAnswer)
      modifies this`answers, this`log
      ensures log == old(log) + [Read(answer)]
    {
      answer := NotReady;
      if answers != [] { answer, answers := answers[0], answers[1..]; }
      log := log + [Read(answer)];
    }
  }

  /** The result an operation decides, if it decides one. */
  function Verdict(e: Event): (result: seq<int>) {
    match e
    case Load(cancelled) => if cancelled then [UV_ECANCELED] else []
    case Poll(PollFailed(error)) => [error]
    case Poll(Invalid) => [UV_EBADF]
    case Poll(_) => []
    case Read(Got(count)) => [count]
    case Read(ReadFailed(error)) => [error]
    case Read(_) => []
  }

  /** Nothing has decided the result yet. */
  ghost predicate Undecided(log: seq<Event>) {
    forall i :: 0 <= i < |log| ==> Verdict(log[i]) == []
  }

  /** The read at place `i` could not block: the flag was just found clear, and the descriptor was
      just found ready, unless reading at a position, which no read has yet found not ready. */
  ghost predicate ReadIsSafe(log: seq<Event>, positioned: bool, i: nat)
    requires i < |log|
  {
    && i > 0 && log[i - 1] == Load(false)
    && ((i > 1 && log[i - 2] == Poll(Ready)) ||
        (positioned && forall j :: 0 <= j < i ==> log[j] != Read(NotReady)))
  }

  ghost predicate Careful(log: seq<Event>, positioned: bool) {
    forall i :: 0 <= i < |log| && log[i].Read? ==> ReadIsSafe(log, positioned, i)
  }

  ghost predicate NeverNotReady(log: seq<Event>) {
    forall i :: 0 <= i < |log| ==> log[i] != Read(NotReady)
  }

  lemma CarefulStep(log: seq<Event>, positioned: bool, e: Event)
    requires Careful(log, positioned)
    requires e.Read? ==> ReadIsSafe(log + [e], positioned, |log|)
    ensures Careful(log + [e], positioned)
  {
    var after := log + [e];
    forall i | 0 <= i < |after| && after[i].Read?
      ensures ReadIsSafe(after, positioned, i)
    {
      if i < |log| {
        assert ReadIsSafe(log, positioned, i);
        assert forall j :: 0 <= j <= i ==> after[j] == log[j];
      }
    }
  }

  /** The last operation found the flag set, and nothing before it decided the result. */
  ghost predicate CancelSeen(log: seq<Event>) {
    log != [] && log[|log| - 1] == Load(true) && Undecided(log[..|log| - 1])
  }

  /** The log ends with the operation that decided the result and no earlier one did, except that a
      flag found set just before a read is looked at once more. */
  ghost predicate DecidedBy(log: seq<Event>, result: int) {
    && log != [] && Verdict(log[|log| - 1]) == [result]
    && (Undecided(log[..|log| - 1]) || (log[|log| - 1] == Load(true) && CancelSeen(log[..|log| - 1])))
  }

  /** The last operation was a read that succeeded or failed, a failed poll, or a flag found set. */
  ghost predicate Answers(log: seq<Event>, result: int) {
    && log != []
    && match log[|log| - 1]
       case Read(Got(count)) => result == count
       case Read(ReadFailed(error)) => result == error
       case Read(_) => false
       case Poll(PollFailed(error)) => result == error
       case Poll(Invalid) => result == -9
       case Poll(_) => false
       case Load(cancelled) => cancelled && result == -125
  }

  /** Neither poll nor read has come to an end: each timed out, was interrupted, or found the descriptor
      ready or not. */
  ghost predicate NotAnAnswer(e: Event) {
    && (e.Poll? ==> e.poll.TimedOut? || e.poll.PollInterrupted? || e.poll.Ready?)
    && (e.Read? ==> e.read.ReadInterrupted? || e.read.NotReady?)
  }

  /** The result is the answer of the last operation, and no earlier poll or read gave one. */
  ghost predicate Settled(log: seq<Event>, result: int) {
    && DecidedBy(log, result) && Answers(log, result)
    && forall i :: 0 <= i < |log| - 1 ==> NotAnAnswer(log[i])
  }

  lemma DecisionSettles(log: seq<Event>, result: int)
    requires DecidedBy(log, result)
    ensures Settled(log, result)
  {
    var before := log[..|log| - 1];
    if !Undecided(before) {
      assert CancelSeen(before);
      assert forall i :: 0 <= i < |before| - 1 ==> before[..|before| - 1][i] == log[i];
    }
    forall i | 0 <= i < |log| - 1
      ensures NotAnAnswer(log[i])
    {
      assert before[i] == log[i];
      assert before[i].Load? || Verdict(before[i]) == [];
    }
  }

  /** Where a turn of the loop starts. */
  ghost predicate Waiting(log: seq<Event>, loads: nat, positioned: bool, waitFirst: bool) {
    && Careful(log, positioned)
    && (Undecided(log) || (loads == 0 && CancelSeen(log)))
    && (!waitFirst ==> positioned && NeverNotReady(log))
  }

  lemma LookFirst(log: seq<Event>, loads: nat, positioned: bool, waitFirst: bool, cancelled: bool)
    requires Waiting(log, loads, positioned, waitFirst) && (cancelled <==> loads == 0)
    ensures Careful(log + [Load(cancelled)], positioned)
    ensures if cancelled then Settled(log + [Load(true)], UV_ECANCELED)
            else Waiting(log + [Load(false)], loads - 1, positioned, waitFirst) && Undecided(log + [Load(false)])
  {
    CarefulStep(log, positioned, Load(cancelled));
    assert (log + [Load(cancelled)])[..|log|] == log;
    if cancelled { DecisionSettles(log + [Load(true)], UV_ECANCELED); }
  }

  lemma LookAgain(log: seq<Event>, loads: nat, positioned: bool, waitFirst: bool, cancelled: bool)
    requires Waiting(log, loads, positioned, waitFirst) && Undecided(log) && (cancelled <==> loads == 0)
    ensures Waiting(log + [Load(cancelled)], if cancelled then 0 else loads - 1, positioned, waitFirst)
    ensures !cancelled ==> Undecided(log + [Load(false)])
  {
    CarefulStep(log, positioned, Load(cancelled));
    assert (log + [Load(cancelled)])[..|log|] == log;
  }

  /** An operation other than looking at the flag. */
  lemma Operate(log: seq<Event>, loads: nat, positioned: bool, waitFirst: bool, e: Event)
    requires Waiting(log, loads, positioned, waitFirst) && Undecided(log) && !e.Load?
    requires e.Read? ==> ReadIsSafe(log + [e], positioned, |log|)
    ensures Careful(log + [e], positioned)
    ensures Verdict(e) == [] ==>
              && Undecided(log + [e])
              && Waiting(log + [e], loads, positioned, waitFirst || e == Read(NotReady))
    ensures Verdict(e) != [] ==> Settled(log + [e], Verdict(e)[0])
  {
    CarefulStep(log, positioned, e);
    assert (log + [e])[..|log|] == log;
    if Verdict(e) != [] { DecisionSettles(log + [e], Verdict(e)[0]); }
  }

  lemma ReadAfterPoll(log: seq<Event>, positioned: bool, answer: ReadAnswer)
    requires log != [] && log[|log| - 1] == Load(false)
    requires (|log| > 1 && log[|log| - 2] == Poll(Ready)) || (positioned && NeverNotReady(log))
    ensures ReadIsSafe(log + [Read(answer)], positioned, |log|)
  {
  }

  /** The thread's loop.  It ends however the descriptor behaves, once the request is dropped; every
      read it makes is one that cannot block; and its result is decided by the first operation that
      decides one. */
  method ReadWaiting(source: Source, flags: Flags, positioned: bool) returns (selected: int)
    requires source.log == []
    modifies source
    ensures flags.NoFlags? ==> selected == flags.error && source.log == []
    ensures flags.WriteOnly? ==> selected == -9 && source.log == []
    ensures flags.Readable? ==> Careful(source.log, positioned) && Settled(source.log, selected)
  {
    if !flags.Readable? { return if flags.NoFlags? then flags.error else UV_EBADF; }
    var waitFirst := !positioned;
    while true
      invariant Waiting(source.log, source.loadsUntilCancelled, positioned, waitFirst)
      decreases source.loadsUntilCancelled
    {
      LookFirst(source.log, source.loadsUntilCancelled, positioned, waitFirst, source.loadsUntilCancelled == 0);
      var cancelled := source.LoadCancelled();
      if cancelled { return UV_ECANCELED; }
      if waitFirst {
        ghost var log := source.log;
        var answer := source.PollOnce();
        Operate(log, source.loadsUntilCancelled, positioned, waitFirst, Poll(answer));
        if answer == TimedOut || answer == PollInterrupted { continue; }
        if answer.PollFailed? { return answer.error; }
        if answer == Invalid { return UV_EBADF; }
      }
      LookAgain(source.log, source.loadsUntilCancelled, positioned, waitFirst, source.loadsUntilCancelled == 0);
      cancelled := source.LoadCancelled();
      if cancelled { continue; }
      ghost var log := source.log;
      var answer := source.ReadOnce();
      ReadAfterPoll(log, positioned, answer);
      Operate(log, source.loadsUntilCancelled, positioned, waitFirst, Read(answer));
      match answer
      case ReadInterrupted => continue;
      case NotReady => waitFirst := true;
      case Got(count) => return count;
      case ReadFailed(error) => return error;
    }
  }
}
