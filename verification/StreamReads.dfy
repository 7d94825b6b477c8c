/** Asynchronous stream reads: any number of threads start reads, any number of workers finish them,
    owners drop them, and one event loop waits for completions.  Every atomic operation of the code
    is one step, so a run is an arbitrary interleaving. */
module StreamReads {
  import opened Common

  const READ_LIMIT: nat := 256
  const BYTE_LIMIT: nat := 64 * 1024 * 1024
  const CHUNK_LIMIT: nat := 1024 * 1024
  const WAIT_LIMIT: nat := 32

  /** What `release_read` still has to do for the last reference. */
  datatype Stage = ReturnBytes | ReturnRead | FreeMemory

  /** Where the starting (later owning) thread of one request stands. */
  datatype Owner =
    | Begin          // about to charge live_reads
    | ChargedRead    // live_reads charged and within the limit; about to charge live_bytes
    | UndoRead       // refused: about to give back live_reads
    | UndoBytes      // refused: about to give back live_bytes, then live_reads
    | Reserved       // both charged and within the limits; about to allocate the request
    | Rejected       // start returned without a request
    | Prepared       // the request exists with two references; about to launch it
    | ChargedWait    // waiting_workers charged and within the limit; about to create the thread
    | UndoWait       // about to give back waiting_workers
    | FailFirst      // launch failed: about to release the worker's reference
    | FailSecond     // ... and then its own
    | Holding        // start returned the request
    | Dropping       // cancelled stored; about to release the reference
    | OwnerFrees(stage: Stage)
    | OwnerDone

  /** Where the thread that completes the request stands. */
  datatype Worker =
    | Absent
    | Running
    | Publishing     // result stored, descriptor closed; about to store ready
    | Announcing     // about to increment completed_reads
    | Signalling     // about to call uv_async_send
    | Releasing      // about to release its reference
    | WorkerFrees(stage: Stage)
    | WorkerDone

  datatype Request = Request(
    size: nat, waits: bool, owner: Owner, worker: Worker,
    references: int, ready: bool, cancelled: bool, frees: nat)

  /** The event loop: capture the epoch, poll everything (remembering the requests it found not
      ready, and whether anything made progress), drain the wakeup, check the epoch, block. */
  datatype Loop =
    | Top
    | Polling(epoch: nat, missed: set<nat>, work: bool)
    | Checking(epoch: nat, missed: set<nat>)
    | Blocked(epoch: nat, missed: set<nat>)

  datatype State = State(
    requests: seq<Request>, liveReads: int, liveBytes: int, waiting: int,
    completed: nat, wakeup: bool, loop: Loop)

  const Initial: State := State([], 0, 0, 0, 0, false, Top)

  /** `Refuse` is a failed allocation or launch, `Wait` a descriptor that is not a regular file. */
  datatype Choice = Proceed | Refuse | Wait

  datatype Step =
    | Start(size: nat)
    | OwnerStep(i: nat, choice: Choice)
    | WorkerStep(i: nat)
    | Capture
    | DrainWhilePolling
    | Inspect(i: nat)
    | FinishPolling
    | Check
    | Wake
    | TimeOut

  predicate Enabled(s: State, step: Step) {
    match step
    case Start(size) => 0 < size <= CHUNK_LIMIT
    case OwnerStep(i, _) =>
      i < |s.requests| && s.requests[i].owner != Rejected && s.requests[i].owner != OwnerDone
    case WorkerStep(i) =>
      i < |s.requests| && s.requests[i].worker != Absent && s.requests[i].worker != WorkerDone
    case Capture => s.loop.Top?
    case DrainWhilePolling => s.loop.Polling?
    case Inspect(i) => s.loop.Polling? && i < |s.requests| && s.requests[i].owner == Holding
    case FinishPolling => s.loop.Polling?
    case Check => s.loop.Checking?
    case Wake => s.loop.Blocked? && s.wakeup
    case TimeOut => s.loop.Blocked?
  }

  function WithRequest(s: State, i: nat, r: Request): State
    requires i < |s.requests|
  {
    s.(requests := s.requests[i := r])
  }

  /** The part of `release_read` after its last reference is gone, one operation at a time. */
  function FreeStep(s: State, r: Request, stage: Stage): (State, Request) {
    match stage
    case ReturnBytes => (s.(liveBytes := s.liveBytes - r.size), r)
    case ReturnRead => (s.(liveReads := s.liveReads - 1), r)
    case FreeMemory => (s, r.(frees := r.frees + 1))
  }

  function OwnerNext(s: State, r: Request, choice: Choice): (State, Request)
    requires r.owner != Rejected && r.owner != OwnerDone
  {
    match r.owner
    case Begin =>
      (s.(liveReads := s.liveReads + 1),
       r.(owner := if s.liveReads >= READ_LIMIT then UndoRead else ChargedRead))
    case ChargedRead =>
      (s.(liveBytes := s.liveBytes + r.size),
       r.(owner := if s.liveBytes > BYTE_LIMIT - r.size then UndoBytes else Reserved))
    case UndoBytes => (s.(liveBytes := s.liveBytes - r.size), r.(owner := UndoRead))
    case UndoRead => (s.(liveReads := s.liveReads - 1), r.(owner := Rejected))
    case Reserved =>
      (s, if choice == Refuse then r.(owner := UndoBytes) else r.(owner := Prepared, references := 2))
    case Prepared =>
      (match choice
       case Proceed => (s, r.(owner := Holding, worker := Running))
       case Refuse => (s, r.(owner := FailFirst))
       case Wait =>
         (s.(waiting := s.waiting + 1),
          r.(waits := true, owner := if s.waiting >= WAIT_LIMIT then UndoWait else ChargedWait)))
    case ChargedWait =>
      (s, if choice == Refuse then r.(owner := UndoWait) else r.(owner := Holding, worker := Running))
    case UndoWait => (s.(waiting := s.waiting - 1), r.(owner := FailFirst))
    case FailFirst => (s, r.(references := r.references - 1, owner := FailSecond))
    case FailSecond =>
      (s, r.(references := r.references - 1,
             owner := if r.references == 1 then OwnerFrees(ReturnBytes) else OwnerDone))
    case Holding => (s, r.(cancelled := true, owner := Dropping))
    case Dropping =>
      (s, r.(references := r.references - 1,
             owner := if r.references == 1 then OwnerFrees(ReturnBytes) else OwnerDone))
    case OwnerFrees(stage) =>
      var (t, q) := FreeStep(s, r, stage);
      (t, q.(owner := match stage
                      case ReturnBytes => OwnerFrees(ReturnRead)
                      case ReturnRead => OwnerFrees(FreeMemory)
                      case FreeMemory => OwnerDone))
  }

  function WorkerNext(s: State, r: Request): (State, Request)
    requires r.worker != Absent && r.worker != WorkerDone
  {
    match r.worker
    case Running =>
      (if r.waits then s.(waiting := s.waiting - 1) else s, r.(worker := Publishing))
    case Publishing => (s, r.(ready := true, worker := Announcing))
    case Announcing => (s.(completed := s.completed + 1), r.(worker := Signalling))
    case Signalling => (s.(wakeup := true), r.(worker := Releasing))
    case Releasing =>
      (s, r.(references := r.references - 1,
             worker := if r.references == 1 then WorkerFrees(ReturnBytes) else WorkerDone))
    case WorkerFrees(stage) =>
      var (t, q) := FreeStep(s, r, stage);
      (t, q.(worker := match stage
                       case ReturnBytes => WorkerFrees(ReturnRead)
                       case ReturnRead => WorkerFrees(FreeMemory)
                       case FreeMemory => WorkerDone))
  }

  function LoopNext(s: State, step: Step): State
    requires Enabled(s, step) && !step.Start? && !step.OwnerStep? && !step.WorkerStep?
  {
    match step
    case Capture => s.(loop := Polling(s.completed, {}, false))
    case DrainWhilePolling => s.(wakeup := false)
    case Inspect(i) =>
      s.(loop := if s.requests[i].ready then Polling(s.loop.epoch, s.loop.missed, true)
                 else Polling(s.loop.epoch, s.loop.missed + {i}, s.loop.work))
    case FinishPolling =>
      if s.loop.work then s.(loop := Top)
      else s.(wakeup := false, loop := Checking(s.loop.epoch, s.loop.missed))
    case Check =>
      s.(loop := if s.completed != s.loop.epoch then Top else Blocked(s.loop.epoch, s.loop.missed))
    case Wake => s.(wakeup := false, loop := Top)
    case TimeOut => s.(loop := Top)
  }

  function Next(s: State, step: Step): State
    requires Enabled(s, step)
  {
    match step
    case Start(size) =>
      s.(requests := s.requests + [Request(size, false, Begin, Absent, 0, false, false, 0)])
    case OwnerStep(i, choice) =>
      var (t, r) := OwnerNext(s, s.requests[i], choice);
      WithRequest(t, i, r)
    case WorkerStep(i) =>
      var (t, r) := WorkerNext(s, s.requests[i]);
      WithRequest(t, i, r)
    case _ => LoopNext(s, step)
  }

  function Run(steps: seq<Step>): Option<State> {
    if steps == [] then Some(Initial)
    else
      match Run(steps[..|steps| - 1])
      case None => None
      case Some(s) =>
        if Enabled(s, steps[|steps| - 1]) then Some(Next(s, steps[|steps| - 1])) else None
  }

  // ---------- what each request keeps ----------

  /** References the owner's thread has not given up: both of them until the launch succeeds. */
  function OwnerHolds(r: Request): int {
    if r.owner in {Prepared, ChargedWait, UndoWait, FailFirst} then 2
    else if r.owner in {FailSecond, Holding, Dropping} then 1
    else 0
  }

  function WorkerHolds(r: Request): int {
    if r.worker in {Running, Publishing, Announcing, Signalling, Releasing} then 1 else 0
  }

  /** The request has been allocated. */
  predicate Allocated(r: Request) {
    r.owner !in {Begin, ChargedRead, UndoRead, UndoBytes, Reserved, Rejected}
  }

  predicate Freeing(r: Request) {
    r.owner.OwnerFrees? || r.worker.WorkerFrees?
  }

  /** The party that took the last reference away is about to do this. */
  predicate FreeingAt(r: Request, stage: Stage) {
    r.owner == OwnerFrees(stage) || r.worker == WorkerFrees(stage)
  }

  ghost predicate RequestInv(r: Request) {
    && 0 < r.size <= CHUNK_LIMIT
    && r.references == OwnerHolds(r) + WorkerHolds(r)
    && (!Allocated(r) || r.owner in {Prepared, ChargedWait, UndoWait, FailFirst, FailSecond} ==> r.worker == Absent)
    && (r.owner in {Holding, Dropping} ==> r.worker != Absent)
    && (r.cancelled <==> r.owner == Dropping || ((r.owner.OwnerFrees? || r.owner == OwnerDone) && r.worker != Absent))
    && (r.owner == Prepared || !Allocated(r) ==> !r.waits)
    && (r.owner in {ChargedWait, UndoWait} ==> r.waits)
    && (Freeing(r) ==> r.references == 0 && !(r.owner.OwnerFrees? && r.worker.WorkerFrees?))
    && r.frees == (if Allocated(r) && r.references == 0 && !Freeing(r) then 1 else 0)
    && (r.worker in {Absent, Running, Publishing} ==> !r.ready)
    && (r.worker in {Announcing, Signalling, Releasing, WorkerDone} || r.worker.WorkerFrees? ==> r.ready)
  }

  // ---------- what the counters count ----------

  function ReadCharge(r: Request): nat {
    if r.owner == Begin || r.owner == Rejected then 0
    else if !Allocated(r) || r.references > 0 || FreeingAt(r, ReturnBytes) || FreeingAt(r, ReturnRead) then 1
    else 0
  }

  function ByteCharge(r: Request): nat {
    if r.owner == UndoBytes || r.owner == Reserved then r.size
    else if Allocated(r) && (r.references > 0 || FreeingAt(r, ReturnBytes)) then r.size
    else 0
  }

  function WaitCharge(r: Request): nat {
    if r.owner == ChargedWait || r.owner == UndoWait || (r.worker == Running && r.waits) then 1 else 0
  }

  /** The charges of requests that passed the check made with the charge, as opposed to those of
      starters that were refused and have not yet undone theirs. */
  function AdmittedRead(r: Request): nat {
    if r.owner == UndoRead || r.owner == UndoBytes then 0 else ReadCharge(r)
  }

  function AdmittedBytes(r: Request): nat {
    if r.owner == UndoBytes then 0 else ByteCharge(r)
  }

  function AdmittedWait(r: Request): nat {
    if r.owner == UndoWait then 0 else WaitCharge(r)
  }

  function Total(f: Request -> nat, requests: seq<Request>): nat {
    if requests == [] then 0 else f(requests[0]) + Total(f, requests[1..])
  }

  lemma {:induction false} TotalUpdate(f: Request -> nat, requests: seq<Request>, i: nat, r: Request)
    requires i < |requests|
    ensures Total(f, requests[i := r]) + f(requests[i]) == Total(f, requests) + f(r)
  {
    if i == 0 {
      assert requests[i := r][1..] == requests[1..];
    } else {
      assert requests[i := r][1..] == requests[1..][i - 1 := r];
      TotalUpdate(f, requests[1..], i - 1, r);
    }
  }

  lemma {:induction false} TotalAppend(f: Request -> nat, requests: seq<Request>, r: Request)
    ensures Total(f, requests + [r]) == Total(f, requests) + f(r)
  {
    if requests == [] {
      assert [r][1..] == [];
    } else {
      assert (requests + [r])[1..] == requests[1..] + [r];
      TotalAppend(f, requests[1..], r);
    }
  }

  lemma {:induction false} TotalOrder(f: Request -> nat, g: Request -> nat, requests: seq<Request>)
    requires forall r :: f(r) <= g(r)
    ensures Total(f, requests) <= Total(g, requests)
  {
    if requests != [] {
      TotalOrder(f, g, requests[1..]);
    }
  }

  // ---------- one step of one request ----------

  /** The charges move with the counters. */
  ghost predicate Balanced(s: State, t: State, r: Request, q: Request) {
    && t.liveReads - s.liveReads == ReadCharge(q) - ReadCharge(r)
    && t.liveBytes - s.liveBytes == ByteCharge(q) - ByteCharge(r)
    && t.waiting - s.waiting == WaitCharge(q) - WaitCharge(r)
  }

  /** A request joins the admitted ones only when the counter was still below the limit. */
  ghost predicate Guarded(s: State, r: Request, q: Request) {
    && (AdmittedRead(q) <= AdmittedRead(r) || (AdmittedRead(q) == AdmittedRead(r) + 1 && s.liveReads < READ_LIMIT))
    && (AdmittedBytes(q) <= AdmittedBytes(r) ||
        (AdmittedBytes(q) == AdmittedBytes(r) + r.size && s.liveBytes + r.size <= BYTE_LIMIT))
    && (AdmittedWait(q) <= AdmittedWait(r) || (AdmittedWait(q) == AdmittedWait(r) + 1 && s.waiting < WAIT_LIMIT))
  }

  lemma StarterLocal(s: State, r: Request, choice: Choice)
    requires RequestInv(r) && !Allocated(r) && r.owner != Rejected
    ensures var (t, q) := OwnerNext(s, r, choice);
            RequestInv(q) && Balanced(s, t, r, q) && Guarded(s, r, q)
  {
  }

  lemma LaunchLocal(s: State, r: Request, choice: Choice)
    requires RequestInv(r) && r.owner in {Prepared, ChargedWait}
    ensures var (t, q) := OwnerNext(s, r, choice);
            RequestInv(q) && Balanced(s, t, r, q) && Guarded(s, r, q)
  {
  }

  lemma FailLocal(s: State, r: Request, choice: Choice)
    requires RequestInv(r) && r.owner in {UndoWait, FailFirst, FailSecond}
    ensures var (t, q) := OwnerNext(s, r, choice);
            RequestInv(q) && Balanced(s, t, r, q) && Guarded(s, r, q)
  {
  }

  lemma DropLocal(s: State, r: Request, choice: Choice)
    requires RequestInv(r) && r.owner in {Holding, Dropping}
    ensures var (t, q) := OwnerNext(s, r, choice);
            RequestInv(q) && Balanced(s, t, r, q) && Guarded(s, r, q)
  {
  }

  lemma OwnerFreesLocal(s: State, r: Request, choice: Choice)
    requires RequestInv(r) && r.owner.OwnerFrees?
    ensures var (t, q) := OwnerNext(s, r, choice);
            RequestInv(q) && Balanced(s, t, r, q) && Guarded(s, r, q)
  {
  }

  lemma OwnerLocal(s: State, r: Request, choice: Choice)
    requires RequestInv(r) && r.owner != Rejected && r.owner != OwnerDone
    ensures var (t, q) := OwnerNext(s, r, choice);
            RequestInv(q) && Balanced(s, t, r, q) && Guarded(s, r, q)
  {
    if !Allocated(r) {
      StarterLocal(s, r, choice);
    } else if r.owner in {Prepared, ChargedWait} {
      LaunchLocal(s, r, choice);
    } else if r.owner in {UndoWait, FailFirst, FailSecond} {
      FailLocal(s, r, choice);
    } else if r.owner.OwnerFrees? {
      OwnerFreesLocal(s, r, choice);
    } else {
      DropLocal(s, r, choice);
    }
  }

  lemma FinishLocal(s: State, r: Request)
    requires RequestInv(r) && r.worker in {Running, Publishing, Announcing, Signalling}
    ensures var (t, q) := WorkerNext(s, r);
            RequestInv(q) && Balanced(s, t, r, q) && Guarded(s, r, q)
  {
  }

  lemma WorkerReleaseLocal(s: State, r: Request)
    requires RequestInv(r) && r.worker == Releasing
    ensures var (t, q) := WorkerNext(s, r);
            RequestInv(q) && Balanced(s, t, r, q) && Guarded(s, r, q)
  {
  }

  lemma WorkerFreesLocal(s: State, r: Request)
    requires RequestInv(r) && r.worker.WorkerFrees?
    ensures var (t, q) := WorkerNext(s, r);
            RequestInv(q) && Balanced(s, t, r, q) && Guarded(s, r, q)
  {
  }

  lemma WorkerLocal(s: State, r: Request)
    requires RequestInv(r) && r.worker != Absent && r.worker != WorkerDone
    ensures var (t, q) := WorkerNext(s, r);
            RequestInv(q) && Balanced(s, t, r, q) && Guarded(s, r, q)
  {
    if r.worker.WorkerFrees? {
      WorkerFreesLocal(s, r);
    } else if r.worker == Releasing {
      WorkerReleaseLocal(s, r);
    } else {
      FinishLocal(s, r);
    }
  }

  // ---------- what every step of the whole system keeps ----------

  ghost predicate RequestsInv(s: State) {
    forall i :: 0 <= i < |s.requests| ==> RequestInv(s.requests[i])
  }

  ghost predicate CountersInv(s: State) {
    && s.liveReads == Total(ReadCharge, s.requests)
    && s.liveBytes == Total(ByteCharge, s.requests)
    && s.waiting == Total(WaitCharge, s.requests)
  }

  ghost predicate AdmissionInv(s: State) {
    && Total(AdmittedRead, s.requests) <= READ_LIMIT
    && Total(AdmittedBytes, s.requests) <= BYTE_LIMIT
    && Total(AdmittedWait, s.requests) <= WAIT_LIMIT
  }

  /** The worker has passed its increment of completed_reads. */
  predicate Counted(r: Request) {
    r.worker in {Signalling, Releasing, WorkerDone} || r.worker.WorkerFrees?
  }

  ghost predicate SomeoneSignals(s: State) {
    exists i :: 0 <= i < |s.requests| && s.requests[i].worker == Signalling
  }

  /** A request the loop found not ready has been counted only if the epoch has moved since. */
  ghost predicate MissedInv(s: State, epoch: nat, missed: set<nat>) {
    && epoch <= s.completed
    && (forall i :: i in missed ==> i < |s.requests| && (Counted(s.requests[i]) ==> epoch < s.completed))
  }

  ghost predicate LoopInv(s: State) {
    && (!s.loop.Top? ==> MissedInv(s, s.loop.epoch, s.loop.missed))
    && (s.loop.Blocked? && s.completed != s.loop.epoch ==> s.wakeup || SomeoneSignals(s))
  }

  ghost predicate Inv(s: State) {
    RequestsInv(s) && CountersInv(s) && AdmissionInv(s) && LoopInv(s)
  }

  lemma AdmittedAreCharged(requests: seq<Request>)
    ensures Total(AdmittedRead, requests) <= Total(ReadCharge, requests)
    ensures Total(AdmittedBytes, requests) <= Total(ByteCharge, requests)
    ensures Total(AdmittedWait, requests) <= Total(WaitCharge, requests)
  {
    TotalOrder(AdmittedRead, ReadCharge, requests);
    TotalOrder(AdmittedBytes, ByteCharge, requests);
    TotalOrder(AdmittedWait, WaitCharge, requests);
  }

  lemma CountersUpdate(s: State, t: State, i: nat, q: Request)
    requires i < |s.requests| && t.requests == s.requests
    requires CountersInv(s) && AdmissionInv(s)
    requires Balanced(s, t, s.requests[i], q) && Guarded(s, s.requests[i], q)
    ensures CountersInv(WithRequest(t, i, q)) && AdmissionInv(WithRequest(t, i, q))
  {
    TotalUpdate(ReadCharge, s.requests, i, q);
    TotalUpdate(ByteCharge, s.requests, i, q);
    TotalUpdate(WaitCharge, s.requests, i, q);
    TotalUpdate(AdmittedRead, s.requests, i, q);
    TotalUpdate(AdmittedBytes, s.requests, i, q);
    TotalUpdate(AdmittedWait, s.requests, i, q);
    AdmittedAreCharged(s.requests);
  }

  lemma StartKeepsCounters(s: State, r: Request)
    requires CountersInv(s) && AdmissionInv(s)
    requires r.owner == Begin && r.worker == Absent
    ensures CountersInv(s.(requests := s.requests + [r])) && AdmissionInv(s.(requests := s.requests + [r]))
  {
    TotalAppend(ReadCharge, s.requests, r);
    TotalAppend(ByteCharge, s.requests, r);
    TotalAppend(WaitCharge, s.requests, r);
    TotalAppend(AdmittedRead, s.requests, r);
    TotalAppend(AdmittedBytes, s.requests, r);
    TotalAppend(AdmittedWait, s.requests, r);
  }

  lemma StartKeepsLoopInv(s: State, r: Request)
    requires LoopInv(s)
    ensures LoopInv(s.(requests := s.requests + [r]))
  {
    if SomeoneSignals(s) {
      var i :| 0 <= i < |s.requests| && s.requests[i].worker == Signalling;
      assert (s.requests + [r])[i].worker == Signalling;
    }
  }

  /** A step of the owner never counts or signals a completion. */
  lemma OwnerLeavesLoop(s: State, r: Request, choice: Choice)
    requires RequestInv(r) && r.owner != Rejected && r.owner != OwnerDone
    ensures var (t, q) := OwnerNext(s, r, choice);
            && t.requests == s.requests && t.loop == s.loop && t.completed == s.completed && t.wakeup == s.wakeup
            && (q.worker == r.worker || (r.worker == Absent && q.worker == Running))
  {
  }

  lemma QuietUpdateKeepsLoopInv(s: State, t: State, i: nat, q: Request)
    requires LoopInv(s) && i < |s.requests|
    requires t.requests == s.requests && t.loop == s.loop && t.completed == s.completed && t.wakeup == s.wakeup
    requires s.requests[i].worker == Signalling ==> q.worker == Signalling
    requires Counted(q) ==> Counted(s.requests[i])
    ensures LoopInv(WithRequest(t, i, q))
  {
    if SomeoneSignals(s) {
      var j :| 0 <= j < |s.requests| && s.requests[j].worker == Signalling;
      assert s.requests[i := q][j].worker == Signalling;
    }
  }

  lemma OwnerKeepsLoopInv(s: State, i: nat, choice: Choice)
    requires LoopInv(s) && Enabled(s, OwnerStep(i, choice)) && RequestInv(s.requests[i])
    ensures LoopInv(Next(s, OwnerStep(i, choice)))
  {
    var (t, q) := OwnerNext(s, s.requests[i], choice);
    OwnerLeavesLoop(s, s.requests[i], choice);
    QuietUpdateKeepsLoopInv(s, t, i, q);
  }

  /** The increment comes before the signal, so the one that moved the counter has yet to signal. */
  lemma AnnounceKeepsLoopInv(s: State, i: nat)
    requires LoopInv(s) && i < |s.requests| && s.requests[i].worker == Announcing
    ensures LoopInv(Next(s, WorkerStep(i)))
  {
    assert Next(s, WorkerStep(i)).requests[i].worker == Signalling;
  }

  lemma SignalKeepsLoopInv(s: State, i: nat)
    requires LoopInv(s) && i < |s.requests| && s.requests[i].worker == Signalling
    ensures LoopInv(Next(s, WorkerStep(i)))
  {
  }

  lemma OtherWorkLeavesLoop(s: State, r: Request)
    requires r.worker !in {Absent, WorkerDone, Announcing, Signalling}
    ensures var (t, q) := WorkerNext(s, r);
            && t.requests == s.requests && t.loop == s.loop && t.completed == s.completed && t.wakeup == s.wakeup
            && (Counted(q) ==> Counted(r))
  {
  }

  lemma WorkerKeepsLoopInv(s: State, i: nat)
    requires LoopInv(s) && Enabled(s, WorkerStep(i))
    ensures LoopInv(Next(s, WorkerStep(i)))
  {
    var r := s.requests[i];
    if r.worker == Announcing {
      AnnounceKeepsLoopInv(s, i);
    } else if r.worker == Signalling {
      SignalKeepsLoopInv(s, i);
    } else {
      OtherWorkLeavesLoop(s, r);
      QuietUpdateKeepsLoopInv(s, WorkerNext(s, r).0, i, WorkerNext(s, r).1);
    }
  }

  /** Steps of the loop leave requests and counters alone. */
  lemma LoopLeavesRequests(s: State, step: Step)
    requires Enabled(s, step) && !step.Start? && !step.OwnerStep? && !step.WorkerStep?
    ensures Next(s, step) == s.(loop := Next(s, step).loop, wakeup := Next(s, step).wakeup)
  {
  }

  lemma CaptureKeepsLoopInv(s: State)
    requires LoopInv(s) && Enabled(s, Capture)
    ensures LoopInv(Next(s, Capture))
  {
  }

  lemma InspectKeepsLoopInv(s: State, i: nat)
    requires LoopInv(s) && Enabled(s, Inspect(i)) && RequestInv(s.requests[i])
    ensures LoopInv(Next(s, Inspect(i)))
  {
  }

  lemma FinishKeepsLoopInv(s: State)
    requires LoopInv(s) && Enabled(s, FinishPolling)
    ensures LoopInv(Next(s, FinishPolling))
  {
  }

  lemma CheckKeepsLoopInv(s: State)
    requires LoopInv(s) && Enabled(s, Check)
    ensures LoopInv(Next(s, Check))
  {
  }

  lemma ResumeKeepsLoopInv(s: State, step: Step)
    requires LoopInv(s) && Enabled(s, step) && (step.DrainWhilePolling? || step.Wake? || step.TimeOut?)
    ensures LoopInv(Next(s, step))
  {
  }

  lemma LoopKeepsInv(s: State, step: Step)
    requires Inv(s) && Enabled(s, step) && !step.Start? && !step.OwnerStep? && !step.WorkerStep?
    ensures Inv(Next(s, step))
  {
    LoopLeavesRequests(s, step);
    match step
    case Capture => CaptureKeepsLoopInv(s);
    case Inspect(i) => InspectKeepsLoopInv(s, i);
    case FinishPolling => FinishKeepsLoopInv(s);
    case Check => CheckKeepsLoopInv(s);
    case DrainWhilePolling => ResumeKeepsLoopInv(s, step);
    case Wake => ResumeKeepsLoopInv(s, step);
    case TimeOut => ResumeKeepsLoopInv(s, step);
  }

  lemma UpdateKeepsInv(s: State, t: State, i: nat, q: Request)
    requires Inv(s) && i < |s.requests| && t.requests == s.requests && RequestInv(q)
    requires Balanced(s, t, s.requests[i], q) && Guarded(s, s.requests[i], q)
    requires LoopInv(WithRequest(t, i, q))
    ensures Inv(WithRequest(t, i, q))
  {
    CountersUpdate(s, t, i, q);
  }

  lemma OwnerParts(s: State, i: nat, choice: Choice) returns (t: State, q: Request)
    requires Enabled(s, OwnerStep(i, choice)) && RequestInv(s.requests[i])
    ensures t.requests == s.requests && Next(s, OwnerStep(i, choice)) == WithRequest(t, i, q) && RequestInv(q)
    ensures Balanced(s, t, s.requests[i], q) && Guarded(s, s.requests[i], q)
  {
    OwnerLocal(s, s.requests[i], choice);
    OwnerLeavesLoop(s, s.requests[i], choice);
    t, q := OwnerNext(s, s.requests[i], choice).0, OwnerNext(s, s.requests[i], choice).1;
  }

  lemma WorkerParts(s: State, i: nat) returns (t: State, q: Request)
    requires Enabled(s, WorkerStep(i)) && RequestInv(s.requests[i])
    ensures t.requests == s.requests && Next(s, WorkerStep(i)) == WithRequest(t, i, q) && RequestInv(q)
    ensures Balanced(s, t, s.requests[i], q) && Guarded(s, s.requests[i], q)
  {
    WorkerLocal(s, s.requests[i]);
    t, q := WorkerNext(s, s.requests[i]).0, WorkerNext(s, s.requests[i]).1;
  }

  lemma OwnerKeepsInv(s: State, i: nat, choice: Choice)
    requires Inv(s) && Enabled(s, OwnerStep(i, choice))
    ensures Inv(Next(s, OwnerStep(i, choice)))
  {
    var t, q := OwnerParts(s, i, choice);
    OwnerKeepsLoopInv(s, i, choice);
    UpdateKeepsInv(s, t, i, q);
  }

  lemma WorkerKeepsInv(s: State, i: nat)
    requires Inv(s) && Enabled(s, WorkerStep(i))
    ensures Inv(Next(s, WorkerStep(i)))
  {
    var t, q := WorkerParts(s, i);
    WorkerKeepsLoopInv(s, i);
    UpdateKeepsInv(s, t, i, q);
  }

  lemma StepKeepsInv(s: State, step: Step)
    requires Inv(s) && Enabled(s, step)
    ensures Inv(Next(s, step))
  {
    if step.Start? {
      var r := Request(step.size, false, Begin, Absent, 0, false, false, 0);
      StartKeepsCounters(s, r);
      StartKeepsLoopInv(s, r);
    } else if step.OwnerStep? {
      OwnerKeepsInv(s, step.i, step.choice);
    } else if step.WorkerStep? {
      WorkerKeepsInv(s, step.i);
    } else {
      LoopKeepsInv(s, step);
    }
  }

  lemma {:induction false} EveryRunKeepsInv(steps: seq<Step>, s: State)
    requires Run(steps) == Some(s)
    ensures Inv(s)
  {
    if steps != [] {
      var before := Run(steps[..|steps| - 1]).value;
      EveryRunKeepsInv(steps[..|steps| - 1], before);
      StepKeepsInv(before, steps[|steps| - 1]);
    }
  }

  // ---------- theorems over every interleaving ----------

  /** No wakeup is lost.  While the loop is blocked, a completion it has not accounted for (the
      counter has left the captured epoch, or a request it found not ready has become ready) means
      that the descriptor it polls is already readable, or that a worker is between its increment
      and its signal, or that the request's own worker has yet to increment. */
  lemma NoLostWakeup(steps: seq<Step>, s: State)
    requires Run(steps) == Some(s) && s.loop.Blocked?
    ensures s.completed != s.loop.epoch ==> s.wakeup || SomeoneSignals(s)
    ensures forall i :: i in s.loop.missed && i < |s.requests| && s.requests[i].ready ==>
              s.wakeup || SomeoneSignals(s) || s.requests[i].worker == Announcing
  {
    EveryRunKeepsInv(steps, s);
    forall i | i in s.loop.missed && i < |s.requests| && s.requests[i].ready
      ensures s.wakeup || SomeoneSignals(s) || s.requests[i].worker == Announcing
    {
      assert RequestInv(s.requests[i]);
      assert Counted(s.requests[i]) || s.requests[i].worker == Announcing;
    }
  }

  /** So the loop is never stuck on a completion: either it can wake at once, or one step of some
      worker, which nothing can block, lets it. */
  lemma CompletionUnblocksLoop(steps: seq<Step>, s: State)
    requires Run(steps) == Some(s) && s.loop.Blocked? && s.completed != s.loop.epoch
    ensures Enabled(s, Wake) ||
            exists i :: Enabled(s, WorkerStep(i)) && Enabled(Next(s, WorkerStep(i)), Wake)
  {
    NoLostWakeup(steps, s);
    if !s.wakeup {
      var i :| 0 <= i < |s.requests| && s.requests[i].worker == Signalling;
      assert Enabled(s, WorkerStep(i)) && Next(s, WorkerStep(i)).wakeup;
    }
  }

  /** What refused starters have charged and not yet given back. */
  function UndoingRead(r: Request): nat {
    if r.owner == UndoRead || r.owner == UndoBytes then 1 else 0
  }

  function UndoingBytes(r: Request): nat {
    if r.owner == UndoBytes then r.size else 0
  }

  function UndoingWait(r: Request): nat {
    if r.owner == UndoWait then 1 else 0
  }

  lemma {:induction false} ChargedAreAdmittedOrUndoing(requests: seq<Request>)
    ensures Total(ReadCharge, requests) == Total(AdmittedRead, requests) + Total(UndoingRead, requests)
    ensures Total(ByteCharge, requests) == Total(AdmittedBytes, requests) + Total(UndoingBytes, requests)
    ensures Total(WaitCharge, requests) == Total(AdmittedWait, requests) + Total(UndoingWait, requests)
  {
    if requests != [] {
      ChargedAreAdmittedOrUndoing(requests[1..]);
    }
  }

  /** The requests admitted never exceed the limits, and each counter is exactly the charge
      outstanding; it overshoots its limit only by what refused starters have not yet given back. */
  lemma AdmissionIsBounded(steps: seq<Step>, s: State)
    requires Run(steps) == Some(s)
    ensures Total(AdmittedRead, s.requests) <= 256
    ensures Total(AdmittedBytes, s.requests) <= 67108864
    ensures Total(AdmittedWait, s.requests) <= 32
    ensures s.liveReads == Total(ReadCharge, s.requests) >= 0
    ensures s.liveBytes == Total(ByteCharge, s.requests) >= 0
    ensures s.waiting == Total(WaitCharge, s.requests) >= 0
    ensures s.liveReads <= 256 + Total(UndoingRead, s.requests)
    ensures s.liveBytes <= 67108864 + Total(UndoingBytes, s.requests)
    ensures s.waiting <= 32 + Total(UndoingWait, s.requests)
  {
    EveryRunKeepsInv(steps, s);
    ChargedAreAdmittedOrUndoing(s.requests);
  }

  // ---------- who is admitted ----------

  /** What a starter's charge decides, in the numbers of the limits: it is refused exactly when 256 reads,
      or with its own size more than 64 MiB, or 32 waiting workers are charged already. */
  lemma ChargesDecideExactly(steps: seq<Step>, s: State, i: nat, choice: Choice)
    requires Run(steps) == Some(s) && Enabled(s, OwnerStep(i, choice))
    ensures var r, q := s.requests[i], Next(s, OwnerStep(i, choice)).requests[i];
            && (r.owner == Begin ==>
                  q.owner == if Total(ReadCharge, s.requests) >= 256 then UndoRead else ChargedRead)
            && (r.owner == ChargedRead ==>
                  q.owner == if Total(ByteCharge, s.requests) + r.size > 67_108_864 then UndoBytes else Reserved)
            && (r.owner == Reserved ==> q.owner == if choice == Refuse then UndoBytes else Prepared)
            && (r.owner == Prepared && choice == Wait ==>
                  q.owner == if Total(WaitCharge, s.requests) >= 32 then UndoWait else ChargedWait)
            && (r.owner == Prepared && choice == Refuse ==> q.owner == FailFirst)
            && ((r.owner == Prepared && choice == Proceed) || (r.owner == ChargedWait && choice != Refuse) ==>
                  q.owner == Holding && q.worker == Running)
            && (r.owner == ChargedWait && choice == Refuse ==> q.owner == UndoWait)
  {
    EveryRunKeepsInv(steps, s);
  }

  /** A starter stands in front of one of the limits, or of a failing allocation or launch. */
  predicate TurnedAway(s: State, i: nat, choice: Choice) {
    && i < |s.requests|
    && var r := s.requests[i];
       || (r.owner == Begin && Total(ReadCharge, s.requests) >= 256)
       || (r.owner == ChargedRead && Total(ByteCharge, s.requests) + r.size > 67_108_864)
       || (r.owner == Prepared && choice == Wait && Total(WaitCharge, s.requests) >= 32)
       || (r.owner in {Reserved, Prepared, ChargedWait} && choice == Refuse)
  }

  /** The request was started and came to nothing, or is about to. */
  predicate Failed(r: Request) {
    || r.owner in {UndoRead, UndoBytes, Rejected, UndoWait, FailFirst, FailSecond}
    || (r.worker == Absent && (r.owner.OwnerFrees? || r.owner == OwnerDone))
  }

  ghost predicate TurnedAwayAt(steps: seq<Step>, k: nat, i: nat, choice: Choice) {
    && k < |steps| && steps[k] == OwnerStep(i, choice)
    && Run(steps[..k]).Some? && TurnedAway(Run(steps[..k]).value, i, choice)
  }

  /** At some place of the run the request was turned away. */
  ghost predicate WasTurnedAway(steps: seq<Step>, i: nat) {
    exists k, choice :: 0 <= k < |steps| && TurnedAwayAt(steps, k, i, choice)
  }

  lemma TurnedAwayBefore(steps: seq<Step>, step: Step, i: nat)
    requires WasTurnedAway(steps, i)
    ensures WasTurnedAway(steps + [step], i)
  {
    var k, choice :| 0 <= k < |steps| && TurnedAwayAt(steps, k, i, choice);
    assert (steps + [step])[..k] == steps[..k];
    assert TurnedAwayAt(steps + [step], k, i, choice);
  }

  lemma OwnerFailsIfTurnedAway(s: State, r: Request, choice: Choice)
    requires RequestInv(r) && r.owner != Rejected && r.owner != OwnerDone && !Failed(r)
    requires Failed(OwnerNext(s, r, choice).1)
    ensures || (r.owner == Begin && s.liveReads >= 256)
            || (r.owner == ChargedRead && s.liveBytes + r.size > 67_108_864)
            || (r.owner == Prepared && choice == Wait && s.waiting >= 32)
            || (r.owner in {Reserved, Prepared, ChargedWait} && choice == Refuse)
  {
  }

  lemma WorkerNeverFails(s: State, r: Request)
    requires RequestInv(r) && r.worker != Absent && r.worker != WorkerDone
    ensures !Failed(WorkerNext(s, r).1)
  {
  }

  lemma OwnerFailsHere(s: State, j: nat, choice: Choice, i: nat)
    requires Inv(s) && Enabled(s, OwnerStep(j, choice)) && i < |s.requests| && !Failed(s.requests[i])
    requires OwnerNext(s, s.requests[j], choice).0.requests == s.requests
    requires Failed(Next(s, OwnerStep(j, choice)).requests[i])
    ensures i == j && TurnedAway(s, i, choice)
  {
    if i == j { OwnerFailsIfTurnedAway(s, s.requests[i], choice); }
  }

  lemma OtherWorkLeavesRequests(s: State, j: nat)
    requires Enabled(s, WorkerStep(j))
    ensures Next(s, WorkerStep(j)).requests == s.requests[j := WorkerNext(s, s.requests[j]).1]
  {
  }

  function StageRank(stage: Stage): nat {
    match stage
    case ReturnBytes => 3
    case ReturnRead => 2
    case FreeMemory => 1
  }

  function OwnerRank(o: Owner): nat {
    match o
    case Begin => 18
    case ChargedRead => 17
    case Reserved => 16
    case Prepared => 15
    case ChargedWait => 14
    case UndoWait => 6
    case FailFirst => 5
    case FailSecond => 4
    case Holding => 5
    case Dropping => 4
    case OwnerFrees(stage) => StageRank(stage)
    case UndoBytes => 2
    case UndoRead => 1
    case Rejected => 0
    case OwnerDone => 0
  }

  function WorkerRank(w: Worker): nat {
    match w
    case Absent => 0
    case Running => 8
    case Publishing => 7
    case Announcing => 6
    case Signalling => 5
    case Releasing => 4
    case WorkerFrees(stage) => StageRank(stage)
    case WorkerDone => 0
  }

  /** How many steps of its owner and worker a request may still see. */
  function Rank(r: Request): nat {
    OwnerRank(r.owner) + WorkerRank(r.worker)
  }

  predicate PartyStep(step: Step) {
    step.OwnerStep? || step.WorkerStep?
  }

  lemma OwnerRankDrops(s: State, r: Request, choice: Choice)
    requires r.owner != Rejected && r.owner != OwnerDone
    ensures Rank(OwnerNext(s, r, choice).1) < Rank(r)
    ensures OwnerNext(s, r, choice).0.requests == s.requests
  {
  }

  lemma WorkerRankDrops(s: State, r: Request)
    requires r.worker != Absent && r.worker != WorkerDone
    ensures Rank(WorkerNext(s, r).1) < Rank(r)
    ensures WorkerNext(s, r).0.requests == s.requests
  {
  }

  lemma PartyLowersRank(s: State, step: Step)
    requires Enabled(s, step) && PartyStep(step)
    ensures Total(Rank, Next(s, step).requests) < Total(Rank, s.requests)
    ensures |Next(s, step).requests| == |s.requests|
  {
    if step.OwnerStep? {
      OwnerRankDrops(s, s.requests[step.i], step.choice);
      TotalUpdate(Rank, s.requests, step.i, OwnerNext(s, s.requests[step.i], step.choice).1);
    } else {
      WorkerRankDrops(s, s.requests[step.i]);
      TotalUpdate(Rank, s.requests, step.i, WorkerNext(s, s.requests[step.i]).1);
    }
  }

  lemma StepLowersRank(s: State, step: Step)
    requires Enabled(s, step)
    ensures PartyStep(step) ==> Total(Rank, Next(s, step).requests) < Total(Rank, s.requests)
    ensures PartyStep(step) ==> |Next(s, step).requests| == |s.requests|
    ensures step.Start? ==> Total(Rank, Next(s, step).requests) == Total(Rank, s.requests) + 18
    ensures !PartyStep(step) && !step.Start? ==> Next(s, step).requests == s.requests
  {
    if step.Start? {
      TotalAppend(Rank, s.requests, Request(step.size, false, Begin, Absent, 0, false, false, 0));
    } else if PartyStep(step) {
      PartyLowersRank(s, step);
    }
  }

  lemma FailsByOwnStep(s: State, step: Step, i: nat)
    requires Inv(s) && Enabled(s, step) && i < |Next(s, step).requests|
    requires Failed(Next(s, step).requests[i]) && !(i < |s.requests| && Failed(s.requests[i]))
    ensures step.OwnerStep? && step.i == i && TurnedAway(s, i, step.choice)
  {
    StepLowersRank(s, step);
    if step.OwnerStep? {
      OwnerLeavesLoop(s, s.requests[step.i], step.choice);
      OwnerFailsHere(s, step.i, step.choice, i);
    } else if step.WorkerStep? {
      WorkerNeverFails(s, s.requests[step.i]);
      OtherWorkLeavesRequests(s, step.i);
      assert false;
    } else {
      assert false;
    }
  }

  /** Nobody is refused without cause: a request that failed was turned away, in the run that led there,
      at a limit that was reached or by a failing allocation or launch. */
  lemma {:induction false} FailedWasTurnedAway(steps: seq<Step>, s: State, i: nat)
    requires Run(steps) == Some(s) && i < |s.requests| && Failed(s.requests[i])
    ensures WasTurnedAway(steps, i)
  {
    var init, step := steps[..|steps| - 1], steps[|steps| - 1];
    var before := Run(init).value;
    assert init + [step] == steps;
    if i < |before.requests| && Failed(before.requests[i]) {
      FailedWasTurnedAway(init, before, i);
      TurnedAwayBefore(init, step, i);
    } else {
      EveryRunKeepsInv(init, before);
      FailsByOwnStep(before, step, i);
      assert TurnedAwayAt(steps, |init|, i, step.choice);
    }
  }

  /** The steps of a starter to which nothing happens. */
  function StarterSteps(n: nat, size: nat, waits: bool): seq<Step> {
    [Start(size), OwnerStep(n, Proceed), OwnerStep(n, Proceed), OwnerStep(n, Proceed)] +
    if waits then [OwnerStep(n, Wait), OwnerStep(n, Proceed)] else [OwnerStep(n, Proceed)]
  }

  lemma RunStep(steps: seq<Step>, s: State, step: Step)
    requires Run(steps) == Some(s) && Enabled(s, step)
    ensures Run(steps + [step]) == Some(Next(s, step))
  {
    assert (steps + [step])[..|steps|] == steps;
  }

  /** After a starter has charged both counters and has its request. */
  lemma RoomPrepares(steps: seq<Step>, s: State, size: nat) returns (path: seq<Step>, t: State)
    requires Run(steps) == Some(s) && 0 < size <= 1_048_576
    requires Total(ReadCharge, s.requests) < 256 && Total(ByteCharge, s.requests) + size <= 67_108_864
    ensures path == steps + [Start(size)] + [OwnerStep(|s.requests|, Proceed)] + [OwnerStep(|s.requests|, Proceed)]
                    + [OwnerStep(|s.requests|, Proceed)]
    ensures Run(path) == Some(t) && |t.requests| == |s.requests| + 1 && t.requests[..|s.requests|] == s.requests
    ensures t.requests[|s.requests|].owner == Prepared && t.requests[|s.requests|].references == 2
    ensures t.requests[|s.requests|].size == size
    ensures t.waiting == s.waiting
  {
    var n := |s.requests|;
    EveryRunKeepsInv(steps, s);
    var step := OwnerStep(n, Proceed);
    var a := Next(s, Start(size));
    RunStep(steps, s, Start(size));
    var b := Next(a, step);
    RunStep(steps + [Start(size)], a, step);
    var c := Next(b, step);
    RunStep(steps + [Start(size)] + [step], b, step);
    t := Next(c, step);
    RunStep(steps + [Start(size)] + [step] + [step], c, step);
    path := steps + [Start(size)] + [step] + [step] + [step];
  }

  /** The request is in its owner's hands, and its worker runs. */
  predicate Granted(r: Request, size: nat, waits: bool) {
    r.owner == Holding && r.worker == Running && r.references == 2 && r.size == size && r.waits == waits
  }

  lemma LaunchAtOnce(path: seq<Step>, s: State, n: nat) returns (t: State)
    requires Run(path) == Some(s) && n < |s.requests|
    requires s.requests[n].owner == Prepared && s.requests[n].references == 2 && !s.requests[n].waits
    ensures Run(path + [OwnerStep(n, Proceed)]) == Some(t)
    ensures |t.requests| == |s.requests| && t.requests[..n] == s.requests[..n]
    ensures Granted(t.requests[n], s.requests[n].size, false)
  {
    t := Next(s, OwnerStep(n, Proceed));
    RunStep(path, s, OwnerStep(n, Proceed));
  }

  lemma LaunchWaiting(path: seq<Step>, s: State, n: nat) returns (t: State)
    requires Run(path) == Some(s) && n < |s.requests| && s.waiting < 32
    requires s.requests[n].owner == Prepared && s.requests[n].references == 2
    ensures Run(path + [OwnerStep(n, Wait)] + [OwnerStep(n, Proceed)]) == Some(t)
    ensures |t.requests| == |s.requests| && t.requests[..n] == s.requests[..n]
    ensures Granted(t.requests[n], s.requests[n].size, true)
  {
    var q := Next(s, OwnerStep(n, Wait));
    RunStep(path, s, OwnerStep(n, Wait));
    t := Next(q, OwnerStep(n, Proceed));
    RunStep(path + [OwnerStep(n, Wait)], q, OwnerStep(n, Proceed));
  }

  lemma StarterPath(steps: seq<Step>, n: nat, size: nat)
    ensures var path := steps + [Start(size)] + [OwnerStep(n, Proceed)] + [OwnerStep(n, Proceed)]
                        + [OwnerStep(n, Proceed)];
            && path + [OwnerStep(n, Proceed)] == steps + StarterSteps(n, size, false)
            && path + [OwnerStep(n, Wait)] + [OwnerStep(n, Proceed)] == steps + StarterSteps(n, size, true)
  {
  }

  lemma PreparedDoesNotWait(steps: seq<Step>, s: State, n: nat)
    requires Run(steps) == Some(s) && n < |s.requests| && s.requests[n].owner == Prepared
    ensures !s.requests[n].waits
  {
    EveryRunKeepsInv(steps, s);
    assert RequestInv(s.requests[n]);
  }

  /** With room under all limits a starter gets its read: its own steps lead to a request in its hands, with
      a running worker and two references. */
  lemma RoomIsGranted(steps: seq<Step>, s: State, size: nat, waits: bool) returns (t: State)
    requires Run(steps) == Some(s) && 0 < size <= 1_048_576
    requires Total(ReadCharge, s.requests) < 256 && Total(ByteCharge, s.requests) + size <= 67_108_864
    requires waits ==> Total(WaitCharge, s.requests) < 32
    ensures Run(steps + StarterSteps(|s.requests|, size, waits)) == Some(t)
    ensures |t.requests| == |s.requests| + 1 && t.requests[..|s.requests|] == s.requests
    ensures Granted(t.requests[|s.requests|], size, waits)
  {
    var n := |s.requests|;
    AdmissionIsBounded(steps, s);
    StarterPath(steps, n, size);
    var path, p := RoomPrepares(steps, s, size);
    PreparedDoesNotWait(path, p, n);
    if waits {
      t := LaunchWaiting(path, p, n);
    } else {
      t := LaunchAtOnce(path, p, n);
    }
  }

  /** A worker's next four steps store the result, count the completion once and raise the wakeup, in this
      order. */
  lemma CompletionIsAnnounced(s: State, i: nat)
    requires i < |s.requests| && s.requests[i].worker == Running
    ensures var a := Next(s, WorkerStep(i));
            var b := Next(a, WorkerStep(i));
            var c := Next(b, WorkerStep(i));
            var d := Next(c, WorkerStep(i));
            && a.requests[i].ready == s.requests[i].ready && a.completed == s.completed
            && b.requests[i].ready && b.completed == s.completed && b.wakeup == s.wakeup
            && c.completed == s.completed + 1 && c.wakeup == s.wakeup
            && d.wakeup && d.completed == c.completed && d.requests[i].references == s.requests[i].references
  {
  }

  /** The loop blocks exactly when it made no progress and the counter still stands where it was captured
      before polling, and polls again at once otherwise. */
  lemma LoopBlocksExactlyWhenIdle(s: State)
    ensures s.loop.Top? ==> Next(s, Capture).loop.Polling? && Next(s, Capture).loop.epoch == s.completed
    ensures s.loop.Polling? ==>
              Next(s, FinishPolling).loop == if s.loop.work then Top else Checking(s.loop.epoch, s.loop.missed)
    ensures s.loop.Checking? ==>
              Next(s, Check).loop == if s.completed == s.loop.epoch then Blocked(s.loop.epoch, s.loop.missed) else Top
  {
  }

  /** The request whose memory a step reads or writes. */
  function Touched(s: State, step: Step): Option<nat> {
    match step
    case OwnerStep(i, _) => if i < |s.requests| && Allocated(s.requests[i]) then Some(i) else None
    case WorkerStep(i) => Some(i)
    case Inspect(i) => Some(i)
    case _ => None
  }

  /** Nobody touches a request after it has been freed, or after giving up the reference that kept
      it alive: the party that acts holds a reference, or took the last one away and is freeing. */
  lemma NoUseAfterFree(steps: seq<Step>, s: State, step: Step)
    requires Run(steps) == Some(s) && Enabled(s, step) && Touched(s, step).Some?
    ensures var r := s.requests[Touched(s, step).value];
            && r.frees == 0
            && (step.OwnerStep? ==>
                  OwnerHolds(r) > 0 || (r.owner.OwnerFrees? && WorkerHolds(r) == 0 && !r.worker.WorkerFrees?))
            && (step.WorkerStep? ==>
                  WorkerHolds(r) > 0 || (r.worker.WorkerFrees? && OwnerHolds(r) == 0 && !r.owner.OwnerFrees?))
  {
    EveryRunKeepsInv(steps, s);
    assert RequestInv(s.requests[Touched(s, step).value]);
  }

  /** Once both parties are done, the request has been freed exactly once and charges nothing. */
  lemma ReleasedExactlyOnce(steps: seq<Step>, s: State, i: nat)
    requires Run(steps) == Some(s) && i < |s.requests|
    ensures s.requests[i].frees <= 1
    ensures s.requests[i].owner == OwnerDone && s.requests[i].worker in {Absent, WorkerDone} ==>
              && s.requests[i].frees == 1
              && ReadCharge(s.requests[i]) == ByteCharge(s.requests[i]) == WaitCharge(s.requests[i]) == 0
    ensures s.requests[i].owner == Rejected ==> s.requests[i].frees == 0
  {
    EveryRunKeepsInv(steps, s);
    assert RequestInv(s.requests[i]);
  }

  // ---------- every request settles ----------

  function PartySteps(steps: seq<Step>): nat {
    if steps == [] then 0
    else PartySteps(steps[..|steps| - 1]) + if PartyStep(steps[|steps| - 1]) then 1 else 0
  }

  /** No run can keep a request busy: owners and workers together make at most eighteen steps for each
      request started, whatever the interleaving and whatever fails. */
  lemma {:induction false} StepsAreBounded(steps: seq<Step>, s: State)
    requires Run(steps) == Some(s)
    ensures PartySteps(steps) + Total(Rank, s.requests) <= 18 * |s.requests|
  {
    if steps != [] {
      var before := Run(steps[..|steps| - 1]).value;
      StepsAreBounded(steps[..|steps| - 1], before);
      StepLowersRank(before, steps[|steps| - 1]);
    }
  }

  predicate Settled(r: Request) {
    r.owner == Rejected || (r.owner == OwnerDone && r.worker in {Absent, WorkerDone})
  }

  ghost predicate AllSettled(requests: seq<Request>) {
    forall i :: 0 <= i < |requests| ==> Settled(requests[i])
  }

  lemma UnsettledCanStep(s: State, i: nat) returns (step: Step)
    requires i < |s.requests| && !Settled(s.requests[i])
    ensures Enabled(s, step) && PartyStep(step)
  {
    step := if s.requests[i].owner == OwnerDone then WorkerStep(i) else OwnerStep(i, Proceed);
  }

  lemma MoveOn(steps: seq<Step>, s: State, i: nat) returns (step: Step, t: State)
    requires Run(steps) == Some(s) && i < |s.requests| && !Settled(s.requests[i])
    ensures Run(steps + [step]) == Some(t) && |t.requests| == |s.requests|
    ensures Total(Rank, t.requests) < Total(Rank, s.requests)
  {
    step := UnsettledCanStep(s, i);
    t := Next(s, step);
    RunStep(steps, s, step);
    PartyLowersRank(s, step);
  }

  /** Some continuation of the run leads to this state. */
  ghost predicate LeadsTo(steps: seq<Step>, t: State) {
    exists more: seq<Step> :: Run(steps + more) == Some(t)
  }

  lemma LeadsHere(steps: seq<Step>, s: State)
    requires Run(steps) == Some(s)
    ensures LeadsTo(steps, s)
  {
    assert steps + [] == steps;
  }

  lemma LeadsOn(steps: seq<Step>, step: Step, t: State)
    requires LeadsTo(steps + [step], t)
    ensures LeadsTo(steps, t)
  {
    var rest: seq<Step> :| Run((steps + [step]) + rest) == Some(t);
    assert (steps + [step]) + rest == steps + ([step] + rest);
  }

  lemma {:induction false} SettledChargeNothing(requests: seq<Request>)
    requires forall i :: 0 <= i < |requests| ==> RequestInv(requests[i]) && Settled(requests[i])
    ensures Total(ReadCharge, requests) == Total(ByteCharge, requests) == Total(WaitCharge, requests) == 0
  {
    if requests != [] {
      assert RequestInv(requests[0]);
      SettledChargeNothing(requests[1..]);
    }
  }

  /** No run leaks capacity: when every request has settled, all counters are back at zero. */
  lemma CountersReturnToZero(steps: seq<Step>, s: State)
    requires Run(steps) == Some(s)
    requires AllSettled(s.requests)
    ensures s.liveReads == 0 && s.liveBytes == 0 && s.waiting == 0
  {
    EveryRunKeepsInv(steps, s);
    SettledChargeNothing(s.requests);
  }

  /** And nothing is ever stuck: a request that has not settled has a party that can step, so every
      run extends to one in which all requests have settled and every counter is zero again. */
  lemma {:induction false} EveryRunCanSettle(steps: seq<Step>, s: State) returns (t: State)
    requires Run(steps) == Some(s)
    ensures LeadsTo(steps, t) && |t.requests| == |s.requests| && AllSettled(t.requests)
    ensures t.liveReads == 0 && t.liveBytes == 0 && t.waiting == 0
    decreases Total(Rank, s.requests)
  {
    if AllSettled(s.requests) {
      t := s;
      LeadsHere(steps, s);
      CountersReturnToZero(steps, s);
    } else {
      var i :| 0 <= i < |s.requests| && !Settled(s.requests[i]);
      var step, next := MoveOn(steps, s, i);
      t := EveryRunCanSettle(steps + [step], next);
      LeadsOn(steps, step, t);
    }
  }
}
