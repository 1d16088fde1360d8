/** sendParallel of go/internal/client/dns_engine.go as a state machine: one worker per chunk
    and relay, a semaphore of 15, the monitor goroutine and the caller's select loop, in every
    interleaving. Chunk and relay numbers name the workers. */
module Sender {
  import opened Counting

  const PARALLELISM: nat := 15

  type Job = (nat, nat)  // chunk, relay

  datatype Worker =
    | NotStarted
    | Waiting      // for the semaphore, or for cancellation
    | Holding      // has a slot, before the second look at the context
    | Sending
    | Succeeded    // SendChunk returned nil, the flag is not set yet
    | Releasing    // about to give the slot back
    | Exiting      // about to call wg.Done
    | Finished

  datatype Caller =
    | Spawning
    | Looping
    | AwaitingSuccess  // all chunks delivered, cancelled, waiting for done
    | AwaitingFailure  // context ended, waiting for done
    | Returned(ok: bool)

  datatype State = State(
    chunks: nat,
    relays: nat,
    workers: map<Job, Worker>,
    slots: nat,            // taken semaphore slots
    waitGroup: nat,
    delivered: set<nat>,   // chunkDelivered
    accepted: set<Job>,    // sends that a relay has accepted
    cancelled: bool,       // childCtx is done
    done: bool,            // the monitor closed `done`
    caller: Caller)

  ghost function Jobs(chunks: nat, relays: nat): set<Job> {
    set i: nat, r: nat | i in Range(chunks) && r in Range(relays) :: (i, r)
  }

  predicate HasSlot(w: Worker) { w in {Holding, Sending, Succeeded, Releasing} }

  predicate Running(w: Worker) { w !in {NotStarted, Finished} }

  ghost function SlotHolders(s: State): set<Job> { set j | j in s.workers && HasSlot(s.workers[j]) }

  ghost function InFlight(s: State): set<Job> { set j | j in s.workers && s.workers[j] == Sending }

  ghost function StillRunning(s: State): set<Job> { set j | j in s.workers && Running(s.workers[j]) }

  predicate AllDelivered(s: State) { forall i: nat | i in Range(s.chunks) :: i in s.delivered }

  ghost predicate SomeAccepted(accepted: set<Job>, i: nat) { exists r: nat :: (i, r) in accepted }

  /** Every chunk was accepted by some relay. */
  ghost predicate AllAccepted(s: State) { forall i: nat | i < s.chunks :: SomeAccepted(s.accepted, i) }

  // ----- steps -----

  /** With no chunks or no relays sendParallel returns nil at once. */
  ghost predicate Init(s: State) {
    && s.workers == (map j | j in Jobs(s.chunks, s.relays) :: NotStarted)
    && s.slots == 0 && s.waitGroup == 0 && s.delivered == {} && s.accepted == {} && !s.cancelled && !s.done
    && s.caller == if s.chunks == 0 || s.relays == 0 then Returned(true) else Spawning
  }

  function Set(s: State, j: Job, w: Worker): State { s.(workers := s.workers[j := w]) }

  /** What worker `j` may do next. A failed SendChunk may or may not have been accepted. */
  ghost predicate WorkerStep(s: State, j: Job, t: State) {
    j in s.workers &&
    match s.workers[j]
    case NotStarted => false
    case Waiting =>
      || (s.slots < PARALLELISM && t == Set(s, j, Holding).(slots := s.slots + 1))
      || (s.cancelled && t == Set(s, j, Exiting))
    case Holding => t == Set(s, j, if s.cancelled then Releasing else Sending)
    case Sending =>
      || t == Set(s, j, Succeeded).(accepted := s.accepted + {j})
      || t == Set(s, j, Releasing)
      || t == Set(s, j, Releasing).(accepted := s.accepted + {j})
    case Succeeded => t == Set(s, j, Releasing).(delivered := s.delivered + {j.0})
    case Releasing => s.slots > 0 && t == Set(s, j, Exiting).(slots := s.slots - 1)
    case Exiting => s.waitGroup > 0 && t == Set(s, j, Finished).(waitGroup := s.waitGroup - 1)
    case Finished => false
  }

  ghost predicate Spawn(s: State, j: Job, t: State) {
    && s.caller == Spawning && j in s.workers && s.workers[j] == NotStarted
    && t == Set(s, j, Waiting).(waitGroup := s.waitGroup + 1)
  }

  /** The loops over chunks and relays are over; the monitor starts. */
  ghost predicate EnterLoop(s: State, t: State) {
    && s.caller == Spawning && (forall j | j in s.workers :: s.workers[j] != NotStarted)
    && t == s.(caller := Looping)
  }

  ghost predicate MonitorStep(s: State, t: State) {
    && s.caller != Spawning && !s.caller.Returned? && s.waitGroup == 0 && t == s.(done := true)
  }

  ghost predicate CallerStep(s: State, t: State) {
    match s.caller
    case Spawning => false
    case Looping =>
      || (s.done && t == s.(caller := Returned(AllDelivered(s))))
      || (s.cancelled && t == s.(caller := AwaitingFailure))
      || (AllDelivered(s) && t == s.(cancelled := true, caller := AwaitingSuccess))
    case AwaitingSuccess => s.done && t == s.(caller := Returned(true))
    case AwaitingFailure => s.done && t == s.(caller := Returned(false))
    case Returned(_) => false
  }

  /** The parent context may end at any time. */
  ghost predicate Cancel(s: State, t: State) { t == s.(cancelled := true) }

  /** The sender's own steps. */
  ghost predicate Step(s: State, t: State) {
    || (exists j :: WorkerStep(s, j, t))
    || (exists j :: Spawn(s, j, t))
    || EnterLoop(s, t) || MonitorStep(s, t) || CallerStep(s, t)
  }

  ghost predicate Next(s: State, t: State) { Step(s, t) || Cancel(s, t) }

  // ----- the invariant -----

  /** The two counters count what they stand for. */
  ghost predicate Counts(s: State) {
    && s.workers.Keys == Jobs(s.chunks, s.relays)
    && s.slots == |SlotHolders(s)| <= PARALLELISM
    && s.waitGroup == |StillRunning(s)|
  }

  /** Flags and successes stand for accepted sends. */
  ghost predicate Flags(s: State) {
    && (forall j | j in s.workers && s.workers[j] == Succeeded :: j in s.accepted)
    && (forall i: nat | i in s.delivered :: SomeAccepted(s.accepted, i))
  }

  /** What the caller knows in each phase. */
  ghost predicate Phases(s: State) {
    && (s.caller != Spawning ==> forall j | j in s.workers :: s.workers[j] != NotStarted)
    && (s.done ==> s.caller != Spawning && StillRunning(s) == {})
    && (s.caller == AwaitingSuccess ==> AllDelivered(s))
    && (s.caller.Returned? && s.chunks > 0 && s.relays > 0 ==> s.done)
    && (s.caller == Returned(true) && s.relays > 0 ==> AllDelivered(s))
  }

  ghost predicate Inv(s: State) { Counts(s) && Flags(s) && Phases(s) }

  lemma InitInv(s: State)
    requires Init(s)
    ensures Inv(s)
  {
    assert SlotHolders(s) == {} && StillRunning(s) == {};
    assert s.chunks == 0 || s.relays == 0 ==> Jobs(s.chunks, s.relays) == {};
  }

  /** Moving one worker changes the two counted sets by at most that worker. */
  lemma MoveWorker(s: State, j: Job, t: State)
    requires j in s.workers && j in t.workers && t.workers == s.workers[j := t.workers[j]]
    ensures SlotHolders(t) == if HasSlot(t.workers[j]) then SlotHolders(s) + {j} else SlotHolders(s) - {j}
    ensures StillRunning(t) == if Running(t.workers[j]) then StillRunning(s) + {j} else StillRunning(s) - {j}
    ensures t.workers.Keys == s.workers.Keys
  {}

  /** The shape of a worker step: one worker moves, and with it at most one counter. */
  lemma WorkerShape(s: State, j: Job, t: State)
    requires WorkerStep(s, j, t)
    ensures j in s.workers && t.workers == s.workers[j := t.workers[j]]
    ensures t.slots - s.slots == (if HasSlot(t.workers[j]) then 1 else 0) - (if HasSlot(s.workers[j]) then 1 else 0)
    ensures t.waitGroup - s.waitGroup == (if Running(t.workers[j]) then 1 else 0) - (if Running(s.workers[j]) then 1 else 0)
    ensures t.slots > s.slots ==> t.slots <= PARALLELISM
    ensures s.accepted <= t.accepted && s.delivered <= t.delivered <= s.delivered + {j.0}
    ensures t.workers[j] == Succeeded ==> j in t.accepted
    ensures j.0 in t.delivered && j.0 !in s.delivered ==> s.workers[j] == Succeeded
    ensures Running(s.workers[j]) && t.workers[j] != NotStarted
    ensures t.chunks == s.chunks && t.relays == s.relays && t.done == s.done && t.caller == s.caller
  {}

  lemma WorkerCounts(s: State, j: Job, t: State)
    requires Counts(s) && WorkerStep(s, j, t)
    ensures Counts(t)
  {
    WorkerShape(s, j, t);
    MoveWorker(s, j, t);
    assert j in SlotHolders(s) <==> HasSlot(s.workers[j]);
    assert j in StillRunning(s) <==> Running(s.workers[j]);
  }

  lemma WorkerFlags(s: State, j: Job, t: State)
    requires Flags(s) && WorkerStep(s, j, t)
    ensures Flags(t)
  {
    WorkerShape(s, j, t);
    forall i: nat | i in t.delivered ensures SomeAccepted(t.accepted, i) {
      if i in s.delivered {
        var r: nat :| (i, r) in s.accepted;
        assert (i, r) in t.accepted;
      } else {
        assert i == j.0 && (i, j.1) in s.accepted;
        assert (i, j.1) in t.accepted;
      }
    }
  }

  lemma WorkerPhases(s: State, j: Job, t: State)
    requires Phases(s) && WorkerStep(s, j, t)
    ensures Phases(t)
  {
    WorkerShape(s, j, t);
    assert j in StillRunning(s);
  }

  lemma SpawnCounts(s: State, j: Job, t: State)
    requires Counts(s) && Spawn(s, j, t)
    ensures Counts(t)
  {
    SpawnMoves(s, j, t);
    assert |StillRunning(s) + {j}| == |StillRunning(s)| + 1;
  }

  lemma SpawnMoves(s: State, j: Job, t: State)
    requires Spawn(s, j, t)
    ensures SlotHolders(t) == SlotHolders(s) && t.workers.Keys == s.workers.Keys
    ensures j !in StillRunning(s) && StillRunning(t) == StillRunning(s) + {j}
  {
    assert t.workers == s.workers[j := Waiting];
    assert HasSlot(s.workers[j]) == HasSlot(Waiting) == false && !Running(s.workers[j]) && Running(Waiting);
  }

  lemma SpawnFlags(s: State, j: Job, t: State)
    requires Flags(s) && Phases(s) && Spawn(s, j, t)
    ensures Flags(t) && Phases(t)
  {}

  lemma QuietStep(s: State, t: State)
    requires Inv(s) && (EnterLoop(s, t) || MonitorStep(s, t) || CallerStep(s, t) || Cancel(s, t))
    ensures Inv(t)
  {
    SameWorkers(s, t);
  }

  lemma SameWorkers(s: State, t: State)
    requires Counts(s) && Flags(s) && t.workers == s.workers && t.slots == s.slots && t.waitGroup == s.waitGroup
    requires t.chunks == s.chunks && t.relays == s.relays && t.delivered == s.delivered && t.accepted == s.accepted
    ensures Counts(t) && Flags(t) && StillRunning(t) == StillRunning(s)
  {
    assert SlotHolders(t) == SlotHolders(s) && StillRunning(t) == StillRunning(s);
  }

  lemma NextInv(s: State, t: State)
    requires Inv(s) && Next(s, t)
    ensures Inv(t)
  {
    if j :| WorkerStep(s, j, t) {
      WorkerCounts(s, j, t);
      WorkerFlags(s, j, t);
      WorkerPhases(s, j, t);
    } else if j :| Spawn(s, j, t) {
      SpawnCounts(s, j, t);
      SpawnFlags(s, j, t);
    } else {
      QuietStep(s, t);
    }
  }

  ghost predicate Run(states: seq<State>) {
    && states != [] && Init(states[0])
    && forall j: nat, k: nat | j + 1 == k < |states| :: Next(states[j], states[k])
  }

  lemma {:induction false} RunInv(states: seq<State>, k: nat)
    requires Run(states) && k < |states|
    ensures Inv(states[k])
  {
    if k == 0 {
      InitInv(states[0]);
    } else {
      RunInv(states, k - 1);
      NextInv(states[k - 1], states[k]);
    }
  }

  /** In every interleaving: at most 15 sends are in flight; a delivered flag is set only after
      some relay accepted that chunk; after a return no worker is running; and a nil return means
      that every chunk was accepted by some relay, given at least one relay. */
  lemma Safety(states: seq<State>, k: nat)
    requires Run(states) && k < |states|
    ensures var s := states[k];
            && |InFlight(s)| <= 15
            && (forall i: nat | i in s.delivered :: SomeAccepted(s.accepted, i))
            && (s.caller.Returned? && s.relays > 0 ==> forall j | j in s.workers :: s.workers[j] == Finished)
            && (s.caller == Returned(true) && s.relays > 0 ==> AllAccepted(s))
  {
    RunInv(states, k);
    InvIsSafe(states[k]);
  }

  lemma InvIsSafe(s: State)
    requires Inv(s)
    ensures |InFlight(s)| <= 15
    ensures s.caller.Returned? && s.relays > 0 ==> forall j | j in s.workers :: s.workers[j] == Finished
    ensures s.caller == Returned(true) && s.relays > 0 ==> AllAccepted(s)
  {
    SubsetSize(InFlight(s), SlotHolders(s));
    if s.caller.Returned? && s.relays > 0 {
      forall j | j in s.workers ensures s.workers[j] == Finished {
        assert s.chunks > 0;
        assert j !in StillRunning(s);
      }
    }
  }

  lemma SameRelays(s: State, t: State)
    requires Next(s, t)
    ensures t.chunks == s.chunks && t.relays == s.relays
  {
    if j :| WorkerStep(s, j, t) {
      WorkerShape(s, j, t);
    }
  }

  ghost predicate AcceptsJobs(s: State) { s.accepted <= Jobs(s.chunks, s.relays) }

  lemma AcceptsJobsStep(s: State, t: State)
    requires Inv(s) && AcceptsJobs(s) && Next(s, t)
    ensures AcceptsJobs(t)
  {
    SameRelays(s, t);
    AcceptsItsJob(s, t);
  }

  /** Only the sender's own jobs are ever accepted. */
  lemma {:induction false} AcceptedAreJobs(states: seq<State>, k: nat)
    requires Run(states) && k < |states|
    ensures AcceptsJobs(states[k])
  {
    if k > 0 {
      RunInv(states, k - 1);
      AcceptedAreJobs(states, k - 1);
      AcceptsJobsStep(states[k - 1], states[k]);
    }
  }

  lemma NothingAccepted(states: seq<State>, k: nat)
    requires Run(states) && k < |states|
    ensures states[k].relays == 0 ==> states[k].accepted == {}
  {
    AcceptedAreJobs(states, k);
    assert Jobs(states[k].chunks, 0) == {};
  }

  lemma AcceptsItsJob(s: State, t: State)
    requires Next(s, t)
    ensures t.accepted <= s.accepted + s.workers.Keys
  {
    if j :| WorkerStep(s, j, t) {
      WorkerAccepts(s, j, t);
    }
  }

  lemma WorkerAccepts(s: State, j: Job, t: State)
    requires WorkerStep(s, j, t)
    ensures j in s.workers && t.accepted <= s.accepted + {j}
  {}

  /** In every run, a nil return means that every chunk was accepted exactly when there is a relay or
      nothing to send. Without relays nil is returned although nothing was sent. */
  lemma NilIsExact(states: seq<State>, k: nat)
    requires Run(states) && k < |states| && states[k].caller == Returned(true)
    ensures AllAccepted(states[k]) <==> states[k].chunks == 0 || states[k].relays > 0
  {
    RunInv(states, k);
    InvIsSafe(states[k]);
    if states[k].relays == 0 && states[k].chunks > 0 {
      NothingAccepted(states, k);
      assert !SomeAccepted(states[k].accepted, 0);
    }
  }

  // ----- error returns -----

  /** A run without a cancellation from outside. */
  ghost predicate OwnRun(states: seq<State>) {
    Run(states) && forall j: nat, k: nat | j + 1 == k < |states| :: Step(states[j], states[k])
  }

  /** What a caller without cancellation from outside knows. */
  ghost predicate Unhurried(s: State) {
    && (s.cancelled ==> s.caller == AwaitingSuccess || s.caller == Returned(true))
    && s.caller != AwaitingFailure
    && (s.caller == Returned(false) ==> !AllDelivered(s))
  }

  /** After the return no worker is left to make a step. */
  lemma ReturnIsFinal(s: State, j: Job, t: State)
    requires Inv(s) && s.caller.Returned?
    ensures !WorkerStep(s, j, t)
  {
    if j in s.workers {
      assert s.chunks > 0 && s.relays > 0;
      assert j !in StillRunning(s);
    }
  }

  lemma UnhurriedStep(s: State, t: State)
    requires Inv(s) && Unhurried(s) && Step(s, t)
    ensures Unhurried(t)
  {
    if j :| WorkerStep(s, j, t) {
      if s.caller.Returned? {
        ReturnIsFinal(s, j, t);
      } else {
        WorkerShape(s, j, t);
        WorkerKeepsContext(s, j, t);
      }
    }
  }

  lemma WorkerKeepsContext(s: State, j: Job, t: State)
    requires WorkerStep(s, j, t)
    ensures t.cancelled == s.cancelled
  {}

  lemma InitUnhurried(s: State)
    requires Init(s)
    ensures Unhurried(s)
  {}

  lemma OwnStep(states: seq<State>, k: nat, next: nat)
    requires OwnRun(states) && next == k + 1 < |states| && Unhurried(states[k])
    ensures Unhurried(states[next])
  {
    RunInv(states, k);
    assert Step(states[k], states[next]);
    UnhurriedStep(states[k], states[next]);
  }

  lemma {:induction false} OwnRunUnhurried(states: seq<State>, k: nat)
    requires OwnRun(states) && k < |states|
    ensures Unhurried(states[k])
  {
    if k == 0 {
      InitUnhurried(states[0]);
    } else {
      OwnRunUnhurried(states, k - 1);
      OwnStep(states, k - 1, k);
    }
  }

  /** Without a cancellation from outside, the sender returns nil exactly when every chunk is flagged as
      delivered. */
  lemma OwnReturnIsExact(states: seq<State>, k: nat)
    requires OwnRun(states) && k < |states| && states[k].caller.Returned? && states[k].relays > 0
    ensures states[k].caller.ok <==> AllDelivered(states[k])
  {
    OwnRunUnhurried(states, k);
    RunInv(states, k);
  }

  // ----- what the return says about the sends -----

  /** In one of the first `k + 1` states the send of job `j` had just succeeded. */
  ghost predicate SucceededBy(states: seq<State>, k: nat, j: Job)
    requires k < |states|
  {
    exists m: nat :: m <= k && j in states[m].workers && states[m].workers[j] == Succeeded
  }

  ghost predicate ChunkSucceededBy(states: seq<State>, k: nat, i: nat)
    requires k < |states|
  {
    exists r: nat :: SucceededBy(states, k, (i, r))
  }

  /** A step sets a flag only for a send that had succeeded. */
  lemma FlagNeedsSuccess(s: State, t: State, i: nat)
    requires Next(s, t) && i in t.delivered && i !in s.delivered
    ensures exists r: nat :: (i, r) in s.workers && s.workers[(i, r)] == Succeeded
  {
    var j :| WorkerStep(s, j, t);
    WorkerShape(s, j, t);
    assert j == (i, j.1);
  }

  /** A send that had succeeded stays so until its flag is set. */
  lemma SuccessSetsFlag(s: State, t: State, j: Job)
    requires Next(s, t) && j in s.workers && s.workers[j] == Succeeded
    ensures j.0 in t.delivered || (j in t.workers && t.workers[j] == Succeeded)
    ensures s.delivered <= t.delivered
  {
    if w :| WorkerStep(s, w, t) {
      WorkerShape(s, w, t);
      if w == j { SuccessStep(s, j, t); }
    }
  }

  lemma SuccessStep(s: State, j: Job, t: State)
    requires WorkerStep(s, j, t) && s.workers[j] == Succeeded
    ensures j.0 in t.delivered
  {}

  lemma FlagsGrow(s: State, t: State)
    requires Next(s, t)
    ensures s.delivered <= t.delivered
  {
    if w :| WorkerStep(s, w, t) { WorkerShape(s, w, t); }
  }

  lemma SucceededLater(states: seq<State>, k: nat, i: nat)
    requires 0 < k < |states| && ChunkSucceededBy(states, k - 1, i)
    ensures ChunkSucceededBy(states, k, i)
  {
    var r: nat :| SucceededBy(states, k - 1, (i, r));
    assert SucceededBy(states, k, (i, r));
  }

  lemma SucceededJust(states: seq<State>, k: nat, i: nat, r: nat)
    requires 0 < k < |states| && (i, r) in states[k - 1].workers && states[k - 1].workers[(i, r)] == Succeeded
    ensures ChunkSucceededBy(states, k, i)
  {
    assert SucceededBy(states, k, (i, r));
  }

  lemma FlagSetNow(states: seq<State>, k: nat, i: nat)
    requires 0 < k < |states| && Next(states[k - 1], states[k])
    requires i in states[k].delivered && i !in states[k - 1].delivered
    ensures ChunkSucceededBy(states, k, i)
  {
    FlagNeedsSuccess(states[k - 1], states[k], i);
    var r: nat :| (i, r) in states[k - 1].workers && states[k - 1].workers[(i, r)] == Succeeded;
    SucceededJust(states, k, i, r);
  }

  lemma NoFlagYet(states: seq<State>, i: nat)
    requires Run(states)
    ensures i !in states[0].delivered
  {}

  lemma {:induction false} FlagMeansSuccess(states: seq<State>, k: nat, i: nat)
    requires Run(states) && k < |states| && i in states[k].delivered
    ensures ChunkSucceededBy(states, k, i)
  {
    NoFlagYet(states, i);
    if i in states[k - 1].delivered {
      FlagMeansSuccess(states, k - 1, i);
      SucceededLater(states, k, i);
    } else {
      FlagSetNow(states, k, i);
    }
  }

  /** The send of `j` has succeeded, and its flag is set or about to be. */
  ghost predicate Settled(s: State, j: Job) {
    j.0 in s.delivered || (j in s.workers && s.workers[j] == Succeeded)
  }

  lemma SettledStep(s: State, t: State, j: Job)
    requires Next(s, t) && Settled(s, j)
    ensures Settled(t, j)
  {
    FlagsGrow(s, t);
    if j.0 !in s.delivered { SuccessSetsFlag(s, t, j); }
  }

  lemma {:induction false} SuccessIsFlagged(states: seq<State>, m: nat, k: nat, j: Job)
    requires Run(states) && m <= k < |states| && Settled(states[m], j)
    ensures Settled(states[k], j)
    decreases k
  {
    if m < k {
      SuccessIsFlagged(states, m, k - 1, j);
      SettledStep(states[k - 1], states[k], j);
    }
  }

  /** After the return, the flags are exactly the chunks of which some send succeeded. */
  lemma FlagsAreSuccesses(states: seq<State>, k: nat, i: nat)
    requires Run(states) && k < |states| && states[k].caller.Returned? && states[k].relays > 0
    ensures i in states[k].delivered <==> ChunkSucceededBy(states, k, i)
  {
    if i in states[k].delivered { FlagMeansSuccess(states, k, i); }
    if r: nat :| SucceededBy(states, k, (i, r)) {
      var m: nat :| m <= k && (i, r) in states[m].workers && states[m].workers[(i, r)] == Succeeded;
      SuccessIsFlagged(states, m, k, (i, r));
      RunInv(states, k);
      InvIsSafe(states[k]);
    }
  }

  /** Without a cancellation from outside, the sender returns nil exactly when of every chunk some relay's
      send succeeded. */
  lemma NilExactlyOnSuccess(states: seq<State>, k: nat)
    requires OwnRun(states) && k < |states| && states[k].caller.Returned? && states[k].relays > 0
    ensures states[k].caller.ok <==> forall i: nat | i < states[k].chunks :: ChunkSucceededBy(states, k, i)
  {
    OwnReturnIsExact(states, k);
    forall i: nat ensures i in states[k].delivered <==> ChunkSucceededBy(states, k, i) {
      FlagsAreSuccesses(states, k, i);
    }
    AllDeliveredIs(states[k]);
  }

  lemma AllDeliveredIs(s: State)
    ensures AllDelivered(s) <==> forall i: nat | i < s.chunks :: i in s.delivered
  {
    assert forall i: nat :: i in Range(s.chunks) <==> i < s.chunks;
  }

  // ----- the semaphore and the context -----

  /** As long as fewer than 15 workers hold a slot, a waiting one can take one. */
  lemma SlotIsFree(states: seq<State>, k: nat, j: Job) returns (t: State)
    requires Run(states) && k < |states| && j in states[k].workers && states[k].workers[j] == Waiting
    requires |SlotHolders(states[k])| < 15
    ensures Step(states[k], t) && j in t.workers && t.workers[j] == Holding
  {
    RunInv(states, k);
    t := Set(states[k], j, Holding).(slots := states[k].slots + 1);
    assert WorkerStep(states[k], j, t);
  }

  /** Once the context has ended, a waiting worker can leave, also when no slot is free. */
  lemma WaiterLeaves(s: State, j: Job) returns (t: State)
    requires s.cancelled && j in s.workers && s.workers[j] == Waiting
    ensures Step(s, t) && t == s.(workers := s.workers[j := Exiting])
  {
    t := Set(s, j, Exiting);
    assert WorkerStep(s, j, t);
  }

  /** Once the context has ended, no further send starts. */
  lemma NoSendAfterCancel(s: State, t: State)
    requires Next(s, t) && s.cancelled
    ensures InFlight(t) <= InFlight(s) && t.cancelled
  {
    if j :| WorkerStep(s, j, t) {
      WorkerShape(s, j, t);
      WorkerKeepsContext(s, j, t);
      CancelledWorker(s, j, t);
    }
  }

  lemma CancelledWorker(s: State, j: Job, t: State)
    requires WorkerStep(s, j, t) && s.cancelled
    ensures t.workers[j] != Sending
  {}

  // ----- a false failure -----

  const ONLY: Job := (0, 0)

  /** One worker, for chunk 0 and relay 0. */
  function Solo(w: Worker, slots: nat, running: nat, delivered: set<nat>, accepted: set<Job>,
                cancelled: bool, done: bool, caller: Caller): State {
    State(1, 1, map[ONLY := w], slots, running, delivered, accepted, cancelled, done, caller)
  }

  /** One chunk is accepted and flagged; then the context ends before the caller's next tick. */
  function Stage(k: nat): State {
    match k
    case 0 => Solo(NotStarted, 0, 0, {}, {}, false, false, Spawning)
    case 1 => Solo(Waiting, 0, 1, {}, {}, false, false, Spawning)
    case 2 => Solo(Waiting, 0, 1, {}, {}, false, false, Looping)
    case 3 => Solo(Holding, 1, 1, {}, {}, false, false, Looping)
    case 4 => Solo(Sending, 1, 1, {}, {}, false, false, Looping)
    case 5 => Solo(Succeeded, 1, 1, {}, {ONLY}, false, false, Looping)
    case 6 => Solo(Releasing, 1, 1, {0}, {ONLY}, false, false, Looping)
    case 7 => Solo(Releasing, 1, 1, {0}, {ONLY}, true, false, Looping)
    case 8 => Solo(Releasing, 1, 1, {0}, {ONLY}, true, false, AwaitingFailure)
    case 9 => Solo(Exiting, 0, 1, {0}, {ONLY}, true, false, AwaitingFailure)
    case 10 => Solo(Finished, 0, 0, {0}, {ONLY}, true, false, AwaitingFailure)
    case 11 => Solo(Finished, 0, 0, {0}, {ONLY}, true, true, AwaitingFailure)
    case _ => Solo(Finished, 0, 0, {0}, {ONLY}, true, true, Returned(false))
  }

  lemma SetSolo(s: State, w: Worker)
    requires s.workers.Keys == {ONLY}
    ensures Set(s, ONLY, w) == s.(workers := map[ONLY := w])
  {
    assert s.workers[ONLY := w] == map[ONLY := w];
  }

  lemma StagesOfWorker(k: nat)
    requires k in {3, 4, 5, 8, 9}
    ensures WorkerStep(Stage(k), ONLY, Stage(k + 1))
  {
    SetSolo(Stage(k), Stage(k + 1).workers[ONLY]);
  }

  lemma FirstStages()
    ensures Spawn(Stage(0), ONLY, Stage(1)) && EnterLoop(Stage(1), Stage(2)) && WorkerStep(Stage(2), ONLY, Stage(3))
  {
    SetSolo(Stage(0), Waiting);
    SetSolo(Stage(2), Holding);
  }

  lemma OtherStages()
    ensures Cancel(Stage(6), Stage(7)) && CallerStep(Stage(7), Stage(8))
    ensures MonitorStep(Stage(10), Stage(11)) && CallerStep(Stage(11), Stage(12))
  {}

  lemma StagesFollow(k: nat)
    requires k < 12
    ensures Next(Stage(k), Stage(k + 1))
  {
    FirstStages();
    OtherStages();
    if k in {3, 4, 5, 8, 9} { StagesOfWorker(k); }
  }

  /** If the context ends between the last delivery and the next tick, the sender returns an error although
      every chunk was accepted and flagged. */
  lemma FalseFailure() returns (states: seq<State>)
    ensures Run(states)
    ensures var s := states[|states| - 1]; s.caller == Returned(false) && AllDelivered(s) && AllAccepted(s)
  {
    states := seq(13, k requires 0 <= k => Stage(k));
    assert Init(Stage(0)) by { assert Jobs(1, 1) == {ONLY}; }
    forall j: nat, k: nat | j + 1 == k < |states| ensures Next(states[j], states[k]) {
      StagesFollow(j);
    }
    OneChunkDone(states[12]);
  }

  lemma OneChunkDone(s: State)
    requires s.chunks == 1 && 0 in s.delivered && (0, 0) in s.accepted
    ensures AllDelivered(s) && AllAccepted(s)
  {
    assert SomeAccepted(s.accepted, 0);
  }

  // ----- a lost acknowledgement -----

  /** One chunk is accepted, but the sender does not learn of it. */
  function LostStage(k: nat): State {
    match k
    case 0 => Stage(0)
    case 1 => Stage(1)
    case 2 => Stage(2)
    case 3 => Stage(3)
    case 4 => Stage(4)
    case 5 => Solo(Releasing, 1, 1, {}, {ONLY}, false, false, Looping)
    case 6 => Solo(Exiting, 0, 1, {}, {ONLY}, false, false, Looping)
    case 7 => Solo(Finished, 0, 0, {}, {ONLY}, false, false, Looping)
    case 8 => Solo(Finished, 0, 0, {}, {ONLY}, false, true, Looping)
    case _ => Solo(Finished, 0, 0, {}, {ONLY}, false, true, Returned(false))
  }

  lemma LostWorker(k: nat)
    requires 4 <= k < 7
    ensures WorkerStep(LostStage(k), ONLY, LostStage(k + 1))
  {
    SetSolo(LostStage(k), LostStage(k + 1).workers[ONLY]);
  }

  lemma LostEnd()
    ensures MonitorStep(LostStage(7), LostStage(8)) && CallerStep(LostStage(8), LostStage(9))
  {
    Undelivered(LostStage(8));
  }

  lemma Undelivered(s: State)
    requires s.chunks > 0 && 0 !in s.delivered
    ensures !AllDelivered(s)
  {
    assert 0 in Range(s.chunks);
  }

  lemma LostFollow(k: nat)
    requires k < 9
    ensures Step(LostStage(k), LostStage(k + 1))
  {
    if k < 4 {
      FirstStages();
      StagesOfWorker(3);
    } else if k < 7 {
      LostWorker(k);
    } else {
      LostEnd();
    }
  }

  /** A run without a cancellation in which every chunk was accepted and an error is returned, because the
      acknowledgement was lost. */
  lemma LostAcknowledgement() returns (states: seq<State>)
    ensures OwnRun(states)
    ensures var s := states[|states| - 1]; s.caller == Returned(false) && AllAccepted(s)
  {
    states := seq(10, k requires 0 <= k => LostStage(k));
    assert Init(Stage(0)) by { assert Jobs(1, 1) == {ONLY}; }
    forall j: nat, k: nat | j + 1 == k < |states| ensures Step(states[j], states[k]) {
      LostFollow(j);
    }
    assert SomeAccepted(states[9].accepted, 0) by { assert ONLY in states[9].accepted; }
  }

  /** Until it returns, the sender is never stuck: it has a step of its own that changes something. */
  lemma NeverStuck(states: seq<State>, k: nat) returns (t: State)
    requires Run(states) && k < |states| && !states[k].caller.Returned?
    ensures Step(states[k], t) && t != states[k]
  {
    var s := states[k];
    RunInv(states, k);
    if j :| j in s.workers && s.workers[j] == NotStarted {
      t := Set(s, j, Waiting).(waitGroup := s.waitGroup + 1);
      assert Spawn(s, j, t);
    } else if s.caller == Spawning {
      t := s.(caller := Looping);
    } else if StillRunning(s) == {} {
      t := WhenAllFinished(s);
    } else if j :| j in SlotHolders(s) {
      t := HolderMoves(s, j);
    } else {
      var j :| j in StillRunning(s);
      t := OthersMove(s, j);
    }
  }

  lemma WhenAllFinished(s: State) returns (t: State)
    requires Inv(s) && s.caller != Spawning && !s.caller.Returned? && StillRunning(s) == {}
    ensures Step(s, t) && t != s
  {
    if !s.done {
      t := s.(done := true);
      assert MonitorStep(s, t);
    } else {
      t := match s.caller
           case Looping => s.(caller := Returned(AllDelivered(s)))
           case AwaitingSuccess => s.(caller := Returned(true))
           case _ => s.(caller := Returned(false));
      assert CallerStep(s, t);
    }
  }

  lemma HolderMoves(s: State, j: Job) returns (t: State)
    requires Inv(s) && j in SlotHolders(s)
    ensures Step(s, t) && t != s
  {
    assert s.slots > 0;
    match s.workers[j] {
      case Holding => t := Set(s, j, if s.cancelled then Releasing else Sending);
      case Sending => t := Set(s, j, Releasing);
      case Succeeded => t := Set(s, j, Releasing).(delivered := s.delivered + {j.0});
      case Releasing => t := Set(s, j, Exiting).(slots := s.slots - 1);
    }
    assert WorkerStep(s, j, t) && t.workers[j] != s.workers[j];
  }

  lemma OthersMove(s: State, j: Job) returns (t: State)
    requires Inv(s) && j in StillRunning(s) && SlotHolders(s) == {}
    ensures Step(s, t) && t != s
  {
    assert s.slots == 0 && s.waitGroup > 0;
    if s.workers[j] == Waiting {
      t := Set(s, j, Holding).(slots := s.slots + 1);
    } else {
      assert j !in SlotHolders(s);
      t := Set(s, j, Finished).(waitGroup := s.waitGroup - 1);
    }
    assert WorkerStep(s, j, t);
    assert t.workers[j] != s.workers[j];
  }

  // ----- termination -----

  /** Steps that a worker has left, at most. */
  function Left(w: Worker): nat {
    match w
    case NotStarted => 7
    case Waiting => 6
    case Holding => 5
    case Sending => 4
    case Succeeded => 3
    case Releasing => 2
    case Exiting => 1
    case Finished => 0
  }

  ghost function Above(s: State, n: nat): set<Job> { set j | j in s.workers && Left(s.workers[j]) > n }

  /** The sum of all workers' steps left, counted level by level. */
  ghost function Work(s: State, levels: nat): nat {
    if levels == 0 then 0 else Work(s, levels - 1) + |Above(s, levels - 1)|
  }

  function CallerLeft(c: Caller): nat {
    match c
    case Spawning => 3
    case Looping => 2
    case AwaitingSuccess => 1
    case AwaitingFailure => 1
    case Returned(_) => 0
  }

  ghost function Measure(s: State): nat {
    Work(s, 7) + CallerLeft(s.caller) + if s.done then 0 else 1
  }

  lemma {:induction false} WorkMoves(s: State, j: Job, t: State, levels: nat)
    requires j in s.workers && j in t.workers && t.workers == s.workers[j := t.workers[j]]
    requires Left(t.workers[j]) < Left(s.workers[j])
    ensures Work(t, levels) <= Work(s, levels)
    ensures levels >= Left(s.workers[j]) ==> Work(t, levels) < Work(s, levels)
  {
    if levels > 0 {
      WorkMoves(s, j, t, levels - 1);
      var n := levels - 1;
      SubsetSize(Above(t, n), Above(s, n));
      if levels == Left(s.workers[j]) {
        assert Above(t, n) <= Above(s, n) - {j} && j in Above(s, n);
        SubsetSize(Above(t, n), Above(s, n) - {j});
      }
    }
  }

  lemma {:induction false} WorkStays(s: State, t: State, levels: nat)
    requires t.workers == s.workers
    ensures Work(t, levels) == Work(s, levels)
  {
    if levels > 0 {
      WorkStays(s, t, levels - 1);
      assert Above(t, levels - 1) == Above(s, levels - 1);
    }
  }

  lemma WorkerLeft(s: State, j: Job, t: State)
    requires WorkerStep(s, j, t)
    ensures j in t.workers && Left(t.workers[j]) < Left(s.workers[j])
  {}

  /** Every step of the sender that changes anything uses up some of the measure; a cancellation
      from outside does not add to it. */
  lemma StepDecreases(s: State, t: State)
    requires Next(s, t) && t != s
    ensures Step(s, t) ==> Measure(t) < Measure(s)
    ensures Measure(t) <= Measure(s)
  {
    if j :| WorkerStep(s, j, t) {
      WorkerShape(s, j, t);
      WorkerLeft(s, j, t);
      WorkMoves(s, j, t, 7);
    } else if j :| Spawn(s, j, t) {
      WorkMoves(s, j, t, 7);
    } else {
      WorkStays(s, t, 7);
    }
  }

  /** The sender's own changing steps in a run. */
  ghost function Moves(states: seq<State>, k: nat): nat
    requires k < |states|
  {
    if k == 0 then 0
    else Moves(states, k - 1) + if Step(states[k - 1], states[k]) && states[k] != states[k - 1] then 1 else 0
  }

  lemma {:induction false} WorkBound(s: State, levels: nat, n: nat)
    requires n == |s.workers.Keys|
    ensures Work(s, levels) <= levels * n
  {
    if levels > 0 {
      WorkBound(s, levels - 1, n);
      LevelBound(s, levels - 1);
      assert (levels - 1) * n + n == levels * n;
    }
  }

  lemma LevelBound(s: State, level: nat)
    ensures |Above(s, level)| <= |s.workers.Keys|
  {
    SubsetSize(Above(s, level), s.workers.Keys);
  }

  lemma {:induction false} MovesUseMeasure(states: seq<State>, k: nat)
    requires Run(states) && k < |states|
    ensures Moves(states, k) + Measure(states[k]) <= Measure(states[0])
  {
    if k > 0 {
      MovesUseMeasure(states, k - 1);
      if states[k] != states[k - 1] { StepDecreases(states[k - 1], states[k]); }
    }
  }

  /** No run makes more than seven steps per chunk and relay and four more. Since the sender is never
      stuck before it returns, it always returns, whatever the relays and the context do. */
  lemma Terminates(states: seq<State>, k: nat)
    requires Run(states) && k < |states|
    ensures Moves(states, k) <= 7 * |Jobs(states[0].chunks, states[0].relays)| + 4
  {
    MovesUseMeasure(states, k);
    WorkBound(states[0], 7, |states[0].workers.Keys|);
    assert states[0].workers.Keys == Jobs(states[0].chunks, states[0].relays);
  }
}
