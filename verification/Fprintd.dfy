/** The fingerprint device service: one claim and one biometric operation at a time, kept by coroutines
    that interleave at their suspension points. Each method is the code between two suspensions; the
    points that a suspended coroutine can be at are a datatype. */
module Fprintd {
  import opened Outcomes

  type Task = nat

  datatype Caller = Caller(sender: string, process: nat)

  /** What the projection collector returns. */
  datatype View = View(complete: bool, fingers: set<string>, reconciled: nat)

  /** What follows the three stops of a claim's operations. */
  datatype After = JustVerification | JustEnrollment | ThenRelease | ThenDepart | ThenReclaim(user: string, sender: string)

  /** Where a suspended coroutine goes on. A point with a task waits for that coroutine; a cancelled one will
      only see its cancellation. */
  datatype Point =
    | ClaimWaiting(user: string, sender: string)
    | Collecting(user: string, sender: string)
    | CollectingEvidence(user: string, sender: string, caller: Caller)
    | DepartureWaiting(sender: string)
    | CancellingBackend(after: After, task: Task)
    | GatheringVerification(after: After, task: Task)
    | StoppingEnrollment(after: After, task: Task)   // inside the client's stop
    | AwaitingDeletion(after: After, task: Task)
    | VerifyProjecting(finger: string, sender: string, cancelled: bool)
    | Verifying(cancelled: bool)
    | EnrollProjecting(finger: string, sender: string)
    | Enrolling                                      // the enrollment client's task
    | DeleteProjecting(finger: string, sender: string)
    | Deleting(task: Task)
    | Deletion                                       // the dispatched deletion
    | SleepingStale(task: Task)
    | SleepingUnstarted
    | SleepingEnrollment(task: Task)
    | ExpiringEnrollment(task: Task)                 // inside the client's stop

  /** What was written or started, with what held in the step that did it. */
  datatype Event =
    | Claimed(overLiveClaim: bool)
    | VerificationStarted(owner: bool, alone: bool)
    | EnrollmentStarted(owner: bool, alone: bool, complete: bool)
    | DeletionStarted(owner: bool, alone: bool, complete: bool)

  predicate Justified(e: Event) {
    match e
    case Claimed(overLiveClaim) => !overLiveClaim
    case VerificationStarted(owner, alone) => owner && alone
    case EnrollmentStarted(owner, alone, complete) => owner && alone && complete
    case DeletionStarted(owner, alone, complete) => owner && alone && complete
  }

  /** The coroutine holds the claim lock while it is suspended here. */
  predicate HoldsLock(p: Point) {
    match p
    case Collecting(_, _) => true
    case CollectingEvidence(_, _, _) => true
    case CancellingBackend(after, _) => after.ThenDepart? || after.ThenReclaim?
    case GatheringVerification(after, _) => after.ThenDepart? || after.ThenReclaim?
    case StoppingEnrollment(after, _) => after.ThenDepart? || after.ThenReclaim?
    case AwaitingDeletion(after, _) => after.ThenDepart? || after.ThenReclaim?
    case _ => false
  }

  /** A task that the service itself starts, apart from deletions. */
  predicate IsBackground(p: Point) {
    p.Verifying? || p.Enrolling? || p.SleepingStale? || p.SleepingUnstarted? || p.SleepingEnrollment?
  }

  /** A biometric operation in progress. */
  predicate Operates(p: Point) {
    p.Verifying? || p.Enrolling? || p.Deletion?
  }

  predicate CollectsClaim(p: Point) {
    p.Collecting? || p.CollectingEvidence?
  }

  predicate Deletes(p: Point) {
    p.DeleteProjecting? || p.Deleting?
  }

  /** The suspended coroutines agree with the lock, the claim and the deletion handle. One coroutine may be
      running; it is not suspended. */
  ghost predicate Table(running: Option<Task>, cs: map<Task, Point>, next: Task, lock: Option<Task>, deletion: Option<Task>, clear: bool) {
    && (running.Some? ==> running.value !in cs && running.value < next)
    && (forall u :: u in cs ==> Fits(u, cs, next, lock, deletion, clear))
    && (deletion.Some? && deletion != running ==> deletion.value in cs && Deletes(cs[deletion.value]))
    && (lock.Some? && lock != running ==> lock.value in cs && HoldsLock(cs[lock.value]))
  }

  ghost predicate Fits(u: Task, cs: map<Task, Point>, next: Task, lock: Option<Task>, deletion: Option<Task>, clear: bool)
    requires u in cs
  {
    && u < next
    && (HoldsLock(cs[u]) ==> lock == Some(u))
    && (CollectsClaim(cs[u]) ==> clear)
    && (Deletes(cs[u]) ==> deletion == Some(u))
    && (cs[u].Deletion? ==> deletion.Some? && deletion.value in cs && cs[deletion.value] == Deleting(u))
    && (cs[u].SleepingStale? ==> cs[u].task < next && !Verifies(cs, cs[u].task))
  }

  predicate Verifies(cs: map<Task, Point>, u: Task) {
    u in cs && cs[u].Verifying?
  }

  predicate Enrolls(cs: map<Task, Point>, u: Task) {
    u in cs && cs[u].Enrolling?
  }

  /** Every running verification has the handle; likewise every running enrollment. */
  ghost predicate VerificationsTracked(handle: Option<Task>, cs: map<Task, Point>) {
    forall u: Task :: Verifies(cs, u) ==> handle == Some(u)
  }

  ghost predicate EnrollmentsTracked(handle: Option<Task>, cs: map<Task, Point>) {
    forall u: Task :: Enrolls(cs, u) ==> handle == Some(u)
  }

  /** The cancellation of a verification or of its start, if it has not ended. */
  function WithCancelled(cs: map<Task, Point>, u: Task): map<Task, Point> {
    if u !in cs then cs
    else if cs[u].Verifying? then cs[u := Verifying(true)]
    else if cs[u].VerifyProjecting? then cs[u := cs[u].(cancelled := true)]
    else cs
  }

  lemma CancelledFits(running: Option<Task>, cs: map<Task, Point>, next: Task, lock: Option<Task>, deletion: Option<Task>, clear: bool, u: Task)
    requires Table(running, cs, next, lock, deletion, clear)
    ensures Table(running, WithCancelled(cs, u), next, lock, deletion, clear)
  {
    var cs' := WithCancelled(cs, u);
    forall v | v in cs'
      ensures Fits(v, cs', next, lock, deletion, clear)
    {
      assert Fits(v, cs, next, lock, deletion, clear);
    }
  }

  ghost predicate AllJustified(log: seq<Event>) {
    forall i :: 0 <= i < |log| ==> Justified(log[i])
  }

  class Device {
    const allowedUsers: set<string>
    const fingerNames: set<string>
    const canEnroll: bool
    const canDelete: bool

    var claimedUser: Option<string>
    var claimedSender: Option<string>
    var claimedCaller: Option<Caller>
    var claimedEvidence: Option<nat>
    var verifyTask: Option<Task>
    var enrollTask: Option<Task>   // the enrollment client's task
    var deleteTask: Option<Task>
    var expiryTask: Option<Task>
    var claimLock: Option<Task>    // the holder
    var coroutines: map<Task, Point>
    var nextTask: Task
    ghost var log: seq<Event>

    constructor (allowedUsers: set<string>, fingerNames: set<string>, canEnroll: bool, canDelete: bool)
      ensures Valid() && coroutines == map[] && log == [] && ClaimClear() && verifyTask == None && enrollTask == None
        && deleteTask == None && claimLock == None
      ensures this.allowedUsers == allowedUsers && this.fingerNames == fingerNames
      ensures this.canEnroll == canEnroll && this.canDelete == canDelete && TracksVerifications() && TracksEnrollments()
    {
      this.allowedUsers, this.fingerNames, this.canEnroll, this.canDelete := allowedUsers, fingerNames, canEnroll, canDelete;
      claimedUser, claimedSender, claimedCaller, claimedEvidence := None, None, None, None;
      verifyTask, enrollTask, deleteTask, expiryTask, claimLock := None, None, None, None, None;
      coroutines, nextTask, log := map[], 0, [];
    }

    predicate ClaimClear()
      reads this
    {
      claimedUser == None && claimedSender == None && claimedCaller == None && claimedEvidence == None
    }

    predicate ClaimSet()
      reads this
    {
      claimedUser.Some? && claimedSender.Some? && claimedCaller.Some? && claimedEvidence.Some?
      && claimedCaller.value.sender == claimedSender.value
    }

    /** At most one of the three operations. */
    predicate Exclusive()
      reads this
    {
      && (verifyTask.Some? ==> enrollTask.None? && deleteTask.None?)
      && (enrollTask.Some? ==> deleteTask.None?)
    }

    predicate NoOperation()
      reads this
    {
      verifyTask.None? && enrollTask.None? && deleteTask.None?
    }

    /** The verification of the handle is still running; likewise the enrollment of the client's task. */
    predicate VerificationRuns()
      reads this
    {
      verifyTask.Some? && Verifies(coroutines, verifyTask.value)
    }

    predicate EnrollmentRuns()
      reads this
    {
      enrollTask.Some? && Enrolls(coroutines, enrollTask.value)
    }

    /** What the handles are for: no operation runs without its handle. Not every step keeps it. */
    ghost predicate TracksVerifications()
      reads this
    {
      VerificationsTracked(verifyTask, coroutines)
    }

    ghost predicate TracksEnrollments()
      reads this
    {
      EnrollmentsTracked(enrollTask, coroutines)
    }

    twostate predicate KeepsTrack()
      reads this
    {
      && (old(TracksVerifications()) ==> TracksVerifications())
      && (old(TracksEnrollments()) ==> TracksEnrollments())
    }

    /** What every step keeps. */
    ghost predicate Valid()
      reads this
    {
      && Exclusive()
      && (ClaimClear() || ClaimSet())
      && Table(None, coroutines, nextTask, claimLock, deleteTask, ClaimClear())
      && AllJustified(log)
    }

    /** The claim belongs to this connection; whether the caller's process and the evidence still verify
        comes from outside. */
    predicate OwnedBy(sender: string, verified: bool)
      reads this
    {
      ClaimSet() && sender == claimedSender.value && verified
    }

    /** What the contracts say of an owner. */
    ghost predicate Owns(sender: string, verified: bool)
      reads this
    {
      && claimedUser.Some? && claimedSender == Some(sender) && claimedCaller.Some? && claimedCaller.value.sender == sender
      && claimedEvidence.Some? && verified
    }

    // -------------------------------------------------------------------------------------
    // Entering, leaving and being suspended

    /** Coroutine t is the one that runs; everything else is as Valid says. */
    ghost predicate Running(t: Task)
      reads this
    {
      && Exclusive()
      && (ClaimClear() || ClaimSet())
      && t !in coroutines && t < nextTask
      && Table(Some(t), coroutines, nextTask, claimLock, deleteTask, ClaimClear())
      && AllJustified(log)
    }

    method Arrive() returns (t: Task)
      requires Valid()
      modifies `nextTask
      ensures Running(t) && t == old(nextTask) && nextTask == t + 1 && claimLock != Some(t) && deleteTask != Some(t)
    {
      t := nextTask;
      nextTask := nextTask + 1;
    }

    method Resume(t: Task) returns (p: Point)
      requires Valid() && t in coroutines && (coroutines[t].Deleting? ==> coroutines[t].task !in coroutines)
      modifies `coroutines
      ensures Running(t) && p == old(coroutines[t]) && coroutines == old(coroutines) - {t}
      ensures HoldsLock(p) <==> claimLock == Some(t)
      ensures Deletes(p) <==> deleteTask == Some(t)
      ensures (CollectsClaim(p) ==> ClaimClear()) && (p.SleepingStale? ==> !Verifies(coroutines, p.task))
    {
      assert Fits(t, coroutines, nextTask, claimLock, deleteTask, ClaimClear());
      p := coroutines[t];
      coroutines := coroutines - {t};
    }

    method Suspend(t: Task, p: Point)
      requires Running(t) && (HoldsLock(p) <==> claimLock == Some(t)) && (Deletes(p) <==> deleteTask == Some(t))
      requires (CollectsClaim(p) ==> ClaimClear()) && !Operates(p) && !p.SleepingStale? && !p.Deleting?
      modifies `coroutines
      ensures Valid() && coroutines == old(coroutines)[t := p]
    {
      coroutines := coroutines[t := p];
    }

    /** The coroutine ends; the claim lock, if it holds it, is released. */
    method Leave(t: Task)
      requires Running(t) && deleteTask != Some(t)
      modifies `claimLock
      ensures Valid() && claimLock == (if old(claimLock) == Some(t) then None else old(claimLock))
    {
      if claimLock == Some(t) {
        claimLock := None;
      }
    }

    /** A new background task. */
    method Spawn(ghost t: Task, p: Point) returns (u: Task)
      requires Running(t) && IsBackground(p)
      requires p.SleepingStale? ==> p.task < nextTask && !Verifies(coroutines, p.task)
      modifies `coroutines, `nextTask
      ensures Running(t) && u == old(nextTask) && nextTask == u + 1 && coroutines == old(coroutines)[u := p]
      ensures u !in old(coroutines)
    {
      u := nextTask;
      nextTask := nextTask + 1;
      coroutines := coroutines[u := p];
    }

    /** The holder of the deletion handle dispatches the deletion and waits for it. */
    method Dispatch(t: Task)
      requires Running(t) && deleteTask == Some(t) && claimLock != Some(t)
      modifies `coroutines, `nextTask
      ensures Valid() && nextTask == old(nextTask) + 1
      ensures coroutines == old(coroutines)[old(nextTask) := Deletion][t := Deleting(old(nextTask))]
    {
      var u := nextTask;
      nextTask := nextTask + 1;
      coroutines := coroutines[u := Deletion][t := Deleting(u)];
    }

    /** Cancellation of another task, which notices it when it goes on. */
    method Cancel(ghost t: Task, task: Task)
      requires Running(t)
      modifies `coroutines
      ensures Running(t) && coroutines == WithCancelled(old(coroutines), task)
    {
      hide Table, AllJustified;
      CancelledFits(Some(t), coroutines, nextTask, claimLock, deleteTask, ClaimClear(), task);
      if task in coroutines {
        match coroutines[task]
        case Verifying(_) =>
          coroutines := coroutines[task := Verifying(true)];
        case VerifyProjecting(finger, sender, _) =>
          coroutines := coroutines[task := VerifyProjecting(finger, sender, true)];
        case _ =>
      }
    }

    method ClearClaim(ghost t: Task)
      requires Running(t)
      modifies `claimedUser, `claimedSender, `claimedCaller, `claimedEvidence
      ensures Running(t) && ClaimClear()
    {
      claimedUser, claimedSender, claimedCaller, claimedEvidence := None, None, None, None;
    }

    /** The holder of the claim lock writes the claim. */
    method WriteClaim(ghost t: Task, user: string, sender: string, caller: Caller, evidence: nat)
      requires Running(t) && claimLock == Some(t) && caller.sender == sender
      modifies `claimedUser, `claimedSender, `claimedCaller, `claimedEvidence
      ensures Running(t) && ClaimSet() && claimedUser == Some(user) && claimedSender == Some(sender)
      ensures claimedCaller == Some(caller) && claimedEvidence == Some(evidence)
    {
      claimedUser, claimedSender, claimedCaller, claimedEvidence := Some(user), Some(sender), Some(caller), Some(evidence);
    }

    /** The running coroutine takes or gives up the deletion handle. */
    method Reserve(ghost t: Task, handle: Option<Task>)
      requires Running(t) && (deleteTask == Some(t) || deleteTask.None?) && (handle.None? || handle == Some(t))
      requires handle.Some? ==> verifyTask.None? && enrollTask.None?
      modifies `deleteTask
      ensures Running(t) && deleteTask == handle
    {
      deleteTask := handle;
    }

    method TakeLock(ghost t: Task, holder: Task)
      requires Running(t) && claimLock.None? && holder == t
      modifies `claimLock
      ensures Running(t) && claimLock == Some(t)
    {
      claimLock := Some(holder);
    }

    ghost method Record(t: Task, e: Event)
      requires Running(t) && Justified(e)
      modifies `log
      ensures Running(t) && log == old(log) + [e]
    {
      log := log + [e];
    }

    /** After an operation: an unused claim is given a bounded life again. */
    method ArmExpiry(ghost t: Task)
      requires Running(t)
      modifies `expiryTask, `coroutines, `nextTask
      ensures Running(t)
      ensures if old(claimedUser.Some? && expiryTask.None? && NoOperation())
        then expiryTask == Some(old(nextTask)) && nextTask == old(nextTask) + 1 && coroutines == old(coroutines)[old(nextTask) := SleepingUnstarted]
        else expiryTask == old(expiryTask) && nextTask == old(nextTask) && coroutines == old(coroutines)
    {
      hide Table, AllJustified;
      if claimedUser.Some? && expiryTask.None? && NoOperation() {
        var u := Spawn(t, SleepingUnstarted);
        expiryTask := Some(u);
      }
    }

    /** The unused claim has a bounded life again: a new sleeper exactly if a claim is left, no operation is set and no
        expiry was armed. */
    twostate predicate Rearmed(cs: map<Task, Point>, next: Task)
      reads this
    {
      if claimedUser.Some? && NoOperation() && old(expiryTask).None?
      then expiryTask == Some(next) && nextTask == next + 1 && coroutines == cs[next := SleepingUnstarted]
      else expiryTask == old(expiryTask) && nextTask == next && coroutines == cs
    }

    // -------------------------------------------------------------------------------------
    // Claiming

    method ClaimArrives(user: string, sender: string)
      requires Valid()
      modifies `coroutines, `nextTask
      ensures Valid() && KeepsTrack()
      ensures user in allowedUsers ==> nextTask == old(nextTask) + 1 && coroutines == old(coroutines)[old(nextTask) := ClaimWaiting(user, sender)]
      ensures user !in allowedUsers ==> nextTask == old(nextTask) && coroutines == old(coroutines)
    {
      hide Table, AllJustified;
      if user in allowedUsers {
        var t := Arrive();
        Suspend(t, ClaimWaiting(user, sender));
      }
    }

    /** The lock is acquired: a claim whose caller is alive stays; that of a dead caller is first wound up. */
    method ClaimEnters(t: Task, callerAlive: bool)
      requires Valid() && t in coroutines && coroutines[t].ClaimWaiting? && claimLock.None?
      modifies this
      ensures Valid() && KeepsTrack() && log == old(log)
      ensures old(ClaimSet()) && callerAlive ==> Claim() == old(Claim()) && claimLock.None? && coroutines == old(coroutines) - {t}
      ensures old(ClaimSet()) && !callerAlive ==> (
        var after := ThenReclaim(old(coroutines[t]).user, old(coroutines[t]).sender);
        coroutines == At(old(coroutines) - {t}, t, old(VerificationStop(after))) && claimLock == Some(t))
      ensures old(ClaimClear()) ==> (
        && ClaimClear() && claimLock == Some(t) && verifyTask == old(verifyTask) && enrollTask == old(enrollTask)
        && deleteTask == old(deleteTask) && nextTask == old(nextTask)
        && coroutines == old(coroutines)[t := Collecting(old(coroutines[t]).user, old(coroutines[t]).sender)])
      ensures expiryTask == if old(ClaimSet()) && !callerAlive then None else old(expiryTask)
    {
      hide Table, AllJustified;
      var p := Resume(t);
      TakeLock(t, t);
      if claimedUser.None? {
        Suspend(t, Collecting(p.user, p.sender));
      } else if claimedCaller.Some? && !callerAlive {
        StopVerification(t, ThenReclaim(p.user, p.sender));
      } else {
        Leave(t);
      }
    }

    method CallerCollected(t: Task, caller: Option<Caller>, verified: bool)
      requires Valid() && t in coroutines && coroutines[t].Collecting?
      modifies `coroutines, `claimLock
      ensures Valid() && KeepsTrack()
      ensures var p := old(coroutines[t]);
        if caller.Some? && caller.value.sender == p.sender && verified
        then coroutines == old(coroutines)[t := CollectingEvidence(p.user, p.sender, caller.value)] && claimLock == Some(t)
        else coroutines == old(coroutines) - {t} && claimLock == None
    {
      hide Table, AllJustified;
      var p := Resume(t);
      if caller.Some? && caller.value.sender == p.sender && verified {
        Suspend(t, CollectingEvidence(p.user, p.sender, caller.value));
      } else {
        Leave(t);
      }
    }

    /** The claim is written: never over a claim. */
    method EvidenceCollected(t: Task, evidence: Option<nat>, verified: bool)
      requires Valid() && t in coroutines && coroutines[t].CollectingEvidence?
      modifies this
      ensures Valid() && KeepsTrack() && claimLock == None && old(ClaimClear())
      ensures verifyTask == old(verifyTask) && enrollTask == old(enrollTask) && deleteTask == old(deleteTask)
      ensures var p := old(coroutines[t]);
        if evidence.Some? && verified && p.caller.sender == p.sender then
          && ClaimSet() && claimedUser == Some(p.user) && claimedSender == Some(p.sender) && claimedCaller == Some(p.caller)
          && claimedEvidence == evidence && log == old(log) + [Claimed(false)]
          && expiryTask == Some(old(nextTask)) && nextTask == old(nextTask) + 1
          && coroutines == (old(coroutines) - {t})[old(nextTask) := SleepingUnstarted]
        else ClaimClear() && log == old(log) && coroutines == old(coroutines) - {t} && nextTask == old(nextTask) && expiryTask == old(expiryTask)
    {
      hide Table, AllJustified;
      var p := Resume(t);
      if evidence.Some? && verified && p.caller.sender == p.sender {
        EstablishClaim(t, p, evidence.value);
      }
      Leave(t);
    }

    method EstablishClaim(t: Task, p: Point, evidence: nat)
      requires Running(t) && claimLock == Some(t) && ClaimClear() && p.CollectingEvidence? && p.caller.sender == p.sender
      modifies `log, `claimedUser, `claimedSender, `claimedCaller, `claimedEvidence, `expiryTask, `coroutines, `nextTask
      ensures Running(t) && KeepsTrack() && ClaimSet() && log == old(log) + [Claimed(false)]
      ensures Claim() == (Some(p.user), Some(p.sender), Some(p.caller), Some(evidence))
      ensures expiryTask == Some(old(nextTask)) && nextTask == old(nextTask) + 1
      ensures coroutines == old(coroutines)[old(nextTask) := SleepingUnstarted]
    {
      hide Table, AllJustified;
      Record(t, Claimed(!ClaimClear()));
      WriteClaim(t, p.user, p.sender, p.caller, evidence);
      var u := Spawn(t, SleepingUnstarted);
      expiryTask := Some(u);
    }

    // -------------------------------------------------------------------------------------
    // Winding up: verification, enrollment, deletion, then the claim

    function Claim(): (Option<string>, Option<string>, Option<Caller>, Option<nat>)
      reads this
    {
      (claimedUser, claimedSender, claimedCaller, claimedEvidence)
    }

    /** The claim ends with the stops. */
    predicate Winds(after: After) {
      !after.JustVerification? && !after.JustEnrollment?
    }

    /** Where a coroutine is suspended next, if anywhere: at the first operation that is still set. An enrollment
        that has ended is stopped without a suspension. */
    function FinishStop(after: After): Option<Point> {
      if after.ThenReclaim? then Some(Collecting(after.user, after.sender)) else None
    }

    function DeletionStop(after: After): Option<Point>
      reads this
    {
      if deleteTask.Some? then Some(AwaitingDeletion(after, deleteTask.value)) else FinishStop(after)
    }

    function EnrollmentStop(after: After): Option<Point>
      reads this
    {
      if EnrollmentRuns() then Some(StoppingEnrollment(after, enrollTask.value))
      else if Winds(after) then DeletionStop(after) else None
    }

    function VerificationStop(after: After): Option<Point>
      reads this
    {
      if verifyTask.Some? then Some(CancellingBackend(after, verifyTask.value))
      else if after.JustVerification? then None else EnrollmentStop(after)
    }

    function At(cs: map<Task, Point>, t: Task, p: Option<Point>): map<Task, Point> {
      if p.Some? then cs[t := p.value] else cs
    }

    /** What a step leaves in place: the coroutine at its next stop, the lock unless the coroutine has ended, and
        the operation handles. */
    twostate predicate Stops(t: Task, cs: map<Task, Point>, p: Option<Point>)
      reads this
    {
      && coroutines == At(cs, t, p) && nextTask == old(nextTask) && log == old(log)
      && claimLock == if old(claimLock) == Some(t) && p.None? then None else old(claimLock)
    }

    predicate LockFits(t: Task, after: After)
      reads this
    {
      claimLock == Some(t) <==> after.ThenDepart? || after.ThenReclaim?
    }

    method StopVerification(t: Task, after: After)
      requires Running(t) && LockFits(t, after) && deleteTask != Some(t)
      modifies this
      ensures Valid() && KeepsTrack() && Stops(t, old(coroutines), old(VerificationStop(after)))
      ensures verifyTask == old(verifyTask) && deleteTask == old(deleteTask)
      ensures enrollTask == if old(verifyTask.Some? || after.JustVerification? || EnrollmentRuns()) then old(enrollTask) else None
      ensures if Winds(after) && old(verifyTask.None? && !EnrollmentRuns() && deleteTask.None?) then ClaimClear() else Claim() == old(Claim())
      ensures expiryTask == None
    {
      hide Table, AllJustified;
      expiryTask := None;
      if verifyTask.Some? {
        Suspend(t, CancellingBackend(after, verifyTask.value));
      } else if after.JustVerification? {
        Leave(t);
      } else {
        StopEnrollment(t, after);
      }
    }

    /** The task found on entry is cancelled, not the one of the handle by now. */
    method BackendCancelled(t: Task)
      requires Valid() && t in coroutines && coroutines[t].CancellingBackend?
      modifies `coroutines
      ensures Valid() && KeepsTrack()
      ensures var p := old(coroutines[t]);
        coroutines == WithCancelled(old(coroutines) - {t}, p.task)[t := GatheringVerification(p.after, p.task)]
    {
      hide Table, AllJustified;
      var p := Resume(t);
      Cancel(t, p.task);
      Suspend(t, GatheringVerification(p.after, p.task));
    }

    /** The gathered task has ended, and the handle is cleared, whatever it holds by now. That loses track of a
        verification if and only if the handle holds a running one, which is another than the gathered. */
    method VerificationGathered(t: Task)
      requires Valid() && t in coroutines && coroutines[t].GatheringVerification? && coroutines[t].task !in coroutines
      modifies this
      ensures Valid() && verifyTask == None && deleteTask == old(deleteTask)
      ensures old(TracksVerifications()) ==> (TracksVerifications() <==> !old(VerificationRuns()))
      ensures old(TracksEnrollments()) ==> TracksEnrollments()
      ensures old(VerificationRuns()) ==> old(verifyTask) != Some(old(coroutines[t]).task)
      ensures var after := old(coroutines[t]).after;
        && Stops(t, old(coroutines) - {t}, if after.JustVerification? then None else old(EnrollmentStop(after)))
        && enrollTask == (if after.JustVerification? || old(EnrollmentRuns()) then old(enrollTask) else None)
        && if Winds(after) && old(!EnrollmentRuns() && deleteTask.None?) then ClaimClear() else Claim() == old(Claim())
      ensures expiryTask == if old(coroutines[t]).after.JustVerification? then old(expiryTask) else None
    {
      hide Table, AllJustified;
      var p := Resume(t);
      verifyTask := None;
      if p.after.JustVerification? {
        Leave(t);
      } else {
        StopEnrollment(t, p.after);
      }
    }

    method StopEnrollment(t: Task, after: After)
      requires Running(t) && LockFits(t, after) && deleteTask != Some(t)
      modifies this
      ensures Valid() && KeepsTrack() && Stops(t, old(coroutines), old(EnrollmentStop(after)))
      ensures verifyTask == old(verifyTask) && deleteTask == old(deleteTask)
      ensures enrollTask == if old(EnrollmentRuns()) then old(enrollTask) else None
      ensures if Winds(after) && old(!EnrollmentRuns() && deleteTask.None?) then ClaimClear() else Claim() == old(Claim())
      ensures expiryTask == None
    {
      hide Table, AllJustified;
      expiryTask := None;
      if EnrollmentRuns() {
        Suspend(t, StoppingEnrollment(after, enrollTask.value));
      } else {
        enrollTask := None;
        if !Winds(after) {
          Leave(t);
        } else {
          AwaitDeletion(t, after);
        }
      }
    }

    /** The client's stop returns: the enrollment that it found has ended, and the client's task is cleared,
        whatever it is by now. */
    method EnrollmentStopped(t: Task)
      requires Valid() && t in coroutines && coroutines[t].StoppingEnrollment? && coroutines[t].task !in coroutines
      modifies this
      ensures Valid() && enrollTask == None && verifyTask == old(verifyTask) && deleteTask == old(deleteTask)
      ensures old(TracksEnrollments()) ==> (TracksEnrollments() <==> !old(EnrollmentRuns()))
      ensures old(TracksVerifications()) ==> TracksVerifications()
      ensures old(EnrollmentRuns()) ==> old(enrollTask) != Some(old(coroutines[t]).task)
      ensures var after := old(coroutines[t]).after;
        Stops(t, old(coroutines) - {t}, if Winds(after) then old(DeletionStop(after)) else None)
      ensures if Winds(old(coroutines[t]).after) && old(deleteTask).None? then ClaimClear() else Claim() == old(Claim())
      ensures expiryTask == old(expiryTask)
    {
      hide Table, AllJustified;
      var p := Resume(t);
      enrollTask := None;
      if !Winds(p.after) {
        Leave(t);
      } else {
        AwaitDeletion(t, p.after);
      }
    }

    method AwaitDeletion(t: Task, after: After)
      requires Running(t) && LockFits(t, after) && deleteTask != Some(t)
      modifies this
      ensures Valid() && KeepsTrack() && Stops(t, old(coroutines), old(DeletionStop(after)))
      ensures verifyTask == old(verifyTask) && enrollTask == old(enrollTask) && deleteTask == old(deleteTask)
      ensures if old(deleteTask).None? then ClaimClear() else Claim() == old(Claim())
      ensures expiryTask == old(expiryTask)
    {
      hide Table, AllJustified;
      if deleteTask.Some? {
        Suspend(t, AwaitingDeletion(after, deleteTask.value));
      } else {
        Finish(t, after);
      }
    }

    method DeletionAwaited(t: Task)
      requires Valid() && t in coroutines && coroutines[t].AwaitingDeletion? && coroutines[t].task !in coroutines
      modifies this
      ensures Valid() && KeepsTrack() && Stops(t, old(coroutines) - {t}, FinishStop(old(coroutines[t]).after)) && ClaimClear()
      ensures verifyTask == old(verifyTask) && enrollTask == old(enrollTask) && deleteTask == old(deleteTask)
      ensures expiryTask == None
    {
      hide Table, AllJustified;
      var p := Resume(t);
      expiryTask := None;
      Finish(t, p.after);
    }

    method Finish(t: Task, after: After)
      requires Running(t) && LockFits(t, after) && deleteTask != Some(t)
      modifies this
      ensures Valid() && KeepsTrack() && Stops(t, old(coroutines), FinishStop(after)) && ClaimClear()
      ensures verifyTask == old(verifyTask) && enrollTask == old(enrollTask) && deleteTask == old(deleteTask)
      ensures expiryTask == old(expiryTask)
    {
      hide Table, AllJustified;
      ClearClaim(t);
      if after.ThenReclaim? {
        Suspend(t, Collecting(after.user, after.sender));
      } else {
        Leave(t);
      }
    }

    /** Release, or the stop of one operation, by the owner. */
    method StopArrives(sender: string, verified: bool, after: After)
      requires Valid() && (after.ThenRelease? || !Winds(after))
      modifies this
      ensures Valid() && KeepsTrack() && log == old(log) && verifyTask == old(verifyTask) && deleteTask == old(deleteTask)
      ensures if old(Owns(sender, verified)) then
          && coroutines == At(old(coroutines), old(nextTask), old(if after.JustEnrollment? then EnrollmentStop(after) else VerificationStop(after)))
          && nextTask == old(nextTask) + 1 && claimLock == old(claimLock)
          && (if after.ThenRelease? && old(verifyTask.None? && !EnrollmentRuns() && deleteTask.None?) then ClaimClear() else Claim() == old(Claim()))
        else coroutines == old(coroutines) && nextTask == old(nextTask) && enrollTask == old(enrollTask) && Claim() == old(Claim())
      ensures expiryTask == if old(Owns(sender, verified)) then None else old(expiryTask)
      ensures enrollTask == (
        if old(Owns(sender, verified)) && !after.JustVerification? && (after.JustEnrollment? || old(verifyTask).None?) && !old(EnrollmentRuns())
        then None else old(enrollTask))
    {
      hide Table, AllJustified;
      if OwnedBy(sender, verified) {
        var t := Arrive();
        if after.JustEnrollment? {
          StopEnrollment(t, after);
        } else {
          StopVerification(t, after);
        }
      }
    }

    method DepartureArrives(sender: string)
      requires Valid()
      modifies `coroutines, `nextTask
      ensures Valid() && KeepsTrack() && coroutines == old(coroutines)[old(nextTask) := DepartureWaiting(sender)]
      ensures nextTask == old(nextTask) + 1
    {
      hide Table, AllJustified;
      var t := Arrive();
      Suspend(t, DepartureWaiting(sender));
    }

    /** Only the departure of the claim's own connection winds up the claim. */
    method DepartureEnters(t: Task)
      requires Valid() && t in coroutines && coroutines[t].DepartureWaiting? && claimLock.None?
      modifies this
      ensures Valid() && KeepsTrack() && log == old(log) && verifyTask == old(verifyTask) && deleteTask == old(deleteTask)
      ensures if old(claimedSender) == Some(old(coroutines[t]).sender) then
          && coroutines == At(old(coroutines) - {t}, t, old(VerificationStop(ThenDepart)))
          && (if old(verifyTask.None? && !EnrollmentRuns() && deleteTask.None?) then ClaimClear() else Claim() == old(Claim()))
          && enrollTask == (if old(verifyTask.Some? || EnrollmentRuns()) then old(enrollTask) else None)
        else coroutines == old(coroutines) - {t} && enrollTask == old(enrollTask) && Claim() == old(Claim()) && claimLock.None?
      ensures expiryTask == if old(claimedSender) == Some(old(coroutines[t]).sender) then None else old(expiryTask)
    {
      hide Table, AllJustified;
      var p := Resume(t);
      TakeLock(t, t);
      if claimedSender != Some(p.sender) {
        Leave(t);
      } else {
        StopVerification(t, ThenDepart);
      }
    }

    // -------------------------------------------------------------------------------------
    // Verifying

    method VerifyArrives(finger: string, sender: string, verified: bool)
      requires Valid()
      modifies this
      ensures Valid() && KeepsTrack() && log == old(log)
      ensures Claim() == old(Claim()) && claimLock == old(claimLock)
      ensures enrollTask == old(enrollTask) && deleteTask == old(deleteTask)
      ensures if old(Owns(sender, verified)) && old(NoOperation()) && (finger == "any" || finger in fingerNames)
        then verifyTask == Some(old(nextTask)) && nextTask == old(nextTask) + 1
          && coroutines == old(coroutines)[old(nextTask) := VerifyProjecting(finger, sender, false)]
        else verifyTask == old(verifyTask) && coroutines == old(coroutines) && nextTask == old(nextTask)
      ensures expiryTask == if nextTask == old(nextTask) then old(expiryTask) else None
    {
      hide Table, AllJustified;
      if !OwnedBy(sender, verified) || !NoOperation() || (finger != "any" && finger !in fingerNames) {
        return;
      }
      expiryTask := None;
      var t := Arrive();
      verifyTask := Some(t);
      Suspend(t, VerifyProjecting(finger, sender, false));
    }

    /** The projection is back: the operation starts only for the owner, and if it is still the one reserved. */
    method VerifyProjected(t: Task, view: Option<View>, matches: bool, verified: bool)
      requires Valid() && t in coroutines && coroutines[t].VerifyProjecting? && !coroutines[t].cancelled
      modifies this
      ensures Valid() && KeepsTrack() && enrollTask == old(enrollTask) && deleteTask == old(deleteTask) && claimLock == old(claimLock)
      ensures Claim() == old(Claim())
      ensures if old(Owns(coroutines[t].sender, verified)) && old(verifyTask) == Some(t) && view.Some? && matches
        then (
          && verifyTask == Some(old(nextTask)) && nextTask == old(nextTask) + 1 && log == old(log) + [VerificationStarted(true, true)]
          && coroutines == (old(coroutines) - {t})[old(nextTask) := Verifying(false)] && expiryTask == old(expiryTask))
        else (
          && log == old(log) && verifyTask == (if old(verifyTask) == Some(t) then None else old(verifyTask))
          && Rearmed(old(coroutines) - {t}, old(nextTask)))
    {
      hide Table, AllJustified;
      var p := Resume(t);
      if OwnedBy(p.sender, verified) && verifyTask == Some(t) && deleteTask.None? && enrollTask.None? && view.Some? && matches {
        Record(t, VerificationStarted(OwnedBy(p.sender, verified), enrollTask.None? && deleteTask.None?));
        var operation := Spawn(t, Verifying(false));
        verifyTask := Some(operation);
      }
      EndVerifyStart(t);
    }

    /** A reservation that became no operation is given back. */
    method EndVerifyStart(t: Task)
      requires Running(t) && claimLock != Some(t) && deleteTask != Some(t)
      modifies `verifyTask, `expiryTask, `coroutines, `nextTask, `claimLock
      ensures Valid() && KeepsTrack() && claimLock == old(claimLock)
      ensures verifyTask == if old(verifyTask) == Some(t) then None else old(verifyTask)
      ensures Rearmed(old(coroutines), old(nextTask))
    {
      hide Table, AllJustified;
      if verifyTask == Some(t) {
        verifyTask := None;
      }
      ArmExpiry(t);
      Leave(t);
    }

    /** The verdict is out; the completed task stays the active one until it is stopped or expires. A cancelled
        verification just ends. */
    method VerificationEnds(t: Task)
      requires Valid() && t in coroutines && coroutines[t].Verifying?
      modifies `coroutines, `nextTask, `expiryTask, `claimLock
      ensures Valid() && KeepsTrack() && claimLock == old(claimLock)
      ensures if old(coroutines[t]).cancelled then coroutines == old(coroutines) - {t} && nextTask == old(nextTask) && expiryTask == old(expiryTask)
        else (
          && coroutines == (old(coroutines) - {t})[old(nextTask) := SleepingStale(t)]
          && expiryTask == Some(old(nextTask)) && nextTask == old(nextTask) + 1)
    {
      hide Table, AllJustified;
      var p := Resume(t);
      if !p.cancelled {
        var u := Spawn(t, SleepingStale(t));
        expiryTask := Some(u);
      }
      Leave(t);
    }

    method StaleExpires(t: Task)
      requires Valid() && t in coroutines && coroutines[t].SleepingStale?
      modifies this
      ensures Valid() && KeepsTrack() && log == old(log) && enrollTask == old(enrollTask) && deleteTask == old(deleteTask)
      ensures coroutines == old(coroutines) - {t} && nextTask == old(nextTask) && claimLock == old(claimLock)
      ensures if old(verifyTask) == Some(old(coroutines[t]).task) then verifyTask == None && ClaimClear()
        else verifyTask == old(verifyTask) && Claim() == old(Claim())
      ensures expiryTask == None
    {
      hide Table, AllJustified;
      var p := Resume(t);
      if verifyTask == Some(p.task) {
        verifyTask := None;
        ClearClaim(t);
      }
      expiryTask := None;
      Leave(t);
    }

    method UnstartedExpires(t: Task)
      requires Valid() && t in coroutines && coroutines[t].SleepingUnstarted?
      modifies this
      ensures Valid() && KeepsTrack() && log == old(log)
      ensures verifyTask == old(verifyTask) && enrollTask == old(enrollTask) && deleteTask == old(deleteTask)
      ensures if old(NoOperation()) then ClaimClear() else Claim() == old(Claim())
      ensures coroutines == old(coroutines) - {t} && claimLock == old(claimLock)
      ensures expiryTask == None && nextTask == old(nextTask)
    {
      hide Table, AllJustified;
      var p := Resume(t);
      if NoOperation() {
        ClearClaim(t);
      }
      expiryTask := None;
      Leave(t);
    }

    // -------------------------------------------------------------------------------------
    // Enrolling

    method EnrollArrives(finger: string, sender: string, verified: bool)
      requires Valid()
      modifies `coroutines, `nextTask, `expiryTask
      ensures Valid() && KeepsTrack()
      ensures coroutines == if old(Owns(sender, verified)) && canEnroll && old(NoOperation()) && finger in fingerNames
        then old(coroutines)[old(nextTask) := EnrollProjecting(finger, sender)] else old(coroutines)
      ensures nextTask == old(nextTask) + if old(Owns(sender, verified)) && canEnroll && old(NoOperation()) && finger in fingerNames then 1 else 0
      ensures expiryTask == if nextTask == old(nextTask) then old(expiryTask) else None
    {
      hide Table, AllJustified;
      if !OwnedBy(sender, verified) || !canEnroll || !NoOperation() || finger !in fingerNames {
        return;
      }
      expiryTask := None;
      var t := Arrive();
      Suspend(t, EnrollProjecting(finger, sender));
    }

    /** The client is started in the step that found the owner, a complete projection without this finger
        and no operation. */
    method EnrollProjected(t: Task, view: Option<View>, accepted: bool, verified: bool)
      requires Valid() && t in coroutines && coroutines[t].EnrollProjecting?
      modifies this
      ensures Valid() && KeepsTrack() && verifyTask == old(verifyTask) && deleteTask == old(deleteTask)
      ensures Claim() == old(Claim()) && claimLock == old(claimLock)
      ensures if old(Owns(coroutines[t].sender, verified)) && old(NoOperation()) && accepted
          && view.Some? && view.value.complete && old(coroutines[t]).finger !in view.value.fingers
        then (
          && enrollTask == Some(old(nextTask)) && nextTask == old(nextTask) + 1
          && log == old(log) + [EnrollmentStarted(true, true, true)]
          && coroutines == (old(coroutines) - {t})[old(nextTask) := Enrolling] && expiryTask == old(expiryTask))
        else (
          && log == old(log) && enrollTask == old(enrollTask)
          && Rearmed(old(coroutines) - {t}, old(nextTask)))
    {
      hide Table, AllJustified;
      var p := Resume(t);
      if OwnedBy(p.sender, verified) && NoOperation() && view.Some? && view.value.complete
         && p.finger !in view.value.fingers && accepted {
        StartEnrollment(t, EnrollmentStarted(OwnedBy(p.sender, verified), NoOperation(), view.value.complete));
      }
      EndEnrollStart(t);
    }

    method StartEnrollment(t: Task, ghost e: Event)
      requires Running(t) && NoOperation() && Justified(e)
      modifies `log, `coroutines, `nextTask, `enrollTask
      ensures Running(t) && KeepsTrack() && enrollTask == Some(old(nextTask)) && nextTask == old(nextTask) + 1
      ensures log == old(log) + [e] && coroutines == old(coroutines)[old(nextTask) := Enrolling]
    {
      hide Table, AllJustified;
      Record(t, e);
      var task := Spawn(t, Enrolling);
      enrollTask := Some(task);
    }

    method EndEnrollStart(t: Task)
      requires Running(t) && claimLock != Some(t) && deleteTask != Some(t)
      modifies `expiryTask, `coroutines, `nextTask, `claimLock
      ensures Valid() && KeepsTrack() && claimLock == old(claimLock)
      ensures Rearmed(old(coroutines), old(nextTask))
    {
      hide Table, AllJustified;
      ArmExpiry(t);
      Leave(t);
    }

    /** A running enrollment delivers its terminal update: the claim is left to expire with the client's task. */
    method EnrollmentUpdates(u: Task)
      requires Valid() && Enrolls(coroutines, u)
      modifies `coroutines, `nextTask, `expiryTask, `claimLock
      ensures Valid() && KeepsTrack() && claimLock == old(claimLock)
      ensures if enrollTask.None? then coroutines == old(coroutines) && nextTask == old(nextTask) && expiryTask == old(expiryTask)
        else expiryTask == Some(old(nextTask) + 1) && coroutines == old(coroutines)[old(nextTask) + 1 := SleepingEnrollment(enrollTask.value)]
      ensures enrollTask.Some? ==> nextTask == old(nextTask) + 2
    {
      hide Table, AllJustified;
      if enrollTask.Some? {
        var t := Arrive();
        var expiry := Spawn(t, SleepingEnrollment(enrollTask.value));
        expiryTask := Some(expiry);
        Leave(t);
      }
    }

    method EnrollmentEnds(u: Task)
      requires Valid() && Enrolls(coroutines, u)
      modifies `coroutines, `claimLock
      ensures Valid() && KeepsTrack() && claimLock == old(claimLock) && coroutines == old(coroutines) - {u}
    {
      hide Table, AllJustified;
      var p := Resume(u);
      Leave(u);
    }

    method EnrollmentExpires(t: Task)
      requires Valid() && t in coroutines && coroutines[t].SleepingEnrollment?
      modifies this
      ensures Valid() && KeepsTrack() && log == old(log) && claimLock == old(claimLock)
      ensures verifyTask == old(verifyTask) && deleteTask == old(deleteTask)
      ensures var task := old(coroutines[t]).task;
        if old(enrollTask) == Some(task) && old(EnrollmentRuns()) then
          coroutines == old(coroutines)[t := ExpiringEnrollment(task)] && enrollTask == old(enrollTask) && Claim() == old(Claim())
        else
          && coroutines == old(coroutines) - {t}
          && (if old(enrollTask) == Some(task) then enrollTask == None && ClaimClear() else enrollTask == old(enrollTask) && Claim() == old(Claim()))
      ensures nextTask == old(nextTask) && expiryTask == if t in coroutines then old(expiryTask) else None
    {
      hide Table, AllJustified;
      var p := Resume(t);
      if enrollTask != Some(p.task) {
        expiryTask := None;
        Leave(t);
      } else if EnrollmentRuns() {
        Suspend(t, ExpiringEnrollment(p.task));
      } else {
        EndEnrollmentExpiry(t, true);
      }
    }

    /** As for any stop of the client: its task is cleared, whatever it is by now. */
    method EnrollmentExpired(t: Task)
      requires Valid() && t in coroutines && coroutines[t].ExpiringEnrollment? && coroutines[t].task !in coroutines
      modifies this
      ensures Valid() && log == old(log) && enrollTask == None && ClaimClear() && coroutines == old(coroutines) - {t}
      ensures old(TracksEnrollments()) ==> (TracksEnrollments() <==> !old(EnrollmentRuns()))
      ensures old(TracksVerifications()) ==> TracksVerifications()
      ensures old(EnrollmentRuns()) ==> old(enrollTask) != Some(old(coroutines[t]).task)
      ensures nextTask == old(nextTask) && expiryTask == None && verifyTask == old(verifyTask) && deleteTask == old(deleteTask) && claimLock == old(claimLock)
    {
      hide Table, AllJustified;
      var p := Resume(t);
      EndEnrollmentExpiry(t, true);
    }

    method EndEnrollmentExpiry(t: Task, stopped: bool)
      requires Running(t) && claimLock != Some(t) && deleteTask != Some(t)
      modifies this
      ensures Valid() && log == old(log) && ClaimClear() && coroutines == old(coroutines) && claimLock == old(claimLock)
      ensures enrollTask == (if stopped then None else old(enrollTask))
      ensures verifyTask == old(verifyTask) && deleteTask == old(deleteTask)
      ensures nextTask == old(nextTask) && expiryTask == None
    {
      hide Table, AllJustified;
      if stopped {
        enrollTask := None;
      }
      ClearClaim(t);
      expiryTask := None;
      Leave(t);
    }

    // -------------------------------------------------------------------------------------
    // Deleting

    method DeleteArrives(finger: string, sender: string, verified: bool)
      requires Valid()
      modifies this
      ensures Valid() && KeepsTrack() && log == old(log)
      ensures verifyTask == old(verifyTask) && enrollTask == old(enrollTask) && Claim() == old(Claim())
      ensures if old(Owns(sender, verified)) && canDelete && finger in fingerNames && old(NoOperation())
        then deleteTask == Some(old(nextTask)) && nextTask == old(nextTask) + 1 && coroutines == old(coroutines)[old(nextTask) := DeleteProjecting(finger, sender)]
        else deleteTask == old(deleteTask) && nextTask == old(nextTask) && coroutines == old(coroutines)
      ensures claimLock == old(claimLock) && expiryTask == if nextTask == old(nextTask) then old(expiryTask) else None
    {
      hide Table, AllJustified;
      if !OwnedBy(sender, verified) || !canDelete || finger !in fingerNames || !NoOperation() {
        return;
      }
      expiryTask := None;
      var t := Arrive();
      Reserve(t, Some(t));
      Suspend(t, DeleteProjecting(finger, sender));
    }

    /** The client is started in the step that found the owner, a complete projection with this finger and
        another, and no other operation. */
    method DeleteProjected(t: Task, view: Option<View>, verified: bool)
      requires Valid() && t in coroutines && coroutines[t].DeleteProjecting?
      modifies this
      ensures Valid() && KeepsTrack() && verifyTask == old(verifyTask) && enrollTask == old(enrollTask) && old(deleteTask) == Some(t)
      ensures if old(Owns(coroutines[t].sender, verified)) && view.Some? && view.value.complete
          && old(coroutines[t]).finger in view.value.fingers && view.value.reconciled > 1
        then (
          && deleteTask == Some(t) && log == old(log) + [DeletionStarted(true, true, true)]
          && coroutines == old(coroutines)[old(nextTask) := Deletion][t := Deleting(old(nextTask))]
          && nextTask == old(nextTask) + 1 && expiryTask == old(expiryTask))
        else (
          && deleteTask == None && log == old(log)
          && Rearmed(old(coroutines) - {t}, old(nextTask)))
      ensures Claim() == old(Claim()) && claimLock == old(claimLock)
    {
      hide Table, AllJustified;
      var p := Resume(t);
      if OwnedBy(p.sender, verified) && deleteTask == Some(t) && verifyTask.None? && enrollTask.None?
         && view.Some? && view.value.complete && p.finger in view.value.fingers && view.value.reconciled > 1 {
        Record(t, DeletionStarted(OwnedBy(p.sender, verified), verifyTask.None? && enrollTask.None?, view.value.complete));
        Dispatch(t);
      } else {
        EndDeletion(t);
      }
    }

    method EndDeletion(t: Task)
      requires Running(t) && claimLock != Some(t)
      modifies `deleteTask, `expiryTask, `coroutines, `nextTask, `claimLock
      ensures Valid() && KeepsTrack()
      ensures deleteTask == if old(deleteTask) == Some(t) then None else old(deleteTask)
      ensures Rearmed(old(coroutines), old(nextTask)) && claimLock == old(claimLock)
    {
      hide Table, AllJustified;
      if deleteTask == Some(t) {
        Reserve(t, None);
      }
      ArmExpiry(t);
      Leave(t);
    }

    /** The dispatched deletion ends. */
    method DeletionEnds(u: Task)
      requires Valid() && u in coroutines && coroutines[u].Deletion?
      modifies `coroutines, `claimLock
      ensures Valid() && KeepsTrack() && coroutines == old(coroutines) - {u} && claimLock == old(claimLock)
    {
      hide Table, AllJustified;
      var p := Resume(u);
      Leave(u);
    }

    /** The request returns after the deletion that it waits for. */
    method DeletionReturned(t: Task)
      requires Valid() && t in coroutines && coroutines[t].Deleting? && coroutines[t].task !in coroutines
      modifies this
      ensures Valid() && KeepsTrack() && log == old(log) && deleteTask == None
      ensures Rearmed(old(coroutines) - {t}, old(nextTask))
      ensures verifyTask == old(verifyTask) && enrollTask == old(enrollTask) && Claim() == old(Claim()) && claimLock == old(claimLock)
    {
      hide Table, AllJustified;
      var p := Resume(t);
      EndDeletion(t);
    }

    // -------------------------------------------------------------------------------------
    // Cancellation, at any suspension

    /** A stop of the client that is cancelled after its cancellation was sent clears the client's task. */
    predicate ClearsEnrollment(t: Task, sent: bool)
      requires t in coroutines
      reads this
    {
      sent && (coroutines[t].StoppingEnrollment? || coroutines[t].ExpiringEnrollment?)
    }

    /** A gathering coroutine waits for its task all the same, and so does a request for the deletion that it has
        dispatched; an enrollment ends with its worker. */
    predicate Persists(p: Point)
      reads this
    {
      p.Deleting? || p.Enrolling? || (p.GatheringVerification? && p.task in coroutines)
    }

    /** Coroutine t is cancelled where it is suspended; sent says how far a stop of the client has come. */
    method Cancelled(t: Task, sent: bool)
      requires Valid() && t in coroutines
      modifies this
      ensures Valid() && log == old(log)
      ensures claimLock == if old(claimLock) == Some(t) && !old(Persists(coroutines[t])) then None else old(claimLock)
      ensures var p := old(coroutines[t]);
        if old(Persists(p)) then
          coroutines == old(coroutines) && nextTask == old(nextTask) && expiryTask == old(expiryTask)
        else if p.VerifyProjecting? || p.EnrollProjecting? || p.DeleteProjecting? then
          Rearmed(old(coroutines) - {t}, old(nextTask))
        else
          && coroutines == old(coroutines) - {t} && nextTask == old(nextTask)
          && expiryTask == (if p.SleepingEnrollment? || p.ExpiringEnrollment? then None else old(expiryTask))
      ensures var p := old(coroutines[t]);
        && verifyTask == (if p.VerifyProjecting? && old(verifyTask) == Some(t) then None else old(verifyTask))
        && deleteTask == (if p.DeleteProjecting? then None else old(deleteTask))
        && enrollTask == (if old(ClearsEnrollment(t, sent)) && !old(Persists(p)) then None else old(enrollTask))
        && (if p.ExpiringEnrollment? then ClaimClear() else Claim() == old(Claim()))
      ensures old(TracksVerifications()) ==> TracksVerifications()
      ensures old(TracksEnrollments()) ==> (TracksEnrollments() <==> !(old(ClearsEnrollment(t, sent)) && old(EnrollmentRuns())))
    {
      hide Table, AllJustified;
      match coroutines[t] {
        case Deleting(_) => return;
        case Enrolling => return;
        case GatheringVerification(_, task) => if task in coroutines { return; }
        case _ =>
      }
      Unwind(t, sent);
    }

    /** The exception goes through the coroutine: what its handlers leave. */
    method Unwind(t: Task, sent: bool)
      requires Valid() && t in coroutines && !Persists(coroutines[t])
      modifies this
      ensures Valid() && log == old(log)
      ensures claimLock == if old(claimLock) == Some(t) then None else old(claimLock)
      ensures var p := old(coroutines[t]);
        if Starts(p) then
          Rearmed(old(coroutines) - {t}, old(nextTask))
        else
          && coroutines == old(coroutines) - {t} && nextTask == old(nextTask)
          && expiryTask == (if p.SleepingEnrollment? || p.ExpiringEnrollment? then None else old(expiryTask))
      ensures var p := old(coroutines[t]);
        && verifyTask == (if p.VerifyProjecting? && old(verifyTask) == Some(t) then None else old(verifyTask))
        && deleteTask == (if p.DeleteProjecting? then None else old(deleteTask))
        && enrollTask == (if old(ClearsEnrollment(t, sent)) then None else old(enrollTask))
        && (if p.ExpiringEnrollment? then ClaimClear() else Claim() == old(Claim()))
      ensures old(TracksVerifications()) ==> TracksVerifications()
      ensures old(TracksEnrollments()) ==> (TracksEnrollments() <==> !(old(ClearsEnrollment(t, sent)) && old(EnrollmentRuns())))
    {
      hide Table, AllJustified;
      if Starts(coroutines[t]) {
        UnwindStart(t);
        return;
      }
      var p := Resume(t);
      if p.StoppingEnrollment? {
        if sent {
          enrollTask := None;
        }
        Leave(t);
      } else if p.SleepingEnrollment? {
        expiryTask := None;
        Leave(t);
      } else if p.ExpiringEnrollment? {
        EndEnrollmentExpiry(t, sent);
      } else {
        Leave(t);
      }
    }

    predicate Starts(p: Point) {
      p.VerifyProjecting? || p.EnrollProjecting? || p.DeleteProjecting?
    }

    /** A cancelled start gives back what it had reserved. */
    method UnwindStart(t: Task)
      requires Valid() && t in coroutines && Starts(coroutines[t])
      modifies this
      ensures Valid() && KeepsTrack() && log == old(log) && claimLock == old(claimLock) && claimLock != Some(t)
      ensures Rearmed(old(coroutines) - {t}, old(nextTask))
      ensures var p := old(coroutines[t]);
        && verifyTask == (if p.VerifyProjecting? && old(verifyTask) == Some(t) then None else old(verifyTask))
        && deleteTask == (if p.DeleteProjecting? then None else old(deleteTask))
        && enrollTask == old(enrollTask) && Claim() == old(Claim())
    {
      hide Table, AllJustified;
      var p := Resume(t);
      if p.VerifyProjecting? {
        EndVerifyStart(t);
      } else if p.EnrollProjecting? {
        EndEnrollStart(t);
      } else {
        EndDeletion(t);
      }
    }

    // -------------------------------------------------------------------------------------
    // All interleavings

    /** The coroutine waits for a task that has not ended, or for the lock. */
    predicate Blocked(p: Point)
      reads this
    {
      match p
      case GatheringVerification(_, task) => task in coroutines
      case StoppingEnrollment(_, task) => task in coroutines
      case ExpiringEnrollment(task) => task in coroutines
      case AwaitingDeletion(_, task) => task in coroutines
      case Deleting(task) => task in coroutines
      case ClaimWaiting(_, _) => claimLock.Some?
      case DepartureWaiting(_) => claimLock.Some?
      case _ => false
    }

    /** The steps that lose track of an operation: a stop goes on when the handle that it clears holds a running
        operation. By VerificationGathered and EnrollmentStopped it is another one than the stop had found. */
    predicate LosesVerification(t: Task)
      requires t in coroutines
      reads this
    {
      coroutines[t].GatheringVerification? && !Blocked(coroutines[t]) && VerificationRuns()
    }

    predicate LosesEnrollment(t: Task)
      requires t in coroutines
      reads this
    {
      (coroutines[t].StoppingEnrollment? || coroutines[t].ExpiringEnrollment?) && !Blocked(coroutines[t]) && EnrollmentRuns()
    }

    /** At most one biometric operation runs. */
    ghost predicate OneOperation()
      reads this
    {
      forall u, v :: u in coroutines && v in coroutines && Operates(coroutines[u]) && Operates(coroutines[v]) ==> u == v
    }

    /** Any number of steps, of any coroutines, in any order, with any outcome from outside. As long as no step
        was one that loses track of an operation, every running operation has its handle and at most one runs. */
    method Interleave(steps: nat) returns (lost: bool)
      requires Valid() && TracksVerifications() && TracksEnrollments()
      modifies this
      ensures Valid()
      ensures !lost ==> TracksVerifications() && TracksEnrollments() && OneOperation()
    {
      hide Valid, Running, TracksVerifications, TracksEnrollments;
      lost := false;
      for i := 0 to steps
        invariant Valid()
        invariant !lost ==> TracksVerifications() && TracksEnrollments()
      {
        var arrival: bool := *;
        if arrival {
          SomeArrival();
        } else if coroutines != map[] {
          var t :| t in coroutines;
          var cancelled: bool, sent: bool := *, *;
          if cancelled {
            lost := lost || (ClearsEnrollment(t, sent) && EnrollmentRuns());
            Cancelled(t, sent);
          } else {
            lost := lost || LosesVerification(t) || LosesEnrollment(t);
            Step(t);
          }
        }
      }
      if !lost {
        TrackedIsExclusive(this);
      }
    }

    method SomeArrival()
      requires Valid()
      modifies this
      ensures Valid() && KeepsTrack()
    {
      hide Valid, Running, TracksVerifications, TracksEnrollments;
      var which: nat, text: string, sender: string, flag: bool, verified: bool :| true;
      match which
      case 0 => ClaimArrives(text, sender);
      case 1 => StopArrives(sender, verified, ThenRelease);
      case 2 => DepartureArrives(sender);
      case 3 => StopArrives(sender, verified, if flag then JustEnrollment else JustVerification);
      case 4 => VerifyArrives(text, sender, verified);
      case 5 => EnrollArrives(text, sender, verified);
      case _ => DeleteArrives(text, sender, verified);
    }

    /** Coroutine t goes on, if it can. The step keeps track of every operation if and only if it is none of those
        that lose one. */
    method Step(t: Task)
      requires Valid() && t in coroutines
      modifies this
      ensures Valid()
      ensures old(TracksVerifications()) ==> (TracksVerifications() <==> !old(LosesVerification(t)))
      ensures old(TracksEnrollments()) ==> (TracksEnrollments() <==> !old(LosesEnrollment(t)))
    {
      hide Valid, Running, TracksVerifications, TracksEnrollments;
      if Blocked(coroutines[t]) {
        return;
      }
      var verified: bool, flag: bool, view: Option<View>, caller: Option<Caller>, evidence: Option<nat> :| true;
      match coroutines[t]
      case ClaimWaiting(_, _) => ClaimEnters(t, flag);
      case DepartureWaiting(_) => DepartureEnters(t);
      case Collecting(_, _) => CallerCollected(t, caller, verified);
      case CollectingEvidence(_, _, _) => EvidenceCollected(t, evidence, verified);
      case CancellingBackend(_, _) => BackendCancelled(t);
      case GatheringVerification(_, _) => VerificationGathered(t);
      case StoppingEnrollment(_, _) => EnrollmentStopped(t);
      case AwaitingDeletion(_, _) => DeletionAwaited(t);
      case VerifyProjecting(_, _, cancelled) =>
        if cancelled {
          Cancelled(t, false);
        } else {
          VerifyProjected(t, view, flag, verified);
        }
      case Verifying(_) => VerificationEnds(t);
      case EnrollProjecting(_, _) => EnrollProjected(t, view, flag, verified);
      case Enrolling =>
        if flag {
          EnrollmentUpdates(t);
        } else {
          EnrollmentEnds(t);
        }
      case DeleteProjecting(_, _) => DeleteProjected(t, view, verified);
      case Deletion => DeletionEnds(t);
      case Deleting(_) => DeletionReturned(t);
      case SleepingStale(_) => StaleExpires(t);
      case SleepingUnstarted => UnstartedExpires(t);
      case SleepingEnrollment(_) => EnrollmentExpires(t);
      case ExpiringEnrollment(_) => EnrollmentExpired(t);
    }
  }

  /** Handles that follow their operations make the operations exclusive; a deletion always has its handle. */
  lemma TrackedIsExclusive(d: Device)
    requires d.Valid() && d.TracksVerifications() && d.TracksEnrollments()
    ensures d.OneOperation()
  {
    forall u, v | u in d.coroutines && v in d.coroutines && Operates(d.coroutines[u]) && Operates(d.coroutines[v])
      ensures u == v
    {
      HasHandle(d, u);
      HasHandle(d, v);
    }
  }

  lemma HasHandle(d: Device, u: Task)
    requires d.Valid() && d.TracksVerifications() && d.TracksEnrollments() && u in d.coroutines
    ensures d.coroutines[u].Verifying? ==> d.verifyTask == Some(u)
    ensures d.coroutines[u].Enrolling? ==> d.enrollTask == Some(u)
    ensures d.coroutines[u].Deletion? ==> d.deleteTask.Some? && d.deleteTask.value in d.coroutines && d.coroutines[d.deleteTask.value] == Deleting(u)
  {
    assert Verifies(d.coroutines, u) <==> d.coroutines[u].Verifying?;
    assert Enrolls(d.coroutines, u) <==> d.coroutines[u].Enrolling?;
    assert Fits(u, d.coroutines, d.nextTask, d.claimLock, d.deleteTask, d.ClaimClear());
  }

  /** A whole claim by one caller. */
  method ClaimDevice(d: Device, user: string, sender: string)
    requires d.Valid() && d.ClaimClear() && d.claimLock.None? && user in d.allowedUsers
    modifies d
    ensures d.Valid() && d.OwnedBy(sender, true) && d.claimLock.None?
    ensures d.verifyTask == old(d.verifyTask) && d.enrollTask == old(d.enrollTask) && d.deleteTask == old(d.deleteTask)
    ensures d.nextTask > old(d.nextTask)
    ensures forall u :: u in old(d.coroutines) && u < old(d.nextTask) ==> u in d.coroutines && d.coroutines[u] == old(d.coroutines[u])
    ensures forall u :: u in d.coroutines && u < old(d.nextTask) ==> u in old(d.coroutines)
  {
    hide Device.Valid;
    var t := d.nextTask;
    d.ClaimArrives(user, sender);
    d.ClaimEnters(t, true);
    d.CallerCollected(t, Some(Caller(sender, 1)), true);
    d.EvidenceCollected(t, Some(1), true);
  }

  /** A started verification. */
  method StartVerification(d: Device, sender: string) returns (operation: Task)
    requires d.Valid() && d.OwnedBy(sender, true) && d.NoOperation()
    modifies d
    ensures d.Valid() && d.OwnedBy(sender, true) && d.claimLock == old(d.claimLock)
    ensures d.verifyTask == Some(operation) && operation in d.coroutines && d.coroutines[operation] == Verifying(false)
    ensures operation >= old(d.nextTask) && d.enrollTask == old(d.enrollTask) && d.deleteTask == old(d.deleteTask)
    ensures forall u :: u in old(d.coroutines) && u < old(d.nextTask) ==> u in d.coroutines && d.coroutines[u] == old(d.coroutines[u])
    ensures forall u :: u in d.coroutines && u < old(d.nextTask) ==> u in old(d.coroutines)
  {
    hide Device.Valid;
    var t := d.nextTask;
    d.VerifyArrives("any", sender, true);
    operation := d.nextTask;
    d.VerifyProjected(t, Some(View(true, {}, 1)), true, true);
  }

  /** A started enrollment. */
  method StartEnrollment(d: Device, finger: string, sender: string) returns (operation: Task)
    requires d.Valid() && d.OwnedBy(sender, true) && d.NoOperation() && d.canEnroll && finger in d.fingerNames
    modifies d
    ensures d.Valid() && d.OwnedBy(sender, true) && d.claimLock == old(d.claimLock)
    ensures d.enrollTask == Some(operation) && operation in d.coroutines && d.coroutines[operation] == Enrolling
    ensures operation >= old(d.nextTask) && d.verifyTask == old(d.verifyTask) && d.deleteTask == old(d.deleteTask)
    ensures forall u :: u in old(d.coroutines) && u < old(d.nextTask) ==> u in d.coroutines && d.coroutines[u] == old(d.coroutines[u])
    ensures forall u :: u in d.coroutines && u < old(d.nextTask) ==> u in old(d.coroutines)
  {
    hide Device.Valid;
    var t := d.nextTask;
    d.EnrollArrives(finger, sender, true);
    operation := d.nextTask;
    d.EnrollProjected(t, Some(View(true, {}, 1)), true, true);
  }

  /** A release finds the start of a verification, and waits for the backend's process while the start, whose
      projection has ended well, puts the operation in its place. The release then cancels and gathers the
      start, which is over, and clears the handle and the claim: the verification runs on. */
  method ReleaseOverStart(d: Device, sender: string) returns (operation: Task)
    requires d.Valid() && d.OwnedBy(sender, true) && d.NoOperation() && d.claimLock.None?
    modifies d
    ensures d.Valid() && d.ClaimClear() && d.NoOperation() && d.claimLock.None?
    ensures operation in d.coroutines && d.coroutines[operation] == Verifying(false)
  {
    hide Device.Valid, Device.KeepsTrack, Device.TracksVerifications;
    var start := d.nextTask;
    d.VerifyArrives("any", sender, true);
    var release := d.nextTask;
    d.StopArrives(sender, true, ThenRelease);
    operation := d.nextTask;
    d.VerifyProjected(start, Some(View(true, {}, 1)), true, true);
    d.BackendCancelled(release);
    d.VerificationGathered(release);
  }

  /** After that another claim may start another verification beside it. */
  method ReleaseLosesVerification() returns (d: Device, first: Task, second: Task)
    ensures d.Valid() && first != second && Verifies(d.coroutines, first) && Verifies(d.coroutines, second)
    ensures d.verifyTask == Some(second)
  {
    hide Device.Valid, Device.KeepsTrack, Device.TracksVerifications;
    d := new Device({"user"}, {}, false, false);
    ClaimDevice(d, "user", "first");
    first := ReleaseOverStart(d, "first");
    TaskBound(d, first);
    ClaimDevice(d, "user", "second");
    TaskBound(d, first);
    second := StartVerification(d, "second");
  }

  /** Two stops overlap: the one that sends the cancellation to the worker is still in that thread when the other,
      a release, has seen the enrollment end. */
  method OverlappingStops(d: Device) returns (late: Task)
    requires d.Valid() && d.OwnedBy("first", true) && d.NoOperation() && d.claimLock.None?
    requires d.canEnroll && "finger" in d.fingerNames && "user" in d.allowedUsers
    modifies d
    ensures d.Valid() && d.ClaimClear() && d.NoOperation() && d.claimLock.None?
    ensures late in d.coroutines && d.coroutines[late].StoppingEnrollment? && d.coroutines[late].after == JustEnrollment
    ensures d.coroutines[late].task !in d.coroutines && d.coroutines[late].task < late < d.nextTask
  {
    hide Device.Valid, Device.KeepsTrack, Device.TracksEnrollments;
    var ended := StartEnrollment(d, "finger", "first");
    TaskBound(d, ended);
    late := d.nextTask;
    d.StopArrives("first", true, JustEnrollment);
    var release := d.nextTask;
    d.StopArrives("first", true, ThenRelease);
    d.EnrollmentEnds(ended);
    d.EnrollmentStopped(release);
    TaskBound(d, late);
  }

  /** The late stop clears the task of the enrollment that was started meanwhile, and another may be started. */
  method LateStopLosesEnrollment() returns (d: Device, first: Task, second: Task)
    ensures d.Valid() && first != second && Enrolls(d.coroutines, first) && Enrolls(d.coroutines, second)
    ensures d.enrollTask == Some(second)
  {
    hide Device.Valid, Device.KeepsTrack, Device.TracksEnrollments;
    d := new Device({"user"}, {"finger"}, true, false);
    ClaimDevice(d, "user", "first");
    var late := OverlappingStops(d);
    ClaimDevice(d, "user", "second");
    first := StartEnrollment(d, "finger", "second");
    TaskBound(d, first);
    d.EnrollmentStopped(late);
    TaskBound(d, first);
    second := StartEnrollment(d, "finger", "second");
  }

  lemma TaskBound(d: Device, t: Task)
    requires d.Valid() && t in d.coroutines
    ensures t < d.nextTask
  {
  }
}
