/** The host-only broker that prunes one identity after an external deletion, and its recovery.
    The journal's verdicts are proved truthful for every way in which the broker, its
    recovery and the machine under them can be interrupted and started again. */
module ExternalDelete {
  import opened Outcomes
  import opened HostWorld
  import opened CatacombStore
  import opened StoreOperations

  datatype Stage = HostStage | HostCommit | Readback
  datatype CommitAction = Direct | RolledForward
  datatype Reason = BeforeHostStage | DiscardedPrepare

  /** Journal records, with the evidence that binds them to each other. The two component
      snapshots are kept as the digests that they are taken over. */
  datatype Record =
    | Baseline(beforeUser: Digest, others: map<Name, Digest>)
    | Intent(stagedUser: Digest)
    | HostCommitted(committedUser: Digest, action: CommitAction)
    | Reconciled(reconciledUser: Digest)
    | Aborted(reason: Reason)
    | OutcomeUnknown(stage: Stage, hostCommitPossible: bool)

  datatype Phase = AtBaseline | AtIntent | AtHostCommitted | AtReconciled | AtAborted | AtUnknown

  datatype History = History(phase: Phase, beforeUser: Digest, others: map<Name, Digest>, staged: Option<Digest>)

  /** One record of the history automaton. */
  function Next(h: History, record: Record): Result<History> {
    match record
    case Baseline(_, _) => Err
    case Intent(d) =>
      if h.phase.AtBaseline? then Ok(h.(phase := AtIntent, staged := Some(d))) else Err
    case HostCommitted(d, _) =>
      if (h.phase.AtIntent? || h.phase.AtUnknown?) && h.staged == Some(d) then Ok(h.(phase := AtHostCommitted)) else Err
    case Reconciled(d) =>
      if h.phase.AtHostCommitted? && h.staged == Some(d) then Ok(h.(phase := AtReconciled)) else Err
    case Aborted(_) =>
      if h.phase.AtBaseline? || h.phase.AtIntent? || h.phase.AtUnknown? then Ok(h.(phase := AtAborted)) else Err
    case OutcomeUnknown(_, _) =>
      if h.phase.AtIntent? || h.phase.AtHostCommitted? then Ok(h.(phase := AtUnknown)) else Err
  }

  function Validate(records: seq<Record>): Result<History> {
    if records == [] then Err
    else if |records| == 1 then
      if records[0].Baseline? then Ok(History(AtBaseline, records[0].beforeUser, records[0].others, None)) else Err
    else
      var h :- Validate(records[..|records| - 1]);
      Next(h, records[|records| - 1])
  }

  lemma ValidateAppended(records: seq<Record>, record: Record)
    requires records != []
    ensures Validate(records + [record]) == var h :- Validate(records); Next(h, record)
  {
  }

  /** The record at i may stand after its predecessor, and names the component that the intent staged. */
  predicate LawfulAt(rs: seq<Record>, i: nat)
    requires 0 < i < |rs|
  {
    var p := rs[i - 1];
    match rs[i]
    case Baseline(_, _) => false
    case Intent(_) => i == 1
    case HostCommitted(d, _) => (p.Intent? || p.OutcomeUnknown?) && rs[1] == Intent(d)
    case Reconciled(d) => p.HostCommitted? && rs[1] == Intent(d)
    case Aborted(_) => p.Baseline? || p.Intent? || p.OutcomeUnknown?
    case OutcomeUnknown(_, _) => p.Intent? || p.HostCommitted?
  }

  /** A baseline comes first, and every record may follow the one before it. */
  predicate Lawful(rs: seq<Record>) {
    rs != [] && rs[0].Baseline? && forall i :: 0 < i < |rs| ==> LawfulAt(rs, i)
  }

  /** What the automaton has reached: the last record is the phase, the second the intent. */
  function Reached(rs: seq<Record>): History
    requires rs != [] && rs[0].Baseline?
  {
    var phase :=
      match rs[|rs| - 1]
      case Baseline(_, _) => AtBaseline
      case Intent(_) => AtIntent
      case HostCommitted(_, _) => AtHostCommitted
      case Reconciled(_) => AtReconciled
      case Aborted(_) => AtAborted
      case OutcomeUnknown(_, _) => AtUnknown;
    History(phase, rs[0].beforeUser, rs[0].others, if |rs| > 1 && rs[1].Intent? then Some(rs[1].stagedUser) else None)
  }

  /** The automaton accepts exactly the lawful journals. */
  lemma {:induction false} JournalExactly(rs: seq<Record>)
    ensures Validate(rs).Ok? <==> Lawful(rs)
    ensures Lawful(rs) ==> Validate(rs) == Ok(Reached(rs))
  {
    if |rs| > 1 {
      var p := rs[..|rs| - 1];
      JournalExactly(p);
      assert forall i :: 0 < i < |p| ==> LawfulAt(p, i) == LawfulAt(rs, i);
      assert Lawful(rs) <==> Lawful(p) && LawfulAt(rs, |rs| - 1);
      if Lawful(p) && |p| > 1 {
        assert LawfulAt(p, 1);
      }
    }
  }

  /** An abort after a commit is accepted when an ambiguity stands between them. */
  lemma AbortAfterCommit(before: Digest, others: map<Name, Digest>, d: Digest, a: CommitAction, possible: bool, reason: Reason)
    ensures Validate([Baseline(before, others), Intent(d), HostCommitted(d, a), OutcomeUnknown(Readback, possible), Aborted(reason)]).Ok?
  {
    JournalExactly([Baseline(before, others), Intent(d), HostCommitted(d, a), OutcomeUnknown(Readback, possible), Aborted(reason)]);
  }

  function OtherDigests(r: Rules, user: Name, components: Dir): map<Name, Digest> {
    map n | n in components && n in r.Allowed() && n != user :: r.sha(components[n])
  }

  predicate SaysCommitted(journal: seq<Record>) {
    exists i :: 0 <= i < |journal| && (journal[i].HostCommitted? || journal[i].Reconciled?)
  }

  predicate SaysAborted(journal: seq<Record>) {
    exists i :: 0 <= i < |journal| && journal[i].Aborted?
  }

  predicate SaysProved(journal: seq<Record>) {
    exists i :: 0 <= i < |journal| && journal[i].Reconciled?
  }

  /** One operation: the root it started from, the archive that it stages, and whether any read-back in its life
      finds the live inventory in agreement. */
  datatype Operation = Operation(rules: Rules, before: Dir, archive: Bytes, agrees: bool)
  {
    function UserName(): Name {
      User(rules.uid)
    }

    function Staged(): Dir {
      map[UserName() := archive]
    }

    /** The archive is a valid component, and its digest differs from the old one's. */
    ghost predicate Sound() {
      Transaction(rules, before, Staged()) && rules.sha(archive) != rules.sha(before[UserName()])
    }

    ghost predicate Untouched(w: World<Record>) {
      w.root == before && w.NoTransaction()
    }

    /** The staged user component is in place and every other component is unchanged. */
    ghost predicate Replaced(w: World<Record>) {
      w.root == before[UserName() := archive] && w.NoTransaction()
    }

    /** What the journal says is so. */
    ghost predicate Truthful(w: World<Record>) {
      && (SaysAborted(w.journal) ==> Untouched(w))
      && (SaysCommitted(w.journal) ==> Replaced(w))
      && (SaysProved(w.journal) ==> agrees)
    }

    ghost predicate Crossed(w: World<Record>) {
      w.commit.Some? || w.root != before
    }

    /** The journal belongs to this operation, and nothing is touched before its intent. */
    ghost predicate JournalBound(w: World<Record>)
      requires UserName() in before
    {
      if w.journal == [] then Untouched(w)
      else
        && Validate(w.journal).Ok?
        && var h := Validate(w.journal).value;
        && h.beforeUser == rules.sha(before[UserName()])
        && h.others == OtherDigests(rules, UserName(), before)
        && (if h.phase.AtBaseline? then Untouched(w) else h.phase.AtAborted? || h.staged == Some(rules.sha(archive)))
        && (h.phase.AtAborted? ==> SaysAborted(w.journal))
        && (h.phase.AtHostCommitted? || h.phase.AtReconciled? ==> SaysCommitted(w.journal))
    }

    /** What holds in every world that the operation passes through. */
    ghost predicate Safe(w: World<Record>)
      requires UserName() in before
    {
      InTransaction(w, Crossed(w), before, Staged()) && JournalBound(w) && Truthful(w)
    }

    ghost predicate AllSafe(history: seq<World<Record>>)
      requires UserName() in before
    {
      forall i :: 0 <= i < |history| ==> Safe(history[i])
    }

    /** A world of the transaction with the journal of a safe world that has no verdict yet. */
    lemma StaysSafe(w: World<Record>, w': World<Record>, crossed: bool)
      requires Sound() && Safe(w)
      requires !SaysAborted(w.journal) && !SaysCommitted(w.journal)
      requires w.journal != [] && !Validate(w.journal).value.phase.AtBaseline?
      requires w'.journal == w.journal && InTransaction(w', crossed, before, Staged())
      ensures Safe(w')
    {
    }

    /** A record that the automaton accepts and that is true keeps the world safe. */
    lemma AppendedSafe(w: World<Record>, record: Record)
      requires Sound() && Safe(w) && w.journal != []
      requires Next(Validate(w.journal).value, record).Ok?
      requires record.Intent? ==> record.stagedUser == rules.sha(archive)
      requires record.Aborted? ==> Untouched(w)
      requires record.HostCommitted? || record.Reconciled? ==> Replaced(w)
      requires record.Reconciled? ==> agrees
      ensures Safe(w.(journal := w.journal + [record]))
    {
      ValidateAppended(w.journal, record);
      var w' := w.(journal := w.journal + [record]);
      assert w'.journal[|w.journal|] == record;
      assert SaysAborted(w'.journal) ==> SaysAborted(w.journal) || record.Aborted?;
      assert SaysCommitted(w'.journal) ==> SaysCommitted(w.journal) || record.HostCommitted? || record.Reconciled?;
      assert SaysProved(w'.journal) ==> SaysProved(w.journal) || record.Reconciled?;
      assert SaysAborted(w.journal) ==> exists i :: 0 <= i < |w.journal| && w'.journal[i].Aborted?;
    }

    /** The flag of an ambiguous outcome is the presence of commit/. When only the last synchronisation
        failed, it says that no commit was possible although the root is replaced. */
    lemma FlagUnderstates(w: World<Record>)
      requires Sound() && Safe(w) && Replaced(w) && w.journal != [] && Validate(w.journal).value.phase.AtIntent?
      ensures var note := OutcomeUnknown(HostCommit, w.commit.Some?);
              && !note.hostCommitPossible
              && Safe(w.(journal := w.journal + [note])) && !Untouched(w.(journal := w.journal + [note]))
    {
      AppendedSafe(w, OutcomeUnknown(HostCommit, w.commit.Some?));
      assert before[UserName() := archive][UserName()] != before[UserName()];
    }

    /** Whether the flag says that the boundary was crossed is right, in either direction, exactly while the root is
        not completely replaced: it understates when the removal of commit/ took effect and the broker failed all
        the same. A false flag leaves the old root or the new one. */
    lemma FlagExact(w: World<Record>)
      requires Sound() && Safe(w) && w.journal != []
      ensures (w.commit.Some? <==> Crossed(w)) <==> !Replaced(w)
      ensures w.commit.None? ==> w.root == before || Replaced(w)
    {
      assert before[UserName() := archive][UserName()] != before[UserName()];
      assert before + Staged() == before[UserName() := archive];
    }

    /** When the flag is set, recovery ends with the root replaced. */
    lemma FlagCommits(w: World<Record>)
      requires Sound() && Safe(w) && w.commit.Some?
      ensures var run := Recover(rules, w, rules.Hashes(Staged()));
              run.ok && Replaced(Final(w, run))
    {
      hide Recover;
      RecoverOutcome(rules, w, true, before, Staged());
      assert before + Staged() == before[UserName() := archive];
    }

    lemma RunSafe(w: World<Record>, run: Run<Record>, crossed: bool)
      requires Sound() && Safe(w)
      requires !SaysAborted(w.journal) && !SaysCommitted(w.journal)
      requires w.journal != [] && !Validate(w.journal).value.phase.AtBaseline?
      requires forall k :: 0 < k <= |run.states| ==>
                 StateAt(w, run, k).journal == w.journal && InTransaction(StateAt(w, run, k), crossed, before, Staged())
      ensures AllSafe(run.states)
    {
      forall i | 0 <= i < |run.states|
        ensures Safe(run.states[i])
      {
        assert run.states[i] == StateAt(w, run, i + 1);
        StaysSafe(w, run.states[i], crossed);
      }
    }
  }

  class Broker {
    const machine: Machine<Record>
    const store: Store<Record>
    ghost const op: Operation
    const user: Name

    ghost predicate Valid()
      reads machine
    {
      && store.machine == machine
      && store.rules == op.rules
      && user == op.UserName()
      && op.Sound()
      && machine.Valid()
      && op.AllSafe(machine.history)
    }

    constructor (rules: Rules, ghost before: Dir, ghost archive: Bytes, ghost agrees: bool, machine: Machine<Record>)
      requires Operation(rules, before, archive, agrees).Sound()
      requires machine.Durable() && machine.history == [World(before, None, None, [])]
      ensures this.machine == machine && op == Operation(rules, before, archive, agrees) && Valid()
    {
      this.machine, op, user := machine, Operation(rules, before, archive, agrees), User(rules.uid);
      store := new Store(rules, machine);
    }

    /** The environment in which all goes well but the synchronisation after the root has been replaced. */
    ghost predicate LastSyncFails() {
      && machine.OnlySyncsFail()
      && forall i, w :: machine.fate(i, Syncing, w).Works? <==> !op.Replaced(w)
    }

    lemma NotYet(w: World<Record>)
      requires op.Sound() && LastSyncFails() && (w.root == op.before || !w.NoTransaction())
      ensures !op.Replaced(w) && !machine.SyncMayFail(w)
    {
      assert op.before[op.UserName() := op.archive][op.UserName()] != op.before[op.UserName()];
    }

    lemma JournalReadable(w: World<Record>)
      requires op.Sound() && op.Safe(w) && w.journal != []
      ensures Validate(w.journal).Ok?
    {
    }

    /** Validate the journal, append the record, validate again. The callers only append records
        that the automaton accepts, so a journal never becomes unreadable. */
    method AppendChecked(record: Record) returns (s: Status)
      requires Valid() && machine.Now().journal != []
      requires var w := machine.Now();
               && Next(Validate(w.journal).value, record).Ok?
               && (record.Intent? ==> record.stagedUser == op.rules.sha(op.archive))
               && (record.Aborted? ==> op.Untouched(w))
               && (record.HostCommitted? || record.Reconciled? ==> op.Replaced(w))
               && (record.Reconciled? ==> op.agrees)
      modifies machine
      ensures Valid() && !s.Refused? && machine.synced >= old(machine.synced)
      ensures var w := old(machine.Now());
              && machine.Now() in {w, w.(journal := w.journal + [record])}
              && (s.Done? ==> machine.Now() == w.(journal := w.journal + [record]) && machine.Durable())
              && (machine.OnlySyncsFail() ==> machine.Now() == w.(journal := w.journal + [record]) && !s.Cut?)
              && (LastSyncFails() && s.IoError? ==> op.Replaced(w))
      ensures machine.Explains(s)
    {
      JournalReadable(machine.Now());
      hide Operation.Safe;
      if Validate(machine.Now().journal).Err? {
        return Refused;
      }
      op.AppendedSafe(machine.Now(), record);
      ValidateAppended(machine.Now().journal, record);
      :- machine.AppendRecord(record);
      if Validate(machine.Now().journal).Err? {
        return Refused;
      }
      return Done;
    }

    /** Pending: past the intent, without a verdict. */
    ghost predicate Pending()
      reads machine
      requires Valid()
    {
      var w := machine.Now();
      && w.journal != [] && !Validate(w.journal).value.phase.AtBaseline?
      && !SaysAborted(w.journal) && !SaysCommitted(w.journal)
    }

    lemma FollowsSafe(h0: seq<World<Record>>, h: seq<World<Record>>, run: Run<Record>, s: Status)
      requires op.UserName() in op.before
      requires op.AllSafe(h0) && op.AllSafe(run.states) && Follows(h0, h, run, s)
      ensures op.AllSafe(h)
    {
    }

    /** Create prepare/ for the user component. */
    method BeginArchive() returns (s: Status)
      requires Valid() && Pending() && op.Untouched(machine.Now())
      modifies machine
      ensures Valid() && !s.Refused? && machine.Now().journal == old(machine.Now().journal)
      ensures s.Done? ==> machine.Now() == old(machine.Now()).(prepare := Some(map[]))
      ensures LastSyncFails() ==> s.Done?
      ensures machine.Now().root == op.before && machine.Now().commit.None? && machine.Explains(s)
    {
      ghost var h0, w0 := machine.history, machine.Now();
      ghost var run := Begin(store.rules, w0, {user});
      s := store.BeginStage({user});
      forall k | 0 < k <= |run.states|
        ensures StateAt(w0, run, k).journal == w0.journal && InTransaction(StateAt(w0, run, k), false, op.before, op.Staged())
      {
      }
      op.RunSafe(w0, run, false);
      FollowsSafe(h0, machine.history, run, s);
      if LastSyncFails() {
        NotYet(machine.Now());
      }
    }

    /** Write the archive into prepare/. */
    method StageArchive(archive: Bytes) returns (s: Status, digest: Digest)
      requires Valid() && Pending() && archive == op.archive
      requires machine.Now() == World(op.before, Some(map[]), None, machine.Now().journal)
      modifies machine
      ensures Valid() && !s.Refused? && machine.Now().journal == old(machine.Now().journal)
      ensures s.Done? ==> digest == op.rules.sha(archive)
      ensures s.Done? ==> machine.Now() == old(machine.Now()).(prepare := Some(op.Staged()))
      ensures LastSyncFails() ==> s.Done?
      ensures machine.Now().root == op.before && machine.Now().commit.None? && machine.Explains(s)
    {
      ghost var h0 := machine.history;
      assert StageAccepted(op.rules, machine.Now(), user, archive, {user});
      hide Operation.Safe, Operation.Sound, StageAccepted, Written, Validate;
      s, digest := store.StageComponent(user, archive, {user});
      StagingArrives(h0, machine.history, s);
      assert map[][user := archive] == op.Staged();
    }

    lemma StagingArrives(h0: seq<World<Record>>, h: seq<World<Record>>, s: Status)
      requires op.Sound() && user == op.UserName() && h0 != [] && op.AllSafe(h0) && h0 <= h
      requires var w := h0[|h0| - 1];
               && w == World(op.before, Some(map[]), None, w.journal)
               && !SaysAborted(w.journal) && !SaysCommitted(w.journal)
               && w.journal != [] && !Validate(w.journal).value.phase.AtBaseline?
               && forall i :: |h0| <= i < |h| ==> Written(w, user, op.archive, h[i])
      ensures op.AllSafe(h) && h[|h| - 1].journal == h0[|h0| - 1].journal
      ensures LastSyncFails() ==> !machine.SyncMayFail(h[|h| - 1])
      ensures h[|h| - 1].root == op.before && h[|h| - 1].commit.None?
    {
      var w := h0[|h0| - 1];
      forall i | |h0| <= i < |h|
        ensures op.Safe(h[i]) && h[i].journal == w.journal && h[i].prepare.Some? && h[i].root == w.root && h[i].commit.None?
      {
        StagedIsInTransaction(w, h[i]);
        op.StaysSafe(w, h[i], false);
      }
      if LastSyncFails() {
        NotYet(h[|h| - 1]);
      }
    }

    lemma StagedIsInTransaction(w1: World<Record>, w: World<Record>)
      requires op.Sound() && user == op.UserName()
      requires w1.root == op.before && w1.prepare == Some(map[]) && w1.commit.None?
      requires Written(w1, user, op.archive, w)
      ensures InTransaction(w, false, op.before, op.Staged()) && w.journal == w1.journal
    {
    }

    /** Cross the commit boundary with the archive. */
    method CrossArchive(digest: Digest) returns (s: Status)
      requires Valid() && Pending() && digest == op.rules.sha(op.archive)
      requires machine.Now() == World(op.before, Some(op.Staged()), None, machine.Now().journal)
      modifies machine
      ensures Valid() && !s.Refused? && machine.Now().journal == old(machine.Now().journal)
      ensures s.Done? ==> op.Replaced(machine.Now()) && machine.Durable()
      ensures LastSyncFails() ==> s.IoError? && op.Replaced(machine.Now())
      ensures machine.Explains(s)
    {
      hide Cross, Operation.Safe;
      ghost var h0 := machine.history;
      var expected := map[user := digest];
      assert expected == store.rules.Hashes(op.Staged());
      s := store.CrossCommitBoundary(expected);
      CrossArrives(h0, machine.history, s);
    }

    lemma CrossArrives(h0: seq<World<Record>>, h: seq<World<Record>>, s: Status)
      requires op.Sound() && h0 != [] && op.AllSafe(h0)
      requires var w := h0[|h0| - 1];
               && w == World(op.before, Some(op.Staged()), None, w.journal)
               && !SaysAborted(w.journal) && !SaysCommitted(w.journal)
               && w.journal != [] && !Validate(w.journal).value.phase.AtBaseline?
               && Follows(h0, h, Cross(op.rules, w, op.rules.Hashes(op.Staged())), s)
      ensures op.AllSafe(h) && h != [] && h[|h| - 1].journal == h0[|h0| - 1].journal
      ensures s.Done? ==> op.Replaced(h[|h| - 1])
      ensures !s.Refused?
    {
      var w := h0[|h0| - 1];
      CrossIsSafe(w);
      Arrived(h0, h, Cross(op.rules, w, op.rules.Hashes(op.Staged())), s);
    }

    lemma CrossIsSafe(w: World<Record>)
      requires op.Sound() && op.Safe(w) && w == World(op.before, Some(op.Staged()), None, w.journal)
      requires !SaysAborted(w.journal) && !SaysCommitted(w.journal)
      requires w.journal != [] && !Validate(w.journal).value.phase.AtBaseline?
      ensures var run := Cross(op.rules, w, op.rules.Hashes(op.Staged()));
              && run.ok && op.AllSafe(run.states)
              && (forall i :: 0 <= i < |run.states| ==> run.states[i].journal == w.journal)
              && op.Replaced(Final(w, run))
    {
      hide Cross;
      CrossCompletes(op.rules, w, op.before, op.Staged());
      var run := Cross(op.rules, w, op.rules.Hashes(op.Staged()));
      forall k | 0 < k <= |run.states|
        ensures StateAt(w, run, k).journal == w.journal && InTransaction(StateAt(w, run, k), true, op.before, op.Staged())
      {
        assert CrossedWorld(w, StateAt(w, run, k), op.before, op.Staged());
      }
      op.RunSafe(w, run, true);
      forall i | 0 <= i < |run.states|
        ensures run.states[i].journal == w.journal
      {
        assert run.states[i] == StateAt(w, run, i + 1);
      }
      assert op.before + op.Staged() == op.before[op.UserName() := op.archive];
    }

    /** An operation that follows a safe run leaves a safe history; if it returns it is at the
        end of the run. */
    lemma Arrived(h0: seq<World<Record>>, h: seq<World<Record>>, run: Run<Record>, s: Status)
      requires op.UserName() in op.before && h0 != []
      requires op.AllSafe(h0) && op.AllSafe(run.states) && Follows(h0, h, run, s)
      requires forall i :: 0 <= i < |run.states| ==> run.states[i].journal == h0[|h0| - 1].journal
      ensures op.AllSafe(h) && h != [] && h[|h| - 1].journal == h0[|h0| - 1].journal
      ensures s.Done? ==> h[|h| - 1] == Final(h0[|h0| - 1], run)
    {
    }

    /** Create prepare/, write the archive, cross the boundary: the guarded part of the broker. */
    method CommitArchive(archive: Bytes, stagedHash: Digest) returns (s: Status, stage: Stage)
      requires Valid() && Pending() && op.Untouched(machine.Now())
      requires archive == op.archive && stagedHash == op.rules.sha(archive)
      modifies machine
      ensures Valid() && machine.Now().journal == old(machine.Now().journal)
      ensures s.Done? ==> op.Replaced(machine.Now()) && machine.Durable()
      ensures !s.Refused?
      ensures LastSyncFails() ==> s.IoError? && stage == HostCommit && op.Replaced(machine.Now())
      ensures !stage.Readback? && (stage.HostStage? ==> machine.Now().root == op.before && machine.Now().commit.None?)
      ensures machine.Explains(s)
    {
      stage := HostStage;
      s := BeginArchive();
      if !s.Done? {
        return;
      }
      var observedHash: Digest;
      s, observedHash := StageArchive(archive);
      if !s.Done? {
        return;
      }
      if observedHash != stagedHash {
        s := Refused;
        return;
      }
      stage := HostCommit;
      s := CrossArchive(observedHash);
    }

    /** What the read-back demands: the committed components can be read, the user component is the one of the intent
        and the other ones those of the baseline, and the live inventory agrees. */
    ghost predicate ReadsBack(w: World<Record>, history: History, live: bool) {
      && CommittedReadable(op.rules, w) && user in w.root
      && history.staged == Some(op.rules.sha(w.root[user])) && history.others == OtherDigests(op.rules, user, w.root)
      && live
    }

    /** live is what the last comparison, with the live inventory, finds. */
    method ReadBack(history: History, live: bool) returns (s: Status)
      requires machine.Valid() && store.machine == machine && store.rules == op.rules && user == op.UserName() && history.staged.Some?
      modifies machine`ticks
      ensures s.Done? ==> ReadsBack(machine.Now(), history, live)
      ensures s.Refused? ==> !ReadsBack(machine.Now(), history, live)
      ensures machine.OnlySyncsFail() ==> s.Done? || s.Refused?
    {
      var components: Dir;
      s, components := store.ReadCommittedComponents();
      if !s.Done? {
        return;
      }
      assert OtherDigests(store.rules, user, components) == OtherDigests(op.rules, user, machine.Now().root);
      if store.rules.sha(components[user]) != history.staged.value {
        return Refused;
      }
      if OtherDigests(store.rules, user, components) != history.others {
        return Refused;
      }
      if !live {
        return Refused;
      }
    }

    lemma ReplacedReadsBack(w: World<Record>, history: History, live: bool)
      requires op.Sound() && user == op.UserName() && op.Replaced(w)
      requires history.staged == Some(op.rules.sha(op.archive)) && history.others == OtherDigests(op.rules, user, op.before)
      ensures ReadsBack(w, history, live) <==> live
    {
      assert OtherDigests(op.rules, user, w.root) == OtherDigests(op.rules, user, op.before);
    }

    /** An interrupted operation that a recovery takes up. */
    ghost predicate Interrupted(w: World<Record>) {
      w.journal != [] && Validate(w.journal).Ok? && Validate(w.journal).value.phase in {AtIntent, AtHostCommitted, AtUnknown}
    }

    /** What the journal of an interrupted operation is bound to. */
    lemma Bound(w: World<Record>)
      requires op.Sound() && op.Safe(w) && user == op.UserName() && Interrupted(w)
      ensures var h := Validate(w.journal).value;
              && h.staged == Some(op.rules.sha(op.archive)) && h.beforeUser == op.rules.sha(op.before[user])
              && h.others == OtherDigests(op.rules, user, op.before)
              && (h.phase.AtHostCommitted? ==> op.Replaced(w))
    {
    }

    lemma BaselineSafe(w: World<Record>, components: Dir)
      requires op.Sound() && user == op.UserName() && op.Safe(w) && w.journal == []
      requires components == map n | n in op.rules.Allowed() :: op.before[n]
      ensures var record := Baseline(op.rules.sha(components[user]), OtherDigests(op.rules, user, components));
              && op.Safe(w.(journal := [record])) && w.journal + [record] == [record]
              && record == Baseline(op.rules.sha(op.before[user]), OtherDigests(op.rules, user, op.before))
    {
      assert OtherDigests(op.rules, user, components) == OtherDigests(op.rules, user, op.before);
    }

    ghost function Opening(): seq<Record>
      requires user in op.before
    {
      [Baseline(op.rules.sha(op.before[user]), OtherDigests(op.rules, user, op.before)), Intent(op.rules.sha(op.archive))]
    }

    /** Create the journal: its baseline, then its intent. */
    method OpenJournal(stagedHash: Digest) returns (s: Status)
      requires Valid() && machine.Now().journal == [] && stagedHash == op.rules.sha(op.archive)
      modifies machine
      ensures Valid()
      ensures s.Done? ==> Pending() && op.Untouched(machine.Now()) && Validate(machine.Now().journal).value.phase.AtIntent?
      ensures LastSyncFails() ==> s.Done?
      ensures if s.Done? then machine.Now().journal == Opening() else |machine.Now().journal| <= 2
      ensures machine.Flawless() ==> s.Done?
    {
      JournalEmpty(machine.Now());
      hide Operation.Safe, Operation.Sound, OtherDigests, Validate, CommittedReadable, Machine.OnlySyncsFail, Machine.SyncMayWork;
      if machine.Now().prepare.Some? || machine.Now().commit.Some? {
        return Refused;
      }
      var components: Dir;
      s, components := store.ReadCommittedComponents();
      if !s.Done? {
        return;
      }
      s := CreateJournal(components);
      if !s.Done? {
        return;
      }
      s := JournalIntent(stagedHash);
    }

    method JournalIntent(stagedHash: Digest) returns (s: Status)
      requires Valid() && stagedHash == op.rules.sha(op.archive) && machine.Now().journal == Opening()[..1]
      modifies machine
      ensures Valid() && !s.Refused?
      ensures if s.Done? then machine.Now().journal == Opening() else |machine.Now().journal| <= 2
      ensures s.Done? ==> Pending() && op.Untouched(machine.Now()) && Validate(machine.Now().journal).value.phase.AtIntent?
      ensures LastSyncFails() ==> s.Done?
      ensures machine.Explains(s)
    {
      IntentFollows(machine.Now());
      hide Operation.Safe, OtherDigests, Validate, Machine.OnlySyncsFail;
      s := AppendChecked(Intent(stagedHash));
      if s.Done? {
        assert machine.Now().journal == Opening();
        Opened(machine.Now());
      }
    }

    /** The journal is created with its baseline. */
    method CreateJournal(components: Dir) returns (s: Status)
      requires Valid() && machine.Now().journal == [] && components == map n | n in op.rules.Allowed() :: op.before[n]
      modifies machine
      ensures Valid() && !s.Refused?
      ensures var w := old(machine.Now());
              machine.Now() == w || machine.Now() == w.(journal := Opening()[..1])
      ensures s.Done? ==> machine.Now().journal == Opening()[..1]
      ensures machine.Explains(s)
    {
      BaselineSafe(machine.Now(), components);
      hide Operation.Safe, Operation.Sound, OtherDigests, Validate, Machine.OnlySyncsFail, Machine.SyncMayFail, Machine.SyncMayWork;
      var record := Baseline(store.rules.sha(components[user]), OtherDigests(store.rules, user, components));
      assert Opening()[..1] == [record] == machine.Now().journal + [record];
      s := machine.AppendRecord(record);
    }

    lemma JournalEmpty(w: World<Record>)
      requires op.Sound() && op.Safe(w) && w.journal == []
      ensures op.Untouched(w) && CommittedReadable(op.rules, w) && !op.Replaced(w)
    {
      assert op.before[op.UserName() := op.archive][op.UserName()] != op.before[op.UserName()];
    }

    lemma IntentFollows(w: World<Record>)
      requires op.Sound() && op.Safe(w) && user == op.UserName()
      requires w.journal == [Baseline(op.rules.sha(op.before[user]), OtherDigests(op.rules, user, op.before))]
      ensures Validate(w.journal).Ok? && Next(Validate(w.journal).value, Intent(op.rules.sha(op.archive))).Ok?
      ensures op.Untouched(w) && !op.Replaced(w)
    {
      assert op.before[op.UserName() := op.archive][op.UserName()] != op.before[op.UserName()];
    }

    lemma Opened(w: World<Record>)
      requires op.Sound() && op.Safe(w) && user == op.UserName() && w.journal == Opening()
      ensures Validate(w.journal).Ok? && Validate(w.journal).value.phase.AtIntent?
      ensures !SaysAborted(w.journal) && !SaysCommitted(w.journal)
    {
      ValidateAppended(w.journal[..1], w.journal[1]);
      assert w.journal[..1] + [w.journal[1]] == w.journal;
    }

    /** The exception handlers: journal the ambiguity, ignore a failure to do so, raise again. */
    method NoteUnknown(stage: Stage, possible: bool, s: Status) returns (r: Status)
      requires Valid() && machine.Now().journal != [] && !s.Done?
      requires Validate(machine.Now().journal).value.phase in {AtIntent, AtHostCommitted}
      modifies machine
      ensures Valid() && !r.Done?
      ensures r == s || r.Cut?
      ensures var w, noted := old(machine.Now()), old(machine.Now()).(journal := old(machine.Now()).journal + [OutcomeUnknown(stage, possible)]);
              && (machine.Now() == w || machine.Now() == noted) && (s.Cut? ==> machine.Now() == w)
              && (machine.OnlySyncsFail() && !s.Cut? ==> r == s && machine.Now() == noted)
    {
      if s.Cut? {
        return Cut;
      }
      r := AppendChecked(OutcomeUnknown(stage, possible));
      r := if r.Cut? then Cut else s;
    }

    /** Journal the commit, read it back, journal the proof. */
    method CloseJournal(stagedHash: Digest, live: bool) returns (s: Status)
      requires Valid() && op.Replaced(machine.Now()) && stagedHash == op.rules.sha(op.archive) && (live ==> op.agrees)
      requires machine.Now().journal != [] && Validate(machine.Now().journal).value.phase.AtIntent?
      modifies machine
      ensures Valid()
      ensures s.Done? ==> live && SaysReconciled()
      ensures s.Refused? ==> !live
      ensures var j, committed := old(machine.Now()).journal, HostCommitted(stagedHash, Direct);
              && (s.Done? ==> machine.Now().journal == j + [committed, Reconciled(stagedHash)])
              && (!live ==> machine.Now().journal in {j, j + [committed], j + [committed, OutcomeUnknown(Readback, true)]})
              && (machine.Now().journal == j || j + [committed] <= machine.Now().journal)
              && (machine.Flawless() && !live ==> s.Refused? && machine.Now().journal == j + [committed, OutcomeUnknown(Readback, true)])
      ensures machine.Flawless() && live ==> s.Done?
      ensures machine.Now() == old(machine.Now()).(journal := machine.Now().journal)
    {
      hide Operation.Safe, OtherDigests, Validate, LastSyncFails, Machine.OnlySyncsFail;
      IntentBound(machine.Now());
      ghost var j := machine.Now().journal;
      ValidateAppended(j, HostCommitted(stagedHash, Direct));
      :- AppendChecked(HostCommitted(stagedHash, Direct));
      var history := Validate(machine.Now().journal).value;
      ReplacedReadsBack(machine.Now(), history, live);
      s := ReadBack(history, live);
      if !s.Done? {
        s := NoteUnknown(Readback, true, s);
        assert j + [HostCommitted(stagedHash, Direct)] + [OutcomeUnknown(Readback, true)]
            == j + [HostCommitted(stagedHash, Direct), OutcomeUnknown(Readback, true)];
        return;
      }
      ValidateAppended(machine.Now().journal, Reconciled(stagedHash));
      :- AppendChecked(Reconciled(stagedHash));
      assert j + [HostCommitted(stagedHash, Direct)] + [Reconciled(stagedHash)] == j + [HostCommitted(stagedHash, Direct), Reconciled(stagedHash)];
      return Done;
    }

    lemma IntentBound(w: World<Record>)
      requires op.Sound() && op.Safe(w) && user == op.UserName() && w.journal != [] && Validate(w.journal).value.phase.AtIntent?
      ensures Validate(w.journal).Ok?
      ensures var h := Validate(w.journal).value;
              h.staged == Some(op.rules.sha(op.archive)) && h.others == OtherDigests(op.rules, user, op.before)
    {
    }

    ghost predicate SaysReconciled()
      reads machine
      requires Valid()
    {
      machine.Now().journal != [] && Validate(machine.Now().journal).value.phase.AtReconciled?
    }

    /** The journal's last word is that no commit is possible, and the root is replaced. */
    ghost predicate FalselyFlagged(w: World<Record>) {
      op.Replaced(w) && w.journal != [] && w.journal[|w.journal| - 1] == OutcomeUnknown(HostCommit, false)
    }

    /** The broker. */
    method Reconcile(archive: Bytes, live: bool) returns (s: Status)
      requires Valid() && machine.Now().journal == [] && archive == op.archive && (live ==> op.agrees)
      modifies machine
      ensures Valid()
      ensures s.Done? ==> live && SaysReconciled() && op.Replaced(machine.Now())
      ensures var staged := op.rules.sha(op.archive);
              && (s.Done? ==> machine.Now().journal == Opening() + [HostCommitted(staged, Direct), Reconciled(staged)])
              && (machine.Flawless() && !live ==> (
                    && s.Refused?
                    && machine.Now().journal == Opening() + [HostCommitted(staged, Direct), OutcomeUnknown(Readback, true)]))
      ensures |machine.Now().journal| == 3 && machine.Now().journal[2].OutcomeUnknown? ==> (
              var note := machine.Now().journal[2];
              && note.hostCommitPossible == machine.Now().commit.Some? && !note.stage.Readback?
              && (note.stage.HostStage? ==> machine.Now().root == op.before && machine.Now().commit.None?))
      ensures machine.Flawless() && live ==> s.Done?
      ensures LastSyncFails() ==> s.IoError? && FalselyFlagged(machine.Now())
    {
      hide Operation.Safe, OtherDigests, Validate, Machine.OnlySyncsFail;
      var stagedHash := store.rules.sha(archive);
      :- OpenJournal(stagedHash);
      var stage: Stage;
      s, stage := CommitArchive(archive, stagedHash);
      if !s.Done? {
        s := NoteUnknown(stage, machine.Now().commit.Some?, s);
        return;
      }
      :- CloseJournal(stagedHash, live);
      return Done;
    }

    lemma StayingArrives(h0: seq<World<Record>>, h: seq<World<Record>>, run: Run<Record>, s: Status, crossed: bool)
      requires op.Sound() && h0 != [] && op.AllSafe(h0)
      requires var w := h0[|h0| - 1];
               && !SaysAborted(w.journal) && !SaysCommitted(w.journal)
               && w.journal != [] && !Validate(w.journal).value.phase.AtBaseline?
               && StaysIn(w, run, crossed, op.before, op.Staged())
               && Final(w, run) == Outcome(w, crossed, op.before, op.Staged())
      requires Follows(h0, h, run, s)
      ensures op.AllSafe(h) && h != [] && h[|h| - 1].journal == h0[|h0| - 1].journal
      ensures s.Done? ==> if crossed then op.Replaced(h[|h| - 1]) else op.Untouched(h[|h| - 1])
    {
      var w := h0[|h0| - 1];
      forall k | 0 < k <= |run.states|
        ensures StateAt(w, run, k).journal == w.journal && InTransaction(StateAt(w, run, k), crossed, op.before, op.Staged())
      {
        assert StepIn(w, StateAt(w, run, k - 1), StateAt(w, run, k), crossed, op.before, op.Staged());
      }
      op.RunSafe(w, run, crossed);
      forall i | 0 <= i < |run.states|
        ensures run.states[i].journal == w.journal
      {
        assert run.states[i] == StateAt(w, run, i + 1);
      }
      assert op.before + op.Staged() == op.before[op.UserName() := op.archive];
      Arrived(h0, h, run, s);
    }

    lemma DiscardArrives(h0: seq<World<Record>>, h: seq<World<Record>>, expected: map<Name, Digest>, s: Status)
      requires op.Sound() && h0 != [] && op.AllSafe(h0) && expected == op.rules.Hashes(op.Staged())
      requires var w := h0[|h0| - 1];
               && !SaysAborted(w.journal) && !SaysCommitted(w.journal)
               && w.journal != [] && !Validate(w.journal).value.phase.AtBaseline?
               && w.prepare.Some?
               && Follows(h0, h, Discard(op.rules, w, expected.Keys, expected), s)
      ensures op.AllSafe(h) && h != [] && h[|h| - 1].journal == h0[|h0| - 1].journal
      ensures s.Done? ==> op.Untouched(h[|h| - 1])
      ensures s.Refused? ==> !Undamaged(op.rules, h0[|h0| - 1].prepare, op.rules.Hashes(op.Staged()))
    {
      hide Discard, Undamaged;
      var w := h0[|h0| - 1];
      assert expected.Keys == op.Staged().Keys;
      var run := Discard(op.rules, w, expected.Keys, expected);
      DiscardCompletes(op.rules, w, op.before, op.Staged(), expected);
      if run.ok {
        StayingArrives(h0, h, run, s, false);
      }
    }

    lemma RecoverArrives(h0: seq<World<Record>>, h: seq<World<Record>>, expected: map<Name, Digest>, s: Status)
      requires op.Sound() && h0 != [] && op.AllSafe(h0) && expected == op.rules.Hashes(op.Staged())
      requires var w := h0[|h0| - 1];
               && !SaysAborted(w.journal) && !SaysCommitted(w.journal)
               && w.journal != [] && !Validate(w.journal).value.phase.AtBaseline?
               && w.commit.Some?
               && Follows(h0, h, Recover(op.rules, w, expected), s)
      ensures op.AllSafe(h) && h != [] && h[|h| - 1].journal == h0[|h0| - 1].journal
      ensures s.Done? ==> op.Replaced(h[|h| - 1])
      ensures !s.Refused? && RecoverAction(h0[|h0| - 1]) == CommitRolledForward
    {
      hide Recover;
      var w := h0[|h0| - 1];
      RecoverOutcome(op.rules, w, true, op.before, op.Staged());
      StayingArrives(h0, h, Recover(op.rules, w, expected), s, true);
    }

    /** Discard an interrupted prepare/. It refuses only when a prepared file is torn. */
    method DiscardLocal(expected: map<Name, Digest>) returns (s: Status)
      requires Valid() && Pending() && expected == op.rules.Hashes(op.Staged())
      requires machine.Now().prepare.Some?
      modifies machine
      ensures Valid() && machine.Now().journal == old(machine.Now().journal)
      ensures s.Done? ==> op.Untouched(machine.Now())
      ensures s.Refused? ==> !Undamaged(op.rules, old(machine.Now()).prepare, op.rules.Hashes(op.Staged()))
      ensures machine.Explains(s)
    {
      hide Discard, Undamaged, Operation.Safe, Operation.Sound;
      ghost var h0 := machine.history;
      s := store.DiscardPrepare(expected.Keys, expected);
      DiscardArrives(h0, machine.history, expected, s);
    }

    /** Roll an interrupted commit/ forward. It never refuses. */
    method RollLocal(expected: map<Name, Digest>) returns (s: Status)
      requires Valid() && Pending() && expected == op.rules.Hashes(op.Staged())
      requires machine.Now().commit.Some?
      modifies machine
      ensures Valid() && !s.Refused? && machine.Now().journal == old(machine.Now().journal)
      ensures s.Done? ==> op.Replaced(machine.Now())
      ensures machine.Explains(s)
    {
      hide Recover, Operation.Safe, Operation.Sound;
      ghost var h0 := machine.history;
      var action: Action;
      s, action := store.Recover(expected);
      RecoverArrives(h0, machine.history, expected, s);
      if s.Done? && action != CommitRolledForward {
        s := Refused;
      }
    }

    method Abort(reason: Reason) returns (s: Status)
      requires Valid() && op.Untouched(machine.Now())
      requires Interrupted(machine.Now()) && !Validate(machine.Now().journal).value.phase.AtHostCommitted?
      modifies machine
      ensures Valid() && !s.Refused?
      ensures s.Done? ==> SaysAborted(machine.Now().journal) && machine.Now().journal == old(machine.Now()).journal + [Aborted(reason)]
      ensures machine.Explains(s)
    {
      s := AppendChecked(Aborted(reason));
      if s.Done? {
        assert machine.Now().journal[|machine.Now().journal| - 1].Aborted?;
      }
    }

    /** The root holds the staged component: journal the commit unless that is done, read back
        and journal the proof. */
    method ProveForward(history: History, action: CommitAction, live: bool) returns (s: Status)
      requires Valid() && op.Replaced(machine.Now()) && (live ==> op.agrees)
      requires Interrupted(machine.Now()) && Ok(history) == Validate(machine.Now().journal)
      modifies machine
      ensures Valid()
      ensures s.Done? ==> live && SaysReconciled()
      ensures s.Refused? ==> !live
      ensures var j, first := old(machine.Now()).journal, Commitment(old(machine.Now()), action);
              && (s.Done? ==> machine.Now().journal == j + first + [Reconciled(op.rules.sha(op.archive))])
              && (!live ==> machine.Now().journal in {j, j + first})
      ensures machine.Now() == old(machine.Now()).(journal := machine.Now().journal)
      ensures machine.Flawless() ==> s.Done? || s.Refused?
    {
      hide Operation.Safe, OtherDigests, Validate, LastSyncFails, Machine.OnlySyncsFail;
      Bound(machine.Now());
      ghost var j := machine.Now().journal;
      var staged := history.staged.value;
      if !history.phase.AtHostCommitted? {
        ValidateAppended(machine.Now().journal, HostCommitted(staged, action));
        :- AppendChecked(HostCommitted(staged, action));
      }
      assert machine.Now().journal == j + Commitment(old(machine.Now()), action);
      ReplacedReadsBack(machine.Now(), history, live);
      :- ReadBack(history, live);
      ValidateAppended(machine.Now().journal, Reconciled(staged));
      :- AppendChecked(Reconciled(staged));
      return Done;
    }

    /** The commit is journaled unless that is done. */
    ghost function Commitment(w: World<Record>, action: CommitAction): seq<Record>
      requires Interrupted(w)
    {
      if Validate(w.journal).value.phase.AtHostCommitted? then [] else [HostCommitted(op.rules.sha(op.archive), action)]
    }

    /** What a recovery journals: abortion of what never crossed the boundary, proof of what did. */
    ghost function Verdict(w: World<Record>): seq<Record>
      requires Interrupted(w)
    {
      if w.prepare.Some? then [Aborted(DiscardedPrepare)]
      else if !op.Crossed(w) then [Aborted(BeforeHostStage)]
      else Commitment(w, if w.commit.Some? then RolledForward else Direct) + [Reconciled(op.rules.sha(op.archive))]
    }

    /** Decide by the digest of the user component that is now in the root. */
    method Conclude(history: History, action: CommitAction, live: bool) returns (s: Status)
      requires Valid() && (op.Replaced(machine.Now()) || op.Untouched(machine.Now())) && (live ==> op.agrees)
      requires Interrupted(machine.Now()) && Ok(history) == Validate(machine.Now().journal)
      modifies machine
      ensures Valid()
      ensures s.Done? ==> if op.Replaced(old(machine.Now())) then live && SaysReconciled() else SaysAborted(machine.Now().journal)
      ensures s.Refused? ==> !live && op.Replaced(old(machine.Now()))
      ensures s.Done? ==> machine.Now().journal == old(machine.Now()).journal + (if op.Replaced(old(machine.Now())) then Commitment(old(machine.Now()), action) + [Reconciled(op.rules.sha(op.archive))] else [Aborted(BeforeHostStage)])
      ensures machine.Flawless() ==> s.Done? || s.Refused?
    {
      hide Operation.Safe, OtherDigests, Validate, Machine.OnlySyncsFail;
      SettledIsReadable(machine.Now());
      Bound(machine.Now());
      Distinct();
      var components: Dir;
      s, components := store.ReadCommittedComponents();
      if !s.Done? {
        return;
      }
      var current := store.rules.sha(components[user]);
      if current == history.beforeUser {
        if history.phase.AtHostCommitted? {
          return Refused;
        }
        s := Abort(BeforeHostStage);
        return;
      }
      if current != history.staged.value {
        return Refused;
      }
      s := ProveForward(history, action, live);
    }

    lemma Distinct()
      requires op.Sound() && user == op.UserName()
      ensures op.before[user := op.archive] != op.before
      ensures op.rules.sha(op.before[user]) != op.rules.sha(op.archive)
    {
      assert op.before[user := op.archive][user] == op.archive;
    }

    lemma SettledIsReadable(w: World<Record>)
      requires op.Sound() && (op.Replaced(w) || op.Untouched(w))
      ensures CommittedReadable(op.rules, w)
    {
    }

    /** The recovery of one interrupted operation, forward or back. It can only be refused for
        a torn prepared file or by the live inventory. */
    method RecoverOperation(live: bool) returns (s: Status)
      requires Valid() && Interrupted(machine.Now()) && (live ==> op.agrees)
      modifies machine
      ensures Valid()
      ensures s.Done? ==> SaysReconciled() || SaysAborted(machine.Now().journal)
      ensures s.Refused? ==> !live || !Undamaged(op.rules, old(machine.Now()).prepare, op.rules.Hashes(op.Staged()))
      ensures s.Done? ==> machine.Now().journal == old(machine.Now()).journal + Verdict(old(machine.Now()))
      ensures s.Done? && op.Crossed(old(machine.Now())) ==> live
      ensures s.Refused? && op.Crossed(old(machine.Now())) ==> !live
      ensures machine.Flawless() ==> s.Done? || s.Refused?
    {
      hide Undamaged, Machine.OnlySyncsFail;
      Sides(machine.Now());
      var w := machine.Now();
      var history := Validate(w.journal).value;
      var expected := map[user := history.staged.value];
      assert expected == op.rules.Hashes(op.Staged());
      hide Operation.Safe, Validate;
      if w.prepare.Some? && w.commit.Some? {
        return Refused;
      }
      if w.prepare.Some? && history.phase.AtHostCommitted? {
        return Refused;
      }
      if w.prepare.Some? {
        s := DiscardLocal(expected);
        if s.Done? {
          s := Abort(DiscardedPrepare);
        }
        return;
      }
      var action := Direct;
      if w.commit.Some? {
        :- RollLocal(expected);
        action := RolledForward;
      }
      s := Conclude(history, action, live);
    }

    /** Where an interrupted operation stands. */
    lemma Sides(w: World<Record>)
      requires op.Sound() && op.Safe(w) && user == op.UserName() && Interrupted(w)
      ensures w.prepare.Some? ==> !op.Crossed(w) && w.commit.None? && !Validate(w.journal).value.phase.AtHostCommitted?
      ensures w.NoTransaction() ==> op.Untouched(w) || op.Replaced(w)
      ensures w.NoTransaction() ==> (op.Crossed(w) <==> op.Replaced(w))
      ensures Validate(w.journal).value.phase.AtHostCommitted? ==> op.Replaced(w)
      ensures Validate(w.journal).value.staged == Some(op.rules.sha(op.archive))
      ensures !w.NoTransaction() ==> !SaysAborted(w.journal) && !SaysCommitted(w.journal)
    {
      Distinct();
      assert op.before + op.Staged() == op.before[user := op.archive];
    }

    /** The whole life of one operation: the broker runs once; then, in any order and any number
        of times, the power fails and the recovery runs, each with its own crashes and errors.
        The journal is truthful in every world passed through; and if no read-back finds the live inventory in
        agreement, no proof is ever journaled. */
    method Lifetime(archive: Bytes, agrees: bool)
      requires agrees == op.agrees
      requires Valid() && machine.Now().journal == [] && archive == op.archive
      modifies machine
      ensures Valid()
      ensures forall i :: 0 <= i < |machine.history| ==> op.Truthful(machine.history[i])
      ensures !agrees ==> forall i :: 0 <= i < |machine.history| ==> !SaysProved(machine.history[i].journal)
    {
      var live: bool := *;
      var s := Reconcile(archive, live && agrees);
      var events: nat :| true;
      for i := 0 to events
        invariant Valid()
      {
        if {
          case true =>
            machine.PowerCut();
          case |machine.Now().journal| > 0 && Validate(machine.Now().journal).Ok?
               && Validate(machine.Now().journal).value.phase in {AtIntent, AtHostCommitted, AtUnknown} =>
            live := *;
            s := RecoverOperation(live && agrees);
        }
      }
    }
  }

  /** A machine with that environment. */
  method FailingMachine(before: Dir, replaced: Dir) returns (machine: Machine<Record>)
    ensures fresh(machine) && machine.Durable() && machine.history == [World(before, None, None, [])] && machine.OnlySyncsFail()
    ensures forall i, w :: machine.fate(i, Syncing, w).Works? <==> !(w.root == replaced && w.NoTransaction())
  {
    machine := new Machine<Record>(World(before, None, None, []),
      (i: nat, deed: Deed, w: World<Record>) =>
        if deed.Syncing? && w.root == replaced && w.NoTransaction() then Fails(false, false) else Works,
      (i: nat) => 1);
  }

  /** For every operation a run of the broker journals the false flag: the one in which only the synchronisation
      after the removal of commit/ fails. */
  method FalseFlag(rules: Rules, before: Dir, archive: Bytes, live: bool) returns (broker: Broker, s: Status)
    requires Operation(rules, before, archive, live).Sound()
    ensures broker.Valid() && broker.op == Operation(rules, before, archive, live)
    ensures s.IoError? && broker.FalselyFlagged(broker.machine.Now())
  {
    hide Operation.Safe, Operation.Sound, Machine.OnlySyncsFail, Broker.FalselyFlagged;
    var machine := FailingMachine(before, before[User(rules.uid) := archive]);
    broker := new Broker(rules, before, archive, live, machine);
    assert broker.LastSyncFails();
    s := broker.Reconcile(archive, live);
  }
}
