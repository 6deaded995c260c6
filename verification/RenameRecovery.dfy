/** The transaction part of the recovery of an interrupted rename. Its direction is journaled once,
    before anything is touched. Whatever crashes and reruns follow, the recovery never finds
    a local transaction that contradicts the journal. */
module RenameRecovery {
  import opened Outcomes
  import opened HostWorld
  import opened CatacombStore
  import opened StoreOperations

  /** The one record that a recovery adds before it acts. */
  datatype Record = RecoveryIntent(action: Action)

  /** The recovery action of a history: write-once, so the first record decides. */
  function JournaledAction(journal: seq<Record>): Option<Action> {
    if journal == [] then None else Some(journal[0].action)
  }

  datatype Verdict =
    | Settled
    | BothDirections        // both local transaction directions are present
    | IncompleteBoundary    // commit recovery lacks a complete journaled commit boundary
    | DirectionDiffers      // local transaction direction differs from its recovery journal
    | UnexpectedTransaction // journal expects no local transaction but one is present
    | StoreRefused          // the store refused to discard or to roll forward
    | Interrupted           // an error of the operating system, a signal or a crash

  /** What the interrupted rename left behind: its old root, its staged components, the digests
      it got to journal, and whether it journaled the intent to cross the boundary. */
  datatype Rename = Rename(rules: Rules, before: Dir, staged: Dir, hashes: map<Name, Digest>, boundaryJournaled: bool)
  {
    /** Journaled digests are those of the staged components, and the rename changes something. */
    ghost predicate Sound() {
      && Transaction(rules, before, staged)
      && (forall n :: n in hashes ==> n in staged && hashes[n] == rules.sha(staged[n]))
      && before + staged != before
    }

    ghost predicate Crossed(w: World<Record>) {
      w.commit.Some? || w.root != before
    }

    ghost function Root(w: World<Record>): Dir {
      if Crossed(w) then before + staged else before
    }

    /** A world that the rename or its recovery may leave. The boundary is crossed only after
        all digests and the intent to cross were journaled, and the journaled direction is
        the one that the transaction took. */
    ghost predicate Agrees(w: World<Record>) {
      && InTransaction(w, Crossed(w), before, staged)
      && (Crossed(w) ==> boundaryJournaled && hashes == rules.Hashes(staged))
      && match JournaledAction(w.journal)
         case None => true
         case Some(PrepareDiscarded) => !Crossed(w)
         case Some(CommitRolledForward) => Crossed(w)
         case Some(Clean) => w.NoTransaction()
    }

    ghost predicate AllAgree(history: seq<World<Record>>) {
      forall i :: 0 <= i < |history| ==> Agrees(history[i])
    }

    lemma StayingAgrees(h0: seq<World<Record>>, h: seq<World<Record>>, run: Run<Record>, s: Status)
      requires Sound() && h0 != [] && AllAgree(h0)
      requires var w := h0[|h0| - 1];
               && JournaledAction(w.journal) != Some(Clean)
               && StaysIn(w, run, Crossed(w), before, staged)
               && Final(w, run) == Outcome(w, Crossed(w), before, staged)
      requires Follows(h0, h, run, s)
      ensures AllAgree(h) && h != [] && h[|h| - 1].journal == h0[|h0| - 1].journal
      ensures s.Done? ==> h[|h| - 1].NoTransaction() && h[|h| - 1].root == Root(h0[|h0| - 1])
    {
      var w := h0[|h0| - 1];
      forall i | |h0| <= i < |h|
        ensures Agrees(h[i]) && h[i].journal == w.journal
      {
        var k := i - |h0| + 1;
        assert h[i] == (h0 + run.states)[i] == StateAt(w, run, k);
        assert StepIn(w, StateAt(w, run, k - 1), StateAt(w, run, k), Crossed(w), before, staged);
        assert Crossed(h[i]) == Crossed(w);
      }
    }
  }

  class Recovery {
    const machine: Machine<Record>
    const store: Store<Record>
    const rename: Rename

    ghost predicate Valid()
      reads machine
    {
      && store.machine == machine
      && store.rules == rename.rules
      && rename.Sound()
      && machine.Valid()
      && rename.AllAgree(machine.history)
    }

    constructor (rename: Rename, machine: Machine<Record>)
      requires rename.Sound() && machine.Valid() && rename.AllAgree(machine.history)
      ensures this.machine == machine && this.rename == rename && Valid()
    {
      this.machine, this.rename := machine, rename;
      store := new Store(rename.rules, machine);
    }

    method Discard() returns (s: Status)
      requires Valid() && machine.Now().prepare.Some? && machine.Now().journal != []
      modifies machine
      ensures Valid() && machine.Now().journal == old(machine.Now().journal)
      ensures s.Done? ==> machine.Now().NoTransaction() && machine.Now().root == rename.before
      ensures s.Refused? ==> !Undamaged(rename.rules, old(machine.Now()).prepare, rename.hashes)
      ensures machine.Explains(s)
    {
      hide CatacombStore.Discard, Undamaged;
      ghost var h0, w := machine.history, machine.Now();
      ghost var run := CatacombStore.Discard(rename.rules, w, rename.staged.Keys, rename.hashes);
      s := store.DiscardPrepare(rename.staged.Keys, rename.hashes);
      DiscardCompletes(rename.rules, w, rename.before, rename.staged, rename.hashes);
      if run.ok {
        rename.StayingAgrees(h0, machine.history, run, s);
      }
    }

    method RollForward() returns (s: Status)
      requires Valid() && machine.Now().commit.Some? && machine.Now().journal != []
      modifies machine
      ensures Valid() && !s.Refused? && machine.Now().journal == old(machine.Now().journal)
      ensures s.Done? ==> machine.Now().NoTransaction() && machine.Now().root == rename.before + rename.staged
      ensures machine.Explains(s)
    {
      hide CatacombStore.Recover, Rename.Agrees;
      ghost var h0 := machine.history;
      var action: Action;
      s, action := store.Recover(rename.hashes);
      RollArrives(h0, machine.history, s);
      if s.Done? && action != CommitRolledForward {
        s := Refused;
      }
    }

    lemma RollArrives(h0: seq<World<Record>>, h: seq<World<Record>>, s: Status)
      requires rename.Sound() && h0 != [] && rename.AllAgree(h0)
      requires var w := h0[|h0| - 1];
               && w.journal != [] && w.commit.Some?
               && Follows(h0, h, CatacombStore.Recover(rename.rules, w, rename.hashes), s)
      ensures rename.AllAgree(h) && h != [] && h[|h| - 1].journal == h0[|h0| - 1].journal
      ensures !s.Refused? && RecoverAction(h0[|h0| - 1]) == CommitRolledForward
      ensures s.Done? ==> h[|h| - 1].NoTransaction() && h[|h| - 1].root == rename.before + rename.staged
    {
      hide CatacombStore.Recover;
      var w := h0[|h0| - 1];
      assert rename.Agrees(w);
      RecoverOutcome(rename.rules, w, true, rename.before, rename.staged);
      rename.StayingAgrees(h0, h, CatacombStore.Recover(rename.rules, w, rename.hashes), s);
    }

    /** One attempt. Apart from the store's refusal of a torn prepared file and from outside
        errors it settles: no transaction is left, and the root is the old or the new one. */
    method RecoverTransaction() returns (verdict: Verdict)
      requires Valid()
      modifies machine
      ensures Valid()
      ensures verdict in {Settled, StoreRefused, Interrupted}
      ensures verdict.Settled? ==> machine.Now().NoTransaction() && machine.Now().root == rename.Root(old(machine.Now()))
      ensures verdict.Settled? ==> machine.Now().journal != []
      ensures if old(machine.Now()).journal != [] then machine.Now().journal == old(machine.Now()).journal
        else machine.Now().journal in {[], [RecoveryIntent(RecoverAction(old(machine.Now())))]}
      ensures machine.Flawless() ==> verdict.Settled? || verdict.StoreRefused?
      ensures verdict.StoreRefused? ==> !Undamaged(rename.rules, old(machine.Now()).prepare, rename.hashes)
    {
      hide Undamaged, Machine.OnlySyncsFail;
      var preparePending, commitPending := machine.Now().prepare.Some?, machine.Now().commit.Some?;
      if preparePending && commitPending {
        return BothDirections;
      }
      var observed := RecoverAction(machine.Now());
      if commitPending && !(rename.hashes.Keys == rename.staged.Keys && rename.boundaryJournaled) {
        return IncompleteBoundary;
      }
      var journaled := JournaledAction(machine.Now().journal);
      var action := observed;
      if journaled.None? {
        assert machine.Now().journal == [] ==> machine.Now().journal + [RecoveryIntent(observed)] == [RecoveryIntent(observed)];
        var s := machine.AppendRecord(RecoveryIntent(observed));
        if !s.Done? {
          return Interrupted;
        }
      } else {
        action := journaled.value;
        if observed != action && observed != Clean {
          return DirectionDiffers;
        }
      }
      if action == PrepareDiscarded && preparePending {
        var s := Discard();
        if !s.Done? {
          return if s.Refused? then StoreRefused else Interrupted;
        }
      } else if action == CommitRolledForward && commitPending {
        var s := RollForward();
        if !s.Done? {
          return if s.Refused? then StoreRefused else Interrupted;
        }
      } else if action == Clean && (preparePending || commitPending) {
        return UnexpectedTransaction;
      }
      return Settled;
    }

    /** Any number of attempts, with power cuts in between. */
    method Lifetime()
      requires Valid()
      modifies machine
      ensures Valid()
    {
      var events: nat :| true;
      for i := 0 to events
        invariant Valid()
      {
        if {
          case true => machine.PowerCut();
          case true =>
            var verdict := RecoverTransaction();
            assert verdict in {Settled, StoreRefused, Interrupted};
        }
      }
    }
  }
}
