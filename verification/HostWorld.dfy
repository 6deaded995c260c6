/** The durable host state: the three directories of the component store and one append-only
    mutation journal, together with the machine that changes them one step at a time. */
module HostWorld {
  import opened Outcomes

  /** A directory entry. Foreign stands for every name that the transaction-entry pattern rejects. */
  datatype Name = BioLockout | Master | User(uid: nat) | Foreign(text: string)

  type Dir = map<Name, Bytes>

  datatype World<J> = World(root: Dir, prepare: Option<Dir>, commit: Option<Dir>, journal: seq<J>)
  {
    predicate NoTransaction() {
      prepare.None? && commit.None?
    }
  }

  /** What an fsync is for. */
  datatype Place = RootDirectory | PrepareDirectory | CommitDirectory | PreparedFile(n: Name) | JournalFile

  /** prepare/ takes the place of commit/. */
  ghost predicate Renames<J>(w: World<J>, next: World<J>) {
    w.prepare.Some? && next.prepare.None? && next.commit == w.prepare
  }

  /** The places that a step writes to: the entries of a directory are its own, the two transaction directories are
      entries of the root. */
  ghost function Touched<J>(w: World<J>, next: World<J>): set<Place> {
    (if w.root != next.root || w.prepare.Some? != next.prepare.Some? || w.commit.Some? != next.commit.Some?
     then {RootDirectory} else {})
    + (if w.prepare.Some? && next.prepare.Some? then TouchedIn(w.prepare.value, next.prepare.value) else {})
    + (if w.commit.Some? && next.commit.Some? && w.commit != next.commit && !Renames(w, next) then {CommitDirectory} else {})
    + (if w.journal != next.journal then {JournalFile} else {})
  }

  ghost function TouchedIn(prepare: Dir, next: Dir): set<Place> {
    (if prepare.Keys != next.Keys then {PrepareDirectory} else {})
    + (set n | n in next && (n !in prepare || prepare[n] != next[n]) :: PreparedFile(n))
  }

  datatype Deed = Stepping | Syncing | Reading

  /** What befalls one deed. A deed that fails may have taken effect; after a cut no handler runs. */
  datatype Fate = Works | Fails(effective: bool, cut: bool) {
    predicate TakesEffect() {
      Works? || effective
    }

    function Ending(): (s: Status) {
      if Works? then Done else if cut then Cut else IoError
    }
  }

  /** A machine remembers every world it has been in. A step appends the next world. A sync
      makes the present world durable; a power cut may fall back to any world that was
      issued at or after the last sync, that is, it keeps a prefix of the issued steps. What was
      written to and not synchronised since is remembered as well. The
      environment decides on every single deed, by its number, and on the progress of every write. */
  class Machine<J(!new)> {
    const fate: (nat, Deed, World<J>) -> Fate
    const progress: nat -> nat
    var history: seq<World<J>>
    var synced: nat
    ghost var unsynced: set<Place>
    var ticks: nat

    ghost predicate Valid()
      reads this
    {
      synced < |history|
    }

    function Now(): World<J>
      requires |history| > 0
      reads this
    {
      history[|history| - 1]
    }

    ghost predicate Durable()
      reads this
    {
      Valid() && synced == |history| - 1
    }

    constructor (w: World<J>, fate: (nat, Deed, World<J>) -> Fate, progress: nat -> nat)
      ensures Durable() && history == [w] && this.fate == fate && this.progress == progress
    {
      history, synced, unsynced, ticks := [w], 0, {}, 0;
      this.fate, this.progress := fate, progress;
    }

    /** An environment in which nothing goes wrong but synchronisations, and those without effect. */
    ghost predicate OnlySyncsFail() {
      && (forall i, w :: fate(i, Stepping, w).Works?)
      && (forall i, w :: fate(i, Reading, w).Works?)
      && (forall i, w :: fate(i, Syncing, w) != Works ==> fate(i, Syncing, w) == Fails(false, false))
      && (forall i :: progress(i) > 0)
    }

    /** An environment in which nothing goes wrong. */
    ghost predicate Flawless() {
      OnlySyncsFail() && forall w :: !SyncMayFail(w)
    }

    ghost predicate SyncMayWork(w: World<J>) {
      exists i :: fate(i, Syncing, w).Works?
    }

    ghost predicate SyncMayFail(w: World<J>) {
      exists i :: fate(i, Syncing, w).Fails?
    }

    /** In such an environment an operation can only fail by a synchronisation of the world that it leaves. */
    ghost predicate Explains(s: Status)
      requires |history| > 0
      reads this
    {
      OnlySyncsFail() ==> !s.Cut? && (s.IoError? ==> SyncMayFail(Now()))
    }

    /** One atomic file-system step. It may be cut off or fail before or after taking effect. */
    method Issue(next: World<J>) returns (s: Status)
      requires Valid()
      modifies this
      ensures Valid() && synced == old(synced) && !s.Refused?
      ensures history == old(history) || history == old(history) + [next]
      ensures s.Done? ==> history == old(history) + [next]
      ensures unsynced == if history == old(history) then old(unsynced) else old(unsynced) + Touched(old(Now()), next)
      ensures OnlySyncsFail() ==> s.Done?
    {
      var fate := fate(ticks, Stepping, Now());
      ticks := ticks + 1;
      if fate.TakesEffect() {
        unsynced := unsynced + Touched(Now(), next);
        history := history + [next];
      }
      s := fate.Ending();
    }

    /** fsync of one place: on success nothing issued so far can be lost. */
    method Sync(place: Place) returns (s: Status)
      requires Valid()
      modifies this
      ensures Valid() && history == old(history) && synced >= old(synced) && !s.Refused?
      ensures s.Done? ==> Durable() && SyncMayWork(Now())
      ensures unsynced <= old(unsynced) && (s.Done? ==> unsynced == old(unsynced) - {place})
      ensures Explains(s)
    {
      var fate := fate(ticks, Syncing, Now());
      ticks := ticks + 1;
      if fate.TakesEffect() {
        synced := |history| - 1;
        unsynced := unsynced - {place};
      }
      s := fate.Ending();
    }

    /** The next reading access works. */
    ghost predicate ReadWorks()
      requires |history| > 0
      reads this
    {
      fate(ticks, Reading, Now()).Works?
    }

    /** One reading access. */
    method Read() returns (s: Status)
      requires Valid()
      modifies `ticks
      ensures !s.Refused? && (s.Done? <==> old(ReadWorks())) && (OnlySyncsFail() ==> s.Done?)
    {
      s := fate(ticks, Reading, Now()).Ending();
      ticks := ticks + 1;
    }

    /** How many of these bytes the next write takes. */
    method Write(size: nat) returns (count: nat)
      modifies `ticks
      ensures count <= size && (OnlySyncsFail() && size > 0 ==> count > 0)
    {
      count := if progress(ticks) <= size then progress(ticks) else size;
      ticks := ticks + 1;
    }

    /** The journal writes one record and syncs it before it returns. */
    method AppendRecord(record: J) returns (s: Status)
      requires Valid()
      modifies this
      ensures Valid() && synced >= old(synced) && !s.Refused?
      ensures var next := old(Now()).(journal := old(Now()).journal + [record]);
              && (history == old(history) || history == old(history) + [next])
              && (s.Done? || OnlySyncsFail() ==> history == old(history) + [next])
              && (s.Done? ==> Durable() && unsynced <= old(unsynced))
      ensures Explains(s)
    {
      s := Issue(Now().(journal := Now().journal + [record]));
      if s.Done? {
        s := Sync(JournalFile);
      }
    }

    /** Power failure and reboot: the state becomes some world issued at or after the last sync. */
    method PowerCut()
      requires Valid()
      modifies this
      ensures Durable()
      ensures unsynced == {}
      ensures exists k :: old(synced) <= k < old(|history|) && history == old(history) + [old(history)[k]]
    {
      var k :| synced <= k < |history|;
      history := history + [history[k]];
      synced, unsynced := |history| - 1, {};
    }
  }
}
