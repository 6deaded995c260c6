/** The store's operations, one file-system step at a time. Each may be cut off or fail between
    any two steps; whatever happens, the worlds it went through are a prefix of the run that
    CatacombStore assigns to it. */
module StoreOperations {
  import opened Outcomes
  import opened HostWorld
  import opened CatacombStore

  /** The history grew along the run; completely if the operation returned. */
  ghost predicate Follows<J>(h0: seq<World<J>>, h: seq<World<J>>, run: Run<J>, s: Status) {
    && h0 <= h <= h0 + run.states
    && (s.Done? ==> run.ok && h == h0 + run.states)
    && (s.Refused? ==> !run.ok && h == h0 + run.states)
  }

  /** Having come from h0 to h, what is left of the run is rest. */
  ghost predicate Left<J>(h0: seq<World<J>>, run: Run<J>, h: seq<World<J>>, rest: Run<J>) {
    h0 <= h && h0 + run.states == h + rest.states && run.ok == rest.ok
  }

  lemma LeftAfter<J>(h0: seq<World<J>>, run: Run<J>, h: seq<World<J>>, first: Run<J>, rest: Run<J>)
    requires Left(h0, run, h, Then(first, rest))
    ensures Left(h0, run, h + first.states, rest)
  {
  }

  lemma FollowsAll<J>(h0: seq<World<J>>, run: Run<J>, h: seq<World<J>>, rest: Run<J>, h': seq<World<J>>, s: Status)
    requires Left(h0, run, h, rest) && Follows(h, h', rest, s)
    ensures Follows(h0, h', run, s)
  {
  }

  /** An unfinished first part is an unfinished whole. */
  lemma FollowsFirst<J>(h: seq<World<J>>, h': seq<World<J>>, first: Run<J>, rest: Run<J>, s: Status)
    requires Follows(h, h', first, s) && !s.Done?
    ensures Follows(h, h', if first.ok then Then(first, rest) else first, s)
  {
  }

  lemma NoStep<J>(h: seq<World<J>>, run: Run<J>, s: Status)
    requires !s.Done? && (s.Refused? ==> run == Run([], false))
    ensures Follows(h, h, run, s)
  {
  }

  lemma FirstFollowed<J>(h: seq<World<J>>, h': seq<World<J>>, first: Run<J>)
    requires Follows(h, h', first, Done)
    ensures h' == h + first.states && |h'| == |h| + |first.states|
  {
  }

  lemma ThenFollowed<J>(h: seq<World<J>>, first: Run<J>, rest: Run<J>, h': seq<World<J>>, s: Status)
    requires Follows(h + first.states, h', rest, s)
    ensures Follows(h, h', Then(first, rest), s)
  {
    assert h + (first.states + rest.states) == (h + first.states) + rest.states;
  }

  predicate BeginAccepted<J>(r: Rules, w: World<J>, names: set<Name>) {
    names != {} && names <= r.Allowed() && w.NoTransaction()
  }

  function Begin<J>(r: Rules, w: World<J>, names: set<Name>): Run<J> {
    if BeginAccepted(r, w, names) then Run([w.(prepare := Some(map[]))], true) else Run([], false)
  }

  predicate StageAccepted<J>(r: Rules, w: World<J>, n: Name, data: Bytes, expected: set<Name>) {
    && n in expected
    && expected <= r.Allowed()
    && w.prepare.Some?
    && RegularEntries(w.prepare.value)
    && w.prepare.value.Keys <= expected
    && n !in w.prepare.value
    && r.ValidComponent(n, data)
  }

  function WithPrepared<J>(w: World<J>, n: Name, data: Bytes): World<J> {
    w.(prepare := Some(if w.prepare.Some? then w.prepare.value[n := data] else map[n := data]))
  }

  /** A world in which part of the component has been written. */
  ghost predicate Written<J>(w: World<J>, n: Name, data: Bytes, w': World<J>) {
    exists k: nat :: k <= |data| && w' == WithPrepared(w, n, data[..k])
  }

  /** Every world from this one on has part of the component written. */
  ghost predicate AllWritten<J>(from: nat, h: seq<World<J>>, w: World<J>, n: Name, data: Bytes) {
    forall i :: from <= i < |h| ==> Written(w, n, data, h[i])
  }

  lemma WrittenMore<J>(from: nat, h: seq<World<J>>, w: World<J>, n: Name, data: Bytes, k: nat)
    requires AllWritten(from, h, w, n, data) && k <= |data|
    ensures AllWritten(from, h + [WithPrepared(w, n, data[..k])], w, n, data)
  {
    assert Written(w, n, data, WithPrepared(w, n, data[..k]));
  }

  predicate CommittedReadable<J>(r: Rules, w: World<J>) {
    w.NoTransaction() && forall n :: n in r.Allowed() ==> n in w.root && r.ValidComponent(n, w.root[n])
  }

  // ---------------------------------------------------------------------------------------
  // The checks of what was read

  /** The checks of one component by name: its own decoder, or an error for any other name. */
  method ValidateComponent(rules: Rules, n: Name, data: Bytes) returns (ok: bool)
    ensures ok <==> rules.ValidComponent(n, data)
  {
    if n != Master && n != BioLockout && n != User(rules.uid) {
      return false;
    }
    if data == [] || |data| > MAX_COMPONENT_BYTES {
      return false;
    }
    ok := rules.decodes(n, data);
  }

  /** The files of prepare/ against the journaled digests. */
  method ValidatePrepare<J>(rules: Rules, w: World<J>, expected: map<Name, Digest>) returns (ok: bool)
    ensures ok <==> PrepareAccepted(rules, w, expected)
  {
    hide Rules.ValidComponent;
    if w.prepare.None? || !RegularEntries(w.prepare.value) {
      return false;
    }
    var names := w.prepare.value.Keys;
    if !(expected.Keys <= rules.Allowed()) || names != expected.Keys {
      return false;
    }
    var todo := rules.Sorted(names);
    for i := 0 to |todo|
      invariant forall k :: 0 <= k < i ==> rules.Matches(todo[k], w.prepare.value[todo[k]], expected[todo[k]])
    {
      var data := w.prepare.value[todo[i]];
      if rules.sha(data) != expected[todo[i]] {
        return false;
      }
      var valid := ValidateComponent(rules, todo[i], data);
      if !valid {
        return false;
      }
    }
    ok := true;
  }

  /** For every journaled name, the file of commit/ or else the one already in the root. */
  method ValidateCommit<J>(rules: Rules, w: World<J>, expected: map<Name, Digest>) returns (ok: bool)
    ensures ok <==> CommitAccepted(rules, w, expected)
  {
    hide Rules.ValidComponent;
    if w.commit.None? || !RegularEntries(w.commit.value) {
      return false;
    }
    if !(w.commit.value.Keys <= expected.Keys) || !(expected.Keys <= rules.Allowed()) {
      return false;
    }
    var todo := rules.Sorted(expected.Keys);
    for i := 0 to |todo|
      invariant forall k :: 0 <= k < i ==> Accounted(rules, w, todo[k], expected)
    {
      var candidate := if todo[i] in w.commit.value then w.commit.value else w.root;
      if todo[i] !in candidate {
        return false;
      }
      if rules.sha(candidate[todo[i]]) != expected[todo[i]] {
        return false;
      }
      var valid := ValidateComponent(rules, todo[i], candidate[todo[i]]);
      if !valid {
        return false;
      }
    }
    ok := true;
  }

  /** The files of prepare/ before they are discarded, each against its digest if that is known. */
  method ValidateDiscard<J>(rules: Rules, w: World<J>, names: set<Name>, hashes: map<Name, Digest>) returns (ok: bool)
    ensures ok <==> DiscardAccepted(rules, w, names, hashes)
  {
    hide Rules.ValidComponent;
    if names == {} || !(names <= rules.Allowed()) || !(hashes.Keys <= names) {
      return false;
    }
    if w.prepare.None? || !RegularEntries(w.prepare.value) {
      return false;
    }
    if !(w.prepare.value.Keys <= names) {
      return false;
    }
    var todo := rules.Sorted(w.prepare.value.Keys);
    for i := 0 to |todo|
      invariant forall k :: 0 <= k < i ==> Discardable(rules, todo[k], w.prepare.value[todo[k]], hashes)
    {
      var data := w.prepare.value[todo[i]];
      if todo[i] in hashes && rules.sha(data) != hashes[todo[i]] {
        return false;
      }
      var valid := ValidateComponent(rules, todo[i], data);
      if !valid {
        return false;
      }
    }
    ok := true;
  }

  /** The whole root, if it is complete and valid and nothing is pending. */
  method CollectCommitted<J>(rules: Rules, w: World<J>) returns (ok: bool, components: Dir)
    ensures ok <==> CommittedReadable(rules, w)
    ensures ok ==> components == map n | n in rules.Allowed() :: w.root[n]
  {
    hide Rules.ValidComponent;
    components := map[];
    if w.prepare.Some? || w.commit.Some? {
      return false, components;
    }
    var todo := rules.Sorted(rules.Allowed());
    for i := 0 to |todo|
      invariant forall k :: 0 <= k < i ==> todo[k] in w.root && rules.ValidComponent(todo[k], w.root[todo[k]])
      invariant forall n :: n in components <==> n in todo[..i]
      invariant forall n :: n in components ==> n in w.root && components[n] == w.root[n]
    {
      if todo[i] !in w.root {
        return false, components;
      }
      var valid := ValidateComponent(rules, todo[i], w.root[todo[i]]);
      if !valid {
        return false, components;
      }
      components := components[todo[i] := w.root[todo[i]]];
    }
    assert todo[..|todo|] == todo;
    ok := true;
  }

  class Store<J(!new)> {
    const rules: Rules
    const machine: Machine<J>

    constructor (rules: Rules, machine: Machine<J>)
      ensures this.rules == rules && this.machine == machine
    {
      this.rules, this.machine := rules, machine;
    }

    /** Create prepare/ for a new transaction. */
    method BeginStage(names: set<Name>) returns (s: Status)
      requires machine.Valid()
      modifies machine
      ensures machine.Valid() && machine.synced >= old(machine.synced)
      ensures Follows(old(machine.history), machine.history, Begin(rules, old(machine.Now()), names), s)
      ensures s.Done? ==> machine.Durable()
      ensures s.Done? ==> machine.unsynced <= old(machine.unsynced)
      ensures machine.Explains(s)
    {
      if names == {} || !(names <= rules.Allowed()) {
        return Refused;
      }
      if machine.Now().prepare.Some? || machine.Now().commit.Some? {
        return Refused;
      }
      :- machine.Issue(machine.Now().(prepare := Some(map[])));
      :- machine.Sync(RootDirectory);
      return Done;
    }

    /** Write one component into prepare/, in as many writes as the operating system likes. A
        file that is not finished is torn: it holds a prefix of the component. */
    method StageComponent(n: Name, data: Bytes, expected: set<Name>) returns (s: Status, digest: Digest)
      requires machine.Valid()
      modifies machine
      ensures machine.Valid() && machine.synced >= old(machine.synced)
      ensures old(machine.history) <= machine.history
      ensures forall i :: old(|machine.history|) <= i < |machine.history| ==>
                Written(old(machine.Now()), n, data, machine.history[i])
      ensures s.Refused? <==> !StageAccepted(rules, old(machine.Now()), n, data, expected)
      ensures s.Refused? ==> machine.history == old(machine.history)
      ensures s.Done? ==> machine.Durable() && digest == rules.sha(data)
      ensures s.Done? ==> machine.Now() == WithPrepared(old(machine.Now()), n, data)
      ensures s.Done? ==> machine.unsynced <= old(machine.unsynced)
      ensures machine.Explains(s)
    {
      digest := rules.sha(data);
      var w := machine.Now();
      if n !in expected || !(expected <= rules.Allowed()) {
        s := Refused;
        return;
      }
      if w.prepare.None? || !RegularEntries(w.prepare.value) {
        s := Refused;
        return;
      }
      if !(w.prepare.value.Keys <= expected) || n in w.prepare.value {
        s := Refused;
        return;
      }
      var valid := ValidateComponent(rules, n, data);
      if !valid {
        s := Refused;
        return;
      }
      :- WriteExclusive(n, data);
      :- machine.Sync(PrepareDirectory);
      s := Done;
    }

    /** Create a file of prepare/ and write it, then synchronise it. */
    method WriteExclusive(n: Name, data: Bytes) returns (s: Status)
      requires machine.Valid() && machine.Now().prepare.Some? && n !in machine.Now().prepare.value
      modifies machine
      ensures machine.Valid() && machine.synced >= old(machine.synced) && !s.Refused?
      ensures old(machine.history) <= machine.history
      ensures forall i :: old(|machine.history|) <= i < |machine.history| ==>
                Written(old(machine.Now()), n, data, machine.history[i])
      ensures s.Done? ==> machine.Durable() && machine.Now() == WithPrepared(old(machine.Now()), n, data)
      ensures s.Done? ==> machine.unsynced <= old(machine.unsynced) + {PrepareDirectory}
      ensures machine.Explains(s)
    {
      hide Written, WithPrepared, Touched, Machine.OnlySyncsFail;
      ghost var from, unsynced := |machine.history|, machine.unsynced;
      var w := machine.Now();
      assert data[..0] == [];
      WrittenMore(from, machine.history, w, n, data, 0);
      TouchedByWriting(w, n, [], []);
      :- machine.Issue(WithPrepared(w, n, []));
      var offset := 0;
      while offset < |data|
        invariant machine.Valid() && machine.synced >= old(machine.synced) && offset <= |data|
        invariant old(machine.history) <= machine.history && machine.Now() == WithPrepared(w, n, data[..offset])
        invariant AllWritten(from, machine.history, w, n, data)
        invariant machine.unsynced <= unsynced + {PrepareDirectory, PreparedFile(n)}
      {
        var count := machine.Write(|data| - offset);
        if count == 0 {
          s := IoError;  // the operating system made no progress
          return;
        }
        WrittenMore(from, machine.history, w, n, data, offset + count);
        TouchedByWriting(w, n, data[..offset], data[..offset + count]);
        :- machine.Issue(WithPrepared(w, n, data[..offset + count]));
        offset := offset + count;
      }
      assert data[..|data|] == data;
      :- machine.Sync(PreparedFile(n));
      s := Done;
    }

    lemma TouchedByWriting(w: World<J>, n: Name, part: Bytes, more: Bytes)
      requires w.prepare.Some?
      ensures Touched(w, WithPrepared(w, n, part)) <= {PrepareDirectory, PreparedFile(n)}
      ensures Touched(WithPrepared(w, n, part), WithPrepared(w, n, more)) <= {PreparedFile(n)}
    {
    }

    /** Read the complete committed set; a pending transaction or an invalid component is an error. */
    method ReadCommittedComponents() returns (s: Status, components: Dir)
      requires machine.Valid()
      modifies machine`ticks
      ensures s.Done? ==> CommittedReadable(rules, machine.Now())
      ensures s.Refused? ==> !CommittedReadable(rules, machine.Now())
      ensures s.Done? || s.Refused? <==> old(machine.ReadWorks())
      ensures s.Done? ==> components == map n | n in rules.Allowed() :: machine.Now().root[n]
      ensures machine.OnlySyncsFail() ==> s.Done? || s.Refused?
    {
      hide CommittedReadable;
      components := map[];
      s := machine.Read();
      if s.Done? {
        var ok;
        ok, components := CollectCommitted(rules, machine.Now());
        s := if ok then Done else Refused;
      }
    }

    method DiscardPrepare(names: set<Name>, hashes: map<Name, Digest>) returns (s: Status)
      requires machine.Valid()
      modifies machine
      ensures machine.Valid() && machine.synced >= old(machine.synced)
      ensures Follows(old(machine.history), machine.history, Discard(rules, old(machine.Now()), names, hashes), s)
      ensures machine.Explains(s)
      ensures !old(machine.ReadWorks()) ==> machine.history == old(machine.history) && !s.Done? && !s.Refused?
      ensures s.Done? ==> machine.Durable()
      ensures s.Done? ==> machine.unsynced <= old(machine.unsynced)
    {
      DiscardShape(rules, machine.Now(), names, hashes);
      hide DiscardAccepted, UnlinkAll;
      var w := machine.Now();
      :- machine.Read();
      var valid := ValidateDiscard(rules, w, names, hashes);
      if !valid {
        return Refused;
      }
      s := UnlinkPrepared(rules.Sorted(w.prepare.value.Keys));
    }

    /** The unlinking loop and the removal of prepare/. */
    method UnlinkPrepared(todo: seq<Name>) returns (s: Status)
      requires machine.Valid() && machine.Now().prepare.Some?
      modifies machine
      ensures machine.Valid() && machine.synced >= old(machine.synced)
      ensures Follows(old(machine.history), machine.history, UnlinkAll(old(machine.Now()), todo), s)
      ensures machine.Explains(s)
      ensures s.Done? ==> machine.Durable()
      ensures s.Done? ==> machine.unsynced <= old(machine.unsynced)
    {
      hide UnlinkAll, Touched;
      ghost var h0, full, unsynced := machine.history, UnlinkAll(machine.Now(), todo), machine.unsynced;
      for i := 0 to |todo|
        invariant machine.Valid() && machine.synced >= old(machine.synced)
        invariant machine.Now().prepare.Some? && machine.unsynced <= unsynced + {PrepareDirectory}
        invariant Left(h0, full, machine.history, UnlinkAll(machine.Now(), todo[i..]))
      {
        var next := machine.Now().(prepare := Some(machine.Now().prepare.value - {todo[i]}));
        ghost var h, first, rest := machine.history, Run([next], true), UnlinkAll(next, todo[i + 1..]);
        UnlinkStep(machine.Now(), todo, i);
        TouchedByUnlinking(machine.Now(), todo[i]);
        s := machine.Issue(next);
        if !s.Done? {
          FollowsFirst(h, machine.history, first, rest, s);
          FollowsAll(h0, full, h, Then(first, rest), machine.history, s);
          return;
        }
        LeftAfter(h0, full, h, first, rest);
      }
      assert todo[|todo|..] == [];
      s := RemovePrepare();
    }

    lemma TouchedByUnlinking(w: World<J>, n: Name)
      requires w.prepare.Some?
      ensures Touched(w, w.(prepare := Some(w.prepare.value - {n}))) <= {PrepareDirectory}
    {
    }

    /** The end of a discard: sync prepare/, remove it, sync the root. */
    method RemovePrepare() returns (s: Status)
      requires machine.Valid() && machine.Now().prepare.Some?
      modifies machine
      ensures machine.Valid() && machine.synced >= old(machine.synced)
      ensures Follows(old(machine.history), machine.history, UnlinkAll(old(machine.Now()), []), s)
      ensures machine.Explains(s)
      ensures s.Done? ==> machine.Durable()
      ensures s.Done? ==> machine.unsynced <= old(machine.unsynced) - {PrepareDirectory}
    {
      s := machine.Sync(PrepareDirectory);
      if !s.Done? {
        return;
      }
      if machine.Now().prepare.value != map[] {
        return Refused;
      }
      :- machine.Issue(machine.Now().(prepare := None));
      :- machine.Sync(RootDirectory);
      return Done;
    }

    /** One turn of the promotion loop: unlink the old component, rename the new one into place,
        sync both directories. */
    method ReplaceComponent(n: Name) returns (s: Status)
      requires machine.Valid() && machine.Now().commit.Some?
      modifies machine
      ensures machine.Valid() && machine.synced >= old(machine.synced)
      ensures Follows(old(machine.history), machine.history, Replace(rules, old(machine.Now()), n), s)
      ensures s.Done? ==> machine.Durable() && machine.SyncMayWork(machine.Now())
      ensures s.Done? ==> machine.unsynced <= old(machine.unsynced)
      ensures machine.Explains(s)
    {
      hide Rules.ValidComponent, Promoted, Touched, WithoutRoot, Machine.OnlySyncsFail, Machine.SyncMayFail, Machine.SyncMayWork;
      var w := machine.Now();
      if n in w.root {
        :- UnlinkRoot(n);
      }
      UnlinkedRoot(w, n);
      s := PlaceComponent(n);
    }

    method UnlinkRoot(n: Name) returns (s: Status)
      requires machine.Valid() && n in machine.Now().root
      modifies machine
      ensures machine.Valid() && machine.synced >= old(machine.synced)
      ensures var w := old(machine.Now());
              Follows(old(machine.history), machine.history,
                      if rules.ValidComponent(n, w.root[n]) then Run([WithoutRoot(w, n)], true) else Run([], false), s)
      ensures machine.unsynced <= old(machine.unsynced) + {RootDirectory}
      ensures !old(machine.ReadWorks()) ==> machine.history == old(machine.history) && !s.Done? && !s.Refused?
      ensures machine.Explains(s)
    {
      hide Touched, WithoutRoot;
      var w := machine.Now();
      :- machine.Read();
      var valid := ValidateComponent(rules, n, w.root[n]);
      if !valid {
        return Refused;
      }
      TouchedByUnlinkingRoot(w, n);
      s := machine.Issue(WithoutRoot(w, n));
    }

    lemma UnlinkedRoot(w: World<J>, n: Name)
      ensures n !in w.root ==> WithoutRoot(w, n) == w
      ensures WithoutRoot(w, n).commit == w.commit
    {
    }

    lemma TouchedByUnlinkingRoot(w: World<J>, n: Name)
      ensures Touched(w, WithoutRoot(w, n)) <= {RootDirectory}
    {
    }

    lemma TouchedByPromoting(w: World<J>, n: Name)
      requires w.commit.Some? && n in w.commit.value
      ensures Touched(w, Promoted(w, n)) <= {RootDirectory, CommitDirectory}
    {
    }

    method PlaceComponent(n: Name) returns (s: Status)
      requires machine.Valid() && machine.Now().commit.Some?
      modifies machine
      ensures machine.Valid() && machine.synced >= old(machine.synced)
      ensures var w := old(machine.Now());
              Follows(old(machine.history), machine.history, if n in w.commit.value then Run([Promoted(w, n)], true) else Run([], false), s)
      ensures s.Done? ==> machine.Durable() && machine.SyncMayWork(machine.Now())
      ensures s.Done? ==> machine.unsynced <= old(machine.unsynced) - {RootDirectory, CommitDirectory}
      ensures machine.Explains(s)
    {
      hide Promoted, Touched;
      if n !in machine.Now().commit.value {
        return Refused;
      }
      TouchedByPromoting(machine.Now(), n);
      :- machine.Issue(Promoted(machine.Now(), n));
      :- machine.Sync(CommitDirectory);
      :- machine.Sync(RootDirectory);
      return Done;
    }

    method RollForward(expected: map<Name, Digest>) returns (s: Status)
      requires machine.Valid()
      modifies machine
      ensures machine.Valid() && machine.synced >= old(machine.synced)
      ensures Follows(old(machine.history), machine.history, CatacombStore.RollForward(rules, old(machine.Now()), expected), s)
      ensures !old(machine.ReadWorks()) ==> machine.history == old(machine.history) && !s.Done? && !s.Refused?
      ensures s.Done? ==> machine.Durable() && machine.SyncMayWork(machine.Now())
      ensures s.Done? ==> machine.unsynced <= old(machine.unsynced)
      ensures machine.Explains(s)
    {
      CommitShape(rules, machine.Now(), expected);
      hide CommitAccepted;
      var w := machine.Now();
      :- machine.Read();
      var valid := ValidateCommit(rules, w, expected);
      if !valid {
        return Refused;
      }
      s := PromoteAll(rules.Sorted(w.commit.value.Keys));
    }

    /** The promotion loop and the removal of commit/. */
    method PromoteAll(todo: seq<Name>) returns (s: Status)
      requires machine.Valid() && machine.Now().commit.Some?
      modifies machine
      ensures machine.Valid() && machine.synced >= old(machine.synced)
      ensures Follows(old(machine.history), machine.history, Promote(rules, old(machine.Now()), todo), s)
      ensures s.Done? ==> machine.Durable() && machine.SyncMayWork(machine.Now())
      ensures s.Done? ==> machine.unsynced <= old(machine.unsynced)
      ensures machine.Explains(s)
    {
      hide Replace;
      ghost var unsynced := machine.unsynced;
      ghost var h0, full := machine.history, Promote(rules, machine.Now(), todo);
      for i := 0 to |todo|
        invariant machine.Valid() && machine.synced >= old(machine.synced)
        invariant machine.Now().commit.Some? && machine.unsynced <= unsynced
        invariant Left(h0, full, machine.history, Promote(rules, machine.Now(), todo[i..]))
      {
        ghost var h, first := machine.history, Replace(rules, machine.Now(), todo[i]);
        ReplaceKeepsCommit(rules, machine.Now(), todo[i]);
        ghost var rest := Promote(rules, if first.ok then Final(machine.Now(), first) else machine.Now(), todo[i + 1..]);
        assert todo[i..][1..] == todo[i + 1..];
        assert Promote(rules, machine.Now(), todo[i..]) == if first.ok then Then(first, rest) else first;
        s := ReplaceComponent(todo[i]);
        if !s.Done? {
          FollowsFirst(h, machine.history, first, rest, s);
          FollowsAll(h0, full, h, if first.ok then Then(first, rest) else first, machine.history, s);
          return;
        }
        LeftAfter(h0, full, h, first, rest);
      }
      assert todo[|todo|..] == [];
      s := RemoveCommit();
    }

    /** The end of a roll-forward: remove commit/ and sync the root. */
    method RemoveCommit() returns (s: Status)
      requires machine.Valid() && machine.Now().commit.Some?
      modifies machine
      ensures machine.Valid() && machine.synced >= old(machine.synced)
      ensures Follows(old(machine.history), machine.history, Promote(rules, old(machine.Now()), []), s)
      ensures s.Done? ==> machine.Durable() && machine.SyncMayWork(machine.Now())
      ensures s.Done? ==> machine.unsynced <= old(machine.unsynced)
      ensures machine.Explains(s)
    {
      if machine.Now().commit.value != map[] {
        return Refused;
      }
      :- machine.Issue(machine.Now().(commit := None));
      :- machine.Sync(RootDirectory);
      return Done;
    }

    /** The directory rename is the irreversible boundary; it is durable before any old root
        component is unlinked. */
    method CrossCommitBoundary(expected: map<Name, Digest>) returns (s: Status)
      requires machine.Valid()
      modifies machine
      ensures machine.Valid() && machine.synced >= old(machine.synced)
      ensures Follows(old(machine.history), machine.history, Cross(rules, old(machine.Now()), expected), s)
      ensures !old(machine.ReadWorks()) ==> machine.history == old(machine.history) && !s.Done? && !s.Refused?
      ensures s.Done? ==> machine.Durable() && machine.SyncMayWork(machine.Now())
      ensures s.Done? ==> machine.unsynced <= old(machine.unsynced)
      ensures machine.Explains(s)
      ensures |machine.history| > old(|machine.history|) + 1 ==> machine.synced >= old(|machine.history|)
    {
      PrepareShape(rules, machine.Now(), expected);
      hide PrepareAccepted, CatacombStore.RollForward, Follows, Machine.OnlySyncsFail, Machine.SyncMayFail, Machine.SyncMayWork;
      ghost var h0 := machine.history;
      var w := machine.Now();
      s := machine.Read();
      if !s.Done? {
        NoStep(h0, Cross(rules, w, expected), s);
        return;
      }
      var valid := ValidatePrepare(rules, w, expected);
      if !valid || (w.commit.Some? && w.commit.value != map[]) {
        NoStep(h0, Cross(rules, w, expected), Refused);
        return Refused;  // the rename, too, finds a directory that is not empty
      }
      ghost var first := Run([w.(commit := w.prepare, prepare := None)], true);
      ghost var rest := CatacombStore.RollForward(rules, first.states[0], expected);
      s := RenamePrepare();
      if !s.Done? {
        FollowsFirst(h0, machine.history, first, rest, s);
        return;
      }
      FirstFollowed(h0, machine.history, first);
      s := RollForward(expected);
      ThenFollowed(h0, first, rest, machine.history, s);
    }

    /** Turn prepare/ into commit/, durably. */
    method RenamePrepare() returns (s: Status)
      requires machine.Valid() && machine.Now().prepare.Some?
      modifies machine
      ensures machine.Valid() && machine.synced >= old(machine.synced)
      ensures var w := old(machine.Now());
              Follows(old(machine.history), machine.history, Run([w.(commit := w.prepare, prepare := None)], true), s)
      ensures s.Done? ==> machine.Durable() && machine.unsynced <= old(machine.unsynced)
      ensures machine.Explains(s)
    {
      hide Touched;
      var w := machine.Now();
      TouchedByCrossing(w);
      :- machine.Issue(w.(commit := w.prepare, prepare := None));
      :- machine.Sync(RootDirectory);
      return Done;
    }

    lemma TouchedByCrossing(w: World<J>)
      ensures w.prepare.Some? ==> Touched(w, w.(commit := w.prepare, prepare := None)) <= {RootDirectory}
    {
    }

    method DiscardIfPending(expected: map<Name, Digest>) returns (s: Status)
      requires machine.Valid()
      modifies machine
      ensures machine.Valid() && machine.synced >= old(machine.synced)
      ensures Follows(old(machine.history), machine.history, DiscardPending(rules, old(machine.Now()), expected), s)
      ensures machine.Explains(s)
      ensures s.Done? ==> machine.unsynced <= old(machine.unsynced)
      ensures s.Done? ==> machine.Now().commit == old(machine.Now()).commit
      ensures s.Done? && old(machine.Now()).prepare.Some? ==> machine.Durable()
    {
      s := Done;
      if machine.Now().prepare.Some? {
        CommitUntouched(rules, machine.Now(), expected.Keys, expected);
        s := DiscardPrepare(expected.Keys, expected);
      }
    }

    method RollIfPending(expected: map<Name, Digest>) returns (s: Status)
      requires machine.Valid()
      modifies machine
      ensures machine.Valid() && machine.synced >= old(machine.synced)
      ensures Follows(old(machine.history), machine.history, RollPending(rules, old(machine.Now()), expected), s)
      ensures machine.Explains(s)
      ensures s.Done? ==> machine.unsynced <= old(machine.unsynced)
      ensures s.Done? && (old(machine.Now()).commit.Some? || old(machine.Durable())) ==> machine.Durable()
    {
      s := Done;
      if machine.Now().commit.Some? {
        s := RollForward(expected);
      }
    }

    method Recover(expected: map<Name, Digest>) returns (s: Status, action: Action)
      requires machine.Valid()
      modifies machine
      ensures machine.Valid() && machine.synced >= old(machine.synced)
      ensures Follows(old(machine.history), machine.history, CatacombStore.Recover(rules, old(machine.Now()), expected), s)
      ensures machine.Explains(s)
      ensures s.Done? ==> machine.unsynced <= old(machine.unsynced)
      ensures s.Done? ==> action == RecoverAction(old(machine.Now()))
      ensures s.Done? && action != Clean ==> machine.Durable()
    {
      var w := machine.Now();
      hide DiscardPending, RollPending;
      ghost var h0 := machine.history;
      ghost var discard := DiscardPending(rules, w, expected);
      ghost var roll := RollPending(rules, Final(w, discard), expected);
      action := if w.prepare.Some? then PrepareDiscarded else Clean;
      s := DiscardIfPending(expected);
      if !s.Done? {
        FollowsFirst(h0, machine.history, discard, roll, s);
        return;
      }
      action := if machine.Now().commit.Some? then CommitRolledForward else action;
      ghost var h := machine.history;
      FinalIsLast(h0, discard);
      LeftAfter(h0, Then(discard, roll), h0, discard, roll);
      s := RollIfPending(expected);
      FollowsAll(h0, Then(discard, roll), h, roll, machine.history, s);
    }
  }

  lemma PrepareShape<J>(r: Rules, w: World<J>, expected: map<Name, Digest>)
    ensures PrepareAccepted(r, w, expected) ==> w.prepare.Some?
  {
  }

  lemma CommitShape<J>(r: Rules, w: World<J>, expected: map<Name, Digest>)
    ensures CommitAccepted(r, w, expected) ==> w.commit.Some? && w.commit.value.Keys <= r.Allowed()
  {
  }

  lemma DiscardShape<J>(r: Rules, w: World<J>, names: set<Name>, hashes: map<Name, Digest>)
    ensures DiscardAccepted(r, w, names, hashes) ==> w.prepare.Some? && w.prepare.value.Keys <= r.Allowed()
  {
  }

  lemma UnlinkStep<J>(w: World<J>, todo: seq<Name>, i: nat)
    requires w.prepare.Some? && i < |todo|
    ensures var next := w.(prepare := Some(w.prepare.value - {todo[i]}));
            UnlinkAll(w, todo[i..]) == Then(Run([next], true), UnlinkAll(next, todo[i + 1..]))
  {
    assert todo[i..][1..] == todo[i + 1..];
  }

  lemma ReplaceKeepsCommit<J>(r: Rules, w: World<J>, n: Name)
    requires w.commit.Some?
    ensures Final(w, Replace(r, w, n)).commit.Some?
  {
  }

  lemma FinalIsLast<J>(h0: seq<World<J>>, run: Run<J>)
    requires |h0| > 0
    ensures var h := h0 + run.states;
            h[|h| - 1] == Final(h0[|h0| - 1], run)
  {
  }

  /** Discarding prepare/ does not touch commit/. */
  lemma CommitUntouched<J>(r: Rules, w: World<J>, names: set<Name>, hashes: map<Name, Digest>)
    ensures w.prepare.Some? ==> Final(w, Discard(r, w, names, hashes)).commit == w.commit
  {
    if w.prepare.Some? && DiscardAccepted(r, w, names, hashes) {
      UnlinkAllKeepsCommit(w, r.Sorted(w.prepare.value.Keys));
    }
  }

  lemma {:induction false} UnlinkAllKeepsCommit<J>(w: World<J>, names: seq<Name>)
    requires w.prepare.Some?
    ensures Final(w, UnlinkAll(w, names)).commit == w.commit
    decreases names
  {
    if names != [] {
      var w' := w.(prepare := Some(w.prepare.value - {names[0]}));
      UnlinkAllKeepsCommit(w', names[1..]);
      assert Final(w, UnlinkAll(w, names)) == Final(w', UnlinkAll(w', names[1..]));
    }
  }
}
