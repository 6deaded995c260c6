/** The crash-recoverable component store. prepare/ has not crossed the commit boundary and can
    only be discarded; commit/ has crossed it and can only be rolled forward.

    First the functions: what each operation does to a world, as the sequence of worlds it
    passes through. Then what those functions promise. The store that performs the steps
    is in StoreOperations. */
module CatacombStore {
  import opened Outcomes
  import opened HostWorld

  const MAX_COMPONENT_BYTES := 1024 * 1024

  type Digest = Bytes

  /** The parts of the store that are not modelled further: the digest, and the component
      decoders that say which bytes are valid under a name. */
  datatype Rules = Rules(uid: nat, sha: Bytes -> Digest, decodes: (Name, Bytes) -> bool)
  {
    function Allowed(): set<Name> {
      {BioLockout, Master, User(uid)}
    }

    predicate ValidComponent(n: Name, data: Bytes) {
      n in Allowed() && 0 < |data| <= MAX_COMPONENT_BYTES && decodes(n, data)
    }

    /** Read a transaction file and check it against its journaled digest. */
    predicate Matches(n: Name, data: Bytes, digest: Digest) {
      sha(data) == digest && ValidComponent(n, data)
    }

    /** The names of the set in Python's string order. */
    function Sorted(names: set<Name>): (r: seq<Name>)
      requires names <= Allowed()
      ensures forall n :: n in r <==> n in names
      ensures forall i, j :: 0 <= i < j < |r| ==> r[i] != r[j]
    {
      (if BioLockout in names then [BioLockout] else [])
      + (if Master in names then [Master] else [])
      + (if User(uid) in names then [User(uid)] else [])
    }

    function Hashes(staged: Dir): map<Name, Digest> {
      map n | n in staged :: sha(staged[n])
    }
  }

  predicate RegularEntries(d: Dir) {
    forall n :: n in d ==> !n.Foreign?
  }

  // ---------------------------------------------------------------------------------------
  // What the operations do

  /** The worlds an operation passes through after the one it starts in, and whether it
      returns normally or stops with one of its own errors. */
  datatype Run<J> = Run(states: seq<World<J>>, ok: bool)

  function StateAt<J>(w: World<J>, run: Run<J>, k: nat): World<J>
    requires k <= |run.states|
  {
    if k == 0 then w else run.states[k - 1]
  }

  function Final<J>(w: World<J>, run: Run<J>): World<J> {
    StateAt(w, run, |run.states|)
  }

  function Then<J>(first: Run<J>, rest: Run<J>): Run<J> {
    Run(first.states + rest.states, rest.ok)
  }

  predicate PrepareAccepted<J>(r: Rules, w: World<J>, expected: map<Name, Digest>) {
    && w.prepare.Some?
    && RegularEntries(w.prepare.value)
    && expected.Keys <= r.Allowed()
    && w.prepare.value.Keys == expected.Keys
    && forall n :: n in w.prepare.value ==> r.Matches(n, w.prepare.value[n], expected[n])
  }

  predicate CommitAccepted<J>(r: Rules, w: World<J>, expected: map<Name, Digest>) {
    && w.commit.Some?
    && RegularEntries(w.commit.value)
    && w.commit.value.Keys <= expected.Keys <= r.Allowed()
    && forall n :: n in expected ==> Accounted(r, w, n, expected)
  }

  /** The new file of this name is in commit/, or else already in the root. */
  predicate Accounted<J>(r: Rules, w: World<J>, n: Name, expected: map<Name, Digest>)
    requires w.commit.Some? && n in expected
  {
    if n in w.commit.value then r.Matches(n, w.commit.value[n], expected[n])
    else n in w.root && r.Matches(n, w.root[n], expected[n])
  }

  /** A file of prepare/ that may be discarded: valid, and with its digest where that is known. */
  predicate Discardable(r: Rules, n: Name, data: Bytes, hashes: map<Name, Digest>) {
    (n in hashes ==> r.sha(data) == hashes[n]) && r.ValidComponent(n, data)
  }

  predicate DiscardAccepted<J>(r: Rules, w: World<J>, names: set<Name>, hashes: map<Name, Digest>) {
    && names != {}
    && names <= r.Allowed()
    && hashes.Keys <= names
    && w.prepare.Some?
    && RegularEntries(w.prepare.value)
    && w.prepare.value.Keys <= names
    && forall n :: n in w.prepare.value ==> Discardable(r, n, w.prepare.value[n], hashes)
  }

  /** Unlink the listed prepared files one by one, then remove the directory. */
  function UnlinkAll<J>(w: World<J>, names: seq<Name>): Run<J>
    requires w.prepare.Some?
    decreases names
  {
    if names == [] then
      if w.prepare.value == map[] then Run([w.(prepare := None)], true) else Run([], false)
    else
      var w' := w.(prepare := Some(w.prepare.value - {names[0]}));
      Then(Run([w'], true), UnlinkAll(w', names[1..]))
  }

  function Discard<J>(r: Rules, w: World<J>, names: set<Name>, hashes: map<Name, Digest>): Run<J> {
    if DiscardAccepted(r, w, names, hashes) then UnlinkAll(w, r.Sorted(w.prepare.value.Keys)) else Run([], false)
  }

  function WithoutRoot<J>(w: World<J>, n: Name): World<J> {
    w.(root := w.root - {n})
  }

  function Promoted<J>(w: World<J>, n: Name): World<J>
    requires w.commit.Some? && n in w.commit.value
  {
    w.(root := w.root[n := w.commit.value[n]], commit := Some(w.commit.value - {n}))
  }

  /** Unlink the old root component if there is one, then rename the committed file into place. */
  function Replace<J>(r: Rules, w: World<J>, n: Name): Run<J>
    requires w.commit.Some?
  {
    if n in w.root && !r.ValidComponent(n, w.root[n]) then Run([], false)
    else
      var w1 := WithoutRoot(w, n);
      var unlinked := if n in w.root then [w1] else [];
      if n in w.commit.value then Run(unlinked + [Promoted(w1, n)], true) else Run(unlinked, false)
  }

  /** Replace each listed root component by its committed file, then remove commit/. */
  function Promote<J>(r: Rules, w: World<J>, names: seq<Name>): Run<J>
    requires w.commit.Some?
    decreases names
  {
    if names == [] then
      if w.commit.value == map[] then Run([w.(commit := None)], true) else Run([], false)
    else
      var first := Replace(r, w, names[0]);
      if first.ok then Then(first, Promote(r, Final(w, first), names[1..])) else first
  }

  function RollForward<J>(r: Rules, w: World<J>, expected: map<Name, Digest>): Run<J> {
    if CommitAccepted(r, w, expected) then Promote(r, w, r.Sorted(w.commit.value.Keys)) else Run([], false)
  }

  /** Cross the boundary: one directory rename, then roll forward. */
  function Cross<J>(r: Rules, w: World<J>, expected: map<Name, Digest>): Run<J> {
    if !PrepareAccepted(r, w, expected) || (w.commit.Some? && w.commit.value != map[]) then Run([], false)
    else
      var w1 := w.(commit := w.prepare, prepare := None);
      Then(Run([w1], true), RollForward(r, w1, expected))
  }

  function DiscardPending<J>(r: Rules, w: World<J>, expected: map<Name, Digest>): Run<J> {
    if w.prepare.Some? then Discard(r, w, expected.Keys, expected) else Run([], true)
  }

  function RollPending<J>(r: Rules, w: World<J>, expected: map<Name, Digest>): Run<J> {
    if w.commit.Some? then RollForward(r, w, expected) else Run([], true)
  }

  /** Discard prepare/ if there is one, then roll commit/ forward if there is one. */
  function Recover<J>(r: Rules, w: World<J>, expected: map<Name, Digest>): Run<J> {
    var discard := DiscardPending(r, w, expected);
    if discard.ok then Then(discard, RollPending(r, Final(w, discard), expected)) else discard
  }

  datatype Action = Clean | PrepareDiscarded | CommitRolledForward

  /** The name that a recovery returns. */
  function RecoverAction<J>(w: World<J>): Action {
    if w.commit.Some? then CommitRolledForward else if w.prepare.Some? then PrepareDiscarded else Clean
  }

  // ---------------------------------------------------------------------------------------
  // When they act

  /** A component file of this transaction, with this digest, under a name that the store knows. */
  predicate Genuine(r: Rules, n: Name, data: Bytes, digest: Digest) {
    && (n == Master || n == BioLockout || n == User(r.uid))
    && 1 <= |data| <= 1048576 && r.decodes(n, data) && r.sha(data) == digest
  }

  lemma GenuineMatches(r: Rules, n: Name, data: Bytes, digest: Digest)
    ensures Genuine(r, n, data, digest) <==> r.Matches(n, data, digest)
    ensures Genuine(r, n, data, digest) ==> n in r.Allowed() && !n.Foreign?
  {
  }

  lemma AllowedNames(r: Rules)
    ensures r.Allowed() == {BioLockout, Master, User(r.uid)} && forall n :: n in r.Allowed() ==> !n.Foreign?
  {
  }

  /** A crossing touches the disk if and only if prepare/ holds exactly the journaled names, each with a valid file of
      its journaled digest, and nothing is in commit/; the first thing that it does is then the rename. */
  lemma CrossActs<J>(r: Rules, w: World<J>, expected: map<Name, Digest>)
    ensures var run := Cross(r, w, expected);
      if && w.prepare.Some? && w.prepare.value.Keys == expected.Keys
         && (forall n :: n in expected ==> Genuine(r, n, w.prepare.value[n], expected[n]))
         && (w.commit == None || w.commit == Some(map[]))
      then run.states != [] && run.states[0] == World(w.root, None, w.prepare, w.journal)
      else run == Run([], false)
  {
    hide RollForward, Genuine, Rules.Matches;
    AllowedNames(r);
    if w.prepare.Some? && w.prepare.value.Keys == expected.Keys {
      forall n | n in expected
        ensures Genuine(r, n, w.prepare.value[n], expected[n]) <==> r.Matches(n, w.prepare.value[n], expected[n])
        ensures Genuine(r, n, w.prepare.value[n], expected[n]) ==> n in r.Allowed()
      {
        GenuineMatches(r, n, w.prepare.value[n], expected[n]);
      }
    }
  }

  /** A discard touches the disk if and only if prepare/ holds only permitted valid files, of the journaled digests
      where those are known; it then ends without prepare/. */
  lemma DiscardActs<J>(r: Rules, w: World<J>, names: set<Name>, hashes: map<Name, Digest>)
    ensures var run := Discard(r, w, names, hashes);
      if && names != {} && hashes.Keys <= names <= {BioLockout, Master, User(r.uid)}
         && w.prepare.Some? && w.prepare.value.Keys <= names
         && (forall n :: n in w.prepare.value ==>
               Genuine(r, n, w.prepare.value[n], if n in hashes then hashes[n] else r.sha(w.prepare.value[n])))
      then run.ok && Final(w, run) == w.(prepare := None)
      else run == Run([], false)
  {
    if DiscardAccepted(r, w, names, hashes) {
      UnlinksListed(w, r.Sorted(w.prepare.value.Keys));
    }
  }

  lemma {:induction false} UnlinksListed<J>(w: World<J>, names: seq<Name>)
    requires w.prepare.Some? && Lists(names, w.prepare.value.Keys)
    ensures UnlinkAll(w, names).ok && Final(w, UnlinkAll(w, names)) == w.(prepare := None)
    decreases names
  {
    if names == [] {
      assert w.prepare.value.Keys == {};
    } else {
      var w' := w.(prepare := Some(w.prepare.value - {names[0]}));
      assert w'.prepare.value.Keys == w.prepare.value.Keys - {names[0]};
      ListsTail(names, w.prepare.value.Keys);
      UnlinksListed(w', names[1..]);
      assert Final(w, UnlinkAll(w, names)) == Final(w', UnlinkAll(w', names[1..]));
    }
  }

  /** A roll-forward touches the disk only if every journaled name has its new valid file, in commit/ or in the root,
      and commit/ holds nothing else. */
  lemma RollForwardActs<J>(r: Rules, w: World<J>, expected: map<Name, Digest>)
    ensures var run := RollForward(r, w, expected);
      if && w.commit.Some? && w.commit.value.Keys <= expected.Keys
         && (forall n :: n in expected ==>
               if n in w.commit.value then Genuine(r, n, w.commit.value[n], expected[n])
               else n in w.root && Genuine(r, n, w.root[n], expected[n]))
      then run == Promote(r, w, r.Sorted(w.commit.value.Keys * {BioLockout, Master, User(r.uid)}))
      else run == Run([], false)
  {
    hide Promote, Genuine, Rules.Matches, Rules.Sorted;
    AllowedNames(r);
    if w.commit.Some? {
      forall n | n in expected && (n in w.commit.value || n in w.root)
        ensures var data := if n in w.commit.value then w.commit.value[n] else w.root[n];
                (Genuine(r, n, data, expected[n]) <==> r.Matches(n, data, expected[n])) && (Genuine(r, n, data, expected[n]) ==> n in r.Allowed())
      {
        GenuineMatches(r, n, if n in w.commit.value then w.commit.value[n] else w.root[n], expected[n]);
      }
    }
    if CommitAccepted(r, w, expected) {
      assert w.commit.value.Keys * {BioLockout, Master, User(r.uid)} == w.commit.value.Keys;
    }
  }

  // ---------------------------------------------------------------------------------------
  // The worlds of one transaction

  /** A complete valid root and a valid, nonempty staged subset of its components. */
  ghost predicate Transaction(r: Rules, before: Dir, staged: Dir) {
    && r.Allowed() <= before.Keys
    && (forall n :: n in r.Allowed() ==> r.ValidComponent(n, before[n]))
    && staged != map[]
    && staged.Keys <= r.Allowed()
    && (forall n :: n in staged ==> r.ValidComponent(n, staged[n]))
  }

  /** prepare/ holds prefixes of staged components; a torn file is a proper prefix. */
  ghost predicate Staging(prepare: Dir, staged: Dir) {
    forall n :: n in prepare ==> n in staged && prepare[n] <= staged[n]
  }

  ghost predicate Untorn(prepare: Dir, staged: Dir) {
    forall n :: n in prepare ==> n in staged && prepare[n] == staged[n]
  }

  /** commit/ holds the staged bytes that are not yet in the root. */
  ghost predicate Rolling(root: Dir, commit: Dir, before: Dir, staged: Dir) {
    && Untorn(commit, staged)
    && root.Keys <= before.Keys
    && (forall n :: n in root ==> root[n] == if n in staged && n !in commit then staged[n] else before[n])
    && (forall n :: n in before && n !in commit ==> n in root)
  }

  /** Every world that the transaction can be in, before or after its boundary was crossed. */
  ghost predicate InTransaction<J>(w: World<J>, crossed: bool, before: Dir, staged: Dir) {
    if !crossed then
      w.root == before && w.commit.None? && (w.prepare.Some? ==> Staging(w.prepare.value, staged))
    else
      && w.prepare.None?
      && match w.commit
         case Some(c) => Rolling(w.root, c, before, staged)
         case None => w.root == before + staged
  }

  /** Where a completed recovery ends. */
  function Outcome<J>(w: World<J>, crossed: bool, before: Dir, staged: Dir): World<J> {
    World(if crossed then before + staged else before, None, None, w.journal)
  }

  // ---------------------------------------------------------------------------------------
  // What the operations promise

  /** Every world of the run belongs to the transaction and leaves the journal alone, and each
      step uses up some of the work that is left. */
  ghost predicate StaysIn<J>(w: World<J>, run: Run<J>, crossed: bool, before: Dir, staged: Dir) {
    forall k :: 0 < k <= |run.states| ==>
      StepIn(w, StateAt(w, run, k - 1), StateAt(w, run, k), crossed, before, staged)
  }

  ghost predicate StepIn<J>(w: World<J>, u: World<J>, v: World<J>, crossed: bool, before: Dir, staged: Dir) {
    v.journal == w.journal && InTransaction(v, crossed, before, staged) && PrepareShrinks(w, v) && Work(v) < Work(u)
  }

  /** Recovery never writes into prepare/. */
  ghost predicate PrepareShrinks<J>(w: World<J>, w': World<J>) {
    w'.prepare.Some? ==>
      && w.prepare.Some?
      && forall n :: n in w'.prepare.value ==> n in w.prepare.value && w'.prepare.value[n] == w.prepare.value[n]
  }

  /** Files and directories that a recovery still has to deal with. */
  function Work<J>(w: World<J>): nat {
    (if w.prepare.Some? then 1 + |w.prepare.value| else 0)
    + (if w.commit.Some? then 1 + |w.commit.value| + |w.commit.value.Keys * w.root.Keys| else 0)
  }

  ghost predicate Lists(names: seq<Name>, keys: set<Name>) {
    && (forall n :: n in names <==> n in keys)
    && (forall i, j :: 0 <= i < j < |names| ==> names[i] != names[j])
  }

  lemma ListsTail(names: seq<Name>, keys: set<Name>)
    requires Lists(names, keys) && names != []
    ensures Lists(names[1..], keys - {names[0]})
  {
  }

  /** Two runs in a row stay in the transaction if each does. */
  lemma ThenStays<J>(w: World<J>, first: Run<J>, rest: Run<J>, crossed: bool, before: Dir, staged: Dir)
    requires StaysIn(w, first, crossed, before, staged)
    requires StaysIn(Final(w, first), rest, crossed, before, staged)
    ensures StaysIn(w, Then(first, rest), crossed, before, staged)
    ensures Final(w, Then(first, rest)) == Final(Final(w, first), rest)
  {
    hide InTransaction, Work;
    var run, m, mid := Then(first, rest), |first.states|, Final(w, first);
    assert m > 0 ==> StepIn(w, StateAt(w, first, m - 1), mid, crossed, before, staged);
    forall k | 0 < k <= |run.states|
      ensures StepIn(w, StateAt(w, run, k - 1), StateAt(w, run, k), crossed, before, staged)
    {
      if k <= m {
        assert StateAt(w, run, k) == StateAt(w, first, k) && StateAt(w, run, k - 1) == StateAt(w, first, k - 1);
      } else {
        assert StateAt(w, run, k) == StateAt(mid, rest, k - m) && StateAt(w, run, k - 1) == StateAt(mid, rest, k - m - 1);
        EarlierStart(w, mid, StateAt(mid, rest, k - m - 1), StateAt(mid, rest, k - m), crossed, before, staged);
      }
    }
  }

  lemma EarlierStart<J>(w: World<J>, mid: World<J>, u: World<J>, v: World<J>, crossed: bool, before: Dir, staged: Dir)
    requires mid.journal == w.journal && PrepareShrinks(w, mid)
    requires StepIn(mid, u, v, crossed, before, staged)
    ensures StepIn(w, u, v, crossed, before, staged)
  {
  }

  lemma StepStays<J>(w: World<J>, w': World<J>, crossed: bool, before: Dir, staged: Dir)
    requires w'.journal == w.journal && InTransaction(w', crossed, before, staged)
    requires PrepareShrinks(w, w') && Work(w') < Work(w)
    ensures StaysIn(w, Run([w'], true), crossed, before, staged)
    ensures Final(w, Run([w'], true)) == w'
  {
  }

  lemma UnlinkStays<J>(w: World<J>, n: Name, before: Dir, staged: Dir)
    requires InTransaction(w, false, before, staged) && w.prepare.Some? && n in w.prepare.value
    ensures var w' := w.(prepare := Some(w.prepare.value - {n}));
            InTransaction(w', false, before, staged) && Work(w') < Work(w)
  {
  }

  lemma {:induction false} UnlinkAllDiscards<J>(w: World<J>, names: seq<Name>, before: Dir, staged: Dir)
    requires InTransaction(w, false, before, staged) && w.prepare.Some?
    requires Lists(names, w.prepare.value.Keys)
    ensures var run := UnlinkAll(w, names);
            run.ok && StaysIn(w, run, false, before, staged) && Final(w, run) == Outcome(w, false, before, staged)
    decreases names
  {
    if names == [] {
      assert w.prepare.value.Keys == {};
      StepStays(w, w.(prepare := None), false, before, staged);
    } else {
      var p := w.prepare.value;
      var w' := w.(prepare := Some(p - {names[0]}));
      assert names[0] in p.Keys && (p - {names[0]}).Keys == p.Keys - {names[0]};
      UnlinkStays(w, names[0], before, staged);
      StepStays(w, w', false, before, staged);
      ListsTail(names, p.Keys);
      UnlinkAllDiscards(w', names[1..], before, staged);
      ThenStays(w, Run([w'], true), UnlinkAll(w', names[1..]), false, before, staged);
    }
  }

  lemma WithoutRootRolls<J>(w: World<J>, n: Name, before: Dir, staged: Dir)
    requires InTransaction(w, true, before, staged) && w.commit.Some?
    requires n in w.commit.value && n in w.root
    ensures InTransaction(WithoutRoot(w, n), true, before, staged) && Work(WithoutRoot(w, n)) < Work(w)
  {
    var w1 := WithoutRoot(w, n);
    assert w1.root.Keys == w.root.Keys - {n};
    assert w1.commit.value.Keys * w1.root.Keys == (w.commit.value.Keys * w.root.Keys) - {n};
  }

  lemma PromotedRolls<J>(w: World<J>, n: Name, before: Dir, staged: Dir)
    requires InTransaction(w, true, before, staged) && w.commit.Some?
    requires n in w.commit.value && n !in w.root && n in before
    ensures InTransaction(Promoted(w, n), true, before, staged) && Work(Promoted(w, n)) < Work(w)
  {
    var w2 := Promoted(w, n);
    assert w2.commit.value.Keys == w.commit.value.Keys - {n};
    assert |w2.commit.value| == |w.commit.value| - 1 by {
      assert |w2.commit.value| == |w2.commit.value.Keys| && |w.commit.value| == |w.commit.value.Keys|;
    }
    assert w2.commit.value.Keys * w2.root.Keys == w.commit.value.Keys * w.root.Keys;
  }

  /** Every component that is present in the root is valid in every world of the transaction. */
  lemma RootStaysValid<J>(r: Rules, w: World<J>, crossed: bool, before: Dir, staged: Dir)
    requires Transaction(r, before, staged) && InTransaction(w, crossed, before, staged)
    ensures forall n :: n in w.root && n in r.Allowed() ==> r.ValidComponent(n, w.root[n])
  {
  }

  lemma ReplaceStates<J>(r: Rules, w: World<J>, n: Name)
    requires w.commit.Some? && n in w.commit.value
    requires n in w.root ==> r.ValidComponent(n, w.root[n])
    ensures var w1, w2 := WithoutRoot(w, n), Promoted(WithoutRoot(w, n), n);
            Replace(r, w, n) == if n in w.root then Then(Run([w1], true), Run([w2], true)) else Run([w2], true)
  {
  }

  lemma ReplaceRolls<J>(r: Rules, w: World<J>, n: Name, before: Dir, staged: Dir)
    requires Transaction(r, before, staged)
    requires InTransaction(w, true, before, staged) && w.commit.Some? && n in w.commit.value
    ensures var run := Replace(r, w, n);
            && run.ok && StaysIn(w, run, true, before, staged)
            && Final(w, run) == Promoted(WithoutRoot(w, n), n)
            && InTransaction(Final(w, run), true, before, staged)
            && Final(w, run).commit == Some(w.commit.value - {n})
            && Final(w, run).journal == w.journal
  {
    hide Work, PrepareShrinks;
    var w1 := WithoutRoot(w, n);
    var w2 := Promoted(w1, n);
    RootStaysValid(r, w, true, before, staged);
    ReplaceStates(r, w, n);
    assert n in before;
    if n in w.root {
      WithoutRootRolls(w, n, before, staged);
      PromotedRolls(w1, n, before, staged);
      StepStays(w, w1, true, before, staged);
      StepStays(w1, w2, true, before, staged);
      ThenStays(w, Run([w1], true), Run([w2], true), true, before, staged);
    } else {
      assert w1.root == w.root && w1 == w;
      PromotedRolls(w, n, before, staged);
      StepStays(w, w2, true, before, staged);
    }
  }

  lemma {:induction false} PromoteCompletes<J>(r: Rules, w: World<J>, names: seq<Name>, before: Dir, staged: Dir)
    requires Transaction(r, before, staged)
    requires InTransaction(w, true, before, staged) && w.commit.Some?
    requires Lists(names, w.commit.value.Keys)
    ensures var run := Promote(r, w, names);
            run.ok && StaysIn(w, run, true, before, staged) && Final(w, run) == Outcome(w, true, before, staged)
    decreases names
  {
    if names == [] {
      assert w.commit.value.Keys == {};
      assert w.root == before + staged;
      StepStays(w, w.(commit := None), true, before, staged);
    } else {
      var n := names[0];
      assert n in w.commit.value.Keys;
      ReplaceRolls(r, w, n, before, staged);
      var w2 := Final(w, Replace(r, w, n));
      assert w2.commit.value.Keys == w.commit.value.Keys - {n};
      ListsTail(names, w.commit.value.Keys);
      PromoteCompletes(r, w2, names[1..], before, staged);
      ThenStays(w, Replace(r, w, n), Promote(r, w2, names[1..]), true, before, staged);
    }
  }

  lemma CommitIsAccepted<J>(r: Rules, w: World<J>, before: Dir, staged: Dir)
    requires Transaction(r, before, staged)
    requires InTransaction(w, true, before, staged) && w.commit.Some?
    ensures CommitAccepted(r, w, r.Hashes(staged))
  {
  }

  /** Every prepared file is valid and has its journaled digest, if one was journaled. A torn
      file fails this, unless its prefix is itself valid and has the digest of the whole. */
  ghost predicate Undamaged(r: Rules, prepare: Option<Dir>, hashes: map<Name, Digest>) {
    prepare.Some? ==>
      forall n :: n in prepare.value ==>
        r.ValidComponent(n, prepare.value[n]) && (n in hashes ==> r.sha(prepare.value[n]) == hashes[n])
  }

  /** A complete prepare/ passes the check in front of the commit boundary. */
  lemma CompletePrepareIsAccepted<J>(r: Rules, w: World<J>, before: Dir, staged: Dir)
    requires Transaction(r, before, staged) && w.prepare == Some(staged)
    ensures PrepareAccepted(r, w, r.Hashes(staged)) && Undamaged(r, w.prepare, r.Hashes(staged))
  {
  }

  lemma RollForwardCompletes<J>(r: Rules, w: World<J>, before: Dir, staged: Dir)
    requires Transaction(r, before, staged)
    requires InTransaction(w, true, before, staged) && w.commit.Some?
    ensures var run := RollForward(r, w, r.Hashes(staged));
            run.ok && StaysIn(w, run, true, before, staged) && Final(w, run) == Outcome(w, true, before, staged)
  {
    CommitIsAccepted(r, w, before, staged);
    PromoteCompletes(r, w, r.Sorted(w.commit.value.Keys), before, staged);
  }

  lemma DiscardChecksDamage<J>(r: Rules, w: World<J>, before: Dir, staged: Dir, hashes: map<Name, Digest>)
    requires Transaction(r, before, staged) && hashes.Keys <= staged.Keys
    requires InTransaction(w, false, before, staged) && w.prepare.Some?
    ensures DiscardAccepted(r, w, staged.Keys, hashes) <==> Undamaged(r, w.prepare, hashes)
  {
  }

  /** Discarding prepare/ against any journaled part of the digests succeeds exactly when no
      prepared file is damaged. */
  lemma DiscardCompletes<J>(r: Rules, w: World<J>, before: Dir, staged: Dir, hashes: map<Name, Digest>)
    requires Transaction(r, before, staged) && hashes.Keys <= staged.Keys
    requires InTransaction(w, false, before, staged) && w.prepare.Some?
    ensures var run := Discard(r, w, staged.Keys, hashes);
            && (run.ok <==> Undamaged(r, w.prepare, hashes))
            && (run.ok ==> StaysIn(w, run, false, before, staged) && Final(w, run) == Outcome(w, false, before, staged))
            && (!run.ok ==> run.states == [])
  {
    DiscardChecksDamage(r, w, before, staged, hashes);
    if Undamaged(r, w.prepare, hashes) {
      UnlinkAllDiscards(w, r.Sorted(w.prepare.value.Keys), before, staged);
    }
  }

  /** One recovery, from any world of the transaction: it succeeds exactly when no prepared
      file is damaged; it then ends with all old or all new components and nothing pending;
      and if it refuses it has changed nothing. */
  lemma RecoverOutcome<J>(r: Rules, w: World<J>, crossed: bool, before: Dir, staged: Dir)
    requires Transaction(r, before, staged) && InTransaction(w, crossed, before, staged)
    ensures var run := Recover(r, w, r.Hashes(staged));
            && (run.ok <==> Undamaged(r, w.prepare, r.Hashes(staged)))
            && (run.ok ==> Final(w, run) == Outcome(w, crossed, before, staged))
            && StaysIn(w, run, crossed, before, staged)
            && (!run.ok ==> run.states == [])
            && (RecoverAction(w) == if w.NoTransaction() then Clean
                                    else if crossed then CommitRolledForward else PrepareDiscarded)
  {
    hide Work;
    if crossed {
      if w.commit.Some? {
        RollForwardCompletes(r, w, before, staged);
      }
      assert Recover(r, w, r.Hashes(staged)).states == if w.commit.Some? then RollForward(r, w, r.Hashes(staged)).states else [];
    } else if w.prepare.Some? {
      assert r.Hashes(staged).Keys == staged.Keys;
      DiscardCompletes(r, w, before, staged, r.Hashes(staged));
      assert Recover(r, w, r.Hashes(staged)).states == Discard(r, w, staged.Keys, r.Hashes(staged)).states;
    }
  }

  /** A crash at a step boundary, between whole files, can always be recovered: no staged component is torn. */
  lemma BoundaryRecovers<J>(r: Rules, w: World<J>, crossed: bool, before: Dir, staged: Dir)
    requires Transaction(r, before, staged) && InTransaction(w, crossed, before, staged)
    requires w.prepare.Some? ==> Untorn(w.prepare.value, staged)
    ensures var run := Recover(r, w, r.Hashes(staged));
            run.ok && Final(w, run) == Outcome(w, crossed, before, staged)
  {
    RecoverOutcome(r, w, crossed, before, staged);
  }

  /** The worlds after recovery was started and stopped any number of times: the i-th attempt is
      cut off after cuts[i] steps, or runs to its end if that is earlier. */
  function AfterAttempts<J>(r: Rules, w: World<J>, expected: map<Name, Digest>, cuts: seq<nat>): World<J>
    decreases cuts
  {
    if cuts == [] then w
    else
      var run := Recover(r, w, expected);
      var k := if cuts[0] < |run.states| then cuts[0] else |run.states|;
      AfterAttempts(r, StateAt(w, run, k), expected, cuts[1..])
  }

  /** A recovery can be cut off anywhere: what it leaves can be recovered. */
  lemma CutRecovery<J>(r: Rules, w: World<J>, crossed: bool, before: Dir, staged: Dir, k: nat)
    requires Transaction(r, before, staged)
    requires InTransaction(w, crossed, before, staged) && Undamaged(r, w.prepare, r.Hashes(staged))
    requires k <= |Recover(r, w, r.Hashes(staged)).states|
    ensures var w' := StateAt(w, Recover(r, w, r.Hashes(staged)), k);
            InTransaction(w', crossed, before, staged) && Undamaged(r, w'.prepare, r.Hashes(staged)) && w'.journal == w.journal
  {
    RecoverOutcome(r, w, crossed, before, staged);
    var run := Recover(r, w, r.Hashes(staged));
    if k > 0 {
      assert StepIn(w, StateAt(w, run, k - 1), StateAt(w, run, k), crossed, before, staged);
    }
  }

  lemma {:induction false} AttemptsStay<J>(r: Rules, w: World<J>, crossed: bool, before: Dir, staged: Dir, cuts: seq<nat>)
    requires Transaction(r, before, staged)
    requires InTransaction(w, crossed, before, staged) && Undamaged(r, w.prepare, r.Hashes(staged))
    ensures var w' := AfterAttempts(r, w, r.Hashes(staged), cuts);
            InTransaction(w', crossed, before, staged) && Undamaged(r, w'.prepare, r.Hashes(staged)) && w'.journal == w.journal
    decreases cuts
  {
    if cuts != [] {
      var run := Recover(r, w, r.Hashes(staged));
      var k := if cuts[0] < |run.states| then cuts[0] else |run.states|;
      CutRecovery(r, w, crossed, before, staged, k);
      AttemptsStay(r, StateAt(w, run, k), crossed, before, staged, cuts[1..]);
    }
  }

  lemma CrossStates<J>(r: Rules, w: World<J>, before: Dir, staged: Dir)
    requires Transaction(r, before, staged)
    requires w.root == before && w.prepare == Some(staged) && w.commit.None?
    ensures var w1 := w.(commit := w.prepare, prepare := None);
            && InTransaction(w1, true, before, staged)
            && Cross(r, w, r.Hashes(staged)) == Then(Run([w1], true), RollForward(r, w1, r.Hashes(staged)))
  {
    CompletePrepareIsAccepted(r, w, before, staged);
  }

  /** Crossing the boundary with a complete prepare/ ends with the new root, and every world on
      the way, from the rename on, is one of the transaction. */
  lemma CrossCompletes<J>(r: Rules, w: World<J>, before: Dir, staged: Dir)
    requires Transaction(r, before, staged)
    requires w.root == before && w.prepare == Some(staged) && w.commit.None?
    ensures var run := Cross(r, w, r.Hashes(staged));
            && run.ok && |run.states| > 0
            && Final(w, run) == Outcome(w, true, before, staged)
            && forall k :: 0 < k <= |run.states| ==> CrossedWorld(w, StateAt(w, run, k), before, staged)
  {
    CrossStates(r, w, before, staged);
    var w1 := w.(commit := w.prepare, prepare := None);
    RollForwardCompletes(r, w1, before, staged);
    var run, rest := Cross(r, w, r.Hashes(staged)), RollForward(r, w1, r.Hashes(staged));
    forall k | 0 < k <= |run.states|
      ensures CrossedWorld(w, StateAt(w, run, k), before, staged)
    {
      assert StateAt(w, run, k) == StateAt(w1, rest, k - 1);
      if k > 1 {
        assert StepIn(w1, StateAt(w1, rest, k - 2), StateAt(w1, rest, k - 1), true, before, staged);
      }
    }
    assert Final(w, run) == Final(w1, rest);
  }

  ghost predicate CrossedWorld<J>(w: World<J>, w': World<J>, before: Dir, staged: Dir) {
    w'.journal == w.journal && InTransaction(w', true, before, staged)
  }

  /** All or nothing. A complete transaction is stopped after any number of steps of crossing
      the commit boundary, then recovery is started and stopped any number of times, then
      recovery runs to its end. It does end normally. The root then holds the staged bytes for
      every staged name if the directory rename had happened, and otherwise the old root; every other name is
      untouched; neither transaction directory remains; and one more recovery does nothing. */
  lemma AllOrNothing<J>(r: Rules, w: World<J>, before: Dir, staged: Dir, stop: nat, cuts: seq<nat>)
    requires Transaction(r, before, staged)
    requires w.root == before && w.prepare == Some(staged) && w.commit.None?
    requires stop <= |Cross(r, w, r.Hashes(staged)).states|
    ensures var crashed := StateAt(w, Cross(r, w, r.Hashes(staged)), stop);
            var last := AfterAttempts(r, crashed, r.Hashes(staged), cuts);
            var run := Recover(r, last, r.Hashes(staged));
            && run.ok
            && Final(last, run) == World(if stop > 0 then before + staged else before, None, None, w.journal)
            && Recover(r, Final(last, run), r.Hashes(staged)) == Run([], true)
            && RecoverAction(Final(last, run)) == Clean
  {
    CrossCompletes(r, w, before, staged);
    CompletePrepareIsAccepted(r, w, before, staged);
    var crossed := stop > 0;
    var crashed := StateAt(w, Cross(r, w, r.Hashes(staged)), stop);
    assert stop > 0 ==> CrossedWorld(w, crashed, before, staged);
    AttemptsStay(r, crashed, crossed, before, staged, cuts);
    RecoverOutcome(r, AfterAttempts(r, crashed, r.Hashes(staged), cuts), crossed, before, staged);
  }

  /** At every world past the boundary, the new bytes of each staged name are in exactly one of
      commit/ and the root, with at most the old bytes beside them; prepare/ is gone. */
  lemma Conservation<J>(w: World<J>, before: Dir, staged: Dir, n: Name)
    requires InTransaction(w, true, before, staged) && staged.Keys <= before.Keys
    requires n in staged && staged[n] != before[n]
    ensures w.prepare.None?
    ensures (w.commit.Some? && n in w.commit.value && w.commit.value[n] == staged[n])
            <==> !(n in w.root && w.root[n] == staged[n])
    ensures n in w.root ==> w.root[n] == staged[n] || w.root[n] == before[n]
  {
  }
}
