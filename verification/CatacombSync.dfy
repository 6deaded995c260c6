/** The broker that persists one adaptive user update: export both components from the SEP, stage
    them, commit them, and journal every milestone. */
module CatacombSync {
  import opened Outcomes
  import opened HostWorld
  import opened CatacombStore
  import opened StoreOperations
  import opened SyncJournal

  /** What the SEP inventory reports on one connection. */
  datatype Live = Live(generation: string, sepHash: string, sepUuid: string, userDirty: bool, masterDirty: bool)

  /** The codec, the digests over structured values and the configuration. encode builds the
      component file of a name from the present file and an exported secure blob; agrees says whether any read-back
      in the life of the journal finds the SEP clean and everything in agreement. */
  datatype Env = Env(
    rules: Rules,
    formats: Formats,
    operationId: string,
    mapping: string,
    descriptors: string,
    encode: (Name, Bytes, Bytes) -> Result<Bytes>,
    identities: Bytes -> string,
    snapshot: seq<(Name, Digest)> -> string,
    blobSnapshot: seq<Digest> -> string,
    agrees: bool)
  {
    ghost predicate Sound() {
      && formats.sha256(mapping) && formats.sha256(descriptors)
      && (forall b :: formats.sha256(identities(b)))
      && (forall s :: formats.sha256(snapshot(s)))
      && (forall s :: formats.sha256(blobSnapshot(s)))
    }

    predicate LiveSound(live: Live) {
      formats.uuid(live.generation) && formats.sha256(live.sepHash)
    }

    function UserName(): Name {
      User(rules.uid)
    }

    /** The snapshot of the user and the master component. */
    function Snapshot(components: Dir): string
      requires {UserName(), Master} <= components.Keys
    {
      snapshot([(UserName(), rules.sha(components[UserName()])), (Master, rules.sha(components[Master]))])
    }

    function Milestone(milestone: string, e: Evidence): Record {
      Record(operationId, milestone, Dict(e), "")
    }

    function IntentEvidence(live: Live, components: Dir): Evidence
      requires {UserName(), Master} <= components.Keys
    {
      map[GENERATION := Text(live.generation), MAPPING := Text(mapping), DESCRIPTORS := Text(descriptors),
          INITIAL := Text(Snapshot(components)), INITIAL_SEP := Text(live.sepHash),
          IDENTITIES := Text(identities(components[UserName()]))]
    }

    function ProofEvidence(live: Live, finalSnapshot: string, identitySnapshot: string): Evidence {
      map[GENERATION := Text(live.generation), FINAL := Text(finalSnapshot), IDENTITIES := Text(identitySnapshot),
          FINAL_SEP := Text(live.sepHash), "sep_clean" := Flag(true), "local_live_equal" := Flag(true)]
    }

    function UnknownEvidence(stage: string, possible: bool): Evidence {
      map["stage" := Text(stage), "reason" := Text("sync-error"), "mutation_possible" := Flag(true),
          "host_commit_possible" := Flag(possible)]
    }
  }

  /** A command to the SEP with the length or the blob that it answers. A confirm is recorded with the durable host
      state behind it. */
  datatype Sent = Prepare(n: Name, length: nat) | Complete(n: Name, blob: Bytes) | Confirm(n: Name, host: World<Record>)

  /** How the SEP takes a command: an error may leave it executed. A preparation uses the length, a completion the
      blob. */
  datatype Reply = Reply(status: Status, executed: bool, length: nat, blob: Bytes)

  /** The second inventory shows no dirty component, and account, keybag and SEP identifiers agree. */
  predicate Agreed(observed: Live, agree: bool) {
    !observed.userDirty && !observed.masterDirty && agree
  }

  /** The completion after i has the name and the length of the preparation at i. */
  predicate Announced(sent: seq<Sent>, i: nat)
    requires i + 1 < |sent| && sent[i + 1].Complete?
  {
    sent[i] == Prepare(sent[i + 1].n, |sent[i + 1].blob|)
  }

  /** The command at i, if it is a confirm, was justified by durable host state. The early confirm of the user
      component: prepare/ holds exactly the encoding of the blob just exported, and the root is
      the old one. The final confirm of the master component: both encodings are in the root,
      no transaction is pending, and the journal says that the host has committed. */
  ghost predicate Justified(env: Env, before: Dir, sent: seq<Sent>, i: nat)
    requires i < |sent|
  {
    && (sent[i].Confirm? ==> {env.UserName(), Master} <= before.Keys)
    && (sent[i].Confirm? && sent[i].n == env.UserName() ==> EarlyJustified(env, before, sent, i))
    && (sent[i].Confirm? && sent[i].n != env.UserName() ==> FinalJustified(env, before, sent, i))
  }

  ghost predicate EarlyJustified(env: Env, before: Dir, sent: seq<Sent>, i: nat)
    requires i < |sent| && sent[i].Confirm? && {env.UserName(), Master} <= before.Keys
  {
    && i >= 2 && sent[i - 1].Complete? && sent[i - 1].n == env.UserName() && Announced(sent, i - 2)
    && var encoded := env.encode(env.UserName(), before[env.UserName()], sent[i - 1].blob);
    && encoded.Ok?
    && sent[i].host == World(before, Some(map[env.UserName() := encoded.value]), None, sent[i].host.journal)
  }

  ghost predicate FinalJustified(env: Env, before: Dir, sent: seq<Sent>, i: nat)
    requires i < |sent| && sent[i].Confirm? && {env.UserName(), Master} <= before.Keys
  {
    && i == 5 && sent[i].n == Master
    && sent[1].Complete? && sent[1].n == env.UserName() && Announced(sent, 0)
    && sent[2].Confirm? && sent[2].n == env.UserName()
    && sent[4].Complete? && sent[4].n == Master && Announced(sent, 3)
    && var user := env.encode(env.UserName(), before[env.UserName()], sent[1].blob);
    && var master := env.encode(Master, before[Master], sent[4].blob);
    && user.Ok? && master.Ok?
    && sent[i].host == World(before[env.UserName() := user.value][Master := master.value], None, None, sent[i].host.journal)
    && sent[i].host.journal != [] && Validate(env.formats, sent[i].host.journal).Ok?
    && Validate(env.formats, sent[i].host.journal).value.phase.AtHostCommitted?
  }

  ghost predicate AllJustified(env: Env, before: Dir, sent: seq<Sent>) {
    forall i :: 0 <= i < |sent| ==> Justified(env, before, sent, i)
  }

  /** The journal ends with an ambiguity whose flag rules out a host commit. */
  predicate RulesOutCommit(journal: seq<Record>) {
    && journal != []
    && var last := journal[|journal| - 1];
    && last.milestone == UNKNOWN && last.evidence.Dict?
    && "host_commit_possible" in last.evidence.fields
    && last.evidence.fields["host_commit_possible"] == Flag(false)
  }

  /** The journal of a world is readable and extends that of the world in which the attempt started, and an
      ambiguity that rules out a host commit is true. */
  ghost predicate Sane(env: Env, start: World<Record>, w: World<Record>) {
    && start.journal <= w.journal
    && (w.journal != [] ==> Validate(env.formats, w.journal).Ok?)
    && (SaysReconciled(w.journal) ==> env.agrees)
    && (RulesOutCommit(w.journal) ==> w.root == start.root && (w.journal == start.journal || IntentSince(start.journal, w.journal)))
  }

  predicate SaysReconciled(journal: seq<Record>) {
    exists i :: 0 <= i < |journal| && journal[i].milestone == RECONCILED
  }

  predicate IsIntent(record: Record) {
    record.milestone == INTENT || record.milestone == RECOVERY_INTENT
  }

  /** An intent was journaled after the earlier journal. */
  ghost predicate IntentSince(earlier: seq<Record>, journal: seq<Record>) {
    exists k :: |earlier| <= k < |journal| && IsIntent(journal[k])
  }

  lemma IntentStays(earlier: seq<Record>, journal: seq<Record>, record: Record)
    ensures IntentSince(earlier, journal) ==> IntentSince(earlier, journal + [record])
    ensures |earlier| <= |journal| && IsIntent(record) ==> IntentSince(earlier, journal + [record])
  {
    assert (journal + [record])[|journal|] == record;
    assert forall k :: 0 <= k < |journal| ==> (journal + [record])[k] == journal[k];
  }

  /** The history goes on from a past that ends where the attempt starts. */
  ghost predicate AllSane(env: Env, past: seq<World<Record>>, history: seq<World<Record>>) {
    && past != [] && past <= history
    && forall i :: |past| - 1 <= i < |history| ==> Sane(env, past[|past| - 1], history[i])
  }

  lemma ValidateAppended(f: Formats, records: seq<Record>, record: Record)
    requires records != []
    ensures Validate(f, records + [record]) == var h :- Validate(f, records); Next(f, h, record)
  {
  }

  /** A run that leaves the journal alone, in a world whose journal does not rule out a commit. */
  lemma RunSane(env: Env, past: seq<World<Record>>, h0: seq<World<Record>>, h: seq<World<Record>>, run: Run<Record>, s: Status)
    requires AllSane(env, past, h0)
    requires Follows(h0, h, run, s) && !RulesOutCommit(h0[|h0| - 1].journal)
    requires forall i :: 0 <= i < |run.states| ==> run.states[i].journal == h0[|h0| - 1].journal
    ensures AllSane(env, past, h) && h != [] && h[|h| - 1].journal == h0[|h0| - 1].journal
    ensures s.Done? ==> h[|h| - 1] == Final(h0[|h0| - 1], run)
  {
    hide Validate, RulesOutCommit;
    forall i | |past| - 1 <= i < |h|
      ensures Sane(env, past[|past| - 1], h[i]) && (i >= |h0| ==> h[i].journal == h0[|h0| - 1].journal)
    {
      assert h[i] == (h0 + run.states)[i];
    }
  }

  class Broker {
    const machine: Machine<Record>
    const store: Store<Record>
    const env: Env
    const sep: nat -> Reply
    var asked: nat
    var sent: seq<Sent>
    ghost const past: seq<World<Record>>  // the history when this attempt starts
    ghost const before: Dir               // and the root

    ghost predicate Valid()
      reads this, machine
    {
      && store.machine == machine && store.rules == env.rules
      && env.Sound()
      && machine.Valid() && past != [] && before == past[|past| - 1].root
      && AllSane(env, past, machine.history)
      && AllJustified(env, before, sent)
    }

    constructor (env: Env, machine: Machine<Record>, sep: nat -> Reply)
      requires env.Sound() && machine.Valid()
      requires machine.Now().journal != [] ==> Validate(env.formats, machine.Now().journal).Ok?
      requires SaysReconciled(machine.Now().journal) ==> env.agrees
      ensures this.machine == machine && this.env == env && before == machine.Now().root
      ensures past == machine.history && sent == [] && Valid() && this.sep == sep
    {
      this.machine, this.env, this.sep, asked, sent := machine, env, sep, 0, [];
      before, past := machine.Now().root, machine.history;
      store := new Store(env.rules, machine);
    }

    /** The SEP executes every command, and announces the length of the blob that it then hands over. */
    ghost predicate Cooperates() {
      forall i: nat :: sep(i).status.Done? && sep(i).length == |sep(i + 1).blob|
    }

    /** The old root was read and is complete and valid. */
    ghost predicate Ready() {
      env.rules.Allowed() <= before.Keys && forall n :: n in env.rules.Allowed() ==> env.rules.ValidComponent(n, before[n])
    }

    /** The attempt is past its intent, and the last record is not an ambiguity. */
    ghost predicate InPhase(phase: Phase)
      reads machine
    {
      && machine.Valid() && machine.Now().journal != []
      && Validate(env.formats, machine.Now().journal).Ok?
      && Validate(env.formats, machine.Now().journal).value.phase == phase
      && !RulesOutCommit(machine.Now().journal)
      && IntentSince(Opening(), machine.Now().journal)
    }

    /** The journal when this attempt starts. */
    ghost function Opening(): seq<Record> {
      if past == [] then [] else past[|past| - 1].journal
    }

    method Append(record: Record) returns (s: Status)
      requires Valid() && machine.Now().journal != []
      requires Validate(env.formats, machine.Now().journal).Ok?
      requires Next(env.formats, Validate(env.formats, machine.Now().journal).value, record).Ok?
      requires RulesOutCommit([record]) ==> machine.Now().root == before && IntentSince(Opening(), machine.Now().journal)
      requires record.milestone == RECONCILED ==> env.agrees
      modifies machine
      ensures Valid() && !s.Refused? && machine.Explains(s)
      ensures var w := old(machine.Now());
              && machine.Now() in {w, w.(journal := w.journal + [record])}
              && (s.Done? ==> machine.Now() == w.(journal := w.journal + [record]) && machine.Durable())
              && (machine.OnlySyncsFail() ==> machine.Now() == w.(journal := w.journal + [record]))
      ensures s.Done? || machine.Now() != old(machine.Now()) ==> (
              Validate(env.formats, machine.Now().journal) == Next(env.formats, Validate(env.formats, old(machine.Now()).journal).value, record))
      ensures IntentSince(Opening(), old(machine.Now()).journal) || (s.Done? && IsIntent(record)) ==> IntentSince(Opening(), machine.Now().journal)
    {
      hide Next, SyncJournal.Baseline, IntentSince, SaysReconciled;
      var w := machine.Now();
      if Validate(env.formats, w.journal).Err? {
        return Refused;
      }
      ValidateAppended(env.formats, w.journal, record);
      AppendedSane(w, record);
      IntentStays(Opening(), w.journal, record);
      :- machine.AppendRecord(record);
      if Validate(env.formats, machine.Now().journal).Err? {
        return Refused;
      }
      return Done;
    }

    lemma AppendedSane(w: World<Record>, record: Record)
      requires w.journal != [] && Validate(env.formats, w.journal).Ok? && past != [] && past[|past| - 1].journal <= w.journal
      requires Next(env.formats, Validate(env.formats, w.journal).value, record).Ok?
      requires RulesOutCommit([record]) ==> w.root == past[|past| - 1].root && IntentSince(Opening(), w.journal)
      requires (SaysReconciled(w.journal) ==> env.agrees) && (record.milestone == RECONCILED ==> env.agrees)
      ensures Sane(env, past[|past| - 1], w.(journal := w.journal + [record]))
      ensures RulesOutCommit(w.journal + [record]) == RulesOutCommit([record])
    {
      assert forall i :: 0 <= i < |w.journal| ==> (w.journal + [record])[i] == w.journal[i];
      IntentStays(Opening(), w.journal, record);
    }

    /** Send one command. Once it is handed over, an error does not mean that it was not executed. */
    method Exchange(command: Sent) returns (s: Status)
      requires Valid() && Justified(env, before, sent + [command], |sent|)
      requires command.Confirm? ==> machine.Durable() && command.host == machine.Now()
      modifies this`sent, this`asked
      ensures Valid() && asked == old(asked) + 1
      ensures sent == if sep(old(asked)).status.Done? || sep(old(asked)).executed then old(sent) + [command] else old(sent)
      ensures s == sep(old(asked)).status
    {
      var reply := sep(asked);
      asked := asked + 1;
      s := reply.status;
      if reply.status.Done? || reply.executed {
        ghost var s0 := sent;
        sent := sent + [command];
        forall i | 0 <= i < |sent|
          ensures Justified(env, before, sent, i)
        {
          if i < |s0| {
            JustifiedExtends(s0, command, i);
          }
        }
      }
    }

    lemma JustifiedExtends(s0: seq<Sent>, command: Sent, i: nat)
      requires i < |s0| && Justified(env, before, s0, i)
      ensures Justified(env, before, s0 + [command], i)
    {
    }

    /** The encoding of an exported blob, as a component file. */
    ghost function Encoded(n: Name, blob: Bytes): Result<Bytes> {
      if n in before then env.encode(n, before[n], blob) else Err
    }

    /** The blob that the SEP hands over, if it is asked from here on, has a valid encoding. */
    ghost predicate Exportable(n: Name, at: nat) {
      var encoded := Encoded(n, sep(at + 1).blob);
      encoded.Ok? && env.rules.ValidComponent(n, encoded.value)
    }

    /** How far the export of a component had come, by how often the SEP was asked since. */
    ghost function StageOf(n: Name, at: nat, now: nat): (stage: string)
      ensures stage != ""
    {
      if now == at + 1 then "prepare"
      else if !sep(at + 1).status.Done? || |sep(at + 1).blob| != sep(at).length then "complete"
      else if Encoded(n, sep(at + 1).blob).Err? then "encode"
      else "host-stage"
    }

    /** Where the export of both components had come to. */
    ghost function FailedAt(at: nat, now: nat): (stage: string)
      ensures stage != ""
    {
      if now <= at + 2 then StageOf(env.UserName(), at, now)
      else if now == at + 3 then "early-confirm"
      else StageOf(Master, at + 3, now)
    }

    /** Prepare and complete one component, encode the blob and write it into prepare/. The
        length that prepare announces must be that of the blob. */
    method ExportComponent(n: Name, prepared: Dir, expected: set<Name>) returns (s: Status, stage: string, digest: Digest, blob: Bytes)
      requires Valid() && Ready() && InPhase(AtIntent) && n in expected && !n.Foreign?
      requires machine.Now() == World(before, Some(prepared), None, machine.Now().journal)
      requires n in env.rules.Allowed() && n !in prepared && prepared.Keys <= expected <= env.rules.Allowed()
      modifies this`sent, this`asked, machine
      ensures Valid() && machine.Now().journal == old(machine.Now().journal) && machine.Now().root == before
      ensures stage == StageOf(n, old(asked), asked) && old(sent) <= sent
      ensures asked == old(asked) + if sep(old(asked)).status.Done? then 2 else 1
      ensures s.Done? ==> asked == old(asked) + 2 && blob == sep(old(asked) + 1).blob
      ensures machine.Flawless() && Cooperates() && Exportable(n, old(asked)) ==> s.Done?
      ensures s.Done? ==>
                && sent == old(sent) + [Prepare(n, |blob|), Complete(n, blob)]
                && Encoded(n, blob).Ok? && digest == env.rules.sha(Encoded(n, blob).value)
                && env.rules.ValidComponent(n, Encoded(n, blob).value)
                && machine.Durable()
                && machine.Now() == World(before, Some(prepared[n := Encoded(n, blob).value]), None, machine.Now().journal)
    {
      hide Validate, AllSane, AllJustified, IntentSince, RulesOutCommit, Machine.OnlySyncsFail, Machine.SyncMayFail, Machine.SyncMayWork;
      digest, blob := [], [];
      stage := "prepare";
      var expectedLength := sep(asked).length;
      s := Exchange(Prepare(n, expectedLength));
      if !s.Done? {
        return;
      }
      stage := "complete";
      blob := sep(asked).blob;
      s := Exchange(Complete(n, blob));
      if !s.Done? {
        return;
      }
      if |blob| != expectedLength {
        s := Refused;
        return;
      }
      stage := "encode";
      var encoded := env.encode(n, machine.Now().root[n], blob);
      if encoded.Err? {
        s := Refused;
        return;
      }
      stage := "host-stage";
      s, digest := StageEncoded(n, encoded.value, prepared, expected);
    }

    /** A component of the attempt that is not in prepare/ yet. */
    ghost predicate Placeable(n: Name, prepared: Dir, expected: set<Name>) {
      n in expected && expected <= env.rules.Allowed() && n !in prepared && prepared.Keys <= expected && RegularEntries(prepared)
    }

    method StageEncoded(n: Name, data: Bytes, ghost prepared: Dir, expected: set<Name>) returns (s: Status, digest: Digest)
      requires Valid() && InPhase(AtIntent)
      requires machine.Now() == World(before, Some(prepared), None, machine.Now().journal)
      modifies machine
      ensures Valid() && machine.Now().journal == old(machine.Now().journal) && machine.Now().root == before
      ensures s.Done? ==>
                && digest == env.rules.sha(data) && env.rules.ValidComponent(n, data) && machine.Durable()
                && machine.Now() == World(before, Some(prepared[n := data]), None, machine.Now().journal)
      ensures machine.Flawless() && env.rules.ValidComponent(n, data) && Placeable(n, prepared, expected) ==> s.Done?
    {
      hide Validate, AllJustified;
      ghost var start, w := |machine.history|, machine.Now();
      s, digest := store.StageComponent(n, data, expected);
      forall i | start <= i < |machine.history|
        ensures machine.history[i].root == before && machine.history[i].journal == w.journal
      {
        assert Written(w, n, data, machine.history[i]);
      }
    }

    /** What the two exported blobs become. */
    ghost function Staged(user: Bytes, master: Bytes): Dir
      requires Encoded(env.UserName(), user).Ok? && Encoded(Master, master).Ok?
    {
      map[env.UserName() := Encoded(env.UserName(), user).value, Master := Encoded(Master, master).value]
    }

    /** The export loop: the user component is confirmed as soon as it is durably staged. */
    method ExportAll() returns (s: Status, stage: string, staged: map<Name, Digest>, secureHashes: seq<Digest>,
                                ghost user: Bytes, ghost master: Bytes)
      requires Valid() && Ready() && InPhase(AtIntent) && sent == []
      requires machine.Now() == World(before, Some(map[]), None, machine.Now().journal)
      modifies this`sent, this`asked, machine
      ensures Valid() && machine.Now().journal == old(machine.Now().journal) && machine.Now().root == before
      ensures old(asked) < asked && (!s.Done? ==> stage == FailedAt(old(asked), asked))
      ensures machine.Flawless() && Cooperates() && Exportable(env.UserName(), old(asked)) && Exportable(Master, old(asked) + 3) ==> s.Done?
      ensures s.Done? ==>
                && user == sep(old(asked) + 1).blob && master == sep(old(asked) + 4).blob
                && secureHashes == [env.rules.sha(user), env.rules.sha(master)]
      ensures s.Done? ==>
                && Encoded(env.UserName(), user).Ok? && Encoded(Master, master).Ok?
                && Transaction(env.rules, before, Staged(user, master))
                && staged == env.rules.Hashes(Staged(user, master))
                && machine.Now() == World(before, Some(Staged(user, master)), None, machine.Now().journal)
                && |sent| == 5 && sent[0] == Prepare(env.UserName(), |user|) && sent[1] == Complete(env.UserName(), user)
                && sent[2].Confirm? && sent[2].n == env.UserName()
                && sent[3] == Prepare(Master, |master|) && sent[4] == Complete(Master, master)
    {
      hide Validate, RulesOutCommit, Env.Sound, AllSane, AllJustified, IntentSince, Exportable, Cooperates, Progress, StageOf, Machine.OnlySyncsFail, Machine.SyncMayFail, Machine.SyncMayWork;
      var names := [env.UserName(), Master];
      staged, secureHashes, stage, s := map[], [], "prepare", Done;
      user, master := [], [];
      NothingExported(machine.Now(), asked);
      for index := 0 to 2
        invariant Valid() && InPhase(AtIntent) && s.Done?
        invariant machine.Now().journal == old(machine.Now().journal) && machine.Now().root == before
        invariant asked == old(asked) + 3 * index - (if index == 2 then 1 else 0)
        invariant Progress(index, machine.Now(), sent, old(asked), staged, secureHashes, user, master)
      {
        s, stage, staged, secureHashes, user, master := ExportOne(names[index], index, staged, secureHashes, old(asked), user, master);
        if !s.Done? {
          return;
        }
      }
      BothExported(machine.Now(), sent, old(asked), staged, secureHashes, user, master);
    }

    /** One turn of the export loop: the component goes to prepare/, and the first one is confirmed. */
    method ExportOne(n: Name, index: nat, staged: map<Name, Digest>, secureHashes: seq<Digest>, ghost start: nat,
                     ghost user: Bytes, ghost master: Bytes)
      returns (s: Status, stage: string, staged': map<Name, Digest>, secureHashes': seq<Digest>, ghost user': Bytes, ghost master': Bytes)
      requires Valid() && Ready() && InPhase(AtIntent) && index < 2 && n == [env.UserName(), Master][index]
      requires Progress(index, machine.Now(), sent, start, staged, secureHashes, user, master) && asked == start + 3 * index
      modifies this`sent, this`asked, machine
      ensures Valid() && InPhase(AtIntent) && machine.Now().journal == old(machine.Now().journal) && machine.Now().root == before
      ensures stage == if asked == old(asked) + 3 then "early-confirm" else StageOf(n, old(asked), asked)
      ensures old(asked) < asked <= old(asked) + if index == 0 then 3 else 2
      ensures s.Done? ==> Progress(index + 1, machine.Now(), sent, start, staged', secureHashes', user', master')
      ensures s.Done? ==> asked == if index == 0 then start + 3 else start + 5
      ensures machine.Flawless() && Cooperates() && Exportable(n, old(asked)) ==> s.Done?
    {
      hide Validate, RulesOutCommit, Env.Sound, AllSane, AllJustified, IntentSince, Exportable, Cooperates, Justified, Progress, Ready, Machine.OnlySyncsFail, Machine.SyncMayFail, Machine.SyncMayWork;
      ProgressShape(index, machine.Now(), sent, start, staged, secureHashes, user, master);
      var digest: Digest;
      var blob: Bytes;
      staged', secureHashes', user', master' := staged, secureHashes, user, master;
      s, stage, digest, blob := ExportComponent(n, machine.Now().prepare.value, {env.UserName(), Master});
      if !s.Done? {
        return;
      }
      if index == 0 {
        user' := blob;
      } else {
        master' := blob;
      }
      staged', secureHashes' := staged[n := digest], secureHashes + [env.rules.sha(blob)];
      if index + 1 < 2 {
        stage := "early-confirm";
        ghost var w := machine.Now();
        s := EarlyConfirm(blob);
        if s.Done? {
          UserExported(w, sent, start, staged', secureHashes', blob, master);
        }
      } else {
        MasterExported(old(machine.Now()), machine.Now(), old(sent), sent, start, staged, secureHashes, user, blob);
      }
    }

    /** Where a turn of the loop starts. */
    lemma ProgressShape(index: nat, w: World<Record>, sent: seq<Sent>, start: nat, staged: map<Name, Digest>,
                        secureHashes: seq<Digest>, user: Bytes, master: Bytes)
      requires index < 2 && Progress(index, w, sent, start, staged, secureHashes, user, master)
      ensures w.prepare.Some? && w == World(before, w.prepare, None, w.journal) && |secureHashes| == index
      ensures w.prepare.value.Keys == if index == 0 then {} else {env.UserName()}
      ensures index == 0 ==> sent == [] && staged == map[] && w.prepare == Some(map[])
    {
    }

    lemma UserExported(w: World<Record>, sent: seq<Sent>, start: nat, staged: map<Name, Digest>, secureHashes: seq<Digest>,
                       user: Bytes, master: Bytes)
      requires user == sep(start + 1).blob && secureHashes == [env.rules.sha(user)]
      requires Encoded(env.UserName(), user).Ok? && env.rules.ValidComponent(env.UserName(), Encoded(env.UserName(), user).value)
      requires w == World(before, Some(map[env.UserName() := Encoded(env.UserName(), user).value]), None, w.journal)
      requires staged == map[env.UserName() := env.rules.sha(Encoded(env.UserName(), user).value)]
      requires |sent| == 3 && sent[0] == Prepare(env.UserName(), |user|) && sent[1] == Complete(env.UserName(), user)
      requires sent[2].Confirm? && sent[2].n == env.UserName()
      ensures Progress(1, w, sent, start, staged, secureHashes, user, master)
    {
    }

    lemma MasterExported(w: World<Record>, w': World<Record>, sent: seq<Sent>, sent': seq<Sent>, start: nat,
                         staged: map<Name, Digest>, secureHashes: seq<Digest>, user: Bytes, master: Bytes)
      requires exists m :: Progress(1, w, sent, start, staged, secureHashes, user, m)
      requires master == sep(start + 4).blob && Encoded(Master, master).Ok?
      requires env.rules.ValidComponent(Master, Encoded(Master, master).value) && w.prepare.Some?
      requires w' == World(before, Some(w.prepare.value[Master := Encoded(Master, master).value]), None, w'.journal)
      requires sent' == sent + [Prepare(Master, |master|), Complete(Master, master)]
      ensures Progress(2, w', sent', start, staged[Master := env.rules.sha(Encoded(Master, master).value)],
                       secureHashes + [env.rules.sha(master)], user, master)
    {
      var encoded := Encoded(env.UserName(), user).value;
      assert map[env.UserName() := encoded][Master := Encoded(Master, master).value] == Staged(user, master);
      assert staged[Master := env.rules.sha(Encoded(Master, master).value)] == env.rules.Hashes(Staged(user, master));
    }

    /** The user component is confirmed as soon as it is durably staged. */
    method EarlyConfirm(ghost blob: Bytes) returns (s: Status)
      requires Valid() && Ready() && machine.Durable() && Encoded(env.UserName(), blob).Ok?
      requires machine.Now() == World(before, Some(map[env.UserName() := Encoded(env.UserName(), blob).value]), None, machine.Now().journal)
      requires sent == [Prepare(env.UserName(), |blob|), Complete(env.UserName(), blob)]
      modifies this`sent, this`asked
      ensures Valid() && asked == old(asked) + 1 && (Cooperates() ==> s.Done?)
      ensures s.Done? ==> sent == old(sent) + [Confirm(env.UserName(), machine.Now())]
    {
      hide AllSane, AllJustified, Env.Sound;
      s := Exchange(Confirm(env.UserName(), machine.Now()));
    }

    /** What the first turns of the export loop have done. */
    ghost predicate Progress(index: nat, w: World<Record>, sent: seq<Sent>, start: nat, staged: map<Name, Digest>,
                             secureHashes: seq<Digest>, user: Bytes, master: Bytes)
    {
      && |secureHashes| == index && w.root == before && w.commit.None?
      && (index == 0 ==> sent == [] && staged == map[] && w.prepare == Some(map[]))
      && (index >= 1 ==>
            && user == sep(start + 1).blob && secureHashes[0] == env.rules.sha(user)
            && Encoded(env.UserName(), user).Ok? && env.rules.ValidComponent(env.UserName(), Encoded(env.UserName(), user).value)
            && |sent| >= 3 && sent[0] == Prepare(env.UserName(), |user|) && sent[1] == Complete(env.UserName(), user)
            && sent[2].Confirm? && sent[2].n == env.UserName())
      && (index == 1 ==>
            && |sent| == 3 && staged == map[env.UserName() := env.rules.sha(Encoded(env.UserName(), user).value)]
            && w.prepare == Some(map[env.UserName() := Encoded(env.UserName(), user).value]))
      && (index == 2 ==>
            && master == sep(start + 4).blob && secureHashes[1] == env.rules.sha(master)
            && Encoded(Master, master).Ok? && env.rules.ValidComponent(Master, Encoded(Master, master).value)
            && |sent| == 5 && sent[3] == Prepare(Master, |master|) && sent[4] == Complete(Master, master)
            && staged == env.rules.Hashes(Staged(user, master)) && w.prepare == Some(Staged(user, master)))
    }

    lemma NothingExported(w: World<Record>, start: nat)
      requires w == World(before, Some(map[]), None, w.journal)
      ensures Progress(0, w, [], start, map[], [], [], [])
    {
    }

    lemma BothExported(w: World<Record>, sent: seq<Sent>, start: nat, staged: map<Name, Digest>, secureHashes: seq<Digest>,
                       user: Bytes, master: Bytes)
      requires Ready() && Progress(2, w, sent, start, staged, secureHashes, user, master)
      ensures user == sep(start + 1).blob && master == sep(start + 4).blob
      ensures secureHashes == [env.rules.sha(user), env.rules.sha(master)]
      ensures Encoded(env.UserName(), user).Ok? && Encoded(Master, master).Ok?
      ensures Transaction(env.rules, before, Staged(user, master)) && staged == env.rules.Hashes(Staged(user, master))
      ensures w == World(before, Some(Staged(user, master)), None, w.journal)
      ensures |sent| == 5 && sent[0] == Prepare(env.UserName(), |user|) && sent[1] == Complete(env.UserName(), user)
      ensures sent[2].Confirm? && sent[2].n == env.UserName()
      ensures sent[3] == Prepare(Master, |master|) && sent[4] == Complete(Master, master)
    {
      assert env.UserName() in Staged(user, master);
    }

    /** Cross the boundary with both staged components. */
    method CommitStaged(staged: map<Name, Digest>, ghost user: Bytes, ghost master: Bytes) returns (s: Status)
      requires Valid() && Ready() && InPhase(AtIntent)
      requires Encoded(env.UserName(), user).Ok? && Encoded(Master, master).Ok?
      requires Transaction(env.rules, before, Staged(user, master)) && staged == env.rules.Hashes(Staged(user, master))
      requires machine.Now() == World(before, Some(Staged(user, master)), None, machine.Now().journal)
      modifies machine
      ensures Valid() && !s.Refused? && machine.Now().journal == old(machine.Now().journal)
      ensures s.Done? ==> machine.Durable()
      ensures machine.Flawless() ==> s.Done?
      ensures s.Done? ==> machine.Now() == World(before + Staged(user, master), None, None, machine.Now().journal)
    {
      hide Cross, Transaction, RulesOutCommit, Validate, AllJustified;
      ghost var h0, w := machine.history, machine.Now();
      s := store.CrossCommitBoundary(staged);
      CrossArrives(h0, machine.history, Staged(user, master), s);
    }

    lemma CrossArrives(h0: seq<World<Record>>, h: seq<World<Record>>, staged: Dir, s: Status)
      requires AllSane(env, past, h0) && Transaction(env.rules, before, staged)
      requires var w := h0[|h0| - 1];
               && w == World(before, Some(staged), None, w.journal) && !RulesOutCommit(w.journal)
               && Follows(h0, h, Cross(env.rules, w, env.rules.Hashes(staged)), s)
      ensures AllSane(env, past, h) && h != [] && !s.Refused? && |h| >= |h0|
      ensures h[|h| - 1].journal == h0[|h0| - 1].journal
      ensures s.Done? ==> h[|h| - 1] == World(before + staged, None, None, h0[|h0| - 1].journal)
    {
      hide Cross, Transaction, RulesOutCommit, Validate, InTransaction;
      var w := h0[|h0| - 1];
      var run := Cross(env.rules, w, env.rules.Hashes(staged));
      CrossCompletes(env.rules, w, before, staged);
      forall i | 0 <= i < |run.states|
        ensures run.states[i].journal == w.journal
      {
        assert CrossedWorld(w, StateAt(w, run, i + 1), before, staged);
      }
      RunSane(env, past, h0, h, run, s);
    }

    /** The intent in force was journaled on this connection for these identities. */
    ghost predicate IntendedHere(h: History, live: Live) {
      && h.intent.Some? && env.UserName() in before
      && {GENERATION, IDENTITIES} <= h.intent.value.Keys
      && h.intent.value[GENERATION] == Text(live.generation)
      && h.intent.value[IDENTITIES] == Text(env.identities(before[env.UserName()]))
    }

    function CommitEvidence(live: Live, finalSnapshot: string, secureHashes: seq<Digest>): Evidence {
      map[GENERATION := Text(live.generation), FINAL := Text(finalSnapshot), BLOBS := Text(env.blobSnapshot(secureHashes))]
    }

    lemma CommitNames(live: Live, finalSnapshot: string, secureHashes: seq<Digest>)
      ensures var e := CommitEvidence(live, finalSnapshot, secureHashes); FINAL in e && e[FINAL] == Text(finalSnapshot)
    {
    }

    lemma CommitIsAccepted(h: History, live: Live, finalSnapshot: string, secureHashes: seq<Digest>)
      requires env.Sound() && env.LiveSound(live) && IntendedHere(h, live) && h.phase.AtIntent?
      requires env.formats.sha256(finalSnapshot)
      ensures var e := CommitEvidence(live, finalSnapshot, secureHashes);
              Next(env.formats, h, env.Milestone(HOST_COMMITTED, e)) == Ok(h.(phase := AtHostCommitted, hostCommit := Some(e)))
    {
    }

    lemma ProofIsAccepted(h: History, live: Live, observed: Live, finalSnapshot: string)
      requires env.Sound() && env.LiveSound(observed) && IntendedHere(h, live) && h.phase.AtHostCommitted?
      requires observed.generation == live.generation && env.formats.sha256(finalSnapshot)
      requires h.hostCommit.Some? && FINAL in h.hostCommit.value && h.hostCommit.value[FINAL] == Text(finalSnapshot)
      ensures var e := env.ProofEvidence(observed, finalSnapshot, env.identities(before[env.UserName()]));
              Next(env.formats, h, env.Milestone(RECONCILED, e)) == Ok(h.(phase := AtReconciled))
    {
    }

    lemma UnknownIsAccepted(h: History, stage: string, possible: bool)
      requires stage != "" && h.phase in {AtIntent, AtHostCommitted}
      ensures var record := Ambiguity(stage, possible);
              && Next(env.formats, h, record) == Ok(h.(phase := AtUnknown))
              && (RulesOutCommit([record]) <==> !possible)
    {
    }

    ghost function Head(): History
      reads machine
      requires machine.Valid() && machine.Now().journal != [] && Validate(env.formats, machine.Now().journal).Ok?
    {
      Validate(env.formats, machine.Now().journal).value
    }

    /** Journal the host commit and send the final confirm. */
    method ConfirmCommit(live: Live, finalSnapshot: string, secureHashes: seq<Digest>, ghost user: Bytes, ghost master: Bytes)
      returns (s: Status, stage: string)
      requires Valid() && Ready() && InPhase(AtIntent) && env.LiveSound(live) && IntendedHere(Head(), live)
      requires Encoded(env.UserName(), user).Ok? && Encoded(Master, master).Ok?
      requires machine.Now() == World(before + Staged(user, master), None, None, machine.Now().journal)
      requires |sent| == 5 && sent[0] == Prepare(env.UserName(), |user|) && sent[1] == Complete(env.UserName(), user)
      requires sent[2].Confirm? && sent[2].n == env.UserName()
      requires sent[3] == Prepare(Master, |master|) && sent[4] == Complete(Master, master)
      requires env.formats.sha256(finalSnapshot)
      modifies this`sent, this`asked, machine
      ensures Valid() && (InPhase(AtIntent) || InPhase(AtHostCommitted))
      ensures stage == if asked == old(asked) then "host-commit" else "final-confirm"
      ensures asked == old(asked) || (asked == old(asked) + 1 && s == sep(old(asked)).status && machine.Now().journal != old(machine.Now()).journal)
      ensures s.Done? ==> asked == old(asked) + 1
      ensures machine.Now() == old(machine.Now()).(journal := machine.Now().journal)
      ensures s.Done? ==> InPhase(AtHostCommitted) && IntendedHere(Head(), live)
      ensures s.Done? ==> Head().hostCommit == Some(CommitEvidence(live, finalSnapshot, secureHashes))
      ensures var j, record := old(machine.Now()).journal, env.Milestone(HOST_COMMITTED, CommitEvidence(live, finalSnapshot, secureHashes));
              && machine.Now().journal in {j, j + [record]}
              && (s.Done? ==> |sent| == 6 && sent[..5] == old(sent) && machine.Now().journal == j + [record])
      ensures old(sent) <= sent
      ensures machine.Flawless() && Cooperates() ==> s.Done?
    {
      hide Next, IntentSince, AllSane, RulesOutCommit, AllJustified, CommitEvidence, Machine.OnlySyncsFail, Machine.SyncMayFail, Machine.SyncMayWork;
      stage := "host-commit";
      s := JournalCommit(live, finalSnapshot, secureHashes);
      if !s.Done? {
        return;
      }
      stage := "final-confirm";
      assert before + Staged(user, master)
          == before[env.UserName() := Encoded(env.UserName(), user).value][Master := Encoded(Master, master).value];
      s := Exchange(Confirm(Master, machine.Now()));
    }

    method JournalCommit(live: Live, finalSnapshot: string, secureHashes: seq<Digest>) returns (s: Status)
      requires Valid() && InPhase(AtIntent) && env.LiveSound(live) && IntendedHere(Head(), live) && env.formats.sha256(finalSnapshot)
      modifies machine
      ensures Valid() && !s.Refused? && (InPhase(AtIntent) || InPhase(AtHostCommitted)) && machine.Explains(s)
      ensures var w, record := old(machine.Now()), env.Milestone(HOST_COMMITTED, CommitEvidence(live, finalSnapshot, secureHashes));
              && machine.Now() in {w, w.(journal := w.journal + [record])}
              && (s.Done? ==> machine.Durable() && machine.Now() == w.(journal := w.journal + [record]))
      ensures s.Done? ==> InPhase(AtHostCommitted) && IntendedHere(Head(), live)
      ensures s.Done? ==> Head().hostCommit == Some(CommitEvidence(live, finalSnapshot, secureHashes))
    {
      hide Next, IntentSince, AllSane, RulesOutCommit, AllJustified, Machine.OnlySyncsFail, Machine.SyncMayFail, Machine.SyncMayWork;
      CommitIsAccepted(Head(), live, finalSnapshot, secureHashes);
      NotUnknown([env.Milestone(HOST_COMMITTED, CommitEvidence(live, finalSnapshot, secureHashes))]);
      s := Append(env.Milestone(HOST_COMMITTED, CommitEvidence(live, finalSnapshot, secureHashes)));
      NotUnknown(machine.Now().journal);
    }

    lemma TwoAmbiguities(j: seq<Record>, stage: string, other: string)
      ensures j + [Ambiguity(stage, false)] != j + [Ambiguity(other, true)]
    {
      assert Ambiguity(stage, false).evidence.fields["host_commit_possible"] != Ambiguity(other, true).evidence.fields["host_commit_possible"];
      assert (j + [Ambiguity(stage, false)])[|j|] == Ambiguity(stage, false);
    }

    lemma AmbiguityEnds(j: seq<Record>, k: seq<Record>, stage: string)
      ensures k == j + [Ambiguity(stage, false)] || k == j + [Ambiguity("host-commit", true)] ==> Ended(k)
    {
    }

    lemma NotUnknown(journal: seq<Record>)
      ensures journal != [] && journal[|journal| - 1].milestone != UNKNOWN ==> !RulesOutCommit(journal)
    {
    }

    /** The comparisons of the read-back. */
    ghost predicate Agrees(components: Dir, observed: Live, agree: bool, finalSnapshot: string, initial: Dir) {
      && {env.UserName(), BioLockout} <= initial.Keys && {env.UserName(), Master, BioLockout} <= components.Keys
      && Agreed(observed, agree)
      && env.identities(components[env.UserName()]) == env.identities(initial[env.UserName()])
      && env.Snapshot(components) == finalSnapshot
      && components[BioLockout] == initial[BioLockout]
    }

    /** What the read-back demands of the world and of the second inventory. */
    ghost predicate Reconciles(w: World<Record>, observed: Live, agree: bool, finalSnapshot: string, initial: Dir) {
      CommittedReadable(env.rules, w) && Agrees(w.root, observed, agree, finalSnapshot, initial)
    }

    method Compare(components: Dir, observed: Live, agree: bool, finalSnapshot: string, initial: Dir) returns (ok: bool)
      requires {env.UserName(), BioLockout} <= initial.Keys && {env.UserName(), Master, BioLockout} <= components.Keys
      ensures ok <==> Agrees(components, observed, agree, finalSnapshot, initial)
      ensures ok ==> Agreed(observed, agree)
    {
      if observed.userDirty || observed.masterDirty {
        return false;
      }
      if env.identities(components[env.UserName()]) != env.identities(initial[env.UserName()]) {
        return false;
      }
      if !agree {
        return false;
      }
      if env.Snapshot(components) != finalSnapshot {
        return false;
      }
      ok := components[BioLockout] == initial[BioLockout];
    }

    lemma SameComponents(w: World<Record>, components: Dir, observed: Live, agree: bool, finalSnapshot: string, initial: Dir)
      requires CommittedReadable(env.rules, w) && components == map n | n in env.rules.Allowed() :: w.root[n]
      ensures {env.UserName(), Master, BioLockout} <= components.Keys && {env.UserName(), Master, BioLockout} <= w.root.Keys
      ensures Agrees(components, observed, agree, finalSnapshot, initial) <==> Agrees(w.root, observed, agree, finalSnapshot, initial)
    {
    }

    function Proof(observed: Live, finalSnapshot: string, initial: Dir): Record
      requires env.UserName() in initial
    {
      env.Milestone(RECONCILED, env.ProofEvidence(observed, finalSnapshot, env.identities(initial[env.UserName()])))
    }

    /** Read back the components and the SEP inventory and journal the proof. agree stands for the
        comparisons of account, keybag and SEP identifiers. */
    method Prove(live: Live, observed: Live, agree: bool, finalSnapshot: string, initial: Dir) returns (s: Status)
      requires Valid() && Ready() && ReadFrom(initial) && InPhase(AtHostCommitted) && IntendedHere(Head(), live)
      requires env.LiveSound(observed) && observed.generation == live.generation && (Agreed(observed, agree) ==> env.agrees)
      requires env.formats.sha256(finalSnapshot)
      requires Head().hostCommit.Some? && FINAL in Head().hostCommit.value && Head().hostCommit.value[FINAL] == Text(finalSnapshot)
      modifies machine
      ensures Valid() && if machine.Now() == old(machine.Now()) then InPhase(AtHostCommitted) else InPhase(AtReconciled)
      ensures s.Done? ==> InPhase(AtReconciled) && Reconciles(old(machine.Now()), observed, agree, finalSnapshot, initial)
      ensures s.Refused? ==> machine.Now() == old(machine.Now()) && !Reconciles(old(machine.Now()), observed, agree, finalSnapshot, initial)
      ensures var w := old(machine.Now());
              var proved := w.(journal := w.journal + [Proof(observed, finalSnapshot, initial)]);
              && (s.Done? ==> machine.Now() == proved)
              && (machine.Now() == w || (machine.Now() == proved && Reconciles(w, observed, agree, finalSnapshot, initial)))
      ensures machine.Flawless() ==> s.Done? || s.Refused?
    {
      hide Next, Validate, Proof, Env.Sound, AllSane, AllJustified, IntentSince, RulesOutCommit, Agrees, CommittedReadable, Machine.OnlySyncsFail, Machine.SyncMayFail, Machine.SyncMayWork;
      var components: Dir;
      s, components := store.ReadCommittedComponents();
      if !s.Done? {
        return;
      }
      SameComponents(machine.Now(), components, observed, agree, finalSnapshot, initial);
      var agreed := Compare(components, observed, agree, finalSnapshot, initial);
      if !agreed {
        return Refused;
      }
      s := JournalProof(live, observed, finalSnapshot, initial);
    }

    method JournalProof(live: Live, observed: Live, finalSnapshot: string, initial: Dir) returns (s: Status)
      requires Valid() && env.agrees && env.UserName() in initial && env.UserName() in before
      requires initial[env.UserName()] == before[env.UserName()]
      requires InPhase(AtHostCommitted) && IntendedHere(Head(), live)
      requires env.LiveSound(observed) && observed.generation == live.generation && env.formats.sha256(finalSnapshot)
      requires Head().hostCommit.Some? && FINAL in Head().hostCommit.value && Head().hostCommit.value[FINAL] == Text(finalSnapshot)
      modifies machine
      ensures Valid() && !s.Refused? && machine.Explains(s)
      ensures if machine.Now() == old(machine.Now()) then InPhase(AtHostCommitted) else InPhase(AtReconciled)
      ensures var w := old(machine.Now());
              var proved := w.(journal := w.journal + [Proof(observed, finalSnapshot, initial)]);
              machine.Now() in {w, proved} && (s.Done? ==> machine.Now() == proved)
    {
      hide Next, AllSane, AllJustified, IntentSince, RulesOutCommit, Machine.OnlySyncsFail, Machine.SyncMayFail, Machine.SyncMayWork;
      ProofIsAccepted(Head(), live, observed, finalSnapshot);
      var record := env.Milestone(RECONCILED, env.ProofEvidence(observed, finalSnapshot, env.identities(initial[env.UserName()])));
      NotUnknown([record]);
      s := Append(record);
      NotUnknown(machine.Now().journal);
    }

    function Ambiguity(stage: string, possible: bool): (record: Record)
      ensures record.milestone == UNKNOWN
    {
      env.Milestone(UNKNOWN, env.UnknownEvidence(stage, possible))
    }

    /** The journal is not left open. */
    predicate Ended(journal: seq<Record>) {
      journal != [] && journal[|journal| - 1].milestone in {UNKNOWN, ABORTED, RECONCILED}
    }

    /** The handler of every exception after the intent: journal the ambiguity unless the journal
        already has a verdict, ignore a failure to do so, raise again. */
    method NoteUnknown(stage: string, possible: bool, s: Status) returns (r: Status)
      requires Valid() && stage != "" && !s.Done?
      requires InPhase(AtIntent) || InPhase(AtHostCommitted) || InPhase(AtReconciled)
      requires !possible ==> machine.Now().root == before
      modifies machine
      ensures Valid() && !r.Done? && (r == s || r.Cut?)
      ensures var w := old(machine.Now());
              var noted := w.(journal := w.journal + [Ambiguity(stage, possible)]);
              && (machine.Now() == w || machine.Now() == noted) && (s.Cut? ==> machine.Now() == w)
              && (machine.OnlySyncsFail() && !s.Cut? ==> r == s && machine.Now() == if old(InPhase(AtReconciled)) then w else noted)
    {
      hide Next;
      if s.Cut? {
        return Cut;
      }
      r := Done;
      if Validate(env.formats, machine.Now().journal).value.phase in {AtIntent, AtHostCommitted} {
        UnknownIsAccepted(Head(), stage, possible);
        r := Append(Ambiguity(stage, possible));
      }
      r := if r.Cut? then Cut else s;
    }

    /** Create prepare/. If that fails nothing was sent: a first attempt is aborted, a recovery
        stays ambiguous. */
    method BeginAttempt(recovering: bool) returns (s: Status)
      requires Valid() && Ready() && InPhase(AtIntent)
      requires machine.Now() == World(before, None, None, machine.Now().journal)
      modifies machine
      ensures Valid()
      ensures s.Done? ==> machine.Now() == World(before, Some(map[]), None, old(machine.Now()).journal)
      ensures machine.Flawless() ==> s.Done?
      ensures !s.Done? ==> (
              var j, noted := old(machine.Now()).journal, old(machine.Now()).journal + [NoAttempt(recovering)];
              machine.Now().journal in {j, noted} && (machine.OnlySyncsFail() ==> machine.Now().journal == noted))
    {
      hide Next, Validate, AllSane, IntentSince, RulesOutCommit, Machine.OnlySyncsFail, Machine.SyncMayFail, AbortEvidence, NoAttempt, AllJustified;
      ghost var h0, w := machine.history, machine.Now();
      var names := {env.UserName(), Master};
      ghost var run := Run([w.(prepare := Some(map[]))], true);
      assert Begin(env.rules, w, names) == run;
      s := store.BeginStage(names);
      RunSane(env, past, h0, machine.history, run, s);
      if !s.Done? {
        s := NoteNoAttempt(recovering, s);
      }
    }

    /** Nothing was sent: journal that, and raise again. */
    method NoteNoAttempt(recovering: bool, s: Status) returns (r: Status)
      requires Valid() && InPhase(AtIntent) && machine.Now().root == before && !s.Done?
      modifies machine
      ensures Valid() && (r == s || r.Cut?)
      ensures var j, noted := old(machine.Now()).journal, old(machine.Now()).journal + [NoAttempt(recovering)];
              && machine.Now().journal in {j, noted} && (s.Cut? ==> machine.Now().journal == j)
              && (machine.OnlySyncsFail() && !s.Cut? ==> r == s && machine.Now().journal == noted)
    {
      hide Next, IntentSince, AllSane, AllJustified, Validate;
      if s.Cut? {
        return s;
      }
      UnknownIsAccepted(Head(), "recovery-host-store", false);
      AbortIsAccepted(Head());
      if recovering {
        r := Append(env.Milestone(UNKNOWN, env.UnknownEvidence("recovery-host-store", false)));
      } else {
        r := Append(env.Milestone(ABORTED, AbortEvidence()));
      }
      r := if r.Cut? then Cut else s;
    }

    function NoAttempt(recovering: bool): Record {
      if recovering then env.Milestone(UNKNOWN, env.UnknownEvidence("recovery-host-store", false))
      else env.Milestone(ABORTED, AbortEvidence())
    }

    function AbortEvidence(): Evidence {
      map["reason" := Text("host-store-unavailable"), "mutation_possible" := Flag(false)]
    }

    lemma AbortIsAccepted(h: History)
      requires h.phase.AtIntent?
      ensures Next(env.formats, h, env.Milestone(ABORTED, AbortEvidence())).Ok?
    {
    }

    /** The SEP lets itself be asked for both components from here on. */
    ghost predicate Exports(at: nat) {
      Cooperates() && Exportable(env.UserName(), at) && Exportable(Master, at + 3)
    }

    /** The user component that the SEP hands over has the identities of the old one. */
    ghost predicate SameIdentities(at: nat)
      requires env.UserName() in before
    {
      var encoded := Encoded(env.UserName(), sep(at + 1).blob);
      encoded.Ok? && env.identities(encoded.value) == env.identities(before[env.UserName()])
    }

    /** What a complete attempt journals after its intent. */
    ghost function Completion(live: Live, observed: Live, root: Dir, initial: Dir, user: Bytes, master: Bytes): seq<Record>
      requires {env.UserName(), Master} <= root.Keys && env.UserName() in initial
    {
      var final := env.Snapshot(root);
      [env.Milestone(HOST_COMMITTED, CommitEvidence(live, final, [env.rules.sha(user), env.rules.sha(master)])), Proof(observed, final, initial)]
    }

    /** From the intent on: create prepare/, export, commit, confirm, prove. */
    method Persist(live: Live, observed: Live, agree: bool, recovering: bool, initial: Dir) returns (s: Status)
      requires Valid() && Ready() && ReadFrom(initial) && InPhase(AtIntent) && IntendedHere(Head(), live) && sent == []
      requires env.LiveSound(live) && env.LiveSound(observed) && observed.generation == live.generation
      requires machine.Now() == World(before, None, None, machine.Now().journal) && (Agreed(observed, agree) ==> env.agrees)
      modifies this`sent, this`asked, machine
      ensures Valid()
      ensures s.Done? ==> InPhase(AtReconciled) && machine.Now().NoTransaction()
      ensures s.Done? ==> Agreed(observed, agree) && Completed(live, observed, initial, old(machine.Now()).journal)
      ensures !Agreed(observed, agree) && SaysReconciled(machine.Now().journal) ==> SaysReconciled(old(machine.Now()).journal)
      ensures machine.OnlySyncsFail() && !s.Cut? ==> Ended(machine.Now().journal)
      ensures machine.Flawless() && Exports(old(asked)) && SameIdentities(old(asked)) && Agreed(observed, agree) ==> s.Done?
    {
      hide AllSane, AllJustified, IntentSince, RulesOutCommit, Validate, SaysReconciled, Exportable, Cooperates, Machine.OnlySyncsFail, Machine.SyncMayFail, Machine.SyncMayWork;
      ghost var j := machine.Now().journal;
      s := BeginAttempt(recovering);
      if !s.Done? {
        OneMore(j, machine.Now().journal);
        return;
      }
      s := Deliver(live, observed, agree, initial);
    }

    /** Export, commit, and go on past the boundary. */
    method Deliver(live: Live, observed: Live, agree: bool, initial: Dir) returns (s: Status)
      requires Valid() && Ready() && ReadFrom(initial) && InPhase(AtIntent) && IntendedHere(Head(), live) && sent == []
      requires env.LiveSound(live) && env.LiveSound(observed) && observed.generation == live.generation
      requires machine.Now() == World(before, Some(map[]), None, machine.Now().journal) && (Agreed(observed, agree) ==> env.agrees)
      modifies this`sent, this`asked, machine
      ensures Valid()
      ensures s.Done? ==> InPhase(AtReconciled) && machine.Now().NoTransaction()
      ensures s.Done? ==> Agreed(observed, agree) && Completed(live, observed, initial, old(machine.Now()).journal)
      ensures !Agreed(observed, agree) && SaysReconciled(machine.Now().journal) ==> SaysReconciled(old(machine.Now()).journal)
      ensures machine.OnlySyncsFail() && !s.Cut? ==> Ended(machine.Now().journal)
      ensures machine.Flawless() && Exports(old(asked)) && SameIdentities(old(asked)) && Agreed(observed, agree) ==> s.Done?
    {
      hide AllSane, AllJustified, IntentSince, RulesOutCommit, Validate, SaysReconciled, Exportable, Cooperates, Completed, Reconciles,
           Transaction, Ready, Failures, FailedAt, Ambiguity, Ended, Machine.OnlySyncsFail, Machine.SyncMayFail, Machine.SyncMayWork;
      var staged: map<Name, Digest>;
      var secureHashes: seq<Digest>;
      ghost var user, master;
      ghost var j := machine.Now().journal;
      s, staged, secureHashes, user, master := ExportAndCommit();
      if !s.Done? {
        AmbiguityEnds(j, machine.Now().journal, FailedAt(old(asked), asked));
        return;
      }
      ghost var at := asked;
      var finalSnapshot := env.snapshot([(env.UserName(), staged[env.UserName()]), (Master, staged[Master])]);
      WillReconcile(machine.Now(), user, master, observed, agree, initial);
      s := Conclude(live, observed, agree, finalSnapshot, secureHashes, initial, user, master);
      FailuresEnd(j, live, observed, finalSnapshot, secureHashes, initial, at, asked);
      if s.Done? {
        CompletionEnds(live, observed, initial, j);
      }
    }

    /** Export both components and cross the boundary with them, or journal the ambiguity. */
    method ExportAndCommit() returns (s: Status, staged: map<Name, Digest>, secureHashes: seq<Digest>, ghost user: Bytes, ghost master: Bytes)
      requires Valid() && Ready() && InPhase(AtIntent) && sent == []
      requires machine.Now() == World(before, Some(map[]), None, machine.Now().journal)
      modifies this`sent, this`asked, machine
      ensures Valid()
      ensures s.Done? ==>
                && InPhase(AtIntent) && machine.Durable() && machine.Now().journal == old(machine.Now()).journal
                && Encoded(env.UserName(), user).Ok? && Encoded(Master, master).Ok?
                && Transaction(env.rules, before, Staged(user, master)) && staged == env.rules.Hashes(Staged(user, master))
                && machine.Now() == World(before + Staged(user, master), None, None, machine.Now().journal)
                && user == sep(old(asked) + 1).blob && secureHashes == [env.rules.sha(user), env.rules.sha(master)]
                && |sent| == 5 && sent[0] == Prepare(env.UserName(), |user|) && sent[1] == Complete(env.UserName(), user)
                && sent[2].Confirm? && sent[2].n == env.UserName()
                && sent[3] == Prepare(Master, |master|) && sent[4] == Complete(Master, master)
      ensures !s.Done? && SaysReconciled(machine.Now().journal) ==> SaysReconciled(old(machine.Now()).journal)
      ensures !s.Done? ==> (
              var j := old(machine.Now()).journal;
              && machine.Now().journal in {j, j + [Ambiguity(FailedAt(old(asked), asked), false)], j + [Ambiguity("host-commit", true)]}
              && (machine.Now().journal == j + [Ambiguity("host-commit", true)] ==> |sent| == 5)
              && (machine.OnlySyncsFail() && !s.Cut? ==> machine.Now().journal != j))
      ensures machine.Flawless() && Exports(old(asked)) ==> s.Done?
    {
      hide AllSane, AllJustified, IntentSince, RulesOutCommit, Validate, SaysReconciled, Exportable, Cooperates, Transaction, Ready, Ambiguity, FailedAt, Machine.OnlySyncsFail, Machine.SyncMayFail, Machine.SyncMayWork;
      ghost var j := machine.Now().journal;
      var stage: string;
      s, stage, staged, secureHashes, user, master := ExportAll();
      if !s.Done? {
        s := NoteUnknown(stage, false, s);
        OneMore(j, machine.Now().journal);
        TwoAmbiguities(j, stage, "host-commit");
        return;
      }
      s := CommitStaged(staged, user, master);
      if !s.Done? {
        s := NoteUnknown("host-commit", true, s);
        OneMore(j, machine.Now().journal);
      }
    }

    /** A committed export of the same identities passes every comparison of the read-back that is not from outside. */
    lemma WillReconcile(w: World<Record>, user: Bytes, master: Bytes, observed: Live, agree: bool, initial: Dir)
      requires Ready() && ReadFrom(initial) && Encoded(env.UserName(), user).Ok? && Encoded(Master, master).Ok?
      requires Transaction(env.rules, before, Staged(user, master)) && w == World(before + Staged(user, master), None, None, w.journal)
      ensures {env.UserName(), Master} <= w.root.Keys
      ensures env.identities(Encoded(env.UserName(), user).value) == env.identities(before[env.UserName()]) && Agreed(observed, agree)
              ==> forall j :: Reconciles(w.(journal := j), observed, agree, env.Snapshot(w.root), initial)
    {
    }

    /** The journal with the host commit. */
    function Committed(j: seq<Record>, live: Live, final: string, secureHashes: seq<Digest>): (r: seq<Record>)
      ensures j <= r && |r| == |j| + 1 && r[|j|].milestone == HOST_COMMITTED
    {
      j + [env.Milestone(HOST_COMMITTED, CommitEvidence(live, final, secureHashes))]
    }

    /** Journal the host commit and send the final confirm, or journal the ambiguity. */
    method ConfirmOrNote(live: Live, finalSnapshot: string, secureHashes: seq<Digest>, ghost user: Bytes, ghost master: Bytes)
      returns (s: Status)
      requires Valid() && Ready() && InPhase(AtIntent) && env.LiveSound(live) && IntendedHere(Head(), live)
      requires Encoded(env.UserName(), user).Ok? && Encoded(Master, master).Ok? && machine.Durable()
      requires machine.Now() == World(before + Staged(user, master), None, None, machine.Now().journal)
      requires |sent| == 5 && sent[0] == Prepare(env.UserName(), |user|) && sent[1] == Complete(env.UserName(), user)
      requires sent[2].Confirm? && sent[2].n == env.UserName()
      requires sent[3] == Prepare(Master, |master|) && sent[4] == Complete(Master, master)
      requires env.formats.sha256(finalSnapshot)
      modifies this`sent, this`asked, machine
      ensures Valid() && machine.Now() == old(machine.Now()).(journal := machine.Now().journal)
      ensures s.Done? ==> InPhase(AtHostCommitted) && IntendedHere(Head(), live)
      ensures s.Done? ==> Head().hostCommit.Some? && FINAL in Head().hostCommit.value && Head().hostCommit.value[FINAL] == Text(finalSnapshot)
      ensures s.Done? ==> |sent| == 6 && sent[..5] == old(sent) && asked == old(asked) + 1 && sep(old(asked)).status.Done?
      ensures s.Done? ==> machine.Now().journal == Committed(old(machine.Now()).journal, live, finalSnapshot, secureHashes)
      ensures !s.Done? && SaysReconciled(machine.Now().journal) ==> SaysReconciled(old(machine.Now()).journal)
      ensures machine.OnlySyncsFail() && !s.Done? && !s.Cut? ==> (
              var j, k := old(machine.Now()).journal, Committed(old(machine.Now()).journal, live, finalSnapshot, secureHashes);
              if asked == old(asked) then machine.Now().journal in {j + [Ambiguity("host-commit", true)], k + [Ambiguity("host-commit", true)]}
              else !sep(old(asked)).status.Done? && machine.Now().journal == k + [Ambiguity("final-confirm", true)])
      ensures machine.Flawless() && Cooperates() ==> s.Done?
    {
      hide AllSane, AllJustified, IntentSince, RulesOutCommit, Validate, SaysReconciled, Exportable, Cooperates, Ambiguity,
           CommitEvidence, Encoded, Staged, Ready, Machine.OnlySyncsFail, Machine.SyncMayFail, Machine.SyncMayWork;
      ghost var j := machine.Now().journal;
      var stage;
      s, stage := ConfirmCommit(live, finalSnapshot, secureHashes, user, master);
      ghost var k := machine.Now().journal;
      OneMore(j, k);
      CommitNames(live, finalSnapshot, secureHashes);
      if !s.Done? {
        s := NoteUnknown(stage, true, s);
        OneMore(k, machine.Now().journal);
      }
    }

    lemma FailuresEnd(j: seq<Record>, live: Live, observed: Live, final: string, secureHashes: seq<Digest>, initial: Dir, at: nat, now: nat)
      requires env.UserName() in initial
      ensures forall k :: k in Failures(j, live, observed, final, secureHashes, initial, at, now) ==> Ended(k)
    {
    }

    lemma CompletionEnds(live: Live, observed: Live, initial: Dir, journal: seq<Record>)
      requires Completed(live, observed, initial, journal)
      ensures Ended(machine.Now().journal)
    {
    }

    /** Past the boundary: journal the commit, confirm, read back and journal the proof. */
    method Conclude(live: Live, observed: Live, agree: bool, finalSnapshot: string, secureHashes: seq<Digest>, initial: Dir,
                    ghost user: Bytes, ghost master: Bytes) returns (s: Status)
      requires Valid() && Ready() && ReadFrom(initial) && InPhase(AtIntent) && IntendedHere(Head(), live)
      requires env.LiveSound(live) && env.LiveSound(observed) && observed.generation == live.generation
      requires (Agreed(observed, agree) ==> env.agrees) && machine.Durable()
      requires Encoded(env.UserName(), user).Ok? && Encoded(Master, master).Ok?
      requires machine.Now() == World(before + Staged(user, master), None, None, machine.Now().journal)
      requires env.UserName() in before && finalSnapshot == env.Snapshot(before + Staged(user, master))
      requires secureHashes == [env.rules.sha(user), env.rules.sha(master)]
      requires |sent| == 5 && sent[0] == Prepare(env.UserName(), |user|) && sent[1] == Complete(env.UserName(), user)
      requires sent[2].Confirm? && sent[2].n == env.UserName()
      requires sent[3] == Prepare(Master, |master|) && sent[4] == Complete(Master, master)
      modifies this`sent, this`asked, machine
      ensures Valid()
      ensures s.Done? ==> InPhase(AtReconciled) && machine.Now().NoTransaction()
      ensures s.Done? ==> Agreed(observed, agree) && Completed(live, observed, initial, old(machine.Now()).journal)
      ensures !Agreed(observed, agree) && SaysReconciled(machine.Now().journal) ==> SaysReconciled(old(machine.Now()).journal)
      ensures machine.OnlySyncsFail() && !s.Done? && !s.Cut? ==>
                machine.Now().journal in Failures(old(machine.Now()).journal, live, observed, finalSnapshot, secureHashes, initial, old(asked), asked)
      ensures var root := before + Staged(user, master);
              machine.Flawless() && Cooperates() ==> (
                Reconciles(World(root, None, None, machine.Now().journal), observed, agree, finalSnapshot, initial) ==> s.Done?)
    {
      hide AllSane, AllJustified, IntentSince, RulesOutCommit, Validate, SaysReconciled, Exportable, Cooperates, Agrees, CommittedReadable,
           Ambiguity, StageOf, CommitEvidence, Completion, Proof, Reconciles, Encoded, Staged, Ready, Machine.OnlySyncsFail, Machine.SyncMayFail, Machine.SyncMayWork;
      ghost var j, k := machine.Now().journal, Committed(machine.Now().journal, live, finalSnapshot, secureHashes);
      s := ConfirmOrNote(live, finalSnapshot, secureHashes, user, master);
      OneMore(j, k);
      if !s.Done? {
        return;
      }
      Reconciled(machine.Now(), observed, agree, finalSnapshot, initial);
      s := ReadBack(live, observed, agree, finalSnapshot, initial);
      if s.Done? {
        IsCompletion(j, live, observed, machine.Now().root, initial, user, master);
      }
    }

    /** The journals that a failure past the boundary leaves: only a synchronisation of the last record may have failed. */
    ghost function Failures(j: seq<Record>, live: Live, observed: Live, final: string, secureHashes: seq<Digest>, initial: Dir,
                            at: nat, now: nat): set<seq<Record>>
      requires env.UserName() in initial
    {
      var committed := Committed(j, live, final, secureHashes);
      if now == at then {j + [Ambiguity("host-commit", true)], committed + [Ambiguity("host-commit", true)]}
      else if !sep(at).status.Done? then {committed + [Ambiguity("final-confirm", true)]}
      else {committed + [Ambiguity("readback", true)], committed + [Proof(observed, final, initial)]}
    }

    /** The proof, or the ambiguity. */
    method ReadBack(live: Live, observed: Live, agree: bool, finalSnapshot: string, initial: Dir) returns (s: Status)
      requires Valid() && Ready() && ReadFrom(initial) && InPhase(AtHostCommitted) && IntendedHere(Head(), live)
      requires env.LiveSound(observed) && observed.generation == live.generation && (Agreed(observed, agree) ==> env.agrees)
      requires env.formats.sha256(finalSnapshot)
      requires Head().hostCommit.Some? && FINAL in Head().hostCommit.value && Head().hostCommit.value[FINAL] == Text(finalSnapshot)
      modifies machine
      ensures Valid()
      ensures s.Done? ==> InPhase(AtReconciled) && Reconciles(old(machine.Now()), observed, agree, finalSnapshot, initial)
      ensures var w := old(machine.Now());
              s.Done? ==> machine.Now() == w.(journal := w.journal + [Proof(observed, finalSnapshot, initial)])
      ensures s.Refused? ==> !Reconciles(old(machine.Now()), observed, agree, finalSnapshot, initial)
      ensures machine.OnlySyncsFail() && !s.Done? && !s.Cut? ==>
                machine.Now().journal in {old(machine.Now()).journal + [Ambiguity("readback", true)], old(machine.Now()).journal + [Proof(observed, finalSnapshot, initial)]}
      ensures !Agreed(observed, agree) && SaysReconciled(machine.Now().journal) ==> SaysReconciled(old(machine.Now()).journal)
      ensures machine.Flawless() ==> s.Done? || s.Refused?
    {
      hide AllSane, AllJustified, IntentSince, RulesOutCommit, Validate, SaysReconciled, Agrees, CommittedReadable, Proof, Machine.OnlySyncsFail, Machine.SyncMayFail, Machine.SyncMayWork;
      ghost var k := machine.Now().journal;
      Reconciled(machine.Now(), observed, agree, finalSnapshot, initial);
      s := Prove(live, observed, agree, finalSnapshot, initial);
      if !s.Done? {
        ghost var l := machine.Now().journal;
        OneMore(k, l);
        s := NoteUnknown("readback", true, s);
        OneMore(l, machine.Now().journal);
      }
    }

    lemma Reconciled(w: World<Record>, observed: Live, agree: bool, finalSnapshot: string, initial: Dir)
      ensures Reconciles(w, observed, agree, finalSnapshot, initial) ==> Agreed(observed, agree)
      ensures forall journal :: Reconciles(w.(journal := journal), observed, agree, finalSnapshot, initial)
                                <==> Reconciles(w, observed, agree, finalSnapshot, initial)
    {
    }

    lemma IsCompletion(j: seq<Record>, live: Live, observed: Live, root: Dir, initial: Dir, user: Bytes, master: Bytes)
      requires {env.UserName(), Master} <= root.Keys && env.UserName() in initial
      ensures var final := env.Snapshot(root);
              j + [env.Milestone(HOST_COMMITTED, CommitEvidence(live, final, [env.rules.sha(user), env.rules.sha(master)]))]
              + [Proof(observed, final, initial)]
              == j + Completion(live, observed, root, initial, user, master)
    {
    }

    /** The world after a complete attempt: the encodings of what the SEP handed over are in the root, everything was
        sent, and the journal says so. */
    ghost predicate Completed(live: Live, observed: Live, initial: Dir, journal: seq<Record>)
      reads this, machine
    {
      && machine.Valid() && env.UserName() in initial
      && |sent| == 6 && sent[1].Complete? && sent[4].Complete?
      && Encoded(env.UserName(), sent[1].blob).Ok? && Encoded(Master, sent[4].blob).Ok?
      && machine.Now().root == before + Staged(sent[1].blob, sent[4].blob)
      && machine.Now().journal == journal + Completion(live, observed, machine.Now().root, initial, sent[1].blob, sent[4].blob)
    }

    /** A record that is no proof. */
    lemma OneMore(j: seq<Record>, k: seq<Record>)
      ensures j <= k && |k| <= |j| + 1 && (|k| > |j| ==> k[|j|].milestone != RECONCILED) && SaysReconciled(k) ==> SaysReconciled(j)
    {
      if j <= k && |k| == |j| {
        assert j == k;
      }
    }

    /** The baseline and the intent of a first attempt. */
    function FirstRecords(live: Live, baseline: Evidence, components: Dir): seq<Record>
      requires {env.UserName(), Master} <= components.Keys
    {
      [env.Milestone(BASELINE, map["operation_kind" := Text("sync-user-catacomb"), "baseline" := Dict(baseline)]),
       env.Milestone(INTENT, env.IntentEvidence(live, components))]
    }

    /** A first attempt: create the journal with its baseline and its intent. */
    method OpenJournal(live: Live, baseline: Evidence, components: Dir) returns (s: Status)
      requires Valid() && ReadFrom(components) && machine.Now().journal == [] && env.LiveSound(live)
      requires env.formats.IsBaseline(Dict(baseline))
      requires baseline[GENERATION] == Text(live.generation) && baseline[MAPPING] == Text(env.mapping)
      modifies machine
      ensures Valid()
      ensures s.Done? ==> InPhase(AtIntent) && IntendedHere(Head(), live)
      ensures s.Done? ==> machine.Now() == old(machine.Now()).(journal := FirstRecords(live, baseline, components))
      ensures !SaysReconciled(machine.Now().journal)
      ensures machine.Flawless() ==> s.Done?
    {
      hide AllJustified, IntentSince, AllSane, RulesOutCommit, SaysReconciled, Validate, Machine.OnlySyncsFail, Machine.SyncMayFail, Machine.SyncMayWork;
      :- CreateJournal(live, baseline, components);
      s := JournalIntent(live, baseline, components);
    }

    method CreateJournal(live: Live, baseline: Evidence, components: Dir) returns (s: Status)
      requires Valid() && {env.UserName(), Master} <= components.Keys && machine.Now().journal == []
      requires env.formats.IsBaseline(Dict(baseline))
      modifies machine
      ensures Valid() && !s.Refused? && machine.Explains(s) && !SaysReconciled(machine.Now().journal)
      ensures s.Done? ==> machine.Now() == old(machine.Now()).(journal := FirstRecords(live, baseline, components)[..1])
    {
      FirstIsRead(baseline);
      hide AllJustified, IntentSince, AllSane, Sane, SaysReconciled, Validate, SyncJournal.Baseline, Env.Sound, Env.IntentEvidence, Machine.OnlySyncsFail, Machine.SyncMayFail, Machine.SyncMayWork;
      var first := env.Milestone(BASELINE, map["operation_kind" := Text("sync-user-catacomb"), "baseline" := Dict(baseline)]);
      OpeningIsEmpty(machine.history);
      FirstIsSane(machine.Now(), first);
      SaneExtended(machine.history, machine.Now().(journal := [first]));
      s := machine.AppendRecord(first);
    }

    method JournalIntent(live: Live, baseline: Evidence, components: Dir) returns (s: Status)
      requires Valid() && ReadFrom(components) && env.LiveSound(live) && env.formats.IsBaseline(Dict(baseline))
      requires baseline[GENERATION] == Text(live.generation) && baseline[MAPPING] == Text(env.mapping)
      requires machine.Now().journal == FirstRecords(live, baseline, components)[..1]
      modifies machine
      ensures Valid() && !s.Refused? && machine.Explains(s) && !SaysReconciled(machine.Now().journal)
      ensures s.Done? ==> InPhase(AtIntent) && IntendedHere(Head(), live)
      ensures s.Done? ==> machine.Now() == old(machine.Now()).(journal := FirstRecords(live, baseline, components))
    {
      FirstIsRead(baseline);
      hide AllJustified, IntentSince, AllSane, RulesOutCommit, SaysReconciled, Next, SyncJournal.Baseline, Machine.OnlySyncsFail, Machine.SyncMayFail, Machine.SyncMayWork;
      var created := History(AtBaseline, baseline, None, None, false);
      IntentIsAccepted(created, live, components);
      NotUnknown([env.Milestone(INTENT, env.IntentEvidence(live, components))]);
      s := Append(env.Milestone(INTENT, env.IntentEvidence(live, components)));
      NotUnknown(machine.Now().journal);
    }

    lemma OpeningIsEmpty(h: seq<World<Record>>)
      requires past != [] && h != [] && AllSane(env, past, h) && h[|h| - 1].journal == []
      ensures past[|past| - 1].journal == []
    {
      assert Sane(env, past[|past| - 1], h[|h| - 1]);
    }

    lemma SaneExtended(h: seq<World<Record>>, w: World<Record>)
      requires AllSane(env, past, h) && Sane(env, past[|past| - 1], w)
      ensures AllSane(env, past, h + [w])
    {
    }

    lemma FirstIsRead(baseline: Evidence)
      requires env.formats.IsBaseline(Dict(baseline))
      ensures var first := env.Milestone(BASELINE, map["operation_kind" := Text("sync-user-catacomb"), "baseline" := Dict(baseline)]);
              var created := History(AtBaseline, baseline, None, None, false);
              SyncJournal.Baseline(env.formats, first) == Ok(created) && Validate(env.formats, [first]) == Ok(created)
    {
    }

    lemma FirstIsSane(w: World<Record>, first: Record)
      requires past != [] && past[|past| - 1].journal == [] && w.journal == [] && first.milestone == BASELINE && SyncJournal.Baseline(env.formats, first).Ok?
      ensures w.journal + [first] == [first] && Sane(env, past[|past| - 1], w.(journal := [first]))
      ensures Validate(env.formats, [first]) == SyncJournal.Baseline(env.formats, first)
      ensures !SaysReconciled([]) && !SaysReconciled([first])
    {
    }

    lemma IntentIsAccepted(h: History, live: Live, components: Dir)
      requires env.Sound() && ReadFrom(components) && env.LiveSound(live) && h.phase.AtBaseline?
      requires env.formats.IsBaseline(Dict(h.baseline))
      requires h.baseline[GENERATION] == Text(live.generation) && h.baseline[MAPPING] == Text(env.mapping)
      ensures var e := env.IntentEvidence(live, components);
              && Next(env.formats, h, env.Milestone(INTENT, e)) == Ok(h.(phase := AtIntent, intent := Some(e)))
              && IntendedHere(h.(phase := AtIntent, intent := Some(e)), live)
    {
    }

    /** A recovery is bound to the ambiguous attempt: same mapping, the committed components and
        identities of that attempt, and a new connection. */
    predicate RecoveryBound(h: History, live: Live, components: Dir)
      requires {env.UserName(), Master} <= components.Keys
    {
      && h.phase.AtUnknown? && !h.recoveryAttempted && h.intent.Some? && h.hostCommit.Some?
      && FINAL in h.hostCommit.value && {IDENTITIES, GENERATION} <= h.intent.value.Keys
      && {MAPPING, GENERATION} <= h.baseline.Keys
      && h.baseline[MAPPING] == Text(env.mapping)
      && h.hostCommit.value[FINAL] == Text(env.Snapshot(components))
      && h.intent.value[IDENTITIES] == Text(env.identities(components[env.UserName()]))
      && Text(live.generation) != h.baseline[GENERATION] && Text(live.generation) != h.intent.value[GENERATION]
    }

    function RecoveryEvidence(live: Live, components: Dir): Evidence
      requires {env.UserName(), Master} <= components.Keys
    {
      env.IntentEvidence(live, components)[PRIOR := Text(env.Snapshot(components))]
    }

    /** The components that were read are the old root's. */
    ghost predicate ReadFrom(components: Dir) {
      components.Keys == env.rules.Allowed() <= before.Keys && forall n :: n in components ==> components[n] == before[n]
    }

    lemma RecoveryIntentIsAccepted(h: History, live: Live, components: Dir)
      requires env.Sound() && ReadFrom(components) && env.LiveSound(live) && RecoveryBound(h, live, components)
      ensures var e, r := RecoveryEvidence(live, components), env.Milestone(RECOVERY_INTENT, RecoveryEvidence(live, components));
              var h' := h.(phase := AtIntent, intent := Some(e), hostCommit := None, recoveryAttempted := true);
              Next(env.formats, h, r) == Ok(h') && IntendedHere(h', live)
    {
    }

    lemma RecoveredCleanIsAccepted(h: History, live: Live, components: Dir)
      requires env.Sound() && ReadFrom(components) && env.LiveSound(live) && RecoveryBound(h, live, components)
      ensures var e := env.ProofEvidence(live, env.Snapshot(components), env.identities(components[env.UserName()]));
              Next(env.formats, h, env.Milestone(RECOVERED_CLEAN, e)) == Ok(h.(phase := AtReconciled, recoveryAttempted := true))
    {
    }

    /** Exactly the user component is dirty. */
    predicate Wanted(live: Live) {
      live.userDirty && !live.masterDirty
    }

    /** The broker, as a first attempt. */
    method Sync(live: Live, observed: Live, agree: bool, baseline: Evidence) returns (s: Status)
      requires Valid() && sent == [] && machine.Now().journal == [] && machine.Now().root == before
      requires env.LiveSound(live) && env.LiveSound(observed) && observed.generation == live.generation
      requires env.formats.IsBaseline(Dict(baseline)) && (Agreed(observed, agree) ==> env.agrees)
      requires baseline[GENERATION] == Text(live.generation) && baseline[MAPPING] == Text(env.mapping)
      modifies this`sent, this`asked, machine
      ensures Valid() && AllJustified(env, before, sent) && AllSane(env, past, machine.history)
      ensures s.Done? && (live.userDirty || live.masterDirty) ==> InPhase(AtReconciled) && machine.Now().NoTransaction()
      ensures !Wanted(live) ==> sent == [] && machine.Now() == old(machine.Now())
      ensures s.Done? ==> CommittedReadable(env.rules, old(machine.Now())) && !live.masterDirty
      ensures s.Done? && Wanted(live) ==> (
              var initial := map n | n in env.rules.Allowed() && n in before :: before[n];
              && Agreed(observed, agree) && {env.UserName(), Master} <= initial.Keys
              && Completed(live, observed, initial, FirstRecords(live, baseline, initial)))
      ensures !Agreed(observed, agree) ==> !SaysReconciled(machine.Now().journal)
      ensures machine.OnlySyncsFail() && !s.Cut? && asked != old(asked) ==> Ended(machine.Now().journal)
      ensures machine.Flawless() && CommittedReadable(env.rules, old(machine.Now())) && !live.userDirty && !live.masterDirty ==> s.Done?
      ensures machine.Flawless() && CommittedReadable(env.rules, old(machine.Now())) && Wanted(live) && Agreed(observed, agree) ==> (
              env.UserName() in before && Exports(old(asked)) && SameIdentities(old(asked)) ==> s.Done?)
    {
      assert !SaysReconciled(machine.Now().journal);
      hide Next, AllSane, AllJustified, IntentSince, RulesOutCommit, Validate, SaysReconciled, Exports, SameIdentities, Completed, Machine.OnlySyncsFail, Machine.SyncMayFail, Machine.SyncMayWork;
      if !machine.Now().NoTransaction() {
        return Refused;
      }
      var components: Dir;
      s, components := store.ReadCommittedComponents();
      if !s.Done? || (!live.userDirty && !live.masterDirty) {
        return;
      }
      if !live.userDirty || live.masterDirty {
        return Refused;
      }
      assert Ready() by { ReadableIsReady(machine.Now()); }
      assert components == map n | n in env.rules.Allowed() && n in before :: before[n];
      :- OpenJournal(live, baseline, components);
      s := Persist(live, observed, agree, false, components);
    }

    lemma ReadableIsReady(w: World<Record>)
      requires w.root == before && CommittedReadable(env.rules, w)
      ensures Ready()
    {
    }

    /** The broker, as the one recovery of an ambiguous attempt. bound stands for the comparison of the SEP identifier
        with the one in the baseline, agree for the later comparisons of the read-back. */
    method Recover(live: Live, observed: Live, bound: bool, agree: bool) returns (s: Status)
      requires Valid() && sent == [] && machine.Now().root == before && machine.Now().journal != []
      requires env.LiveSound(live) && env.LiveSound(observed) && observed.generation == live.generation
      requires Agreed(observed, agree) ==> env.agrees
      modifies this`sent, this`asked, machine
      ensures Valid() && AllJustified(env, before, sent) && AllSane(env, past, machine.history)
      ensures s.Done? ==> machine.Now().journal != [] && Validate(env.formats, machine.Now().journal).Ok? && Head().phase.AtReconciled?
      ensures machine.Now() != old(machine.Now()) || sent != [] || s.Done? ==> Recoverable(old(machine.Now()), live, bound)
      ensures sent != [] ==> Wanted(live)
      ensures s.Done? ==> Wanted(live) || (!live.userDirty && !live.masterDirty)
      ensures s.Done? ==> (
              var j, initial := old(machine.Now()).journal, map n | n in env.rules.Allowed() && n in before :: before[n];
              && {env.UserName(), Master} <= initial.Keys
              && if Wanted(live)
                 then Agreed(observed, agree) && Completed(live, observed, initial, j + [env.Milestone(RECOVERY_INTENT, RecoveryEvidence(live, initial))])
                 else sent == [] && machine.Now() == old(machine.Now()).(journal := j + [CleanRecord(live, initial)]))
      ensures !Agreed(observed, agree) && SaysReconciled(machine.Now().journal) ==> SaysReconciled(old(machine.Now()).journal)
      ensures machine.OnlySyncsFail() && !s.Cut? && asked != old(asked) ==> Ended(machine.Now().journal)
      ensures machine.Flawless() && Recoverable(old(machine.Now()), live, bound) && !live.userDirty && !live.masterDirty ==> s.Done?
      ensures machine.Flawless() && Recoverable(old(machine.Now()), live, bound) && Wanted(live) && Agreed(observed, agree) ==> (
              Exports(old(asked)) && SameIdentities(old(asked)) ==> s.Done?)
    {
      hide Next, IntentSince, AllJustified, AllSane, RulesOutCommit, Validate, SaysReconciled, Exports, SameIdentities, Completed,
           RecoveryBound, CleanRecord, RecoveryEvidence, Machine.OnlySyncsFail, Machine.SyncMayFail, Machine.SyncMayWork;
      ghost var j := machine.Now().journal;
      if !machine.Now().NoTransaction() || Validate(env.formats, machine.Now().journal).Err? {
        return Refused;
      }
      var components: Dir;
      s, components := store.ReadCommittedComponents();
      if !s.Done? {
        return;
      }
      assert Ready() by { ReadableIsReady(machine.Now()); }
      assert components == map n | n in env.rules.Allowed() && n in before :: before[n];
      var history := Validate(env.formats, machine.Now().journal).value;
      SameBound(machine.Now(), history, live, components);
      if !RecoveryBound(history, live, components) || !bound {
        return Refused;
      }
      if !live.userDirty && !live.masterDirty {
        s := JournalClean(live, components);
        return;
      }
      if !live.userDirty || live.masterDirty {
        return Refused;
      }
      s := JournalRecovery(live, components);
      OneMore(j, machine.Now().journal);
      if !s.Done? {
        return;
      }
      s := Persist(live, observed, agree, true, components);
    }

    lemma SameBound(w: World<Record>, history: History, live: Live, components: Dir)
      requires CommittedReadable(env.rules, w) && components == map n | n in env.rules.Allowed() :: w.root[n]
      ensures {env.UserName(), Master} <= components.Keys && {env.UserName(), Master} <= w.root.Keys
      ensures RecoveryBound(history, live, components) <==> RecoveryBound(history, live, w.root)
    {
    }

    /** There is nothing left to persist: journal that, and nothing else. */
    method JournalClean(live: Live, components: Dir) returns (s: Status)
      requires Valid() && machine.Now().journal != [] && Validate(env.formats, machine.Now().journal).Ok?
      requires env.LiveSound(live) && ReadFrom(components) && RecoveryBound(Head(), live, components)
      modifies machine
      ensures Valid() && !s.Refused? && machine.Explains(s)
      ensures var w := old(machine.Now());
              && machine.Now() in {w, w.(journal := w.journal + [CleanRecord(live, components)])}
              && (s.Done? ==> machine.Now() == w.(journal := w.journal + [CleanRecord(live, components)]))
      ensures s.Done? ==> Validate(env.formats, machine.Now().journal).Ok? && Head().phase.AtReconciled?
      ensures SaysReconciled(machine.Now().journal) ==> SaysReconciled(old(machine.Now()).journal)
    {
      hide Next, IntentSince, AllJustified, AllSane, RulesOutCommit, Validate, SaysReconciled, RecoveryBound, Machine.OnlySyncsFail, Machine.SyncMayFail, Machine.SyncMayWork;
      ghost var j := machine.Now().journal;
      RecoveredCleanIsAccepted(Head(), live, components);
      NotUnknown([CleanRecord(live, components)]);
      s := Append(CleanRecord(live, components));
      OneMore(j, machine.Now().journal);
    }

    method JournalRecovery(live: Live, components: Dir) returns (s: Status)
      requires Valid() && machine.Now().journal != [] && Validate(env.formats, machine.Now().journal).Ok?
      requires env.LiveSound(live) && ReadFrom(components) && RecoveryBound(Head(), live, components)
      modifies machine
      ensures Valid() && !s.Refused? && machine.Explains(s)
      ensures var w, intent := old(machine.Now()), env.Milestone(RECOVERY_INTENT, RecoveryEvidence(live, components));
              && machine.Now() in {w, w.(journal := w.journal + [intent])}
              && (s.Done? ==> machine.Now() == w.(journal := w.journal + [intent]))
      ensures s.Done? ==> InPhase(AtIntent) && IntendedHere(Head(), live)
    {
      hide Next, IntentSince, AllJustified, AllSane, RulesOutCommit, Validate, SaysReconciled, RecoveryBound, Machine.OnlySyncsFail, Machine.SyncMayFail, Machine.SyncMayWork;
      RecoveryIntentIsAccepted(Head(), live, components);
      var intent := env.Milestone(RECOVERY_INTENT, RecoveryEvidence(live, components));
      NotUnknown([intent]);
      s := Append(intent);
      NotUnknown(machine.Now().journal);
    }

    function CleanRecord(live: Live, components: Dir): Record
      requires {env.UserName(), Master} <= components.Keys
    {
      env.Milestone(RECOVERED_CLEAN,
                    env.ProofEvidence(live, env.Snapshot(components), env.identities(components[env.UserName()])))
    }

    /** The recovery may act: the journal is readable, the root complete and the recovery bound to its attempt. */
    ghost predicate Recoverable(w: World<Record>, live: Live, bound: bool) {
      && bound && Validate(env.formats, w.journal).Ok? && CommittedReadable(env.rules, w)
      && {env.UserName(), Master} <= w.root.Keys && RecoveryBound(Validate(env.formats, w.journal).value, live, w.root)
    }
  }

  /** The journal of the world at i is readable; and if it rules out a host commit, the root is that of a world in
      which the last intent had not been journaled yet. */
  ghost predicate Explained(env: Env, history: seq<World<Record>>, i: nat)
    requires i < |history|
  {
    && (history[i].journal != [] ==> Validate(env.formats, history[i].journal).Ok?)
    && (SaysReconciled(history[i].journal) ==> env.agrees)
    && (RulesOutCommit(history[i].journal) ==> exists a :: 0 <= a <= i && Unchanged(history, a, i))
  }

  ghost predicate Unchanged(history: seq<World<Record>>, a: nat, i: nat)
    requires a <= i < |history|
  {
    history[a].root == history[i].root && history[a].journal <= history[i].journal
    && IntentSince(history[a].journal, history[i].journal)
  }

  ghost predicate AllExplained(env: Env, history: seq<World<Record>>) {
    forall i :: 0 <= i < |history| ==> Explained(env, history, i)
  }

  /** What an attempt adds is explained by the world in which it starts, or as that world is. */
  lemma AttemptExplained(env: Env, past: seq<World<Record>>, history: seq<World<Record>>)
    requires AllExplained(env, past) && AllSane(env, past, history)
    ensures AllExplained(env, history)
  {
    hide IntentSince, RulesOutCommit, Validate;
    var a := |past| - 1;
    forall i | 0 <= i < |history|
      ensures Explained(env, history, i)
    {
      if i < |past| {
        SameExplained(env, past, history, i, i);
      } else {
        assert Sane(env, past[a], history[i]) && history[a] == past[a];
        if history[i].journal == past[a].journal {
          if RulesOutCommit(history[i].journal) {
            SameExplained(env, past, history, a, i);
          }
        } else if RulesOutCommit(history[i].journal) {
          assert Unchanged(history, a, i);
        }
      }
    }
  }

  /** A world as one before it is explained as that is. */
  lemma SameExplained(env: Env, past: seq<World<Record>>, history: seq<World<Record>>, k: nat, i: nat)
    requires k < |past| && k <= i < |history| && past <= history && Explained(env, past, k)
    requires history[i].journal == past[k].journal
    requires RulesOutCommit(past[k].journal) ==> history[i].root == past[k].root
    ensures Explained(env, history, i)
  {
    hide IntentSince, RulesOutCommit, Validate;
    if RulesOutCommit(past[k].journal) {
      var a :| 0 <= a <= k && Unchanged(past, a, k);
      assert Unchanged(history, a, i);
    }
  }

  lemma CutExplained(env: Env, history: seq<World<Record>>, k: nat)
    requires AllExplained(env, history) && k < |history|
    ensures AllExplained(env, history + [history[k]])
  {
    hide Explained;
    var longer := history + [history[k]];
    forall i | 0 <= i < |longer|
      ensures Explained(env, longer, i)
    {
      SameExplained(env, history, longer, if i < |history| then i else k, i);
    }
  }

  /** The whole life of one journal: a first attempt; then, in any order and any number of times, the power fails and
      the recovery runs, each with its own crashes, errors and answers of the SEP. */
  method Lifetime(env: Env, machine: Machine<Record>, live: Live, observed: Live, baseline: Evidence, seps: nat -> (nat -> Reply))
    requires env.Sound() && machine.Durable() && |machine.history| == 1 && machine.Now().journal == []
    requires env.LiveSound(live) && env.LiveSound(observed) && observed.generation == live.generation
    requires env.formats.IsBaseline(Dict(baseline))
    requires baseline[GENERATION] == Text(live.generation) && baseline[MAPPING] == Text(env.mapping)
    modifies machine
    ensures machine.Valid() && AllExplained(env, machine.history)
    ensures !env.agrees ==> forall i :: 0 <= i < |machine.history| ==> !SaysReconciled(machine.history[i].journal)
  {
    assert Explained(env, machine.history, 0);
    hide IntentSince, RulesOutCommit, Validate, Explained, Env.Sound;
    var agree: bool := *;
    agree := agree && env.agrees;
    var broker := new Broker(env, machine, seps(0));
    var s := broker.Sync(live, observed, agree, baseline);
    AttemptExplained(env, broker.past, machine.history);
    var events: nat :| true;
    for i := 0 to events
      invariant machine.Valid() && AllExplained(env, machine.history)
    {
      var recovers: bool := *;
      if recovers {
        RecoverOnce(env, machine, seps(i + 1));
      } else {
        ghost var history := machine.history;
        machine.PowerCut();
        ghost var k :| 0 <= k < |history| && machine.history == history + [history[k]];
        CutExplained(env, history, k);
      }
    }
    NoProof(env, machine.history);
  }

  lemma NoProof(env: Env, history: seq<World<Record>>)
    requires AllExplained(env, history)
    ensures !env.agrees ==> forall i :: 0 <= i < |history| ==> !SaysReconciled(history[i].journal)
  {
    hide SaysReconciled, RulesOutCommit, Unchanged, Validate;
    forall i | 0 <= i < |history| && !env.agrees
      ensures !SaysReconciled(history[i].journal)
    {
      assert Explained(env, history, i);
    }
  }

  /** One recovery, whatever the SEP answers and whatever the comparisons find. */
  method RecoverOnce(env: Env, machine: Machine<Record>, sep: nat -> Reply)
    requires env.Sound() && machine.Valid() && AllExplained(env, machine.history)
    modifies machine
    ensures machine.Valid() && AllExplained(env, machine.history)
  {
    hide IntentSince, RulesOutCommit, Validate, Env.Sound;
    var live: Live, observed: Live, bound: bool, agree: bool := *, *, *, *;
    if machine.Now().journal == [] || !env.LiveSound(live) || !env.LiveSound(observed) || observed.generation != live.generation {
      return;
    }
    agree := agree && env.agrees;
    assert Explained(env, machine.history, |machine.history| - 1);
    var broker := new Broker(env, machine, sep);
    var s := broker.Recover(live, observed, bound, agree);
    AttemptExplained(env, broker.past, machine.history);
  }
}
