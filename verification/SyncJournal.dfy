/** The typed journal of one adaptive sync of the user component: the automaton that every read
    validates, and its language. */
module SyncJournal {
  import opened Outcomes

  /** Evidence values. Text covers identifiers and digests alike. */
  datatype Value = Text(text: string) | Flag(flag: bool) | Dict(fields: Evidence) | Other
  type Evidence = map<string, Value>

  datatype Record = Record(operationId: string, milestone: string, evidence: Value, hash: string)

  /** What is not modelled further: the text forms and the schema of a baseline. */
  datatype Formats = Formats(uuid: string -> bool, sha256: string -> bool, baseline: Evidence -> bool)
  {
    predicate IsUuid(v: Value) {
      v.Text? && uuid(v.text)
    }

    predicate IsSha(v: Value) {
      v.Text? && sha256(v.text)
    }

    predicate IsBaseline(v: Value) {
      && v.Dict?
      && "connection_generation" in v.fields && IsUuid(v.fields["connection_generation"])
      && "mapping_generation" in v.fields && IsSha(v.fields["mapping_generation"])
      && baseline(v.fields)
    }
  }

  datatype Phase = AtBaseline | AtIntent | AtHostCommitted | AtReconciled | AtAborted | AtUnknown

  datatype History = History(
    phase: Phase,
    baseline: Evidence,
    intent: Option<Evidence>,
    hostCommit: Option<Evidence>,
    recoveryAttempted: bool)

  const GENERATION := "connection_generation"
  const MAPPING := "mapping_generation"
  const DESCRIPTORS := "descriptor_snapshot_sha256"
  const INITIAL := "initial_component_snapshot_sha256"
  const INITIAL_SEP := "initial_sep_catacomb_hash"
  const IDENTITIES := "identity_snapshot_sha256"
  const PRIOR := "prior_final_component_snapshot_sha256"
  const FINAL := "final_component_snapshot_sha256"
  const BLOBS := "secure_blob_snapshot_sha256"
  const FINAL_SEP := "final_sep_catacomb_hash"

  const BASELINE := "BASELINE_RECONCILED"
  const INTENT := "CATACOMB_SYNC_INTENT"
  const HOST_COMMITTED := "CATACOMB_SYNC_HOST_COMMITTED"
  const RECONCILED := "CATACOMB_SYNC_RECONCILED"
  const ABORTED := "CATACOMB_SYNC_ABORTED_BEFORE_DISPATCH"
  const UNKNOWN := "CATACOMB_SYNC_OUTCOME_UNKNOWN"
  const RECOVERY_INTENT := "CATACOMB_SYNC_RECOVERY_INTENT"
  const RECOVERED_CLEAN := "CATACOMB_SYNC_RECOVERED_CLEAN"

  /** The connection generation is an identifier and the other named fields are digests; the
      keys are exactly these and the listed extra ones. */
  predicate Shape(f: Formats, e: Evidence, digests: set<string>, extra: set<string>) {
    && e.Keys == {GENERATION} + digests + extra
    && f.IsUuid(e[GENERATION])
    && forall k :: k in digests ==> f.IsSha(e[k])
  }

  predicate NonEmptyText(v: Value) {
    v.Text? && v.text != ""
  }

  function Baseline(f: Formats, first: Record): Result<History> {
    if first.milestone == BASELINE && first.evidence.Dict? then
      var e := first.evidence.fields;
      if e.Keys == {"operation_kind", "baseline"} && e["operation_kind"] == Text("sync-user-catacomb")
         && f.IsBaseline(e["baseline"])
      then Ok(History(AtBaseline, e["baseline"].fields, None, None, false)) else Err
    else Err
  }

  predicate IntentAccepted(f: Formats, h: History, e: Evidence)
    requires f.IsBaseline(Dict(h.baseline))
  {
    && Shape(f, e, {MAPPING, DESCRIPTORS, INITIAL, INITIAL_SEP, IDENTITIES}, {})
    && e[GENERATION] == h.baseline[GENERATION]
    && e[MAPPING] == h.baseline[MAPPING]
  }

  predicate HostCommitAccepted(f: Formats, intent: Evidence, e: Evidence) {
    && Shape(f, e, {FINAL, BLOBS}, {})
    && GENERATION in intent && e[GENERATION] == intent[GENERATION]
  }

  predicate ProofShape(f: Formats, e: Evidence) {
    && Shape(f, e, {FINAL, FINAL_SEP, IDENTITIES}, {"sep_clean", "local_live_equal"})
    && e["sep_clean"] == Flag(true) && e["local_live_equal"] == Flag(true)
  }

  predicate ReconciledAccepted(f: Formats, intent: Evidence, commit: Evidence, e: Evidence) {
    && ProofShape(f, e)
    && {GENERATION, IDENTITIES} <= intent.Keys && FINAL in commit
    && e[GENERATION] == intent[GENERATION]
    && e[FINAL] == commit[FINAL]
    && e[IDENTITIES] == intent[IDENTITIES]
  }

  predicate AbortAccepted(e: Evidence) {
    && e.Keys == {"reason", "mutation_possible"}
    && NonEmptyText(e["reason"]) && e["mutation_possible"] == Flag(false)
  }

  predicate UnknownAccepted(e: Evidence) {
    && e.Keys == {"stage", "reason", "mutation_possible", "host_commit_possible"}
    && NonEmptyText(e["stage"]) && NonEmptyText(e["reason"])
    && e["mutation_possible"] == Flag(true) && e["host_commit_possible"].Flag?
  }

  predicate FreshGeneration(h: History, intent: Evidence, e: Evidence) {
    && GENERATION in e && GENERATION in h.baseline && GENERATION in intent
    && e[GENERATION] != h.baseline[GENERATION] && e[GENERATION] != intent[GENERATION]
  }

  predicate RecoveryIntentAccepted(f: Formats, h: History, intent: Evidence, commit: Evidence, e: Evidence) {
    && Shape(f, e, {MAPPING, DESCRIPTORS, INITIAL, INITIAL_SEP, IDENTITIES, PRIOR}, {})
    && FreshGeneration(h, intent, e)
    && MAPPING in h.baseline && IDENTITIES in intent && FINAL in commit
    && e[MAPPING] == h.baseline[MAPPING]
    && e[IDENTITIES] == intent[IDENTITIES]
    && e[INITIAL] == commit[FINAL]
    && e[PRIOR] == commit[FINAL]
  }

  predicate RecoveredCleanAccepted(f: Formats, h: History, intent: Evidence, commit: Evidence, e: Evidence) {
    && ProofShape(f, e)
    && FreshGeneration(h, intent, e)
    && FINAL in commit && IDENTITIES in intent
    && e[FINAL] == commit[FINAL]
    && e[IDENTITIES] == intent[IDENTITIES]
  }

  /** One record. */
  function Next(f: Formats, h: History, record: Record): Result<History> {
    if !record.evidence.Dict? then Err
    else
      var e := record.evidence.fields;
      if record.milestone == INTENT && h.phase.AtBaseline? then
        if f.IsBaseline(Dict(h.baseline)) && IntentAccepted(f, h, e)
        then Ok(h.(phase := AtIntent, intent := Some(e))) else Err
      else if record.milestone == HOST_COMMITTED && h.phase.AtIntent? then
        if h.intent.Some? && HostCommitAccepted(f, h.intent.value, e)
        then Ok(h.(phase := AtHostCommitted, hostCommit := Some(e))) else Err
      else if record.milestone == RECONCILED && h.phase.AtHostCommitted? then
        if h.intent.Some? && h.hostCommit.Some? && ReconciledAccepted(f, h.intent.value, h.hostCommit.value, e)
        then Ok(h.(phase := AtReconciled)) else Err
      else if record.milestone == ABORTED && h.phase.AtIntent? then
        if AbortAccepted(e) then Ok(h.(phase := AtAborted)) else Err
      else if record.milestone == UNKNOWN && (h.phase.AtIntent? || h.phase.AtHostCommitted?) then
        if UnknownAccepted(e) then Ok(h.(phase := AtUnknown)) else Err
      else if record.milestone == RECOVERY_INTENT && h.phase.AtUnknown? && !h.recoveryAttempted then
        if h.intent.Some? && h.hostCommit.Some?
           && RecoveryIntentAccepted(f, h, h.intent.value, h.hostCommit.value, e)
        then Ok(h.(phase := AtIntent, intent := Some(e), hostCommit := None, recoveryAttempted := true)) else Err
      else if record.milestone == RECOVERED_CLEAN && h.phase.AtUnknown? && !h.recoveryAttempted then
        if h.intent.Some? && h.hostCommit.Some?
           && RecoveredCleanAccepted(f, h, h.intent.value, h.hostCommit.value, e)
        then Ok(h.(phase := AtReconciled, recoveryAttempted := true)) else Err
      else Err
  }

  function Validate(f: Formats, records: seq<Record>): Result<History> {
    if records == [] then Err
    else if |records| == 1 then Baseline(f, records[0])
    else
      var h :- Validate(f, records[..|records| - 1]);
      Next(f, h, records[|records| - 1])
  }

  /** The validating loop. */
  method ValidateHistory(f: Formats, records: seq<Record>) returns (r: Result<History>)
    ensures r == Validate(f, records)
  {
    if records == [] {
      return Err;
    }
    assert records[..1] == [records[0]];
    r := Baseline(f, records[0]);
    if r.Err? {
      PrefixClosed(f, records, 1);
      return;
    }
    for i := 1 to |records|
      invariant r.Ok? && r == Validate(f, records[..i])
    {
      assert records[..i + 1][..i] == records[..i];
      r := Next(f, r.value, records[i]);
      if r.Err? {
        PrefixClosed(f, records, i + 1);
        return;
      }
    }
    assert records[..|records|] == records;
  }

  /** A journal once rejected stays rejected: one bad append makes every later read fail. */
  lemma {:induction false} PrefixClosed(f: Formats, records: seq<Record>, k: nat)
    requires 0 < k <= |records|
    ensures Validate(f, records).Ok? ==> Validate(f, records[..k]).Ok?
    decreases |records|
  {
    if k == |records| {
      assert records[..k] == records;
    } else {
      assert records[..|records| - 1][..k] == records[..k];
      PrefixClosed(f, records[..|records| - 1], k);
    }
  }

  // ---------------------------------------------------------------------------------------
  // The language of accepted histories

  predicate IsRecovery(record: Record) {
    record.milestone == RECOVERY_INTENT || record.milestone == RECOVERED_CLEAN
  }

  function Recoveries(records: seq<Record>): nat {
    if records == [] then 0
    else Recoveries(records[..|records| - 1]) + if IsRecovery(records[|records| - 1]) then 1 else 0
  }

  /** The host commit that is in force: the last one, unless a recovery was started after it. */
  function LastCommit(records: seq<Record>): Option<Evidence> {
    if records == [] then None
    else
      var last := records[|records| - 1];
      if last.milestone == HOST_COMMITTED && last.evidence.Dict? then Some(last.evidence.fields)
      else if last.milestone == RECOVERY_INTENT then None
      else LastCommit(records[..|records| - 1])
  }

  /** How many records lead to a phase. */
  ghost predicate Counted(h: History, n: nat) {
    var r := if h.recoveryAttempted then 3 else 0;
    match h.phase
    case AtBaseline => n == 1 && !h.recoveryAttempted
    case AtIntent => n == 2 + r
    case AtHostCommitted => n == 3 + r && h.hostCommit.Some?
    case AtAborted => n == 3 + r
    case AtUnknown => n == if h.hostCommit.None? then 3 + r else 4 + r
    case AtReconciled => n == 4 + r || (n == 5 && h.recoveryAttempted)
  }

  /** What the state of the automaton remembers about the records. */
  ghost predicate Tracks(f: Formats, records: seq<Record>, h: History) {
    && records != []
    && Baseline(f, records[0]).Ok? && h.baseline == Baseline(f, records[0]).value.baseline
    && Counted(h, |records|)
    && Recoveries(records) == (if h.recoveryAttempted then 1 else 0)
    && h.hostCommit == LastCommit(records)
    && (|records| > 1 ==>
          && h.intent.Some? && Intended(f, records, h)
          && ((|records| <= 4 || (|records| == 5 && h.phase.AtReconciled?)) ==> h.intent == Some(records[1].evidence.fields)))
    && (h.phase.AtBaseline? || h.phase.AtIntent? ==> h.hostCommit.None?)
  }

  /** The second record is the original intent, and the intent in force has its identity snapshot. */
  ghost predicate Intended(f: Formats, records: seq<Record>, h: History)
    requires h.intent.Some? && |records| > 1
  {
    && records[1].milestone == INTENT && records[1].evidence.Dict?
    && IDENTITIES in records[1].evidence.fields && GENERATION in records[1].evidence.fields
    && GENERATION in h.baseline && records[1].evidence.fields[GENERATION] == h.baseline[GENERATION]
    && IDENTITIES in h.intent.value && h.intent.value[IDENTITIES] == records[1].evidence.fields[IDENTITIES]
  }

  lemma NextTracks(f: Formats, records: seq<Record>, h: History)
    requires |records| > 1 && Tracks(f, records[..|records| - 1], h)
    requires Next(f, h, records[|records| - 1]).Ok?
    ensures Tracks(f, records, Next(f, h, records[|records| - 1]).value)
  {
    hide Baseline, HostCommitAccepted, ReconciledAccepted, AbortAccepted, UnknownAccepted, RecoveredCleanAccepted;
    var n := |records| - 1;
    var before := records[..n];
    assert before[0] == records[0];
    if n > 1 {
      assert before[1] == records[1];
    }
    assert Recoveries(records) == Recoveries(before) + if IsRecovery(records[n]) then 1 else 0;
  }

  lemma {:induction false} ValidTracks(f: Formats, records: seq<Record>)
    requires Validate(f, records).Ok?
    ensures Tracks(f, records, Validate(f, records).value)
    decreases |records|
  {
    if |records| > 1 {
      ValidTracks(f, records[..|records| - 1]);
      NextTracks(f, records, Validate(f, records[..|records| - 1]).value);
    } else {
      assert records[..0] == [];
    }
  }

  /** What the record at i repeats of the earlier ones. Proofs and recoveries carry the identity
      snapshot of the original intent and name the components of the host commit in force; a
      recovery comes from a connection that is neither the baseline's nor the original one. */
  ghost predicate Bound(records: seq<Record>, i: nat)
    requires 0 < i < |records|
  {
    var m := records[i].milestone;
    (m == RECONCILED || IsRecovery(records[i])) ==>
      && i > 1 && records[1].milestone == INTENT && records[1].evidence.Dict? && records[i].evidence.Dict?
      && var e, intent, commit := records[i].evidence.fields, records[1].evidence.fields, LastCommit(records[..i]);
      && commit.Some? && FINAL in commit.value
      && {IDENTITIES, GENERATION} <= e.Keys && {IDENTITIES, GENERATION} <= intent.Keys
      && e[IDENTITIES] == intent[IDENTITIES]
      && (m != RECOVERY_INTENT ==> FINAL in e && e[FINAL] == commit.value[FINAL])
      && (m == RECOVERY_INTENT ==> INITIAL in e && e[INITIAL] == commit.value[FINAL])
      && (IsRecovery(records[i]) ==> e[GENERATION] != intent[GENERATION])
  }

  lemma LastIsBound(f: Formats, records: seq<Record>)
    requires |records| > 1 && Validate(f, records).Ok?
    ensures Bound(records, |records| - 1)
  {
    var n := |records| - 1;
    ValidTracks(f, records[..n]);
    if n > 1 {
      assert records[..n][1] == records[1];
    }
  }

  lemma BoundInPrefix(records: seq<Record>, n: nat, i: nat)
    requires 0 < i < n <= |records|
    ensures Bound(records[..n], i) == Bound(records, i)
  {
    assert records[..n][..i] == records[..i];
  }

  /** The language: at most seven records and one recovery; every record is bound to the earlier
      ones; and the first two are the baseline and an intent on the baseline's connection. */
  lemma {:induction false} HistoryLanguage(f: Formats, records: seq<Record>)
    requires Validate(f, records).Ok?
    ensures |records| <= 7
    ensures Recoveries(records) <= 1
    ensures forall i :: 0 < i < |records| ==> Bound(records, i)
    decreases |records|
  {
    hide Next, Baseline, Bound;
    ValidTracks(f, records);
    var n := |records| - 1;
    if n > 0 {
      HistoryLanguage(f, records[..n]);
      LastIsBound(f, records);
      forall i | 0 < i < n
        ensures Bound(records, i)
      {
        assert Bound(records[..n], i);
        BoundInPrefix(records, n, i);
      }
    }
  }

  // ---------------------------------------------------------------------------------------
  // The same language, record by record

  function FieldsOf(r: Record): Evidence {
    if r.evidence.Dict? then r.evidence.fields else map[]
  }

  predicate IsFirst(f: Formats, r: Record) {
    && r.milestone == BASELINE && r.evidence.Dict? && r.evidence.fields.Keys == {"operation_kind", "baseline"}
    && r.evidence.fields["operation_kind"] == Text("sync-user-catacomb") && r.evidence.fields["baseline"].Dict?
    && var b := r.evidence.fields["baseline"].fields;
    && {GENERATION, MAPPING} <= b.Keys && b[GENERATION].Text? && f.uuid(b[GENERATION].text)
    && b[MAPPING].Text? && f.sha256(b[MAPPING].text) && f.baseline(b)
  }

  function BaselineOf(r: Record): Evidence {
    if "baseline" in FieldsOf(r) && FieldsOf(r)["baseline"].Dict? then FieldsOf(r)["baseline"].fields else map[]
  }

  /** The original intent: a generation and five digests, on the connection and the mapping of the baseline. */
  predicate IsOriginalIntent(f: Formats, first: Record, r: Record) {
    var e, b := FieldsOf(r), BaselineOf(first);
    && r.milestone == INTENT && r.evidence.Dict? && {GENERATION, MAPPING} <= b.Keys
    && e.Keys == {GENERATION, MAPPING, DESCRIPTORS, INITIAL, INITIAL_SEP, IDENTITIES}
    && f.IsUuid(e[GENERATION]) && f.IsSha(e[MAPPING]) && f.IsSha(e[DESCRIPTORS]) && f.IsSha(e[INITIAL])
    && f.IsSha(e[INITIAL_SEP]) && f.IsSha(e[IDENTITIES])
    && e[GENERATION] == b[GENERATION] && e[MAPPING] == b[MAPPING]
  }

  /** The host commit of an attempt: on the connection of its intent. */
  predicate IsHostCommit(f: Formats, intent: Record, r: Record) {
    var e, i := FieldsOf(r), FieldsOf(intent);
    && r.milestone == HOST_COMMITTED && r.evidence.Dict? && GENERATION in i
    && e.Keys == {GENERATION, FINAL, BLOBS}
    && f.IsUuid(e[GENERATION]) && f.IsSha(e[FINAL]) && f.IsSha(e[BLOBS])
    && e[GENERATION] == i[GENERATION]
  }

  /** A proof of success, with its two flags. */
  predicate IsProof(f: Formats, r: Record) {
    var e := FieldsOf(r);
    && r.evidence.Dict? && e.Keys == {GENERATION, FINAL, FINAL_SEP, IDENTITIES, "sep_clean", "local_live_equal"}
    && f.IsUuid(e[GENERATION]) && f.IsSha(e[FINAL]) && f.IsSha(e[FINAL_SEP]) && f.IsSha(e[IDENTITIES])
    && e["sep_clean"] == Flag(true) && e["local_live_equal"] == Flag(true)
  }

  /** The proof of an attempt: connection and identities of its intent, components of its commit. */
  predicate IsReconciled(f: Formats, intent: Record, commit: Record, r: Record) {
    var e, i, c := FieldsOf(r), FieldsOf(intent), FieldsOf(commit);
    && r.milestone == RECONCILED && IsProof(f, r) && {GENERATION, IDENTITIES} <= i.Keys && FINAL in c
    && e[GENERATION] == i[GENERATION] && e[IDENTITIES] == i[IDENTITIES] && e[FINAL] == c[FINAL]
  }

  predicate IsAbort(r: Record) {
    var e := FieldsOf(r);
    && r.milestone == ABORTED && r.evidence.Dict? && e.Keys == {"reason", "mutation_possible"}
    && e["reason"].Text? && e["reason"].text != "" && e["mutation_possible"] == Flag(false)
  }

  predicate IsAmbiguity(r: Record) {
    var e := FieldsOf(r);
    && r.milestone == UNKNOWN && r.evidence.Dict?
    && e.Keys == {"stage", "reason", "mutation_possible", "host_commit_possible"}
    && e["stage"].Text? && e["stage"].text != "" && e["reason"].Text? && e["reason"].text != ""
    && e["mutation_possible"] == Flag(true) && e["host_commit_possible"].Flag?
  }

  /** The recovery's record is from a third connection. */
  predicate Reconnected(first: Record, intent: Record, r: Record) {
    var e, b, i := FieldsOf(r), BaselineOf(first), FieldsOf(intent);
    && GENERATION in e && GENERATION in b && GENERATION in i && e[GENERATION] != b[GENERATION] && e[GENERATION] != i[GENERATION]
  }

  /** The intent of the recovery: six digests, the mapping of the baseline, the identities of the original intent and,
      twice, the components of the commit. */
  predicate IsRecoveryIntent(f: Formats, first: Record, intent: Record, commit: Record, r: Record) {
    var e, b, i, c := FieldsOf(r), BaselineOf(first), FieldsOf(intent), FieldsOf(commit);
    && r.milestone == RECOVERY_INTENT && r.evidence.Dict? && MAPPING in b && IDENTITIES in i && FINAL in c
    && e.Keys == {GENERATION, MAPPING, DESCRIPTORS, INITIAL, INITIAL_SEP, IDENTITIES, PRIOR}
    && f.IsUuid(e[GENERATION]) && f.IsSha(e[MAPPING]) && f.IsSha(e[DESCRIPTORS]) && f.IsSha(e[INITIAL])
    && f.IsSha(e[INITIAL_SEP]) && f.IsSha(e[IDENTITIES]) && f.IsSha(e[PRIOR])
    && Reconnected(first, intent, r)
    && e[MAPPING] == b[MAPPING] && e[IDENTITIES] == i[IDENTITIES] && e[INITIAL] == c[FINAL] && e[PRIOR] == c[FINAL]
  }

  /** The recovery that finds nothing left to persist. */
  predicate IsRecoveredClean(f: Formats, first: Record, intent: Record, commit: Record, r: Record) {
    var e, i, c := FieldsOf(r), FieldsOf(intent), FieldsOf(commit);
    && r.milestone == RECOVERED_CLEAN && IsProof(f, r) && Reconnected(first, intent, r) && IDENTITIES in i && FINAL in c
    && e[FINAL] == c[FINAL] && e[IDENTITIES] == i[IDENTITIES]
  }

  /** The record at i, given that the earlier ones are lawful: baseline, intent; then commit, abort or ambiguity; after
      the commit, proof or ambiguity; after an ambiguity about a commit, the one recovery, which goes on as the
      first attempt did. */
  predicate LawfulAt(f: Formats, rs: seq<Record>, i: nat)
    requires i < |rs|
  {
    match i
    case 0 => IsFirst(f, rs[0])
    case 1 => IsOriginalIntent(f, rs[0], rs[1])
    case 2 => IsHostCommit(f, rs[1], rs[2]) || IsAbort(rs[2]) || IsAmbiguity(rs[2])
    case 3 => rs[2].milestone == HOST_COMMITTED && (IsReconciled(f, rs[1], rs[2], rs[3]) || IsAmbiguity(rs[3]))
    case 4 => rs[3].milestone == UNKNOWN && (IsRecoveryIntent(f, rs[0], rs[1], rs[2], rs[4]) || IsRecoveredClean(f, rs[0], rs[1], rs[2], rs[4]))
    case 5 => rs[4].milestone == RECOVERY_INTENT && (IsHostCommit(f, rs[4], rs[5]) || IsAbort(rs[5]) || IsAmbiguity(rs[5]))
    case 6 => rs[5].milestone == HOST_COMMITTED && (IsReconciled(f, rs[4], rs[5], rs[6]) || IsAmbiguity(rs[6]))
    case _ => false
  }

  predicate Lawful(f: Formats, rs: seq<Record>) {
    rs != [] && forall i :: 0 <= i < |rs| ==> LawfulAt(f, rs, i)
  }

  /** What the automaton has reached after lawful records. */
  function Reached(rs: seq<Record>): History
    requires rs != []
  {
    var n := |rs|;
    var m := rs[n - 1].milestone;
    var phase :=
      if n == 1 then AtBaseline
      else if m == INTENT || m == RECOVERY_INTENT then AtIntent
      else if m == HOST_COMMITTED then AtHostCommitted
      else if m == ABORTED then AtAborted
      else if m == UNKNOWN then AtUnknown
      else AtReconciled;
    var again := n >= 5 && rs[4].milestone == RECOVERY_INTENT;
    History(
      phase, BaselineOf(rs[0]),
      if n == 1 then None else if again then Some(FieldsOf(rs[4])) else Some(FieldsOf(rs[1])),
      if again then (if n >= 6 && rs[5].milestone == HOST_COMMITTED then Some(FieldsOf(rs[5])) else None)
      else if n >= 3 && rs[2].milestone == HOST_COMMITTED then Some(FieldsOf(rs[2])) else None,
      n >= 5)
  }

  lemma FirstExactly(f: Formats, r: Record)
    ensures Baseline(f, r).Ok? <==> IsFirst(f, r)
    ensures IsFirst(f, r) ==> Baseline(f, r) == Ok(History(AtBaseline, BaselineOf(r), None, None, false)) && f.IsBaseline(Dict(BaselineOf(r)))
  {
  }

  lemma IntentExactly(f: Formats, first: Record, h: History, r: Record)
    requires f.IsBaseline(Dict(h.baseline)) && h.baseline == BaselineOf(first) && h.phase.AtBaseline?
    ensures Next(f, h, r).Ok? <==> IsOriginalIntent(f, first, r)
    ensures IsOriginalIntent(f, first, r) ==> Next(f, h, r) == Ok(h.(phase := AtIntent, intent := Some(FieldsOf(r))))
  {
  }

  lemma AttemptExactly(f: Formats, intent: Record, h: History, r: Record)
    requires h.phase.AtIntent? && h.intent == Some(FieldsOf(intent))
    ensures Next(f, h, r).Ok? <==> IsHostCommit(f, intent, r) || IsAbort(r) || IsAmbiguity(r)
    ensures IsHostCommit(f, intent, r) ==> Next(f, h, r) == Ok(h.(phase := AtHostCommitted, hostCommit := Some(FieldsOf(r))))
    ensures IsAbort(r) ==> Next(f, h, r) == Ok(h.(phase := AtAborted))
    ensures IsAmbiguity(r) ==> Next(f, h, r) == Ok(h.(phase := AtUnknown))
  {
  }

  lemma CommittedExactly(f: Formats, intent: Record, commit: Record, h: History, r: Record)
    requires h.phase.AtHostCommitted? && h.intent == Some(FieldsOf(intent)) && h.hostCommit == Some(FieldsOf(commit))
    ensures Next(f, h, r).Ok? <==> IsReconciled(f, intent, commit, r) || IsAmbiguity(r)
    ensures IsReconciled(f, intent, commit, r) ==> Next(f, h, r) == Ok(h.(phase := AtReconciled))
    ensures IsAmbiguity(r) ==> Next(f, h, r) == Ok(h.(phase := AtUnknown))
  {
  }

  lemma RecoveryExactly(f: Formats, first: Record, intent: Record, commit: Record, h: History, r: Record)
    requires h.phase.AtUnknown? && !h.recoveryAttempted && h.baseline == BaselineOf(first)
    requires h.intent == Some(FieldsOf(intent)) && h.hostCommit == Some(FieldsOf(commit))
    ensures Next(f, h, r).Ok? <==> IsRecoveryIntent(f, first, intent, commit, r) || IsRecoveredClean(f, first, intent, commit, r)
    ensures IsRecoveryIntent(f, first, intent, commit, r) ==>
      Next(f, h, r) == Ok(h.(phase := AtIntent, intent := Some(FieldsOf(r)), hostCommit := None, recoveryAttempted := true))
    ensures IsRecoveredClean(f, first, intent, commit, r) ==> Next(f, h, r) == Ok(h.(phase := AtReconciled, recoveryAttempted := true))
  {
  }

  lemma EndExactly(f: Formats, h: History, r: Record)
    requires h.phase.AtAborted? || h.phase.AtReconciled? || (h.phase.AtUnknown? && (h.recoveryAttempted || h.hostCommit.None?))
    ensures Next(f, h, r).Err?
  {
  }

  /** What the milestones of lawful records say. */
  lemma Tags(f: Formats, rs: seq<Record>, i: nat)
    requires 0 < i < |rs| && LawfulAt(f, rs, i)
    ensures i < 7
    ensures i == 1 ==> rs[i].milestone == INTENT
    ensures i == 2 ==> rs[i].milestone in {HOST_COMMITTED, ABORTED, UNKNOWN} && (IsHostCommit(f, rs[1], rs[2]) ==> rs[2].milestone == HOST_COMMITTED)
    ensures i == 5 ==> rs[i].milestone in {HOST_COMMITTED, ABORTED, UNKNOWN} && (IsHostCommit(f, rs[4], rs[5]) ==> rs[5].milestone == HOST_COMMITTED)
    ensures i == 3 || i == 6 ==> rs[i].milestone in {RECONCILED, UNKNOWN}
    ensures i == 4 ==> rs[i].milestone in {RECOVERY_INTENT, RECOVERED_CLEAN}
    ensures i == 4 && IsRecoveryIntent(f, rs[0], rs[1], rs[2], rs[4]) ==> rs[4].milestone == RECOVERY_INTENT
    ensures i == 4 && IsRecoveredClean(f, rs[0], rs[1], rs[2], rs[4]) ==> rs[4].milestone == RECOVERED_CLEAN
    ensures IsAbort(rs[i]) ==> rs[i].milestone == ABORTED
    ensures IsAmbiguity(rs[i]) ==> rs[i].milestone == UNKNOWN
    ensures i == 3 && IsReconciled(f, rs[1], rs[2], rs[3]) ==> rs[3].milestone == RECONCILED
    ensures i == 6 && IsReconciled(f, rs[4], rs[5], rs[6]) ==> rs[6].milestone == RECONCILED
  {
  }

  lemma Distinct()
    ensures INTENT != HOST_COMMITTED && INTENT != ABORTED && INTENT != UNKNOWN && INTENT != RECOVERY_INTENT
    ensures RECOVERY_INTENT != HOST_COMMITTED && RECOVERY_INTENT != ABORTED && RECOVERY_INTENT != UNKNOWN
    ensures HOST_COMMITTED != ABORTED && HOST_COMMITTED != UNKNOWN && ABORTED != UNKNOWN
    ensures RECONCILED != INTENT && RECONCILED != RECOVERY_INTENT && RECONCILED != HOST_COMMITTED && RECONCILED != ABORTED && RECONCILED != UNKNOWN
    ensures RECOVERED_CLEAN != INTENT && RECOVERED_CLEAN != RECOVERY_INTENT && RECOVERED_CLEAN != HOST_COMMITTED
    ensures RECOVERED_CLEAN != ABORTED && RECOVERED_CLEAN != UNKNOWN
  {
  }

  predicate TagAt(rs: seq<Record>, i: nat)
    requires i < |rs|
  {
    rs[i].milestone in (
      if i == 1 then {INTENT} else if i == 2 || i == 5 then {HOST_COMMITTED, ABORTED, UNKNOWN}
      else if i == 4 then {RECOVERY_INTENT, RECOVERED_CLEAN} else {RECONCILED, UNKNOWN})
  }

  /** One step of the automaton accepts exactly the next lawful record. */
  lemma StepExactly(f: Formats, rs: seq<Record>)
    requires |rs| > 1 && Lawful(f, rs[..|rs| - 1])
    ensures var h, n := Reached(rs[..|rs| - 1]), |rs| - 1;
      && (Next(f, h, rs[n]).Ok? <==> LawfulAt(f, rs, n))
      && (LawfulAt(f, rs, n) ==> Next(f, h, rs[n]) == Ok(Reached(rs)))
  {
    var n := |rs| - 1;
    var p := rs[..n];
    assert LawfulAt(f, p, 0);
    FirstExactly(f, rs[0]);
    LawfulShort(f, p);
    forall i | 0 < i < n
      ensures LawfulAt(f, rs, i) && TagAt(rs, i)
    {
      assert LawfulAt(f, p, i);
      Tags(f, rs, i);
    }
    hide LawfulAt, Lawful, Next, Reached, IsFirst;
    StepCase(f, rs, n);
  }

  lemma StepCase(f: Formats, rs: seq<Record>, n: nat)
    requires 0 < n <= 7 && |rs| == n + 1 && f.IsBaseline(Dict(BaselineOf(rs[0])))
    requires forall i :: 0 < i < n ==> LawfulAt(f, rs, i) && TagAt(rs, i)
    ensures var h := Reached(rs[..n]);
      && (Next(f, h, rs[n]).Ok? <==> LawfulAt(f, rs, n))
      && (LawfulAt(f, rs, n) ==> Next(f, h, rs[n]) == Ok(Reached(rs)))
  {
    hide Next, LawfulAt, Reached, TagAt;
    var h := Reached(rs[..n]);
    match n
    case 1 => AfterOne(f, rs, h);
    case 2 => AfterTwo(f, rs, h);
    case 3 => AfterThree(f, rs, h);
    case 4 => AfterFour(f, rs, h);
    case 5 => AfterFive(f, rs, h);
    case 6 => AfterSix(f, rs, h);
    case 7 => AfterSeven(f, rs, h);
  }

  lemma AfterOne(f: Formats, rs: seq<Record>, h: History)
    requires |rs| == 2 && h == Reached(rs[..1]) && f.IsBaseline(Dict(BaselineOf(rs[0])))
    ensures Next(f, h, rs[1]).Ok? <==> LawfulAt(f, rs, 1)
    ensures LawfulAt(f, rs, 1) ==> Next(f, h, rs[1]) == Ok(Reached(rs))
  {
    if LawfulAt(f, rs, 1) {
      Tags(f, rs, 1);
    }
    hide Next, IsOriginalIntent, FieldsOf, BaselineOf;
    IntentExactly(f, rs[0], h, rs[1]);
  }

  lemma AfterTwo(f: Formats, rs: seq<Record>, h: History)
    requires |rs| == 3 && h == Reached(rs[..2]) && TagAt(rs, 1)
    ensures Next(f, h, rs[2]).Ok? <==> LawfulAt(f, rs, 2)
    ensures LawfulAt(f, rs, 2) ==> Next(f, h, rs[2]) == Ok(Reached(rs))
  {
    if LawfulAt(f, rs, 2) {
      Tags(f, rs, 2);
    }
    Distinct();
    hide Next, IsHostCommit, IsAbort, IsAmbiguity, FieldsOf, BaselineOf;
    AttemptExactly(f, rs[1], h, rs[2]);
  }

  lemma AfterSeven(f: Formats, rs: seq<Record>, h: History)
    requires |rs| == 8 && h == Reached(rs[..7]) && LawfulAt(f, rs, 5) && LawfulAt(f, rs, 6) && TagAt(rs, 6)
    ensures Next(f, h, rs[7]).Err? && !LawfulAt(f, rs, 7)
  {
    Distinct();
    hide Next, IsHostCommit, IsAbort, IsAmbiguity, IsReconciled, FieldsOf, BaselineOf;
    EndExactly(f, h, rs[7]);
  }

  lemma AfterThree(f: Formats, rs: seq<Record>, h: History)
    requires |rs| == 4 && h == Reached(rs[..3]) && TagAt(rs, 1) && TagAt(rs, 2)
    ensures Next(f, h, rs[3]).Ok? <==> LawfulAt(f, rs, 3)
    ensures LawfulAt(f, rs, 3) ==> Next(f, h, rs[3]) == Ok(Reached(rs))
  {
    if LawfulAt(f, rs, 3) {
      Tags(f, rs, 3);
    }
    Distinct();
    hide Next, IsAmbiguity, IsReconciled, FieldsOf, BaselineOf;
    if rs[2].milestone == HOST_COMMITTED {
      CommittedExactly(f, rs[1], rs[2], h, rs[3]);
    } else {
      EndExactly(f, h, rs[3]);
    }
  }

  lemma AfterFour(f: Formats, rs: seq<Record>, h: History)
    requires |rs| == 5 && h == Reached(rs[..4]) && TagAt(rs, 1) && TagAt(rs, 2) && TagAt(rs, 3) && LawfulAt(f, rs, 3)
    ensures Next(f, h, rs[4]).Ok? <==> LawfulAt(f, rs, 4)
    ensures LawfulAt(f, rs, 4) ==> Next(f, h, rs[4]) == Ok(Reached(rs))
  {
    if LawfulAt(f, rs, 4) {
      Tags(f, rs, 4);
    }
    Distinct();
    hide Next, IsRecoveryIntent, IsRecoveredClean, IsReconciled, IsAmbiguity, FieldsOf, BaselineOf;
    if rs[3].milestone == UNKNOWN {
      RecoveryExactly(f, rs[0], rs[1], rs[2], h, rs[4]);
    } else {
      EndExactly(f, h, rs[4]);
    }
  }

  lemma AfterFive(f: Formats, rs: seq<Record>, h: History)
    requires |rs| == 6 && h == Reached(rs[..5]) && TagAt(rs, 4)
    ensures Next(f, h, rs[5]).Ok? <==> LawfulAt(f, rs, 5)
    ensures LawfulAt(f, rs, 5) ==> Next(f, h, rs[5]) == Ok(Reached(rs))
  {
    if LawfulAt(f, rs, 5) {
      Tags(f, rs, 5);
    }
    Distinct();
    hide Next, IsHostCommit, IsAbort, IsAmbiguity, FieldsOf, BaselineOf;
    if rs[4].milestone == RECOVERY_INTENT {
      AttemptExactly(f, rs[4], h, rs[5]);
    } else {
      EndExactly(f, h, rs[5]);
    }
  }

  lemma AfterSix(f: Formats, rs: seq<Record>, h: History)
    requires |rs| == 7 && h == Reached(rs[..6]) && LawfulAt(f, rs, 5) && TagAt(rs, 5)
    ensures Next(f, h, rs[6]).Ok? <==> LawfulAt(f, rs, 6)
    ensures LawfulAt(f, rs, 6) ==> Next(f, h, rs[6]) == Ok(Reached(rs))
  {
    if LawfulAt(f, rs, 6) {
      Tags(f, rs, 6);
    }
    Distinct();
    hide Next, IsAmbiguity, IsReconciled, IsHostCommit, IsAbort, FieldsOf, BaselineOf;
    if rs[5].milestone == HOST_COMMITTED {
      CommittedExactly(f, rs[4], rs[5], h, rs[6]);
    } else {
      EndExactly(f, h, rs[6]);
    }
  }

  /** The automaton accepts exactly the lawful journals: at most seven records, one recovery, every shape and every
      binding. */
  lemma {:induction false} HistoryExactly(f: Formats, rs: seq<Record>)
    ensures Validate(f, rs).Ok? <==> Lawful(f, rs)
    ensures Lawful(f, rs) ==> |rs| <= 7 && Validate(f, rs) == Ok(Reached(rs))
    decreases |rs|
  {
    hide Next, Baseline, LawfulAt, Reached;
    if |rs| == 1 {
      LawfulOne(f, rs);
    } else if rs != [] {
      var p := rs[..|rs| - 1];
      HistoryExactly(f, p);
      LawfulPrefix(f, rs);
      if Lawful(f, p) {
        StepExactly(f, rs);
      }
    }
  }

  lemma LawfulOne(f: Formats, rs: seq<Record>)
    requires |rs| == 1
    ensures Lawful(f, rs) <==> Baseline(f, rs[0]).Ok?
    ensures Lawful(f, rs) ==> Baseline(f, rs[0]) == Ok(Reached(rs))
  {
    FirstExactly(f, rs[0]);
    assert LawfulAt(f, rs, 0) <==> IsFirst(f, rs[0]);
  }

  lemma LawfulShort(f: Formats, rs: seq<Record>)
    requires Lawful(f, rs)
    ensures |rs| <= 7
  {
    assert |rs| > 7 ==> LawfulAt(f, rs, 7);
  }

  lemma LawfulPrefix(f: Formats, rs: seq<Record>)
    requires |rs| > 1
    ensures Lawful(f, rs) <==> Lawful(f, rs[..|rs| - 1]) && LawfulAt(f, rs, |rs| - 1)
    ensures Lawful(f, rs) ==> |rs| <= 7
  {
    var p := rs[..|rs| - 1];
    assert forall i :: 0 <= i < |p| ==> LawfulAt(f, p, i) == LawfulAt(f, rs, i);
    if Lawful(f, rs) {
      LawfulShort(f, rs);
    }
  }
}
