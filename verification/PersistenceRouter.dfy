/** The router of one persistence plan over the two transports, and the language of its traffic. */
module PersistenceRouter {
  import opened Outcomes
  import opened BridgeLease
  import opened BridgeWire
  import opened AksProtocol
  import CatacombBridge
  import BioLockoutBridge
  import Protocol = CatacombProtocol

  /** The local routing token for the lockout record: magic, command 0x4A, version 1, zeros. */
  const TOKEN: Bytes := [0x48, 0x52, 0x4C, 0x42, 0x4A, 0, 0, 0, 1, 0, 0, 0, 0, 0, 0, 0, 0, 0, 0, 0, 0, 0, 0, 0]

  datatype Route = Idle | Catacomb | BioLockoutPrepared | BioLockoutCaptured

  /** A transaction is under way after this command. */
  predicate Opens(e: Sent) {
    Prepares(e) || Completes(e)
  }

  /** No transaction is under way or cut short after this command: the lockout export, a confirmation that
      succeeded, and a preparation that did not. */
  predicate Settles(e: Sent) {
    e.command == EXPORT || Confirms(e) || (e.command == PREPARE && !Prepares(e))
  }

  /** What may directly follow what: completions and confirmations their predecessor, on its descriptor,
      nothing else anything that has a transaction under way, and preparations and exports no
      transaction that is not settled. */
  predicate Follows(p: Sent, e: Sent) {
    && (e.command == COMPLETE ==>
          Prepares(p) && PreparedLength(p) == Some(e.capacity) && e.data == p.data && e.version == p.version)
    && (e.command == CONFIRM ==> Completes(p) && e.data == p.data && e.version == p.version)
    && (Opens(p) ==> e.command == COMPLETE || e.command == CONFIRM)
    && (MayBegin(e) ==> Settles(p))
  }

  predicate MayBegin(e: Sent) {
    e.command == PREPARE || e.command == EXPORT
  }

  /** Later traffic that earlier traffic permits: none of the failed transport, one export at most. */
  predicate MayComeAfter(p: Sent, e: Sent) {
    (IsCatacomb(p) && !Succeeds(p) ==> !IsCatacomb(e)) && (p.command == EXPORT ==> e.command != EXPORT)
  }

  /** The language of the traffic. */
  ghost predicate WellRouted(log: seq<Sent>) {
    && (log != [] ==> MayBegin(log[0]))
    && (forall i, j :: 0 <= i < |log| && j == i + 1 < |log| ==> Follows(log[i], log[j]))
    && (forall i, j :: 0 <= i < j < |log| ==> MayComeAfter(log[i], log[j]))
    && (forall i :: 0 <= i < |log| ==> IsCatacomb(log[i]) || log[i].command == EXPORT)
  }

  ghost predicate Failed(log: seq<Sent>) {
    exists i :: 0 <= i < |log| && IsCatacomb(log[i]) && !Succeeds(log[i])
  }

  ghost predicate Exported(log: seq<Sent>) {
    exists i :: 0 <= i < |log| && log[i].command == EXPORT
  }

  ghost predicate Open(log: seq<Sent>) {
    log != [] && Opens(log[|log| - 1])
  }

  ghost predicate Settled(log: seq<Sent>) {
    log == [] || Settles(log[|log| - 1])
  }

  lemma Routed(log: seq<Sent>, e: Sent)
    requires WellRouted(log) && (IsCatacomb(e) || e.command == EXPORT)
    requires if log == [] then MayBegin(e) else Follows(log[|log| - 1], e)
    requires IsCatacomb(e) ==> !Failed(log)
    requires e.command == EXPORT ==> !Exported(log)
    ensures WellRouted(log + [e])
  {
    hide Succeeds, Follows, MayBegin;
    var longer := log + [e];
    assert longer[|log|] == e && forall i :: 0 <= i < |log| ==> longer[i] == log[i];
    forall i | 0 <= i < |log|
      ensures MayComeAfter(log[i], e)
    {
    }
    hide MayComeAfter, IsCatacomb;
  }

  lemma Grown(log: seq<Sent>, e: Sent)
    ensures Failed(log + [e]) <==> Failed(log) || (IsCatacomb(e) && !Succeeds(e))
    ensures Exported(log + [e]) <==> Exported(log) || e.command == EXPORT
    ensures Open(log + [e]) <==> Opens(e)
    ensures Settled(log + [e]) <==> Settles(e)
  {
    hide Succeeds, Opens, Settles, IsCatacomb;
    var longer := log + [e];
    assert longer[|log|] == e && forall i :: 0 <= i < |log| ==> longer[i] == log[i];
  }

  /** The bytes are those of the answer: the output of the lockout export, or the accepted Catacomb blob. */
  predicate HandsOver(e: Sent, captured: bool, output: Bytes) {
    if captured then Exports(e) && e.result.reply.items[1] == Octets(output)
    else Completes(e) && CatacombAnswer(e) == Ok((0, output))
  }

  class Router {
    const lease: Lease
    const catacomb: CatacombBridge.Transport
    const biolockout: BioLockoutBridge.Transport
    var state: Route

    constructor (lease: Lease, version: nat)
      requires (version == 1 || version == 2) && lease.log == []
      ensures Valid() && state == Idle && this.lease == lease && fresh(catacomb) && fresh(biolockout)
      ensures catacomb.state == CatacombBridge.Idle && catacomb.version == version && biolockout.state == BioLockoutBridge.Ready
    {
      this.lease := lease;
      state := Idle;
      catacomb := new CatacombBridge.Transport(lease, version);
      biolockout := new BioLockoutBridge.Transport(lease);
    }

    /** The traffic so far is in the language, and the states agree with it. */
    ghost predicate Valid()
      reads this, lease, catacomb, biolockout
    {
      && catacomb.lease == lease && biolockout.lease == lease && catacomb.Valid()
      && WellRouted(lease.log)
      && (Failed(lease.log) ==> catacomb.state == CatacombBridge.Poisoned)
      && (Exported(lease.log) ==> biolockout.state != BioLockoutBridge.Ready)
      && (catacomb.state == CatacombBridge.Prepared ==>
            && Open(lease.log) && Prepares(Last()) && PreparedLength(Last()) == catacomb.expectedLength
            && catacomb.descriptor == Some(Last().data) && Last().version == catacomb.version)
      && (catacomb.state == CatacombBridge.Completed ==>
            && Open(lease.log) && Completes(Last())
            && catacomb.descriptor == Some(Last().data) && Last().version == catacomb.version)
      && (catacomb.state == CatacombBridge.Idle ==> !Open(lease.log))
      && (catacomb.state == CatacombBridge.Idle ==> Settled(lease.log))
      && (state != Catacomb ==> Settled(lease.log))
    }

    function Last(): Sent
      requires lease.log != []
      reads lease
    {
      lease.log[|lease.log| - 1]
    }

    /** A preparation of this descriptor goes out, if the connection is steady; likewise a capture. */
    predicate Able(descriptor: Bytes)
      reads this, catacomb
    {
      state == Idle && catacomb.state == CatacombBridge.Idle && descriptor != TOKEN && catacomb.DescriptorAllowed(descriptor)
    }

    predicate Capturable(descriptor: Bytes)
      reads this, biolockout
    {
      state == BioLockoutPrepared && biolockout.state == BioLockoutBridge.Ready && descriptor == TOKEN
    }

    predicate Completable(descriptor: Bytes)
      reads this, catacomb
    {
      state == Catacomb && catacomb.state == CatacombBridge.Prepared && descriptor != TOKEN && catacomb.descriptor == Some(descriptor)
    }

    predicate Confirmable(descriptor: Bytes)
      reads this, catacomb
    {
      state == Catacomb && catacomb.state == CatacombBridge.Completed && descriptor != TOKEN && catacomb.descriptor == Some(descriptor)
    }

    /** One more command was sent, and answered from outside. */
    twostate predicate Answers(command: nat)
      reads lease
    {
      && |lease.log| == |old(lease.log)| + 1 && lease.log[..|old(lease.log)|] == old(lease.log)
      && Last().command == command && (Last().result, Last().same) == lease.answers(|old(lease.log)|)
    }

    method Prepare(descriptor: Bytes) returns (r: Result<nat>)
      requires Valid()
      modifies this, lease, catacomb
      ensures Valid() && old(lease.log) <= lease.log
      ensures old(state) != Idle ==> r.Err? && lease.log == old(lease.log)
      ensures state == if r.Err? then old(state) else if descriptor == TOKEN then BioLockoutPrepared else Catacomb
      ensures descriptor == TOKEN ==> lease.log == old(lease.log) && (r == if old(state) == Idle then Ok(EXPORT_CAPACITY) else Err)
      ensures r.Ok? && descriptor != TOKEN ==> lease.log != old(lease.log) && Prepares(Last()) && Last().data == descriptor
      ensures r.Ok? && descriptor != TOKEN ==> lease.log != [] && PreparedLength(Last()) == Some(r.value)
      ensures old(catacomb.state) == CatacombBridge.Poisoned ==> catacomb.state == CatacombBridge.Poisoned && lease.log == old(lease.log)
      ensures old(lease.Current()) && old(Able(descriptor)) ==> Answers(PREPARE) && (r.Ok? <==> Prepares(Last()))
    {
      hide WellRouted, Failed, Exported, Prepares, Completes, PreparedLength, TOKEN;
      if state != Idle {
        return Err;
      }
      if descriptor == TOKEN {
        state := BioLockoutPrepared;
        return Ok(EXPORT_CAPACITY);
      }
      state := Catacomb;
      ghost var before := lease.log;
      if before != [] {
        ByCommand(before[|before| - 1]);
      }
      r := catacomb.Prepare(descriptor);
      if lease.log != before {
        Extended(before, lease.log);
        ByCommand(lease.log[|before|]);
      }
      if r.Err? {
        state := Idle;
      }
    }

    method Complete(descriptor: Bytes) returns (r: Result<Bytes>)
      requires Valid()
      modifies this, lease, catacomb, biolockout
      ensures Valid() && old(lease.log) <= lease.log
      ensures old(state) != (if descriptor == TOKEN then BioLockoutPrepared else Catacomb) ==> r.Err? && lease.log == old(lease.log)
      ensures state == if r.Ok? && descriptor == TOKEN then BioLockoutCaptured else old(state)
      ensures r.Ok? && descriptor == TOKEN ==> lease.log != old(lease.log) && Exports(Last())
      ensures r.Ok? && descriptor != TOKEN ==> lease.log != old(lease.log) && Completes(Last()) && Last().data == descriptor
      ensures r.Ok? && descriptor != TOKEN ==> lease.log != [] && |r.value| == Last().capacity
      ensures old(catacomb.state) == CatacombBridge.Poisoned ==> (
        && catacomb.state == CatacombBridge.Poisoned
        && (lease.log != old(lease.log) ==> Answers(EXPORT) && old(Capturable(descriptor)) && biolockout.state != BioLockoutBridge.Ready)
        && (biolockout.state == BioLockoutBridge.Ready ==> old(biolockout.state) == BioLockoutBridge.Ready))
      ensures old(lease.Current()) && old(Capturable(descriptor)) ==> Answers(EXPORT) && (r.Ok? <==> Exports(Last()))
      ensures old(lease.Current()) && old(Completable(descriptor)) ==> Answers(COMPLETE) && (r.Ok? <==> Completes(Last()))
      ensures r.Ok? ==> lease.log != [] && HandsOver(Last(), descriptor == TOKEN, r.value)
    {
      hide WellRouted, Failed, Exported, Prepares, Completes, Exports, PreparedLength, TOKEN;
      ghost var before := lease.log;
      if descriptor == TOKEN {
        if state != BioLockoutPrepared {
          return Err;
        }
        r := biolockout.Capture();
        if lease.log != before {
          if before != [] {
            ByCommand(before[|before| - 1]);
          }
          ByCommand(lease.log[|before|]);
          Extended(before, lease.log);
        }
        if r.Err? {
          return Err;
        }
        state := BioLockoutCaptured;
        return;
      }
      if state != Catacomb {
        return Err;
      }
      r := catacomb.Complete(descriptor);
      if lease.log != before {
        ByCommand(before[|before| - 1]);
        ByCommand(lease.log[|before|]);
        Extended(before, lease.log);
      }
    }

    method Confirm(descriptor: Bytes) returns (ok: bool)
      requires Valid()
      modifies this, lease, catacomb
      ensures Valid() && old(lease.log) <= lease.log
      ensures old(state) != (if descriptor == TOKEN then BioLockoutCaptured else Catacomb) ==> !ok && lease.log == old(lease.log)
      ensures state == if ok then Idle else old(state)
      ensures descriptor == TOKEN ==> lease.log == old(lease.log) && (ok <==> old(state) == BioLockoutCaptured)
      ensures ok && descriptor != TOKEN ==> lease.log != old(lease.log) && Confirms(Last()) && Last().data == descriptor
      ensures old(lease.Current()) && old(Confirmable(descriptor)) ==> Answers(CONFIRM) && (ok <==> Confirms(Last()))
      ensures old(catacomb.state) == CatacombBridge.Poisoned ==> catacomb.state == CatacombBridge.Poisoned && lease.log == old(lease.log)
    {
      hide WellRouted, Failed, Exported, Prepares, Completes, Confirms, PreparedLength, TOKEN;
      if descriptor == TOKEN {
        if state != BioLockoutCaptured {
          return false;
        }
        state := Idle;
        return true;
      }
      if state != Catacomb {
        return false;
      }
      ghost var before := lease.log;
      ok := catacomb.Confirm(descriptor);
      if lease.log != before {
        ByCommand(before[|before| - 1]);
        ByCommand(lease.log[|before|]);
        Extended(before, lease.log);
      }
      if ok {
        state := Idle;
      }
    }
  }

  lemma Extended(before: seq<Sent>, after: seq<Sent>)
    requires WellRouted(before) && |after| == |before| + 1 && after[..|before|] == before
    requires var e := after[|before|];
      && (IsCatacomb(e) || e.command == EXPORT)
      && (if before == [] then MayBegin(e) else Follows(before[|before| - 1], e))
      && (IsCatacomb(e) ==> !Failed(before)) && (e.command == EXPORT ==> !Exported(before))
    ensures before <= after && WellRouted(after)
    ensures var e := after[|before|];
      && (Failed(after) <==> Failed(before) || (IsCatacomb(e) && !Succeeds(e)))
      && (Exported(after) <==> Exported(before) || e.command == EXPORT)
      && (Open(after) <==> Opens(e)) && (Settled(after) <==> Settles(e))
  {
    hide WellRouted, Failed, Exported, Open, Settled;
    var e := after[|before|];
    assert after == before + [e];
    Routed(before, e);
    Grown(before, e);
  }

  /** An outcome belongs to its command. */
  lemma ByCommand(e: Sent)
    ensures Prepares(e) ==> e.command == PREPARE
    ensures Completes(e) ==> e.command == COMPLETE
    ensures Confirms(e) ==> e.command == CONFIRM
    ensures Exports(e) ==> e.command == EXPORT
  {
  }

  /** A blob of a completed transaction has the length that the preparation announced. */
  predicate WholeTriple(p: Sent, c: Sent, f: Sent) {
    && Prepares(p) && Completes(c) && f.command == CONFIRM
    && p.data == c.data == f.data && p.version == c.version == f.version
    && PreparedLength(p) == Some(|CatacombAnswer(c).value.1|)
  }

  /** Completions belong to a preparation, confirmations end a whole transaction, a transaction goes on
      with nothing else, and an export stands between transactions or after a failed preparation. */
  lemma TrafficLanguage(log: seq<Sent>, i: nat)
    requires WellRouted(log) && i < |log|
    ensures log[i].command == COMPLETE ==> (
      i > 0 && Prepares(log[i - 1]) && log[i].data == log[i - 1].data && PreparedLength(log[i - 1]) == Some(log[i].capacity))
    ensures log[i].command == CONFIRM ==> i > 1 && WholeTriple(log[i - 2], log[i - 1], log[i])
    ensures log[i].command == PREPARE ==> i == 0 || Confirms(log[i - 1]) || log[i - 1].command == EXPORT
    ensures Prepares(log[i]) && i + 1 < |log| ==> log[i + 1].command == COMPLETE
    ensures Completes(log[i]) && i + 1 < |log| ==> log[i + 1].command == CONFIRM
    ensures log[i].command == EXPORT ==> (
      i == 0 || Confirms(log[i - 1]) || (log[i - 1].command == PREPARE && !Prepares(log[i - 1])))
  {
  }

  /** Any number of calls, with any arguments. Once the Catacomb transport is poisoned, nothing more is sent while
      the route is its own, and at most one lockout export otherwise. */
  method Drive(r: Router, calls: nat)
    requires r.Valid()
    modifies r, r.lease, r.catacomb, r.biolockout
    ensures r.Valid() && old(r.lease.log) <= r.lease.log
    ensures old(r.catacomb.state) == CatacombBridge.Poisoned ==> (
      && r.catacomb.state == CatacombBridge.Poisoned
      && (old(r.state) == Catacomb ==> r.lease.log == old(r.lease.log))
      && (r.lease.log == old(r.lease.log) || (|r.lease.log| == |old(r.lease.log)| + 1 && r.Last().command == EXPORT)))
  {
    hide Router.Valid;
    ghost var log, poisoned := r.lease.log, r.catacomb.state == CatacombBridge.Poisoned;
    for i := 0 to calls
      invariant r.Valid() && log <= r.lease.log
      invariant poisoned ==> r.catacomb.state == CatacombBridge.Poisoned
      invariant poisoned && old(r.state) == Catacomb ==> r.state == Catacomb && r.lease.log == log
      invariant poisoned && r.lease.log != log ==> (
        |r.lease.log| == |log| + 1 && r.Last().command == EXPORT && r.biolockout.state != BioLockoutBridge.Ready)
    {
      var descriptor: Bytes :| true;
      if {
        case true => var prepared := r.Prepare(descriptor);
        case true => var completed := r.Complete(descriptor);
        case true => var confirmed := r.Confirm(descriptor);
      }
    }
  }

  /** An export after a failed preparation: the preparation raises, the lockout record is then captured. */
  method ExportAfterFailedPreparation() returns (r: Router)
    ensures r.Valid() && |r.lease.log| == 2
    ensures r.lease.log[0].command == PREPARE && !Prepares(r.lease.log[0]) && Exports(r.lease.log[1])
  {
    hide Router.Valid;
    var blob := SECURE_MAGIC + [0, 0, 0, 0, 0, 0, 0, 0, 0, 0, 0, 0];
    var captured := Pair(Items([Integer(0), Octets(blob)]), Items([]));
    var lease := new Lease((i: nat) => if i == 0 then (Raises, true) else (captured, true), (i: nat) => true);
    r := new Router(lease, 1);
    var prepared := r.Prepare([0, 0, 0, 0]);
    assert lease.log[0].command == PREPARE && lease.log[0].result == Raises;
    prepared := r.Prepare(TOKEN);
    var record := r.Complete(TOKEN);
  }

  /** The routing token is the descriptor of no user and of no master component; it would be that of a
      group of type 0x4A, which is never planned. */
  lemma TokenIsNoPlannedComponent(c: Protocol.Component)
    requires Protocol.Canonical(c) && Protocol.Descriptor(c) == TOKEN
    ensures Protocol.KindOf(c) == Protocol.GroupKind && c.groupType == EXPORT
  {
    hide Le32, TOKEN;
    var d := Protocol.Descriptor(c);
    assert d[..4] == Le32(c.userId) && d[4..8] == Le32(c.groupType);
    GetInverse(c.userId);
    GetInverse(c.groupType);
    TokenWords();
  }

  lemma TokenWords()
    ensures |TOKEN| == 24 && GetLe32(TOKEN[4..8]) == EXPORT
  {
  }
}
