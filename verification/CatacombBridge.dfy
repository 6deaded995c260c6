/** One Catacomb persistence transaction after another over a pinned lease; any doubt is final. */
module CatacombBridge {
  import opened Outcomes
  import opened AksProtocol
  import opened BridgeWire
  import opened BridgeLease
  import Protocol = CatacombProtocol

  datatype State = Idle | Prepared | Completed | Poisoned

  class Transport {
    const lease: Lease
    const version: nat
    var state: State
    var descriptor: Option<Bytes>
    var expectedLength: Option<nat>

    constructor (lease: Lease, version: nat)
      requires version == 1 || version == 2
      ensures this.lease == lease && this.version == version && Valid() && state == Idle
    {
      this.lease, this.version, state, descriptor, expectedLength := lease, version, Idle, None, None;
    }

    ghost predicate Valid()
      reads this
    {
      && (version == 1 || version == 2)
      && (state == Prepared || state == Completed ==>
            descriptor.Some? && expectedLength.Some? && DescriptorAllowed(descriptor.value)
            && 0 < expectedLength.value <= Protocol.MAX_SECURE_BLOB_SIZE)
    }

    predicate DescriptorAllowed(d: Bytes) {
      |d| == if version == 1 then 4 else 24
    }

    /** Send, unless the generation is known to have changed, and poison on any doubtful answer. */
    method Dispatch(command: nat, data: Bytes, capacity: nat) returns (r: Result<(int, Bytes)>)
      modifies this, lease
      ensures descriptor == old(descriptor) && expectedLength == old(expectedLength)
      ensures r.Ok? ==> state == old(state)
      ensures r.Err? ==> state == Poisoned
      ensures lease.log != old(lease.log) <==> old(lease.Current())
      ensures (lease.log == old(lease.log) && r.Err?) || (
        && |lease.log| == |old(lease.log)| + 1 && lease.log[..|old(lease.log)|] == old(lease.log)
        && var e := lease.log[|old(lease.log)|];
        && e.command == command && e.data == data && e.capacity == capacity && e.version == version
        && (e.result, e.same) == lease.answers(|old(lease.log)|) && r == CatacombAnswer(e))
    {
      var same := lease.SameGeneration();
      if !same {
        state := Poisoned;
        return Err;
      }
      var e := lease.BiometricCommand(command, version, data, capacity);
      r := CatacombAnswer(e);
      if r.Err? {
        state := Poisoned;
      }
    }

    /** What one operation may add to the traffic: nothing, or one command of these arguments. */
    twostate predicate Adds(command: nat, data: Bytes, capacity: nat)
      reads this, lease
    {
      && |lease.log| == |old(lease.log)| + 1 && lease.log[..|old(lease.log)|] == old(lease.log)
      && var e := lease.log[|old(lease.log)|];
      && e.command == command && e.data == data && e.capacity == capacity && e.version == version
      && (e.result, e.same) == lease.answers(|old(lease.log)|)
    }

    method Prepare(d: Bytes) returns (r: Result<nat>)
      requires Valid()
      modifies this, lease
      ensures Valid()
      ensures lease.log == old(lease.log) || Adds(PREPARE, d, 4)
      ensures old(state) != Idle ==> r.Err? && lease.log == old(lease.log) && state == old(state)
      ensures lease.log != old(lease.log) ==> (r.Ok? <==> Prepares(lease.log[|old(lease.log)|]))
      ensures lease.log != old(lease.log) <==> old(state) == Idle && |d| == (if version == 1 then 4 else 24) && old(lease.Current())
      ensures r.Ok? ==> lease.log != old(lease.log) && PreparedLength(lease.log[|old(lease.log)|]) == Some(r.value)
      ensures r.Ok? ==> state == Prepared && descriptor == Some(d) && expectedLength == Some(r.value)
      ensures r.Err? ==> state == Poisoned || (lease.log == old(lease.log) && state == old(state))
      ensures r.Err? && lease.log == old(lease.log) ==> state == Poisoned || old(state) != Idle || !DescriptorAllowed(d)
    {
      if state != Idle || !DescriptorAllowed(d) {
        return Err;
      }
      var answer :- Dispatch(PREPARE, d, 4);
      if answer.0 != 0 || |answer.1| != 4 || !(0 < GetLe32(answer.1) <= Protocol.MAX_SECURE_BLOB_SIZE) {
        state := Poisoned;
        return Err;
      }
      descriptor, expectedLength, state := Some(d), Some(GetLe32(answer.1)), Prepared;
      r := Ok(GetLe32(answer.1));
    }

    method Complete(d: Bytes) returns (r: Result<Bytes>)
      requires Valid()
      modifies this, lease
      ensures Valid() && descriptor == old(descriptor) && expectedLength == old(expectedLength)
      ensures lease.log == old(lease.log) || (
        old(state) == Prepared && descriptor == Some(d) && Adds(COMPLETE, d, expectedLength.value))
      ensures lease.log != old(lease.log) ==> (r.Ok? <==> Completes(lease.log[|old(lease.log)|]))
      ensures old(state) == Prepared && descriptor == Some(d) ==> (lease.log != old(lease.log) <==> old(lease.Current()))
      ensures r.Ok? ==> lease.log != old(lease.log) && CatacombAnswer(lease.log[|old(lease.log)|]) == Ok((0, r.value))
      ensures r.Ok? ==> state == Completed && |r.value| == expectedLength.value
      ensures r.Err? ==> state == Poisoned || (lease.log == old(lease.log) && state == old(state))
      ensures r.Err? && lease.log == old(lease.log) ==> state == Poisoned || old(state) != Prepared || descriptor != Some(d)
    {
      if state != Prepared || Some(d) != descriptor {
        return Err;
      }
      var answer :- Dispatch(COMPLETE, d, expectedLength.value);
      if answer.0 != 0 || |answer.1| != expectedLength.value {
        state := Poisoned;
        return Err;
      }
      state := Completed;
      r := Ok(answer.1);
    }

    method Confirm(d: Bytes) returns (ok: bool)
      requires Valid()
      modifies this, lease
      ensures Valid()
      ensures lease.log == old(lease.log) || (old(state) == Completed && old(descriptor) == Some(d) && Adds(CONFIRM, d, 0))
      ensures lease.log != old(lease.log) ==> (ok <==> Confirms(lease.log[|old(lease.log)|]))
      ensures old(state) == Completed && old(descriptor) == Some(d) ==> (lease.log != old(lease.log) <==> old(lease.Current()))
      ensures ok ==> lease.log != old(lease.log) && state == Idle
      ensures !ok ==> state == Poisoned || (lease.log == old(lease.log) && state == old(state))
      ensures !ok && lease.log == old(lease.log) ==> state == Poisoned || old(state) != Completed || descriptor != Some(d)
      ensures !ok ==> descriptor == old(descriptor) && expectedLength == old(expectedLength)
    {
      if state != Completed || Some(d) != descriptor {
        return false;
      }
      var answer := Dispatch(CONFIRM, d, 0);
      if answer.Err? {
        return false;
      }
      if answer.value.0 != 0 || answer.value.1 != [] {
        state := Poisoned;
        return false;
      }
      descriptor, expectedLength, state := None, None, Idle;
      ok := true;
    }
  }

  const SAVE_STATE: nat := 0x3C
  const SAVE_STATE_CAPACITY := 4096

  /** The bytes of an accepted answer to a save-state query. */
  function SaveState(e: Sent): Result<Bytes> {
    if !Answered(e) || e.result.reply.items[0] != Integer(0) then Err
    else
      var output := e.result.reply.items[1];
      if !output.Octets? || |output.bytes| > SAVE_STATE_CAPACITY then Err else Ok(output.bytes)
  }

  /** An accepted answer to the query: status zero and at most 4096 bytes. */
  lemma SaveStateExactly(e: Sent, output: Bytes)
    ensures SaveState(e) == Ok(output) <==>
      e.same && e.result == Pair(Items([Integer(0), Octets(output)]), Items([])) && |output| <= 4096
  {
    if Answered(e) {
      TwoItems(e.result.reply.items);
    }
  }

  /** The command at i asks for the save state. */
  ghost predicate Queried(lease: Lease, i: nat)
    requires i < |lease.log|
    reads lease
  {
    var e := lease.log[i];
    && e.command == 0x3C && e.version == 1 && e.data == [] && e.capacity == 4096
    && (e.result, e.same) == lease.answers(i)
  }

  /** Read the save state twice and plan only if both readings are the same; a failure after anything was
      sent invalidates the lease. */
  method CollectBuiltinSaveComponents(lease: Lease, userId: int) returns (r: Result<(Protocol.Component, Protocol.Component)>)
    modifies lease
    ensures old(lease.log) <= lease.log
    ensures lease.log != old(lease.log) <==> old(lease.Current()) && 0 <= userId < Protocol.UINT32_MAX
    ensures lease.log == old(lease.log) ==> r.Err?
    ensures lease.log != old(lease.log) ==> (
      var n := |old(lease.log)|;
      var first := SaveState(lease.log[n]);
      if first.Err? then r.Err? && |lease.log| == n + 1
      else
        && |lease.log| == n + 2
        && (if SaveState(lease.log[n + 1]) != first then r.Err?
            else var states := Protocol.ParsedStates(Protocol.UserRecords, first.value);
              r == if states.Ok? then Protocol.PlanSave(states.value, [], userId) else Err))
    ensures lease.invalidated == (old(lease.invalidated) || (r.Err? && lease.log != old(lease.log)))
    ensures forall i :: |old(lease.log)| <= i < |lease.log| ==> Queried(lease, i)
  {
    var same := lease.SameGeneration();
    if !same || !(0 <= userId < Protocol.UINT32_MAX) {
      return Err;
    }
    hide SaveState, Protocol.PlanSave, Protocol.ParsedStates;
    var first := lease.BiometricCommand(SAVE_STATE, 1, [], SAVE_STATE_CAPACITY);
    if SaveState(first).Err? {
      lease.Invalidate();
      return Err;
    }
    var second := lease.BiometricCommand(SAVE_STATE, 1, [], SAVE_STATE_CAPACITY);
    if SaveState(second) != SaveState(first) {
      lease.Invalidate();
      return Err;
    }
    var states := Protocol.ParseStates(Protocol.UserRecords, SaveState(first).value);
    r := if states.Ok? then Protocol.PlanSave(states.value, [], userId) else Err;
    if r.Err? {
      lease.Invalidate();
    }
  }
}
