/** One export of the lockout record per connection. */
module BioLockoutBridge {
  import opened Outcomes
  import opened BridgeWire
  import opened BridgeLease

  datatype State = Ready | Captured | Poisoned

  class Transport {
    const lease: Lease
    var state: State

    constructor (lease: Lease)
      ensures this.lease == lease && state == Ready
    {
      this.lease, state := lease, Ready;
    }

    /** Sends at most one command, and only once; a doubtful answer poisons and invalidates the lease. */
    method Capture() returns (r: Result<Bytes>)
      modifies this, lease
      ensures old(state) != Ready ==> r.Err? && lease.log == old(lease.log) && state == old(state)
      ensures lease.log == old(lease.log) ==> r.Err? && state == old(state) && lease.invalidated == old(lease.invalidated)
      ensures lease.log != old(lease.log) ==> (
        && |lease.log| == |old(lease.log)| + 1 && lease.log[..|old(lease.log)|] == old(lease.log)
        && var e := lease.log[|old(lease.log)|];
        && e.command == EXPORT && e.data == [] && e.version == 1 && e.capacity == EXPORT_CAPACITY
        && (e.result, e.same) == lease.answers(|old(lease.log)|)
        && (r.Ok? <==> Exports(e)) && (r.Ok? ==> e.result.reply.items[1] == Octets(r.value))
        && state == (if r.Ok? then Captured else Poisoned)
        && (r.Err? ==> lease.invalidated))
      ensures old(state) == Ready ==> (lease.log != old(lease.log) <==> old(lease.Current()))
    {
      if state != Ready {
        return Err;
      }
      var same := lease.SameGeneration();
      if !same {
        return Err;
      }
      var e := lease.BiometricCommand(EXPORT, 1, [], EXPORT_CAPACITY);
      if !Exports(e) {
        state := Poisoned;
        lease.Invalidate();
        return Err;
      }
      state := Captured;
      r := Ok(e.result.reply.items[1].bytes);
    }
  }
}
