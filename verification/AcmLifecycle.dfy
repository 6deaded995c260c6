/** The kernel side of the Credential Manager endpoint: the decision tables, and the lease on one live
    context that they maintain. */
module AcmLifecycle {
  import opened Outcomes
  import opened AksProtocol
  import opened AcmProtocol

  datatype Preflight = Allow | Busy | Stale | MatchRequired | Deny

  datatype ReplyAction = Accept | Reject | Poison | SetContext | SetContextAndReject | ClearContext | ClearContextAndReject

  function ContextPreflight(opcode: byte, active: bool): Preflight {
    if opcode == 0x01 || opcode == 0x24 then if active then Busy else Allow
    else if opcode == 0x02 || opcode == 0x03 || opcode == 0x13 then if active then MatchRequired else Stale
    else Deny
  }

  predicate CapacityAllowed(opcode: byte, capacity: nat, hasBuffer: bool) {
    if opcode == 0x01 then capacity == 17 && hasBuffer
    else if opcode == 0x24 then capacity == 21 && hasBuffer
    else if opcode == 0x02 || opcode == 0x13 then capacity == 0 && !hasBuffer
    else if opcode == 0x03 then capacity == 0x1000 && hasBuffer
    else false
  }

  function ActionFor(opcode: byte, length: nat, info: nat): ReplyAction {
    if info != 0 then Accept
    else if opcode == 0x01 || opcode == 0x24 then
      if length < 16 then Poison
      else if length == (if opcode == 0x01 then 17 else 21) then SetContext else SetContextAndReject
    else if opcode == 0x02 then if length == 0 then ClearContext else ClearContextAndReject
    else if opcode == 0x13 then if length == 0 then Accept else Reject
    else if opcode == 0x03 then if 4 <= length <= 0x1000 then Accept else Reject
    else Reject
  }

  /** The kernel's own allow list of commands. */
  predicate CommandAllowed(request: Bytes) {
    && |request| >= 8 && request[..4] == [0x44, 0x52, 0x43, 0x53] && request[5] == 0 && request[6] == 0 && request[7] == 1
    && var opcode := request[4];
    if opcode == 0x01 || opcode == 0x24 then |request| == 12
    else if opcode == 0x02 || opcode == 0x13 then |request| == 24
    else if opcode == 0x03 then
      |request| == 51 && request[24..42] == ENROLLMENT_POLICY && request[42] <= 1 && request[43..51] == Zeros(8)
    else false
  }

  /** Validator and kernel allow list admit the same commands. */
  lemma AllowListsAgree(command: Bytes)
    ensures ValidateCommand(command).Ok? <==> CommandAllowed(command)
  {
  }

  /** The response capacity that goes with a command. */
  function CapacityFor(opcode: byte): nat {
    if opcode == CREATE then 17
    else if opcode == CREATE_TRACKING then 21
    else if opcode == VERIFY_POLICY then POLICY_RESPONSE_CAPACITY
    else 0
  }

  /** A valid command has exactly one permitted capacity, with a buffer just if it is not zero; and if the
      reply fits it, the kernel never rejects a well-formed reply. */
  lemma OneCapacity(command: Bytes, capacity: nat)
    requires ValidateCommand(command).Ok?
    ensures CapacityAllowed(command[4], capacity, capacity != 0) <==> capacity == CapacityFor(command[4])
    ensures forall hasBuffer: bool :: CapacityAllowed(command[4], capacity, hasBuffer) ==> hasBuffer == (capacity != 0)
    ensures ContextPreflight(command[4], true) != Deny && ContextPreflight(command[4], false) != Deny
  {
  }

  /** The three tables, entry by entry, for every opcode. */
  lemma TablesExactly(opcode: byte, active: bool, capacity: nat, hasBuffer: bool, length: nat, info: nat)
    ensures var p := ContextPreflight(opcode, active);
      && (p.Allow? <==> opcode in {0x01, 0x24} && !active) && (p.Busy? <==> opcode in {0x01, 0x24} && active)
      && (p.MatchRequired? <==> opcode in {0x02, 0x03, 0x13} && active) && (p.Stale? <==> opcode in {0x02, 0x03, 0x13} && !active)
    ensures CapacityAllowed(opcode, capacity, hasBuffer) <==>
      (opcode, capacity, hasBuffer) in {(0x01, 17, true), (0x24, 21, true), (0x02, 0, false), (0x13, 0, false), (0x03, 4096, true)}
    ensures var a := ActionFor(opcode, length, info);
      && (a.Poison? <==> info == 0 && opcode in {0x01, 0x24} && length < 16)
      && (a.SetContext? <==> info == 0 && (opcode, length) in {(0x01, 17), (0x24, 21)})
      && (a.SetContextAndReject? <==> info == 0 && opcode in {0x01, 0x24} && length >= 16 && (opcode, length) !in {(0x01, 17), (0x24, 21)})
      && (a.ClearContext? <==> info == 0 && opcode == 0x02 && length == 0)
      && (a.ClearContextAndReject? <==> info == 0 && opcode == 0x02 && length != 0)
      && (a.Accept? <==> info != 0 || (opcode == 0x13 && length == 0) || (opcode == 0x03 && 4 <= length <= 4096))
  {
  }

  /** What the endpoint answers to a message that was sent. */
  datatype Arrival = NotSent | NoReply | Reply(body: Bytes, info: nat)

  /** The exchange record that user space passes and gets back. */
  datatype Exchange = Exchange(
    requestCode: nat, requestLength: nat, capacity: nat, responseLength: nat, requestInfo: nat, responseInfo: nat,
    generation: nat, request: nat, response: nat)

  /** The caller sees no error for a reply with this effect. */
  predicate Delivers(action: ReplyAction) {
    action.Accept? || action.SetContext? || action.ClearContext?
  }

  class Lease {
    var generation: nat
    var poisoned: bool
    var active: bool
    var context: Bytes

    constructor ()
      ensures Valid() && !active && !poisoned
    {
      generation, poisoned, active, context := 1, false, false, [];
    }

    predicate Valid()
      reads this
    {
      0 < generation < WORD64 && (active ==> !poisoned && |context| == CONTEXT_SIZE)
    }

    predicate Holds(c: Bytes)
      reads this
    {
      active && context == c
    }

    method Clear()
      modifies this
      ensures !active && context == [] && generation == old(generation) && poisoned == old(poisoned)
    {
      context := [];
      active := false;
    }

    method PoisonLease()
      requires Valid()
      modifies this
      ensures Valid() && poisoned && !active && context == []
      ensures generation == if old(generation) == 0xFFFF_FFFF_FFFF_FFFF then 1 else old(generation) + 1
    {
      poisoned := true;
      generation := (generation + 1) % WORD64;
      if generation == 0 {
        generation := 1;
      }
      Clear();
    }

    /** Record what a reply means for the context; false means that the caller sees an error. */
    method RecordReply(request: Bytes, response: Bytes, info: nat) returns (ok: bool)
      requires Valid() && CommandAllowed(request) && !poisoned
      modifies this
      ensures Valid() && (ok <==> Delivers(ActionFor(request[4], |response|, info)))
      ensures info != 0 ==> ok && unchanged(this)
      ensures info == 0 && request[4] in {CREATE, CREATE_TRACKING} ==> (
        && (ok <==> |response| == CapacityFor(request[4]))
        && (|response| >= 16 ==> Holds(response[..16]) && generation == old(generation))
        && (|response| < 16 ==> poisoned))
      ensures info == 0 && request[4] == DELETE ==> !active && (ok <==> response == []) && generation == old(generation)
      ensures info == 0 && request[4] == EXTERNALIZE ==> unchanged(this) && (ok <==> response == [])
      ensures info == 0 && request[4] == VERIFY_POLICY ==>
        unchanged(this) && (ok <==> 4 <= |response| <= POLICY_RESPONSE_CAPACITY)
    {
      match ActionFor(request[4], |response|, info)
      case Accept =>
        ok := true;
      case Reject =>
        ok := false;
      case Poison =>
        PoisonLease();
        ok := false;
      case SetContext =>
        context := response[..16];
        active := true;
        ok := true;
      case SetContextAndReject =>
        context := response[..16];
        active := true;
        ok := false;
      case ClearContext =>
        Clear();
        ok := true;
      case ClearContextAndReject =>
        Clear();
        ok := false;
    }

    /** The checks before a message is sent. */
    predicate Admits(x: Exchange, request: Bytes)
      reads this
    {
      && 0 < x.requestLength <= OOL_SIZE && x.capacity <= OOL_SIZE && x.request != 0
      && CommandAllowed(request) && CapacityAllowed(request[4], x.capacity, x.response != 0)
      && x.generation == generation && !poisoned
      && (ContextPreflight(request[4], active) == Allow
          || (ContextPreflight(request[4], active) == MatchRequired && request[8..24] == context))
      && x.requestCode == 1 && x.requestInfo == 0
    }

    /** The exchange ioctl. The arrival, and whether user memory can be written, come from outside. */
    method Ioctl(x: Exchange, request: Bytes, arrival: Arrival, writable: bool)
      returns (ok: bool, x': Exchange, response: Bytes)
      requires Valid() && x.requestLength == |request|
      modifies this
      ensures Valid()
      ensures ok <==> (
        && old(Admits(x, request)) && arrival.Reply? && |arrival.body| <= x.capacity && writable
        && Delivers(ActionFor(request[4], |arrival.body|, arrival.info)))
      ensures !old(Admits(x, request)) || arrival.NotSent? ==> unchanged(this)
      ensures old(Admits(x, request)) && (arrival.NoReply? || (arrival.Reply? && |arrival.body| > OOL_SIZE)) ==> poisoned && !active
      ensures old(Admits(x, request)) && arrival.Reply? && |arrival.body| <= OOL_SIZE ==> (
        response == arrival.body && x' == x.(responseLength := |response|, responseInfo := arrival.info))
      ensures old(Admits(x.(generation := generation), request)) && x.generation != old(generation) ==> x' == x.(generation := old(generation))
      ensures ok ==> CommandAllowed(request) && CapacityAllowed(request[4], x.capacity, x.response != 0)
      ensures ok ==> x.generation == old(generation) && !old(poisoned)
      ensures ok ==> x.requestCode == 1 && x.requestInfo == 0
      ensures ok ==> arrival == Reply(response, x'.responseInfo) && |response| <= x.capacity
      ensures ok ==> x' == x.(responseLength := |response|, responseInfo := x'.responseInfo)
      ensures ok && request[4] in {CREATE, CREATE_TRACKING} ==> !old(active)
      ensures ok && request[4] !in {CREATE, CREATE_TRACKING} ==> old(Holds(request[8..24]))
      ensures ok && x'.responseInfo == 0 ==> (
        && (request[4] in {CREATE, CREATE_TRACKING} ==>
              |response| == CapacityFor(request[4]) && Holds(response[..16]) && generation == old(generation))
        && (request[4] == DELETE ==> !active && response == [])
        && (request[4] in {EXTERNALIZE, VERIFY_POLICY} ==> unchanged(this)))
    {
      ok, x', response := false, x, [];
      if x.requestLength == 0 || x.requestLength > OOL_SIZE || x.capacity > OOL_SIZE || x.request == 0 {
        return;
      }
      if !CommandAllowed(request) || !CapacityAllowed(request[4], x.capacity, x.response != 0) {
        return;
      }
      if x.generation != generation {
        x' := x.(generation := generation);
        return;
      }
      if poisoned {
        return;
      }
      var preflight := ContextPreflight(request[4], active);
      if preflight != Allow && !(preflight == MatchRequired && request[8..24] == context) {
        return;
      }
      if x.requestCode != 1 || x.requestInfo != 0 || arrival.NotSent? {
        return;
      }
      if arrival.NoReply? || |arrival.body| > OOL_SIZE {
        PoisonLease();
        return;
      }
      response := arrival.body;
      x' := x.(responseLength := |response|, responseInfo := arrival.info);
      var recorded := RecordReply(request, response, arrival.info);
      ok := recorded && |response| <= x.capacity && writable;
    }

    /** Closing the endpoint deletes a context that is still live; whatever happens, none is left. */
    method Release(arrival: Arrival)
      requires Valid()
      modifies this
      ensures Valid() && !active
      ensures old(active) && !(arrival == Reply([], 0)) ==> poisoned
      ensures !old(active) || arrival == Reply([], 0) ==> poisoned == old(poisoned)
    {
      if active && !poisoned {
        if arrival == Reply([], 0) {
          Clear();
        } else {
          PoisonLease();
        }
      }
    }
  }
}
