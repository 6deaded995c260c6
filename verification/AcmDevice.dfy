/** The client of the Credential Manager endpoint: one authorized context, live for one consumer and
    deleted before return. */
module AcmDevice {
  import opened Outcomes
  import opened AksProtocol
  import opened AcmProtocol
  import opened AcmLifecycle

  /** What a run does, in order: an exchange, with the reply that the caller gets if it gets one; the password
      bound to a context; the consumer called, with the lease as it is then. */
  datatype Event =
    | Exchanged(command: Bytes, reply: Option<Bytes>)
    | Bound(context: Bytes)
    | Consumed(context: Bytes, held: bool)

  /** How a callback ends. */
  datatype Callback<T> = Returned(value: T) | Raised | Awaitable

  /** The exchange was handed this policy reply. */
  predicate PolicyReplied(e: Event, context: Bytes, preflight: bool) {
    && e.Exchanged? && e.command == BuildPolicy(context, preflight)
    && e.reply.Some? && ParsePolicyResponse(e.reply.value).Ok?
  }

  function PolicyIn(e: Event): PolicyResult
    requires e.Exchanged? && e.reply.Some? && ParsePolicyResponse(e.reply.value).Ok?
  {
    ParsePolicyResponse(e.reply.value).value
  }

  predicate Unsatisfied(p: PolicyResult) {
    !p.satisfied && p.requirement.Some? && p.requirement.value.kind == 1
  }

  /** The steps between creation and deletion: each is taken only after the previous one had the right
      result. */
  predicate Steps(context: Bytes, steps: seq<Event>) {
    && |steps| <= 5
    && (|steps| > 0 ==> steps[0].Exchanged? && steps[0].command == BuildPolicy(context, true))
    && (|steps| > 1 ==>
          && PolicyReplied(steps[0], context, true) && Unsatisfied(PolicyIn(steps[0]))
          && steps[1].Exchanged? && steps[1].command == BuildExternalize(context))
    && (|steps| > 2 ==> steps[1].reply == Some([]) && steps[2] == Bound(context))
    && (|steps| > 3 ==> steps[3].Exchanged? && steps[3].command == BuildPolicy(context, false))
    && (|steps| > 4 ==>
          && PolicyReplied(steps[3], context, false) && PolicyIn(steps[3]).satisfied
          && steps[4] == Consumed(context, true))
  }

  /** The steps end early only where the last one had the wrong result. */
  predicate Blocked(context: Bytes, response: Bytes, tracking: bool, bound: bool, steps: seq<Event>)
    requires Steps(context, steps)
  {
    match |steps|
    case 0 => ParseCreateResponse(response, tracking).Err?
    case 1 => !(PolicyReplied(steps[0], context, true) && Unsatisfied(PolicyIn(steps[0])))
    case 2 => steps[1].reply != Some([])
    case 3 => !bound
    case 4 => !(PolicyReplied(steps[3], context, false) && PolicyIn(steps[3]).satisfied)
    case _ => false
  }

  /** A whole run: creation alone when no reply of at least 16 bytes was handed over, otherwise creation,
      steps and exactly one deletion. */
  predicate Bracketed(userId: int, tracking: bool, run: seq<Event>) {
    && BuildCreate(userId, tracking).Ok?
    && run != [] && run[0].Exchanged? && run[0].command == BuildCreate(userId, tracking).value
    && if run[0].reply.Some? && |run[0].reply.value| >= 16 then
         var context := run[0].reply.value[..16];
         && |run| >= 2
         && Steps(context, run[1..|run| - 1])
         && run[|run| - 1].Exchanged? && run[|run| - 1].command == BuildDelete(context)
       else |run| == 1
  }

  lemma BracketOf(userId: int, tracking: bool, create: Event, steps: seq<Event>, delete: Event)
    requires BuildCreate(userId, tracking).Ok?
    requires create.Exchanged? && create.command == BuildCreate(userId, tracking).value
    requires create.reply.Some? && |create.reply.value| >= 16 && Steps(create.reply.value[..16], steps)
    requires delete.Exchanged? && delete.command == BuildDelete(create.reply.value[..16])
    ensures Bracketed(userId, tracking, [create] + steps + [delete])
  {
  }

  predicate IsDeletion(e: Event) {
    e.Exchanged? && |e.command| > 4 && e.command[4] == DELETE
  }

  /** In a bracketed run the last event, and no other, deletes a context, unless nothing was handed over
      to delete; and the consumer is called at most once, just before it, while the lease is held, the
      final policy having been satisfied. */
  lemma OneDeletionOneConsumer(userId: int, tracking: bool, run: seq<Event>, i: nat)
    requires Bracketed(userId, tracking, run) && i < |run|
    ensures IsDeletion(run[i]) <==> i == |run| - 1 && run[0].reply.Some? && |run[0].reply.value| >= 16
    ensures run[i].Consumed? ==> (
      && i == 5 && |run| == 7 && run[i] == Consumed(run[0].reply.value[..16], true)
      && run[1].Exchanged? && run[1].command == BuildPolicy(run[i].context, true)
      && run[1].reply.Some? && ParsePolicyResponse(run[1].reply.value).Ok?
      && !PolicyIn(run[1]).satisfied && PolicyIn(run[1]).requirement.Some? && PolicyIn(run[1]).requirement.value.kind == 1
      && run[2] == Exchanged(BuildExternalize(run[i].context), Some([])) && run[3] == Bound(run[i].context)
      && run[4].Exchanged? && run[4].command == BuildPolicy(run[i].context, false)
      && run[4].reply.Some? && ParsePolicyResponse(run[4].reply.value).Ok? && PolicyIn(run[4]).satisfied)
  {
    hide BuildPolicy, ParsePolicyResponse, BuildCreate;
    Opcodes(userId, tracking, if run[0].reply.Some? && |run[0].reply.value| >= 16 then run[0].reply.value[..16] else Zeros(16));
    hide BuildDelete, BuildExternalize;
    if i == |run| - 1 || i == 0 {
    } else {
      assert run[i] == run[1..|run| - 1][i - 1];
      if i == 5 {
        var steps := run[1..|run| - 1];
        assert steps[0] == run[1] && steps[1] == run[2] && steps[2] == run[3] && steps[3] == run[4];
      }
    }
  }

  lemma Opcodes(userId: int, tracking: bool, context: Bytes)
    requires |context| == 16
    ensures BuildCreate(userId, tracking).Ok? ==> HasOpcode(BuildCreate(userId, tracking).value, CreateOpcode(tracking))
    ensures HasOpcode(BuildDelete(context), DELETE) && HasOpcode(BuildExternalize(context), EXTERNALIZE)
    ensures HasOpcode(BuildPolicy(context, true), VERIFY_POLICY) && HasOpcode(BuildPolicy(context, false), VERIFY_POLICY)
  {
  }

  predicate HasOpcode(command: Bytes, opcode: byte) {
    |command| > 4 && command[4] == opcode
  }

  class Device {
    const lease: Lease
    const generation: nat
    const answers: nat -> (Arrival, bool)  // what arrives for each exchange, and whether it can be written back
    var exchanges: nat
    var isOpen: bool
    var log: seq<Event>

    constructor (lease: Lease, answers: nat -> (Arrival, bool))
      requires lease.Valid()
      ensures this.lease == lease && generation == lease.generation && this.answers == answers && log == [] && isOpen
    {
      this.lease, generation, this.answers, exchanges, isOpen, log := lease, lease.generation, answers, 0, true, [];
    }

    predicate Valid()
      reads this, lease
    {
      lease.Valid()
    }

    /** The device is open on the present generation of a sound lease, which fits the command: nothing is held when one
        is created, and otherwise the context of the command is. */
    predicate Permits(command: Bytes, capacity: nat)
      reads this, lease
    {
      && isOpen && ValidateCommand(command).Ok? && capacity == CapacityFor(command[4])
      && generation == lease.generation && !lease.poisoned
      && if command[4] in {CREATE, CREATE_TRACKING} then !lease.active else lease.Holds(command[8..24])
    }

    /** The reply has the length that goes with the command. */
    predicate Answered(command: Bytes, body: Bytes) {
      && |command| > 4
      && match command[4]
         case 0x01 => |body| == 17
         case 0x24 => |body| == 21
         case 0x03 => 4 <= |body| <= 4096
         case _ => body == []
    }

    /** The next exchange hands over a reply. */
    predicate Succeeds(command: Bytes, capacity: nat)
      reads this, lease
    {
      var (arrival, writable) := answers(exchanges);
      Permits(command, capacity) && arrival.Reply? && arrival.info == 0 && writable && Answered(command, arrival.body)
    }

    /** One exchange. The kernel's half is the lease; what the secure processor answers comes from outside. */
    method ExchangeCommand(command: Bytes, capacity: nat) returns (r: Result<Bytes>)
      requires Valid()
      modifies this, lease
      ensures Valid() && isOpen == old(isOpen)
      ensures log == old(log) + [Exchanged(command, if r.Ok? then Some(r.value) else None)]
      ensures exchanges == old(exchanges) + if isOpen && ValidateCommand(command).Ok? && capacity <= 16384 then 1 else 0
      ensures r.Ok? <==> old(Succeeds(command, capacity))
      ensures r.Ok? ==> answers(old(exchanges)).0 == Reply(r.value, 0)
      ensures r.Ok? ==> ValidateCommand(command).Ok? && capacity == CapacityFor(command[4])
      ensures r.Ok? && command[4] in {CREATE, CREATE_TRACKING} ==> |r.value| == capacity && lease.Holds(r.value[..16])
      ensures r.Ok? && command[4] == DELETE ==> r.value == [] && !lease.active
      ensures r.Ok? && command[4] in {EXTERNALIZE, VERIFY_POLICY} ==> lease.Holds(command[8..24])
    {
      AllowListsAgree(command);
      if !isOpen || ValidateCommand(command).Err? || capacity > OOL_SIZE {
        log := log + [Exchanged(command, None)];
        return Err;
      }
      OneCapacity(command, capacity);
      var base: nat :| true;
      var x := Exchange(1, |command|, capacity, 0, 0, 0, generation, base + 1, if capacity == 0 then 0 else base + 2);
      var (arrival, writable) := answers(exchanges);
      exchanges := exchanges + 1;
      var ok, x', response := lease.Ioctl(x, command, arrival, writable);
      if !ok {
        r := Err;
      } else if x' != x.(responseLength := x'.responseLength, responseInfo := x'.responseInfo) {
        r := Err;
      } else if x'.responseInfo != 0 || x'.responseLength > capacity {
        r := Err;
      } else {
        r := Ok(response[..x'.responseLength]);
      }
      log := log + [Exchanged(command, if r.Ok? then Some(r.value) else None)];
    }

    /** Closing the device: the kernel deletes what is still live. */
    method Close()
      requires Valid()
      modifies this, lease
      ensures Valid() && !isOpen && log == old(log) && (old(isOpen) ==> !lease.active)
      ensures !old(isOpen) ==> unchanged(lease)
    {
      if isOpen {
        var (arrival, _) := answers(exchanges);
        lease.Release(arrival);
        isOpen := false;
      }
    }

    method ExternalizeContext(context: Bytes) returns (r: Result<Bytes>)
      requires Valid() && |context| == CONTEXT_SIZE
      modifies this, lease
      ensures Valid() && isOpen == old(isOpen)
      ensures |log| == |old(log)| + 1 && log[..|log| - 1] == old(log)
      ensures var e := log[|log| - 1]; (
        && e.Exchanged? && e.command == BuildExternalize(context)
        && (r.Ok? <==> e.reply == Some([])) && (r.Ok? ==> r.value == context && lease.Holds(context)))
      ensures r.Ok? <==> old(Succeeds(BuildExternalize(context), 0))
    {
      BuiltIsValid(BuildExternalize(context), context);
      var response := ExchangeCommand(BuildExternalize(context), 0);
      if response.Err? || response.value != [] {
        return Err;
      }
      r := Ok(context);
    }

    method VerifyPolicy(context: Bytes, preflight: bool) returns (r: Result<PolicyResult>)
      requires Valid() && |context| == CONTEXT_SIZE
      modifies this, lease
      ensures Valid() && isOpen == old(isOpen)
      ensures |log| == |old(log)| + 1 && log[..|log| - 1] == old(log)
      ensures var e := log[|log| - 1]; (
        && e.Exchanged? && e.command == BuildPolicy(context, preflight)
        && (r.Ok? <==> PolicyReplied(e, context, preflight)) && (r.Ok? ==> PolicyIn(e) == r.value && lease.Holds(context))
        && (e.reply.Some? <==> old(Succeeds(BuildPolicy(context, preflight), POLICY_RESPONSE_CAPACITY))))
    {
      var command := BuildPolicy(context, preflight);
      BuiltIsValid(command, context);
      PolicyTail(context, preflight);
      hide BuildPolicy;
      var response := ExchangeCommand(command, POLICY_RESPONSE_CAPACITY);
      if response.Err? {
        return Err;
      }
      r := ParsePolicyResponse(response.value);
    }

    /** The guarded part: everything between creation and deletion. */
    method Authorize<T>(context: Bytes, response: Bytes, tracking: bool, binder: Callback<()>, consumer: Callback<T>)
      returns (r: Result<(PolicyResult, PolicyResult, T)>)
      requires Valid() && |response| >= CONTEXT_SIZE && context == response[..CONTEXT_SIZE]
      modifies this, lease
      ensures Valid() && isOpen == old(isOpen)
      ensures |log| >= |old(log)| && log[..|old(log)|] == old(log) && Steps(context, log[|old(log)|..])
      ensures Blocked(context, response, tracking, binder.Returned?, log[|old(log)|..]) || |log| == |old(log)| + 5
      ensures |log| > |old(log)| ==> ParseCreateResponse(response, tracking).Ok?
      ensures |log| > |old(log)| + 3 ==> binder.Returned?
      ensures r.Ok? <==> |log| == |old(log)| + 5 && consumer.Returned?
      ensures r.Ok? ==> (
        var steps := log[|old(log)|..];
        && |steps| == 5 && consumer == Returned(r.value.2)
        && PolicyIn(steps[0]) == r.value.0 && PolicyIn(steps[3]) == r.value.1
        && Unsatisfied(r.value.0) && r.value.1.satisfied)
    {
      hide BuildPolicy, ParsePolicyResponse, BuildExternalize, ParseCreateResponse, Succeeds, Permits, Answered;
      ghost var before := log;
      if ParseCreateResponse(response, tracking).Err? {
        return Err;
      }
      var initial := VerifyPolicy(context, true);
      ghost var first := log[|before|];
      assert log[|before|..] == [first];
      if initial.Err? || !Unsatisfied(initial.value) {
        return Err;
      }
      var externalized := ExternalizeContext(context);
      ghost var second := log[|before| + 1];
      assert log[|before|..] == [first, second];
      if externalized.Err? {
        return Err;
      }
      var external := externalized.value;
      log := log + [Bound(external)];
      assert log[|before|..] == [first, second, Bound(external)];
      if !binder.Returned? {
        return Err;
      }
      var final := VerifyPolicy(context, false);
      ghost var fourth := log[|before| + 3];
      assert log[|before|..] == [first, second, Bound(external), fourth];
      if final.Err? || !final.value.satisfied {
        return Err;
      }
      log := log + [Consumed(external, lease.active && lease.context == external)];
      assert log[|before|..] == [first, second, Bound(external), fourth, Consumed(external, true)];
      if !consumer.Returned? {
        return Err;
      }
      r := Ok((initial.value, final.value, consumer.value));
    }

    method CreateContext(userId: int, tracking: bool) returns (r: Result<Bytes>)
      requires Valid() && BuildCreate(userId, tracking).Ok?
      modifies this, lease
      ensures Valid() && isOpen == old(isOpen)
      ensures log == old(log) + [Exchanged(BuildCreate(userId, tracking).value, if r.Ok? then Some(r.value) else None)]
      ensures r.Ok? <==> old(Succeeds(BuildCreate(userId, tracking).value, if tracking then 21 else 17))
    {
      var command := BuildCreate(userId, tracking).value;
      HeadOf(CreateOpcode(tracking), Le32(userId));
      hide BuildCreate;
      r := ExchangeCommand(command, if tracking then 21 else 17);
    }

    /** The mandatory deletion; it succeeds only if the kernel no longer holds a context. */
    method DeleteContext(context: Bytes) returns (ok: bool)
      requires Valid() && |context| == CONTEXT_SIZE
      modifies this, lease
      ensures Valid() && isOpen == old(isOpen)
      ensures |log| == |old(log)| + 1 && log[..|old(log)|] == old(log)
      ensures var e := log[|old(log)|]; (
        e.Exchanged? && e.command == BuildDelete(context) && (ok <==> e.reply == Some([])) && (ok ==> !lease.active))
      ensures ok <==> old(Succeeds(BuildDelete(context), 0))
    {
      BuiltIsValid(BuildDelete(context), context);
      HeadOf(DELETE, context);
      hide BuildDelete;
      var deleted := ExchangeCommand(BuildDelete(context), 0);
      ok := deleted.Ok? && deleted.value == [];
    }

    /** One trusted consumer, run while a fresh context is live. */
    method WithAuthorizedContext<T>(userId: int, binder: Callback<()>, consumer: Callback<T>, tracking: bool)
      returns (r: Result<(PolicyResult, PolicyResult, T)>)
      requires Valid()
      modifies this, lease
      ensures Valid() && isOpen == old(isOpen)
      ensures |log| >= |old(log)| && log[..|old(log)|] == old(log)
      ensures BuildCreate(userId, tracking).Err? ==> r.Err? && log == old(log)
      ensures BuildCreate(userId, tracking).Ok? ==> Bracketed(userId, tracking, log[|old(log)|..])
      ensures |log| > |old(log)| + 1 && log[|log| - 1].reply == Some([]) ==> !lease.active
      ensures |log| > |old(log)| + 2 ==> ParseCreateResponse(log[|old(log)|].reply.value, tracking).Ok?
      ensures |log| > |old(log)| + 5 ==> binder.Returned?
      ensures r.Ok? <==> |log| == |old(log)| + 7 && log[|log| - 1].reply == Some([]) && consumer.Returned?
      ensures r.Ok? ==> (
        var run := log[|old(log)|..];
        && |run| == 7 && run[6].reply == Some([]) && !lease.active
        && Unsatisfied(r.value.0) && r.value.1.satisfied && consumer == Returned(r.value.2))
    {
      hide ParsePolicyResponse, ParseCreateResponse, BuildPolicy, BuildExternalize, BuildDelete, BuildCreate, Steps, Blocked, Succeeds, Permits, Answered;
      ghost var before := log;
      if BuildCreate(userId, tracking).Err? {
        return Err;
      }
      var response := CreateContext(userId, tracking);
      ghost var created := log;
      ghost var create := log[|before|];
      assert log[|before|..] == [create];
      if response.Err? || |response.value| < CONTEXT_SIZE {
        return Err;
      }
      var context := response.value[..CONTEXT_SIZE];
      var authorized := Authorize(context, response.value, tracking, binder, consumer);
      ghost var steps := log[|created|..];
      assert log == before + [create] + steps;
      var deleted := DeleteContext(context);
      ghost var delete := log[|log| - 1];
      assert log == before + [create] + steps + [delete];
      BracketOf(userId, tracking, create, steps, delete);
      assert log[|before|..] == [create] + steps + [delete];
      if !deleted || authorized.Err? {
        return Err;
      }
      r := authorized;
    }
  }

  /** One consumer between opening and closing the endpoint: whatever fails, the deletion included, no context is live
      afterwards. */
  method Session<T>(lease: Lease, answers: nat -> (Arrival, bool), userId: int, binder: Callback<()>, consumer: Callback<T>, tracking: bool)
    returns (r: Result<(PolicyResult, PolicyResult, T)>, run: seq<Event>)
    requires lease.Valid()
    modifies lease
    ensures lease.Valid() && !lease.active
    ensures if BuildCreate(userId, tracking).Ok? then Bracketed(userId, tracking, run) else r.Err? && run == []
    ensures r.Ok? <==> |run| == 7 && run[6].Exchanged? && run[6].reply == Some([]) && consumer.Returned?
    ensures r.Ok? ==> (
      && !r.value.0.satisfied && r.value.0.requirement.Some? && r.value.0.requirement.value.kind == 1
      && r.value.1.satisfied && consumer == Returned(r.value.2))
  {
    hide Steps, BuildCreate;
    var device := new Device(lease, answers);
    r := device.WithAuthorizedContext(userId, binder, consumer, tracking);
    run := device.log;
    device.Close();
  }
}
