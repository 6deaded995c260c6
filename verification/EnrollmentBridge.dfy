/** The transport of one enrollment: command states and a first-in first-out queue of service events. */
module EnrollmentBridge {
  import opened Outcomes
  import opened BridgeWire
  import opened BridgeLease

  const START: nat := 0x03
  const CONTINUE: nat := 0x0E
  const CANCEL: nat := 0x0C
  const SERVICE_STATUS := 0xE3FF8000
  const EVENT_HEADER := 24
  const MAX_EVENT_PAYLOAD := 1024 * 1024

  datatype State = Idle | Active | CancelRequested | StartRejected | Poisoned

  /** What waiting for a service event gives. */
  datatype Arrival = WaitRaises | NoEvent | Event(value: Object)

  /** The data of a well-formed service event. */
  function EventData(value: Object): Option<Bytes> {
    if value.Items? && |value.items| == 5 && Equals(value.items[0], 9) && Equals(value.items[1], SERVICE_STATUS)
       && value.items[2].Octets? && EVENT_HEADER <= |value.items[2].bytes| <= EVENT_HEADER + MAX_EVENT_PAYLOAD
    then Some(value.items[2].bytes) else None
  }

  function AllEventData(values: seq<Object>): Option<seq<Bytes>> {
    if values == [] then Some([])
    else
      match (AllEventData(values[..|values| - 1]), EventData(values[|values| - 1]))
      case (Some(earlier), Some(last)) => Some(earlier + [last])
      case _ => None
  }

  /** The status and the staged events of an accepted answer. */
  function Accepted(e: Sent, authoritative: bool): Option<(int, seq<Bytes>)> {
    if !e.same || !e.result.Pair? || !e.result.reply.Items? || !(1 <= |e.result.reply.items| <= 2) then None
    else
      var status := e.result.reply.items[0];
      var output := if |e.result.reply.items| == 2 then e.result.reply.items[1] else Nil;
      if !status.Integer? || !(-0x8000_0000 <= status.i < 0x1_0000_0000) then None
      else if output != Nil && output != Octets([]) && output != Text(NIL_OUTPUT) then None
      else if !e.result.events.Items? then None
      else match AllEventData(e.result.events.items)
        case None => None
        case Some(staged) => if authoritative && status.i != 0 && staged != [] then None else Some((status.i, staged))
  }

  /** The events of a list are its data, one by one. */
  lemma {:induction false} AllEventDataExactly(values: seq<Object>, all: seq<Bytes>)
    ensures AllEventData(values) == Some(all) <==>
      |all| == |values| && forall i :: 0 <= i < |values| ==> EventData(values[i]) == Some(all[i])
  {
    if values == [] {
      assert |all| == 0 ==> all == [];
    } else {
      var n := |values| - 1;
      if |all| == n + 1 {
        AllEventDataExactly(values[..n], all[..n]);
        assert all == all[..n] + [all[n]];
      }
      if AllEventData(values).Some? {
        AllEventDataExactly(values[..n], AllEventData(values[..n]).value);
      }
    }
  }

  /** A service event: its kind, its status word, its data, and two more items. */
  lemma EventExactly(value: Object, data: Bytes)
    ensures EventData(value) == Some(data) <==>
      && 24 <= |data| <= 24 + 1048576 && value.Items? && |value.items| == 5
      && Equals(value.items[0], 9) && Equals(value.items[1], 0xE3FF8000) && value.items[2] == Octets(data)
  {
  }

  /** An answer is accepted exactly if it is a status word with no output, or one of the forms of an empty one, and
      well-formed events, of which an authoritative rejection has none. */
  lemma AcceptedExactly(e: Sent, authoritative: bool, status: int, staged: seq<Bytes>)
    ensures Accepted(e, authoritative) == Some((status, staged)) <==>
      && e.same && -0x8000_0000 <= status < 0x1_0000_0000
      && (exists values :: AllEventData(values) == Some(staged) && (
            || e.result == Pair(Items([Integer(status)]), Items(values))
            || exists output :: output in {Nil, Octets([]), Text("d4161201-daf5-4bbd-ae4f-9bf319fabbe0")}
                 && e.result == Pair(Items([Integer(status), output]), Items(values))))
      && (authoritative && status != 0 ==> staged == [])
  {
    if e.result.Pair? && e.result.reply.Items? && e.result.events.Items? && 1 <= |e.result.reply.items| <= 2 {
      var items, values := e.result.reply.items, e.result.events.items;
      if |items| == 1 && items[0] == Integer(status) {
        assert items == [Integer(status)];
      }
      if |items| == 2 && items[0] == Integer(status) {
        assert items == [Integer(status), items[1]];
      }
    }
  }

  class Transport {
    const lease: Lease
    const version: nat
    const arrivals: nat -> Arrival  // what each wait for a service event gives
    var waits: nat
    var state: State
    var events: seq<Bytes>
    ghost var accepted: seq<Bytes>   // every event that arrived and was accepted, in order
    ghost var delivered: seq<Bytes>  // every event that was handed to the caller, in order

    constructor (lease: Lease, version: nat, arrivals: nat -> Arrival)
      requires (version == 1 || version == 2) && lease.log == []
      ensures this.lease == lease && this.version == version && this.arrivals == arrivals && Valid() && state == Idle && accepted == []
    {
      this.lease, this.version, this.arrivals, waits, state := lease, version, arrivals, 0, Idle;
      events, accepted, delivered := [], [], [];
    }

    /** What was delivered, followed by what is queued, is what was accepted: always as a prefix, and
        exactly until the transport is poisoned. Enrollment is started once, first. */
    ghost predicate Valid()
      reads this, lease
    {
      && (version == 1 || version == 2)
      && delivered + events <= accepted
      && (state != Poisoned ==> delivered + events == accepted)
      && (state == Poisoned ==> events == [])
      && (state == Idle ==> lease.log == [] && accepted == [])
      && Language(lease.log)
      && (state == Active ==> forall i :: 0 <= i < |lease.log| ==> lease.log[i].command != CANCEL)
      && (state == StartRejected ==> |lease.log| == 1)
      && (state == Active || state == CancelRequested ==> lease.log != [])
    }

    /** One start, first, in the selected version; then the payloadless commands, always in version 1;
        nothing follows a cancellation. */
    ghost predicate Language(log: seq<Sent>) {
      && (forall i :: 0 <= i < |log| ==> (log[i].command == START <==> i == 0))
      && (forall i :: 0 < i < |log| ==> (log[i].command == CONTINUE || log[i].command == CANCEL) && log[i].version == 1 && log[i].data == [])
      && (log != [] ==> log[0].version == version)
      && (forall i :: 0 <= i < |log| - 1 ==> log[i].command != CANCEL)
    }

    method Poison()
      modifies this
      ensures state == Poisoned && events == [] && accepted == old(accepted) && delivered == old(delivered) && waits == old(waits)
    {
      state := Poisoned;
      events := [];
    }

    /** Send one command. A doubtful answer poisons; otherwise its events are queued, in order. */
    method Dispatch(command: nat, data: Bytes, poisonNonzero: bool, authoritative: bool, wireVersion: nat) returns (r: Result<int>)
      modifies this, lease
      ensures delivered == old(delivered) && old(accepted) <= accepted
      ensures r.Err? ==> state == Poisoned && events == [] && accepted == old(accepted)
      ensures if old(lease.Current()) then Sends(command, data, wireVersion) else r.Err? && lease.log == old(lease.log)
      ensures old(lease.Current()) ==> (r.Ok? <==> Accepted(lease.log[|old(lease.log)|], authoritative).Some?)
      ensures r.Ok? ==> (
        var answer := Accepted(lease.log[|old(lease.log)|], authoritative);
        && answer.value.0 == r.value && accepted == old(accepted) + answer.value.1
        && if authoritative && r.value != 0 && poisonNonzero then state == Poisoned && events == []
           else state == old(state) && events == old(events) + answer.value.1)
    {
      var same := lease.SameGeneration();
      if !same {
        Poison();
        return Err;
      }
      var e := lease.BiometricCommand(command, wireVersion, data, 0);
      var answer := Accepted(e, authoritative);
      if answer.None? {
        Poison();
        return Err;
      }
      var (status, staged) := answer.value;
      events := events + staged;
      accepted := accepted + staged;
      if authoritative && status != 0 && poisonNonzero {
        Poison();
      }
      r := Ok(status);
    }

    twostate predicate Sends(command: nat, data: Bytes, wireVersion: nat)
      reads this, lease
    {
      && |lease.log| == |old(lease.log)| + 1 && lease.log[..|old(lease.log)|] == old(lease.log)
      && var e := lease.log[|old(lease.log)|];
      && e.command == command && e.data == data && e.capacity == 0 && e.version == wireVersion
      && (e.result, e.same) == lease.answers(|old(lease.log)|)
    }

    /** What the caller of a command that may be sent gets, and what becomes of the events of the answer. */
    twostate predicate Answers(new r: Result<int>, command: nat, data: Bytes, wireVersion: nat, authoritative: bool)
      reads this, lease
    {
      if !old(lease.Current()) then r.Err? && lease.log == old(lease.log) && state == Poisoned
      else
        && Sends(command, data, wireVersion)
        && match Accepted(lease.log[|old(lease.log)|], authoritative)
           case None => r.Err? && state == Poisoned && accepted == old(accepted)
           case Some((status, staged)) => r == Ok(status) && accepted == old(accepted) + staged
    }

    method Start(payload: Bytes) returns (r: Result<int>)
      requires Valid()
      modifies this, lease
      ensures Valid() && delivered == old(delivered) && old(accepted) <= accepted
      ensures if old(state) == Idle && |payload| == (if version == 1 then 48 else 68) then Answers(r, 0x03, payload, version, true)
        else r.Err? && lease.log == old(lease.log) && state == old(state) && accepted == old(accepted)
      ensures r.Ok? ==> state == (if r.value == 0 then Active else StartRejected)
    {
      if state != Idle || |payload| != (if version == 1 then 48 else 68) {
        return Err;
      }
      hide Accepted;
      r := Dispatch(START, payload, false, true, version);
      if r.Ok? {
        state := if r.value == 0 then Active else StartRejected;
      }
    }

    method ContinueEnrollment() returns (r: Result<int>)
      requires Valid()
      modifies this, lease
      ensures Valid() && delivered == old(delivered) && old(accepted) <= accepted
      ensures if old(state) == Active then Answers(r, 0x0E, [], 1, false)
        else r.Err? && lease.log == old(lease.log) && state == old(state) && accepted == old(accepted)
      ensures r.Ok? ==> state == Active
    {
      if state != Active {
        return Err;
      }
      hide Accepted;
      ghost var before := lease.log;
      NotIdle();
      r := Dispatch(CONTINUE, [], false, false, 1);
      if lease.log != before {
        Longer(before, lease.log[|before|]);
        assert lease.log == before + [lease.log[|before|]];
      }
    }

    method Cancel() returns (r: Result<int>)
      requires Valid()
      modifies this, lease
      ensures Valid() && delivered == old(delivered) && old(accepted) <= accepted
      ensures if old(state) == Active then Answers(r, 0x0C, [], 1, true)
        else r.Err? && lease.log == old(lease.log) && state == old(state) && accepted == old(accepted)
      ensures r.Ok? ==> state == if r.value == 0 then CancelRequested else Poisoned
    {
      if state != Active {
        return Err;
      }
      hide Accepted;
      ghost var before := lease.log;
      NotIdle();
      r := Dispatch(CANCEL, [], true, true, 1);
      if lease.log != before {
        Longer(before, lease.log[|before|]);
        assert lease.log == before + [lease.log[|before|]];
      }
      if r.Ok? && r.value == 0 {
        state := CancelRequested;
      }
    }

    /** The oldest undelivered event: from the queue, or else the one that arrives now. */
    method NextEvent(timeout: real) returns (r: Result<Option<Bytes>>)
      requires Valid()
      modifies this, lease`asked
      ensures Valid() && old(accepted) <= accepted
      ensures r.Ok? && r.value.Some? ==> delivered == old(delivered) + [r.value.value] && state == old(state)
      ensures r.Ok? && r.value.Some? ==> |old(delivered)| < |accepted| && accepted[|old(delivered)|] == r.value.value
      ensures !(r.Ok? && r.value.Some?) ==> delivered == old(delivered)
      ensures r.Ok? && r.value.None? ==> old(events) == [] && state == old(state)
      ensures if old(state) !in {Active, CancelRequested} || !(0.0 < timeout <= 5.0) then r.Err? && state == old(state) && events == old(events)
        else if old(events) != [] then r == Ok(Some(old(events)[0])) && events == old(events)[1..]
        else if !old(lease.Current()) || !lease.generations(old(lease.asked) + 1) then r.Err? && state == Poisoned
        else waits == old(waits) + 1 && match arrivals(old(waits))
          case WaitRaises => r.Err? && state == Poisoned
          case NoEvent => r == Ok(None)
          case Event(value) => if EventData(value).Some? then r == Ok(EventData(value)) else r.Err? && state == Poisoned
    {
      hide Language, EventData;
      if (state != Active && state != CancelRequested) || !(0.0 < timeout <= 5.0) {
        return Err;
      }
      if events != [] {
        var first := events[0];
        assert delivered + events == (delivered + [first]) + events[1..];
        events := events[1..];
        delivered := delivered + [first];
        return Ok(Some(first));
      }
      var same := lease.SameGeneration();
      var arrival := arrivals(waits);
      waits := waits + 1;
      var still := lease.SameGeneration();
      if !same || arrival.WaitRaises? || !still {
        Poison();
        return Err;
      }
      if !arrival.Event? {
        return Ok(None);
      }
      var data := EventData(arrival.value);
      if data.None? {
        Poison();
        return Err;
      }
      accepted := accepted + [data.value];
      delivered := delivered + [data.value];
      r := Ok(Some(data.value));
    }

    lemma NotIdle()
      requires Valid() && state == Active
      ensures lease.log != []
    {
    }

    lemma Longer(log: seq<Sent>, e: Sent)
      requires Language(log) && log != [] && e.version == 1 && e.data == [] && (e.command == CONTINUE || e.command == CANCEL)
      requires forall i :: 0 <= i < |log| ==> log[i].command != CANCEL
      ensures Language(log + [e])
    {
    }
  }
}
