/** The exclusive connection lease that the persistence transports share, and what its traffic means. */
module BridgeLease {
  import opened Outcomes
  import opened AksProtocol
  import opened BridgeWire
  import Protocol = CatacombProtocol

  const PREPARE: nat := 0x3D
  const COMPLETE: nat := 0x3E
  const CONFIRM: nat := 0x3F
  const EXPORT: nat := 0x4A
  const EXPORT_CAPACITY: nat := 0x1000
  const NIL_OUTPUT := "d4161201-daf5-4bbd-ae4f-9bf319fabbe0"
  const SECURE_MAGIC: Bytes := [0x48, 0x52, 0x4C, 0x42]

  /** What a command call gives back. */
  datatype CommandResult = Raises | NotAPair | Pair(reply: Object, events: Object)

  /** One command on the wire; same says whether the connection was still the same generation afterwards. */
  datatype Sent = Sent(command: nat, version: nat, data: Bytes, capacity: nat, result: CommandResult, same: bool)

  /** A two-item reply without events, on the same generation. */
  predicate Answered(e: Sent) {
    e.same && e.result.Pair? && e.result.events == Items([]) && e.result.reply.Items? && |e.result.reply.items| == 2
  }

  /** The status and the output that the Catacomb transport accepts from an answer. */
  function CatacombAnswer(e: Sent): Result<(int, Bytes)> {
    if !Answered(e) then Err
    else
      var status, given := e.result.reply.items[0], e.result.reply.items[1];
      var output := if e.capacity == 0 && given == Text(NIL_OUTPUT) then Octets([]) else given;
      if !status.Integer? || !(-0x8000_0000 <= status.i < 0x1_0000_0000) then Err
      else if !output.Octets? || |output.bytes| > e.capacity then Err
      else Ok((status.i, output.bytes))
  }

  function PreparedLength(e: Sent): Option<nat> {
    match CatacombAnswer(e)
    case Ok((0, output)) =>
      if |output| == 4 && 0 < GetLe32(output) <= Protocol.MAX_SECURE_BLOB_SIZE then Some(GetLe32(output)) else None
    case _ => None
  }

  predicate Prepares(e: Sent) {
    e.command == PREPARE && PreparedLength(e).Some?
  }

  /** A completion hands over a blob of exactly the capacity it was asked with. */
  predicate Completes(e: Sent) {
    e.command == COMPLETE && CatacombAnswer(e).Ok? && CatacombAnswer(e).value.0 == 0 && |CatacombAnswer(e).value.1| == e.capacity
  }

  predicate Confirms(e: Sent) {
    e.command == CONFIRM && CatacombAnswer(e) == Ok((0, []))
  }

  predicate Exports(e: Sent) {
    && e.command == EXPORT && Answered(e) && e.result.reply.items[0] == Integer(0)
    && var output := e.result.reply.items[1];
    output.Octets? && 16 <= |output.bytes| <= EXPORT_CAPACITY && output.bytes[..4] == SECURE_MAGIC
  }

  predicate IsCatacomb(e: Sent) {
    e.command == PREPARE || e.command == COMPLETE || e.command == CONFIRM
  }

  predicate Succeeds(e: Sent) {
    Prepares(e) || Completes(e) || Confirms(e) || Exports(e)
  }

  /** An accepted answer is a status word and bytes within the capacity, on the same generation and without events;
      with no capacity a fixed text stands for no bytes. */
  lemma AnswerExactly(e: Sent, status: int, output: Bytes)
    ensures CatacombAnswer(e) == Ok((status, output)) <==>
      && e.same && -0x8000_0000 <= status < 0x1_0000_0000 && |output| <= e.capacity
      && (|| e.result == Pair(Items([Integer(status), Octets(output)]), Items([]))
          || (e.capacity == 0 && e.result == Pair(Items([Integer(status), Text("d4161201-daf5-4bbd-ae4f-9bf319fabbe0")]), Items([]))))
  {
    if Answered(e) {
      TwoItems(e.result.reply.items);
    }
  }

  lemma TwoItems(items: seq<Object>)
    requires |items| == 2
    ensures items == [items[0], items[1]]
  {
  }

  /** A preparation succeeds with the length that is the one word of its answer. */
  lemma PreparationExactly(e: Sent, length: nat)
    ensures PreparedLength(e) == Some(length) <==>
      && 0 < length <= Protocol.MAX_SECURE_BLOB_SIZE && e.same && e.capacity >= 4
      && e.result == Pair(Items([Integer(0), Octets(Le32(length))]), Items([]))
  {
    hide CatacombAnswer, Le32, GetLe32;
    if length < WORD {
      AnswerExactly(e, 0, Le32(length));
      GetInverse(length);
    }
    if PreparedLength(e) == Some(length) {
      var output := CatacombAnswer(e).value.1;
      AnswerExactly(e, 0, output);
      Le32Inverse(output);
    }
  }

  /** An export succeeds with a lockout blob of at least a header. */
  lemma ExportExactly(e: Sent, blob: Bytes)
    ensures Exports(e) && e.result.reply.items[1] == Octets(blob) <==>
      && e.command == 0x4A && e.same && e.result == Pair(Items([Integer(0), Octets(blob)]), Items([]))
      && 16 <= |blob| <= 4096 && blob[..4] == [0x48, 0x52, 0x4C, 0x42]
  {
    if Answered(e) {
      TwoItems(e.result.reply.items);
    }
  }

  /** The peer's answer to every command, and whether the connection is of the pinned generation whenever it is
      asked, come from outside. */
  class Lease {
    const answers: nat -> (CommandResult, bool)
    const generations: nat -> bool
    var log: seq<Sent>
    var asked: nat
    var invalidated: bool

    constructor (answers: nat -> (CommandResult, bool), generations: nat -> bool)
      ensures log == [] && !invalidated && this.answers == answers && this.generations == generations
    {
      this.answers, this.generations := answers, generations;
      log, asked, invalidated := [], 0, false;
    }

    /** The connection is of the pinned generation when it is asked for next. */
    predicate Current()
      reads this
    {
      generations(asked)
    }

    /** Whether the connection is of the pinned generation now; reading it may raise, which is taken as no. */
    method SameGeneration() returns (same: bool)
      modifies `asked
      ensures same == old(Current()) && asked == old(asked) + 1
    {
      same := generations(asked);
      asked := asked + 1;
    }

    method BiometricCommand(command: nat, version: nat, data: Bytes, capacity: nat) returns (e: Sent)
      modifies this
      ensures log == old(log) + [e] && invalidated == old(invalidated)
      ensures e.command == command && e.version == version && e.data == data && e.capacity == capacity
      ensures (e.result, e.same) == answers(|old(log)|)
    {
      var (result, same) := answers(|log|);
      e := Sent(command, version, data, capacity, result, same);
      log := log + [e];
    }

    method Invalidate()
      modifies this
      ensures log == old(log) && invalidated
    {
      invalidated := true;
    }
  }
}
