/** The Credential Manager commands: their builders, the strict validator and the reply parsers. */
module AcmProtocol {
  import opened Outcomes
  import opened AksProtocol

  const MAGIC: Bytes := [0x44, 0x52, 0x43, 0x53]
  const CONTEXT_SIZE := 16
  const POLICY_RESPONSE_CAPACITY := 0x1000
  const OOL_SIZE := 16384

  const CREATE: byte := 0x01
  const DELETE: byte := 0x02
  const VERIFY_POLICY: byte := 0x03
  const EXTERNALIZE: byte := 0x13
  const CREATE_TRACKING: byte := 0x24

  /** TouchIdEnrollment, with its terminator. */
  const ENROLLMENT_POLICY: Bytes := [
    0x54, 0x6F, 0x75, 0x63, 0x68, 0x49, 0x64, 0x45, 0x6E, 0x72, 0x6F, 0x6C, 0x6C, 0x6D, 0x65, 0x6E, 0x74, 0]

  datatype Handle = Handle(context: Bytes, payload: nat, tracking: bool, responseByte: byte)

  datatype Requirement = Requirement(kind: nat, state: nat, flags: nat, payloadLength: nat)

  datatype PolicyResult = PolicyResult(satisfied: bool, requirement: Option<Requirement>)

  function Header(opcode: byte): Bytes {
    MAGIC + [opcode, 0, 0, 1]
  }

  function CreateOpcode(tracking: bool): byte {
    if tracking then CREATE_TRACKING else CREATE
  }

  function BuildCreate(userId: int, tracking: bool): Result<Bytes> {
    if !(0 <= userId < WORD) then Err else Ok(Header(CreateOpcode(tracking)) + Le32(userId))
  }

  function BuildDelete(context: Bytes): Bytes {
    Header(DELETE) + context
  }

  function BuildExternalize(context: Bytes): Bytes {
    Header(EXTERNALIZE) + context
  }

  function BuildPolicy(context: Bytes, preflight: bool): Bytes {
    Header(VERIFY_POLICY) + context + ENROLLMENT_POLICY + [if preflight then 1 else 0] + Le32(0) + Le32(0)
  }

  /** The command came out of one of the builders. */
  ghost predicate IsBuilt(command: Bytes) {
    || (exists userId: int, tracking: bool :: BuildCreate(userId, tracking) == Ok(command))
    || exists context: Bytes :: |context| == CONTEXT_SIZE && BuiltFor(command, context)
  }

  predicate BuiltFor(command: Bytes, context: Bytes) {
    || command == BuildDelete(context) || command == BuildExternalize(context)
    || command == BuildPolicy(context, true) || command == BuildPolicy(context, false)
  }

  function ExpectedLength(opcode: byte): Option<nat> {
    if opcode == CREATE || opcode == CREATE_TRACKING then Some(12)
    else if opcode == DELETE || opcode == EXTERNALIZE then Some(24)
    else if opcode == VERIFY_POLICY then Some(51)
    else None
  }

  function ValidateCommand(command: Bytes): Result<byte> {
    if |command| < 8 || command[..4] != MAGIC || command[5..8] != [0, 0, 1] then Err
    else
      var opcode := command[4];
      if ExpectedLength(opcode) != Some(|command|) then Err
      else if opcode == VERIFY_POLICY then
        var rest := command[24..];
        if rest[..18] != ENROLLMENT_POLICY || rest[18] > 1 || rest[19..] != Zeros(8) then Err else Ok(opcode)
      else Ok(opcode)
  }

  function ParseCreateResponse(response: Bytes, tracking: bool): Result<Handle> {
    if |response| != (if tracking then 21 else 17) then Err
    else
      var responseByte := response[if tracking then 20 else 16];
      if tracking && responseByte > 1 then Err
      else Ok(Handle(response[..CONTEXT_SIZE], if tracking then GetLe32(response[16..20]) else 0, tracking, responseByte))
  }

  /** A creation reply parses exactly to what it is the wire form of: the context, on tracked creation its payload
      word, and one byte, which is a truth value there. */
  lemma CreateReplyExactly(response: Bytes, tracking: bool, h: Handle)
    ensures ParseCreateResponse(response, tracking) == Ok(h) <==>
      && |h.context| == 16 && h.tracking == tracking
      && (if tracking then h.payload < 0x1_0000_0000 && h.responseByte in {0, 1} else h.payload == 0)
      && response == h.context + (if tracking then Le32(h.payload) else []) + [h.responseByte]
  {
    if ParseCreateResponse(response, tracking) == Ok(h) && tracking {
      Le32Inverse(response[16..20]);
      assert response == response[..16] + response[16..20] + [response[20]];
    }
    if tracking && h.payload < 0x1_0000_0000 && response == h.context + Le32(h.payload) + [h.responseByte] && |h.context| == 16 {
      GetInverse(h.payload);
      assert response[16..20] == Le32(h.payload) && response[..16] == h.context;
    }
    if !tracking && |response| == 17 {
      assert response == response[..16] + [] + [response[16]];
    }
    if !tracking && response == h.context + [] + [h.responseByte] && |h.context| == 16 {
      assert response[..16] == h.context;
    }
  }

  predicate SimpleRequirement(kind: nat) {
    kind in {1, 2, 3, 6} || 8 <= kind < 16 || 18 <= kind < 29
  }

  function ParsePolicyResponse(response: Bytes): Result<PolicyResult> {
    if !(4 <= |response| <= POLICY_RESPONSE_CAPACITY) then Err
    else
      var result := GetLe32(response[..4]);
      var requirement := response[4..];
      if result > 1 then Err
      else if requirement == [] then Ok(PolicyResult(result == 1, None))
      else if |requirement| < 16 then Err
      else
        var parsed := Requirement(GetLe32(requirement[..4]), GetLe32(requirement[4..8]),
                                  GetLe32(requirement[8..12]), GetLe32(requirement[12..16]));
        if !SimpleRequirement(parsed.kind) || parsed.payloadLength != |requirement| - 16 then Err
        else Ok(PolicyResult(result == 1, Some(parsed)))
  }

  // ---------------------------------------------------------------------------------------
  // What they promise

  lemma HeadOf(opcode: byte, rest: Bytes)
    ensures var command := Header(opcode) + rest;
      |command| == 8 + |rest| && command[..4] == MAGIC && command[5..8] == [0, 0, 1] && command[4] == opcode
      && command[8..] == rest
  {
  }

  lemma FromHead(command: Bytes)
    requires |command| >= 8 && command[..4] == MAGIC && command[5..8] == [0, 0, 1]
    ensures command == Header(command[4]) + command[8..]
  {
  }

  lemma PolicyTail(context: Bytes, preflight: bool)
    requires |context| == CONTEXT_SIZE
    ensures var command := BuildPolicy(context, preflight);
      |command| == 51 && command[4] == VERIFY_POLICY && command[8..24] == context
      && command[24..][..18] == ENROLLMENT_POLICY && command[24..][18] == (if preflight then 1 else 0)
      && command[24..][19..] == Zeros(8)
  {
    hide ENROLLMENT_POLICY, Header;
    assert |ENROLLMENT_POLICY| == 18 by { PolicyNameLength(); }
    var tail := ENROLLMENT_POLICY + [if preflight then 1 else 0] + Le32(0) + Le32(0);
    assert BuildPolicy(context, preflight) == Header(VERIFY_POLICY) + (context + tail);
    HeadOf(VERIFY_POLICY, context + tail);
    assert BuildPolicy(context, preflight)[8..24] == (context + tail)[..16];
    assert BuildPolicy(context, preflight)[24..] == (context + tail)[16..];
    assert Le32(0) + Le32(0) == Zeros(8);
  }

  lemma PolicyNameLength()
    ensures |ENROLLMENT_POLICY| == 18
  {
  }

  /** The validator accepts exactly what the builders make. */
  lemma ValidatesExactlyBuilt(command: Bytes)
    ensures ValidateCommand(command).Ok? <==> IsBuilt(command)
    ensures ValidateCommand(command).Ok? ==> ValidateCommand(command).value == command[4]
  {
    hide ENROLLMENT_POLICY, Header, MAGIC, Le32, Zeros;
    if ValidateCommand(command).Ok? {
      ValidatedIsBuilt(command);
    }
    if IsBuilt(command) {
      if userId: int, tracking: bool :| BuildCreate(userId, tracking) == Ok(command) {
        HeadOf(CreateOpcode(tracking), Le32(userId));
      } else {
        var context: Bytes :| |context| == CONTEXT_SIZE && BuiltFor(command, context);
        BuiltIsValid(command, context);
      }
    }
  }

  lemma BuiltIsValid(command: Bytes, context: Bytes)
    requires |context| == CONTEXT_SIZE && BuiltFor(command, context)
    ensures ValidateCommand(command).Ok? && |command| >= 24 && command[8..24] == context
  {
    hide ENROLLMENT_POLICY, Header, MAGIC, Le32, Zeros, BuildPolicy;
    HeadOf(DELETE, context);
    HeadOf(EXTERNALIZE, context);
    PolicyTail(context, true);
    PolicyTail(context, false);
    PolicyHead(context, true);
    PolicyHead(context, false);
    assert command == BuildDelete(context) || command == BuildExternalize(context) ==> command[8..24] == command[8..];
  }

  lemma PolicyHead(context: Bytes, preflight: bool)
    requires |context| == CONTEXT_SIZE
    ensures var command := BuildPolicy(context, preflight);
      |command| >= 8 && command[..4] == MAGIC && command[5..8] == [0, 0, 1]
  {
  }

  lemma ValidatedIsBuilt(command: Bytes)
    requires ValidateCommand(command).Ok?
    ensures IsBuilt(command)
  {
    hide ENROLLMENT_POLICY, Header, MAGIC, Le32, Zeros, GetLe32;
    FromHead(command);
    var opcode := command[4];
    if opcode == CREATE || opcode == CREATE_TRACKING {
      var userId := GetLe32(command[8..]);
      Le32Inverse(command[8..]);
      assert BuildCreate(userId, opcode == CREATE_TRACKING) == Ok(command);
    } else {
      var context := command[8..24];
      if opcode == VERIFY_POLICY {
        PolicyRebuilt(command);
      } else {
        assert command[8..] == context;
      }
      assert BuiltFor(command, context);
    }
  }

  lemma PolicyRebuilt(command: Bytes)
    requires ValidateCommand(command) == Ok(VERIFY_POLICY)
    ensures command == BuildPolicy(command[8..24], command[42] == 1)
  {
    hide ENROLLMENT_POLICY, MAGIC;
    var rest := command[24..];
    FromHead(command);
    assert rest == rest[..18] + [rest[18]] + rest[19..];
    assert Le32(0) + Le32(0) == Zeros(8);
    assert command == Header(VERIFY_POLICY) + command[8..24] + rest;
  }

  /** The requirement types that the parser permits: all up to 28 but a few. */
  predicate KindPermitted(kind: nat) {
    0 < kind <= 28 && kind != 4 && kind != 5 && kind != 7 && kind != 16 && kind != 17
  }

  /** A policy reply, as the secure processor writes it. */
  function PolicyReply(satisfied: bool, requirement: Option<Requirement>, payload: Bytes): Bytes
    requires requirement.Some? ==>
      requirement.value.kind < WORD && requirement.value.state < WORD && requirement.value.flags < WORD
      && requirement.value.payloadLength < WORD
  {
    Le32(if satisfied then 1 else 0)
    + if requirement.None? then []
      else Le32(requirement.value.kind) + Le32(requirement.value.state) + Le32(requirement.value.flags)
           + Le32(requirement.value.payloadLength) + payload
  }

  /** Policy replies parse exactly from their wire form. */
  lemma PolicyReplyRoundTrip(satisfied: bool, requirement: Option<Requirement>, payload: Bytes)
    requires requirement.Some? ==>
      requirement.value.state < WORD && requirement.value.flags < WORD && KindPermitted(requirement.value.kind)
      && requirement.value.payloadLength == |payload| <= POLICY_RESPONSE_CAPACITY - 20
    ensures ParsePolicyResponse(PolicyReply(satisfied, requirement, payload)) == Ok(PolicyResult(satisfied, requirement))
  {
    hide Le32, GetLe32;
    var head := Le32(if satisfied then 1 else 0);
    GetInverse(if satisfied then 1 else 0);
    var reply := PolicyReply(satisfied, requirement, payload);
    assert reply[..4] == head;
    if requirement.Some? {
      var r := requirement.value;
      GetInverse(r.kind);
      GetInverse(r.state);
      GetInverse(r.flags);
      GetInverse(r.payloadLength);
      var rest := reply[4..];
      assert rest == Le32(r.kind) + Le32(r.state) + Le32(r.flags) + Le32(r.payloadLength) + payload;
      assert rest[..4] == Le32(r.kind) && rest[4..8] == Le32(r.state) && rest[8..12] == Le32(r.flags);
      assert rest[12..16] == Le32(r.payloadLength);
    }
  }

  lemma PolicyReplyUnique(response: Bytes)
    requires ParsePolicyResponse(response).Ok?
    ensures var p := ParsePolicyResponse(response).value;
      && |response| <= 4096
      && (p.requirement.Some? ==> p.requirement.value.payloadLength == |response| - 20 && KindPermitted(p.requirement.value.kind))
      && response == PolicyReply(p.satisfied, p.requirement, if |response| >= 20 then response[20..] else [])
  {
    hide Le32, GetLe32;
    Le32Inverse(response[..4]);
    assert response == response[..4] + response[4..];
    if |response| > 4 {
      var rest := response[4..];
      Le32Inverse(rest[..4]);
      Le32Inverse(rest[4..8]);
      Le32Inverse(rest[8..12]);
      Le32Inverse(rest[12..16]);
      assert rest == rest[..4] + rest[4..8] + rest[8..12] + rest[12..16] + rest[16..];
      assert rest[16..] == response[20..];
    }
  }
}
