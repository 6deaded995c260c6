/** The two privileged requests whose builder (user space) and allow-list checker (kernel) are written
    apart, in C: verify-secret and copy-keybag-uuid. */
module AksProtocol {
  import opened Outcomes

  const WORD := 0x1_0000_0000
  const WORD64 := 0x1_0000_0000_0000_0000

  // ---------------------------------------------------------------------------------------
  // Little-endian words

  function Le32(v: nat): (b: Bytes)
    requires v < WORD
    ensures |b| == 4
  {
    [v % 0x100, v / 0x100 % 0x100, v / 0x1_0000 % 0x100, v / 0x100_0000]
  }

  function Le64(v: nat): (b: Bytes)
    requires v < WORD64
    ensures |b| == 8
  {
    Le32(v % WORD) + Le32(v / WORD)
  }

  function GetLe32(b: Bytes): (v: nat)
    requires |b| == 4
    ensures v < WORD
  {
    b[0] as int + 0x100 * (b[1] as int) + 0x1_0000 * (b[2] as int) + 0x100_0000 * (b[3] as int)
  }

  function GetLe64(b: Bytes): (v: nat)
    requires |b| == 8
    ensures v < WORD64
  {
    GetLe32(b[..4]) + WORD * GetLe32(b[4..])
  }

  lemma Le32Inverse(b: Bytes)
    requires |b| == 4
    ensures Le32(GetLe32(b)) == b
  {
    var v := GetLe32(b);
    var v1 := b[1] as int + 0x100 * (b[2] as int) + 0x1_0000 * (b[3] as int);
    var v2 := b[2] as int + 0x100 * (b[3] as int);
    assert v == b[0] as int + 0x100 * v1 && v1 == b[1] as int + 0x100 * v2;
    assert v / 0x100 == v1 && v1 / 0x100 == v2 && v2 / 0x100 == b[3] as int;
    assert v / 0x1_0000 == v2 && v / 0x100_0000 == b[3] as int;
  }

  lemma GetInverse(v: nat)
    requires v < WORD
    ensures GetLe32(Le32(v)) == v
  {
  }

  lemma Halves(low: nat, high: nat)
    requires low < WORD
    ensures (low + WORD * high) % WORD == low && (low + WORD * high) / WORD == high
  {
  }

  lemma Le64Inverse(b: Bytes)
    requires |b| == 8
    ensures Le64(GetLe64(b)) == b
  {
    hide Le32, GetLe32;
    Le32Inverse(b[..4]);
    Le32Inverse(b[4..]);
    Halves(GetLe32(b[..4]), GetLe32(b[4..]));
    assert b == b[..4] + b[4..];
  }

  lemma Get64Inverse(v: nat)
    requires v < WORD64
    ensures GetLe64(Le64(v)) == v
  {
    GetInverse(v % WORD);
    GetInverse(v / WORD);
  }

  /** The stored word, read back with the limits of the buffer. */
  method ReadLe32(request: array<byte>, ghost length: nat, offset: nat) returns (v: nat)
    requires offset + 4 <= length <= request.Length
    ensures v == GetLe32(request[..length][offset..offset + 4])
  {
    assert request[..length][offset..offset + 4] == request[offset..offset + 4];
    v := request[offset] as int + 0x100 * (request[offset + 1] as int)
         + 0x1_0000 * (request[offset + 2] as int) + 0x100_0000 * (request[offset + 3] as int);
  }

  method ReadLe64(request: array<byte>, ghost length: nat, offset: nat) returns (v: nat)
    requires offset + 8 <= length <= request.Length
    ensures v == GetLe64(request[..length][offset..offset + 8])
  {
    hide GetLe32;
    var low := ReadLe32(request, length, offset);
    var high := ReadLe32(request, length, offset + 4);
    v := low + WORD * high;
    ghost var b := request[..length][offset..offset + 8];
    assert b[..4] == request[..length][offset..offset + 4] && b[4..] == request[..length][offset + 4..offset + 8];
  }

  function Patched(b: Bytes, offset: nat, patch: Bytes): Bytes
    requires offset + |patch| <= |b|
  {
    b[..offset] + patch + b[offset + |patch|..]
  }

  method PutLe32(request: array<byte>, offset: nat, v: nat)
    requires v < WORD && offset + 4 <= request.Length
    modifies request
    ensures request[..] == Patched(old(request[..]), offset, Le32(v))
  {
    request[offset] := v % 0x100;
    request[offset + 1] := v / 0x100 % 0x100;
    request[offset + 2] := v / 0x1_0000 % 0x100;
    request[offset + 3] := v / 0x100_0000 % 0x100;
  }

  method PutLe64(request: array<byte>, offset: nat, v: nat)
    requires v < WORD64 && offset + 8 <= request.Length
    modifies request
    ensures request[..] == Patched(old(request[..]), offset, Le64(v))
  {
    PutLe32(request, offset, v % WORD);
    PutLe32(request, offset + 4, v / WORD);
  }

  method CopyIn(request: array<byte>, offset: nat, data: Bytes)
    requires offset + |data| <= request.Length
    modifies request
    ensures request[..] == Patched(old(request[..]), offset, data)
  {
    for i := 0 to |data|
      invariant forall j :: 0 <= j < i ==> request[offset + j] == data[j]
      invariant forall j :: 0 <= j < offset || offset + i <= j < request.Length ==> request[j] == old(request[j])
    {
      request[offset + i] := data[i];
    }
  }

  // ---------------------------------------------------------------------------------------
  // The requests

  /** A signed handle, as the word that carries it. */
  predicate IsHandle(handle: int) {
    -0x8000_0000 <= handle <= 0x7FFF_FFFF
  }

  function HandleWord(handle: int): (w: nat)
    requires IsHandle(handle)
    ensures w < WORD && (w == 0 <==> handle == 0)
  {
    if handle < 0 then handle + WORD else handle
  }

  function Zeros(n: nat): (z: Bytes)
    ensures |z| == n
  {
    seq(n, _ => 0)
  }

  function Padding(n: nat): (p: nat)
    ensures p < 4 && (n + p) % 4 == 0
  {
    (4 - n % 4) % 4
  }

  /** The verify-secret request, version 1: the secret is padded to words; the context is absent or a
      16-byte external form. */
  function VerifyRequest(session: nat, handle: int, secret: Bytes, context: Bytes): Bytes
    requires session < WORD64 && IsHandle(handle) && |secret| <= 128 && |context| <= 16
  {
    Le32(1) + Le64(session) + Le32(HandleWord(handle)) + Le32(|secret|) + secret + Zeros(Padding(|secret|))
    + Le32(|context|) + context + Le64(0x200)
  }

  function CopyUuidRequest(session: nat, handle: int): Bytes
    requires session < WORD64 && IsHandle(handle)
  {
    Le32(0) + Le64(session) + Le32(HandleWord(handle))
  }

  /** A zeroed buffer of n bytes after its first bytes were written. */
  function Fill(head: Bytes, n: nat): Bytes
    requires |head| <= n
  {
    head + Zeros(n - |head|)
  }

  lemma Advance(head: Bytes, n: nat, patch: Bytes)
    requires |head| + |patch| <= n
    ensures Patched(Fill(head, n), |head|, patch) == Fill(head + patch, n)
  {
  }

  lemma Skip(head: Bytes, n: nat, k: nat)
    requires |head| + k <= n
    ensures Fill(head, n) == Fill(head + Zeros(k), n)
  {
  }

  lemma Full(head: Bytes)
    ensures Fill(head, |head|) == head
  {
  }

  method BuildVerifySecret(session: nat, handle: int, secret: Option<Bytes>, context: Option<Bytes>)
    returns (request: Option<array<byte>>)
    requires session < WORD64 && IsHandle(handle) && (context.Some? ==> |context.value| == 16)
    ensures request.Some? <==> secret.Some? && 1 <= |secret.value| <= 128 && handle != 0
    ensures request.Some? ==> fresh(request.value)
    ensures request.Some? ==> (
      var external := if context.Some? then context.value else [];
      request.value[..] == VerifyRequest(session, handle, secret.value, external))
  {
    if secret.None? || |secret.value| == 0 || |secret.value| > 128 || handle == 0 {
      return None;
    }
    hide Le32, Le64, Fill, Zeros, HandleWord;
    var contextLength := if context.Some? then 16 else 0;
    var length := |secret.value|;
    var padded := (length + 3) / 4 * 4;
    assert padded == length + Padding(length);
    var b := new byte[32 + padded + contextLength](_ => 0);
    Blank(b[..]);
    ghost var head := FillLe32(b, 0, [], 1);
    head := FillLe64(b, 4, head, session);
    head := FillLe32(b, 12, head, HandleWord(handle));
    head := FillLe32(b, 16, head, length);
    head := FillBytes(b, 20, head, secret.value);
    Skip(head, b.Length, Padding(length));
    head := FillLe32(b, 20 + padded, head + Zeros(Padding(length)), contextLength);
    if context.Some? {
      head := FillBytes(b, 24 + padded, head, context.value);
    }
    head := FillLe64(b, 24 + padded + contextLength, head, 0x200);
    Full(head);
    request := Some(b);
    AnyContext(session, handle, secret.value, if context.Some? then context.value else []);
  }

  /** The request without its context part, when there is none. */
  lemma AnyContext(session: nat, handle: int, secret: Bytes, context: Bytes)
    requires session < WORD64 && IsHandle(handle) && |secret| <= 128 && |context| <= 16
    ensures context == [] ==> (
      VerifyRequest(session, handle, secret, context) ==
      [] + Le32(1) + Le64(session) + Le32(HandleWord(handle)) + Le32(|secret|) + secret + Zeros(Padding(|secret|))
      + Le32(0) + Le64(0x200))
    ensures VerifyRequest(session, handle, secret, context) ==
      [] + Le32(1) + Le64(session) + Le32(HandleWord(handle)) + Le32(|secret|) + secret + Zeros(Padding(|secret|))
      + Le32(|context|) + context + Le64(0x200)
  {
    hide Le32, Le64, Zeros, HandleWord, Padding;
    assert [] + Le32(1) == Le32(1);
    var head := Le32(1) + Le64(session) + Le32(HandleWord(handle)) + Le32(|secret|) + secret + Zeros(Padding(|secret|)) + Le32(|context|);
    assert context == [] ==> head + context == head;
  }

  method FillLe32(request: array<byte>, offset: nat, ghost head: Bytes, v: nat) returns (ghost longer: Bytes)
    requires v < WORD && offset + 4 <= request.Length && offset == |head| && request[..] == Fill(head, request.Length)
    modifies request
    ensures longer == head + Le32(v) && |longer| == offset + 4 && request[..] == Fill(longer, request.Length)
  {
    hide Le32, Fill, Patched;
    longer := head + Le32(v);
    Advance(head, request.Length, Le32(v));
    PutLe32(request, offset, v);
  }

  method FillLe64(request: array<byte>, offset: nat, ghost head: Bytes, v: nat) returns (ghost longer: Bytes)
    requires v < WORD64 && offset + 8 <= request.Length && offset == |head| && request[..] == Fill(head, request.Length)
    modifies request
    ensures longer == head + Le64(v) && |longer| == offset + 8 && request[..] == Fill(longer, request.Length)
  {
    hide Le64, Fill, Patched;
    longer := head + Le64(v);
    Advance(head, request.Length, Le64(v));
    PutLe64(request, offset, v);
  }

  method FillBytes(request: array<byte>, offset: nat, ghost head: Bytes, data: Bytes) returns (ghost longer: Bytes)
    requires offset + |data| <= request.Length && offset == |head| && request[..] == Fill(head, request.Length)
    modifies request
    ensures longer == head + data && |longer| == offset + |data| && request[..] == Fill(longer, request.Length)
  {
    hide Fill, Patched;
    longer := head + data;
    Advance(head, request.Length, data);
    CopyIn(request, offset, data);
  }

  lemma Blank(b: Bytes)
    requires forall i :: 0 <= i < |b| ==> b[i] == 0
    ensures b == Fill([], |b|)
  {
  }

  method BuildCopyUuid(session: nat, handle: int, request: array?<byte>) returns (ok: bool)
    requires session < WORD64 && IsHandle(handle) && (request != null ==> request.Length == 16)
    modifies request
    ensures ok <==> session == 1 && handle != 0 && request != null
    ensures ok ==> request[..] == CopyUuidRequest(session, handle)
    ensures !ok && request != null ==> request[..] == old(request[..])
  {
    if session != 1 || handle == 0 || request == null {
      return false;
    }
    for i := 0 to 16
      invariant forall j :: 0 <= j < i ==> request[j] == 0
    {
      request[i] := 0;
    }
    Blank(request[..]);
    Skip([], 16, 4);
    assert [] + Zeros(4) == Le32(0);
    ghost var head := FillLe64(request, 4, Le32(0), session);
    head := FillLe32(request, 12, head, HandleWord(handle));
    Full(head);
    ok := true;
  }

  // ---------------------------------------------------------------------------------------
  // The checkers

  predicate VerifyArguments(handle: int, secret: Bytes, context: Bytes) {
    IsHandle(handle) && handle != 0 && 1 <= |secret| <= 128 && (|context| == 0 || |context| == 16)
  }

  /** The bytes are what the builder makes, for session 1, of some permitted arguments. */
  ghost predicate IsVerifyRequest(b: Bytes) {
    exists handle: int, secret: Bytes, context: Bytes ::
      VerifyArguments(handle, secret, context) && b == VerifyRequest(1, handle, secret, context)
  }

  ghost predicate IsCopyUuidRequest(b: Bytes) {
    exists handle: int :: IsHandle(handle) && handle != 0 && b == CopyUuidRequest(1, handle)
  }

  /** The parts of a request, where the checker looks for them. */
  predicate VerifyLayout(b: Bytes, word: nat, secret: Bytes, context: Bytes)
    requires word < WORD && |secret| <= 128 && |context| <= 16
  {
    var padded := |secret| + Padding(|secret|);
    && |b| == 32 + padded + |context|
    && b[..4] == Le32(1) && b[4..12] == Le64(1) && b[12..16] == Le32(word) && b[16..20] == Le32(|secret|)
    && b[20..20 + |secret|] == secret && b[20 + |secret|..20 + padded] == Zeros(Padding(|secret|))
    && b[20 + padded..24 + padded] == Le32(|context|) && b[24 + padded..24 + padded + |context|] == context
    && b[24 + padded + |context|..] == Le64(0x200)
  }

  lemma LayoutOf(handle: int, secret: Bytes, context: Bytes)
    requires VerifyArguments(handle, secret, context)
    ensures VerifyLayout(VerifyRequest(1, handle, secret, context), HandleWord(handle), secret, context)
  {
    hide Le32, Le64, Zeros, HandleWord, Padding;
  }

  lemma RequestOf(b: Bytes, handle: int, secret: Bytes, context: Bytes)
    requires VerifyArguments(handle, secret, context) && VerifyLayout(b, HandleWord(handle), secret, context)
    ensures b == VerifyRequest(1, handle, secret, context)
  {
    hide Le32, Le64, Zeros, HandleWord, Padding;
    var padded := |secret| + Padding(|secret|);
    assert b == b[..4] + b[4..12] + b[12..16] + b[16..20] + b[20..20 + |secret|] + b[20 + |secret|..20 + padded]
      + b[20 + padded..24 + padded] + b[24 + padded..24 + padded + |context|] + b[24 + padded + |context|..];
  }

  /** What the checker tests: the fixed words, then the parts of variable length. */
  predicate VerifyAccepts(b: Bytes) {
    && |b| >= 36 && GetLe32(b[..4]) == 1 && GetLe64(b[4..12]) == 1 && GetLe32(b[12..16]) != 0
    && VerifyTailAccepts(b, GetLe32(b[16..20]))
  }

  predicate VerifyTailAccepts(b: Bytes, n: nat) {
    && 1 <= n <= 128
    && var padded := n + Padding(n);
    && |b| >= 32 + padded && b[20 + n..20 + padded] == Zeros(Padding(n))
    && var c := GetLe32(b[20 + padded..24 + padded]);
    && (c == 0 || c == 16) && |b| == 32 + padded + c && GetLe64(b[24 + padded + c..]) == 0x200
  }

  lemma AcceptsLayout(b: Bytes, word: nat, secret: Bytes, context: Bytes)
    requires 0 < word < WORD && 1 <= |secret| <= 128 && (|context| == 0 || |context| == 16)
    requires VerifyLayout(b, word, secret, context)
    ensures VerifyAccepts(b)
  {
    hide Le32, Le64, Padding, GetLe32, GetLe64;
    var n, padded := |secret|, |secret| + Padding(|secret|);
    GetInverse(1);
    Get64Inverse(1);
    GetInverse(word);
    GetInverse(n);
    GetInverse(|context|);
    Get64Inverse(0x200);
  }

  lemma LayoutAccepted(b: Bytes)
    requires VerifyAccepts(b)
    ensures var n := GetLe32(b[16..20]); var padded := n + Padding(n); var c := GetLe32(b[20 + padded..24 + padded]);
      VerifyLayout(b, GetLe32(b[12..16]), b[20..20 + n], b[24 + padded..24 + padded + c])
  {
    hide Le32, Le64, Padding, GetLe32, GetLe64;
    var n := GetLe32(b[16..20]);
    var padded := n + Padding(n);
    var c := GetLe32(b[20 + padded..24 + padded]);
    Le32Inverse(b[..4]);
    Le64Inverse(b[4..12]);
    Le32Inverse(b[12..16]);
    Le32Inverse(b[16..20]);
    Le32Inverse(b[20 + padded..24 + padded]);
    Le64Inverse(b[24 + padded + c..]);
  }

  function Handle(word: nat): (handle: int)
    requires word < WORD
    ensures IsHandle(handle) && HandleWord(handle) == word
  {
    if word > 0x7FFF_FFFF then word - WORD else word
  }

  /** The checker accepts exactly what the builder can make. */
  lemma VerifyAcceptsExactly(b: Bytes)
    ensures VerifyAccepts(b) <==> IsVerifyRequest(b)
  {
    hide Le32, Le64, Padding, GetLe32, GetLe64, VerifyLayout, VerifyRequest;
    if VerifyAccepts(b) {
      LayoutAccepted(b);
      var n := GetLe32(b[16..20]);
      var padded := n + Padding(n);
      var c := GetLe32(b[20 + padded..24 + padded]);
      var handle, secret, context := Handle(GetLe32(b[12..16])), b[20..20 + n], b[24 + padded..24 + padded + c];
      RequestOf(b, handle, secret, context);
    }
    hide VerifyAccepts;
    if IsVerifyRequest(b) {
      var handle: int, secret: Bytes, context: Bytes :|
        VerifyArguments(handle, secret, context) && b == VerifyRequest(1, handle, secret, context);
      LayoutOf(handle, secret, context);
      AcceptsLayout(b, HandleWord(handle), secret, context);
    }
  }

  /** The arguments of a request are unique. */
  lemma VerifyArgumentsUnique(h1: int, s1: Bytes, c1: Bytes, h2: int, s2: Bytes, c2: Bytes)
    requires VerifyArguments(h1, s1, c1) && VerifyArguments(h2, s2, c2)
    requires VerifyRequest(1, h1, s1, c1) == VerifyRequest(1, h2, s2, c2)
    ensures h1 == h2 && s1 == s2 && c1 == c2
  {
    hide Le32, Le64, Padding, GetLe32, GetLe64, VerifyRequest;
    LayoutOf(h1, s1, c1);
    LayoutOf(h2, s2, c2);
    GetInverse(HandleWord(h1));
    GetInverse(HandleWord(h2));
    GetInverse(|s1|);
    GetInverse(|s2|);
    GetInverse(|c1|);
    GetInverse(|c2|);
  }

  lemma CopyUuidAcceptsExactly(b: Bytes)
    ensures IsCopyUuidRequest(b) <==>
      |b| == 16 && GetLe32(b[..4]) == 0 && GetLe64(b[4..12]) == 1 && GetLe32(b[12..16]) != 0
  {
    hide Le32, Le64, GetLe32, GetLe64;
    GetInverse(0);
    Get64Inverse(1);
    if |b| == 16 && GetLe32(b[..4]) == 0 && GetLe64(b[4..12]) == 1 && GetLe32(b[12..16]) != 0 {
      Le32Inverse(b[..4]);
      Le64Inverse(b[4..12]);
      Le32Inverse(b[12..16]);
      assert b == b[..4] + b[4..12] + b[12..16];
      assert b == CopyUuidRequest(1, Handle(GetLe32(b[12..16])));
    }
    if IsCopyUuidRequest(b) {
      var handle: int :| IsHandle(handle) && handle != 0 && b == CopyUuidRequest(1, handle);
      assert b[..4] == Le32(0) && b[4..12] == Le64(1) && b[12..16] == Le32(HandleWord(handle));
      GetInverse(HandleWord(handle));
    }
  }

  lemma NotZeros(b: Bytes, from: nat, to: nat, k: nat)
    requires from <= k < to <= |b| && b[k] != 0
    ensures b[from..to] != Zeros(to - from)
  {
  }

  method ZeroPadded(request: array<byte>, ghost length: nat, from: nat, to: nat) returns (ok: bool)
    requires from <= to && 20 + to <= length <= request.Length
    ensures ok <==> request[..length][20 + from..20 + to] == Zeros(to - from)
  {
    ghost var b := request[..length];
    for offset := from to to
      invariant forall k :: 20 + from <= k < 20 + offset ==> b[k] == 0
    {
      if request[20 + offset] != 0 {
        NotZeros(b, 20 + from, 20 + to, 20 + offset);
        return false;
      }
    }
    ok := true;
  }

  method VerifyTailAllowed(request: array<byte>, length: nat, passwordLength: nat) returns (ok: bool)
    requires length <= request.Length
    ensures ok <==> VerifyTailAccepts(request[..length], passwordLength)
  {
    hide GetLe32, GetLe64, Zeros;
    if passwordLength == 0 || passwordLength > 128 {
      return false;
    }
    var paddedLength := (passwordLength + 3) / 4 * 4;
    assert paddedLength == passwordLength + Padding(passwordLength);
    if length < 32 + paddedLength {
      return false;
    }
    var zero := ZeroPadded(request, length, passwordLength, paddedLength);
    if !zero {
      return false;
    }
    var contextLength := ReadLe32(request, length, 20 + paddedLength);
    if contextLength != 0 && contextLength != 16 {
      return false;
    }
    if length != 32 + paddedLength + contextLength {
      return false;
    }
    var options := ReadLe64(request, length, 24 + paddedLength + contextLength);
    ghost var b := request[..length];
    assert b[24 + paddedLength + contextLength..] == b[24 + paddedLength + contextLength..length];
    ok := options == 0x200;
  }

  method VerifySecretAllowed(request: array?<byte>, length: nat) returns (ok: bool)
    requires request != null ==> length <= request.Length
    ensures ok <==> request != null && IsVerifyRequest(request[..length])
  {
    if request == null {
      return false;
    }
    hide GetLe32, GetLe64, IsVerifyRequest, VerifyTailAccepts;
    VerifyAcceptsExactly(request[..length]);
    if length < 36 {
      return false;
    }
    var version := ReadLe32(request, length, 0);
    if version != 1 {
      return false;
    }
    var session := ReadLe64(request, length, 4);
    var handle := ReadLe32(request, length, 12);
    if session != 1 || handle == 0 {
      return false;
    }
    var passwordLength := ReadLe32(request, length, 16);
    ok := VerifyTailAllowed(request, length, passwordLength);
  }

  method CopyUuidAllowed(request: array?<byte>, length: nat) returns (ok: bool)
    requires request != null ==> length <= request.Length
    ensures ok <==> request != null && IsCopyUuidRequest(request[..length])
  {
    if request == null {
      return false;
    }
    hide GetLe32, GetLe64, IsCopyUuidRequest;
    CopyUuidAcceptsExactly(request[..length]);
    if length != 16 {
      return false;
    }
    var placeholder := ReadLe32(request, length, 0);
    var session := ReadLe64(request, length, 4);
    var handle := ReadLe32(request, length, 12);
    ok := placeholder == 0 && session == 1 && handle != 0;
  }
}
