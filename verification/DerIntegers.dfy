/** The pieces of the Distinguished Encoding Rules that the keybag state uses: minimal two's-complement
    integers (section 8.3.2 of ITU-T X.690) and minimal definite lengths (sections 8.1.3 and 10.1). */
module DerIntegers {
  import opened Outcomes

  // ---------------------------------------------------------------------------------------
  // Integers

  /** The value of big-endian bytes. */
  function Unsigned(b: Bytes): nat {
    if b == [] then 0 else Unsigned(b[..|b| - 1]) * 256 + b[|b| - 1]
  }

  /** The value of big-endian two's-complement bytes. */
  function Signed(b: Bytes): int {
    if b == [] then 0
    else if |b| == 1 then if b[0] < 0x80 then b[0] else b[0] - 256
    else Signed(b[..|b| - 1]) * 256 + b[|b| - 1]
  }

  predicate Redundant(b: Bytes) {
    |b| > 1 && ((b[0] == 0 && b[1] < 0x80) || (b[0] == 0xFF && b[1] >= 0x80))
  }

  /** The shortest two's-complement bytes of a value. */
  function Minimal(v: int): (b: Bytes)
    ensures b != []
    decreases if v < 0 then -v else v
  {
    if -128 <= v < 128 then [v % 256] else Minimal(v / 256) + [v % 256]
  }

  lemma {:induction false} NonNegativeHead(b: Bytes)
    requires b != []
    ensures b[0] < 0x80 ==> Signed(b) == Unsigned(b)
    ensures b[0] < 0x80 <==> Signed(b) >= 0
  {
    if |b| == 1 {
      assert Unsigned(b[..0]) == 0;
    } else {
      NonNegativeHead(b[..|b| - 1]);
    }
  }

  /** Bytes without redundant padding are the shortest bytes of their value. */
  lemma {:induction false} MinimalOfSigned(b: Bytes)
    requires b != [] && !Redundant(b)
    ensures Minimal(Signed(b)) == b
    ensures |b| > 1 ==> !(-128 <= Signed(b) < 128)
  {
    if |b| > 1 {
      var init := b[..|b| - 1];
      assert b == init + [b[|b| - 1]];
      MinimalOfSigned(init);
      var v := Signed(b);
      assert v / 256 == Signed(init) && v % 256 == b[|b| - 1];
    }
  }

  lemma {:induction false} SignedOfMinimal(v: int)
    ensures Signed(Minimal(v)) == v && !Redundant(Minimal(v))
    decreases if v < 0 then -v else v
  {
    if !(-128 <= v < 128) {
      SignedOfMinimal(v / 256);
      var init := Minimal(v / 256);
      assert Minimal(v)[..|Minimal(v)| - 1] == init;
      if |init| == 1 {
        assert Signed(init) == v / 256;
      }
    }
  }

  /** The magnitude of a value bounds the number of its bytes. */
  lemma MinimalShort(v: int)
    requires -0x8000_0000 <= v <= 0xFFFF_FFFF
    ensures |Minimal(v)| <= 5
  {
    assert |Minimal(v / 256 / 256 / 256 / 256)| == 1;
    assert |Minimal(v / 256 / 256 / 256)| <= 2;
    assert |Minimal(v / 256 / 256)| <= 3;
    assert |Minimal(v / 256)| <= 4;
  }

  // ---------------------------------------------------------------------------------------
  // Lengths and tagged values

  /** The length at the offset, and the offset after it. */
  function Length(data: Bytes, offset: nat): (r: Result<(nat, nat)>)
    ensures r.Ok? ==> offset < r.value.1 <= |data| && r.value.0 < 0x1_0000
  {
    if offset >= |data| then Err
    else
      var first: int := data[offset];
      if first < 0x80 then Ok((first as nat, offset + 1))
      else
        var count: nat := first - 0x80;
        if count == 0 || count > 2 || offset + 1 + count > |data| then Err
        else
          var encoded := data[offset + 1..offset + 1 + count];
          if encoded[0] == 0 then Err
          else
            var value := Unsigned(encoded);
            if value < 0x80 then Err
            else
              assert count == 1 ==> value == encoded[0] by { assert Unsigned(encoded[..0]) == 0; }
              assert count == 2 ==> value == encoded[0] as int * 256 + encoded[1] by { TwoBytes(encoded); }
              Ok((value, offset + 1 + count))
  }

  lemma TwoBytes(b: Bytes)
    ensures |b| == 2 ==> Unsigned(b) == b[0] as int * 256 + b[1]
    ensures |b| == 1 ==> Unsigned(b) == b[0]
  {
  }

  function Tlv(data: Bytes, offset: nat, tag: byte): (r: Result<(Bytes, nat)>)
    ensures r.Ok? ==> offset < r.value.1 <= |data| && |r.value.0| < r.value.1 - offset
  {
    if offset >= |data| || data[offset] != tag then Err
    else
      var (length, content) :- Length(data, offset + 1);
      if content + length > |data| then Err else Ok((data[content..content + length], content + length))
  }

  function EncodeLength(n: nat): Bytes
    requires n < 0x1_0000
  {
    if n < 0x80 then [n] else if n < 0x100 then [0x81, n] else [0x82, n / 256, n % 256]
  }

  function EncodeTlv(tag: byte, content: Bytes): Bytes
    requires |content| < 0x1_0000
  {
    [tag] + EncodeLength(|content|) + content
  }

  lemma LengthSound(data: Bytes, offset: nat)
    ensures Length(data, offset).Ok? ==>
      var (n, next) := Length(data, offset).value;
      n < 0x1_0000 && data[offset..next] == EncodeLength(n)
  {
    if Length(data, offset).Ok? {
      var next := Length(data, offset).value.1;
      TwoBytes(data[offset + 1..next]);
    }
  }

  lemma LengthComplete(data: Bytes, offset: nat, n: nat, next: nat)
    requires n < 0x1_0000 && offset <= next <= |data| && data[offset..next] == EncodeLength(n)
    ensures Length(data, offset) == Ok((n, next))
  {
    var encoded := data[offset..next];
    assert next == offset + |encoded| && encoded[0] == data[offset];
    assert data[offset + 1..next] == encoded[1..];
    TwoBytes(encoded[1..]);
  }

  /** The accepted lengths are exactly the shortest forms. */
  lemma LengthCanonical(data: Bytes, offset: nat, n: nat, next: nat)
    ensures Length(data, offset) == Ok((n, next)) <==>
      n < 0x1_0000 && offset <= next <= |data| && data[offset..next] == EncodeLength(n)
  {
    LengthSound(data, offset);
    hide Length, EncodeLength;
    if n < 0x1_0000 && offset <= next <= |data| && data[offset..next] == EncodeLength(n) {
      LengthComplete(data, offset, n, next);
    }
  }

  lemma TlvSound(data: Bytes, offset: nat, tag: byte)
    ensures Tlv(data, offset, tag).Ok? ==>
      var (content, next) := Tlv(data, offset, tag).value;
      |content| < 0x1_0000 && data[offset..next] == EncodeTlv(tag, content)
  {
    if Tlv(data, offset, tag).Ok? {
      var next := Tlv(data, offset, tag).value.1;
      var (length, start) := Length(data, offset + 1).value;
      LengthCanonical(data, offset + 1, length, start);
      hide Length, EncodeLength;
      assert data[offset..next] == [tag] + data[offset + 1..start] + data[start..next];
    }
  }

  lemma Within(data: Bytes, from: nat, to: nat, i: nat, j: nat)
    requires from <= to <= |data| && i <= j <= to - from
    ensures data[from..to][i..j] == data[from + i..from + j]
  {
    var inner, outer := data[from..to][i..j], data[from + i..from + j];
    assert |inner| == |outer| && forall k :: 0 <= k < |inner| ==> inner[k] == outer[k];
  }

  lemma TlvComplete(data: Bytes, offset: nat, tag: byte, content: Bytes, next: nat)
    requires |content| < 0x1_0000 && offset <= next <= |data| && data[offset..next] == EncodeTlv(tag, content)
    ensures Tlv(data, offset, tag) == Ok((content, next))
  {
    var l := EncodeLength(|content|);
    var start := offset + 1 + |l|;
    var whole := data[offset..next];
    assert whole == [tag] + l + content;
    hide EncodeLength;
    assert data[offset] == whole[0];
    assert |whole| == next - offset && start <= next;
    Within(data, offset, next, 1, 1 + |l|);
    Within(data, offset, next, 1 + |l|, |whole|);
    assert whole[1..1 + |l|] == l && whole[1 + |l|..] == content;
    LengthCanonical(data, offset + 1, |content|, start);
    hide Length;
  }

  /** The accepted tagged values are exactly the canonical encodings. */
  lemma TlvCanonical(data: Bytes, offset: nat, tag: byte, content: Bytes, next: nat)
    ensures Tlv(data, offset, tag) == Ok((content, next)) <==>
      |content| < 0x1_0000 && offset <= next <= |data| && data[offset..next] == EncodeTlv(tag, content)
  {
    TlvSound(data, offset, tag);
    hide Tlv, EncodeTlv;
    if |content| < 0x1_0000 && offset <= next <= |data| && data[offset..next] == EncodeTlv(tag, content) {
      TlvComplete(data, offset, tag, content, next);
    }
  }
}
