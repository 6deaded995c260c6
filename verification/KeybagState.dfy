/** The strict decoder for the keybag state dictionary, and the encoder it inverts. */
module KeybagState {
  import opened Outcomes
  import opened DerIntegers

  const MAX_DER_BYTES := 16300
  const UINT32_MAX := 0xFFFF_FFFF
  const UINT64_MAX := 0xFFFF_FFFF_FFFF_FFFF

  datatype State = State(
    handle: int, maximumUnlockAttempts: int, backoff: int, failedAttempts: int, generationState: int,
    lockState: int, moreState: int, recoveryCountdown: int, state: int, userUuid: Bytes)

  datatype Field = Number(value: int) | Octets(bytes: Bytes)

  datatype Entry = Entry(key: Bytes, field: Field)

  const BH: Bytes := [0x62, 0x68]
  const ZERO_UUID: Bytes := [0, 0, 0, 0, 0, 0, 0, 0, 0, 0, 0, 0, 0, 0, 0, 0]

  /** Apple's order of the keys, by their text: bh, mua, sb, sfa, sgs, sls, sms, srcd, ss, uuuid. */
  const KEYS: seq<Bytes> := [
    BH, [0x6D, 0x75, 0x61], [0x73, 0x62], [0x73, 0x66, 0x61], [0x73, 0x67, 0x73], [0x73, 0x6C, 0x73],
    [0x73, 0x6D, 0x73], [0x73, 0x72, 0x63, 0x64], [0x73, 0x73], [0x75, 0x75, 0x75, 0x69, 0x64]]

  // ---------------------------------------------------------------------------------------
  // Decoding

  predicate HandleRange(v: int) {
    -0x8000_0000 <= v <= 0x7FFF_FFFF && v != 0
  }

  function IntegerOf(content: Bytes, signed: bool): Result<int> {
    if content == [] || Redundant(content) || (!signed && content[0] >= 0x80) then Err
    else
      var v: int := if signed then Signed(content) else Unsigned(content);
      if if signed then HandleRange(v) else 0 <= v <= UINT64_MAX then Ok(v) else Err
  }

  predicate Ascii(b: Bytes) {
    forall i :: 0 <= i < |b| ==> b[i] < 0x80
  }

  /** One key and value, in a sequence that holds nothing else. */
  function EntryIn(sequence: Bytes): Result<Entry> {
    var (key, offset) :- Tlv(sequence, 0, 0x0C);
    if !Ascii(key) || offset >= |sequence| then Err
    else
      var tag := sequence[offset];
      var (content, end) :- Tlv(sequence, offset, tag);
      if end != |sequence| then Err
      else if tag == 0x02 then
        var v :- IntegerOf(content, key == BH);
        Ok(Entry(key, Number(v)))
      else if tag == 0x04 then Ok(Entry(key, Octets(content)))
      else Err
  }

  function Keys(entries: seq<Entry>): seq<Bytes> {
    seq(|entries|, i requires 0 <= i < |entries| => entries[i].key)
  }

  /** The entries from the offset on, after those already read. */
  function EntriesFrom(root: Bytes, offset: nat, entries: seq<Entry>): Result<seq<Entry>>
    requires offset <= |root|
    decreases |root| - offset
  {
    if offset == |root| then Ok(entries)
    else
      var (sequence, next) :- Tlv(root, offset, 0x30);
      var entry :- EntryIn(sequence);
      if entry.key in Keys(entries) then Err else EntriesFrom(root, next, entries + [entry])
  }

  predicate WordRange(v: int) {
    v <= UINT32_MAX
  }

  /** The entries as a dictionary. */
  function ValuesOf(entries: seq<Entry>): map<Bytes, Field> {
    if entries == [] then map[]
    else
      var n := |entries| - 1;
      ValuesOf(entries[..n])[entries[n].key := entries[n].field]
  }

  /** The checks on the values, in the order of the keys. */
  function FromFields(f: seq<Field>): Result<State>
    requires |f| == 10
  {
    if exists i :: 0 <= i < 9 && !f[i].Number? then Err
    else if !f[9].Octets? || |f[9].bytes| != 16 || f[9].bytes == ZERO_UUID then Err
    else
      var s := State(f[0].value, f[1].value, f[2].value, f[3].value, f[4].value,
                     f[5].value, f[6].value, f[7].value, f[8].value, f[9].bytes);
      if WordRange(s.maximumUnlockAttempts) && WordRange(s.backoff) && WordRange(s.failedAttempts)
         && WordRange(s.generationState) && WordRange(s.moreState) && WordRange(s.recoveryCountdown)
         && WordRange(s.state) && s.lockState <= 0xFFFF
      then Ok(s) else Err
  }

  function StateOf(order: seq<Bytes>, values: map<Bytes, Field>): Result<State> {
    if values.Keys != (set k | k in KEYS) || order != KEYS then Err
    else FromFields(seq(10, i requires 0 <= i < 10 => values[KEYS[i]]))
  }

  function Decoded(data: Bytes): Result<State> {
    if !(0 < |data| <= MAX_DER_BYTES) then Err
    else
      var (root, end) :- Tlv(data, 0, 0x31);
      if end != |data| then Err
      else
        var entries :- EntriesFrom(root, 0, []);
        StateOf(Keys(entries), ValuesOf(entries))
  }

  /** The decoding loop. */
  method Decode(data: Bytes) returns (r: Result<State>)
    ensures r == Decoded(data)
  {
    if !(0 < |data| <= MAX_DER_BYTES) {
      return Err;
    }
    var outer :- Tlv(data, 0, 0x31);
    if outer.1 != |data| {
      return Err;
    }
    var root := outer.0;
    var values: map<Bytes, Field>, fieldOrder: seq<Bytes> := map[], [];
    ghost var entries: seq<Entry> := [];
    var offset := 0;
    while offset < |root|
      invariant offset <= |root|
      invariant EntriesFrom(root, 0, []) == EntriesFrom(root, offset, entries)
      invariant fieldOrder == Keys(entries) && values == ValuesOf(entries)
      decreases |root| - offset
    {
      var inner :- Tlv(root, offset, 0x30);
      var entry :- EntryIn(inner.0);
      ValuesKeys(entries);
      if entry.key in values {
        return Err;
      }
      values := values[entry.key := entry.field];
      fieldOrder := fieldOrder + [entry.key];
      entries := entries + [entry];
      offset := inner.1;
    }
    r := StateOf(fieldOrder, values);
  }

  lemma {:induction false} ValuesKeys(entries: seq<Entry>)
    ensures forall k :: k in ValuesOf(entries) <==> k in Keys(entries)
  {
    if entries != [] {
      var n := |entries| - 1;
      ValuesKeys(entries[..n]);
      assert Keys(entries) == Keys(entries[..n]) + [entries[n].key];
    }
  }

  // ---------------------------------------------------------------------------------------
  // The encoder

  predicate InRange(s: State) {
    && -0x8000_0000 <= s.handle < 0x8000_0000 && s.handle != 0
    && 0 <= s.maximumUnlockAttempts <= UINT32_MAX && 0 <= s.backoff <= UINT32_MAX
    && 0 <= s.failedAttempts <= UINT32_MAX && 0 <= s.generationState <= UINT32_MAX
    && 0 <= s.lockState <= 0xFFFF && 0 <= s.moreState <= UINT32_MAX
    && 0 <= s.recoveryCountdown <= UINT32_MAX && 0 <= s.state <= UINT32_MAX
    && |s.userUuid| == 16 && s.userUuid != ZERO_UUID
  }

  function FieldsOf(s: State): seq<Field> {
    [Number(s.handle), Number(s.maximumUnlockAttempts), Number(s.backoff), Number(s.failedAttempts),
     Number(s.generationState), Number(s.lockState), Number(s.moreState), Number(s.recoveryCountdown),
     Number(s.state), Octets(s.userUuid)]
  }

  function EntriesOf(s: State): seq<Entry> {
    seq(10, i requires 0 <= i < 10 => Entry(KEYS[i], FieldsOf(s)[i]))
  }

  function Content(f: Field): Bytes {
    if f.Number? then Minimal(f.value) else f.bytes
  }

  function FieldTag(f: Field): byte {
    if f.Number? then 0x02 else 0x04
  }

  function Body(e: Entry): Bytes
    requires |e.key| < 0x1_0000 && |Content(e.field)| < 0x1_0000
  {
    EncodeTlv(0x0C, e.key) + EncodeTlv(FieldTag(e.field), Content(e.field))
  }

  predicate Encodable(e: Entry) {
    |e.key| < 0x1_0000 && |Content(e.field)| < 0x1_0000 && |Body(e)| < 0x1_0000
  }

  function EncodeEntry(e: Entry): Bytes
    requires Encodable(e)
  {
    EncodeTlv(0x30, Body(e))
  }

  function EncodeEntries(entries: seq<Entry>): Bytes
    requires forall i :: 0 <= i < |entries| ==> Encodable(entries[i])
  {
    if entries == [] then [] else EncodeEntries(entries[..|entries| - 1]) + EncodeEntry(entries[|entries| - 1])
  }

  // ---------------------------------------------------------------------------------------
  // Each piece decodes exactly from its encoding

  predicate ValueAllowed(v: int, signed: bool) {
    if signed then HandleRange(v) else 0 <= v <= UINT64_MAX
  }

  lemma IntegerCanonical(content: Bytes, signed: bool, v: int)
    ensures IntegerOf(content, signed) == Ok(v) <==>
      content == Minimal(v) && if signed then -0x8000_0000 <= v < 0x8000_0000 && v != 0 else 0 <= v < 0x1_0000_0000_0000_0000
  {
    if content != [] && !Redundant(content) {
      MinimalOfSigned(content);
      NonNegativeHead(content);
    }
    SignedOfMinimal(v);
    NonNegativeHead(Minimal(v));
  }

  predicate EntryAllowed(e: Entry) {
    Ascii(e.key) && (e.field.Number? ==> ValueAllowed(e.field.value, e.key == BH))
  }

  lemma EntrySound(sequence: Bytes)
    ensures EntryIn(sequence).Ok? && |sequence| < 0x1_0000 ==>
      var e := EntryIn(sequence).value;
      EntryAllowed(e) && Encodable(e) && sequence == Body(e)
  {
    hide Tlv, EncodeTlv, IntegerOf, Minimal;
    if EntryIn(sequence).Ok? && |sequence| < 0x1_0000 {
      var (key, offset) := Tlv(sequence, 0, 0x0C).value;
      var tag := sequence[offset];
      var content := Tlv(sequence, offset, tag).value.0;
      TlvSound(sequence, 0, 0x0C);
      TlvSound(sequence, offset, tag);
      assert sequence == sequence[0..offset] + sequence[offset..|sequence|];
      if tag == 0x02 {
        IntegerCanonical(content, key == BH, IntegerOf(content, key == BH).value);
      }
    }
  }

  lemma EntryComplete(e: Entry)
    requires EntryAllowed(e) && Encodable(e)
    ensures EntryIn(Body(e)) == Ok(e)
  {
    hide Tlv, EncodeTlv, IntegerOf, Minimal;
    var sequence := Body(e);
    var head, tail := EncodeTlv(0x0C, e.key), EncodeTlv(FieldTag(e.field), Content(e.field));
    assert sequence[0..|head|] == head && sequence[|head|..|sequence|] == tail;
    TlvComplete(sequence, 0, 0x0C, e.key, |head|);
    TlvComplete(sequence, |head|, FieldTag(e.field), Content(e.field), |sequence|);
    FirstByte(FieldTag(e.field), Content(e.field));
    assert sequence[|head|] == tail[0];
    if e.field.Number? {
      IntegerCanonical(Content(e.field), e.key == BH, e.field.value);
    }
  }

  lemma FirstByte(tag: byte, content: Bytes)
    requires |content| < 0x1_0000
    ensures |EncodeTlv(tag, content)| > 0 && EncodeTlv(tag, content)[0] == tag
  {
  }

  predicate AllAllowed(entries: seq<Entry>) {
    forall i :: 0 <= i < |entries| ==> EntryAllowed(entries[i]) && Encodable(entries[i])
  }

  predicate DistinctKeys(entries: seq<Entry>) {
    forall i, j :: 0 <= i < j < |entries| ==> entries[i].key != entries[j].key
  }

  /** What the loop has read is the encoding of what it has collected. */
  lemma {:induction false} EntriesSound(root: Bytes, offset: nat, entries: seq<Entry>)
    requires offset <= |root| < 0x1_0000 && AllAllowed(entries) && root[..offset] == EncodeEntries(entries)
    requires EntriesFrom(root, offset, entries).Ok?
    ensures var all := EntriesFrom(root, offset, entries).value;
      AllAllowed(all) && root == EncodeEntries(all)
    decreases |root| - offset
  {
    hide Tlv, EncodeTlv, EntryIn, EntryAllowed, Encodable;
    if offset == |root| {
      assert root[..offset] == root;
    } else {
      var (sequence, next) := Tlv(root, offset, 0x30).value;
      var e := EntryIn(sequence).value;
      TlvSound(root, offset, 0x30);
      EntrySound(sequence);
      assert (entries + [e])[..|entries|] == entries;
      assert root[..next] == root[..offset] + root[offset..next];
      EntriesSound(root, next, entries + [e]);
    }
  }

  lemma {:induction false} EntriesComplete(root: Bytes, all: seq<Entry>, k: nat)
    requires AllAllowed(all) && DistinctKeys(all) && k <= |all| && root == EncodeEntries(all)
    ensures |EncodeEntries(all[..k])| <= |root|
    ensures EntriesFrom(root, |EncodeEntries(all[..k])|, all[..k]) == Ok(all)
    decreases |all| - k
  {
    hide Tlv, EncodeTlv, EntryIn, EntryAllowed, Body;
    PrefixEncoded(all, k);
    if k == |all| {
      assert all[..k] == all;
    } else {
      var offset, next := |EncodeEntries(all[..k])|, |EncodeEntries(all[..k + 1])|;
      PrefixEncoded(all, k + 1);
      assert all[..k + 1][..k] == all[..k] && all[..k] + [all[k]] == all[..k + 1];
      FirstByte(0x30, Body(all[k]));
      assert root[offset..next] == EncodeEntry(all[k]);
      TlvComplete(root, offset, 0x30, Body(all[k]), next);
      EntryComplete(all[k]);
      assert all[k].key !in Keys(all[..k]);
      EntriesComplete(root, all, k + 1);
    }
  }

  lemma {:induction false} PrefixEncoded(all: seq<Entry>, k: nat)
    requires AllAllowed(all) && k <= |all|
    ensures EncodeEntries(all[..k]) <= EncodeEntries(all)
    decreases |all| - k
  {
    hide Encodable, EntryAllowed, EncodeEntry;
    if k == |all| {
      assert all[..k] == all;
    } else {
      PrefixEncoded(all, k + 1);
      assert all[..k + 1][..k] == all[..k];
    }
  }

  // ---------------------------------------------------------------------------------------
  // The decoder inverts the encoder, and accepts nothing else

  lemma {:induction false} ValuesAt(entries: seq<Entry>)
    requires DistinctKeys(entries)
    ensures forall i :: 0 <= i < |entries| ==>
      entries[i].key in ValuesOf(entries) && ValuesOf(entries)[entries[i].key] == entries[i].field
  {
    if entries != [] {
      var n := |entries| - 1;
      ValuesAt(entries[..n]);
      assert forall i :: 0 <= i < n ==> entries[..n][i] == entries[i];
    }
  }

  lemma KeysDistinct(entries: seq<Entry>)
    requires Keys(entries) == KEYS
    ensures |entries| == 10 && DistinctKeys(entries)
  {
    assert |KEYS| == 10;
    forall i, j | 0 <= i < j < 10
      ensures KEYS[i] != KEYS[j]
    {
      KeysAscend(i, j);
    }
    assert forall i :: 0 <= i < |entries| ==> Keys(entries)[i] == entries[i].key;
  }

  function Prefix(key: Bytes): int
    requires |key| >= 2
  {
    key[0] as int * 256 + key[1]
  }

  lemma KeyPrefix(i: nat)
    requires i < 10
    ensures |KEYS[i]| >= 2 && Ascii(KEYS[i]) && |KEYS[i]| <= 5
    ensures Prefix(KEYS[i]) == [0x6268, 0x6D75, 0x7362, 0x7366, 0x7367, 0x736C, 0x736D, 0x7372, 0x7373, 0x7575][i]
    ensures KEYS[i] == BH <==> i == 0
  {
  }

  lemma KeysAscend(i: nat, j: nat)
    requires i < j < 10
    ensures KEYS[i] != KEYS[j]
  {
  }

  lemma EntriesOfAllowed(s: State)
    requires InRange(s)
    ensures AllAllowed(EntriesOf(s)) && Keys(EntriesOf(s)) == KEYS && DistinctKeys(EntriesOf(s))
    ensures forall i :: 0 <= i < 10 ==> |EncodeEntry(EntriesOf(s)[i])| <= 40
  {
    var entries := EntriesOf(s);
    assert |KEYS| == 10;
    assert Keys(entries) == KEYS;
    KeysDistinct(entries);
    hide KEYS, BH;
    forall i | 0 <= i < 10
      ensures EntryAllowed(entries[i]) && Encodable(entries[i]) && |EncodeEntry(entries[i])| <= 40
    {
      KeyPrefix(i);
      var f := FieldsOf(s)[i];
      if f.Number? {
        MinimalShort(f.value);
      }
    }
  }

  lemma {:induction false} EncodedSize(entries: seq<Entry>)
    requires forall i :: 0 <= i < |entries| ==> Encodable(entries[i]) && |EncodeEntry(entries[i])| <= 40
    ensures |EncodeEntries(entries)| <= 40 * |entries|
  {
    hide Encodable, EncodeEntry;
    if entries != [] {
      EncodedSize(entries[..|entries| - 1]);
    }
  }

  /** The encoding of a state in range. */
  function Encode(s: State): (data: Bytes)
    requires InRange(s)
    ensures 0 < |data| <= MAX_DER_BYTES
  {
    EntriesOfAllowed(s);
    EncodedSize(EntriesOf(s));
    EncodeTlv(0x31, EncodeEntries(EntriesOf(s)))
  }

  function Values(entries: seq<Entry>): seq<Field> {
    seq(|entries|, i requires 0 <= i < |entries| => entries[i].field)
  }

  lemma ValueUnderKey(entries: seq<Entry>, i: nat)
    requires Keys(entries) == KEYS && DistinctKeys(entries) && i < |entries|
    ensures KEYS[i] in ValuesOf(entries) && ValuesOf(entries)[KEYS[i]] == entries[i].field
  {
    ValuesAt(entries);
    hide KEYS, ValuesOf, DistinctKeys;
    assert Keys(entries)[i] == entries[i].key;
  }

  lemma StateOfEntries(entries: seq<Entry>)
    ensures StateOf(Keys(entries), ValuesOf(entries)) ==
      if Keys(entries) == KEYS && |entries| == 10 then FromFields(Values(entries)) else Err
  {
    if Keys(entries) == KEYS {
      KeysDistinct(entries);
      hide KEYS, FromFields, ValuesOf, DistinctKeys;
      ValuesKeys(entries);
      forall i | 0 <= i < 10
        ensures KEYS[i] in ValuesOf(entries) && ValuesOf(entries)[KEYS[i]] == Values(entries)[i]
      {
        ValueUnderKey(entries, i);
      }
      assert ValuesOf(entries).Keys == set k | k in KEYS;
      assert seq(10, i requires 0 <= i < 10 => ValuesOf(entries)[KEYS[i]]) == Values(entries);
    }
  }

  lemma FieldsSound(f: seq<Field>)
    requires |f| == 10 && FromFields(f).Ok?
    ensures f == FieldsOf(FromFields(f).value)
    ensures f[9].Octets? && forall i :: 0 <= i < 9 ==> f[i].Number?
    ensures HandleRange(f[0].value) && (forall i :: 1 <= i < 9 ==> f[i].value >= 0) ==> InRange(FromFields(f).value)
  {
  }

  lemma StateSound(entries: seq<Entry>)
    requires AllAllowed(entries) && StateOf(Keys(entries), ValuesOf(entries)).Ok?
    ensures var s := StateOf(Keys(entries), ValuesOf(entries)).value;
      InRange(s) && entries == EntriesOf(s)
  {
    hide Encodable, KEYS, BH, StateOf, ValuesOf, FromFields, FieldsOf, InRange;
    StateOfEntries(entries);
    FieldsSound(Values(entries));
    assert forall i :: 0 <= i < 10 ==> entries[i].field == Values(entries)[i] && EntryAllowed(entries[i]);
    forall i | 0 <= i < 10
      ensures entries[i].key == KEYS[i] && (KEYS[i] == BH <==> i == 0)
    {
      assert Keys(entries)[i] == entries[i].key;
      KeyPrefix(i);
    }
    var s := FromFields(Values(entries)).value;
    forall i | 0 <= i < 10
      ensures entries[i] == EntriesOf(s)[i] && entries[i].field == Values(entries)[i]
    {
    }
  }

  lemma StateComplete(s: State)
    requires InRange(s)
    ensures StateOf(Keys(EntriesOf(s)), ValuesOf(EntriesOf(s))) == Ok(s)
  {
    hide KEYS, StateOf, ValuesOf, Keys, AllAllowed, DistinctKeys, Encodable, EncodeEntry;
    EntriesOfAllowed(s);
    StateOfEntries(EntriesOf(s));
    assert Values(EntriesOf(s)) == FieldsOf(s);
    hide EntriesOf, Values;
    FieldsComplete(s);
  }

  lemma FieldsComplete(s: State)
    requires InRange(s)
    ensures FromFields(FieldsOf(s)) == Ok(s)
  {
  }

  /** The accepted bytes are exactly the encodings of the states in range. */
  lemma Canonical(data: Bytes, s: State)
    ensures Decoded(data) == Ok(s) <==> InRange(s) && data == Encode(s)
  {
    hide Tlv, EncodeTlv, StateOf, EntriesFrom, EncodeEntries, InRange, EntriesOf, DistinctKeys, Encodable, EncodeEntry;
    if Decoded(data) == Ok(s) {
      var root := Tlv(data, 0, 0x31).value.0;
      TlvSound(data, 0, 0x31);
      assert data[0..|data|] == data;
      FromStart(root);
      StateSound(EntriesFrom(root, 0, []).value);
      assert data == EncodeTlv(0x31, EncodeEntries(EntriesOf(s)));
    }
    if InRange(s) && data == Encode(s) {
      EntriesOfAllowed(s);
      var root := EncodeEntries(EntriesOf(s));
      EncodedSize(EntriesOf(s));
      assert data[0..|data|] == data;
      TlvComplete(data, 0, 0x31, root, |data|);
      ToEnd(EntriesOf(s));
      StateComplete(s);
    }
  }

  lemma FromStart(root: Bytes)
    requires |root| < 0x1_0000 && EntriesFrom(root, 0, []).Ok?
    ensures AllAllowed(EntriesFrom(root, 0, []).value) && root == EncodeEntries(EntriesFrom(root, 0, []).value)
  {
    EntriesSound(root, 0, []);
  }

  lemma ToEnd(all: seq<Entry>)
    requires AllAllowed(all) && DistinctKeys(all)
    ensures EntriesFrom(EncodeEntries(all), 0, []) == Ok(all)
  {
    EntriesComplete(EncodeEntries(all), all, 0);
    assert all[..0] == [];
  }

  /** Two byte strings that decode to the same state are the same. */
  lemma DecodingIsInjective(first: Bytes, second: Bytes)
    requires Decoded(first).Ok? && Decoded(first) == Decoded(second)
    ensures first == second
  {
    Canonical(first, Decoded(first).value);
    Canonical(second, Decoded(first).value);
  }

  /** The bytes of an ASCII text. */
  function Text(key: string): Bytes {
    seq(|key|, i requires 0 <= i < |key| => key[i] as int % 0x100)
  }

  /** The dictionary of a state, by the texts of its keys. */
  function Table(s: State): map<Bytes, Field> {
    map[Text("bh") := Number(s.handle), Text("mua") := Number(s.maximumUnlockAttempts), Text("sb") := Number(s.backoff),
        Text("sfa") := Number(s.failedAttempts), Text("sgs") := Number(s.generationState), Text("sls") := Number(s.lockState),
        Text("sms") := Number(s.moreState), Text("srcd") := Number(s.recoveryCountdown), Text("ss") := Number(s.state),
        Text("uuuid") := Octets(s.userUuid)]
  }

  /** The dictionary that an accepted state was read from. */
  function Dictionary(data: Bytes): map<Bytes, Field>
    requires Decoded(data).Ok?
  {
    ValuesOf(EntriesFrom(Tlv(data, 0, 0x31).value.0, 0, []).value)
  }

  /** Each part of the state is the value under its own key. */
  lemma ByKey(data: Bytes)
    requires Decoded(data).Ok?
    ensures Dictionary(data) == Table(Decoded(data).value)
  {
    hide Tlv, EntriesFrom, Text;
    var v, s := Dictionary(data), Decoded(data).value;
    ReadFields(v, s);
    KeysDiffer();
    Tabulate(KEYS, v, FieldsOf(s));
    ZipTable(s);
  }

  lemma ZipTable(s: State)
    ensures Zip(KEYS, FieldsOf(s)) == Table(s)
  {
    KeyTexts();
    hide Text, Zip;
    var f := FieldsOf(s);
    assert Zip([], []) == map[];
    assert KEYS[..0] == [] && f[..0] == [] && KEYS[..10] == KEYS && f[..10] == f;
    ZipFive(map[], KEYS, f, 0);
    ZipFive(Zip(KEYS[..5], f[..5]), KEYS, f, 5);
  }

  lemma ReadFields(v: map<Bytes, Field>, s: State)
    requires StateOf(KEYS, v) == Ok(s)
    ensures v.Keys == (set k | k in KEYS) && forall i :: 0 <= i < 10 ==> v[KEYS[i]] == FieldsOf(s)[i]
  {
    var f := seq(10, i requires 0 <= i < 10 => v[KEYS[i]]);
    assert FromFields(f) == Ok(s);
    assert forall i :: 0 <= i < 10 ==> f[i] == v[KEYS[i]];
  }

  lemma KeysDiffer()
    ensures |KEYS| == 10 && forall i, j :: 0 <= i < j < 10 ==> KEYS[i] != KEYS[j]
  {
    assert forall i :: 0 <= i < 10 ==> 2 <= |KEYS[i]| <= 5;
  }

  /** The dictionary with the given keys and values. */
  function Zip(k: seq<Bytes>, f: seq<Field>): (m: map<Bytes, Field>)
    requires |k| == |f|
    ensures m.Keys == (set x | x in k)
  {
    if k == [] then map[] else Zip(k[..|k| - 1], f[..|f| - 1])[k[|k| - 1] := f[|f| - 1]]
  }

  lemma {:induction false} ZipAt(k: seq<Bytes>, f: seq<Field>, i: nat)
    requires i < |k| == |f| && forall a, b :: 0 <= a < b < |k| ==> k[a] != k[b]
    ensures Zip(k, f)[k[i]] == f[i]
  {
    if i < |k| - 1 {
      ZipAt(k[..|k| - 1], f[..|f| - 1], i);
    }
  }

  lemma Tabulate(k: seq<Bytes>, v: map<Bytes, Field>, f: seq<Field>)
    requires |k| == |f| && (forall i, j :: 0 <= i < j < |k| ==> k[i] != k[j])
    requires v.Keys == (set x | x in k) && forall i :: 0 <= i < |k| ==> v[k[i]] == f[i]
    ensures v == Zip(k, f)
  {
    forall x | x in v.Keys
      ensures Zip(k, f)[x] == v[x]
    {
      var i :| 0 <= i < |k| && k[i] == x;
      ZipAt(k, f, i);
    }
  }

  lemma ZipFive(m: map<Bytes, Field>, k: seq<Bytes>, f: seq<Field>, n: nat)
    requires n + 5 <= |k| == |f| && m == Zip(k[..n], f[..n])
    ensures Zip(k[..n + 5], f[..n + 5]) == m[k[n] := f[n]][k[n + 1] := f[n + 1]][k[n + 2] := f[n + 2]][k[n + 3] := f[n + 3]][k[n + 4] := f[n + 4]]
  {
    ZipNext(k, f, n);
    ZipNext(k, f, n + 1);
    ZipNext(k, f, n + 2);
    ZipNext(k, f, n + 3);
    ZipNext(k, f, n + 4);
  }

  lemma ZipNext(k: seq<Bytes>, f: seq<Field>, n: nat)
    requires n < |k| == |f|
    ensures Zip(k[..n + 1], f[..n + 1]) == Zip(k[..n], f[..n])[k[n] := f[n]]
  {
    assert k[..n + 1][..n] == k[..n] && f[..n + 1][..n] == f[..n];
  }

  lemma KeyTexts()
    ensures KEYS == [Text("bh"), Text("mua"), Text("sb"), Text("sfa"), Text("sgs"), Text("sls"), Text("sms"), Text("srcd"),
                     Text("ss"), Text("uuuid")]
  {
    assert Text("bh") == KEYS[0] && Text("mua") == KEYS[1] && Text("sb") == KEYS[2] && Text("sfa") == KEYS[3];
    assert Text("sgs") == KEYS[4] && Text("sls") == KEYS[5] && Text("sms") == KEYS[6] && Text("srcd") == KEYS[7];
    assert Text("ss") == KEYS[8] && Text("uuuid") == KEYS[9];
  }
}
