/** The deterministic builder of user archives and its partner, the strict decoder: what the builder
    emits decodes to what it was given. */
module CatacombBuilder {
  import opened Outcomes
  import opened ArchiveGraph
  import opened CatacombCodec

  const BASE: nat := 15

  function ClassIndex(c: ArchiveClass): nat {
    match c
    case MutableData => 2
    case MutableArray => 4
    case IdentityClass => 5
    case DateClass => 6
    case AccessoryClass => 7
    case GroupClass => 8
    case UuidClass => 9
  }

  function Of(c: ArchiveClass): Value {
    Uid(ClassIndex(c))
  }

  function IdentityObject(d: Identity, name: nat, date: nat): Value {
    Dict(map[
      IdMatchCount := Int(d.matchCount), IdCreationTime := Uid(date), IdEntity := Int(d.entity), IdUUID := Data(d.uuid),
      IdFlags := Int(d.flags), IdContinuous := Int(d.continuousMatchCount), IdName := Uid(name),
      IdType := Int(d.identityType), IdAccessory := Uid(12), IdUpdateCount := Int(d.updateCount),
      IdUserID := Int(d.userId), IdAttribute := Int(d.attribute), Class := Of(IdentityClass)])
  }

  function DateObject(t: real): Value {
    Dict(map[NSTime := Real(t), Class := Of(DateClass)])
  }

  function UuidObject(raw: Bytes): Value {
    Dict(map[NSUUIDBytes := Data(raw), Class := Of(UuidClass)])
  }

  function DataObject(secure: Bytes): Value {
    Dict(map[NSData := Data(secure), Class := Of(MutableData)])
  }

  function ListObject(references: seq<Value>): Value {
    Dict(map[NSObjects := List(references), Class := Of(MutableArray)])
  }

  const GROUP: Value := Dict(map[GroupName := Uid(10), GroupType := Int(1), GroupUUID := Data(ZERO_UUID), Class := Of(GroupClass)])

  const ACCESSORY: Value := Dict(map[
    AccUUID := Data(ZERO_UUID), AccFlags := Int(6), AccName := Uid(10), AccType := Int(1), AccGroup := Uid(11),
    Class := Of(AccessoryClass)])

  function References(n: nat): seq<Value> {
    seq(n, k requires 0 <= k < n => Uid(BASE + 3 * k + 2))
  }

  /** The fixed first objects; object 3 lists n identities. */
  function BaseObject(a: UserArchive, n: nat, i: nat): Value
    requires i < BASE
  {
    if i == 0 then Str("$null")
    else if i == 1 then DataObject(a.secureData)
    else if i == 2 then Descriptor(MutableData)
    else if i == 3 then ListObject(References(n))
    else if i == 4 then Descriptor(MutableArray)
    else if i == 5 then Descriptor(IdentityClass)
    else if i == 6 then Descriptor(DateClass)
    else if i == 7 then Descriptor(AccessoryClass)
    else if i == 8 then Descriptor(GroupClass)
    else if i == 9 then Descriptor(UuidClass)
    else if i == 10 then Str("Builtin")
    else if i == 11 then GROUP
    else if i == 12 then ACCESSORY
    else if i == 13 then UuidObject(a.account)
    else UuidObject(a.keybag)
  }

  /** The identities follow, three objects each: name, date and the identity itself. */
  function ObjectAt(a: UserArchive, n: nat, i: nat): Value
    requires n <= |a.identities| && i < BASE + 3 * n
  {
    if i < BASE then BaseObject(a, n, i)
    else
      var d := a.identities[(i - BASE) / 3];
      if (i - BASE) % 3 == 0 then Str(d.name)
      else if (i - BASE) % 3 == 1 then DateObject(d.creationTime)
      else IdentityObject(d, i - 2, i - 1)
  }

  function UserObjects(a: UserArchive, n: nat): seq<Value>
    requires n <= |a.identities|
  {
    seq(BASE + 3 * n, i requires 0 <= i < BASE + 3 * n => ObjectAt(a, n, i))
  }

  function TopOf(uid: nat): Value {
    Dict(map[CatacombVersion := Int(0x30000), CatacombSecureData := Uid(1), CatacombUserKeybagUUID := Uid(14),
             CatacombUserID := Int(uid), CatacombIdentityList := Uid(3), CatacombUserUUID := Uid(13)])
  }

  function Framed(top: Value, objects: seq<Value>): Value {
    Dict(map[Version := Int(100000), Archiver := Str("NSKeyedArchiver"), Top := top, Objects := List(objects)])
  }

  /** The archive that the builder emits for these contents. */
  function UserRoot(a: UserArchive, uid: nat): Value {
    Framed(TopOf(uid), UserObjects(a, |a.identities|))
  }

  /** The building loop: three objects and one reference are appended per identity. */
  method BuildRoot(a: UserArchive, uid: nat) returns (root: Value)
    ensures root == UserRoot(a, uid)
  {
    hide Descriptor, ACCESSORY, GROUP, DataObject, UuidObject, ListObject, DateObject, IdentityObject;
    var objects := [
      Str("$null"), DataObject(a.secureData), Descriptor(MutableData), ListObject([]), Descriptor(MutableArray),
      Descriptor(IdentityClass), Descriptor(DateClass), Descriptor(AccessoryClass), Descriptor(GroupClass),
      Descriptor(UuidClass), Str("Builtin"), GROUP, ACCESSORY, UuidObject(a.account), UuidObject(a.keybag)];
    var references: seq<Value> := [];
    assert references == References(0);
    assert objects == UserObjects(a, 0);
    hide BaseObject, ObjectAt, UserObjects;
    for k := 0 to |a.identities|
      invariant references == References(k) && objects == UserObjects(a, k)
    {
      var d := a.identities[k];
      var name := |objects|;
      objects := objects + [Str(d.name)];
      var date := |objects|;
      objects := objects + [DateObject(d.creationTime)];
      var identity := |objects|;
      objects := objects + [IdentityObject(d, name, date)];
      references := references + [Uid(identity)];
      objects := objects[3 := ListObject(references)];
      assert references == References(k + 1);
      Grown(a, k, objects);
    }
    root := Framed(TopOf(uid), objects);
  }

  lemma Grown(a: UserArchive, k: nat, objects: seq<Value>)
    requires k < |a.identities|
    requires var d := a.identities[k]; var n := BASE + 3 * k;
      objects == (UserObjects(a, k) + [Str(d.name), DateObject(d.creationTime), IdentityObject(d, n, n + 1)])[3 := ListObject(References(k + 1))]
    ensures objects == UserObjects(a, k + 1)
  {
  }

  // ---------------------------------------------------------------------------------------
  // The contents that the decoder lets through

  predicate IdentityInPolicy(d: Identity, uid: nat) {
    && |d.uuid| == 16 && d.userId == uid && Utf8Length(d.name) <= MAX_STRING_BYTES
    && d.entity <= UINT32_MAX && d.identityType <= UINT32_MAX && d.flags <= UINT32_MAX && d.attribute <= UINT32_MAX
    && d.matchCount <= UINT32_MAX && d.continuousMatchCount <= UINT32_MAX && d.updateCount <= UINT32_MAX
  }

  predicate InPolicy(a: UserArchive, uid: nat) {
    && uid <= UINT32_MAX
    && SecureEnvelope(Data(a.secureData), LTFC) && |a.account| == 16 && |a.keybag| == 16
    && |a.identities| <= MAX_IDENTITIES && UniqueIdentities(a.identities)
    && forall i :: 0 <= i < |a.identities| ==> IdentityInPolicy(a.identities[i], uid)
  }

  lemma IdentityDecodesInPolicy(objects: seq<Value>, v: Value, uid: nat)
    requires IsIdentity(objects, v, uid)
    ensures IdentityInPolicy(IdentityOf(objects, v, uid), uid)
  {
  }

  lemma DecodesInPolicy(root: Value, size: nat, uid: nat)
    requires UserSchema(root, size, uid)
    ensures InPolicy(UserContents(root, size, uid), uid)
  {
    hide IsIdentity, IdentityOf, Aggregate, ObjectAllowed, UniqueIdentities, IsObject;
    var top, objects := root.fields[Top].fields, root.fields[Objects].items;
    var items := IdentityRefs(objects, top[CatacombIdentityList]);
    var a := UserContents(root, size, uid);
    forall i | 0 <= i < |a.identities|
      ensures IdentityInPolicy(a.identities[i], uid)
    {
      IdentityDecodesInPolicy(objects, items[i], uid);
    }
  }

  // ---------------------------------------------------------------------------------------
  // What is built passes every check but reachability

  lemma ClassesInPlace(a: UserArchive, n: nat, c: ArchiveClass, fields: map<Key, Value>)
    requires n <= |a.identities| && Class in fields && fields[Class] == Of(c)
    ensures HasClass(UserObjects(a, n), fields, c)
  {
  }

  lemma EnvelopeInPlace(a: UserArchive, n: nat)
    requires n <= |a.identities| && SecureEnvelope(Data(a.secureData), LTFC) && |a.account| == 16 && |a.keybag| == 16
    ensures var objects := UserObjects(a, n);
      && IsSecureData(objects, Uid(1), LTFC) && FieldsOf(objects, Uid(1))[NSData] == Data(a.secureData)
      && IsArchivedUuid(objects, Uid(13)) && FieldsOf(objects, Uid(13))[NSUUIDBytes] == Data(a.account)
      && IsArchivedUuid(objects, Uid(14)) && FieldsOf(objects, Uid(14))[NSUUIDBytes] == Data(a.keybag)
  {
    hide Descriptor, HasClass;
    ClassesInPlace(a, n, MutableData, DataObject(a.secureData).fields);
    ClassesInPlace(a, n, UuidClass, UuidObject(a.account).fields);
    ClassesInPlace(a, n, UuidClass, UuidObject(a.keybag).fields);
    assert UserObjects(a, n)[1] == DataObject(a.secureData) && UserObjects(a, n)[13] == UuidObject(a.account);
    assert UserObjects(a, n)[14] == UuidObject(a.keybag);
    hide UserObjects, ObjectAt, BaseObject;
    assert DataObject(a.secureData).fields.Keys == {NSData, Class};
    assert UuidObject(a.account).fields.Keys == {NSUUIDBytes, Class};
    assert UuidObject(a.keybag).fields.Keys == {NSUUIDBytes, Class};
  }

  lemma BuiltinText()
    ensures Utf8Length("Builtin") == 7 && Utf8Length("$null") == 5
  {
  }

  lemma Accessory(objects: seq<Value>)
    requires |objects| > 12 && objects[10] == Str("Builtin") && objects[11] == GROUP && objects[12] == ACCESSORY
    requires HasClass(objects, GROUP.fields, GroupClass) && HasClass(objects, ACCESSORY.fields, AccessoryClass)
    ensures IsBuiltinAccessory(objects, Uid(12))
  {
    hide HasClass, Utf8Length, ZERO_UUID;
    BuiltinText();
    assert ACCESSORY.fields.Keys == ACCESSORY_KEYS + {Class};
    assert GROUP.fields.Keys == GROUP_KEYS + {Class};
  }

  lemma AccessoryInPlace(a: UserArchive, n: nat)
    requires n <= |a.identities|
    ensures IsBuiltinAccessory(UserObjects(a, n), Uid(12))
  {
    hide Descriptor, HasClass, IsBuiltinAccessory;
    ClassesInPlace(a, n, AccessoryClass, ACCESSORY.fields);
    ClassesInPlace(a, n, GroupClass, GROUP.fields);
    Accessory(UserObjects(a, n));
  }

  lemma IdentityShape(objects: seq<Value>, d: Identity, i: nat)
    requires i + 2 < |objects| && objects[i + 1] == DateObject(d.creationTime)
    requires objects[i + 2] == IdentityObject(d, i, i + 1)
    requires HasClass(objects, IdentityObject(d, i, i + 1).fields, IdentityClass)
    requires HasClass(objects, DateObject(d.creationTime).fields, DateClass)
    ensures IsObject(objects, Uid(i + 2), IdentityClass, IDENTITY_KEYS) && IsArchivedDate(objects, Uid(i + 1))
  {
    hide HasClass;
    assert IdentityObject(d, i, i + 1).fields.Keys == IDENTITY_KEYS + {Class};
    assert DateObject(d.creationTime).fields.Keys == {NSTime, Class};
  }

  lemma IdentityThere(objects: seq<Value>, d: Identity, uid: nat, i: nat)
    requires IdentityInPolicy(d, uid) && uid <= UINT32_MAX && i + 2 < |objects|
    requires objects[i] == Str(d.name) && objects[i + 1] == DateObject(d.creationTime)
    requires objects[i + 2] == IdentityObject(d, i, i + 1)
    requires HasClass(objects, IdentityObject(d, i, i + 1).fields, IdentityClass)
    requires HasClass(objects, DateObject(d.creationTime).fields, DateClass)
    requires IsBuiltinAccessory(objects, Uid(12))
    ensures IsIdentity(objects, Uid(i + 2), uid) && IdentityOf(objects, Uid(i + 2), uid) == d
    ensures AccessoryRef(objects, Uid(i + 2), uid) == Uid(12)
  {
    hide HasClass, Utf8Length, IsBuiltinAccessory;
    IdentityShape(objects, d, i);
    hide IsObject, IDENTITY_KEYS;
  }

  lemma IdentityInPlace(a: UserArchive, uid: nat, n: nat, k: nat)
    requires k < n <= |a.identities| && IdentityInPolicy(a.identities[k], uid) && uid <= UINT32_MAX
    ensures var objects := UserObjects(a, n); var v := Uid(BASE + 3 * k + 2);
      IsIdentity(objects, v, uid) && IdentityOf(objects, v, uid) == a.identities[k]
      && AccessoryRef(objects, v, uid) == Uid(12)
  {
    hide Descriptor, HasClass, IsBuiltinAccessory, BaseObject, IsIdentity, IdentityOf, AccessoryRef;
    var objects, d, i := UserObjects(a, n), a.identities[k], BASE + 3 * k;
    assert objects[i] == Str(d.name) && objects[i + 1] == DateObject(d.creationTime);
    assert objects[i + 2] == IdentityObject(d, i, i + 1);
    ClassesInPlace(a, n, IdentityClass, IdentityObject(d, i, i + 1).fields);
    ClassesInPlace(a, n, DateClass, DateObject(d.creationTime).fields);
    AccessoryInPlace(a, n);
    IdentityThere(objects, d, uid, i);
  }

  lemma ListInPlace(a: UserArchive, uid: nat, n: nat)
    requires InPolicy(a, uid) && n == |a.identities|
    ensures var objects := UserObjects(a, n);
      && IsIdentityList(objects, Uid(3), uid) && IdentityRefs(objects, Uid(3)) == References(n)
      && IdentitiesOf(objects, References(n), uid) == a.identities
      && OneAccessory(objects, References(n), uid)
  {
    hide Descriptor, HasClass, IsIdentity, IdentityOf, AccessoryRef, SecureEnvelope, UniqueIdentities;
    var objects := UserObjects(a, n);
    ClassesInPlace(a, n, MutableArray, ListObject(References(n)).fields);
    assert objects[3] == ListObject(References(n));
    assert ListObject(References(n)).fields.Keys == {NSObjects, Class};
    hide UserObjects, ObjectAt, BaseObject;
    forall k | 0 <= k < n
      ensures IsIdentity(objects, References(n)[k], uid) && IdentityOf(objects, References(n)[k], uid) == a.identities[k]
      ensures AccessoryRef(objects, References(n)[k], uid) == Uid(12)
    {
      IdentityInPlace(a, uid, n, k);
    }
  }

  lemma BuiltObjectAllowed(a: UserArchive, uid: nat, n: nat, i: nat)
    requires InPolicy(a, uid) && n == |a.identities| && i < BASE + 3 * n
    ensures ObjectAllowed(UserObjects(a, n), UserObjects(a, n)[i]) && !UserObjects(a, n)[i].Data?
  {
    hide HasClass, SecureEnvelope, UniqueIdentities, Utf8Length;
    var objects, v := UserObjects(a, n), ObjectAt(a, n, i);
    assert objects[i] == v;
    if v.Dict? && Class in v.fields {
      var c: ArchiveClass :| v.fields[Class] == Of(c);
      ClassesInPlace(a, n, c, v.fields);
    } else if v.Str? {
      BuiltinText();
    }
  }

  lemma {:induction false} AggregateBounded(objects: seq<Value>)
    requires forall i :: 0 <= i < |objects| ==> !objects[i].Data? && (objects[i].Str? ==> Utf8Length(objects[i].text) <= MAX_STRING_BYTES)
    ensures Aggregate(objects) <= MAX_STRING_BYTES * |objects|
  {
    hide Utf8Length;
    if objects != [] {
      AggregateBounded(objects[..|objects| - 1]);
    }
  }

  lemma BuiltObjectsAllowed(a: UserArchive, uid: nat)
    requires InPolicy(a, uid)
    ensures ObjectsAllowed(UserObjects(a, |a.identities|))
  {
    hide HasClass, SecureEnvelope, UniqueIdentities, Utf8Length, InPolicy, Descriptor;
    var n := |a.identities|;
    var objects := UserObjects(a, n);
    forall i | 0 <= i < |objects|
      ensures ObjectAllowed(objects, objects[i]) && !objects[i].Data?
    {
      BuiltObjectAllowed(a, uid, n, i);
    }
    assert n <= MAX_IDENTITIES by { AtMostTen(a, uid); }
    AggregateBounded(objects);
  }

  lemma AtMostTen(a: UserArchive, uid: nat)
    requires InPolicy(a, uid)
    ensures |a.identities| <= MAX_IDENTITIES
  {
  }

  /** What is built passes every check but, perhaps, reachability, and would decode to what it was built from. */
  lemma BuiltSchema(a: UserArchive, uid: nat, size: nat)
    requires InPolicy(a, uid) && 0 < size <= MAX_FILE_BYTES
    ensures UserSchema(UserRoot(a, uid), size, uid) && UserContents(UserRoot(a, uid), size, uid) == a
  {
    hide HasClass, SecureEnvelope, Utf8Length, Descriptor, UserObjects, ObjectsAllowed, IdentitiesOf,
         OneAccessory, IsSecureData, IsArchivedUuid, IsIdentityList, IdentityRefs, UniqueIdentities;
    var top, root := TopOf(uid), UserRoot(a, uid);
    assert top.fields.Keys == TOP_KEYS;
    assert root.fields.Keys == {Version, Archiver, Top, Objects};
    BuiltObjectsAllowed(a, uid);
    EnvelopeInPlace(a, |a.identities|);
    ListInPlace(a, uid, |a.identities|);
    Sized(a, |a.identities|);
  }

  lemma Sized(a: UserArchive, n: nat)
    requires n <= |a.identities|
    ensures |UserObjects(a, n)| == BASE + 3 * n
  {
  }

  // ---------------------------------------------------------------------------------------
  // Reachability: exactly the non-empty lists

  /** The objects to which object i refers. */
  predicate Linked(n: nat, i: nat, j: nat)
    requires i < BASE + 3 * n
  {
    if i == 1 then j == 2
    else if i == 3 then j == 4 || (BASE <= j < BASE + 3 * n && (j - BASE) % 3 == 2)
    else if i == 11 then j == 10 || j == 8
    else if i == 12 then j == 10 || j == 11 || j == 7
    else if i == 13 || i == 14 then j == 9
    else if i < BASE || (i - BASE) % 3 == 0 then false
    else if (i - BASE) % 3 == 1 then j == 6
    else j == i - 1 || j == i - 2 || j == 12 || j == 5
  }

  predicate TopLinked(j: nat) {
    j == 1 || j == 3 || j == 13 || j == 14
  }

  lemma RefersDict(fields: map<Key, Value>, k: Key, j: nat)
    requires k in fields && fields[k] == Uid(j)
    ensures Refers(Dict(fields), j)
  {
  }

  lemma DescriptorRefersNothing(c: ArchiveClass, j: nat)
    ensures !Refers(Descriptor(c), j)
  {
    var chain := Chain(c).items;
    assert forall k :: 0 <= k < |chain| ==> !Refers(chain[k], j);
    assert !Refers(Chain(c), j) && !Refers(Str(ClassText(c)), j);
  }

  lemma ListRefers(n: nat, j: nat)
    ensures Refers(ListObject(References(n)), j) <==> j == 4 || (BASE <= j < BASE + 3 * n && (j - BASE) % 3 == 2)
  {
    var refs := References(n);
    var fields := ListObject(refs).fields;
    assert fields[NSObjects] == List(refs) && fields[Class] == Uid(4);
    if j == 4 {
      RefersDict(fields, Class, j);
    }
    if BASE <= j < BASE + 3 * n && (j - BASE) % 3 == 2 {
      assert refs[(j - BASE) / 3] == Uid(j) && Refers(refs[(j - BASE) / 3], j);
      assert Refers(List(refs), j);
    }
    if Refers(Dict(fields), j) && j != 4 {
      var key :| key in fields && Refers(fields[key], j);
      assert key == NSObjects && Refers(List(refs), j);
      var k :| 0 <= k < |refs| && Refers(refs[k], j);
    }
  }

  lemma IdentityRefers(d: Identity, i: nat, j: nat)
    ensures Refers(IdentityObject(d, i, i + 1), j) <==> j == i || j == i + 1 || j == 12 || j == 5
  {
    var fields := IdentityObject(d, i, i + 1).fields;
    if j == i {
      RefersDict(fields, IdName, j);
    } else if j == i + 1 {
      RefersDict(fields, IdCreationTime, j);
    } else if j == 12 {
      RefersDict(fields, IdAccessory, j);
    } else if j == 5 {
      RefersDict(fields, Class, j);
    }
  }

  lemma FixedRefers(j: nat)
    ensures Refers(GROUP, j) <==> j == 10 || j == 8
    ensures Refers(ACCESSORY, j) <==> j == 10 || j == 11 || j == 7
  {
    if j == 10 {
      RefersDict(GROUP.fields, GroupName, j);
      RefersDict(ACCESSORY.fields, AccName, j);
    } else if j == 8 {
      RefersDict(GROUP.fields, Class, j);
    } else if j == 11 {
      RefersDict(ACCESSORY.fields, AccGroup, j);
    } else if j == 7 {
      RefersDict(ACCESSORY.fields, Class, j);
    }
  }

  lemma PlainRefers(raw: Bytes, t: real, j: nat)
    ensures Refers(DataObject(raw), j) <==> j == 2
    ensures Refers(UuidObject(raw), j) <==> j == 9
    ensures Refers(DateObject(t), j) <==> j == 6
  {
    if j == 2 {
      RefersDict(DataObject(raw).fields, Class, j);
    } else if j == 9 {
      RefersDict(UuidObject(raw).fields, Class, j);
    } else if j == 6 {
      RefersDict(DateObject(t).fields, Class, j);
    }
  }

  lemma TopRefers(uid: nat, j: nat)
    ensures Refers(TopOf(uid), j) <==> TopLinked(j)
  {
    var fields := TopOf(uid).fields;
    if j == 1 {
      RefersDict(fields, CatacombSecureData, j);
    } else if j == 3 {
      RefersDict(fields, CatacombIdentityList, j);
    } else if j == 13 {
      RefersDict(fields, CatacombUserUUID, j);
    } else if j == 14 {
      RefersDict(fields, CatacombUserKeybagUUID, j);
    }
  }

  lemma ObjectRefers(a: UserArchive, n: nat, i: nat, j: nat)
    requires n <= |a.identities| && i < BASE + 3 * n
    ensures Refers(ObjectAt(a, n, i), j) <==> Linked(n, i, j)
  {
    hide Descriptor, ACCESSORY, GROUP, DataObject, UuidObject, ListObject, DateObject, IdentityObject, References;
    forall c: ArchiveClass
      ensures !Refers(Descriptor(c), j)
    {
      DescriptorRefersNothing(c, j);
    }
    FixedRefers(j);
    ListRefers(n, j);
    PlainRefers(a.secureData, 0.0, j);
    PlainRefers(a.account, 0.0, j);
    PlainRefers(a.keybag, 0.0, j);
    if i >= BASE {
      var d := a.identities[(i - BASE) / 3];
      PlainRefers([], d.creationTime, j);
      if (i - BASE) % 3 == 2 {
        IdentityRefers(d, i - 2, j);
      }
    }
  }

  function Rank(i: nat): nat {
    if i == 3 then 4
    else if i == 12 then 2
    else if i == 1 || i == 11 || i == 13 || i == 14 then 1
    else if i < BASE || (i - BASE) % 3 == 0 then 0
    else if (i - BASE) % 3 == 1 then 1
    else 3
  }

  lemma {:induction false} CountIndices(n: nat)
    requires n > 0
    ensures |Indices(n)| == n - 1
  {
    if n > 1 {
      CountIndices(n - 1);
    }
  }

  lemma LinksFall(n: nat, i: nat, j: nat)
    requires i < BASE + 3 * n && Linked(n, i, j)
    ensures 0 < j < BASE + 3 * n && Rank(j) < Rank(i)
  {
  }

  /** The whole graph, ranked: the builder has no way to emit a cycle or a dangling reference. */
  lemma BuiltRanked(a: UserArchive, n: nat)
    requires n <= |a.identities|
    ensures var all := Indices(BASE + 3 * n);
      Finished(UserObjects(a, n), all, map i | i in all :: Rank(i))
  {
    hide ObjectAt, Rank, Linked, Indices, RanksBelow;
    var all := Indices(BASE + 3 * n);
    var rank := map i | i in all :: Rank(i);
    CountIndices(BASE + 3 * n);
    forall i | i in all
      ensures rank[i] < |all| && RanksBelow(UserObjects(a, n)[i], rank, rank[i])
    {
      RankSmall(i);
      ObjectRanked(a, n, i, rank);
    }
  }

  lemma ObjectRanked(a: UserArchive, n: nat, i: nat, rank: map<nat, nat>)
    requires n <= |a.identities| && i < BASE + 3 * n
    requires forall j :: 0 < j < BASE + 3 * n ==> j in rank && rank[j] == Rank(j)
    ensures RanksBelow(UserObjects(a, n)[i], rank, Rank(i))
  {
    hide ObjectAt, Rank, Linked, Refers;
    var v := UserObjects(a, n)[i];
    assert v == ObjectAt(a, n, i);
    forall j | Refers(v, j)
      ensures j in rank && rank[j] < Rank(i)
    {
      ObjectRefers(a, n, i, j);
      LinksFall(n, i, j);
    }
  }

  lemma RankSmall(i: nat)
    ensures Rank(i) <= 4
  {
  }

  lemma Link(a: UserArchive, uid: nat, n: nat, p: seq<nat>, j: nat)
    requires n <= |a.identities| && j != 0
    requires IsPath(TopOf(uid), UserObjects(a, n), p)
    requires if p == [] then TopLinked(j) else p[|p| - 1] < BASE + 3 * n && Linked(n, p[|p| - 1], j)
    ensures IsPath(TopOf(uid), UserObjects(a, n), p + [j]) && Met(TopOf(uid), UserObjects(a, n), j)
  {
    hide IsPath, Met, Linked, TopLinked, Refers, TopOf, ObjectAt;
    if p == [] {
      TopRefers(uid, j);
    } else {
      ObjectRefers(a, n, p[|p| - 1], j);
    }
    Extend(TopOf(uid), UserObjects(a, n), p, j);
  }

  /** The fixed objects that only an identity refers to, directly or not. */
  predicate Orphan(i: nat) {
    i in {5, 6, 7, 8, 10, 11, 12}
  }

  lemma {:induction false} OrphansOffPath(a: UserArchive, uid: nat, p: seq<nat>)
    requires IsPath(TopOf(uid), UserObjects(a, 0), p)
    ensures p != [] ==> !Orphan(p[|p| - 1])
    decreases |p|
  {
    hide Refers, TopOf, ObjectAt;
    if p != [] {
      var n := |p| - 1;
      OrphansOffPath(a, uid, p[..n]);
      if n == 0 {
        TopRefers(uid, p[n]);
      } else {
        assert FromLast(TopOf(uid), UserObjects(a, 0), p[..n], p[n]) && p[..n][n - 1] == p[n - 1];
        ObjectRefers(a, 0, p[n - 1], p[n]);
      }
    }
  }

  lemma MetFixed(a: UserArchive, uid: nat, n: nat, i: nat)
    requires n <= |a.identities| && 0 < i < BASE && (n > 0 || !Orphan(i))
    ensures Met(TopOf(uid), UserObjects(a, n), i)
  {
    hide IsPath, Met, TopOf, ObjectAt;
    var top, objects := TopOf(uid), UserObjects(a, n);
    assert IsPath(top, objects, []) by { EmptyPath(top, objects); }
    var first := if i in {1, 2} then 1 else if i in {9, 13} then 13 else if i == 14 then 14 else 3;
    assert [] + [first] == [first] && [first] + [i] == [first, i] && [3] + [17] == [3, 17];
    assert [3, 17] + [16] == [3, 17, 16] && [3, 17] + [12] == [3, 17, 12] && [3, 17, 12] + [11] == [3, 17, 12, 11];
    Link(a, uid, n, [], first);
    if i in {2, 4, 9} {
      Link(a, uid, n, [first], i);
    } else if i in {5, 6, 7, 8, 10, 11, 12} {
      Link(a, uid, n, [3], 17);
      if i == 5 {
        Link(a, uid, n, [3, 17], 5);
      } else if i == 6 {
        Link(a, uid, n, [3, 17], 16);
        Link(a, uid, n, [3, 17, 16], 6);
      } else {
        Link(a, uid, n, [3, 17], 12);
        if i in {7, 10, 11} {
          Link(a, uid, n, [3, 17, 12], i);
        } else if i == 8 {
          Link(a, uid, n, [3, 17, 12], 11);
          Link(a, uid, n, [3, 17, 12, 11], 8);
        }
      }
    }
  }

  /** Without an identity nothing leads to the identity, date and accessory objects; the others stay met. */
  lemma OrphansWithoutIdentities(a: UserArchive, uid: nat, i: nat)
    requires 0 < i < BASE
    ensures Met(TopOf(uid), UserObjects(a, 0), i) <==> !Orphan(i)
  {
    hide Refers, TopOf, ObjectAt, IsPath;
    var top, objects := TopOf(uid), UserObjects(a, 0);
    if Orphan(i) {
      if Met(top, objects, i) {
        var p :| IsPath(top, objects, p) && p != [] && p[|p| - 1] == i;
        OrphansOffPath(a, uid, p);
      }
    } else {
      MetFixed(a, uid, 0, i);
    }
  }

  lemma EmptyPath(top: Value, objects: seq<Value>)
    ensures IsPath(top, objects, [])
  {
  }

  lemma MetIdentityPart(a: UserArchive, uid: nat, n: nat, i: nat)
    requires 0 < n <= |a.identities| && BASE <= i < BASE + 3 * n
    ensures Met(TopOf(uid), UserObjects(a, n), i)
  {
    hide IsPath, Met, TopOf, ObjectAt;
    EmptyPath(TopOf(uid), UserObjects(a, n));
    var identity := i + 2 - (i - BASE) % 3;
    assert [] + [3] == [3] && [3] + [identity] == [3, identity];
    Link(a, uid, n, [], 3);
    Link(a, uid, n, [3], identity);
    if i != identity {
      Link(a, uid, n, [3, identity], i);
    }
  }

  /** The builder's graph is well formed exactly if it holds an identity. */
  lemma BuiltReachability(a: UserArchive, uid: nat)
    ensures WellFormed(TopOf(uid), UserObjects(a, |a.identities|)) <==> a.identities != []
  {
    hide IsPath, Met, TopOf, ObjectAt, Refers, Finished;
    var n, top, objects := |a.identities|, TopOf(uid), UserObjects(a, |a.identities|);
    if n == 0 {
      OrphansWithoutIdentities(a, uid, 5);
    } else {
      forall i: nat | 0 < i < |objects|
        ensures Met(top, objects, i)
      {
        if i < BASE {
          MetFixed(a, uid, n, i);
        } else {
          MetIdentityPart(a, uid, n, i);
        }
      }
      var all := Indices(|objects|);
      var rank: map<nat, nat> := map i | i in all :: Rank(i);
      BuiltRanked(a, n);
      forall j: nat | j != 0 && Refers(top, j)
        ensures j in all
      {
        TopRefers(uid, j);
      }
      RankedDecided(top, objects, rank);
    }
  }

  lemma RankedDecided(top: Value, objects: seq<Value>, rank: map<nat, nat>)
    requires objects != [] && Finished(objects, Indices(|objects|), rank)
    requires forall j: nat :: j != 0 && Refers(top, j) ==> j in Indices(|objects|)
    requires forall i: nat :: 0 < i < |objects| ==> Met(top, objects, i)
    ensures WellFormed(top, objects)
  {
    hide Finished, Met;
    EmptyPath(top, objects);
    Decided(top, objects, Indices(|objects|), rank);
  }

  /** Decoding undoes building: exactly the archives with an identity survive the round trip. */
  lemma BuildRoundTrip(a: UserArchive, uid: nat, size: nat)
    requires InPolicy(a, uid)
    ensures UserDecoded(UserRoot(a, uid), size, uid) ==
      if a.identities != [] && 0 < size <= MAX_FILE_BYTES then Ok(a) else Err
  {
    hide InPolicy, WellFormed, UserContents, UserObjects, TopOf;
    BuiltReachability(a, uid);
    assert UserRoot(a, uid).fields[Top] == TopOf(uid);
    assert UserRoot(a, uid).fields[Objects] == List(UserObjects(a, |a.identities|));
    if 0 < size <= MAX_FILE_BYTES {
      BuiltSchema(a, uid, size);
    }
    hide UserRoot;
  }
}
