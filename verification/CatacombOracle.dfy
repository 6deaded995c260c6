/** The second, independently written reader of component archives. It checks less about the object
    list than the codec does and tolerates inlined objects, and must agree on what the codec accepts. */
module CatacombOracle {
  import opened Outcomes
  import opened ArchiveGraph
  import opened CatacombCodec

  datatype UserReading = UserReading(
    userId: nat, account: Bytes, keybag: Bytes, digest: Bytes, length: nat, identities: seq<Identity>)

  datatype MasterReading = MasterReading(digest: Bytes, length: nat, enrollmentCount: nat, currentTime: real)

  datatype AccessoryModel = AccessoryModel(
    uuid: Bytes, flags: int, name: string, accessoryType: int, groupUuid: Bytes, groupName: string, groupType: int)

  const BUILTIN: AccessoryModel := AccessoryModel(ZERO_UUID, 6, "Builtin", 1, ZERO_UUID, "Builtin", 1)

  // ---------------------------------------------------------------------------------------
  // The reader's own checks of values

  predicate GraphRoot(root: Value, size: nat) {
    && 0 < size <= 1024 * 1024
    && root.Dict? && root.fields.Keys == {Version, Archiver, Top, Objects}
    && Equals(root.fields[Version], 100000) && root.fields[Archiver] == Str("NSKeyedArchiver")
    && root.fields[Top].Dict? && root.fields[Objects].List?
    && var objects := root.fields[Objects].items;
    1 <= |objects| <= 256 && objects[0] == Str("$null")
  }

  /** Each class, followed by its superclasses. */
  function Names(c: ArchiveClass): (names: seq<string>)
    ensures names != []
  {
    match c
    case MutableData => ["NSMutableData", "NSData", "NSObject"]
    case MutableArray => ["NSMutableArray", "NSArray", "NSObject"]
    case IdentityClass => ["BiometricKitIdentity", "NSObject"]
    case DateClass => ["NSDate", "NSObject"]
    case AccessoryClass => ["BiometricKitAccessory", "NSObject"]
    case GroupClass => ["BiometricKitAccessoryGroup", "NSObject"]
    case UuidClass => ["NSUUID", "NSObject"]
  }

  function Texts(names: seq<string>): Value {
    List(seq(|names|, i requires 0 <= i < |names| => Str(names[i])))
  }

  /** The class reference leads to a dictionary of exactly the name and the chain. */
  predicate ReadsClass(objects: seq<Value>, fields: map<Key, Value>, c: ArchiveClass) {
    Class in fields && InRange(objects, fields[Class]) && Describes(Object(objects, fields[Class]), c)
  }

  predicate Describes(v: Value, c: ArchiveClass) {
    && v.Dict? && v.fields.Keys == {ClassName, Classes}
    && v.fields[ClassName] == Str(Names(c)[0]) && v.fields[Classes] == Texts(Names(c))
  }

  /** The bytes of a character in UTF-8 (RFC 3629, section 3). */
  function CharBytes(c: char): Bytes {
    var n := c as int;
    if n < 0x80 then [n]
    else if n < 0x800 then [0xC0 + n / 64, 0x80 + n % 64]
    else if n < 0x1_0000 then [0xE0 + n / 4096, 0x80 + n / 64 % 64, 0x80 + n % 64]
    else [0xF0 + n / 262144, 0x80 + n / 4096 % 64, 0x80 + n / 64 % 64, 0x80 + n % 64]
  }

  function Encoded(s: string): Bytes {
    if s == [] then [] else Encoded(s[..|s| - 1]) + CharBytes(s[|s| - 1])
  }

  predicate ReadsText(objects: seq<Value>, v: Value) {
    InRange(objects, v) && Object(objects, v).Str? && |Encoded(Object(objects, v).text)| <= 1024
  }

  predicate ReadsInteger(v: Value) {
    v.Int? && 0 <= v.i <= 0xFFFFFFFF
  }

  predicate ReadsRawUuid(v: Value) {
    v.Data? && |v.bytes| == 16
  }

  predicate ReadsEnvelope(v: Value, magic: Bytes) {
    v.Data? && 16 <= |v.bytes| <= 1024 * 1024 && v.bytes[..4] == magic
  }

  predicate ReadsNumber(v: Value) {
    v.Int? || v.Real?
  }

  ghost predicate GraphAccepted(root: Value, size: nat) {
    GraphRoot(root, size) && WellFormed(root.fields[Top], root.fields[Objects].items)
  }

  /** A reference is followed; any other value stands for itself. */
  predicate Classed(objects: seq<Value>, v: Value, c: ArchiveClass, keys: set<Key>) {
    && (v.Uid? ==> InRange(objects, v))
    && Item(objects, v).Dict?
    && Item(objects, v).fields.Keys == keys + {Class}
    && ReadsClass(objects, Item(objects, v).fields, c)
  }

  function Item(objects: seq<Value>, v: Value): Value
    requires v.Uid? ==> InRange(objects, v)
  {
    if v.Uid? then Object(objects, v) else v
  }

  function Fields(objects: seq<Value>, v: Value, c: ArchiveClass, keys: set<Key>): map<Key, Value>
    requires Classed(objects, v, c, keys)
  {
    Item(objects, v).fields
  }

  predicate ReadsData(objects: seq<Value>, v: Value, magic: Bytes) {
    Classed(objects, v, MutableData, {NSData}) && ReadsEnvelope(Fields(objects, v, MutableData, {NSData})[NSData], magic)
  }

  predicate ReadsUuid(objects: seq<Value>, v: Value) {
    Classed(objects, v, UuidClass, {NSUUIDBytes}) && ReadsRawUuid(Fields(objects, v, UuidClass, {NSUUIDBytes})[NSUUIDBytes])
  }

  predicate ReadsDate(objects: seq<Value>, v: Value) {
    Classed(objects, v, DateClass, {NSTime}) && ReadsNumber(Fields(objects, v, DateClass, {NSTime})[NSTime])
  }

  predicate ReadsAccessory(objects: seq<Value>, v: Value) {
    && Classed(objects, v, AccessoryClass, ACCESSORY_KEYS)
    && var a := Fields(objects, v, AccessoryClass, ACCESSORY_KEYS);
    && Classed(objects, a[AccGroup], GroupClass, GROUP_KEYS)
    && var g := Fields(objects, a[AccGroup], GroupClass, GROUP_KEYS);
    && ReadsRawUuid(a[AccUUID]) && ReadsInteger(a[AccFlags]) && ReadsText(objects, a[AccName]) && ReadsInteger(a[AccType])
    && ReadsRawUuid(g[GroupUUID]) && ReadsText(objects, g[GroupName]) && ReadsInteger(g[GroupType])
  }

  function AccessoryOf(objects: seq<Value>, v: Value): AccessoryModel
    requires ReadsAccessory(objects, v)
  {
    var a := Fields(objects, v, AccessoryClass, ACCESSORY_KEYS);
    var g := Fields(objects, a[AccGroup], GroupClass, GROUP_KEYS);
    AccessoryModel(a[AccUUID].bytes, a[AccFlags].i, Object(objects, a[AccName]).text, a[AccType].i,
                   g[GroupUUID].bytes, Object(objects, g[GroupName]).text, g[GroupType].i)
  }

  predicate ReadsIdentity(objects: seq<Value>, v: Value, uid: nat) {
    && Classed(objects, v, IdentityClass, IDENTITY_KEYS)
    && var f := Fields(objects, v, IdentityClass, IDENTITY_KEYS);
    && ReadsInteger(f[IdUserID]) && f[IdUserID].i == uid
    && ReadsAccessory(objects, f[IdAccessory]) && InRange(objects, f[IdAccessory])
    && ReadsRawUuid(f[IdUUID]) && ReadsInteger(f[IdEntity]) && ReadsText(objects, f[IdName])
    && ReadsInteger(f[IdType]) && ReadsInteger(f[IdFlags]) && ReadsInteger(f[IdAttribute])
    && ReadsInteger(f[IdMatchCount]) && ReadsInteger(f[IdContinuous]) && ReadsInteger(f[IdUpdateCount])
    && ReadsDate(objects, f[IdCreationTime])
  }

  function IdentityRead(objects: seq<Value>, v: Value, uid: nat): Identity
    requires ReadsIdentity(objects, v, uid)
  {
    var f := Fields(objects, v, IdentityClass, IDENTITY_KEYS);
    Identity(f[IdUUID].bytes, uid, f[IdEntity].i, Object(objects, f[IdName]).text, f[IdType].i, f[IdFlags].i,
             f[IdAttribute].i, f[IdMatchCount].i, f[IdContinuous].i, f[IdUpdateCount].i,
             Time(Fields(objects, f[IdCreationTime], DateClass, {NSTime})[NSTime]))
  }

  function AccessoryRead(objects: seq<Value>, v: Value, uid: nat): (nat, AccessoryModel)
    requires ReadsIdentity(objects, v, uid)
  {
    var f := Fields(objects, v, IdentityClass, IDENTITY_KEYS);
    (f[IdAccessory].index, AccessoryOf(objects, f[IdAccessory]))
  }

  predicate AllRead(objects: seq<Value>, items: seq<Value>, uid: nat) {
    forall i :: 0 <= i < |items| ==> ReadsIdentity(objects, items[i], uid)
  }

  function IdentityReadAt(objects: seq<Value>, items: seq<Value>, uid: nat, i: nat): Identity
    requires i < |items| && AllRead(objects, items, uid)
  {
    IdentityRead(objects, items[i], uid)
  }

  function AccessoryReadAt(objects: seq<Value>, items: seq<Value>, uid: nat, i: nat): (nat, AccessoryModel)
    requires i < |items| && AllRead(objects, items, uid)
  {
    AccessoryRead(objects, items[i], uid)
  }

  predicate ReadsList(objects: seq<Value>, v: Value, uid: nat) {
    && Classed(objects, v, MutableArray, {NSObjects})
    && Fields(objects, v, MutableArray, {NSObjects})[NSObjects].List?
    && var items := Fields(objects, v, MutableArray, {NSObjects})[NSObjects].items;
    && |items| <= 10
    && AllRead(objects, items, uid)
  }

  function ItemsRead(objects: seq<Value>, v: Value): seq<Value>
    requires Classed(objects, v, MutableArray, {NSObjects}) && Fields(objects, v, MutableArray, {NSObjects})[NSObjects].List?
  {
    Fields(objects, v, MutableArray, {NSObjects})[NSObjects].items
  }

  function IdentitiesRead(objects: seq<Value>, items: seq<Value>, uid: nat): seq<Identity>
    requires AllRead(objects, items, uid)
  {
    seq(|items|, i requires 0 <= i < |items| => IdentityReadAt(objects, items, uid, i))
  }

  function AccessoriesRead(objects: seq<Value>, items: seq<Value>, uid: nat): seq<(nat, AccessoryModel)>
    requires AllRead(objects, items, uid)
  {
    seq(|items|, i requires 0 <= i < |items| => AccessoryReadAt(objects, items, uid, i))
  }

  /** One object, modelling the built-in sensor. */
  predicate Supported(accessories: seq<(nat, AccessoryModel)>) {
    && (forall i, j :: 0 <= i < j < |accessories| ==> accessories[i].0 == accessories[j].0)
    && forall i :: 0 <= i < |accessories| ==> accessories[i].1 == BUILTIN
  }

  /** The top of a user component: its six keys, the version and the expected user. */
  predicate GraphTop(top: map<Key, Value>, uid: nat) {
    && top.Keys == {CatacombVersion, CatacombSecureData, CatacombUserKeybagUUID, CatacombUserID, CatacombIdentityList, CatacombUserUUID}
    && Equals(top[CatacombVersion], 196608) && Equals(top[CatacombUserID], uid)
  }

  predicate UserReads(root: Value, size: nat, uid: nat) {
    && GraphRoot(root, size) && GraphTop(root.fields[Top].fields, uid)
    && var top, objects := root.fields[Top].fields, root.fields[Objects].items;
    && ReadsData(objects, top[CatacombSecureData], LTFC)
    && ReadsList(objects, top[CatacombIdentityList], uid)
    && var items := ItemsRead(objects, top[CatacombIdentityList]);
    && UniqueIdentities(IdentitiesRead(objects, items, uid))
    && Supported(AccessoriesRead(objects, items, uid))
    && ReadsUuid(objects, top[CatacombUserUUID]) && ReadsUuid(objects, top[CatacombUserKeybagUUID])
  }

  function UserReadingOf(root: Value, size: nat, uid: nat, sha: Bytes -> Bytes): UserReading
    requires UserReads(root, size, uid)
  {
    var top, objects := root.fields[Top].fields, root.fields[Objects].items;
    var secure := Fields(objects, top[CatacombSecureData], MutableData, {NSData})[NSData].bytes;
    UserReading(
      uid,
      Fields(objects, top[CatacombUserUUID], UuidClass, {NSUUIDBytes})[NSUUIDBytes].bytes,
      Fields(objects, top[CatacombUserKeybagUUID], UuidClass, {NSUUIDBytes})[NSUUIDBytes].bytes,
      sha(secure), |secure|,
      IdentitiesRead(objects, ItemsRead(objects, top[CatacombIdentityList]), uid))
  }

  ghost function UserRead(root: Value, size: nat, uid: nat, sha: Bytes -> Bytes): Result<UserReading> {
    if UserReads(root, size, uid) && GraphAccepted(root, size) then Ok(UserReadingOf(root, size, uid, sha)) else Err
  }

  lemma NoneRead(objects: seq<Value>, uid: nat)
    ensures AllRead(objects, [], uid) && IdentitiesRead(objects, [], uid) == [] && AccessoriesRead(objects, [], uid) == []
  {
  }

  lemma OneMoreRead(objects: seq<Value>, items: seq<Value>, uid: nat, i: nat)
    requires i < |items| && AllRead(objects, items[..i], uid) && ReadsIdentity(objects, items[i], uid)
    ensures AllRead(objects, items[..i + 1], uid)
    ensures IdentitiesRead(objects, items[..i + 1], uid) == IdentitiesRead(objects, items[..i], uid) + [IdentityRead(objects, items[i], uid)]
    ensures AccessoriesRead(objects, items[..i + 1], uid) == AccessoriesRead(objects, items[..i], uid) + [AccessoryRead(objects, items[i], uid)]
  {
    hide ReadsIdentity, IdentityRead, AccessoryRead;
  }

  lemma OneUnread(objects: seq<Value>, items: seq<Value>, uid: nat, i: nat)
    requires i < |items| && !ReadsIdentity(objects, items[i], uid)
    ensures !AllRead(objects, items, uid)
  {
    hide ReadsIdentity;
  }

  /** The reader itself: two lists grow with the identities. */
  method ReadUser(root: Value, size: nat, uid: nat, sha: Bytes -> Bytes) returns (r: Result<UserReading>)
    ensures r == UserRead(root, size, uid, sha)
  {
    hide WellFormed, AllRead, IdentitiesRead, AccessoriesRead, ReadsIdentity, IdentityRead, AccessoryRead, UniqueIdentities,
         Supported, ReadsClass;
    if !GraphRoot(root, size) {
      return Err;
    }
    var objects := root.fields[Objects].items;
    var reachable := ValidateReachability(root.fields[Top], objects);
    if !reachable || !GraphTop(root.fields[Top].fields, uid) {
      return Err;
    }
    var top := root.fields[Top].fields;
    if !ReadsData(objects, top[CatacombSecureData], LTFC)
       || !Classed(objects, top[CatacombIdentityList], MutableArray, {NSObjects}) {
      return Err;
    }
    var list := Fields(objects, top[CatacombIdentityList], MutableArray, {NSObjects})[NSObjects];
    if !list.List? || |list.items| > 10 {
      return Err;
    }
    var items := list.items;
    var identities: seq<Identity>, accessories: seq<(nat, AccessoryModel)> := [], [];
    NoneRead(objects, uid);
    for i := 0 to |items|
      invariant AllRead(objects, items[..i], uid)
      invariant identities == IdentitiesRead(objects, items[..i], uid)
      invariant accessories == AccessoriesRead(objects, items[..i], uid)
    {
      if !ReadsIdentity(objects, items[i], uid) {
        OneUnread(objects, items, uid, i);
        return Err;
      }
      OneMoreRead(objects, items, uid, i);
      accessories := accessories + [AccessoryRead(objects, items[i], uid)];
      identities := identities + [IdentityRead(objects, items[i], uid)];
    }
    assert items[..|items|] == items;
    if !UniqueIdentities(identities) || !Supported(accessories)
       || !ReadsUuid(objects, top[CatacombUserUUID]) || !ReadsUuid(objects, top[CatacombUserKeybagUUID]) {
      return Err;
    }
    r := Ok(UserReadingOf(root, size, uid, sha));
  }

  predicate MasterReads(root: Value, size: nat) {
    && GraphRoot(root, size) && root.fields[Top].fields.Keys == MASTER_KEYS
    && var top, objects := root.fields[Top].fields, root.fields[Objects].items;
    && Equals(top[CatacombVersion], 0x30000) && Equals(top[CatacombUserID], -1)
    && ReadsData(objects, top[CatacombSecureData], LTFC)
    && ReadsInteger(top[CatacombEnrollmentCount])
    && ReadsDate(objects, top[CatacombCurrentDate])
  }

  ghost function MasterRead(root: Value, size: nat, sha: Bytes -> Bytes): Result<MasterReading> {
    if MasterReads(root, size) && GraphAccepted(root, size) then
      var top, objects := root.fields[Top].fields, root.fields[Objects].items;
      var secure := Fields(objects, top[CatacombSecureData], MutableData, {NSData})[NSData].bytes;
      Ok(MasterReading(sha(secure), |secure|, top[CatacombEnrollmentCount].i,
                       Time(Fields(objects, top[CatacombCurrentDate], DateClass, {NSTime})[NSTime])))
    else Err
  }

  predicate BioLockoutReads(root: Value, size: nat) {
    && GraphRoot(root, size) && root.fields[Top].fields.Keys == BIOLOCKOUT_KEYS
    && var top, objects := root.fields[Top].fields, root.fields[Objects].items;
    && Equals(top[BioLockoutVersion], 0x10000)
    && ReadsData(objects, top[BioLockoutSecureData], HRLB)
  }

  /** The digest and the length of the secure data. */
  ghost function BioLockoutRead(root: Value, size: nat, sha: Bytes -> Bytes): Result<(Bytes, nat)> {
    if BioLockoutReads(root, size) && GraphAccepted(root, size) then
      var secure := Fields(root.fields[Objects].items, root.fields[Top].fields[BioLockoutSecureData], MutableData, {NSData})[NSData].bytes;
      Ok((sha(secure), |secure|))
    else Err
  }

  // ---------------------------------------------------------------------------------------
  // Agreement

  lemma {:induction false} SameLength(s: string)
    ensures |Encoded(s)| == Utf8Length(s)
  {
    if |s| == 1 {
      assert s == [s[0]];
    } else if s != [] {
      var front := s[..|s| - 1];
      SameLength(front);
      LengthAppended(front, s[|s| - 1]);
      assert s == front + [s[|s| - 1]];
    }
  }

  lemma {:induction false} LengthAppended(s: string, c: char)
    ensures Utf8Length(s + [c]) == Utf8Length(s) + CharLength(c)
  {
    if s == [] {
      assert s + [c] == [c];
      assert Utf8Length([c]) == CharLength(c) + Utf8Length([]);
    } else {
      LengthAppended(s[1..], c);
      assert (s + [c])[1..] == s[1..] + [c];
    }
  }

  lemma SameText(objects: seq<Value>, v: Value)
    ensures ReadsText(objects, v) <==> IsText(objects, v)
  {
    if InRange(objects, v) && Object(objects, v).Str? {
      SameLength(Object(objects, v).text);
    }
  }

  lemma SameChain(c: ArchiveClass)
    ensures Str(Names(c)[0]) == Str(ClassText(c)) && Texts(Names(c)) == Chain(c)
  {
    assert Texts(Names(c)).items == Chain(c).items;
  }

  lemma SameDescriptor(v: Value, c: ArchiveClass)
    ensures Describes(v, c) <==> v == Descriptor(c)
  {
    hide Names, Texts, Chain, ClassText;
    SameChain(c);
    if Describes(v, c) {
      assert v.fields == Descriptor(c).fields;
    }
  }

  lemma SameClass(objects: seq<Value>, fields: map<Key, Value>, c: ArchiveClass)
    ensures ReadsClass(objects, fields, c) <==> HasClass(objects, fields, c)
  {
    hide Describes, Descriptor;
    if Class in fields && InRange(objects, fields[Class]) {
      SameDescriptor(Object(objects, fields[Class]), c);
    }
  }

  lemma SameClassed(objects: seq<Value>, v: Value, c: ArchiveClass, keys: set<Key>)
    ensures IsObject(objects, v, c, keys) <==> v.Uid? && Classed(objects, v, c, keys)
    ensures IsObject(objects, v, c, keys) ==> FieldsOf(objects, v) == Fields(objects, v, c, keys)
    ensures Classed(objects, v, c, keys) ==> Fields(objects, v, c, keys).Keys == keys + {Class}
  {
    hide ReadsClass, HasClass;
    if InRange(objects, v) && Object(objects, v).Dict? {
      SameClass(objects, Object(objects, v).fields, c);
    }
  }

  lemma SameLeaves(objects: seq<Value>, v: Value, magic: Bytes)
    ensures IsSecureData(objects, v, magic) <==> v.Uid? && ReadsData(objects, v, magic)
    ensures IsArchivedUuid(objects, v) <==> v.Uid? && ReadsUuid(objects, v)
    ensures IsArchivedDate(objects, v) <==> v.Uid? && ReadsDate(objects, v)
  {
    hide IsObject, Classed, Fields, FieldsOf;
    SameClassed(objects, v, MutableData, {NSData});
    SameClassed(objects, v, UuidClass, {NSUUIDBytes});
    SameClassed(objects, v, DateClass, {NSTime});
  }

  /** The accessory's group is a reference. */
  predicate GroupByReference(objects: seq<Value>, v: Value)
    requires ReadsAccessory(objects, v)
  {
    Fields(objects, v, AccessoryClass, ACCESSORY_KEYS)[AccGroup].Uid?
  }

  lemma SameAccessory(objects: seq<Value>, v: Value)
    ensures IsBuiltinAccessory(objects, v) <==>
      v.Uid? && ReadsAccessory(objects, v) && GroupByReference(objects, v) && AccessoryOf(objects, v) == BUILTIN
    ensures v.Uid? && ReadsAccessory(objects, v) ==> InRange(objects, v)
  {
    hide ReadsClass, HasClass, Utf8Length, Encoded;
    SameClassed(objects, v, AccessoryClass, ACCESSORY_KEYS);
    if v.Uid? && Classed(objects, v, AccessoryClass, ACCESSORY_KEYS) {
      var a := Fields(objects, v, AccessoryClass, ACCESSORY_KEYS);
      SameText(objects, a[AccName]);
      SameClassed(objects, a[AccGroup], GroupClass, GROUP_KEYS);
      if Classed(objects, a[AccGroup], GroupClass, GROUP_KEYS) {
        SameText(objects, Fields(objects, a[AccGroup], GroupClass, GROUP_KEYS)[GroupName]);
      }
    }
  }

  predicate IdentityByReference(objects: seq<Value>, v: Value, uid: nat)
    requires ReadsIdentity(objects, v, uid)
  {
    var f := Fields(objects, v, IdentityClass, IDENTITY_KEYS);
    v.Uid? && GroupByReference(objects, f[IdAccessory]) && f[IdCreationTime].Uid?
  }

  lemma SameIdentity(objects: seq<Value>, v: Value, uid: nat)
    requires uid <= UINT32_MAX
    ensures IsIdentity(objects, v, uid) <==>
      ReadsIdentity(objects, v, uid) && IdentityByReference(objects, v, uid) && AccessoryRead(objects, v, uid).1 == BUILTIN
    ensures IsIdentity(objects, v, uid) ==>
      && IdentityOf(objects, v, uid) == IdentityRead(objects, v, uid)
      && AccessoryRef(objects, v, uid) == Uid(AccessoryRead(objects, v, uid).0)
  {
    hide ReadsClass, HasClass, Utf8Length, Encoded, IsText, ReadsText, IsBuiltinAccessory, ReadsAccessory, IsArchivedDate, ReadsDate, AccessoryOf;
    SameClassed(objects, v, IdentityClass, IDENTITY_KEYS);
    if v.Uid? && Classed(objects, v, IdentityClass, IDENTITY_KEYS) {
      var f := Fields(objects, v, IdentityClass, IDENTITY_KEYS);
      SameAccessory(objects, f[IdAccessory]);
      SameLeaves(objects, f[IdCreationTime], LTFC);
      SameText(objects, f[IdName]);
    }
  }

  /** Everything that the codec demands to be a reference is one. */
  predicate ByReference(root: Value, size: nat, uid: nat)
    requires UserReads(root, size, uid)
  {
    hide ReadsIdentity;
    var top, objects := root.fields[Top].fields, root.fields[Objects].items;
    var items := ItemsRead(objects, top[CatacombIdentityList]);
    && top[CatacombSecureData].Uid? && top[CatacombIdentityList].Uid?
    && top[CatacombUserUUID].Uid? && top[CatacombUserKeybagUUID].Uid?
    && forall i :: 0 <= i < |items| ==> IdentityByReference(objects, items[i], uid)
  }

  lemma SameIdentities(objects: seq<Value>, items: seq<Value>, uid: nat)
    requires uid <= UINT32_MAX
    ensures AllIdentities(objects, items, uid) <==>
      && AllRead(objects, items, uid)
      && (forall i :: 0 <= i < |items| ==> IdentityByReference(objects, items[i], uid))
      && (forall i :: 0 <= i < |items| ==> AccessoryRead(objects, items[i], uid).1 == BUILTIN)
    ensures AllIdentities(objects, items, uid) ==>
      && IdentitiesOf(objects, items, uid) == IdentitiesRead(objects, items, uid)
      && (OneAccessory(objects, items, uid) <==> Supported(AccessoriesRead(objects, items, uid)))
  {
    hide IsIdentity, ReadsIdentity, IdentityByReference, AccessoryRead, IdentityOf, IdentityRead, AccessoryRef;
    forall i | 0 <= i < |items|
      ensures IsIdentity(objects, items[i], uid) <==>
        ReadsIdentity(objects, items[i], uid) && IdentityByReference(objects, items[i], uid)
        && AccessoryRead(objects, items[i], uid).1 == BUILTIN
      ensures IsIdentity(objects, items[i], uid) ==>
        && IdentityOf(objects, items[i], uid) == IdentityRead(objects, items[i], uid)
        && AccessoryRef(objects, items[i], uid) == Uid(AccessoryRead(objects, items[i], uid).0)
    {
      SameIdentity(objects, items[i], uid);
    }
    if AllIdentities(objects, items, uid) {
      var accessories := AccessoriesRead(objects, items, uid);
      assert forall i :: 0 <= i < |items| ==>
        accessories[i].1 == BUILTIN && AccessoryRef(objects, items[i], uid) == Uid(accessories[i].0);
    }
  }

  /** What the codec returns, as this reader reports it. */
  function Reading(a: UserArchive, uid: nat, sha: Bytes -> Bytes): UserReading {
    UserReading(uid, a.account, a.keybag, sha(a.secureData), |a.secureData|, a.identities)
  }

  lemma AllBuiltin(objects: seq<Value>, items: seq<Value>, uid: nat)
    requires AllRead(objects, items, uid)
    ensures Supported(AccessoriesRead(objects, items, uid)) ==>
      forall i :: 0 <= i < |items| ==> AccessoryRead(objects, items[i], uid).1 == BUILTIN
  {
    hide ReadsIdentity, AccessoryRead;
    var accessories := AccessoriesRead(objects, items, uid);
    assert forall i :: 0 <= i < |items| ==> accessories[i] == AccessoryRead(objects, items[i], uid);
  }

  lemma SameUserSchema(root: Value, size: nat, uid: nat, sha: Bytes -> Bytes)
    ensures UserSchema(root, size, uid) <==>
      && UserReads(root, size, uid) && ByReference(root, size, uid)
      && ObjectsAllowed(root.fields[Objects].items) && uid <= UINT32_MAX
    ensures UserSchema(root, size, uid) ==>
      UserReadingOf(root, size, uid, sha) == Reading(UserContents(root, size, uid), uid, sha)
  {
    hide HasClass, IsIdentity, ReadsIdentity, IdentityByReference, AccessoryRead, IdentityOf, IdentityRead, AccessoryRef,
         ObjectAllowed, Aggregate, UniqueIdentities, Supported, OneAccessory, IdentitiesOf, IdentitiesRead, AccessoriesRead,
         SecureEnvelope, IsObject, Classed, Fields, FieldsOf;
    if ArchiveRoot(root, size) && UserTop(root, uid) && uid <= UINT32_MAX {
      var top, objects := root.fields[Top].fields, root.fields[Objects].items;
      SameLeaves(objects, top[CatacombSecureData], LTFC);
      SameLeaves(objects, top[CatacombUserUUID], LTFC);
      SameLeaves(objects, top[CatacombUserKeybagUUID], LTFC);
      SameClassed(objects, top[CatacombSecureData], MutableData, {NSData});
      SameClassed(objects, top[CatacombUserUUID], UuidClass, {NSUUIDBytes});
      SameClassed(objects, top[CatacombUserKeybagUUID], UuidClass, {NSUUIDBytes});
      SameClassed(objects, top[CatacombIdentityList], MutableArray, {NSObjects});
      if Classed(objects, top[CatacombIdentityList], MutableArray, {NSObjects}) {
        var list := Fields(objects, top[CatacombIdentityList], MutableArray, {NSObjects})[NSObjects];
        if list.List? {
          SameIdentities(objects, list.items, uid);
          if UserReads(root, size, uid) {
            AllBuiltin(objects, list.items, uid);
          }
        }
      }
    }
  }

  /** The two readers agree: the codec accepts exactly those archives that this reader accepts, that inline
      nothing and list only allowed objects, and then both report the same contents. */
  lemma ReadersAgreeOnUser(root: Value, size: nat, uid: nat, sha: Bytes -> Bytes)
    ensures UserDecoded(root, size, uid).Ok? <==>
      && UserRead(root, size, uid, sha).Ok? && ByReference(root, size, uid)
      && ObjectsAllowed(root.fields[Objects].items) && uid <= UINT32_MAX
    ensures UserDecoded(root, size, uid).Ok? ==>
      UserRead(root, size, uid, sha) == Ok(Reading(UserDecoded(root, size, uid).value, uid, sha))
  {
    SameUserSchema(root, size, uid, sha);
    hide UserSchema, UserContents, UserReadingOf, ByReference, ObjectsAllowed, WellFormed, Reading;
  }

  predicate MasterByReference(root: Value, size: nat)
    requires MasterReads(root, size)
  {
    var top := root.fields[Top].fields;
    top[CatacombSecureData].Uid? && top[CatacombCurrentDate].Uid?
  }

  lemma ReadersAgreeOnMaster(root: Value, size: nat, sha: Bytes -> Bytes)
    ensures MasterDecoded(root, size).Ok? <==>
      MasterRead(root, size, sha).Ok? && MasterByReference(root, size) && |root.fields[Objects].items| == 5
    ensures MasterDecoded(root, size).Ok? ==>
      var m := MasterDecoded(root, size).value;
      MasterRead(root, size, sha) == Ok(MasterReading(sha(m.secureData), |m.secureData|, m.enrollmentCount, m.currentTime))
  {
    hide HasClass, WellFormed, SecureEnvelope, IsObject, Classed, Fields, FieldsOf;
    if GraphRoot(root, size) && root.fields[Top].fields.Keys == MASTER_KEYS {
      var top, objects := root.fields[Top].fields, root.fields[Objects].items;
      SameLeaves(objects, top[CatacombSecureData], LTFC);
      SameLeaves(objects, top[CatacombCurrentDate], LTFC);
      SameClassed(objects, top[CatacombSecureData], MutableData, {NSData});
      SameClassed(objects, top[CatacombCurrentDate], DateClass, {NSTime});
    }
  }

  lemma ReadersAgreeOnBioLockout(root: Value, size: nat, sha: Bytes -> Bytes)
    ensures BioLockoutDecoded(root, size).Ok? <==>
      && BioLockoutRead(root, size, sha).Ok? && root.fields[Top].fields[BioLockoutSecureData].Uid?
      && |root.fields[Objects].items| == 3
    ensures BioLockoutDecoded(root, size).Ok? ==>
      var secure := BioLockoutDecoded(root, size).value;
      BioLockoutRead(root, size, sha) == Ok((sha(secure), |secure|))
  {
    hide HasClass, WellFormed, SecureEnvelope, IsObject, Classed, Fields, FieldsOf;
    if GraphRoot(root, size) && root.fields[Top].fields.Keys == BIOLOCKOUT_KEYS {
      var top, objects := root.fields[Top].fields, root.fields[Objects].items;
      SameLeaves(objects, top[BioLockoutSecureData], HRLB);
      SameClassed(objects, top[BioLockoutSecureData], MutableData, {NSData});
    }
  }
}
