/** The strict codec for user, master and bio-lockout components, on decoded property lists. A
    property list and its file are identified; the size of the file is a separate argument. */
module CatacombCodec {
  import opened Outcomes
  import opened ArchiveGraph

  const MAX_FILE_BYTES := 1024 * 1024
  const MAX_OBJECTS := 256
  const MAX_IDENTITIES := 10
  const MAX_STRING_BYTES := 1024
  const UINT32_MAX := 0xFFFF_FFFF

  datatype Identity = Identity(
    uuid: Bytes, userId: nat, entity: nat, name: string, identityType: nat, flags: nat, attribute: nat,
    matchCount: nat, continuousMatchCount: nat, updateCount: nat, creationTime: real)

  datatype UserArchive = UserArchive(secureData: Bytes, account: Bytes, keybag: Bytes, identities: seq<Identity>)

  datatype MasterArchive = MasterArchive(secureData: Bytes, enrollmentCount: nat, currentTime: real)

  // ---------------------------------------------------------------------------------------
  // Primitive values

  function Utf8Length(s: string): nat {
    if s == [] then 0 else CharLength(s[0]) + Utf8Length(s[1..])
  }

  function CharLength(c: char): nat {
    if c < 0x80 as char then 1 else if c < 0x800 as char then 2 else if c <= '\U{FFFF}' then 3 else 4
  }

  /** Python's comparison with an integer: a real or a truth value of the same number is equal. */
  predicate Equals(v: Value, n: int)
    ensures Equals(v, n) <==> v in {Int(n), Real(n as real)} || (v, n) in {(Bool(false), 0), (Bool(true), 1)}
  {
    match v
    case Int(i) => i == n
    case Real(r) => r == n as real
    case Bool(b) => (if b then 1 else 0) == n
    case _ => false
  }

  predicate BoundedInt(v: Value) {
    v.Int? && 0 <= v.i <= UINT32_MAX
  }

  predicate IsUuid(v: Value) {
    v.Data? && |v.bytes| == 16
  }

  predicate SecureEnvelope(v: Value, magic: Bytes) {
    v.Data? && 16 <= |v.bytes| <= MAX_FILE_BYTES && v.bytes[..4] == magic
  }

  predicate IsTime(v: Value) {
    v.Int? || v.Real?
  }

  /** float(value); the rounding of large integers is not modelled. */
  function Time(v: Value): real
    requires IsTime(v)
  {
    if v.Int? then v.i as real else v.r
  }

  const LTFC: Bytes := [0x4C, 0x54, 0x46, 0x43]
  const HRLB: Bytes := [0x48, 0x52, 0x4C, 0x42]
  const ZERO_UUID: Bytes := [0, 0, 0, 0, 0, 0, 0, 0, 0, 0, 0, 0, 0, 0, 0, 0]

  // ---------------------------------------------------------------------------------------
  // Class descriptors

  datatype ArchiveClass = MutableData | MutableArray | IdentityClass | DateClass | AccessoryClass | GroupClass | UuidClass

  function ClassText(c: ArchiveClass): string {
    match c
    case MutableData => "NSMutableData"
    case MutableArray => "NSMutableArray"
    case IdentityClass => "BiometricKitIdentity"
    case DateClass => "NSDate"
    case AccessoryClass => "BiometricKitAccessory"
    case GroupClass => "BiometricKitAccessoryGroup"
    case UuidClass => "NSUUID"
  }

  /** The class and its superclasses, as the archive lists them. */
  function Chain(c: ArchiveClass): Value {
    var own, base := Str(ClassText(c)), Str("NSObject");
    match c
    case MutableData => List([own, Str("NSData"), base])
    case MutableArray => List([own, Str("NSArray"), base])
    case _ => List([own, base])
  }

  function Descriptor(c: ArchiveClass): Value {
    Dict(map[ClassName := Str(ClassText(c)), Classes := Chain(c)])
  }

  predicate InRange(objects: seq<Value>, v: Value) {
    v.Uid? && v.index < |objects|
  }

  function Object(objects: seq<Value>, v: Value): Value
    requires InRange(objects, v)
  {
    objects[v.index]
  }

  /** The dictionary's class reference leads to the descriptor of this class. */
  predicate HasClass(objects: seq<Value>, fields: map<Key, Value>, c: ArchiveClass) {
    Class in fields && InRange(objects, fields[Class]) && Object(objects, fields[Class]) == Descriptor(c)
  }

  /** A reference to a dictionary of this class with exactly these further keys. */
  predicate IsObject(objects: seq<Value>, v: Value, c: ArchiveClass, keys: set<Key>) {
    && InRange(objects, v)
    && Object(objects, v).Dict?
    && Object(objects, v).fields.Keys == keys + {Class}
    && HasClass(objects, Object(objects, v).fields, c)
  }

  function FieldsOf(objects: seq<Value>, v: Value): map<Key, Value>
    requires InRange(objects, v) && Object(objects, v).Dict?
  {
    Object(objects, v).fields
  }

  // ---------------------------------------------------------------------------------------
  // The user component

  const TOP_KEYS := {CatacombVersion, CatacombSecureData, CatacombUserKeybagUUID, CatacombUserID, CatacombIdentityList, CatacombUserUUID}
  const IDENTITY_KEYS := {IdMatchCount, IdCreationTime, IdEntity, IdUUID, IdFlags, IdContinuous, IdName, IdType, IdAccessory,
                          IdUpdateCount, IdUserID, IdAttribute}
  const ACCESSORY_KEYS := {AccUUID, AccFlags, AccName, AccType, AccGroup}
  const GROUP_KEYS := {GroupName, GroupType, GroupUUID}

  /** The frame that all component files share. */
  predicate ArchiveRoot(root: Value, size: nat) {
    && 0 < size <= MAX_FILE_BYTES
    && root.Dict? && root.fields.Keys == {Version, Archiver, Top, Objects}
    && Equals(root.fields[Version], 100000) && root.fields[Archiver] == Str("NSKeyedArchiver")
    && root.fields[Top].Dict? && root.fields[Objects].List?
  }

  /** One object of the list: a short string, data, a number, an instance of a known class or
      something shaped like a class descriptor. */
  predicate ObjectAllowed(objects: seq<Value>, v: Value) {
    match v
    case Str(s) => Utf8Length(s) <= MAX_STRING_BYTES
    case Data(_) => true
    case Int(_) => true
    case Real(_) => true
    case NotFinite => true
    case Bool(_) => true
    case Dict(m) => if Class in m then exists c :: HasClass(objects, m, c) else m.Keys == {ClassName, Classes}
    case _ => false
  }

  function Aggregate(objects: seq<Value>): nat {
    if objects == [] then 0
    else
      var last := objects[|objects| - 1];
      Aggregate(objects[..|objects| - 1])
      + if last.Str? then Utf8Length(last.text) else if last.Data? then |last.bytes| else 0
  }

  predicate ObjectsAllowed(objects: seq<Value>) {
    && objects != [] && objects[0] == Str("$null")
    && (forall i :: 0 <= i < |objects| ==> ObjectAllowed(objects, objects[i]))
    && Aggregate(objects) <= MAX_FILE_BYTES
  }

  predicate IsText(objects: seq<Value>, v: Value) {
    InRange(objects, v) && Object(objects, v).Str? && Utf8Length(Object(objects, v).text) <= MAX_STRING_BYTES
  }

  predicate IsSecureData(objects: seq<Value>, v: Value, magic: Bytes) {
    IsObject(objects, v, MutableData, {NSData}) && SecureEnvelope(FieldsOf(objects, v)[NSData], magic)
  }

  predicate IsArchivedUuid(objects: seq<Value>, v: Value) {
    IsObject(objects, v, UuidClass, {NSUUIDBytes}) && IsUuid(FieldsOf(objects, v)[NSUUIDBytes])
  }

  predicate IsArchivedDate(objects: seq<Value>, v: Value) {
    IsObject(objects, v, DateClass, {NSTime}) && IsTime(FieldsOf(objects, v)[NSTime])
  }

  predicate IsBuiltinAccessory(objects: seq<Value>, v: Value) {
    && IsObject(objects, v, AccessoryClass, ACCESSORY_KEYS)
    && var a := FieldsOf(objects, v);
    && a[AccUUID] == Data(ZERO_UUID) && a[AccFlags] == Int(6) && a[AccType] == Int(1)
    && IsText(objects, a[AccName]) && Object(objects, a[AccName]) == Str("Builtin")
    && IsObject(objects, a[AccGroup], GroupClass, GROUP_KEYS)
    && var g := FieldsOf(objects, a[AccGroup]);
    && g[GroupUUID] == Data(ZERO_UUID) && g[GroupType] == Int(1)
    && IsText(objects, g[GroupName]) && Object(objects, g[GroupName]) == Str("Builtin")
  }

  predicate IsIdentity(objects: seq<Value>, v: Value, uid: nat) {
    && IsObject(objects, v, IdentityClass, IDENTITY_KEYS)
    && var f := FieldsOf(objects, v);
    && BoundedInt(f[IdUserID]) && f[IdUserID].i == uid
    && IsBuiltinAccessory(objects, f[IdAccessory])
    && IsUuid(f[IdUUID]) && BoundedInt(f[IdEntity]) && IsText(objects, f[IdName])
    && BoundedInt(f[IdType]) && BoundedInt(f[IdFlags]) && BoundedInt(f[IdAttribute])
    && BoundedInt(f[IdMatchCount]) && BoundedInt(f[IdContinuous]) && BoundedInt(f[IdUpdateCount])
    && IsArchivedDate(objects, f[IdCreationTime])
  }

  function IdentityOf(objects: seq<Value>, v: Value, uid: nat): Identity
    requires IsIdentity(objects, v, uid)
  {
    var f := FieldsOf(objects, v);
    Identity(f[IdUUID].bytes, f[IdUserID].i, f[IdEntity].i, Object(objects, f[IdName]).text, f[IdType].i, f[IdFlags].i,
             f[IdAttribute].i, f[IdMatchCount].i, f[IdContinuous].i, f[IdUpdateCount].i,
             Time(FieldsOf(objects, f[IdCreationTime])[NSTime]))
  }

  predicate UniqueIdentities(ids: seq<Identity>) {
    forall i, j :: 0 <= i < j < |ids| ==> ids[i].uuid != ids[j].uuid && ids[i].entity != ids[j].entity
  }

  predicate AllIdentities(objects: seq<Value>, items: seq<Value>, uid: nat) {
    forall i :: 0 <= i < |items| ==> IsIdentity(objects, items[i], uid)
  }

  predicate IsIdentityList(objects: seq<Value>, v: Value, uid: nat) {
    && IsObject(objects, v, MutableArray, {NSObjects})
    && FieldsOf(objects, v)[NSObjects].List?
    && var items := FieldsOf(objects, v)[NSObjects].items;
    && |items| <= MAX_IDENTITIES
    && AllIdentities(objects, items, uid)
  }

  function IdentityRefs(objects: seq<Value>, v: Value): seq<Value>
    requires IsObject(objects, v, MutableArray, {NSObjects}) && FieldsOf(objects, v)[NSObjects].List?
  {
    FieldsOf(objects, v)[NSObjects].items
  }

  function IdentityAt(objects: seq<Value>, items: seq<Value>, uid: nat, i: nat): Identity
    requires i < |items| && AllIdentities(objects, items, uid)
  {
    IdentityOf(objects, items[i], uid)
  }

  function IdentitiesOf(objects: seq<Value>, items: seq<Value>, uid: nat): seq<Identity>
    requires AllIdentities(objects, items, uid)
  {
    seq(|items|, i requires 0 <= i < |items| => IdentityAt(objects, items, uid, i))
  }

  function AccessoryRef(objects: seq<Value>, v: Value, uid: nat): Value
    requires IsIdentity(objects, v, uid)
  {
    FieldsOf(objects, v)[IdAccessory]
  }

  /** All identities name the same accessory object. */
  predicate OneAccessory(objects: seq<Value>, items: seq<Value>, uid: nat)
    requires AllIdentities(objects, items, uid)
  {
    forall i, j :: 0 <= i < j < |items| ==> AccessoryRef(objects, items[i], uid) == AccessoryRef(objects, items[j], uid)
  }

  predicate UserTop(root: Value, uid: nat)
    requires root.Dict? && Top in root.fields && root.fields[Top].Dict?
  {
    var top := root.fields[Top].fields;
    top.Keys == TOP_KEYS && Equals(top[CatacombVersion], 0x30000) && Equals(top[CatacombUserID], uid)
  }

  /** Everything that the user decoder checks, but for reachability. */
  predicate UserSchema(root: Value, size: nat, uid: nat) {
    && ArchiveRoot(root, size) && uid <= UINT32_MAX && UserTop(root, uid)
    && var top, objects := root.fields[Top].fields, root.fields[Objects].items;
    && |objects| <= MAX_OBJECTS && ObjectsAllowed(objects)
    && IsSecureData(objects, top[CatacombSecureData], LTFC)
    && IsArchivedUuid(objects, top[CatacombUserUUID])
    && IsArchivedUuid(objects, top[CatacombUserKeybagUUID])
    && IsIdentityList(objects, top[CatacombIdentityList], uid)
    && var items := IdentityRefs(objects, top[CatacombIdentityList]);
    && UniqueIdentities(IdentitiesOf(objects, items, uid))
    && OneAccessory(objects, items, uid)
  }

  ghost predicate UserAccepted(root: Value, size: nat, uid: nat) {
    UserSchema(root, size, uid) && WellFormed(root.fields[Top], root.fields[Objects].items)
  }

  function UserContents(root: Value, size: nat, uid: nat): UserArchive
    requires UserSchema(root, size, uid)
  {
    var top, objects := root.fields[Top].fields, root.fields[Objects].items;
    UserArchive(
      FieldsOf(objects, top[CatacombSecureData])[NSData].bytes,
      FieldsOf(objects, top[CatacombUserUUID])[NSUUIDBytes].bytes,
      FieldsOf(objects, top[CatacombUserKeybagUUID])[NSUUIDBytes].bytes,
      IdentitiesOf(objects, IdentityRefs(objects, top[CatacombIdentityList]), uid))
  }

  ghost function UserDecoded(root: Value, size: nat, uid: nat): Result<UserArchive> {
    if UserAccepted(root, size, uid) then Ok(UserContents(root, size, uid)) else Err
  }

  method ValidateAllObjects(objects: seq<Value>) returns (ok: bool)
    requires objects != []
    ensures ok <==> ObjectsAllowed(objects)
  {
    if objects[0] != Str("$null") {
      return false;
    }
    var aggregate := 0;
    for i := 0 to |objects|
      invariant aggregate == Aggregate(objects[..i])
      invariant forall k :: 0 <= k < i ==> ObjectAllowed(objects, objects[k])
    {
      if !ObjectAllowed(objects, objects[i]) {
        return false;
      }
      assert objects[..i + 1][..i] == objects[..i];
      if objects[i].Str? {
        aggregate := aggregate + Utf8Length(objects[i].text);
      } else if objects[i].Data? {
        aggregate := aggregate + |objects[i].bytes|;
      }
    }
    assert objects[..|objects|] == objects;
    ok := aggregate <= MAX_FILE_BYTES;
  }

  method DecodeUser(root: Value, size: nat, uid: nat) returns (r: Result<UserArchive>)
    ensures r == UserDecoded(root, size, uid)
  {
    hide WellFormed;
    if !ArchiveRoot(root, size) || uid > UINT32_MAX || !UserTop(root, uid) {
      return Err;
    }
    var objects := root.fields[Objects].items;
    if !(1 <= |objects| <= MAX_OBJECTS) {
      return Err;
    }
    var allowed := ValidateAllObjects(objects);
    if !allowed {
      return Err;
    }
    var reachable := ValidateReachability(root.fields[Top], objects);
    if !reachable || !UserSchema(root, size, uid) {
      return Err;
    }
    r := Ok(UserContents(root, size, uid));
  }

  // ---------------------------------------------------------------------------------------
  // The master and bio-lockout components

  const MASTER_KEYS := {CatacombVersion, CatacombSecureData, CatacombCurrentDate, CatacombUserID, CatacombEnrollmentCount}
  const BIOLOCKOUT_KEYS := {BioLockoutSecureData, BioLockoutVersion}

  predicate ComponentRoot(root: Value, size: nat, keys: set<Key>, count: nat) {
    && ArchiveRoot(root, size) && root.fields[Top].fields.Keys == keys
    && |root.fields[Objects].items| == count && count > 0 && root.fields[Objects].items[0] == Str("$null")
  }

  predicate MasterSchema(root: Value, size: nat) {
    && ComponentRoot(root, size, MASTER_KEYS, 5)
    && var top, objects := root.fields[Top].fields, root.fields[Objects].items;
    && Equals(top[CatacombVersion], 0x30000) && Equals(top[CatacombUserID], -1)
    && BoundedInt(top[CatacombEnrollmentCount])
    && IsSecureData(objects, top[CatacombSecureData], LTFC)
    && IsArchivedDate(objects, top[CatacombCurrentDate])
  }

  function MasterContents(root: Value, size: nat): MasterArchive
    requires MasterSchema(root, size)
  {
    var top, objects := root.fields[Top].fields, root.fields[Objects].items;
    MasterArchive(
      FieldsOf(objects, top[CatacombSecureData])[NSData].bytes,
      top[CatacombEnrollmentCount].i,
      Time(FieldsOf(objects, top[CatacombCurrentDate])[NSTime]))
  }

  ghost function MasterDecoded(root: Value, size: nat): Result<MasterArchive> {
    if MasterSchema(root, size) && WellFormed(root.fields[Top], root.fields[Objects].items)
    then Ok(MasterContents(root, size)) else Err
  }

  predicate BioLockoutSchema(root: Value, size: nat) {
    && ComponentRoot(root, size, BIOLOCKOUT_KEYS, 3)
    && var top, objects := root.fields[Top].fields, root.fields[Objects].items;
    && Equals(top[BioLockoutVersion], 0x10000)
    && IsSecureData(objects, top[BioLockoutSecureData], HRLB)
  }

  function BioLockoutContents(root: Value, size: nat): Bytes
    requires BioLockoutSchema(root, size)
  {
    FieldsOf(root.fields[Objects].items, root.fields[Top].fields[BioLockoutSecureData])[NSData].bytes
  }

  ghost function BioLockoutDecoded(root: Value, size: nat): Result<Bytes> {
    if BioLockoutSchema(root, size) && WellFormed(root.fields[Top], root.fields[Objects].items)
    then Ok(BioLockoutContents(root, size)) else Err
  }

  method DecodeMaster(root: Value, size: nat) returns (r: Result<MasterArchive>)
    ensures r == MasterDecoded(root, size)
  {
    hide WellFormed;
    if !MasterSchema(root, size) {
      return Err;
    }
    var reachable := ValidateReachability(root.fields[Top], root.fields[Objects].items);
    r := if reachable then Ok(MasterContents(root, size)) else Err;
  }

  method DecodeBioLockout(root: Value, size: nat) returns (r: Result<Bytes>)
    ensures r == BioLockoutDecoded(root, size)
  {
    hide WellFormed;
    if !BioLockoutSchema(root, size) {
      return Err;
    }
    var reachable := ValidateReachability(root.fields[Top], root.fields[Objects].items);
    r := if reachable then Ok(BioLockoutContents(root, size)) else Err;
  }
}
