/** Encoding of the master and bio-lockout components, and its round trip through both readers. */
module CatacombComponents {
  import opened Outcomes
  import opened ArchiveGraph
  import opened CatacombCodec
  import opened CatacombBuilder
  import opened CatacombOracle
  import opened CatacombEdits

  const NULL_OBJECT: Value := Str("$null")

  function DateAt(t: real, class_: nat): Value {
    Dict(map[NSTime := Real(t), Class := Uid(class_)])
  }

  function MasterTop(count: int): Value {
    Dict(map[CatacombVersion := Int(0x30000), CatacombSecureData := Uid(1), CatacombCurrentDate := Uid(3),
             CatacombUserID := Int(-1), CatacombEnrollmentCount := Int(count)])
  }

  function MasterObjects(m: MasterArchive): seq<Value> {
    [NULL_OBJECT, DataObject(m.secureData), Descriptor(MutableData), DateAt(m.currentTime, 4), Descriptor(DateClass)]
  }

  function MasterRoot(m: MasterArchive): Value {
    Framed(MasterTop(m.enrollmentCount), MasterObjects(m))
  }

  const BIOLOCKOUT_TOP: Value := Dict(map[BioLockoutSecureData := Uid(1), BioLockoutVersion := Int(0x10000)])

  function BioLockoutObjects(secure: Bytes): seq<Value> {
    [NULL_OBJECT, DataObject(secure), Descriptor(MutableData)]
  }

  function BioLockoutRoot(secure: Bytes): Value {
    Framed(BIOLOCKOUT_TOP, BioLockoutObjects(secure))
  }

  predicate MasterInPolicy(m: MasterArchive) {
    SecureEnvelope(Data(m.secureData), LTFC) && m.enrollmentCount <= UINT32_MAX
  }

  lemma DateAtRefers(t: real, class_: nat, j: nat)
    ensures Refers(DateAt(t, class_), j) <==> j == class_
  {
    if j == class_ {
      RefersDict(DateAt(t, class_).fields, Class, j);
    }
  }

  lemma MasterTopRefers(count: int, j: nat)
    ensures Refers(MasterTop(count), j) <==> j == 1 || j == 3
  {
    if j == 1 {
      RefersDict(MasterTop(count).fields, CatacombSecureData, j);
    } else if j == 3 {
      RefersDict(MasterTop(count).fields, CatacombCurrentDate, j);
    }
  }

  lemma BioLockoutTopRefers(j: nat)
    ensures Refers(BIOLOCKOUT_TOP, j) <==> j == 1
  {
    if j == 1 {
      RefersDict(BIOLOCKOUT_TOP.fields, BioLockoutSecureData, j);
    }
  }

  /** Two levels: the top refers to the odd objects, each odd object to its successor alone, and the
      others to nothing. Such a graph is well formed. */
  lemma PairedWellFormed(top: Value, objects: seq<Value>)
    requires |objects| % 2 == 1
    requires forall j: nat :: Refers(top, j) <==> j < |objects| && j % 2 == 1
    requires forall i: nat, j: nat :: i < |objects| ==> (Refers(objects[i], j) <==> i % 2 == 1 && j == i + 1)
    ensures WellFormed(top, objects)
  {
    hide IsPath, Refers, Met;
    EmptyPath(top, objects);
    forall i: nat | 0 < i < |objects|
      ensures Met(top, objects, i)
    {
      var odd := if i % 2 == 1 then i else i - 1;
      assert [] + [odd] == [odd];
      Extend(top, objects, [], odd);
      if i != odd {
        Extend(top, objects, [odd], i);
      }
    }
    PairedRanked(objects);
    RankedDecided(top, objects, map i | i in Indices(|objects|) :: i % 2);
  }

  lemma PairedRanked(objects: seq<Value>)
    requires |objects| % 2 == 1
    requires forall i: nat, j: nat :: i < |objects| ==> (Refers(objects[i], j) <==> i % 2 == 1 && j == i + 1)
    ensures var all := Indices(|objects|); Finished(objects, all, map i | i in all :: i % 2)
  {
    hide Refers, Indices, RanksBelow;
    var all := Indices(|objects|);
    var rank: map<nat, nat> := map i | i in all :: i % 2;
    CountIndices(|objects|);
    forall i | i in all
      ensures RanksBelow(objects[i], rank, rank[i])
    {
      PairedObjectRanked(objects, rank, i);
    }
  }

  lemma PairedObjectRanked(objects: seq<Value>, rank: map<nat, nat>, i: nat)
    requires |objects| % 2 == 1 && i < |objects|
    requires forall i: nat, j: nat :: i < |objects| ==> (Refers(objects[i], j) <==> i % 2 == 1 && j == i + 1)
    requires forall i :: 0 < i < |objects| ==> i in rank && rank[i] == i % 2
    ensures RanksBelow(objects[i], rank, i % 2)
  {
  }

  lemma MasterReachable(m: MasterArchive)
    ensures WellFormed(MasterTop(m.enrollmentCount), MasterObjects(m))
  {
    hide Refers, WellFormed, Descriptor, DataObject, DateAt, MasterTop;
    forall j: nat
      ensures Refers(MasterTop(m.enrollmentCount), j) <==> j == 1 || j == 3
      ensures Refers(DataObject(m.secureData), j) <==> j == 2
      ensures Refers(DateAt(m.currentTime, 4), j) <==> j == 4
      ensures !Refers(Descriptor(MutableData), j) && !Refers(Descriptor(DateClass), j) && !Refers(NULL_OBJECT, j)
    {
      MasterTopRefers(m.enrollmentCount, j);
      PlainRefers(m.secureData, m.currentTime, j);
      DateAtRefers(m.currentTime, 4, j);
      DescriptorRefersNothing(MutableData, j);
      DescriptorRefersNothing(DateClass, j);
      NullRefersNothing(j);
    }
    PairedWellFormed(MasterTop(m.enrollmentCount), MasterObjects(m));
  }

  lemma NullRefersNothing(j: nat)
    ensures !Refers(NULL_OBJECT, j)
  {
  }

  lemma BioLockoutReachable(secure: Bytes)
    ensures WellFormed(BIOLOCKOUT_TOP, BioLockoutObjects(secure))
  {
    hide Refers, WellFormed, Descriptor, DataObject, BIOLOCKOUT_TOP;
    forall j: nat
      ensures Refers(BIOLOCKOUT_TOP, j) <==> j == 1
      ensures Refers(DataObject(secure), j) <==> j == 2
      ensures !Refers(Descriptor(MutableData), j) && !Refers(NULL_OBJECT, j)
    {
      BioLockoutTopRefers(j);
      PlainRefers(secure, 0.0, j);
      DescriptorRefersNothing(MutableData, j);
      NullRefersNothing(j);
    }
    PairedWellFormed(BIOLOCKOUT_TOP, BioLockoutObjects(secure));
  }

  lemma MasterSchemaHolds(m: MasterArchive, size: nat)
    requires MasterInPolicy(m) && 0 < size <= MAX_FILE_BYTES
    ensures MasterSchema(MasterRoot(m), size) && MasterContents(MasterRoot(m), size) == m
  {
    hide Descriptor;
    assert MasterTop(m.enrollmentCount).fields.Keys == MASTER_KEYS;
    assert MasterRoot(m).fields.Keys == {Version, Archiver, Top, Objects};
    assert DataObject(m.secureData).fields.Keys == {NSData, Class};
    assert DateAt(m.currentTime, 4).fields.Keys == {NSTime, Class};
  }

  lemma BioLockoutSchemaHolds(secure: Bytes, size: nat)
    requires SecureEnvelope(Data(secure), HRLB) && 0 < size <= MAX_FILE_BYTES
    ensures BioLockoutSchema(BioLockoutRoot(secure), size) && BioLockoutContents(BioLockoutRoot(secure), size) == secure
  {
  }

  lemma MasterRoundTrip(m: MasterArchive, size: nat)
    requires MasterInPolicy(m)
    ensures MasterDecoded(MasterRoot(m), size) == if 0 < size <= MAX_FILE_BYTES then Ok(m) else Err
  {
    hide WellFormed, MasterContents, MasterObjects, MasterTop, MasterInPolicy;
    if 0 < size <= MAX_FILE_BYTES {
      MasterSchemaHolds(m, size);
      MasterReachable(m);
    }
  }

  lemma BioLockoutRoundTrip(secure: Bytes, size: nat)
    requires SecureEnvelope(Data(secure), HRLB)
    ensures BioLockoutDecoded(BioLockoutRoot(secure), size) == if 0 < size <= MAX_FILE_BYTES then Ok(secure) else Err
  {
    hide WellFormed, BioLockoutContents, BioLockoutObjects, BIOLOCKOUT_TOP, SecureEnvelope;
    if 0 < size <= MAX_FILE_BYTES {
      BioLockoutSchemaHolds(secure, size);
      BioLockoutReachable(secure);
    }
  }

  // ---------------------------------------------------------------------------------------
  // The encoders, with their read-back comparisons

  function Or<T>(given: Option<T>, current: T): T {
    if given.Some? then given.value else current
  }

  ghost function EncodeMaster(e: Encoding, m: MasterArchive, secure: Option<Bytes>, count: Option<int>, time: Option<real>): Result<Value> {
    if secure.Some? && !SecureEnvelope(Data(secure.value), LTFC) then Err
    else if count.Some? && !(0 <= count.value <= UINT32_MAX) then Err
    else
      var updated := MasterArchive(Or(secure, m.secureData), Or(count, m.enrollmentCount), Or(time, m.currentTime));
      var root := MasterRoot(updated);
      var size := e.sizeOf(root);
      match MasterDecoded(root, size)
      case Err => Err
      case Ok(decoded) =>
        if decoded != updated then Err
        else if MasterRead(root, size, e.sha)
          != Ok(MasterReading(e.sha(updated.secureData), |updated.secureData|, updated.enrollmentCount, updated.currentTime))
        then Err else Ok(root)
  }

  ghost function EncodeBioLockout(e: Encoding, current: Bytes, secure: Option<Bytes>): Result<Value> {
    if secure.Some? && !SecureEnvelope(Data(secure.value), HRLB) then Err
    else
      var updated := Or(secure, current);
      var root := BioLockoutRoot(updated);
      var size := e.sizeOf(root);
      if BioLockoutDecoded(root, size) != Ok(updated) then Err
      else if BioLockoutRead(root, size, e.sha) != Ok((e.sha(updated), |updated|)) then Err
      else Ok(root)
  }

  /** Re-encoding a decoded master component changes exactly the given parts; only a bad argument or the size can fail it. */
  lemma EncodeMasterEffect(e: Encoding, m: MasterArchive, secure: Option<Bytes>, count: Option<int>, time: Option<real>)
    requires MasterInPolicy(m)
    ensures var r := EncodeMaster(e, m, secure, count, time);
      if (secure.Some? ==> SecureEnvelope(Data(secure.value), LTFC)) && (count.Some? ==> 0 <= count.value <= UINT32_MAX) then
        var updated := MasterArchive(
          if secure.Some? then secure.value else m.secureData,
          if count.Some? then count.value else m.enrollmentCount,
          if time.Some? then time.value else m.currentTime);
        var root := MasterRoot(updated);
        if 0 < e.sizeOf(root) <= MAX_FILE_BYTES
        then r == Ok(root) && MasterDecoded(root, e.sizeOf(root)) == Ok(updated)
        else r == Err
      else r == Err
  {
    hide MasterRoot, MasterDecoded, MasterRead, SecureEnvelope;
    if (secure.Some? ==> SecureEnvelope(Data(secure.value), LTFC)) && (count.Some? ==> 0 <= count.value <= UINT32_MAX) {
      var updated := MasterArchive(Or(secure, m.secureData), Or(count, m.enrollmentCount), Or(time, m.currentTime));
      assert MasterInPolicy(updated);
      MasterRoundTrip(updated, e.sizeOf(MasterRoot(updated)));
      MasterReadBack(MasterRoot(updated), e.sizeOf(MasterRoot(updated)), e.sha);
    }
  }

  lemma MasterReadBack(root: Value, size: nat, sha: Bytes -> Bytes)
    ensures MasterDecoded(root, size).Ok? ==>
      var m := MasterDecoded(root, size).value;
      MasterRead(root, size, sha) == Ok(MasterReading(sha(m.secureData), |m.secureData|, m.enrollmentCount, m.currentTime))
  {
    hide MasterDecoded, MasterRead;
    ReadersAgreeOnMaster(root, size, sha);
  }

  lemma EncodeBioLockoutEffect(e: Encoding, current: Bytes, secure: Option<Bytes>)
    requires SecureEnvelope(Data(current), HRLB)
    ensures var r, updated := EncodeBioLockout(e, current, secure), if secure.Some? then secure.value else current;
      var root := BioLockoutRoot(updated);
      if (secure.Some? ==> SecureEnvelope(Data(secure.value), HRLB)) && 0 < e.sizeOf(root) <= MAX_FILE_BYTES
      then r == Ok(root) && BioLockoutDecoded(root, e.sizeOf(root)) == Ok(updated)
      else r == Err
  {
    hide BioLockoutRoot, BioLockoutDecoded, BioLockoutRead, SecureEnvelope;
    var updated := Or(secure, current);
    if SecureEnvelope(Data(updated), HRLB) {
      BioLockoutRoundTrip(updated, e.sizeOf(BioLockoutRoot(updated)));
      BioLockoutReadBack(BioLockoutRoot(updated), e.sizeOf(BioLockoutRoot(updated)), e.sha);
    }
  }

  lemma BioLockoutReadBack(root: Value, size: nat, sha: Bytes -> Bytes)
    ensures BioLockoutDecoded(root, size).Ok? ==>
      var secure := BioLockoutDecoded(root, size).value;
      BioLockoutRead(root, size, sha) == Ok((sha(secure), |secure|))
  {
    hide BioLockoutDecoded, BioLockoutRead;
    ReadersAgreeOnBioLockout(root, size, sha);
  }

  // ---------------------------------------------------------------------------------------
  // A user component without identities

  function EmptyObjects(secure: Bytes, raw: Bytes): seq<Value> {
    [NULL_OBJECT, DataObject(secure), Descriptor(MutableData), ListObject([]), Descriptor(MutableArray),
     Dict(map[NSUUIDBytes := Data(raw), Class := Uid(6)]), Descriptor(UuidClass)]
  }

  function EmptyTop(uid: nat): Value {
    Dict(map[CatacombVersion := Int(0x30000), CatacombSecureData := Uid(1), CatacombUserKeybagUUID := Uid(5),
             CatacombUserID := Int(uid), CatacombIdentityList := Uid(3), CatacombUserUUID := Uid(5)])
  }

  function EmptyRoot(secure: Bytes, raw: Bytes, uid: nat): Value {
    Framed(EmptyTop(uid), EmptyObjects(secure, raw))
  }

  lemma EmptyObjectsRefer(secure: Bytes, raw: Bytes, i: nat, j: nat)
    requires i < 7
    ensures Refers(EmptyObjects(secure, raw)[i], j) <==> i % 2 == 1 && j == i + 1
  {
    if i == 0 {
      NullRefersNothing(j);
    } else if i == 1 {
      PlainRefers(secure, 0.0, j);
    } else if i == 3 {
      ListRefers(0, j);
      assert References(0) == [];
    } else if i == 5 {
      if j == 6 {
        RefersDict(EmptyObjects(secure, raw)[5].fields, Class, j);
      }
    } else {
      var c := if i == 2 then MutableData else if i == 4 then MutableArray else UuidClass;
      DescriptorRefersNothing(c, j);
    }
  }

  lemma EmptyTopRefers(uid: nat, j: nat)
    ensures Refers(EmptyTop(uid), j) <==> j == 1 || j == 3 || j == 5
  {
    var fields := EmptyTop(uid).fields;
    if j == 1 {
      RefersDict(fields, CatacombSecureData, j);
    } else if j == 3 {
      RefersDict(fields, CatacombIdentityList, j);
    } else if j == 5 {
      RefersDict(fields, CatacombUserUUID, j);
    }
  }

  lemma EmptyReachable(secure: Bytes, raw: Bytes, uid: nat)
    ensures WellFormed(EmptyTop(uid), EmptyObjects(secure, raw))
  {
    hide Refers, WellFormed;
    forall j: nat
      ensures Refers(EmptyTop(uid), j) <==> j < 7 && j % 2 == 1
    {
      EmptyTopRefers(uid, j);
    }
    forall i: nat, j: nat | i < 7
      ensures Refers(EmptyObjects(secure, raw)[i], j) <==> i % 2 == 1 && j == i + 1
    {
      EmptyObjectsRefer(secure, raw, i, j);
    }
    PairedWellFormed(EmptyTop(uid), EmptyObjects(secure, raw));
  }

  lemma EmptyObjectsHold(secure: Bytes, raw: Bytes, uid: nat)
    requires SecureEnvelope(Data(secure), LTFC) && |raw| == 16
    ensures var objects := EmptyObjects(secure, raw);
      && IsSecureData(objects, Uid(1), LTFC) && FieldsOf(objects, Uid(1))[NSData] == Data(secure)
      && IsArchivedUuid(objects, Uid(5)) && FieldsOf(objects, Uid(5))[NSUUIDBytes] == Data(raw)
      && IsIdentityList(objects, Uid(3), uid) && IdentityRefs(objects, Uid(3)) == []
  {
    hide Descriptor, IsIdentity;
    var objects := EmptyObjects(secure, raw);
    assert objects[1].fields.Keys == {NSData, Class};
    assert objects[5].fields.Keys == {NSUUIDBytes, Class};
    assert objects[3].fields.Keys == {NSObjects, Class};
  }

  lemma EmptyObjectsAllowed(secure: Bytes, raw: Bytes)
    ensures ObjectsAllowed(EmptyObjects(secure, raw))
  {
    hide Utf8Length;
    BuiltinText();
    var objects := EmptyObjects(secure, raw);
    assert HasClass(objects, objects[1].fields, MutableData) && HasClass(objects, objects[3].fields, MutableArray);
    assert HasClass(objects, objects[5].fields, UuidClass);
    forall i | 0 <= i < |objects|
      ensures ObjectAllowed(objects, objects[i]) && !objects[i].Data?
    {
    }
    AggregateBounded(objects);
  }

  /** The decoder accepts a component without identities, which no edit can write back. */
  lemma EmptyDecodesButCannotBeEdited(e: Encoding, secure: Bytes, raw: Bytes, uid: nat, size: nat, replacement: Bytes)
    requires SecureEnvelope(Data(secure), LTFC) && |raw| == 16 && uid <= UINT32_MAX && 0 < size <= MAX_FILE_BYTES
    ensures var decoded := UserDecoded(EmptyRoot(secure, raw, uid), size, uid);
      decoded == Ok(UserArchive(secure, raw, raw, [])) && ReplaceSecureData(e, decoded.value, uid, replacement) == Err
  {
    hide ObjectsAllowed, IsSecureData, IsArchivedUuid, IsIdentityList, IdentityRefs, EmptyObjects, WellFormed, SecureEnvelope,
         ReplaceSecureData;
    var root := EmptyRoot(secure, raw, uid);
    assert root.fields.Keys == {Version, Archiver, Top, Objects} && EmptyTop(uid).fields.Keys == TOP_KEYS;
    EmptyObjectsAllowed(secure, raw);
    EmptyObjectsHold(secure, raw, uid);
    EmptyReachable(secure, raw, uid);
    assert |EmptyObjects(secure, raw)| == 7 by { SevenObjects(secure, raw); }
    var a := UserContents(root, size, uid);
    assert a.identities == [];
    ReplaceSecureDataEffect(e, a, uid, replacement);
  }

  lemma SevenObjects(secure: Bytes, raw: Bytes)
    ensures |EmptyObjects(secure, raw)| == 7
  {
  }
}
