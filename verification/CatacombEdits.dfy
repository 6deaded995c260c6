/** Typed edits of a decoded archive. Each edit rebuilds the archive, decodes what it built with both
    readers and compares; the comparisons are proved never to fail, and each edit to have its exact effect. */
module CatacombEdits {
  import opened Outcomes
  import opened ArchiveGraph
  import opened CatacombCodec
  import opened CatacombBuilder
  import opened CatacombOracle

  /** What the edits take from outside: the digest, and the size of an archive's file. */
  datatype Encoding = Encoding(sha: Bytes -> Bytes, sizeOf: Value -> nat)

  ghost function EncodeAndVerify(e: Encoding, a: UserArchive, uid: nat, built: UserArchive): Result<Value> {
    var root := UserRoot(built, uid);
    var size := e.sizeOf(root);
    match UserDecoded(root, size, uid)
    case Err => Err
    case Ok(decoded) =>
      if decoded.secureData != built.secureData || decoded.account != a.account || decoded.keybag != a.keybag then Err
      else match UserRead(root, size, uid, e.sha)
        case Err => Err
        case Ok(oracle) =>
          if oracle.account != a.account || oracle.keybag != a.keybag || oracle.digest != e.sha(built.secureData)
             || oracle.length != |built.secureData| || oracle.identities != built.identities
          then Err else Ok(root)
  }

  predicate Fits(e: Encoding, a: UserArchive, uid: nat) {
    0 < e.sizeOf(UserRoot(a, uid)) <= MAX_FILE_BYTES
  }

  /** The comparisons after encoding never fail: an archive with an identity, of a permitted size, is emitted. */
  lemma VerifyNeverFails(e: Encoding, a: UserArchive, uid: nat, built: UserArchive)
    requires InPolicy(built, uid) && built.account == a.account && built.keybag == a.keybag
    ensures EncodeAndVerify(e, a, uid, built) ==
      if built.identities != [] && Fits(e, built, uid) then Ok(UserRoot(built, uid)) else Err
  {
    hide InPolicy, UserDecoded, UserRead, UserRoot;
    var root := UserRoot(built, uid);
    BuildRoundTrip(built, uid, e.sizeOf(root));
    Agreed(root, e.sizeOf(root), uid, e.sha);
  }

  lemma Agreed(root: Value, size: nat, uid: nat, sha: Bytes -> Bytes)
    ensures UserDecoded(root, size, uid).Ok? ==>
      UserRead(root, size, uid, sha) == Ok(Reading(UserDecoded(root, size, uid).value, uid, sha))
  {
    hide UserDecoded, UserRead;
    ReadersAgreeOnUser(root, size, uid, sha);
  }

  // ---------------------------------------------------------------------------------------
  // The edits

  function Positions(ids: seq<Identity>, target: Bytes): seq<nat> {
    if ids == [] then []
    else
      var n := |ids| - 1;
      Positions(ids[..n], target) + if ids[n].uuid == target then [n] else []
  }

  /** The one position of the target. */
  function Find(ids: seq<Identity>, target: Bytes): Option<nat> {
    var found := Positions(ids, target);
    if |found| != 1 then None else Some(found[0])
  }

  predicate NameAllowed(name: string) {
    name != "" && Utf8Length(name) <= MAX_STRING_BYTES
  }

  ghost function Rename(e: Encoding, a: UserArchive, uid: nat, target: Bytes, name: string): Result<Value> {
    if !NameAllowed(name) then Err
    else match Find(a.identities, target)
      case None => Err
      case Some(i) =>
        if i < |a.identities| then
          EncodeAndVerify(e, a, uid, a.(identities := a.identities[i := a.identities[i].(name := name)]))
        else Err
  }

  function Others(ids: seq<Identity>, i: nat): seq<Identity> {
    if ids == [] then []
    else
      var n := |ids| - 1;
      Others(ids[..n], i) + if n != i then [ids[n]] else []
  }

  ghost function Delete(e: Encoding, a: UserArchive, uid: nat, target: Bytes): Result<Value> {
    if |a.identities| <= 1 then Err
    else match Find(a.identities, target)
      case None => Err
      case Some(i) => EncodeAndVerify(e, a, uid, a.(identities := Others(a.identities, i)))
  }

  /** A new identity takes the sensor metadata of an existing one. */
  function Fresh(prototype: Identity, uuid: Bytes, uid: nat, entity: nat, name: string, created: real): Identity {
    prototype.(uuid := uuid, userId := uid, entity := entity, name := name, matchCount := 0,
               continuousMatchCount := 0, updateCount := 1, creationTime := created)
  }

  ghost function Add(e: Encoding, a: UserArchive, uid: nat, uuid: Bytes, entity: int, name: string, created: real): Result<Value> {
    if a.identities == [] || |a.identities| >= MAX_IDENTITIES then Err
    else if exists i :: 0 <= i < |a.identities| && a.identities[i].uuid == uuid then Err
    else if !(0 <= entity <= UINT32_MAX) then Err
    else if exists i :: 0 <= i < |a.identities| && a.identities[i].entity == entity then Err
    else if !NameAllowed(name) then Err
    else EncodeAndVerify(e, a, uid, a.(identities := a.identities + [Fresh(a.identities[0], uuid, uid, entity, name, created)]))
  }

  ghost function ReplaceOnly(e: Encoding, a: UserArchive, uid: nat, uuid: Bytes, entity: int, name: string, created: real,
                             attested: bool): Result<Value>
  {
    if !attested || |a.identities| != 1 then Err
    else if !(0 <= entity <= UINT32_MAX) || !NameAllowed(name) then Err
    else EncodeAndVerify(e, a, uid, a.(identities := [Fresh(a.identities[0], uuid, uid, entity, name, created)]))
  }

  ghost function ReplaceSecureData(e: Encoding, a: UserArchive, uid: nat, secure: Bytes): Result<Value> {
    if !SecureEnvelope(Data(secure), LTFC) then Err
    else EncodeAndVerify(e, a, uid, a.(secureData := secure))
  }

  // ---------------------------------------------------------------------------------------
  // What they do

  /** The archive that an edit emitted decodes to these contents. */
  ghost predicate Emits(e: Encoding, uid: nat, r: Result<Value>, contents: UserArchive) {
    && r == Ok(UserRoot(contents, uid)) && Fits(e, contents, uid)
    && UserDecoded(r.value, e.sizeOf(r.value), uid) == Ok(contents)
  }

  lemma EmitsExactly(e: Encoding, a: UserArchive, uid: nat, built: UserArchive)
    requires InPolicy(built, uid) && built.account == a.account && built.keybag == a.keybag && built.identities != []
    ensures if Fits(e, built, uid) then Emits(e, uid, EncodeAndVerify(e, a, uid, built), built)
            else EncodeAndVerify(e, a, uid, built) == Err
  {
    VerifyNeverFails(e, a, uid, built);
    hide InPolicy, UserDecoded, EncodeAndVerify, UserRoot;
    BuildRoundTrip(built, uid, e.sizeOf(UserRoot(built, uid)));
  }

  lemma {:induction false} PositionsOf(ids: seq<Identity>, target: Bytes)
    requires forall i, j :: 0 <= i < j < |ids| ==> ids[i].uuid != ids[j].uuid
    ensures forall i :: 0 <= i < |ids| && ids[i].uuid == target ==> Positions(ids, target) == [i]
    ensures (forall i :: 0 <= i < |ids| ==> ids[i].uuid != target) ==> Positions(ids, target) == []
  {
    if ids != [] {
      var n := |ids| - 1;
      PositionsOf(ids[..n], target);
      if ids[n].uuid == target {
        assert forall i :: 0 <= i < n ==> ids[..n][i].uuid != target;
      } else {
        assert forall i :: 0 <= i < n ==> ids[..n][i] == ids[i];
      }
    }
  }

  lemma {:induction false} OthersOf(ids: seq<Identity>, i: nat)
    ensures Others(ids, i) == if i < |ids| then ids[..i] + ids[i + 1..] else ids
  {
    if ids != [] {
      var n := |ids| - 1;
      OthersOf(ids[..n], i);
      if i < n {
        assert ids[..n][..i] + ids[..n][i + 1..] + [ids[n]] == ids[..i] + ids[i + 1..];
      } else {
        assert ids[..n] + [ids[n]] == ids && ids[n + 1..] == [];
      }
    }
  }

  function Renamed(a: UserArchive, i: nat, name: string): UserArchive
    requires i < |a.identities|
  {
    a.(identities := a.identities[i := a.identities[i].(name := name)])
  }

  function Removed(a: UserArchive, i: nat): UserArchive
    requires i < |a.identities|
  {
    a.(identities := a.identities[..i] + a.identities[i + 1..])
  }

  lemma FindsUnique(a: UserArchive, uid: nat, target: Bytes)
    requires InPolicy(a, uid)
    ensures forall i :: 0 <= i < |a.identities| && a.identities[i].uuid == target ==> Find(a.identities, target) == Some(i)
    ensures (forall i :: 0 <= i < |a.identities| ==> a.identities[i].uuid != target) ==> Find(a.identities, target) == None
  {
    PositionsOf(a.identities, target);
  }

  /** Renaming changes the one name; it fails exactly for a bad name, an absent identity or an oversized result. */
  lemma RenameEffect(e: Encoding, a: UserArchive, uid: nat, target: Bytes, name: string)
    requires InPolicy(a, uid)
    ensures forall i :: 0 <= i < |a.identities| && a.identities[i].uuid == target ==>
      if name != "" && Utf8Length(name) <= 1024 && Fits(e, Renamed(a, i, name), uid)
      then Emits(e, uid, Rename(e, a, uid, target, name), Renamed(a, i, name))
      else Rename(e, a, uid, target, name) == Err
    ensures (forall i :: 0 <= i < |a.identities| ==> a.identities[i].uuid != target) ==> Rename(e, a, uid, target, name) == Err
  {
    FindsUnique(a, uid, target);
    hide EncodeAndVerify, Fits, Emits, Find;
    forall i | 0 <= i < |a.identities| && a.identities[i].uuid == target && NameAllowed(name)
      ensures if Fits(e, Renamed(a, i, name), uid)
        then Emits(e, uid, Rename(e, a, uid, target, name), Renamed(a, i, name))
        else Rename(e, a, uid, target, name) == Err
    {
      assert InPolicy(Renamed(a, i, name), uid);
      EmitsExactly(e, a, uid, Renamed(a, i, name));
    }
  }

  /** Deleting removes the one identity, and never the last. */
  lemma DeleteEffect(e: Encoding, a: UserArchive, uid: nat, target: Bytes)
    requires InPolicy(a, uid)
    ensures forall i :: 0 <= i < |a.identities| && a.identities[i].uuid == target ==>
      if |a.identities| > 1 && Fits(e, Removed(a, i), uid)
      then Emits(e, uid, Delete(e, a, uid, target), Removed(a, i))
      else Delete(e, a, uid, target) == Err
    ensures (forall i :: 0 <= i < |a.identities| ==> a.identities[i].uuid != target) ==> Delete(e, a, uid, target) == Err
  {
    FindsUnique(a, uid, target);
    hide EncodeAndVerify, Fits, Emits, Find, Delete, InPolicy;
    if forall i :: 0 <= i < |a.identities| ==> a.identities[i].uuid != target {
      DeleteMisses(e, a, uid, target);
    }
    forall i | 0 <= i < |a.identities| && a.identities[i].uuid == target
      ensures if |a.identities| > 1 && Fits(e, Removed(a, i), uid)
        then Emits(e, uid, Delete(e, a, uid, target), Removed(a, i))
        else Delete(e, a, uid, target) == Err
    {
      DeleteHits(e, a, uid, target, i);
    }
  }

  lemma DeleteMisses(e: Encoding, a: UserArchive, uid: nat, target: Bytes)
    requires Find(a.identities, target) == None
    ensures Delete(e, a, uid, target) == Err
  {
  }

  lemma DeleteHits(e: Encoding, a: UserArchive, uid: nat, target: Bytes, i: nat)
    requires InPolicy(a, uid) && i < |a.identities| && Find(a.identities, target) == Some(i)
    ensures if |a.identities| > 1 && Fits(e, Removed(a, i), uid)
      then Emits(e, uid, Delete(e, a, uid, target), Removed(a, i))
      else Delete(e, a, uid, target) == Err
  {
    hide EncodeAndVerify, Fits, Emits, Find, Others, InPolicy;
    if |a.identities| > 1 {
      OthersOf(a.identities, i);
      RemovedInPolicy(a, uid, i);
      EmitsExactly(e, a, uid, Removed(a, i));
    }
  }

  lemma RemovedInPolicy(a: UserArchive, uid: nat, i: nat)
    requires InPolicy(a, uid) && i < |a.identities|
    ensures InPolicy(Removed(a, i), uid)
  {
  }

  predicate Addable(a: UserArchive, uuid: Bytes, entity: int, name: string) {
    && 0 < |a.identities| < MAX_IDENTITIES && 0 <= entity < 0x1_0000_0000 && name != "" && Utf8Length(name) <= 1024
    && forall i :: 0 <= i < |a.identities| ==> a.identities[i].uuid != uuid && a.identities[i].entity != entity
  }

  function Added(a: UserArchive, uuid: Bytes, uid: nat, entity: nat, name: string, created: real): UserArchive
    requires a.identities != []
  {
    a.(identities := a.identities + [Fresh(a.identities[0], uuid, uid, entity, name, created)])
  }

  /** Adding appends the one identity; it fails exactly for a full or empty archive, a clash, an argument
      out of policy or an oversized result. */
  lemma AddEffect(e: Encoding, a: UserArchive, uid: nat, uuid: Bytes, entity: int, name: string, created: real)
    requires InPolicy(a, uid) && |uuid| == 16
    ensures if Addable(a, uuid, entity, name) && Fits(e, Added(a, uuid, uid, entity, name, created), uid)
      then Emits(e, uid, Add(e, a, uid, uuid, entity, name, created), Added(a, uuid, uid, entity, name, created))
      else Add(e, a, uid, uuid, entity, name, created) == Err
  {
    hide EncodeAndVerify, Fits, Emits;
    if Addable(a, uuid, entity, name) {
      assert InPolicy(Added(a, uuid, uid, entity, name, created), uid);
      EmitsExactly(e, a, uid, Added(a, uuid, uid, entity, name, created));
    }
  }

  /** Deleting the identity just added gives back the archive as it was. */
  lemma DeleteUndoesAdd(e: Encoding, a: UserArchive, uid: nat, uuid: Bytes, entity: int, name: string, created: real)
    requires InPolicy(a, uid) && |uuid| == 16 && Fits(e, a, uid)
    requires Add(e, a, uid, uuid, entity, name, created).Ok?
    ensures var added := Add(e, a, uid, uuid, entity, name, created).value;
      var decoded := UserDecoded(added, e.sizeOf(added), uid);
      decoded.Ok? && Emits(e, uid, Delete(e, decoded.value, uid, uuid), a)
  {
    hide Add, Delete, Fits, UserDecoded, UserRoot;
    AddEffect(e, a, uid, uuid, entity, name, created);
    var b := Added(a, uuid, uid, entity, name, created);
    assert Emits(e, uid, Add(e, a, uid, uuid, entity, name, created), b);
    assert InPolicy(b, uid);
    hide InPolicy;
    DeleteEffect(e, b, uid, uuid);
    assert Removed(b, |a.identities|) == a;
  }

  lemma ReplaceOnlyEffect(e: Encoding, a: UserArchive, uid: nat, uuid: Bytes, entity: int, name: string, created: real,
                          attested: bool)
    requires InPolicy(a, uid) && |uuid| == 16
    ensures var r := ReplaceOnly(e, a, uid, uuid, entity, name, created, attested);
      if attested && |a.identities| == 1 && 0 <= entity < 0x1_0000_0000 && name != "" && Utf8Length(name) <= 1024 then
        var built := a.(identities := [Fresh(a.identities[0], uuid, uid, entity, name, created)]);
        if Fits(e, built, uid) then Emits(e, uid, r, built) else r == Err
      else r == Err
  {
    hide EncodeAndVerify, Fits, Emits;
    if attested && |a.identities| == 1 && 0 <= entity <= UINT32_MAX && NameAllowed(name) {
      var built := a.(identities := [Fresh(a.identities[0], uuid, uid, entity, name, created)]);
      assert InPolicy(built, uid);
      EmitsExactly(e, a, uid, built);
    }
  }

  /** An archive without identities decodes, but its secure data cannot be replaced: the rebuilt graph
      holds the sensor objects that nothing refers to. */
  lemma ReplaceSecureDataEffect(e: Encoding, a: UserArchive, uid: nat, secure: Bytes)
    requires InPolicy(a, uid)
    ensures var r, built := ReplaceSecureData(e, a, uid, secure), a.(secureData := secure);
      if a.identities != [] && SecureEnvelope(Data(secure), LTFC) && Fits(e, built, uid) then Emits(e, uid, r, built)
      else r == Err
  {
    hide EncodeAndVerify, Fits, Emits;
    if SecureEnvelope(Data(secure), LTFC) {
      var built := a.(secureData := secure);
      assert InPolicy(built, uid);
      VerifyNeverFails(e, a, uid, built);
      if a.identities != [] {
        EmitsExactly(e, a, uid, built);
      }
    }
  }
}
