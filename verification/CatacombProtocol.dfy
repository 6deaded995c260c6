/** Component descriptors, the secure processor's state records and the save plan derived from them. */
module CatacombProtocol {
  import opened Outcomes
  import opened AksProtocol

  const UINT32_MAX: nat := 0xFFFF_FFFF
  const MAX_SECURE_BLOB_SIZE := 1024 * 1024

  // ---------------------------------------------------------------------------------------
  // Descriptors

  datatype Component = Component(userId: nat, groupType: nat, groupUuid: Bytes)

  datatype Kind = MasterKind | UserKind | GroupKind

  predicate Canonical(c: Component) {
    && c.userId < WORD && c.groupType < WORD && |c.groupUuid| == 16
    && if c.groupType == 0 then c.groupUuid == Zeros(16) else c.userId != UINT32_MAX
  }

  function User(userId: nat): Component {
    Component(userId, 0, Zeros(16))
  }

  function MasterComponent(): Component {
    Component(UINT32_MAX, 0, Zeros(16))
  }

  function KindOf(c: Component): Kind {
    if c.userId == UINT32_MAX then MasterKind else if c.groupType == 0 then UserKind else GroupKind
  }

  function Descriptor(c: Component): Bytes
    requires Canonical(c)
  {
    Le32(c.userId) + Le32(c.groupType) + c.groupUuid
  }

  function ParseDescriptor(d: Bytes): Result<Component> {
    if |d| != 24 then Err
    else
      var c := Component(GetLe32(d[..4]), GetLe32(d[4..8]), d[8..24]);
      if Canonical(c) then Ok(c) else Err
  }

  /** The accepted descriptors are exactly those of the canonical components. */
  lemma DescriptorsExactly(d: Bytes, c: Component)
    ensures ParseDescriptor(d) == Ok(c) <==> Canonical(c) && d == Descriptor(c)
  {
    hide Le32, GetLe32;
    if ParseDescriptor(d) == Ok(c) {
      Le32Inverse(d[..4]);
      Le32Inverse(d[4..8]);
      assert d == d[..4] + d[4..8] + d[8..24];
    }
    if Canonical(c) && d == Descriptor(c) {
      GetInverse(c.userId);
      GetInverse(c.groupType);
      assert d[..4] == Le32(c.userId) && d[4..8] == Le32(c.groupType) && d[8..24] == c.groupUuid;
    }
  }

  // ---------------------------------------------------------------------------------------
  // State records

  datatype ComponentState = ComponentState(component: Component, state: nat)
  {
    predicate NeedsSave() {
      state / 4 % 2 == 1
    }
  }

  /** The two record formats: users and the master by number alone, groups by descriptor. */
  datatype Layout = UserRecords | GroupRecords

  function RecordSize(layout: Layout): nat {
    if layout.UserRecords? then 8 else 28
  }

  /** A whole number of records. */
  predicate Whole(layout: Layout, length: nat) {
    if layout.UserRecords? then length % 8 == 0 else length % 28 == 0
  }

  predicate Recordable(layout: Layout, s: ComponentState) {
    && Canonical(s.component) && s.state < WORD
    && (KindOf(s.component) == GroupKind <==> layout.GroupRecords?)
  }

  function EncodeRecord(layout: Layout, s: ComponentState): (b: Bytes)
    requires Recordable(layout, s)
    ensures |b| == RecordSize(layout)
  {
    if layout.UserRecords? then Le32(s.component.userId) + Le32(s.state)
    else Descriptor(s.component) + Le32(s.state)
  }

  function ParseRecord(layout: Layout, b: Bytes): Result<ComponentState>
    requires |b| == RecordSize(layout)
  {
    if layout.UserRecords? then Ok(ComponentState(User(GetLe32(b[..4])), GetLe32(b[4..8])))
    else
      var c :- ParseDescriptor(b[..24]);
      if KindOf(c) != GroupKind then Err else Ok(ComponentState(c, GetLe32(b[24..28])))
  }

  predicate DistinctComponents(states: seq<ComponentState>) {
    forall i, j :: 0 <= i < j < |states| ==> states[i].component != states[j].component
  }

  /** The records from the offset on, after those already read. */
  function RecordsFrom(layout: Layout, output: Bytes, offset: nat, states: seq<ComponentState>): Result<seq<ComponentState>>
    requires offset <= |output|
    decreases |output| - offset
  {
    var next := offset + RecordSize(layout);
    if offset == |output| then Ok(states)
    else if next > |output| then Err
    else
      var state :- ParseRecord(layout, output[offset..next]);
      RecordsFrom(layout, output, next, states + [state])
  }

  function ParsedStates(layout: Layout, output: Bytes): Result<seq<ComponentState>> {
    if layout.UserRecords? && output == [] then Err
    else
      var states :- RecordsFrom(layout, output, 0, []);
      if DistinctComponents(states) then Ok(states) else Err
  }

  lemma {:induction false} WholeRecords(layout: Layout, output: Bytes, offset: nat, states: seq<ComponentState>)
    requires offset <= |output| && Whole(layout, offset) && RecordsFrom(layout, output, offset, states).Ok?
    ensures Whole(layout, |output|)
    decreases |output| - offset
  {
    var next := offset + RecordSize(layout);
    if offset < |output| {
      WholeRecords(layout, output, next, states + [ParseRecord(layout, output[offset..next]).value]);
    }
  }

  lemma WholeAtZero(layout: Layout)
    ensures Whole(layout, 0)
  {
  }

  lemma NextWhole(layout: Layout, offset: nat, length: nat)
    requires Whole(layout, offset) && Whole(layout, length) && offset < length
    ensures offset + RecordSize(layout) <= length && Whole(layout, offset + RecordSize(layout))
  {
  }

  /** The parsing loop. */
  method ParseStates(layout: Layout, output: Bytes) returns (r: Result<seq<ComponentState>>)
    ensures r == ParsedStates(layout, output)
  {
    hide ParseRecord, DistinctComponents, Whole;
    WholeAtZero(layout);
    if !Whole(layout, |output|) || (layout.UserRecords? && output == []) {
      if RecordsFrom(layout, output, 0, []).Ok? {
        WholeRecords(layout, output, 0, []);
      }
      return Err;
    }
    var states: seq<ComponentState> := [];
    var offset := 0;
    while offset < |output|
      invariant offset <= |output| && Whole(layout, offset)
      invariant RecordsFrom(layout, output, 0, []) == RecordsFrom(layout, output, offset, states)
    {
      NextWhole(layout, offset, |output|);
      var state :- ParseRecord(layout, output[offset..offset + RecordSize(layout)]);
      states := states + [state];
      offset := offset + RecordSize(layout);
    }
    r := if DistinctComponents(states) then Ok(states) else Err;
  }

  function EncodeStates(layout: Layout, states: seq<ComponentState>): Bytes
    requires AllRecordable(layout, states)
  {
    if states == [] then [] else EncodeStates(layout, states[..|states| - 1]) + EncodeRecord(layout, states[|states| - 1])
  }

  lemma RecordsExactly(layout: Layout, b: Bytes, s: ComponentState)
    requires |b| == RecordSize(layout)
    ensures ParseRecord(layout, b) == Ok(s) <==> Recordable(layout, s) && b == EncodeRecord(layout, s)
  {
    hide Le32, GetLe32, ParseDescriptor, Descriptor;
    if layout.UserRecords? {
      Le32Inverse(b[..4]);
      Le32Inverse(b[4..8]);
      assert b == b[..4] + b[4..8];
      if Recordable(layout, s) && b == EncodeRecord(layout, s) {
        GetInverse(s.component.userId);
        GetInverse(s.state);
        assert b[..4] == Le32(s.component.userId) && b[4..8] == Le32(s.state);
      }
    } else {
      DescriptorsExactly(b[..24], s.component);
      Le32Inverse(b[24..28]);
      assert b == b[..24] + b[24..28];
      if Recordable(layout, s) && b == EncodeRecord(layout, s) {
        GetInverse(s.state);
        DescriptorSize(s.component);
        assert b[..24] == Descriptor(s.component) && b[24..28] == Le32(s.state);
      }
    }
  }

  lemma DescriptorSize(c: Component)
    requires Canonical(c)
    ensures |Descriptor(c)| == 24
  {
  }

  predicate AllRecordable(layout: Layout, states: seq<ComponentState>) {
    forall i :: 0 <= i < |states| ==> Recordable(layout, states[i])
  }

  lemma {:induction false} RecordsSound(layout: Layout, output: Bytes, offset: nat, states: seq<ComponentState>)
    requires offset <= |output| && AllRecordable(layout, states) && output[..offset] == EncodeStates(layout, states)
    requires RecordsFrom(layout, output, offset, states).Ok?
    ensures var all := RecordsFrom(layout, output, offset, states).value;
      AllRecordable(layout, all) && output == EncodeStates(layout, all)
    decreases |output| - offset
  {
    hide EncodeRecord, ParseRecord, Recordable;
    if offset == |output| {
      assert output[..offset] == output;
    } else {
      var next := offset + RecordSize(layout);
      var s := ParseRecord(layout, output[offset..next]).value;
      RecordsExactly(layout, output[offset..next], s);
      assert (states + [s])[..|states|] == states;
      assert output[..next] == output[..offset] + output[offset..next];
      RecordsSound(layout, output, next, states + [s]);
    }
  }

  lemma {:induction false} RecordsComplete(layout: Layout, output: Bytes, all: seq<ComponentState>, k: nat)
    requires AllRecordable(layout, all) && k <= |all| && output == EncodeStates(layout, all)
    ensures |EncodeStates(layout, all[..k])| <= |output|
    ensures RecordsFrom(layout, output, |EncodeStates(layout, all[..k])|, all[..k]) == Ok(all)
    decreases |all| - k
  {
    hide EncodeRecord, ParseRecord, Recordable;
    RecordPrefix(layout, all, k);
    if k == |all| {
      assert all[..k] == all;
    } else {
      var offset, next := |EncodeStates(layout, all[..k])|, |EncodeStates(layout, all[..k + 1])|;
      RecordPrefix(layout, all, k + 1);
      assert all[..k + 1][..k] == all[..k] && all[..k] + [all[k]] == all[..k + 1];
      assert output[offset..next] == EncodeRecord(layout, all[k]);
      RecordsExactly(layout, output[offset..next], all[k]);
      RecordsComplete(layout, output, all, k + 1);
    }
  }

  lemma {:induction false} RecordPrefix(layout: Layout, all: seq<ComponentState>, k: nat)
    requires AllRecordable(layout, all) && k <= |all|
    ensures EncodeStates(layout, all[..k]) <= EncodeStates(layout, all)
    decreases |all| - k
  {
    hide EncodeRecord, Recordable;
    if k == |all| {
      assert all[..k] == all;
    } else {
      RecordPrefix(layout, all, k + 1);
      assert all[..k + 1][..k] == all[..k];
    }
  }

  /** The record lists that parse are exactly the encodings of distinct recordable states. */
  lemma ListsExactly(layout: Layout, output: Bytes, states: seq<ComponentState>)
    ensures ParsedStates(layout, output) == Ok(states) <==>
      && AllRecordable(layout, states) && DistinctComponents(states) && (layout.UserRecords? ==> output != [])
      && output == EncodeStates(layout, states)
  {
    hide RecordsFrom, Recordable, DistinctComponents, EncodeRecord;
    if RecordsFrom(layout, output, 0, []).Ok? {
      assert output[..0] == [];
      RecordsSound(layout, output, 0, []);
    }
    if AllRecordable(layout, states) && output == EncodeStates(layout, states) {
      RecordsComplete(layout, output, states, 0);
      assert states[..0] == [];
    }
  }

  // ---------------------------------------------------------------------------------------
  // The save plan

  predicate IsDirty(s: ComponentState) {
    s.NeedsSave() && KindOf(s.component) != MasterKind
  }

  function Dirty(states: seq<ComponentState>): seq<Component> {
    if states == [] then []
    else
      var last := states[|states| - 1];
      Dirty(states[..|states| - 1])
      + if IsDirty(last) then [last.component] else []
  }

  function Named(states: seq<ComponentState>, c: Component): seq<ComponentState> {
    if states == [] then []
    else
      var last := states[|states| - 1];
      Named(states[..|states| - 1], c) + if last.component == c then [last] else []
  }

  /** The user component, then the master component. */
  function PlanSave(users: seq<ComponentState>, groups: seq<ComponentState>, userId: int): Result<(Component, Component)> {
    if !(0 <= userId < UINT32_MAX) then Err
    else if users + groups == [] || !DistinctComponents(users + groups) then Err
    else if |Named(users, MasterComponent())| != 1 then Err
    else
      var selected := Named(users, User(userId));
      if |selected| != 1 || !selected[0].NeedsSave() then Err
      else if Dirty(users + groups) != [User(userId)] then Err
      else Ok((User(userId), MasterComponent()))
  }

  predicate Has(states: seq<ComponentState>, c: Component) {
    exists i :: 0 <= i < |states| && states[i].component == c
  }

  lemma {:induction false} NamedOf(states: seq<ComponentState>, c: Component)
    requires DistinctComponents(states)
    ensures forall i :: 0 <= i < |states| && states[i].component == c ==> Named(states, c) == [states[i]]
    ensures !Has(states, c) ==> Named(states, c) == []
  {
    if states != [] {
      var n := |states| - 1;
      NamedOf(states[..n], c);
      assert forall i :: 0 <= i < n ==> states[..n][i] == states[i];
      if states[n].component == c {
        assert !Has(states[..n], c);
      }
    }
  }

  predicate OnlyDirty(states: seq<ComponentState>, c: Component) {
    forall i :: 0 <= i < |states| ==> (IsDirty(states[i]) ==> states[i].component == c)
  }

  lemma AppendedOnce(front: seq<Component>, last: Component, c: Component)
    ensures front + [last] == [c] <==> front == [] && last == c
    ensures front + [last] != []
  {
    if front + [last] == [c] {
      assert |front + [last]| == |front| + 1 && (front + [last])[|front|] == last;
    } else if front == [] {
      assert [] + [last] == [last];
    }
  }

  predicate NoneDirty(states: seq<ComponentState>) {
    forall i :: 0 <= i < |states| ==> !IsDirty(states[i])
  }

  predicate SomeDirty(states: seq<ComponentState>, c: Component) {
    exists i :: 0 <= i < |states| && IsDirty(states[i]) && states[i].component == c
  }

  lemma DirtySplit(front: seq<ComponentState>, last: ComponentState, c: Component)
    requires DistinctComponents(front + [last])
    ensures NoneDirty(front + [last]) <==> NoneDirty(front) && !IsDirty(last)
    ensures OnlyDirty(front + [last], c) <==> OnlyDirty(front, c) && (IsDirty(last) ==> last.component == c)
    ensures SomeDirty(front + [last], c) <==> SomeDirty(front, c) || (IsDirty(last) && last.component == c)
    ensures last.component == c ==> !SomeDirty(front, c)
    ensures OnlyDirty(front, c) && !SomeDirty(front, c) <==> NoneDirty(front)
    ensures DistinctComponents(front)
  {
    hide IsDirty;
    var states := front + [last];
    assert states[|front|] == last && forall i :: 0 <= i < |front| ==> states[i] == front[i];
  }

  lemma {:induction false} DirtyOf(states: seq<ComponentState>, c: Component)
    requires DistinctComponents(states)
    ensures Dirty(states) == [] <==> NoneDirty(states)
    ensures Dirty(states) == [c] <==> OnlyDirty(states, c) && SomeDirty(states, c)
  {
    hide IsDirty;
    if states != [] {
      var n := |states| - 1;
      assert states == states[..n] + [states[n]];
      DirtySplit(states[..n], states[n], c);
      hide NoneDirty, OnlyDirty, SomeDirty, DistinctComponents;
      DirtyOf(states[..n], c);
      AppendedOnce(Dirty(states[..n]), states[n].component, c);
      assert Dirty(states[..n]) + [] == Dirty(states[..n]);
    }
  }

  /** A plan exists exactly if the master and the dirty selected user are listed and nothing else but,
      perhaps, the master is dirty. */
  lemma PlanExactly(users: seq<ComponentState>, groups: seq<ComponentState>, userId: int)
    ensures PlanSave(users, groups, userId).Ok? <==>
      && 0 <= userId < UINT32_MAX && DistinctComponents(users + groups)
      && Has(users, MasterComponent())
      && (exists i :: 0 <= i < |users| && users[i].component == User(userId) && users[i].state / 4 % 2 == 1)
      && (forall i :: 0 <= i < |users + groups| && (users + groups)[i].state / 4 % 2 == 1 ==>
            (users + groups)[i].component == User(userId) || KindOf((users + groups)[i].component) == MasterKind)
    ensures PlanSave(users, groups, userId).Ok? ==>
      PlanSave(users, groups, userId) == Ok((User(userId), MasterComponent()))
  {
    if 0 <= userId < UINT32_MAX && DistinctComponents(users + groups) {
      assert forall i :: 0 <= i < |users| ==> (users + groups)[i] == users[i];
      NamedOf(users, MasterComponent());
      NamedOf(users, User(userId));
      DirtyOf(users + groups, User(userId));
    }
  }
}
