/** Keyed archives as graphs: property-list values that refer to a list of objects, and the
    depth-first search that accepts exactly the fully reachable acyclic ones. */
module ArchiveGraph {
  import opened Outcomes

  /** The dictionary keys that the archive schemas use, and every other key. */
  datatype Key =
    | Version | Archiver | Top | Objects | Class | ClassName | Classes
    | CatacombVersion | CatacombSecureData | CatacombUserKeybagUUID | CatacombUserID | CatacombIdentityList
    | CatacombUserUUID | CatacombCurrentDate | CatacombEnrollmentCount
    | BioLockoutSecureData | BioLockoutVersion
    | NSData | NSObjects | NSTime | NSUUIDBytes
    | IdMatchCount | IdCreationTime | IdEntity | IdUUID | IdFlags | IdContinuous | IdName | IdType | IdAccessory
    | IdUpdateCount | IdUserID | IdAttribute
    | AccUUID | AccFlags | AccName | AccType | AccGroup
    | GroupName | GroupType | GroupUUID
    | OtherKey(text: string)

  /** A property-list value. Real is a finite real; NotFinite is an infinity or not-a-number. */
  datatype Value =
    | Uid(index: nat)
    | Str(text: string)
    | Data(bytes: Bytes)
    | Int(i: int)
    | Real(r: real)
    | NotFinite
    | Bool(b: bool)
    | Null
    | Date
    | Dict(fields: map<Key, Value>)
    | List(items: seq<Value>)

  /** The value contains a reference to object i. */
  ghost predicate Refers(v: Value, i: nat) {
    match v
    case Uid(j) => i == j
    case Dict(m) => exists k :: k in m && Refers(m[k], i)
    case List(s) => exists k :: 0 <= k < |s| && Refers(s[k], i)
    case _ => false
  }

  /** Where the last object of a path is: the top, before the first step. */
  ghost predicate FromLast(top: Value, objects: seq<Value>, p: seq<nat>, i: nat) {
    if p == [] then Refers(top, i) else p[|p| - 1] < |objects| && Refers(objects[p[|p| - 1]], i)
  }

  /** A walk along references from the top. Object 0, the null sentinel, is never entered. */
  ghost predicate IsPath(top: Value, objects: seq<Value>, p: seq<nat>)
    decreases |p|
  {
    p == [] ||
    var n := |p| - 1;
    IsPath(top, objects, p[..n]) && p[n] != 0 && FromLast(top, objects, p[..n], p[n])
  }

  ghost predicate Met(top: Value, objects: seq<Value>, i: nat) {
    exists p :: IsPath(top, objects, p) && p != [] && p[|p| - 1] == i
  }

  ghost predicate Repeats(p: seq<nat>) {
    exists i, j :: 0 <= i < j < |p| && p[i] == p[j]
  }

  /** The specification: every reference that is met is in range, no walk from the top meets an object
      twice, and every object but the null sentinel is met. */
  ghost predicate WellFormed(top: Value, objects: seq<Value>) {
    && (forall i: nat :: Met(top, objects, i) ==> i < |objects|)
    && (forall p :: IsPath(top, objects, p) ==> !Repeats(p))
    && (forall i: nat :: 0 < i < |objects| ==> Met(top, objects, i))
  }

  lemma Extend(top: Value, objects: seq<Value>, p: seq<nat>, i: nat)
    requires IsPath(top, objects, p) && i != 0 && FromLast(top, objects, p, i)
    ensures IsPath(top, objects, p + [i]) && Met(top, objects, i)
  {
  }

  /** The indices of all objects but the null sentinel. */
  function Indices(n: nat): (r: set<nat>)
    ensures forall i :: i in r <==> 0 < i < n
  {
    if n <= 1 then {} else Indices(n - 1) + {n - 1}
  }

  /** The active objects are those of the path; every finished object was met, and refers only
      to the sentinel and to objects finished before it. */
  ghost predicate Consistent(top: Value, objects: seq<Value>, path: seq<nat>,
                             reached: set<nat>, active: set<nat>, rank: map<nat, nat>) {
    && objects != []
    && IsPath(top, objects, path) && !Repeats(path)
    && (forall i :: i in active <==> i in path)
    && active <= Indices(|objects|) && active !! reached
    && (forall i :: i in reached ==> Met(top, objects, i))
    && Finished(objects, reached, rank)
  }

  ghost predicate Finished(objects: seq<Value>, reached: set<nat>, rank: map<nat, nat>) {
    && reached <= Indices(|objects|) && rank.Keys == reached
    && forall i :: i in reached ==> rank[i] < |reached| && RanksBelow(objects[i], rank, rank[i])
  }

  ghost predicate RanksBelow(v: Value, rank: map<nat, nat>, bound: nat) {
    forall j :: j != 0 && Refers(v, j) ==> j in rank && rank[j] < bound
  }

  lemma Entering(top: Value, objects: seq<Value>, path: seq<nat>,
                 reached: set<nat>, active: set<nat>, rank: map<nat, nat>, index: nat)
    requires Consistent(top, objects, path, reached, active, rank)
    requires 0 < index < |objects| && index !in active && index !in reached && FromLast(top, objects, path, index)
    ensures Consistent(top, objects, path + [index], reached, active + {index}, rank)
    ensures IsPath(top, objects, path) && index !in path
  {
    hide Finished, Met;
    Extend(top, objects, path, index);
    hide IsPath, FromLast;
    var longer := path + [index];
    forall i, j | 0 <= i < j < |longer|
      ensures longer[i] != longer[j]
    {
      if j == |path| {
        assert longer[i] in path;
      } else {
        assert path[i] != path[j];
      }
    }
  }

  lemma Shorter(path: seq<nat>, index: nat, active: set<nat>)
    requires !Repeats(path + [index]) && index !in path && forall i :: i in active <==> i in path + [index]
    ensures !Repeats(path) && forall i :: i in active - {index} <==> i in path
  {
    var longer := path + [index];
    forall i, j | 0 <= i < j < |path|
      ensures path[i] != path[j]
    {
      assert longer[i] != longer[j];
    }
    forall i | i in path
      ensures i in longer
    {
      var k :| 0 <= k < |path| && path[k] == i;
      assert longer[k] == i;
    }
  }

  lemma Ranked(objects: seq<Value>, reached: set<nat>, rank: map<nat, nat>, index: nat)
    requires Finished(objects, reached, rank) && index in Indices(|objects|) - reached
    requires RanksBelow(objects[index], rank, |reached|)
    ensures Finished(objects, reached + {index}, rank[index := |reached|])
  {
    hide RanksBelow, Indices;
    var rank' := rank[index := |reached|];
    assert |reached + {index}| == |reached| + 1;
    RanksKept(objects[index], rank, index, |reached|, |reached|);
    forall i | i in reached
      ensures rank'[i] < |reached + {index}| && RanksBelow(objects[i], rank', rank'[i])
    {
      RanksKept(objects[i], rank, index, |reached|, rank[i]);
    }
  }

  lemma RanksKept(v: Value, rank: map<nat, nat>, index: nat, r: nat, bound: nat)
    requires RanksBelow(v, rank, bound) && index !in rank
    ensures RanksBelow(v, rank[index := r], bound)
  {
  }

  lemma MetLast(top: Value, objects: seq<Value>, p: seq<nat>)
    requires IsPath(top, objects, p) && p != []
    ensures Met(top, objects, p[|p| - 1])
  {
  }

  lemma Leaving(top: Value, objects: seq<Value>, path: seq<nat>,
                reached: set<nat>, active: set<nat>, rank: map<nat, nat>, index: nat)
    requires IsPath(top, objects, path) && index !in path
    requires index < |objects| && Consistent(top, objects, path + [index], reached, active, rank)
    requires RanksBelow(objects[index], rank, |reached|)
    ensures Consistent(top, objects, path, reached + {index}, active - {index}, rank[index := |reached|])
  {
    hide RanksBelow, IsPath, Repeats, Met, Finished;
    MetLast(top, objects, path + [index]);
    Shorter(path, index, active);
    Ranked(objects, reached, rank, index);
  }

  class Traversal {
    const top: Value
    const objects: seq<Value>
    var reached: set<nat>
    var active: set<nat>
    ghost var rank: map<nat, nat>  // the order in which objects were finished

    constructor (top: Value, objects: seq<Value>)
      requires objects != []
      ensures this.top == top && this.objects == objects && reached == {} && active == {} && Valid([])
    {
      this.top, this.objects, reached, active, rank := top, objects, {}, {}, map[];
    }

    ghost predicate Valid(path: seq<nat>)
      reads this
    {
      Consistent(top, objects, path, reached, active, rank)
    }

    ghost predicate Covers(v: Value)
      reads this
    {
      forall j :: j != 0 && Refers(v, j) ==> j in reached
    }

    ghost predicate Flawed() {
      exists p :: IsPath(top, objects, p) && (Repeats(p) || (p != [] && p[|p| - 1] >= |objects|))
    }

    ghost function Unvisited(): set<nat>
      reads this
    {
      Indices(|objects|) - reached - active
    }

    method Visit(v: Value, ghost path: seq<nat>) returns (ok: bool)
      requires Valid(path)
      requires forall j :: Refers(v, j) ==> FromLast(top, objects, path, j)
      modifies this
      ensures ok ==> Valid(path) && Covers(v) && active == old(active) && old(reached) <= reached
      ensures !ok ==> Flawed()
      decreases Unvisited(), v, 1
    {
      hide Consistent, FromLast;
      match v
      case Uid(index) =>
        ok := Enter(index, path);
      case Dict(fields) =>
        var keys := fields.Keys;
        ok := true;
        while keys != {}
          invariant keys <= fields.Keys
          invariant ok && Valid(path) && active == old(active) && old(reached) <= reached
          invariant forall k :: k in fields && k !in keys ==> Covers(fields[k])
        {
          var k :| k in keys;
          keys := keys - {k};
          assert forall j :: Refers(fields[k], j) ==> Refers(v, j);
          ok := Visit(fields[k], path);
          if !ok {
            return;
          }
        }
      case List(items) =>
        ok := true;
        for i := 0 to |items|
          invariant ok && Valid(path) && active == old(active) && old(reached) <= reached
          invariant forall k :: 0 <= k < i ==> Covers(items[k])
        {
          assert forall j :: Refers(items[i], j) ==> Refers(v, j);
          ok := Visit(items[i], path);
          if !ok {
            return;
          }
        }
      case _ =>
        ok := true;
    }

    method Enter(index: nat, ghost path: seq<nat>) returns (ok: bool)
      requires Valid(path) && FromLast(top, objects, path, index)
      modifies this
      ensures ok ==> Valid(path) && (index != 0 ==> index in reached) && active == old(active) && old(reached) <= reached
      ensures !ok ==> Flawed()
      decreases Unvisited(), Uid(index), 0
    {
      if index == 0 {
        return true;
      }
      ghost var longer := path + [index];
      if index >= |objects| || index in active {
        Flaw(path, index);
        return false;
      }
      if index in reached {
        return true;
      }
      Entering(top, objects, path, reached, active, rank, index);
      hide Consistent, IsPath, RanksBelow;
      active := active + {index};
      ok := Visit(objects[index], longer);
      if !ok {
        return;
      }
      CoveredRanks(longer, objects[index]);
      Leaving(top, objects, path, reached, active, rank, index);
      active := active - {index};
      rank := rank[index := |reached|];
      reached := reached + {index};
    }

    lemma Flaw(path: seq<nat>, index: nat)
      requires Valid(path) && index != 0 && FromLast(top, objects, path, index)
      requires index >= |objects| || index in active
      ensures Flawed()
    {
      Extend(top, objects, path, index);
      var longer := path + [index];
      if index in active {
        var k :| 0 <= k < |path| && path[k] == index;
        assert longer[k] == longer[|path|];
      } else {
        assert longer[|longer| - 1] == index;
      }
    }

    lemma CoveredRanks(path: seq<nat>, v: Value)
      requires Valid(path) && Covers(v)
      ensures RanksBelow(v, rank, |reached|)
    {
    }
  }

  /** Walks stay inside the finished objects, with falling rank. */
  lemma {:induction false} WalksFall(top: Value, objects: seq<Value>, reached: set<nat>, rank: map<nat, nat>, p: seq<nat>)
    requires Finished(objects, reached, rank)
    requires forall j :: j != 0 && Refers(top, j) ==> j in reached
    requires IsPath(top, objects, p)
    ensures forall k :: 0 <= k < |p| ==> p[k] in reached
    ensures forall i, k :: 0 <= i < k < |p| ==> rank[p[k]] < rank[p[i]]
    decreases |p|
  {
    if p != [] {
      var n := |p| - 1;
      WalksFall(top, objects, reached, rank, p[..n]);
      assert FromLast(top, objects, p[..n], p[n]);
      if n > 0 {
        assert p[..n][n - 1] in reached && RanksBelow(objects[p[n - 1]], rank, rank[p[n - 1]]);
        forall i | 0 <= i < n
          ensures rank[p[n]] < rank[p[i]]
        {
          assert p[..n][i] == p[i] && p[..n][n - 1] == p[n - 1];
        }
      }
    }
  }

  /** The search decides the specification: it accepts an archive exactly if it is well formed. */
  method ValidateReachability(top: Value, objects: seq<Value>) returns (ok: bool)
    requires objects != []
    ensures ok <==> WellFormed(top, objects)
  {
    var traversal := new Traversal(top, objects);
    ok := traversal.Visit(top, []);
    if ok {
      Decided(top, objects, traversal.reached, traversal.rank);
      ok := traversal.reached == Indices(|objects|);
    } else {
      FlawedIsIllFormed(traversal);
    }
  }

  lemma FlawedIsIllFormed(t: Traversal)
    requires t.Flawed()
    ensures !WellFormed(t.top, t.objects)
  {
    var p :| IsPath(t.top, t.objects, p) && (Repeats(p) || (p != [] && p[|p| - 1] >= |t.objects|));
    if !Repeats(p) {
      assert Met(t.top, t.objects, p[|p| - 1]);
    }
  }

  lemma FallingIsSimple(objects: seq<Value>, reached: set<nat>, rank: map<nat, nat>, p: seq<nat>)
    requires Finished(objects, reached, rank)
    requires forall k :: 0 <= k < |p| ==> p[k] in reached
    requires forall i, k :: 0 <= i < k < |p| ==> rank[p[k]] < rank[p[i]]
    ensures !Repeats(p) && reached <= Indices(|objects|)
  {
  }

  /** A search that ran to its end has finished exactly the objects that are met. */
  lemma Decided(top: Value, objects: seq<Value>, reached: set<nat>, rank: map<nat, nat>)
    requires Consistent(top, objects, [], reached, {}, rank)
    requires forall j :: j != 0 && Refers(top, j) ==> j in reached
    ensures reached == Indices(|objects|) <==> WellFormed(top, objects)
  {
    hide IsPath, Repeats, Finished;
    forall p | IsPath(top, objects, p)
      ensures !Repeats(p) && forall k :: 0 <= k < |p| ==> p[k] in reached
    {
      WalksFall(top, objects, reached, rank, p);
      FallingIsSimple(objects, reached, rank, p);
    }
    forall i: nat | Met(top, objects, i)
      ensures i in reached
    {
      var p :| IsPath(top, objects, p) && p != [] && p[|p| - 1] == i;
      assert p[|p| - 1] in reached;
    }
    hide Met;
    assert reached <= Indices(|objects|) by { FallingIsSimple(objects, reached, rank, []); }
  }
}
