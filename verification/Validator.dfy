/**
 * Layer 0: the cycle-detecting validator, over object graphs rather than trees.
 *
 * A heap maps object identities to contents, so values may share substructure or
 * close a cycle. `seen` is the mutable set of objects on the current path.
 */
module Validator {
  import opened Wrappers
  import opened Text
  import opened NumberText
  import opened Sorting
  import opened CanonicalJson

  datatype Value =
    | NullValue
    | Boolean(flag: bool)
    | FiniteNumber(number: Number)
    | NonFiniteNumber
    | JsText(text: JsString)
    | Undefined
    | BigInt
    | FunctionOrSymbol
    | Ref(id: nat)

  datatype Object =
    | DateObject
    | MapOrSet
    | ArrayObject(items: seq<Value>)
    | PlainObject(members: seq<(JsString, Value)>)
    | ClassInstance

  type Heap = map<nat, Object>

  datatype Step = Index(i: nat) | Key(key: JsString)

  type Trail = seq<Step>

  datatype Verdict = Accepted | NonCanonicalizable(at: Trail)

  function MemberKeys(members: seq<(JsString, Value)>): (ks: seq<JsString>)
    ensures |ks| == |members| && forall i :: 0 <= i < |ks| ==> ks[i] == members[i].0
  {
    seq(|members|, i requires 0 <= i < |members| => members[i].0)
  }

  /** References lead somewhere, numbers are in shortest form, an object has a key once. */
  ghost predicate InHeap(h: Heap, v: Value) {
    (v.Ref? ==> v.id in h) && (v.FiniteNumber? ==> ValidNumber(v.number))
  }

  ghost predicate WellTyped(h: Heap) {
    forall id :: id in h ==>
      match h[id]
      case ArrayObject(items) => forall i :: 0 <= i < |items| ==> InHeap(h, items[i])
      case PlainObject(members) =>
        NoDuplicates(MemberKeys(members)) && forall i :: 0 <= i < |members| ==> InHeap(h, members[i].1)
      case _ => true
  }

  // --- what is reachable ------------------------------------------------------------

  /** One step from a value to a part of it. */
  ghost function Child(h: Heap, v: Value, step: Step): Option<Value> {
    if !v.Ref? || v.id !in h then None
    else match (h[v.id], step)
      case (ArrayObject(items), Index(i)) => if i < |items| then Some(items[i]) else None
      case (PlainObject(members), Key(k)) =>
        if exists i :: 0 <= i < |members| && members[i].0 == k then
          var i :| 0 <= i < |members| && members[i].0 == k;
          Some(members[i].1)
        else None
      case _ => None
  }

  ghost function Follow(h: Heap, v: Value, trail: Trail): Option<Value>
    decreases |trail|
  {
    if trail == [] then Some(v)
    else match Child(h, v, trail[0])
      case None => None
      case Some(w) => Follow(h, w, trail[1..])
  }

  /** What no canonical value may contain, wherever it sits. */
  ghost predicate Faulty(h: Heap, v: Value) {
    match v
    case NullValue => false
    case Boolean(_) => false
    case FiniteNumber(_) => false
    case NonFiniteNumber => true
    case JsText(s) => !WellFormed(s)
    case Undefined => true
    case BigInt => true
    case FunctionOrSymbol => true
    case Ref(id) =>
      id in h &&
      match h[id]
      case ArrayObject(_) => false
      case PlainObject(members) => exists i :: 0 <= i < |members| && !WellFormed(members[i].0)
      case _ => true
  }

  ghost predicate ReachesFault(h: Heap, v: Value) {
    exists p: Trail :: Follow(h, v, p).Some? && Faulty(h, Follow(h, v, p).value)
  }

  /** Some object reachable from `v` is reachable from itself in one step or more. */
  ghost predicate ReachesCycle(h: Heap, v: Value) {
    exists p: Trail, q: Trail :: q != [] && ClosesCycle(h, v, p, q)
  }

  ghost predicate ClosesCycle(h: Heap, v: Value, p: Trail, q: Trail) {
    Follow(h, v, p).Some? && Follow(h, v, p).value.Ref? && Follow(h, v, p + q) == Follow(h, v, p)
  }

  // --- what the code decides -----------------------------------------------------------

  ghost predicate Acceptable(h: Heap, v: Value, seen: set<nat>)
    requires WellTyped(h) && InHeap(h, v)
    decreases h.Keys - seen
  {
    if v.Ref? then
      && v.id !in seen
      && match h[v.id]
         case ArrayObject(items) => forall i :: 0 <= i < |items| ==> Acceptable(h, items[i], seen + {v.id})
         case PlainObject(members) =>
           forall i :: 0 <= i < |members| ==>
             WellFormed(members[i].0) && Acceptable(h, members[i].1, seen + {v.id})
         case _ => false
    else !Faulty(h, v)
  }

  class SeenSet {
    var members: set<nat>

    constructor ()
      ensures members == {}
    {
      members := {};
    }
  }

  /** Where the refusal points: at a fault, or at an object already on the path. */
  ghost predicate RefusedAt(h: Heap, v: Value, seen: set<nat>, p: Trail) {
    var w := Follow(h, v, p);
    && w.Some?
    && (Faulty(h, w.value) || (w.value.Ref? && (w.value.id in seen || exists k :: 0 <= k < |p| && Follow(h, v, p[..k]) == w)))
  }

  /**
   * Restores `seen` on acceptance and on refusal alike; terminates because every
   * nested call has one more object on the path.
   */
  method AssertCanonicalizableJson(h: Heap, value: Value, at: Trail, seen: SeenSet) returns (r: Verdict)
    requires WellTyped(h) && InHeap(h, value)
    modifies seen
    decreases h.Keys - seen.members, 0
    ensures seen.members == old(seen.members)
    ensures r.Accepted? <==> Acceptable(h, value, old(seen.members))
    ensures r.NonCanonicalizable? ==> at <= r.at && RefusedAt(h, value, old(seen.members), r.at[|at|..])
  {
    ghost var before := seen.members;
    match value {
      case NullValue => return Accepted;
      case Boolean(_) => return Accepted;
      case FiniteNumber(_) => return Accepted;
      case JsText(s) =>
        if WellFormed(s) { return Accepted; }
        return NonCanonicalizable(at);
      case Ref(id) =>
        if id in seen.members || h[id].DateObject? || h[id].MapOrSet? {
          return NonCanonicalizable(at);
        }
        seen.members := seen.members + {id};
        match h[id] {
          case ArrayObject(items) => r := CheckItems(h, id, items, at, seen);
          case PlainObject(members) => r := CheckMembers(h, id, members, at, seen);
          case _ => r := NonCanonicalizable(at);
        }
        seen.members := seen.members - {id};
        assert seen.members == before;
      case _ => return NonCanonicalizable(at);
    }
  }

  method CheckItems(h: Heap, id: nat, items: seq<Value>, at: Trail, seen: SeenSet) returns (r: Verdict)
    requires WellTyped(h) && id in h && h[id] == ArrayObject(items) && id in seen.members
    modifies seen
    decreases h.Keys - seen.members, 1
    ensures seen.members == old(seen.members)
    ensures r.Accepted? <==> forall i :: 0 <= i < |items| ==> Acceptable(h, items[i], old(seen.members))
    ensures r.NonCanonicalizable? ==>
              at <= r.at && RefusedAt(h, Ref(id), old(seen.members) - {id}, r.at[|at|..])
  {
    ghost var before := seen.members;
    r := Accepted;
    for i := 0 to |items|
      invariant seen.members == before && r.Accepted?
      invariant forall j :: 0 <= j < i ==> Acceptable(h, items[j], before)
    {
      r := AssertCanonicalizableJson(h, items[i], at + [Index(i)], seen);
      if r.NonCanonicalizable? {
        RefusalExtends(h, id, Index(i), items[i], before, r.at[|at| + 1..]);
        assert r.at[|at|..] == [Index(i)] + r.at[|at| + 1..];
        return;
      }
    }
  }

  method CheckMembers(h: Heap, id: nat, members: seq<(JsString, Value)>, at: Trail, seen: SeenSet) returns (r: Verdict)
    requires WellTyped(h) && id in h && h[id] == PlainObject(members) && id in seen.members
    modifies seen
    decreases h.Keys - seen.members, 1
    ensures seen.members == old(seen.members)
    ensures r.Accepted? <==>
              forall i :: 0 <= i < |members| ==> WellFormed(members[i].0) && Acceptable(h, members[i].1, old(seen.members))
    ensures r.NonCanonicalizable? ==>
              at <= r.at && RefusedAt(h, Ref(id), old(seen.members) - {id}, r.at[|at|..])
  {
    ghost var before := seen.members;
    r := Accepted;
    for i := 0 to |members|
      invariant seen.members == before && r.Accepted?
      invariant forall j :: 0 <= j < i ==> WellFormed(members[j].0) && Acceptable(h, members[j].1, before)
    {
      var (key, v) := members[i];
      if !WellFormed(key) {
        assert Faulty(h, Ref(id));
        return NonCanonicalizable(at);
      }
      r := AssertCanonicalizableJson(h, v, at + [Key(key)], seen);
      if r.NonCanonicalizable? {
        ChildAtKey(h, id, members, i);
        RefusalExtends(h, id, Key(key), v, before, r.at[|at| + 1..]);
        assert r.at[|at|..] == [Key(key)] + r.at[|at| + 1..];
        return;
      }
    }
  }

  lemma ChildAtKey(h: Heap, id: nat, members: seq<(JsString, Value)>, i: nat)
    requires WellTyped(h) && id in h && h[id] == PlainObject(members) && i < |members|
    ensures Child(h, Ref(id), Key(members[i].0)) == Some(members[i].1)
  {
    var ks := MemberKeys(members);
    assert forall j :: 0 <= j < |members| && members[j].0 == members[i].0 ==> ks[j] == ks[i];
  }

  lemma RefusalExtends(h: Heap, id: nat, step: Step, w: Value, seen: set<nat>, p: Trail)
    requires Child(h, Ref(id), step) == Some(w) && id in seen && RefusedAt(h, w, seen, p)
    ensures RefusedAt(h, Ref(id), seen - {id}, [step] + p)
  {
    var v, q := Ref(id), [step] + p;
    assert q[1..] == p;
    var target := Follow(h, w, p);
    assert Follow(h, v, q) == target;
    if !Faulty(h, target.value) && target.value.id !in seen - {id} {
      if target.value.id == id {
        assert Follow(h, v, q[..0]) == target;
      } else {
        var k :| 0 <= k < |p| && Follow(h, w, p[..k]) == target;
        assert q[..k + 1] == [step] + p[..k] && q[..k + 1][1..] == p[..k];
        assert Follow(h, v, q[..k + 1]) == target;
      }
    }
  }

  // --- the decision is the right one ------------------------------------------------------

  lemma ChildInHeap(h: Heap, v: Value, step: Step)
    requires WellTyped(h) && InHeap(h, v) && Child(h, v, step).Some?
    ensures v.Ref? && InHeap(h, Child(h, v, step).value)
  {
  }

  /** Everything below an accepted value was accepted in turn, with its ancestors on the path. */
  lemma {:induction false} AcceptedBelow(h: Heap, v: Value, seen: set<nat>, p: Trail) returns (s: set<nat>)
    requires WellTyped(h) && InHeap(h, v) && Acceptable(h, v, seen) && Follow(h, v, p).Some?
    ensures InHeap(h, Follow(h, v, p).value) && Acceptable(h, Follow(h, v, p).value, s)
    ensures seen <= s && (p != [] ==> v.Ref? && v.id in s)
    decreases |p|
  {
    s := seen;
    if p != [] {
      ChildInHeap(h, v, p[0]);
      s := AcceptedBelow(h, Child(h, v, p[0]).value, seen + {v.id}, p[1..]);
    }
  }

  lemma {:induction false} FollowConcat(h: Heap, v: Value, p: Trail, q: Trail)
    requires Follow(h, v, p).Some?
    ensures Follow(h, v, p + q) == Follow(h, Follow(h, v, p).value, q)
    decreases |p|
  {
    if p == [] {
      assert p + q == q;
    } else {
      assert (p + q)[1..] == p[1..] + q;
      FollowConcat(h, Child(h, v, p[0]).value, p[1..], q);
    }
  }

  /** A refusal always has a witness that can be reached. */
  lemma {:induction false} RefusalWitness(h: Heap, v: Value, seen: set<nat>) returns (p: Trail)
    requires WellTyped(h) && InHeap(h, v) && !Acceptable(h, v, seen)
    ensures RefusedAt(h, v, seen, p)
    decreases h.Keys - seen
  {
    p := [];
    if v.Ref? && v.id !in seen && !Faulty(h, v) {
      var inside := seen + {v.id};
      assert inside - {v.id} == seen;
      match h[v.id]
      case ArrayObject(items) =>
        var i :| 0 <= i < |items| && !Acceptable(h, items[i], inside);
        var q := RefusalWitness(h, items[i], inside);
        RefusalExtends(h, v.id, Index(i), items[i], inside, q);
        p := [Index(i)] + q;
      case PlainObject(members) =>
        var i :| 0 <= i < |members| && !Acceptable(h, members[i].1, inside);
        var q := RefusalWitness(h, members[i].1, inside);
        ChildAtKey(h, v.id, members, i);
        RefusalExtends(h, v.id, Key(members[i].0), members[i].1, inside, q);
        p := [Key(members[i].0)] + q;
    }
  }

  /**
   * A value is accepted exactly when it reaches no fault and no cycle. Substructure
   * that is shared without closing a cycle is accepted.
   */
  lemma {:induction false} AcceptanceExact(h: Heap, v: Value)
    requires WellTyped(h) && InHeap(h, v)
    ensures Acceptable(h, v, {}) <==> !ReachesFault(h, v) && !ReachesCycle(h, v)
  {
    if Acceptable(h, v, {}) {
      forall p: Trail | Follow(h, v, p).Some? ensures !Faulty(h, Follow(h, v, p).value) {
        var s := AcceptedBelow(h, v, {}, p);
      }
      forall p: Trail, q: Trail | q != [] ensures !ClosesCycle(h, v, p, q) {
        if ClosesCycle(h, v, p, q) {
          var s := AcceptedBelow(h, v, {}, p);
          FollowConcat(h, v, p, q);
          var t := AcceptedBelow(h, Follow(h, v, p).value, s, q);
          assert false;
        }
      }
    } else {
      var p := RefusalWitness(h, v, {});
      if !Faulty(h, Follow(h, v, p).value) {
        var k :| 0 <= k < |p| && Follow(h, v, p[..k]) == Follow(h, v, p);
        assert p[..k] + p[k..] == p;
        assert ClosesCycle(h, v, p[..k], p[k..]);
      }
    }
  }

  // --- what layer 2 then receives ------------------------------------------------------------

  /** The JSON value an accepted graph stands for: sharing is unfolded. */
  ghost function Unfold(h: Heap, v: Value, seen: set<nat>): Json
    requires WellTyped(h) && InHeap(h, v) && Acceptable(h, v, seen)
    decreases h.Keys - seen
  {
    match v
    case NullValue => Null
    case Boolean(b) => Bool(b)
    case FiniteNumber(n) => Num(n)
    case JsText(s) => Str(s)
    case Ref(id) =>
      match h[id]
      case ArrayObject(items) =>
        Arr(seq(|items|, i requires 0 <= i < |items| => Unfold(h, items[i], seen + {id})))
      case PlainObject(members) =>
        Obj(seq(|members|, i requires 0 <= i < |members| => (members[i].0, Unfold(h, members[i].1, seen + {id}))))
  }

  /** Validation delivers exactly what canonicalization asks for. */
  lemma {:induction false} UnfoldValid(h: Heap, v: Value, seen: set<nat>)
    requires WellTyped(h) && InHeap(h, v) && Acceptable(h, v, seen)
    ensures Valid(Unfold(h, v, seen))
    decreases h.Keys - seen
  {
    if v.Ref? {
      match h[v.id]
      case ArrayObject(items) =>
        forall i | 0 <= i < |items| ensures Valid(Unfold(h, items[i], seen + {v.id})) {
          UnfoldValid(h, items[i], seen + {v.id});
        }
      case PlainObject(members) =>
        forall i | 0 <= i < |members| ensures Valid(Unfold(h, members[i].1, seen + {v.id})) {
          UnfoldValid(h, members[i].1, seen + {v.id});
        }
        assert Keys(Unfold(h, v, seen).members) == MemberKeys(members);
    }
  }

  /** The path taken to an object does not show in what it stands for. */
  lemma {:induction false} UnfoldIgnoresPath(h: Heap, v: Value, seen: set<nat>, other: set<nat>)
    requires WellTyped(h) && InHeap(h, v) && Acceptable(h, v, seen) && Acceptable(h, v, other)
    ensures Unfold(h, v, seen) == Unfold(h, v, other)
    decreases h.Keys - seen
  {
    if v.Ref? {
      match h[v.id]
      case ArrayObject(items) =>
        forall i | 0 <= i < |items|
          ensures Unfold(h, items[i], seen + {v.id}) == Unfold(h, items[i], other + {v.id})
        {
          UnfoldIgnoresPath(h, items[i], seen + {v.id}, other + {v.id});
        }
      case PlainObject(members) =>
        forall i | 0 <= i < |members|
          ensures Unfold(h, members[i].1, seen + {v.id}) == Unfold(h, members[i].1, other + {v.id})
        {
          UnfoldIgnoresPath(h, members[i].1, seen + {v.id}, other + {v.id});
        }
    }
  }
}
