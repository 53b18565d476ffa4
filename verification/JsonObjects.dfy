/** Two objects are equal exactly when they hold equal values under every key. */
module JsonObjects {
  import opened JsonValues

  // Keys of ms that are not in ns.
  function KeysOutside(ms: seq<Member>, ns: seq<Member>): seq<string> {
    if ms == [] then []
    else if Get(ns, ms[0].key).Some? then KeysOutside(ms[1..], ns)
    else [ms[0].key] + KeysOutside(ms[1..], ns)
  }

  function Keys(ms: seq<Member>): seq<string> { KeysOutside(ms, []) }

  lemma {:induction false} KeysOutsideAre(ms: seq<Member>, ns: seq<Member>)
    requires DistinctKeys(ms)
    ensures Distinct(KeysOutside(ms, ns))
    ensures forall k :: k in KeysOutside(ms, ns) <==> Get(ms, k).Some? && Get(ns, k).None?
  {
    if ms != [] {
      KeysOutsideAre(ms[1..], ns);
      var first := ms[0];
      assert Get(ms[1..], first.key).None? by {
        forall m | m in ms[1..] ensures m.key != first.key {}
      }
    }
  }

  lemma {:induction false} DistinctCounts(keys: seq<string>, k: string)
    requires Distinct(keys)
    ensures multiset(keys)[k] == if k in keys then 1 else 0
  {
    if keys != [] {
      DistinctCounts(keys[1..], k);
      assert keys == [keys[0]] + keys[1..];
    }
  }

  lemma DistinctSameMembers(a: seq<string>, b: seq<string>)
    requires Distinct(a) && Distinct(b) && forall k :: k in a <==> k in b
    ensures multiset(a) == multiset(b)
  {
    forall k ensures multiset(a)[k] == multiset(b)[k] {
      DistinctCounts(a, k);
      DistinctCounts(b, k);
    }
  }

  lemma {:induction false} KeysLength(ms: seq<Member>)
    ensures |Keys(ms)| == |ms|
  {
    if ms != [] { KeysLength(ms[1..]); }
  }

  // What two objects hold under a key is equal, or missing from both.
  ghost predicate SameAt(left: Json, right: Json, k: string)
    requires left.Obj? && right.Obj?
  {
    match (Get(left.members, k), Get(right.members, k))
    case (None, None) => true
    case (Some(l), Some(r)) => Same(l, r)
    case _ => false
  }

  lemma SameObjectsAgree(left: Json, right: Json, k: string)
    requires left.Obj? && right.Obj? && WellFormed(left) && WellFormed(right) && Same(left, right)
    ensures SameAt(left, right, k)
  {
    CanonDecidesSame(left, right);
    GetCommutesWithCanon(left.members, k);
    GetCommutesWithCanon(right.members, k);
    match (Get(left.members, k), Get(right.members, k))
    case (Some(l), Some(r)) => CanonDecidesSame(l, r);
    case _ =>
  }

  lemma AgreeingObjectsAreSame(left: Json, right: Json)
    requires left.Obj? && right.Obj? && WellFormed(left) && WellFormed(right)
    requires forall k :: SameAt(left, right, k)
    ensures Same(left, right)
  {
    var ms, ns := left.members, right.members;
    forall m | m in ms ensures exists n | n in ns :: n.key == m.key && Same(m.value, n.value) {
      GetOfMember(ms, m);
      assert SameAt(left, right, m.key);
      assert Member(m.key, Get(ns, m.key).value) in ns;
    }
    KeysOutsideAre(ms, []);
    KeysOutsideAre(ns, []);
    forall k ensures k in Keys(ms) <==> k in Keys(ns) { assert SameAt(left, right, k); }
    DistinctSameMembers(Keys(ms), Keys(ns));
    KeysLength(ms);
    KeysLength(ns);
    assert |multiset(Keys(ms))| == |multiset(Keys(ns))|;
  }

  lemma ObjectsAreSameIff(left: Json, right: Json)
    requires left.Obj? && right.Obj? && WellFormed(left) && WellFormed(right)
    ensures Same(left, right) <==> forall k :: SameAt(left, right, k)
  {
    if Same(left, right) { forall k ensures SameAt(left, right, k) { SameObjectsAgree(left, right, k); } }
    if forall k :: SameAt(left, right, k) { AgreeingObjectsAreSame(left, right); }
  }
}
