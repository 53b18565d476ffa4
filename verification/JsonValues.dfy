/** JSON values as the program holds them: dicts are member lists in insertion order.
    Fractions and exponents are not modelled; every number is an integer. */
module JsonValues {
  import opened Sorting

  datatype Option<+T> = None | Some(value: T)

  datatype Member = Member(key: string, value: Json)

  datatype Json =
    | Null
    | Bool(b: bool)
    | Int(n: int)
    | Str(s: string)
    | Arr(items: seq<Json>)
    | Obj(members: seq<Member>)

  predicate DistinctKeys(ms: seq<Member>) {
    forall i, j | 0 <= i < j < |ms| :: ms[i].key != ms[j].key
  }

  // What a Python value can be: no dict holds a key twice.
  predicate WellFormed(v: Json) {
    match v
    case Arr(items) => forall x | x in items :: WellFormed(x)
    case Obj(ms) => DistinctKeys(ms) && forall m | m in ms :: WellFormed(m.value)
    case _ => true
  }

  // dict.get
  function Get(ms: seq<Member>, key: string): (r: Option<Json>)
    ensures r.None? <==> forall m | m in ms :: m.key != key
    ensures r.Some? ==> Member(key, r.value) in ms
  {
    if ms == [] then None
    else if ms[0].key == key then Some(ms[0].value)
    else Get(ms[1..], key)
  }

  // d[key] = value: replaces in place, or appends a new member.
  function Put(ms: seq<Member>, key: string, value: Json): seq<Member> {
    if ms == [] then [Member(key, value)]
    else if ms[0].key == key then [Member(key, value)] + ms[1..]
    else [ms[0]] + Put(ms[1..], key, value)
  }

  /** Put sets one key and leaves every other lookup alone. */
  lemma {:induction false} GetAfterPut(ms: seq<Member>, key: string, value: Json, k: string)
    ensures Get(Put(ms, key, value), k) == if k == key then Some(value) else Get(ms, k)
  {
    if ms == [] {
      assert [Member(key, value)][1..] == [];
    } else if ms[0].key == key {
      assert ([Member(key, value)] + ms[1..])[1..] == ms[1..];
    } else {
      GetAfterPut(ms[1..], key, value, k);
      assert ([ms[0]] + Put(ms[1..], key, value))[1..] == Put(ms[1..], key, value);
    }
  }

  lemma {:induction false} PutKeepsDistinct(ms: seq<Member>, key: string, value: Json)
    requires DistinctKeys(ms)
    ensures DistinctKeys(Put(ms, key, value))
    ensures forall m | m in Put(ms, key, value) :: m == Member(key, value) || (m in ms && m.key != key)
  {
    if ms == [] {
    } else if ms[0].key == key {
      forall m | m in ms[1..] ensures m.key != key {}
    } else {
      PutKeepsDistinct(ms[1..], key, value);
    }
  }

  lemma {:induction false} GetOfMember(ms: seq<Member>, m: Member)
    requires DistinctKeys(ms) && m in ms
    ensures Get(ms, m.key) == Some(m.value)
  {
  }

  /** Equal values, types included: dicts compare without regard to insertion order, and True is not 1. */
  ghost predicate Same(a: Json, b: Json) {
    if a.Arr? && b.Arr? then
      |a.items| == |b.items| && forall i | 0 <= i < |a.items| :: Same(a.items[i], b.items[i])
    else if a.Obj? && b.Obj? then
      |a.members| == |b.members|
      && forall m | m in a.members :: exists n | n in b.members :: n.key == m.key && Same(m.value, n.value)
    else
      a == b
  }

  predicate KeyLe(a: Member, b: Member) { StringLe(a.key, b.key) }

  lemma KeyLeIsPreorder()
    ensures TotalPreorder(KeyLe)
  {
    forall x, y ensures KeyLe(x, y) || KeyLe(y, x) { StringLeIsTotal(x.key, y.key); }
    forall x, y, z | KeyLe(x, y) && KeyLe(y, z) ensures KeyLe(x, z) {
      StringLeIsTransitive(x.key, y.key, z.key);
    }
  }

  lemma DistinctKeysHaveNoTies(ms: seq<Member>)
    requires DistinctKeys(ms)
    ensures NoTies(ms, KeyLe)
  {
    forall x, y | x in ms && y in ms && KeyLe(x, y) && KeyLe(y, x) ensures x == y {
      StringLeIsTotal(x.key, y.key);
      GetOfMember(ms, x);
      GetOfMember(ms, y);
    }
  }

  /** The value with the members of every object sorted by key. */
  function Canon(v: Json): Json {
    match v
    case Arr(items) => Arr(seq(|items|, i requires 0 <= i < |items| => Canon(items[i])))
    case Obj(ms) => Obj(Sort(CanonMembers(ms), KeyLe))
    case _ => v
  }

  function CanonMembers(ms: seq<Member>): (r: seq<Member>)
    ensures |r| == |ms|
    ensures forall i | 0 <= i < |ms| :: r[i] == Member(ms[i].key, Canon(ms[i].value))
  {
    seq(|ms|, i requires 0 <= i < |ms| => Member(ms[i].key, Canon(ms[i].value)))
  }

  lemma {:induction false} InsertKeepsDistinct(x: Member, ms: seq<Member>)
    requires DistinctKeys(ms) && forall m | m in ms :: m.key != x.key
    ensures DistinctKeys(Insert(x, ms, KeyLe))
  {
    if ms == [] || KeyLe(x, ms[0]) {
    } else {
      InsertKeepsDistinct(x, ms[1..]);
      var r := Insert(x, ms[1..], KeyLe);
      InsertKeeps(x, ms[1..], KeyLe);
      SameMembers(r, [x] + ms[1..]);
      ConsKeepsDistinct(ms[0], r);
    }
  }

  lemma ConsKeepsDistinct(x: Member, ms: seq<Member>)
    requires DistinctKeys(ms) && forall m | m in ms :: m.key != x.key
    ensures DistinctKeys([x] + ms)
  {
  }

  lemma {:induction false} SortKeepsDistinct(ms: seq<Member>)
    requires DistinctKeys(ms)
    ensures DistinctKeys(Sort(ms, KeyLe))
  {
    if ms == [] {
    } else {
      SortKeepsDistinct(ms[1..]);
      KeyLeIsPreorder();
      SortIsSortedPermutation(ms[1..], KeyLe);
      InsertKeepsDistinct(ms[0], Sort(ms[1..], KeyLe));
    }
  }

  lemma {:induction false} CanonIsWellFormed(v: Json)
    requires WellFormed(v)
    ensures WellFormed(Canon(v))
  {
    match v
    case Arr(items) =>
      forall i | 0 <= i < |items| ensures WellFormed(Canon(items[i])) { CanonIsWellFormed(items[i]); }
    case Obj(ms) =>
      var cs := CanonMembers(ms);
      SortKeepsDistinct(cs);
      KeyLeIsPreorder();
      SortIsSortedPermutation(cs, KeyLe);
      forall m | m in Sort(cs, KeyLe) ensures WellFormed(m.value) {
        var i :| 0 <= i < |cs| && cs[i] == m;
        assert ms[i] in ms;
        CanonIsWellFormed(ms[i].value);
      }
    case _ =>
  }

  lemma {:induction false} KeysOccurOnce(ms: seq<Member>, m: Member)
    requires DistinctKeys(ms)
    ensures multiset(ms)[m] <= 1
  {
    if ms != [] {
      KeysOccurOnce(ms[1..], m);
      assert ms == [ms[0]] + ms[1..];
      if m == ms[0] {
        forall x | x in ms[1..] ensures x != m {}
        assert m !in multiset(ms[1..]);
      }
    }
  }

  // Equal lengths and distinct keys: inclusion of members is permutation.
  lemma IncludedIsPermutation(a: seq<Member>, b: seq<Member>)
    requires DistinctKeys(a) && |a| == |b|
    requires forall m | m in a :: m in b
    ensures multiset(a) == multiset(b)
  {
    var A, B := multiset(a), multiset(b);
    forall m ensures A[m] <= B[m] {
      KeysOccurOnce(a, m);
      if m in A { assert m in b; assert m in B; }
    }
    assert A <= B;
    assert |B - A| == 0;
  }

  /** Sorting keys at every level is a complete invariant of equality, types included. */
  lemma {:induction false} CanonDecidesSame(a: Json, b: Json)
    requires WellFormed(a) && WellFormed(b)
    ensures Same(a, b) <==> Canon(a) == Canon(b)
    decreases a
  {
    if a.Arr? && b.Arr? {
      forall i | 0 <= i < |a.items| && i < |b.items|
        ensures Same(a.items[i], b.items[i]) <==> Canon(a).items[i] == Canon(b).items[i]
      {
        CanonDecidesSame(a.items[i], b.items[i]);
      }
      if Canon(a) == Canon(b) {
        assert |Canon(a).items| == |a.items| && |Canon(b).items| == |b.items|;
        forall i | 0 <= i < |a.items| ensures Same(a.items[i], b.items[i]) {
          assert Canon(a).items[i] == Canon(b).items[i];
        }
      }
    } else if a.Obj? && b.Obj? {
      CanonDecidesSameObject(a, b);
    }
  }

  lemma {:induction false} CanonDecidesSameObject(a: Json, b: Json)
    requires WellFormed(a) && WellFormed(b) && a.Obj? && b.Obj?
    ensures Same(a, b) <==> Canon(a) == Canon(b)
    decreases a, 0
  {
    var ms, ns := a.members, b.members;
    forall m, n | m in ms && n in ns
      ensures Same(m.value, n.value) <==> Canon(m.value) == Canon(n.value)
    {
      CanonDecidesSame(m.value, n.value);
    }
    if Same(a, b) {
      forall m | m in ms ensures exists n | n in ns :: n.key == m.key && Canon(n.value) == Canon(m.value) {
        var n :| n in ns && n.key == m.key && Same(m.value, n.value);
      }
      MatchingMembersCanonEqual(ms, ns);
    }
    if Canon(a) == Canon(b) {
      assert |Canon(a).members| == |ms| && |Canon(b).members| == |ns|;
      forall m | m in ms ensures exists n | n in ns :: n.key == m.key && Same(m.value, n.value) {
        var n := CanonEqualMembersMatch(ms, ns, m);
      }
    }
  }

  lemma MatchingMembersCanonEqual(ms: seq<Member>, ns: seq<Member>)
    requires DistinctKeys(ms) && DistinctKeys(ns) && |ms| == |ns|
    requires forall m | m in ms :: exists n | n in ns :: n.key == m.key && Canon(n.value) == Canon(m.value)
    ensures Sort(CanonMembers(ms), KeyLe) == Sort(CanonMembers(ns), KeyLe)
  {
    var cs, ds := CanonMembers(ms), CanonMembers(ns);
    forall c | c in cs ensures c in ds {
      var i :| 0 <= i < |cs| && cs[i] == c;
      assert ms[i] in ms;
      var n :| n in ns && n.key == ms[i].key && Canon(n.value) == Canon(ms[i].value);
      var j :| 0 <= j < |ns| && ns[j] == n;
      assert ds[j] == c;
    }
    IncludedIsPermutation(cs, ds);
    DistinctKeysHaveNoTies(cs);
    KeyLeIsPreorder();
    SortIgnoresOrder(cs, ds, KeyLe);
  }

  lemma CanonEqualMembersMatch(ms: seq<Member>, ns: seq<Member>, m: Member) returns (n: Member)
    requires Sort(CanonMembers(ms), KeyLe) == Sort(CanonMembers(ns), KeyLe)
    requires m in ms
    ensures n in ns && n.key == m.key && Canon(n.value) == Canon(m.value)
  {
    KeyLeIsPreorder();
    SortIsSortedPermutation(CanonMembers(ms), KeyLe);
    SortIsSortedPermutation(CanonMembers(ns), KeyLe);
    var i :| 0 <= i < |ms| && ms[i] == m;
    var c := CanonMembers(ms)[i];
    assert c in CanonMembers(ns);
    var j :| 0 <= j < |ns| && CanonMembers(ns)[j] == c;
    n := ns[j];
  }

  /** Looking a key up commutes with sorting. */
  lemma GetCommutesWithCanon(ms: seq<Member>, key: string)
    requires DistinctKeys(ms)
    ensures Get(Canon(Obj(ms)).members, key)
         == match Get(ms, key) case None => None case Some(v) => Some(Canon(v))
  {
    var cs := CanonMembers(ms);
    var sorted := Sort(cs, KeyLe);
    SortIsPermutationOfMembers(cs);
    if Get(ms, key).None? {
      forall m | m in sorted ensures m.key != key {
        var i :| 0 <= i < |cs| && cs[i] == m;
        assert ms[i] in ms;
      }
    } else {
      var v := Get(ms, key).value;
      var i :| 0 <= i < |ms| && ms[i] == Member(key, v);
      assert cs[i] in sorted;
      GetOfMember(sorted, cs[i]);
    }
  }

  lemma SortIsPermutationOfMembers(ms: seq<Member>)
    requires DistinctKeys(ms)
    ensures forall m :: m in Sort(ms, KeyLe) <==> m in ms
    ensures DistinctKeys(Sort(ms, KeyLe))
  {
    KeyLeIsPreorder();
    SortIsSortedPermutation(ms, KeyLe);
    SortKeepsDistinct(ms);
  }

  // ---------------------------------------------------------------- records with fixed keys

  ghost predicate Distinct(keys: seq<string>) {
    forall i, j | 0 <= i < j < |keys| :: keys[i] != keys[j]
  }

  // The dict literal with these keys and values.
  function Zip(keys: seq<string>, values: seq<Json>): (ms: seq<Member>)
    requires |keys| == |values|
    ensures |ms| == |keys|
    ensures forall i | 0 <= i < |ms| :: ms[i] == Member(keys[i], values[i])
  {
    seq(|keys|, i requires 0 <= i < |keys| => Member(keys[i], values[i]))
  }

  lemma ZipLookup(keys: seq<string>, values: seq<Json>, i: nat)
    requires |keys| == |values| && Distinct(keys) && i < |keys|
    ensures Get(Zip(keys, values), keys[i]) == Some(values[i])
    ensures Get(Canon(Obj(Zip(keys, values))).members, keys[i]) == Some(Canon(values[i]))
  {
    var ms := Zip(keys, values);
    assert DistinctKeys(ms);
    assert ms[i] in ms;
    GetOfMember(ms, ms[i]);
    GetCommutesWithCanon(ms, keys[i]);
  }

  lemma ZipIsWellFormed(keys: seq<string>, values: seq<Json>)
    requires |keys| == |values| && Distinct(keys)
    requires forall i | 0 <= i < |values| :: WellFormed(values[i])
    ensures WellFormed(Obj(Zip(keys, values)))
  {
  }

  /** In the canonical form the keys of an object rise strictly, and each holds the canonical form of its value. */
  lemma CanonKeysRise(ms: seq<Member>)
    requires DistinctKeys(ms)
    ensures
      var cs := Canon(Obj(ms)).members;
      && (forall i, j | 0 <= i < j < |cs| :: StringLe(cs[i].key, cs[j].key) && cs[i].key != cs[j].key)
      && |cs| == |ms| && forall m | m in ms :: Member(m.key, Canon(m.value)) in cs
  {
    var cs := CanonMembers(ms);
    KeyLeIsPreorder();
    SortIsSortedPermutation(cs, KeyLe);
    SortIsPermutationOfMembers(cs);
    var sorted := Sort(cs, KeyLe);
    forall i, j | 0 <= i < j < |sorted| ensures StringLe(sorted[i].key, sorted[j].key) {
      assert KeyLe(sorted[i], sorted[j]);
    }
    forall m | m in ms ensures Member(m.key, Canon(m.value)) in sorted {
      var i :| 0 <= i < |ms| && ms[i] == m;
      assert cs[i] == Member(m.key, Canon(m.value)) && cs[i] in cs;
    }
  }
}
