/** The structural comparison of a committed report with a current one. */
module JsonDiff {
  import opened JsonValues
  import opened JsonObjects
  import opened Sorting
  import JsonText

  datatype Difference = Difference(path: string, committed: Json, current: Json)

  // Python types: a bool is not an int here.
  predicate SameType(a: Json, b: Json) {
    (a.Null? && b.Null?) || (a.Bool? && b.Bool?) || (a.Int? && b.Int?) || (a.Str? && b.Str?)
    || (a.Arr? && b.Arr?) || (a.Obj? && b.Obj?)
  }

  function AllKeys(ms: seq<Member>, ns: seq<Member>): seq<string> { Sort(Keys(ms) + KeysOutside(ns, ms), StringLe) }

  function KeyPath(path: string, key: string): string { path + "." + key }

  function IndexPath(path: string, i: nat): string { path + "[" + JsonText.NatText(i) + "]" }

  function Diff(left: Json, right: Json, path: string): seq<Difference>
    decreases left, 1, 0
  {
    if !SameType(left, right) then [Difference(path, left, right)]
    else match left
      case Obj(ms) => DiffKeys(left, right, AllKeys(ms, right.members), path)
      case Arr(items) =>
        LengthDiff(|items|, |right.items|, path) + DiffItems(left, right, 0, path)
      case _ => if left != right then [Difference(path, left, right)] else []
  }

  function LengthDiff(m: nat, n: nat, path: string): seq<Difference> {
    if m == n then [] else [Difference(path + ".length", Int(m), Int(n))]
  }

  function DiffKey(left: Json, right: Json, key: string, path: string): seq<Difference>
    requires left.Obj? && right.Obj?
    decreases left, 0, 0
  {
    match (Get(left.members, key), Get(right.members, key))
    case (None, None) => []
    case (None, Some(r)) => [Difference(KeyPath(path, key), Null, r)]
    case (Some(l), None) => [Difference(KeyPath(path, key), l, Null)]
    case (Some(l), Some(r)) => Diff(l, r, KeyPath(path, key))
  }

  function DiffKeys(left: Json, right: Json, keys: seq<string>, path: string): seq<Difference>
    requires left.Obj? && right.Obj?
    decreases left, 0, |keys| + 1
  {
    if keys == [] then [] else DiffKey(left, right, keys[0], path) + DiffKeys(left, right, keys[1..], path)
  }

  function DiffItems(left: Json, right: Json, i: nat, path: string): seq<Difference>
    requires left.Arr? && right.Arr?
    decreases left, 0, |left.items| - i
  {
    if i >= |left.items| || i >= |right.items| then []
    else Diff(left.items[i], right.items[i], IndexPath(path, i)) + DiffItems(left, right, i + 1, path)
  }

  // ---------------------------------------------------------------- empty exactly when equal

  lemma UnsortedKeys(ms: seq<Member>, ns: seq<Member>)
    requires DistinctKeys(ms) && DistinctKeys(ns)
    ensures Distinct(Keys(ms) + KeysOutside(ns, ms))
    ensures forall k :: k in Keys(ms) + KeysOutside(ns, ms) <==> Get(ms, k).Some? || Get(ns, k).Some?
  {
    KeysOutsideAre(ms, []);
    KeysOutsideAre(ns, ms);
    var a, b := Keys(ms), KeysOutside(ns, ms);
    forall i, j | 0 <= i < |a| && 0 <= j < |b| ensures a[i] != b[j] { assert a[i] in a && b[j] in b; }
  }

  lemma {:induction false} StringLeIsPreorder()
    ensures TotalPreorder(StringLe)
  {
    forall x, y ensures StringLe(x, y) || StringLe(y, x) { StringLeIsTotal(x, y); }
    forall x, y, z | StringLe(x, y) && StringLe(y, z) ensures StringLe(x, z) { StringLeIsTransitive(x, y, z); }
  }

  lemma AllKeysAre(ms: seq<Member>, ns: seq<Member>)
    requires DistinctKeys(ms) && DistinctKeys(ns)
    ensures forall k :: k in AllKeys(ms, ns) <==> Get(ms, k).Some? || Get(ns, k).Some?
  {
    UnsortedKeys(ms, ns);
    StringLeIsPreorder();
    SortIsSortedPermutation(Keys(ms) + KeysOutside(ns, ms), StringLe);
  }

  lemma {:induction false} DiffKeysEmptyIff(left: Json, right: Json, keys: seq<string>, path: string)
    requires left.Obj? && right.Obj?
    ensures DiffKeys(left, right, keys, path) == [] <==> forall k | k in keys :: DiffKey(left, right, k, path) == []
  {
    if keys != [] {
      var first, rest := keys[0], keys[1..];
      DiffKeysEmptyIff(left, right, rest, path);
      assert keys == [first] + rest;
      if forall k | k in keys :: DiffKey(left, right, k, path) == [] {
        assert first in keys;
        forall k | k in rest ensures DiffKey(left, right, k, path) == [] { assert k in keys; }
      }
    }
  }

  predicate NoItemDiffers(left: Json, right: Json, k: nat, path: string)
    requires left.Arr? && right.Arr? && k < |left.items| && k < |right.items|
  {
    Diff(left.items[k], right.items[k], IndexPath(path, k)) == []
  }

  lemma {:induction false} DiffItemsEmptyIff(left: Json, right: Json, i: nat, path: string)
    requires left.Arr? && right.Arr?
    ensures DiffItems(left, right, i, path) == [] <==>
      forall k | i <= k < |left.items| && k < |right.items| :: NoItemDiffers(left, right, k, path)
    decreases |left.items| - i
  {
    if i < |left.items| && i < |right.items| {
      DiffItemsEmptyIff(left, right, i + 1, path);
      var nested := Diff(left.items[i], right.items[i], IndexPath(path, i));
      assert DiffItems(left, right, i, path) == nested + DiffItems(left, right, i + 1, path);
      assert nested == [] <==> NoItemDiffers(left, right, i, path);
    }
  }

  lemma DiffKeyEmptyIff(left: Json, right: Json, k: string, path: string)
    requires left.Obj? && right.Obj? && WellFormed(left) && WellFormed(right)
    ensures DiffKey(left, right, k, path) == [] <==> SameAt(left, right, k)
    decreases left, 0
  {
    match (Get(left.members, k), Get(right.members, k))
    case (Some(l), Some(r)) =>
      assert Member(k, l) in left.members && Member(k, r) in right.members;
      DiffEmptyIff(l, r, KeyPath(path, k));
    case _ =>
  }

  /** No differences are reported exactly when the two values are equal, types included. */
  lemma {:induction false} DiffEmptyIff(left: Json, right: Json, path: string)
    requires WellFormed(left) && WellFormed(right)
    ensures Diff(left, right, path) == [] <==> Same(left, right)
    decreases left, 2
  {
    if left.Obj? && right.Obj? {
      DiffObjectsEmptyIff(left, right, path);
    } else if left.Arr? && right.Arr? {
      forall k | 0 <= k < |left.items| && k < |right.items|
        ensures NoItemDiffers(left, right, k, path) <==> Same(left.items[k], right.items[k])
      {
        DiffEmptyIff(left.items[k], right.items[k], IndexPath(path, k));
      }
      DiffItemsEmptyIff(left, right, 0, path);
    }
  }

  lemma {:induction false} DiffObjectsEmptyIff(left: Json, right: Json, path: string)
    requires left.Obj? && right.Obj? && WellFormed(left) && WellFormed(right)
    ensures Diff(left, right, path) == [] <==> Same(left, right)
    decreases left, 1
  {
    var keys := AllKeys(left.members, right.members);
    AllKeysAre(left.members, right.members);
    DiffKeysEmptyIff(left, right, keys, path);
    forall k ensures DiffKey(left, right, k, path) == [] <==> SameAt(left, right, k) {
      DiffKeyEmptyIff(left, right, k, path);
    }
    if Same(left, right) {
      forall k ensures SameAt(left, right, k) { SameObjectsAgree(left, right, k); }
    } else if Diff(left, right, path) == [] {
      forall k ensures SameAt(left, right, k) { if k !in keys { assert Get(left.members, k).None?; } }
      AgreeingObjectsAreSame(left, right);
    }
  }

  // ---------------------------------------------------------------- exchanging the sides

  function Swapped(ds: seq<Difference>): (r: seq<Difference>)
    ensures |r| == |ds| && forall i | 0 <= i < |ds| :: r[i] == Difference(ds[i].path, ds[i].current, ds[i].committed)
  {
    seq(|ds|, i requires 0 <= i < |ds| => Difference(ds[i].path, ds[i].current, ds[i].committed))
  }

  lemma SwappedConcat(a: seq<Difference>, b: seq<Difference>)
    ensures Swapped(a + b) == Swapped(a) + Swapped(b)
  {
  }

  lemma AllKeysCommute(ms: seq<Member>, ns: seq<Member>)
    requires DistinctKeys(ms) && DistinctKeys(ns)
    ensures AllKeys(ms, ns) == AllKeys(ns, ms)
  {
    UnsortedKeys(ms, ns);
    UnsortedKeys(ns, ms);
    StringLeIsPreorder();
    var a, b := Keys(ms) + KeysOutside(ns, ms), Keys(ns) + KeysOutside(ms, ns);
    DistinctSameMembers(a, b);
    forall x, y | x in a && y in a && StringLe(x, y) && StringLe(y, x) ensures x == y { StringLeIsTotal(x, y); }
    SortIgnoresOrder(a, b, StringLe);
  }

  /** Comparing the other way round reports the same paths in the same order, sides exchanged. */
  lemma {:induction false} DiffCommutes(left: Json, right: Json, path: string)
    requires WellFormed(left) && WellFormed(right)
    ensures Diff(right, left, path) == Swapped(Diff(left, right, path))
    decreases left, 1, 0
  {
    if left.Obj? && right.Obj? {
      AllKeysCommute(left.members, right.members);
      DiffKeysCommute(left, right, AllKeys(left.members, right.members), path);
    } else if left.Arr? && right.Arr? {
      DiffItemsCommute(left, right, 0, path);
      SwappedConcat(LengthDiff(|left.items|, |right.items|, path), DiffItems(left, right, 0, path));
    }
  }

  lemma {:induction false} DiffKeyCommutes(left: Json, right: Json, key: string, path: string)
    requires left.Obj? && right.Obj? && WellFormed(left) && WellFormed(right)
    ensures DiffKey(right, left, key, path) == Swapped(DiffKey(left, right, key, path))
    decreases left, 0, 0
  {
    match (Get(left.members, key), Get(right.members, key))
    case (Some(l), Some(r)) =>
      assert Member(key, l) in left.members && Member(key, r) in right.members;
      DiffCommutes(l, r, KeyPath(path, key));
    case _ =>
  }

  lemma {:induction false} DiffKeysCommute(left: Json, right: Json, keys: seq<string>, path: string)
    requires left.Obj? && right.Obj? && WellFormed(left) && WellFormed(right)
    ensures DiffKeys(right, left, keys, path) == Swapped(DiffKeys(left, right, keys, path))
    decreases left, 0, |keys| + 1
  {
    if keys != [] {
      DiffKeyCommutes(left, right, keys[0], path);
      DiffKeysCommute(left, right, keys[1..], path);
      SwappedConcat(DiffKey(left, right, keys[0], path), DiffKeys(left, right, keys[1..], path));
    }
  }

  lemma {:induction false} DiffItemsCommute(left: Json, right: Json, i: nat, path: string)
    requires left.Arr? && right.Arr? && WellFormed(left) && WellFormed(right)
    ensures DiffItems(right, left, i, path) == Swapped(DiffItems(left, right, i, path))
    decreases left, 0, |left.items| - i
  {
    if i < |left.items| && i < |right.items| {
      DiffCommutes(left.items[i], right.items[i], IndexPath(path, i));
      DiffItemsCommute(left, right, i + 1, path);
      SwappedConcat(Diff(left.items[i], right.items[i], IndexPath(path, i)), DiffItems(left, right, i + 1, path));
    }
  }

  // ---------------------------------------------------------------- the loops

  /** The comparison as written: lists extended in loops over the sorted keys and paired items. */
  method DiffJson(left: Json, right: Json, path: string) returns (differences: seq<Difference>)
    ensures differences == Diff(left, right, path)
    decreases left, 1
  {
    if !SameType(left, right) { return [Difference(path, left, right)]; }
    if left.Obj? {
      differences := DiffObjects(left, right, path);
    } else if left.Arr? {
      differences := DiffLists(left, right, path);
    } else if left != right {
      return [Difference(path, left, right)];
    } else {
      return [];
    }
  }

  method DiffObjects(left: Json, right: Json, path: string) returns (differences: seq<Difference>)
    requires left.Obj? && right.Obj?
    ensures differences == DiffKeys(left, right, AllKeys(left.members, right.members), path)
    decreases left, 0
  {
    differences := [];
    var keys := AllKeys(left.members, right.members);
    for k := 0 to |keys|
      invariant differences + DiffKeys(left, right, keys[k..], path) == DiffKeys(left, right, keys, path)
    {
      var key := keys[k];
      ghost var rest := DiffKeys(left, right, keys[k + 1..], path);
      ghost var found := DiffKey(left, right, key, path);
      DiffKeysUnfold(left, right, keys, k, path);
      var l, r := Get(left.members, key), Get(right.members, key);
      var nested := [];
      if l.None? && r.Some? {
        nested := [Difference(KeyPath(path, key), Null, r.value)];
      } else if l.Some? && r.None? {
        nested := [Difference(KeyPath(path, key), l.value, Null)];
      } else if l.Some? && r.Some? {
        assert Member(key, l.value) in left.members;
        nested := DiffJson(l.value, r.value, KeyPath(path, key));
      }
      assert nested == found;
      assert (differences + found) + rest == differences + (found + rest);
      differences := differences + nested;
    }
  }

  lemma DiffKeysUnfold(left: Json, right: Json, keys: seq<string>, k: nat, path: string)
    requires left.Obj? && right.Obj? && k < |keys|
    ensures DiffKeys(left, right, keys[k..], path)
         == DiffKey(left, right, keys[k], path) + DiffKeys(left, right, keys[k + 1..], path)
  {
    assert keys[k..][1..] == keys[k + 1..];
  }

  method DiffLists(left: Json, right: Json, path: string) returns (differences: seq<Difference>)
    requires left.Arr? && right.Arr?
    ensures differences == Diff(left, right, path)
    decreases left, 0
  {
    differences := LengthDiff(|left.items|, |right.items|, path);
    var n := if |left.items| <= |right.items| then |left.items| else |right.items|;
    for i := 0 to n
      invariant differences + DiffItems(left, right, i, path) == Diff(left, right, path)
    {
      ghost var rest := DiffItems(left, right, i + 1, path);
      var nested := DiffJson(left.items[i], right.items[i], IndexPath(path, i));
      assert (differences + nested) + rest == differences + (nested + rest);
      differences := differences + nested;
    }
  }
}
