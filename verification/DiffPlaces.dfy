/** What the structural diff reports, in terms of what the two values hold at each place. */
module DiffPlaces {
  import opened JsonValues
  import opened JsonObjects
  import opened JsonDiff
  import opened Sorting
  import JsonText

  // One step into a value: a member, an item, or the length of a list.
  datatype Step = Key(key: string) | Item(index: nat) | Length

  type Place = seq<Step>

  function Into(v: Json, step: Step): Option<Json> {
    match step
    case Key(k) => if v.Obj? then Get(v.members, k) else None
    case Item(i) => if v.Arr? && i < |v.items| then Some(v.items[i]) else None
    case Length => if v.Arr? then Some(Int(|v.items|)) else None
  }

  /** What a value holds at a place. */
  function Lookup(v: Json, place: Place): Option<Json>
    decreases |place|
  {
    if place == [] then Some(v)
    else match Into(v, place[0]) case None => None case Some(w) => Lookup(w, place[1..])
  }

  function StepText(step: Step): string {
    match step
    case Key(k) => "." + k
    case Item(i) => "[" + JsonText.NatText(i) + "]"
    case Length => ".length"
  }

  // The path of a report.
  function Render(path: string, place: Place): string
    decreases |place|
  {
    if place == [] then path else Render(path + StepText(place[0]), place[1..])
  }

  function OrNull(v: Option<Json>): Json { match v case None => Null case Some(w) => w }

  predicate SameContainer(v: Option<Json>, w: Option<Json>) {
    v.Some? && w.Some? && ((v.value.Obj? && w.value.Obj?) || (v.value.Arr? && w.value.Arr?))
  }

  /** The values part at a place: they hold different things there, or only one holds a member there; what
      is around the place is a container of one kind in both, and what is there is not. */
  predicate PartAt(left: Json, right: Json, place: Place) {
    var l, r := Lookup(left, place), Lookup(right, place);
    && l != r && !SameContainer(l, r)
    && (place != [] ==> SameContainer(Lookup(left, place[..|place| - 1]), Lookup(right, place[..|place| - 1])))
    && (l.None? || r.None? ==> place != [] && place[|place| - 1].Key?)
  }

  /** A difference says what each side holds at a place where they part. */
  predicate Tells(left: Json, right: Json, path: string, place: Place, d: Difference) {
    PartAt(left, right, place)
    && d == Difference(Render(path, place), OrNull(Lookup(left, place)), OrNull(Lookup(right, place)))
  }

  // ---------------------------------------------------------------- one step

  // Both sides go on below a step.
  predicate BothInto(left: Json, right: Json, step: Step) {
    SameContainer(Some(left), Some(right)) && Into(left, step).Some? && Into(right, step).Some?
  }

  lemma LookupStep(v: Json, step: Step, rest: Place)
    ensures Lookup(v, [step] + rest) == match Into(v, step) case None => None case Some(w) => Lookup(w, rest)
    ensures rest != [] ==> ([step] + rest)[..|rest|] == [step] + rest[..|rest| - 1]
  {
    assert ([step] + rest)[1..] == rest;
  }

  lemma PartHere(left: Json, right: Json)
    ensures PartAt(left, right, []) <==> left != right && !SameContainer(Some(left), Some(right))
  {
  }

  lemma PartAtStep(left: Json, right: Json, step: Step)
    ensures PartAt(left, right, [step]) <==>
      (SameContainer(Some(left), Some(right)) && Into(left, step) != Into(right, step)
       && !SameContainer(Into(left, step), Into(right, step))
       && (Into(left, step).None? || Into(right, step).None? ==> step.Key?))
  {
    LookupStep(left, step, []);
    LookupStep(right, step, []);
    assert [step] + [] == [step] && [step][..0] == [];
    assert Lookup(left, []) == Some(left) && Lookup(right, []) == Some(right);
    MatchLookupNil(Into(left, step));
    MatchLookupNil(Into(right, step));
  }

  lemma MatchLookupNil(v: Option<Json>)
    ensures v.Some? ==> Lookup(v.value, []) == v
  {
  }

  lemma PartBelow(left: Json, right: Json, step: Step, rest: Place)
    requires rest != []
    ensures PartAt(left, right, [step] + rest) <==>
      BothInto(left, right, step) && PartAt(Into(left, step).value, Into(right, step).value, rest)
  {
    var place := [step] + rest;
    LookupStep(left, step, rest);
    LookupStep(right, step, rest);
    LookupStep(left, step, rest[..|rest| - 1]);
    LookupStep(right, step, rest[..|rest| - 1]);
    assert place[|place| - 1] == rest[|rest| - 1];
  }

  // Below a step that both sides take, places part as they do in what is there.
  lemma PartInto(left: Json, right: Json, step: Step, rest: Place)
    requires BothInto(left, right, step)
    ensures PartAt(left, right, [step] + rest) <==> PartAt(Into(left, step).value, Into(right, step).value, rest)
    ensures Lookup(left, [step] + rest) == Lookup(Into(left, step).value, rest)
    ensures Lookup(right, [step] + rest) == Lookup(Into(right, step).value, rest)
  {
    LookupStep(left, step, rest);
    LookupStep(right, step, rest);
    if rest == [] {
      assert [step] + [] == [step];
      PartAtStep(left, right, step);
      PartHere(Into(left, step).value, Into(right, step).value);
    } else {
      PartBelow(left, right, step, rest);
    }
  }

  lemma RenderStep(path: string, step: Step, rest: Place)
    ensures Render(path, [step] + rest) == Render(path + StepText(step), rest)
  {
    assert ([step] + rest)[1..] == rest;
  }

  lemma TellsInto(left: Json, right: Json, path: string, step: Step, rest: Place, d: Difference)
    requires BothInto(left, right, step)
    ensures Tells(left, right, path, [step] + rest, d)
       <==> Tells(Into(left, step).value, Into(right, step).value, path + StepText(step), rest, d)
  {
    PartInto(left, right, step, rest);
    RenderStep(path, step, rest);
  }

  // ---------------------------------------------------------------- all places

  ghost predicate Told(left: Json, right: Json, path: string, d: Difference) {
    exists place: Place :: Tells(left, right, path, place, d)
  }

  // A difference told at a place that starts with this step.
  ghost predicate ToldUnder(left: Json, right: Json, path: string, step: Step, d: Difference) {
    exists rest: Place :: Tells(left, right, path, [step] + rest, d)
  }

  lemma ToldIffUnder(left: Json, right: Json, path: string, d: Difference)
    requires SameContainer(Some(left), Some(right))
    ensures Told(left, right, path, d) <==> exists step :: ToldUnder(left, right, path, step, d)
  {
    if place: Place :| Tells(left, right, path, place, d) {
      PartHere(left, right);
      assert place != [] && place == [place[0]] + place[1..];
      assert ToldUnder(left, right, path, place[0], d);
    }
    if step :| ToldUnder(left, right, path, step, d) {
      var rest: Place :| Tells(left, right, path, [step] + rest, d);
    }
  }

  lemma ToldHere(left: Json, right: Json, path: string, d: Difference)
    requires !SameContainer(Some(left), Some(right))
    ensures Told(left, right, path, d) <==> left != right && d == Difference(path, left, right)
  {
    PartHere(left, right);
    if place: Place :| Tells(left, right, path, place, d) {
      if place != [] { NothingBelow(left, right, place); }
    }
    if left != right && d == Difference(path, left, right) { assert Tells(left, right, path, [], d); }
  }

  lemma NothingBelow(left: Json, right: Json, place: Place)
    requires !SameContainer(Some(left), Some(right)) && place != []
    ensures !PartAt(left, right, place)
  {
    var step, rest := place[0], place[1..];
    assert place == [step] + rest;
    if rest == [] {
      PartAtStep(left, right, step);
    } else {
      PartBelow(left, right, step, rest);
    }
  }

  // Under a step that both sides take, what is told is told of what is there.
  lemma ToldInto(left: Json, right: Json, path: string, step: Step, d: Difference)
    requires BothInto(left, right, step)
    ensures ToldUnder(left, right, path, step, d)
       <==> Told(Into(left, step).value, Into(right, step).value, path + StepText(step), d)
  {
    if rest: Place :| Tells(left, right, path, [step] + rest, d) { TellsInto(left, right, path, step, rest, d); }
    if rest: Place :| Tells(Into(left, step).value, Into(right, step).value, path + StepText(step), rest, d) {
      TellsInto(left, right, path, step, rest, d);
    }
  }

  // Under a member that only one side has, its presence is what is told.
  lemma ToldMissing(left: Json, right: Json, path: string, step: Step, d: Difference)
    requires SameContainer(Some(left), Some(right)) && (Into(left, step).None? || Into(right, step).None?)
    ensures ToldUnder(left, right, path, step, d) <==>
      (step.Key? && Into(left, step) != Into(right, step)
       && d == Difference(path + StepText(step), OrNull(Into(left, step)), OrNull(Into(right, step))))
  {
    PartAtStep(left, right, step);
    LookupStep(left, step, []);
    LookupStep(right, step, []);
    RenderStep(path, step, []);
    assert [step] + [] == [step];
    MatchLookupNil(Into(left, step));
    MatchLookupNil(Into(right, step));
    if rest: Place :| Tells(left, right, path, [step] + rest, d) {
      if rest != [] { PartBelow(left, right, step, rest); }
    }
    if step.Key? && Into(left, step) != Into(right, step)
       && d == Difference(path + StepText(step), OrNull(Into(left, step)), OrNull(Into(right, step)))
    {
      assert Tells(left, right, path, [step] + [], d);
    }
  }

  // ---------------------------------------------------------------- the diff

  lemma {:induction false} InDiffKeys(left: Json, right: Json, keys: seq<string>, path: string, d: Difference)
    requires left.Obj? && right.Obj?
    ensures d in DiffKeys(left, right, keys, path) <==> exists k :: k in keys && UnderKey(left, right, k, path, d)
  {
    if keys != [] {
      var rest := keys[1..];
      InDiffKeys(left, right, rest, path, d);
      assert keys == [keys[0]] + rest;
      assert UnderKey(left, right, keys[0], path, d) <==> d in DiffKey(left, right, keys[0], path);
      if k :| k in rest && UnderKey(left, right, k, path, d) { assert k in keys; }
      if k :| k in keys && UnderKey(left, right, k, path, d) { assert k == keys[0] || k in rest; }
    }
  }

  ghost predicate UnderKey(left: Json, right: Json, k: string, path: string, d: Difference)
    requires left.Obj? && right.Obj?
  {
    d in DiffKey(left, right, k, path)
  }

  lemma {:induction false} InDiffItems(left: Json, right: Json, i: nat, path: string, d: Difference)
    requires left.Arr? && right.Arr?
    ensures d in DiffItems(left, right, i, path) <==>
      exists k: nat :: InItem(left, right, i, k, path, d)
    decreases |left.items| - i
  {
    if i < |left.items| && i < |right.items| {
      var next := i + 1;
      InDiffItems(left, right, next, path, d);
      if d in Diff(left.items[i], right.items[i], IndexPath(path, i)) { assert InItem(left, right, i, i, path, d); }
      if k: nat :| InItem(left, right, next, k, path, d) { assert InItem(left, right, i, k, path, d); }
      if k: nat :| InItem(left, right, i, k, path, d) { if k > i { assert InItem(left, right, next, k, path, d); } }
    }
  }

  ghost predicate InItem(left: Json, right: Json, i: nat, k: nat, path: string, d: Difference)
    requires left.Arr? && right.Arr?
  {
    i <= k && k < |left.items| && k < |right.items| && d in Diff(left.items[k], right.items[k], IndexPath(path, k))
  }

  lemma KeyIsTold(left: Json, right: Json, k: string, path: string, d: Difference)
    requires left.Obj? && right.Obj? && WellFormed(left) && WellFormed(right)
    ensures d in DiffKey(left, right, k, path) <==> ToldUnder(left, right, path, Key(k), d)
    decreases left, 0
  {
    var step := Key(k);
    assert KeyPath(path, k) == path + StepText(step);
    match (Get(left.members, k), Get(right.members, k))
    case (Some(l), Some(r)) =>
      assert Member(k, l) in left.members && Member(k, r) in right.members;
      DiffTellsExactly(l, r, KeyPath(path, k), d);
      ToldInto(left, right, path, step, d);
    case _ => ToldMissing(left, right, path, step, d);
  }

  lemma {:induction false} ObjectIsTold(left: Json, right: Json, path: string, d: Difference)
    requires left.Obj? && right.Obj? && WellFormed(left) && WellFormed(right)
    ensures d in Diff(left, right, path) <==> Told(left, right, path, d)
    decreases left, 1
  {
    var keys := AllKeys(left.members, right.members);
    AllKeysAre(left.members, right.members);
    InDiffKeys(left, right, keys, path, d);
    ToldIffUnder(left, right, path, d);
    if k :| k in keys && UnderKey(left, right, k, path, d) {
      KeyIsTold(left, right, k, path, d);
      assert ToldUnder(left, right, path, Key(k), d);
    }
    if step :| ToldUnder(left, right, path, step, d) {
      if step.Key? {
        KeyIsTold(left, right, step.key, path, d);
        assert UnderKey(left, right, step.key, path, d);
        assert Get(left.members, step.key).Some? || Get(right.members, step.key).Some?;
      } else {
        ToldMissing(left, right, path, step, d);
      }
    }
  }

  lemma ItemIsTold(left: Json, right: Json, k: nat, path: string, d: Difference)
    requires left.Arr? && right.Arr? && WellFormed(left) && WellFormed(right)
    ensures InItem(left, right, 0, k, path, d) <==> ToldUnder(left, right, path, Item(k), d)
    decreases left, 0
  {
    var step := Item(k);
    if k < |left.items| && k < |right.items| {
      assert IndexPath(path, k) == path + StepText(step) by {
        assert path + "[" + JsonText.NatText(k) + "]" == path + ("[" + JsonText.NatText(k) + "]");
      }
      DiffTellsExactly(left.items[k], right.items[k], IndexPath(path, k), d);
      ToldInto(left, right, path, step, d);
    } else {
      ToldMissing(left, right, path, step, d);
    }
  }

  lemma LengthIsTold(left: Json, right: Json, path: string, d: Difference)
    requires left.Arr? && right.Arr?
    ensures d in LengthDiff(|left.items|, |right.items|, path) <==> ToldUnder(left, right, path, Length, d)
  {
    ToldInto(left, right, path, Length, d);
    ToldHere(Int(|left.items|), Int(|right.items|), path + ".length", d);
  }

  lemma {:induction false} ListIsTold(left: Json, right: Json, path: string, d: Difference)
    requires left.Arr? && right.Arr? && WellFormed(left) && WellFormed(right)
    ensures d in Diff(left, right, path) <==> Told(left, right, path, d)
    decreases left, 1
  {
    InDiffItems(left, right, 0, path, d);
    LengthIsTold(left, right, path, d);
    ToldIffUnder(left, right, path, d);
    if k: nat :| InItem(left, right, 0, k, path, d) {
      ItemIsTold(left, right, k, path, d);
      assert ToldUnder(left, right, path, Item(k), d);
    }
    if step :| ToldUnder(left, right, path, step, d) {
      match step
      case Item(k) => ItemIsTold(left, right, k, path, d);
      case Length =>
      case Key(_) => ToldMissing(left, right, path, step, d);
    }
  }

  /** The diff reports exactly the places where the two values part, each with what `left` holds there as
      committed and what `right` holds there as current, Null for a member that is missing. */
  lemma {:induction false} DiffTellsExactly(left: Json, right: Json, path: string, d: Difference)
    requires WellFormed(left) && WellFormed(right)
    ensures d in Diff(left, right, path) <==> exists place: Place :: Tells(left, right, path, place, d)
    decreases left, 2
  {
    if left.Obj? && right.Obj? {
      ObjectIsTold(left, right, path, d);
    } else if left.Arr? && right.Arr? {
      ListIsTold(left, right, path, d);
    } else {
      ToldHere(left, right, path, d);
    }
  }

  // ---------------------------------------------------------------- order of the reports

  lemma ConcatAt(a: seq<Difference>, b: seq<Difference>, i: nat)
    requires i < |a| + |b|
    ensures (a + b)[i] == if i < |a| then a[i] else b[i - |a|]
  {
  }

  // Reports of earlier keys come first.
  lemma {:induction false} KeysInOrder(left: Json, right: Json, keys: seq<string>, path: string, i: nat, j: nat)
    returns (a: nat, b: nat)
    requires left.Obj? && right.Obj? && i < j < |DiffKeys(left, right, keys, path)|
    ensures a <= b < |keys|
    ensures UnderKey(left, right, keys[a], path, DiffKeys(left, right, keys, path)[i])
    ensures UnderKey(left, right, keys[b], path, DiffKeys(left, right, keys, path)[j])
  {
    var first, rest := DiffKey(left, right, keys[0], path), DiffKeys(left, right, keys[1..], path);
    ConcatAt(first, rest, i);
    ConcatAt(first, rest, j);
    if i >= |first| {
      a, b := KeysInOrder(left, right, keys[1..], path, i - |first|, j - |first|);
      a, b := a + 1, b + 1;
    } else {
      a := 0;
      b := KeyOfReport(left, right, keys, path, j);
    }
  }

  lemma {:induction false} KeyOfReport(left: Json, right: Json, keys: seq<string>, path: string, i: nat)
    returns (a: nat)
    requires left.Obj? && right.Obj? && i < |DiffKeys(left, right, keys, path)|
    ensures a < |keys| && UnderKey(left, right, keys[a], path, DiffKeys(left, right, keys, path)[i])
  {
    var first, rest := DiffKey(left, right, keys[0], path), DiffKeys(left, right, keys[1..], path);
    ConcatAt(first, rest, i);
    if i < |first| {
      a := 0;
    } else {
      a := KeyOfReport(left, right, keys[1..], path, i - |first|);
      a := a + 1;
    }
  }

  /** Members are reported in the order of their keys. */
  lemma MembersInOrder(left: Json, right: Json, path: string, i: nat, j: nat) returns (k: string, l: string)
    requires left.Obj? && right.Obj? && WellFormed(left) && WellFormed(right)
    requires i < j < |Diff(left, right, path)|
    ensures StringLe(k, l)
    ensures ToldUnder(left, right, path, Key(k), Diff(left, right, path)[i])
    ensures ToldUnder(left, right, path, Key(l), Diff(left, right, path)[j])
  {
    var keys := AllKeys(left.members, right.members);
    var a, b := KeysInOrder(left, right, keys, path, i, j);
    StringLeIsPreorder();
    SortIsSortedPermutation(Keys(left.members) + KeysOutside(right.members, left.members), StringLe);
    k, l := keys[a], keys[b];
    assert StringLe(k, k);
    KeyIsTold(left, right, k, path, Diff(left, right, path)[i]);
    KeyIsTold(left, right, l, path, Diff(left, right, path)[j]);
  }

  lemma {:induction false} ItemOfReport(left: Json, right: Json, from: nat, path: string, i: nat) returns (a: nat)
    requires left.Arr? && right.Arr? && i < |DiffItems(left, right, from, path)|
    ensures InItem(left, right, from, a, path, DiffItems(left, right, from, path)[i])
    decreases |left.items| - from
  {
    var first := Diff(left.items[from], right.items[from], IndexPath(path, from));
    var next := from + 1;
    assert DiffItems(left, right, from, path) == first + DiffItems(left, right, next, path);
    if i < |first| { a := from; } else { a := ItemOfReport(left, right, next, path, i - |first|); }
  }

  lemma {:induction false} ItemsInOrder(left: Json, right: Json, from: nat, path: string, i: nat, j: nat)
    returns (a: nat, b: nat)
    requires left.Arr? && right.Arr? && i < j < |DiffItems(left, right, from, path)|
    ensures a <= b && InItem(left, right, from, a, path, DiffItems(left, right, from, path)[i])
    ensures InItem(left, right, from, b, path, DiffItems(left, right, from, path)[j])
    decreases |left.items| - from
  {
    var first := Diff(left.items[from], right.items[from], IndexPath(path, from));
    var next := from + 1;
    assert DiffItems(left, right, from, path) == first + DiffItems(left, right, next, path);
    if i >= |first| {
      a, b := ItemsInOrder(left, right, next, path, i - |first|, j - |first|);
    } else {
      a := from;
      b := ItemOfReport(left, right, from, path, j);
    }
  }

  /** A list's length is reported first, and then its items in their order. */
  lemma ItemsAfterLength(left: Json, right: Json, path: string, i: nat, j: nat) returns (a: nat, b: nat)
    requires left.Arr? && right.Arr? && WellFormed(left) && WellFormed(right)
    requires i < j < |Diff(left, right, path)|
    ensures ToldUnder(left, right, path, Item(b), Diff(left, right, path)[j])
    ensures (i == 0 && ToldUnder(left, right, path, Length, Diff(left, right, path)[i]))
            || (a <= b && ToldUnder(left, right, path, Item(a), Diff(left, right, path)[i]))
  {
    var length := LengthDiff(|left.items|, |right.items|, path);
    var items, all := DiffItems(left, right, 0, path), Diff(left, right, path);
    assert all == length + items;
    a := 0;
    if i < |length| {
      b := ItemOfReport(left, right, 0, path, j - |length|);
      assert all[i] == length[i];
      LengthIsTold(left, right, path, all[i]);
    } else {
      a, b := ItemsInOrder(left, right, 0, path, i - |length|, j - |length|);
      assert all[i] == items[i - |length|];
      ItemIsTold(left, right, a, path, all[i]);
    }
    assert all[j] == items[j - |length|];
    ItemIsTold(left, right, b, path, all[j]);
  }
}
