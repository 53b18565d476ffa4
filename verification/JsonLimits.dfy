/** Depth and width limits of event payloads: what the envelope accepts against what can be
    normalized for serialization. */
module JsonLimits {
  import opened JsonValues
  import opened Sorting

  const MAX_DEPTH := 64
  const MAX_OBJECT_MEMBERS := 4096
  const MAX_ARRAY_LENGTH := 4096

  // validate_json_value, and normalize_json on its JSON-compatible inputs: the same checks.
  predicate WithinLimits(v: Json, depth: nat) {
    depth <= MAX_DEPTH
    && match v
       case Arr(items) => |items| <= MAX_ARRAY_LENGTH && forall x | x in items :: WithinLimits(x, depth + 1)
       case Obj(ms) => |ms| <= MAX_OBJECT_MEMBERS && forall m | m in ms :: WithinLimits(m.value, depth + 1)
       case _ => true
  }

  // The nesting of a value: a scalar or an empty container has height 0.
  function Height(v: Json): nat {
    match v
    case Arr(items) => ItemsHeight(items)
    case Obj(ms) => MembersHeight(ms)
    case _ => 0
  }

  // One more than the tallest element, 0 when there is none.
  function ItemsHeight(items: seq<Json>): nat {
    if items == [] then 0
    else
      var first, rest := 1 + Height(items[0]), ItemsHeight(items[1..]);
      if first >= rest then first else rest
  }

  function MembersHeight(ms: seq<Member>): nat {
    if ms == [] then 0
    else
      var first, rest := 1 + Height(ms[0].value), MembersHeight(ms[1..]);
      if first >= rest then first else rest
  }

  ghost predicate NarrowEnough(v: Json) {
    match v
    case Arr(items) => |items| <= 4096 && forall x | x in items :: NarrowEnough(x)
    case Obj(ms) => |ms| <= 4096 && forall m | m in ms :: NarrowEnough(m.value)
    case _ => true
  }

  lemma {:induction false} ItemsHeightBounds(items: seq<Json>, bound: nat)
    ensures ItemsHeight(items) <= bound <==> forall x | x in items :: 1 + Height(x) <= bound
  {
    if items != [] {
      var first, rest := items[0], items[1..];
      ItemsHeightBounds(rest, bound);
      assert items == [first] + rest;
      assert ItemsHeight(items) <= bound <==> 1 + Height(first) <= bound && ItemsHeight(rest) <= bound;
      if forall x | x in items :: 1 + Height(x) <= bound {
        forall x | x in rest ensures 1 + Height(x) <= bound { assert x in items; }
        assert first in items;
      }
    }
  }

  lemma {:induction false} MembersHeightBounds(ms: seq<Member>, bound: nat)
    ensures MembersHeight(ms) <= bound <==> forall m | m in ms :: 1 + Height(m.value) <= bound
  {
    if ms != [] {
      MembersHeightBounds(ms[1..], bound);
      assert ms == [ms[0]] + ms[1..];
      forall m ensures m in ms <==> m == ms[0] || m in ms[1..] {}
    }
  }

  /** The recursive check accepts exactly the values whose widths fit and whose height, counted
      from the starting depth, does. */
  lemma {:induction false} LimitsMeanHeight(v: Json, depth: nat)
    ensures WithinLimits(v, depth) <==> depth + Height(v) <= MAX_DEPTH && NarrowEnough(v)
    decreases v
  {
    match v
    case Arr(items) =>
      forall x | x in items
        ensures WithinLimits(x, depth + 1) <==> depth + 1 + Height(x) <= MAX_DEPTH && NarrowEnough(x)
      {
        LimitsMeanHeight(x, depth + 1);
      }
      if depth <= MAX_DEPTH { ItemsHeightBounds(items, MAX_DEPTH - depth); }
    case Obj(ms) =>
      forall m | m in ms
        ensures WithinLimits(m.value, depth + 1)
          <==> depth + 1 + Height(m.value) <= MAX_DEPTH && NarrowEnough(m.value)
      {
        LimitsMeanHeight(m.value, depth + 1);
      }
      if depth <= MAX_DEPTH { MembersHeightBounds(ms, MAX_DEPTH - depth); }
    case _ =>
  }

  /** Putting keys in order changes neither depth nor width. */
  lemma {:induction false} CanonKeepsLimits(v: Json, depth: nat)
    ensures WithinLimits(Canon(v), depth) <==> WithinLimits(v, depth)
    decreases v
  {
    match v
    case Arr(items) =>
      forall i | 0 <= i < |items|
        ensures WithinLimits(Canon(v).items[i], depth + 1) <==> WithinLimits(items[i], depth + 1)
      {
        CanonKeepsLimits(items[i], depth + 1);
      }
      AllItems(items, depth + 1);
      AllItems(Canon(v).items, depth + 1);
    case Obj(ms) =>
      var cs := CanonMembers(ms);
      forall i | 0 <= i < |ms|
        ensures WithinLimits(cs[i].value, depth + 1) <==> WithinLimits(ms[i].value, depth + 1)
      {
        assert ms[i] in ms;
        CanonKeepsLimits(ms[i].value, depth + 1);
      }
      KeyLeIsPreorder();
      SortIsSortedPermutation(cs, KeyLe);
      AllMembers(ms, depth + 1);
      AllMembers(cs, depth + 1);
    case _ =>
  }

  lemma AllItems(items: seq<Json>, depth: nat)
    ensures (forall x | x in items :: WithinLimits(x, depth)) <==> forall i | 0 <= i < |items| :: WithinLimits(items[i], depth)
  {
  }

  lemma AllMembers(ms: seq<Member>, depth: nat)
    ensures (forall m | m in ms :: WithinLimits(m.value, depth))
       <==> forall i | 0 <= i < |ms| :: WithinLimits(ms[i].value, depth)
  {
    if forall m | m in ms :: WithinLimits(m.value, depth) {
      forall i | 0 <= i < |ms| ensures WithinLimits(ms[i].value, depth) { assert ms[i] in ms; }
    }
  }

  // The envelope checks a payload from depth 0; the event normalizer meets it one level down.
  predicate EnvelopeAccepts(payload: Json) { WithinLimits(payload, 0) }

  predicate EventNormalizes(payload: Json) { WithinLimits(payload, 1) }

  /** An accepted payload can be normalized exactly when it nests less than the full depth. */
  lemma AcceptedPayloadNormalizesIff(payload: Json)
    requires EnvelopeAccepts(payload)
    ensures EventNormalizes(payload) <==> Height(payload) < MAX_DEPTH
  {
    LimitsMeanHeight(payload, 0);
    LimitsMeanHeight(payload, 1);
  }

  // n objects around null.
  function Nest(n: nat): Json { if n == 0 then Null else Obj([Member("k", Nest(n - 1))]) }

  lemma {:induction false} NestHeight(n: nat)
    ensures Height(Nest(n)) == n && NarrowEnough(Nest(n)) && WellFormed(Nest(n))
  {
    if n > 0 {
      NestHeight(n - 1);
      var ms := [Member("k", Nest(n - 1))];
      assert ms[1..] == [];
      assert MembersHeight(ms) == 1 + Height(Nest(n - 1));
    }
  }

  /** Some accepted payloads cannot be serialized: the full depth is one too many. */
  lemma FullDepthIsAcceptedButNotNormalized()
    ensures Nest(MAX_DEPTH).Obj? && EnvelopeAccepts(Nest(MAX_DEPTH)) && !EventNormalizes(Nest(MAX_DEPTH))
  {
    NestHeight(MAX_DEPTH);
    LimitsMeanHeight(Nest(MAX_DEPTH), 0);
    AcceptedPayloadNormalizesIff(Nest(MAX_DEPTH));
  }
}
