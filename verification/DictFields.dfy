/** Reading fields of dicts, and writing lists of dicts that can be read back. */
module DictFields {
  import opened JsonValues

  datatype Loaded<+T> = Malformed | Ok(value: T) {
    predicate IsFailure() { Malformed? }

    function PropagateFailure<U>(): Loaded<U>
      requires IsFailure()
    {
      Malformed
    }

    function Extract(): T
      requires !IsFailure()
    {
      value
    }
  }

  // ---------------------------------------------------------------- writing

  function OptionalStr(x: Option<string>): Json { match x case None => Null case Some(s) => Str(s) }

  function OptionalInt(x: Option<int>): Json { match x case None => Null case Some(n) => Int(n) }

  function StrList(xs: seq<string>): Json { Arr(seq(|xs|, i requires 0 <= i < |xs| => Str(xs[i]))) }

  function ObjList<T>(xs: seq<T>, to: T -> seq<Member>): Json {
    Arr(seq(|xs|, i requires 0 <= i < |xs| => Obj(to(xs[i]))))
  }

  // ---------------------------------------------------------------- reading

  function GetOrNull(ms: seq<Member>, key: string): Json {
    match Get(ms, key) case None => Null case Some(v) => v
  }

  /** The dict holds these values under these keys. */
  ghost predicate Holds(ms: seq<Member>, keys: seq<string>, values: seq<Json>) {
    |keys| == |values| && forall i | 0 <= i < |keys| :: HoldsAt(ms, keys[i], values[i])
  }

  ghost predicate HoldsAt(ms: seq<Member>, key: string, value: Json) { GetOrNull(ms, key) == value }

  ghost predicate Entry(ms: seq<Member>, key: string, value: Json) { Get(ms, key) == Some(value) }

  /** A written dict has exactly the given entries. */
  lemma ZipHasEntries(keys: seq<string>, values: seq<Json>)
    requires |keys| == |values| && Distinct(keys)
    ensures |Zip(keys, values)| == |keys| && forall i | 0 <= i < |keys| :: Entry(Zip(keys, values), keys[i], values[i])
  {
    forall i | 0 <= i < |keys| ensures Entry(Zip(keys, values), keys[i], values[i]) { ZipLookup(keys, values, i); }
  }

  lemma ZipHolds(keys: seq<string>, values: seq<Json>)
    requires |keys| == |values| && Distinct(keys)
    ensures Holds(Zip(keys, values), keys, values)
  {
    forall i | 0 <= i < |keys| { ZipLookup(keys, values, i); }
  }

  function RequiredString(v: Json): Loaded<string> { if v.Str? && v.s != "" then Ok(v.s) else Malformed }

  // The texts of a list, none of them empty.
  function Texts(items: seq<Json>): Loaded<seq<string>> {
    if items == [] then Ok([])
    else
      var first :- RequiredString(items[0]);
      var rest :- Texts(items[1..]);
      Ok([first] + rest)
  }

  function Objects<T>(items: seq<Json>, from: seq<Member> -> Loaded<T>): Loaded<seq<T>> {
    if items == [] then Ok([])
    else if !items[0].Obj? then Malformed
    else
      var first :- from(items[0].members);
      var rest :- Objects(items[1..], from);
      Ok([first] + rest)
  }

  predicate NonEmpty(xs: seq<string>) { forall i | 0 <= i < |xs| :: xs[i] != "" }

  lemma {:induction false} TextsRoundTrip(xs: seq<string>)
    ensures Texts(StrList(xs).items) == if NonEmpty(xs) then Ok(xs) else Malformed
  {
    var items := StrList(xs).items;
    if xs != [] {
      TextsRoundTrip(xs[1..]);
      assert items[1..] == StrList(xs[1..]).items;
      assert xs == [xs[0]] + xs[1..];
      assert NonEmpty(xs) <==> xs[0] != "" && NonEmpty(xs[1..]);
    }
  }

  /** A list of records reads back as itself exactly when each of its records does. */
  lemma {:induction false} ObjectsRoundTrip<T(!new)>(
    xs: seq<T>, to: T -> seq<Member>, from: seq<Member> -> Loaded<T>)
    ensures Objects(ObjList(xs, to).items, from) == Ok(xs) <==> forall i | 0 <= i < |xs| :: from(to(xs[i])) == Ok(xs[i])
  {
    var items := ObjList(xs, to).items;
    if xs != [] {
      var first, rest := xs[0], xs[1..];
      ObjectsRoundTrip(rest, to, from);
      assert items[1..] == ObjList(rest, to).items;
      assert xs == [first] + rest;
      if forall i | 0 <= i < |xs| :: from(to(xs[i])) == Ok(xs[i]) {
        assert from(to(xs[0])) == Ok(xs[0]);
        forall i | 0 <= i < |rest| ensures from(to(rest[i])) == Ok(rest[i]) { assert rest[i] == xs[i + 1]; }
      }
      if Objects(items, from) == Ok(xs) {
        var r := from(to(first)).value;
        var rs := Objects(items[1..], from).value;
        assert ([r] + rs)[0] == r && ([r] + rs)[1..] == rs;
        forall i | 0 <= i < |xs| ensures from(to(xs[i])) == Ok(xs[i]) {
          if i > 0 { assert xs[i] == rest[i - 1]; }
        }
      }
    }
  }

  // ---------------------------------------------------------------- what a reader accepts

  // No value, or a null one.
  predicate Missing(v: Option<Json>) { v == None || v == Some(Null) }

  predicate NameAt(v: Option<Json>, s: string) { s != "" && v == Some(Str(s)) }

  predicate NamesAt(v: Option<Json>, xs: seq<string>) {
    v.Some? && v.value.Arr? && |v.value.items| == |xs| && forall i | 0 <= i < |xs| :: NameAt(Some(v.value.items[i]), xs[i])
  }

  lemma {:induction false} TextsIff(items: seq<Json>, xs: seq<string>)
    ensures Texts(items) == Ok(xs) <==> NamesAt(Some(Arr(items)), xs)
  {
    if items == [] {
    } else if xs == [] {
      assert forall first: string, rest: seq<string> :: [first] + rest != [];
    } else {
      TextsIff(items[1..], xs[1..]);
      assert xs == [xs[0]] + xs[1..];
      ConsIsIff(RequiredString(items[0]), Texts(items[1..]), xs);
      if NamesAt(Some(Arr(items)), xs) {
        assert NameAt(Some(items[0]), xs[0]);
        forall i | 0 <= i < |xs[1..]| ensures NameAt(Some(items[1..][i]), xs[1..][i]) {
          assert NameAt(Some(items[i + 1]), xs[i + 1]);
        }
      }
      if NameAt(Some(items[0]), xs[0]) && NamesAt(Some(Arr(items[1..])), xs[1..]) {
        forall i | 0 <= i < |xs| ensures NameAt(Some(items[i]), xs[i]) {
          if i > 0 { assert NameAt(Some(items[1..][i - 1]), xs[1..][i - 1]); }
        }
      }
    }
  }

  // A list read from its first element and the rest.
  lemma ConsIsIff<T>(first: Loaded<T>, rest: Loaded<seq<T>>, xs: seq<T>)
    requires xs != []
    ensures first.Ok? && rest.Ok? && [first.value] + rest.value == xs <==> first == Ok(xs[0]) && rest == Ok(xs[1..])
  {
    if first.Ok? && rest.Ok? && [first.value] + rest.value == xs {
      assert ([first.value] + rest.value)[1..] == rest.value;
    }
    if first == Ok(xs[0]) && rest == Ok(xs[1..]) { assert [xs[0]] + xs[1..] == xs; }
  }

  // Each item is an object that reads as the value at its place.
  ghost predicate ItemsRead<T>(items: seq<Json>, from: seq<Member> -> Loaded<T>, xs: seq<T>) {
    |items| == |xs| && forall i | 0 <= i < |xs| :: ItemReads(items[i], from, xs[i])
  }

  ghost predicate ItemReads<T>(item: Json, from: seq<Member> -> Loaded<T>, x: T) {
    item.Obj? && from(item.members) == Ok(x)
  }

  lemma {:induction false} ObjectsIff<T>(items: seq<Json>, from: seq<Member> -> Loaded<T>, xs: seq<T>)
    ensures Objects(items, from) == Ok(xs) <==> ItemsRead(items, from, xs)
  {
    if items == [] || xs == [] {
    } else {
      ObjectsIff(items[1..], from, xs[1..]);
      if items[0].Obj? { ConsIsIff(from(items[0].members), Objects(items[1..], from), xs); }
      if ItemsRead(items, from, xs) {
        assert ItemReads(items[0], from, xs[0]);
        forall i | 0 <= i < |xs[1..]| ensures ItemReads(items[1..][i], from, xs[1..][i]) {
          assert ItemReads(items[i + 1], from, xs[i + 1]);
        }
      }
      if ItemReads(items[0], from, xs[0]) && ItemsRead(items[1..], from, xs[1..]) {
        forall i | 0 <= i < |xs| ensures ItemReads(items[i], from, xs[i]) {
          if i > 0 { assert ItemReads(items[1..][i - 1], from, xs[1..][i - 1]); }
        }
      }
    }
  }
}
