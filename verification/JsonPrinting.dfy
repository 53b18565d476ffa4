/** Which of the spellings of a value the printer picks: the compact one, with keys in rising order. */
module JsonPrinting {
  import opened JsonValues
  import opened JsonText
  import opened JsonGrammar
  import opened Sorting

  // A character as it is unless it must be escaped; then by its letter if it has one, else by lower-case digits.
  ghost predicate CompactChar(x: CharText, c: char) {
    match x
    case Plain(_) => true
    case Escaped(letter) => letter != '/'
    case Unicode(hex) =>
      && c as int < 32 && (forall letter :: !EscapeMeans(letter, c))
      && |hex| == 4 && forall i | 0 <= i < 4 :: IsDigit(hex[i]) || 'a' <= hex[i] <= 'f'
    case Pair(_, _) => false
  }

  ghost predicate CompactParts(parts: seq<CharText>, s: string) {
    |parts| == |s| && forall i | 0 <= i < |s| :: CompactChar(parts[i], s[i])
  }

  // No white space, no escape that can be avoided, no negative zero, keys of every object in rising order.
  ghost predicate Compact(sp: Spelling) {
    match sp
    case Word(_) => true
    case Number(negative, ds) => negative ==> ds != "0"
    case Quoted(parts, s) => CompactParts(parts, s)
    case Listed(gap, items) => gap == "" && forall i | 0 <= i < |items| :: CompactItem(items[i])
    case Braced(gap, entries) =>
      gap == "" && RisingKeys(entries) && forall i | 0 <= i < |entries| :: CompactEntry(entries[i])
  }

  ghost predicate RisingKeys(entries: seq<Entry>) {
    forall i, j | 0 <= i < j < |entries| :: StringLe(entries[i].key, entries[j].key) && entries[i].key != entries[j].key
  }

  ghost predicate CompactItem(x: Item) { x.before == "" && x.after == "" && Compact(x.value) }

  ghost predicate CompactEntry(x: Entry) {
    x.before == "" && x.colon == "" && CompactParts(x.parts, x.key) && CompactItem(x.item)
  }

  function PartOf(c: char): CharText {
    var r := EscapeChar(c);
    if |r| == 1 then Plain(c) else if |r| == 2 then Escaped(r[1]) else Unicode(r[2..])
  }

  function PartsOf(s: string): (parts: seq<CharText>)
    ensures |parts| == |s| && forall i | 0 <= i < |s| :: parts[i] == PartOf(s[i])
  {
    seq(|s|, i requires 0 <= i < |s| => PartOf(s[i]))
  }

  // Objects are spelled in the order in which they hold their members.
  function SpellingOf(v: Json): Spelling
    decreases v, 0
  {
    match v
    case Int(n) => Number(n < 0, NatText(if n < 0 then -n else n))
    case Str(s) => Quoted(PartsOf(s), s)
    case Arr(items) => Listed("", ItemsOf(items))
    case Obj(ms) => Braced("", EntriesOf(ms))
    case _ => Word(v)
  }

  function ItemOf(v: Json): Item
    decreases v, 1
  {
    Item("", SpellingOf(v), "")
  }

  function ItemsOf(items: seq<Json>): seq<Item> { if items == [] then [] else [ItemOf(items[0])] + ItemsOf(items[1..]) }

  function EntryOf(m: Member): Entry { Entry("", PartsOf(m.key), m.key, "", ItemOf(m.value)) }

  function EntriesOf(ms: seq<Member>): seq<Entry> { if ms == [] then [] else [EntryOf(ms[0])] + EntriesOf(ms[1..]) }

  lemma {:induction false} ControlHex(c: char)
    requires c as int < 32
    ensures var hex := "00" + [HexChar(c as int / 16), HexChar(c as int % 16)];
      HexIs(hex, c as nat) && forall i | 0 <= i < 4 :: IsDigit(hex[i]) || 'a' <= hex[i] <= 'f'
  {
    var hex := "00" + [HexChar(c as int / 16), HexChar(c as int % 16)];
    assert HexDigitIs(hex[0], 0) && HexDigitIs(hex[1], 0) && HexDigitIs(hex[2], c as int / 16)
        && HexDigitIs(hex[3], c as int % 16);
  }

  lemma {:induction false} PartIs(c: char, rest: string)
    ensures Means(PartOf(c), c) && CompactChar(PartOf(c), c) && CharThen(PartOf(c), rest) == EscapeChar(c) + rest
  {
    var r := EscapeChar(c);
    if |r| == 2 {
      assert r == "\\" + [r[1]];
    } else if |r| > 2 {
      ControlHex(c);
      assert r == "\\u" + r[2..] && r[2..] == "00" + [HexChar(c as int / 16), HexChar(c as int % 16)];
    }
  }

  lemma {:induction false} PartsAre(s: string, rest: string)
    ensures Spells(PartsOf(s), s) && CompactParts(PartsOf(s), s) && PartsThen(PartsOf(s), rest) == EscapeThen(s, rest)
  {
    forall i | 0 <= i < |s| ensures Means(PartOf(s[i]), s[i]) && CompactChar(PartOf(s[i]), s[i]) { PartIs(s[i], ""); }
    PartsText(s, rest);
  }

  lemma {:induction false} PartsText(s: string, rest: string)
    ensures PartsThen(PartsOf(s), rest) == EscapeThen(s, rest)
  {
    if s != "" {
      PartIs(s[0], EscapeThen(s[1..], rest));
      PartsText(s[1..], rest);
      assert PartsOf(s)[1..] == PartsOf(s[1..]);
    }
  }

  lemma {:induction false} NatTextIsDecimal(n: nat)
    ensures Decimal(NatText(n)) && PlaceValue(NatText(n)) == n && (n > 0 ==> NatText(n)[0] != '0')
  {
    NatTextProperties(n);
    PlaceValueIs(NatText(n));
  }

  lemma {:induction false} NumberIs(n: int, rest: string)
    ensures
      var sp := SpellingOf(Int(n));
      Proper(sp) && Compact(sp) && ValueOf(sp) == Int(n) && TextThen(sp, rest) == IntThen(n, rest)
  {
    NatTextIsDecimal(if n < 0 then -n else n);
  }

  // What the printer's spelling of a value is.
  ghost predicate IsSpelling(sp: Spelling, v: Json) { Proper(sp) && ValueOf(sp) == v }

  lemma {:induction false} SpellingIs(v: Json)
    ensures IsSpelling(SpellingOf(v), v)
    decreases v, 1
  {
    match v
    case Int(n) => NumberIs(n, "");
    case Str(s) => PartsAre(s, "");
    case Arr(items) => ItemsAre(items);
    case Obj(ms) => EntriesAre(ms);
    case _ =>
  }

  lemma {:induction false} ItemsAre(items: seq<Json>)
    ensures |ItemsOf(items)| == |items| && ItemValues(ItemsOf(items)) == items
    ensures forall i | 0 <= i < |items| :: ProperItem(ItemsOf(items)[i]) && ItemsOf(items)[i] == ItemOf(items[i])
    decreases items, 0
  {
    if items != [] {
      SpellingIs(items[0]);
      ItemsAre(items[1..]);
      assert items == [items[0]] + items[1..];
      assert ItemsOf(items)[1..] == ItemsOf(items[1..]);
    }
  }

  lemma {:induction false} EntryIs(m: Member)
    requires IsSpelling(SpellingOf(m.value), m.value)
    ensures ProperEntry(EntryOf(m)) && EntryValue(EntryOf(m)) == m
  {
    PartsAre(m.key, "");
    assert ProperItem(ItemOf(m.value));
  }

  lemma {:induction false} EntriesAre(ms: seq<Member>)
    ensures |EntriesOf(ms)| == |ms| && EntryValues(EntriesOf(ms)) == ms
    ensures forall i | 0 <= i < |ms| :: ProperEntry(EntriesOf(ms)[i]) && EntriesOf(ms)[i] == EntryOf(ms[i])
    decreases ms, 0
  {
    if ms != [] {
      SpellingIs(ms[0].value);
      EntryIs(ms[0]);
      EntriesAre(ms[1..]);
      assert ms == [ms[0]] + ms[1..];
      assert EntriesOf(ms)[1..] == EntriesOf(ms[1..]);
    }
  }

  lemma {:induction false} SpellingText(v: Json, rest: string)
    ensures TextThen(SpellingOf(v), rest) == EmitThen(v, rest)
    decreases v, 1
  {
    match v
    case Int(n) => NumberIs(n, rest);
    case Str(s) => PartsAre(s, "\"" + rest);
    case Arr(items) =>
      ItemsAre(items);
      if items != [] { ItemsText(items, rest); } else { assert "" + ("]" + rest) == "]" + rest; }
    case Obj(ms) =>
      EntriesAre(ms);
      if ms != [] { EntriesText(ms, rest); } else { assert "" + ("}" + rest) == "}" + rest; }
    case _ =>
  }

  lemma {:induction false} ItemText(v: Json, rest: string)
    ensures ItemThen(ItemOf(v), rest) == TextThen(SpellingOf(v), rest)
  {
    assert "" + rest == rest;
    assert "" + TextThen(SpellingOf(v), rest) == TextThen(SpellingOf(v), rest);
  }

  lemma {:induction false} ItemsText(items: seq<Json>, rest: string)
    requires items != []
    ensures ItemsThen(ItemsOf(items), rest) == EmitItemsThen(items, "]" + rest)
    decreases items, 0
  {
    ItemsAre(items);
    assert ItemsOf(items)[1..] == ItemsOf(items[1..]);
    var close := if |items| == 1 then "]" + rest else "," + EmitItemsThen(items[1..], "]" + rest);
    if |items| > 1 { ItemsText(items[1..], rest); }
    ItemText(items[0], close);
    SpellingText(items[0], close);
  }

  lemma {:induction false} EntryText(m: Member, rest: string)
    ensures EntryThen(EntryOf(m), rest) == QuoteThen(m.key, ":" + TextThen(SpellingOf(m.value), rest))
  {
    ItemText(m.value, rest);
    var tail := ":" + TextThen(SpellingOf(m.value), rest);
    PartsAre(m.key, "\"" + tail);
    assert "" + tail == tail && "" + QuoteThen(m.key, tail) == QuoteThen(m.key, tail);
  }

  lemma {:induction false} EntriesText(ms: seq<Member>, rest: string)
    requires ms != []
    ensures EntriesThen(EntriesOf(ms), rest) == EmitMembersThen(ms, "}" + rest)
    decreases ms, 0
  {
    EntriesAre(ms);
    assert EntriesOf(ms)[1..] == EntriesOf(ms[1..]);
    var close := if |ms| == 1 then "}" + rest else "," + EmitMembersThen(ms[1..], "}" + rest);
    if |ms| > 1 { EntriesText(ms[1..], rest); }
    EntryText(ms[0], close);
    SpellingText(ms[0].value, close);
  }

  // A value in the printer's order: in every object, keys rise.
  ghost predicate InKeyOrder(v: Json) {
    match v
    case Arr(items) => forall x | x in items :: InKeyOrder(x)
    case Obj(ms) =>
      && (forall i, j | 0 <= i < j < |ms| :: StringLe(ms[i].key, ms[j].key) && ms[i].key != ms[j].key)
      && forall m | m in ms :: InKeyOrder(m.value)
    case _ => true
  }

  lemma {:induction false} SpellingIsCompact(v: Json)
    requires InKeyOrder(v)
    ensures Compact(SpellingOf(v))
    decreases v
  {
    match v
    case Int(n) => NumberIs(n, "");
    case Str(s) => PartsAre(s, "");
    case Arr(items) =>
      forall x | x in items { SpellingIsCompact(x); }
      ItemsAreCompact(items);
    case Obj(ms) =>
      forall m | m in ms { SpellingIsCompact(m.value); }
      EntriesAreCompact(ms);
    case _ =>
  }

  lemma {:induction false} ItemsAreCompact(items: seq<Json>)
    requires forall x | x in items :: Compact(SpellingOf(x))
    ensures forall i | 0 <= i < |ItemsOf(items)| :: CompactItem(ItemsOf(items)[i])
  {
    ItemsAre(items);
    forall i | 0 <= i < |items| ensures CompactItem(ItemsOf(items)[i]) { assert items[i] in items; }
  }

  lemma {:induction false} EntryIsCompact(m: Member)
    requires Compact(SpellingOf(m.value))
    ensures CompactEntry(EntryOf(m))
  {
    PartsAre(m.key, "");
    assert CompactItem(ItemOf(m.value));
  }

  lemma {:induction false} EntriesAreCompact(ms: seq<Member>)
    requires forall m | m in ms :: Compact(SpellingOf(m.value))
    ensures |EntriesOf(ms)| == |ms| && forall i | 0 <= i < |ms| :: EntriesOf(ms)[i].key == ms[i].key
    ensures forall i | 0 <= i < |ms| :: CompactEntry(EntriesOf(ms)[i])
  {
    EntriesAre(ms);
    forall i | 0 <= i < |ms| ensures CompactEntry(EntriesOf(ms)[i]) {
      assert ms[i] in ms;
      EntryIsCompact(ms[i]);
    }
  }

  lemma {:induction false} CanonIsInKeyOrder(v: Json)
    requires WellFormed(v)
    ensures InKeyOrder(Canon(v))
    decreases v
  {
    match v
    case Arr(items) =>
      forall x | x in Canon(v).items ensures InKeyOrder(x) {
        var i :| 0 <= i < |items| && Canon(v).items[i] == x;
        assert items[i] in items;
        CanonIsInKeyOrder(items[i]);
      }
    case Obj(ms) =>
      CanonKeysRise(ms);
      SortIsPermutationOfMembers(CanonMembers(ms));
      forall m | m in Canon(v).members ensures InKeyOrder(m.value) {
        assert m in CanonMembers(ms);
        var i :| 0 <= i < |ms| && CanonMembers(ms)[i] == m;
        assert ms[i] in ms;
        CanonIsInKeyOrder(ms[i].value);
      }
    case _ =>
  }

  /** A value is printed as a compact spelling of itself: its members in rising order of their keys, no white
      space, nothing escaped that need not be. */
  lemma {:induction false} PrintIsCompact(v: Json)
    requires WellFormed(v)
    ensures exists sp :: Print(v) == TextThen(sp, "") && Proper(sp) && Compact(sp) && ValueOf(sp) == Canon(v)
  {
    var c := Canon(v);
    CanonIsInKeyOrder(v);
    SpellingIs(c);
    SpellingIsCompact(c);
    SpellingText(c, "");
  }
}
