/** The grammar of JSON text, after RFC 8259 (sections 2 to 7) for integer numbers, as trees of spellings: which
    texts the parser accepts, and what they mean. */
module JsonGrammar {
  import opened JsonValues
  import opened JsonText

  // ---------------------------------------------------------------- spellings

  datatype CharText = Plain(c: char) | Escaped(letter: char) | Unicode(hex: string) | Pair(high: string, low: string)

  datatype Spelling =
    | Word(v: Json)
    | Number(negative: bool, digits: string)
    | Quoted(parts: seq<CharText>, s: string)
    | Listed(gap: string, items: seq<Item>)
    | Braced(gap: string, entries: seq<Entry>)

  // White space surrounds the value of an item, and the key and the value of an entry.
  datatype Item = Item(before: string, value: Spelling, after: string)

  datatype Entry = Entry(before: string, parts: seq<CharText>, key: string, colon: string, item: Item)

  predicate Spaces(ws: string) { forall i | 0 <= i < |ws| :: ws[i] in {' ', '\t', '\n', '\r'} }

  predicate HexDigitIs(c: char, d: nat) {
    if d < 10 then c as int == '0' as int + d
    else d < 16 && (c as int == 'a' as int + (d - 10) || c as int == 'A' as int + (d - 10))
  }

  ghost predicate HexIs(hex: string, n: nat) {
    |hex| == 4 && exists a: nat, b: nat, c: nat, d: nat ::
      && HexDigitIs(hex[0], a) && HexDigitIs(hex[1], b) && HexDigitIs(hex[2], c) && HexDigitIs(hex[3], d)
      && n == 4096 * a + 256 * b + 16 * c + d
  }

  // What one character of a string may be written as.
  ghost predicate Means(x: CharText, c: char) {
    match x
    case Plain(d) => c == d && d as int >= 32 && d != '\"' && d != '\\'
    case Escaped(letter) => EscapeMeans(letter, c)
    case Unicode(hex) => HexIs(hex, c as nat) && !(0xD800 <= c as nat < 0xE000)
    case Pair(high, low) =>
      exists h: nat, l: nat | HexIs(high, h) && HexIs(low, l) ::
        0xD800 <= h < 0xDC00 && 0xDC00 <= l < 0xE000 && c as nat == 0x10000 + (h - 0xD800) * 1024 + (l - 0xDC00)
  }

  predicate EscapeMeans(letter: char, c: char) {
    || (letter == '\"' && c == '\"') || (letter == '\\' && c == '\\') || (letter == '/' && c == '/')
    || (letter == 'b' && c as int == 8) || (letter == 't' && c as int == 9) || (letter == 'n' && c as int == 10)
    || (letter == 'f' && c as int == 12) || (letter == 'r' && c as int == 13)
  }

  ghost predicate Spells(parts: seq<CharText>, s: string) {
    |parts| == |s| && forall i | 0 <= i < |s| :: Means(parts[i], s[i])
  }

  // Digits without a superfluous leading zero.
  predicate Decimal(ds: string) { ds != "" && (forall i | 0 <= i < |ds| :: IsDigit(ds[i])) && (|ds| > 1 ==> ds[0] != '0') }

  ghost predicate Proper(sp: Spelling) {
    match sp
    case Word(v) => v.Null? || v.Bool?
    case Number(_, ds) => Decimal(ds)
    case Quoted(parts, s) => Spells(parts, s)
    case Listed(gap, items) => Spaces(gap) && forall i | 0 <= i < |items| :: ProperItem(items[i])
    case Braced(gap, entries) => Spaces(gap) && forall i | 0 <= i < |entries| :: ProperEntry(entries[i])
  }

  ghost predicate ProperItem(x: Item) { Spaces(x.before) && Spaces(x.after) && Proper(x.value) }

  ghost predicate ProperEntry(x: Entry) {
    Spaces(x.before) && Spaces(x.colon) && Spells(x.parts, x.key) && ProperItem(x.item)
  }

  // ---------------------------------------------------------------- the text of a spelling

  function CharThen(x: CharText, rest: string): string {
    match x
    case Plain(c) => [c] + rest
    case Escaped(letter) => "\\" + ([letter] + rest)
    case Unicode(hex) => "\\u" + (hex + rest)
    case Pair(high, low) => "\\u" + (high + ("\\u" + (low + rest)))
  }

  function PartsThen(parts: seq<CharText>, rest: string): string {
    if parts == [] then rest else CharThen(parts[0], PartsThen(parts[1..], rest))
  }

  function TextThen(sp: Spelling, rest: string): string {
    match sp
    case Word(v) => (if v.Null? then "null" else if v == Bool(true) then "true" else "false") + rest
    case Number(negative, ds) => if negative then "-" + (ds + rest) else ds + rest
    case Quoted(parts, _) => "\"" + PartsThen(parts, "\"" + rest)
    case Listed(gap, items) => "[" + if items == [] then gap + ("]" + rest) else ItemsThen(items, rest)
    case Braced(gap, entries) => "{" + if entries == [] then gap + ("}" + rest) else EntriesThen(entries, rest)
  }

  function ItemThen(x: Item, rest: string): string { x.before + TextThen(x.value, x.after + rest) }

  function ItemsThen(items: seq<Item>, rest: string): string {
    if items == [] then rest
    else ItemThen(items[0], if |items| == 1 then "]" + rest else "," + ItemsThen(items[1..], rest))
  }

  function EntryThen(x: Entry, rest: string): string {
    x.before + ("\"" + PartsThen(x.parts, "\"" + (x.colon + (":" + ItemThen(x.item, rest)))))
  }

  function EntriesThen(entries: seq<Entry>, rest: string): string {
    if entries == [] then rest
    else EntryThen(entries[0], if |entries| == 1 then "}" + rest else "," + EntriesThen(entries[1..], rest))
  }

  // ---------------------------------------------------------------- the value of a spelling

  function Power(k: nat): nat { if k == 0 then 1 else 10 * Power(k - 1) }

  // Digits by their places.
  function PlaceValue(ds: string): int {
    if ds == "" then 0 else (ds[0] as int - '0' as int) * Power(|ds| - 1) + PlaceValue(ds[1..])
  }

  // The value with every entry of every object, repeated keys included.
  function ValueOf(sp: Spelling): Json {
    match sp
    case Word(v) => v
    case Number(negative, ds) => Int(if negative then -PlaceValue(ds) else PlaceValue(ds))
    case Quoted(_, s) => Str(s)
    case Listed(_, items) => Arr(ItemValues(items))
    case Braced(_, entries) => Obj(EntryValues(entries))
  }

  function ItemValues(items: seq<Item>): seq<Json> {
    if items == [] then [] else [ValueOf(items[0].value)] + ItemValues(items[1..])
  }

  function EntryValues(entries: seq<Entry>): seq<Member> {
    if entries == [] then [] else [EntryValue(entries[0])] + EntryValues(entries[1..])
  }

  function EntryValue(x: Entry): Member { Member(x.key, ValueOf(x.item.value)) }

  // ---------------------------------------------------------------- numbers

  lemma {:induction false} PlaceValueOfPrefix(ds: string)
    requires ds != ""
    ensures PlaceValue(ds) == 10 * PlaceValue(ds[..|ds| - 1]) + (ds[|ds| - 1] as int - '0' as int)
  {
    if |ds| > 1 {
      var tail := ds[1..];
      PlaceValueOfPrefix(tail);
      assert tail[..|tail| - 1] == ds[..|ds| - 1][1..];
    } else {
      assert ds[1..] == "" && ds[..0] == "";
    }
  }

  lemma {:induction false} PlaceValueIs(ds: string)
    requires forall i | 0 <= i < |ds| :: IsDigit(ds[i])
    ensures PlaceValue(ds) == NatValue(ds)
  {
    if ds != "" {
      PlaceValueIs(ds[..|ds| - 1]);
      PlaceValueOfPrefix(ds);
    }
  }

  // What may follow a value: the end, white space, a comma or a closing bracket.
  predicate Follows(rest: string) { rest == [] || rest[0] in {' ', '\t', '\n', '\r', ',', ']', '}'} }

  lemma {:induction false} NatIsRead(ds: string, rest: string)
    requires Decimal(ds) && Follows(rest)
    ensures ParseNat(ds + rest) == Ok(NatValue(ds), rest)
  {
    DigitCountOfDigits(ds, rest);
    assert (ds + rest)[..|ds|] == ds && (ds + rest)[|ds|..] == rest;
  }

  lemma {:induction false} NumberIsRead(negative: bool, ds: string, rest: string)
    requires Decimal(ds) && Follows(rest)
    ensures ParseNumber(TextThen(Number(negative, ds), rest)) == Ok(ValueOf(Number(negative, ds)), rest)
  {
    NatIsRead(ds, rest);
    PlaceValueIs(ds);
    SignDispatches(ds + rest);
    assert (ds + rest)[0] == ds[0];
  }

  lemma {:induction false} NatIsSpelled(s: string) returns (ds: string)
    requires ParseNat(s).Ok?
    ensures Decimal(ds) && s == ds + ParseNat(s).rest && ParseNat(s).value == NatValue(ds)
  {
    var k := DigitCount(s);
    ds := s[..if s[0] == '0' then 1 else k];
    assert s == ds + s[|ds|..];
  }

  lemma {:induction false} NumberIsSpelled(s: string) returns (sp: Spelling)
    requires ParseNumber(s).Ok?
    ensures sp.Number? && Proper(sp) && s == TextThen(sp, ParseNumber(s).rest) && ParseNumber(s).value == ValueOf(sp)
  {
    var negative := s != [] && s[0] == '-';
    var ds := NatIsSpelled(if negative then s[1..] else s);
    PlaceValueIs(ds);
    sp := Number(negative, ds);
    if negative { assert s == "-" + s[1..]; }
  }

  // ---------------------------------------------------------------- characters

  lemma {:induction false} HexDigitIff(c: char, d: nat)
    ensures HexDigitIs(c, d) <==> HexValue(c) == Some(d)
  {
  }

  lemma {:induction false} HexIsRead(hex: string, n: nat)
    requires HexIs(hex, n)
    ensures Hex4(hex) == Some(n)
  {
    var a: nat, b: nat, c: nat, d: nat :|
      && HexDigitIs(hex[0], a) && HexDigitIs(hex[1], b) && HexDigitIs(hex[2], c) && HexDigitIs(hex[3], d)
      && n == 4096 * a + 256 * b + 16 * c + d;
    HexDigitIff(hex[0], a);
    HexDigitIff(hex[1], b);
    HexDigitIff(hex[2], c);
    HexDigitIff(hex[3], d);
  }

  lemma {:induction false} HexIsSpelled(hex: string)
    requires |hex| == 4 && Hex4(hex).Some?
    ensures HexIs(hex, Hex4(hex).value)
  {
    var a, b, c, d := HexValue(hex[0]).value, HexValue(hex[1]).value, HexValue(hex[2]).value, HexValue(hex[3]).value;
    HexDigitIff(hex[0], a);
    HexDigitIff(hex[1], b);
    HexDigitIff(hex[2], c);
    HexDigitIff(hex[3], d);
    assert HexDigitIs(hex[0], a) && HexDigitIs(hex[1], b) && HexDigitIs(hex[2], c) && HexDigitIs(hex[3], d);
  }

  lemma {:induction false} HexIff(s: string, n: nat)
    requires |s| >= 4
    ensures HexIs(s[..4], n) <==> Hex4(s) == Some(n)
  {
    assert Hex4(s) == Hex4(s[..4]);
    if Hex4(s).Some? { HexIsSpelled(s[..4]); }
    if HexIs(s[..4], n) { HexIsRead(s[..4], n); }
  }

  lemma {:induction false} HexBefore(hex: string, n: nat, rest: string)
    requires HexIs(hex, n)
    ensures Hex4(hex + rest) == Some(n) && (hex + rest)[4..] == rest
  {
    assert (hex + rest)[..4] == hex;
    HexIff(hex + rest, n);
  }

  lemma {:induction false} EscapeIff(letter: char, c: char)
    ensures EscapeMeans(letter, c) <==> SimpleEscape(letter) == Some(c)
  {
  }

  lemma {:induction false} PairIsRead(high: string, h: nat, low: string, l: nat, rest: string)
    requires HexIs(high, h) && HexIs(low, l) && 0xD800 <= h < 0xDC00 && 0xDC00 <= l < 0xE000
    ensures ParseUnicode(high + ("\\u" + (low + rest)))
         == Ok((0x10000 + (h - 0xD800) * 1024 + (l - 0xDC00)) as char, rest)
  {
    var s := high + ("\\u" + (low + rest));
    HexBefore(high, h, "\\u" + (low + rest));
    HexBefore(low, l, rest);
    assert s[4] == '\\' && s[5] == 'u' && s[6..] == low + rest;
    assert s[10..] == (low + rest)[4..];
  }

  lemma {:induction false} LetterIsRead(letter: char, c: char, rest: string)
    requires EscapeMeans(letter, c)
    ensures ParseChar(CharThen(Escaped(letter), rest)) == Ok(c, rest)
  {
    EscapeIff(letter, c);
    assert ("\\" + ([letter] + rest))[2..] == rest;
  }

  lemma {:induction false} UnicodeIsRead(s: string)
    ensures ParseChar("\\u" + s) == ParseUnicode(s)
  {
    assert ("\\u" + s)[2..] == s;
  }

  lemma {:induction false} PairMeans(high: string, low: string, c: char, rest: string)
    requires Means(Pair(high, low), c)
    ensures ParseUnicode(high + ("\\u" + (low + rest))) == Ok(c, rest)
  {
    var h: nat, l: nat :| HexIs(high, h) && HexIs(low, l) && 0xD800 <= h < 0xDC00 && 0xDC00 <= l < 0xE000
                          && c as nat == 0x10000 + (h - 0xD800) * 1024 + (l - 0xDC00);
    PairIsRead(high, h, low, l, rest);
  }

  lemma {:induction false} UnicodeMeans(hex: string, c: char, rest: string)
    requires Means(Unicode(hex), c)
    ensures ParseUnicode(hex + rest) == Ok(c, rest)
  {
    HexBefore(hex, c as nat, rest);
  }

  lemma {:induction false} EscapeIsRead(x: CharText, c: char, rest: string)
    requires Means(x, c) && !x.Plain?
    ensures ParseChar(CharThen(x, rest)) == Ok(c, rest)
  {
    match x
    case Escaped(letter) => LetterIsRead(letter, c, rest);
    case Unicode(hex) =>
      UnicodeMeans(hex, c, rest);
      UnicodeIsRead(hex + rest);
    case Pair(high, low) =>
      PairMeans(high, low, c, rest);
      UnicodeIsRead(high + ("\\u" + (low + rest)));
  }

  lemma {:induction false} CharIsRead(x: CharText, c: char, rest: string)
    requires Means(x, c)
    ensures ParseChar(CharThen(x, rest)) == Ok(c, rest) && CharThen(x, rest)[0] != '\"'
  {
    if x.Plain? {
      assert ([c] + rest)[1..] == rest;
    } else {
      EscapeIsRead(x, c, rest);
    }
  }

  lemma {:induction false} UnicodeIsSpelled(s: string) returns (x: CharText)
    requires ParseUnicode(s).Ok?
    ensures Means(x, ParseUnicode(s).value) && "\\u" + s == CharThen(x, ParseUnicode(s).rest)
  {
    var u := Hex4(s).value;
    HexIff(s, u);
    assert s == s[..4] + s[4..];
    if 0xD800 <= u < 0xDC00 {
      var l := Hex4(s[6..]).value;
      HexIff(s[6..], l);
      assert s[4..] == "\\u" + s[6..] && s[6..] == s[6..][..4] + s[10..];
      x := Pair(s[..4], s[6..][..4]);
    } else {
      x := Unicode(s[..4]);
    }
  }

  lemma {:induction false} CharIsSpelled(s: string) returns (x: CharText)
    requires s != [] && s[0] != '\"' && ParseChar(s).Ok?
    ensures Means(x, ParseChar(s).value) && s == CharThen(x, ParseChar(s).rest)
  {
    if s[0] != '\\' {
      x := Plain(s[0]);
      assert s == [s[0]] + s[1..];
    } else if s[1] == 'u' {
      x := UnicodeIsSpelled(s[2..]);
      assert s == "\\u" + s[2..];
    } else {
      x := Escaped(s[1]);
      EscapeIff(s[1], ParseChar(s).value);
      assert s == "\\" + ([s[1]] + s[2..]);
    }
  }

  lemma {:induction false} SpellsTail(parts: seq<CharText>, s: string)
    requires Spells(parts, s) && parts != []
    ensures Means(parts[0], s[0]) && Spells(parts[1..], s[1..]) && s == [s[0]] + s[1..]
  {
  }

  // A string token from its first character on.
  lemma {:induction false} CharStartsString(x: CharText, c: char, after: string)
    requires Means(x, c)
    ensures ParseString(CharThen(x, after))
         == match ParseString(after) case Bad => Bad case Ok(t, rest) => Ok([c] + t, rest)
  {
    CharIsRead(x, c, after);
  }

  lemma {:induction false} PartsAreRead(parts: seq<CharText>, s: string, rest: string)
    requires Spells(parts, s)
    ensures ParseString(PartsThen(parts, "\"" + rest)) == Ok(s, rest)
  {
    if parts == [] {
      assert ("\"" + rest)[1..] == rest;
    } else {
      SpellsTail(parts, s);
      CharStartsString(parts[0], s[0], PartsThen(parts[1..], "\"" + rest));
      PartsAreRead(parts[1..], s[1..], rest);
    }
  }

  lemma {:induction false} PartsAreSpelled(s: string) returns (parts: seq<CharText>)
    requires ParseString(s).Ok?
    ensures Spells(parts, ParseString(s).value) && s == PartsThen(parts, "\"" + ParseString(s).rest)
    decreases |s|
  {
    if s[0] == '\"' {
      parts := [];
      assert s == "\"" + s[1..];
    } else {
      var x := CharIsSpelled(s);
      var more := PartsAreSpelled(ParseChar(s).rest);
      parts := [x] + more;
      assert parts[1..] == more;
    }
  }

  // ---------------------------------------------------------------- white space

  predicate Solid(rest: string) { rest == [] || !IsSpace(rest[0]) }

  lemma {:induction false} SpacesAreSkipped(ws: string, rest: string)
    requires Spaces(ws) && Solid(rest)
    ensures SkipSpace(ws + rest) == rest
  {
    if ws == [] {
      assert ws + rest == rest;
    } else {
      assert ws[0] in {' ', '\t', '\n', '\r'} && (ws + rest)[1..] == ws[1..] + rest;
      SpacesAreSkipped(ws[1..], rest);
    }
  }

  lemma {:induction false} SkippedIsSpaces(s: string) returns (ws: string)
    ensures Spaces(ws) && s == ws + SkipSpace(s) && Solid(SkipSpace(s))
  {
    if s != [] && IsSpace(s[0]) {
      var more := SkippedIsSpaces(s[1..]);
      ws := [s[0]] + more;
      assert s == [s[0]] + s[1..];
    } else {
      ws := [];
      assert s == ws + s;
    }
  }

  lemma {:induction false} SpacesFollow(ws: string, rest: string)
    requires Spaces(ws) && Follows(rest)
    ensures Follows(ws + rest)
  {
    if ws != [] { assert (ws + rest)[0] == ws[0]; } else { assert ws + rest == rest; }
  }

  // ---------------------------------------------------------------- every spelling is read

  lemma {:induction false} Starts(sp: Spelling, rest: string)
    requires Proper(sp)
    ensures var t := TextThen(sp, rest); t != [] && !IsSpace(t[0]) && t[0] != ']' && t[0] != '}'
  {
    if sp.Number? { assert IsDigit(sp.digits[0]); }
  }

  lemma {:induction false} SimpleIsRead(sp: Spelling, rest: string, strict: bool)
    requires Proper(sp) && Follows(rest) && !sp.Listed? && !sp.Braced?
    ensures ParseValue(TextThen(sp, rest), strict) == Ok(ValueOf(sp), rest)
  {
    match sp
    case Word(v) => WordParses(if v.Null? then "null" else if v == Bool(true) then "true" else "false", rest, v);
    case Number(negative, ds) =>
      NumberIsRead(negative, ds, rest);
      assert IsDigit(ds[0]);
      NumberDispatches(TextThen(sp, rest), strict);
    case Quoted(parts, s) =>
      FirstCharDispatches(PartsThen(parts, "\"" + rest), strict);
      PartsAreRead(parts, s, rest);
  }

  // The separator after an item or entry: the end, or a comma and the next one.

  lemma {:induction false} ItemThenMore(s: string, v: Option<Json>, u: string, rest: string, strict: bool)
    requires ParseValue(s, strict) == Before(v, u)
    ensures SkipSpace(u) == "]" + rest ==> ParseItems(s, strict) == if v.Some? then Ok([v.value], rest) else Bad
    ensures SkipSpace(u) == "," + rest ==>
      ParseItems(s, strict)
      == if v.None? then Bad
         else match ParseItems(SkipSpace(rest), strict) case Bad => Bad case Ok(vs, r) => Ok([v.value] + vs, r)
  {
    assert ("]" + rest)[1..] == rest && ("," + rest)[1..] == rest;
  }

  lemma {:induction false} EntryThenMore(s: string, m: Option<Member>, u: string, rest: string, strict: bool)
    requires ParseMember(s, strict) == Before(m, u)
    ensures SkipSpace(u) == "}" + rest ==> ParseMembers(s, strict) == if m.Some? then Ok([m.value], rest) else Bad
    ensures SkipSpace(u) == "," + rest ==>
      ParseMembers(s, strict)
      == if m.None? then Bad
         else match ParseMembers(SkipSpace(rest), strict) case Bad => Bad case Ok(ms, r) => Ok([m.value] + ms, r)
  {
    assert ("}" + rest)[1..] == rest && ("," + rest)[1..] == rest;
  }

  lemma {:induction false} SpellingIsRead(sp: Spelling, rest: string, strict: bool)
    requires Proper(sp) && Follows(rest)
    ensures ParseValue(TextThen(sp, rest), strict) == Before(Read(ValueOf(sp), strict), rest)
    decreases sp, 2
  {
    match sp
    case Listed(gap, items) =>
      FirstCharDispatches(if items == [] then gap + ("]" + rest) else ItemsThen(items, rest), strict);
      ListIsRead(gap, items, rest, strict);
    case Braced(gap, entries) =>
      FirstCharDispatches(if entries == [] then gap + ("}" + rest) else EntriesThen(entries, rest), strict);
      BracesAreRead(gap, entries, rest, strict);
    case _ => SimpleIsRead(sp, rest, strict);
  }

  lemma {:induction false} ListIsRead(gap: string, items: seq<Item>, rest: string, strict: bool)
    requires Spaces(gap) && forall i | 0 <= i < |items| :: ProperItem(items[i])
    ensures ParseArray(if items == [] then gap + ("]" + rest) else ItemsThen(items, rest), strict)
         == Before(Read(Arr(ItemValues(items)), strict), rest)
    decreases items, 2
  {
    if items == [] {
      SpacesAreSkipped(gap, "]" + rest);
      assert ("]" + rest)[1..] == rest;
    } else {
      SkipBefore(items[0], AfterItem(items, rest));
      ItemsAreRead(items, rest, strict);
    }
  }

  // After the white space, the text of an item starts with its value.
  lemma {:induction false} SkipBefore(x: Item, close: string)
    requires ProperItem(x)
    ensures var t := SkipSpace(ItemThen(x, close)); t != [] && t[0] != ']' && t == TextThen(x.value, x.after + close)
  {
    Starts(x.value, x.after + close);
    SpacesAreSkipped(x.before, TextThen(x.value, x.after + close));
  }

  lemma {:induction false} ItemIsRead(x: Item, close: string, strict: bool)
    requires ProperItem(x) && Follows(close) && Solid(close)
    ensures ParseValue(SkipSpace(ItemThen(x, close)), strict) == Before(Read(ValueOf(x.value), strict), x.after + close)
    ensures SkipSpace(x.after + close) == close
    decreases x, 0
  {
    SkipBefore(x, close);
    SpacesFollow(x.after, close);
    SpacesAreSkipped(x.after, close);
    SpellingIsRead(x.value, x.after + close, strict);
  }

  function AfterItem(items: seq<Item>, rest: string): string
    requires items != []
  {
    if |items| == 1 then "]" + rest else "," + ItemsThen(items[1..], rest)
  }

  lemma {:induction false} ValuesAreRead(items: seq<Item>, strict: bool)
    requires items != []
    ensures |items| == 1 ==>
      ReadItems(ItemValues(items), strict)
      == match Read(ValueOf(items[0].value), strict) case None => None case Some(v) => Some([v])
    ensures ReadItems(ItemValues(items), strict)
         == match Read(ValueOf(items[0].value), strict)
            case None => None
            case Some(v) =>
              match ReadItems(ItemValues(items[1..]), strict) case None => None case Some(vs) => Some([v] + vs)
  {
    assert ItemValues(items)[1..] == ItemValues(items[1..]);
    if |items| == 1 { ReadOneItem(ItemValues(items), strict); }
  }

  lemma {:induction false} ItemsAreRead(items: seq<Item>, rest: string, strict: bool)
    requires items != [] && forall i | 0 <= i < |items| :: ProperItem(items[i])
    ensures ParseItems(SkipSpace(ItemsThen(items, rest)), strict) == Before(ReadItems(ItemValues(items), strict), rest)
    decreases items, 1
  {
    var close, v := AfterItem(items, rest), Read(ValueOf(items[0].value), strict);
    var s := SkipSpace(ItemThen(items[0], close));
    ItemIsRead(items[0], close, strict);
    ValuesAreRead(items, strict);
    if |items| == 1 {
      ItemThenMore(s, v, items[0].after + close, rest, strict);
    } else {
      ItemThenMore(s, v, items[0].after + close, ItemsThen(items[1..], rest), strict);
      ItemsAreRead(items[1..], rest, strict);
    }
  }

  lemma {:induction false} BracesAreRead(gap: string, entries: seq<Entry>, rest: string, strict: bool)
    requires Spaces(gap) && forall i | 0 <= i < |entries| :: ProperEntry(entries[i])
    ensures ParseObject(if entries == [] then gap + ("}" + rest) else EntriesThen(entries, rest), strict)
         == Before(Read(Obj(EntryValues(entries)), strict), rest)
    decreases entries, 3
  {
    if entries == [] {
      SpacesAreSkipped(gap, "}" + rest);
      assert ("}" + rest)[1..] == rest;
      LastWinsProperties([]);
    } else {
      SkipToKey(entries, rest);
      EntriesAreRead(entries, rest, strict);
    }
  }

  function AfterEntry(entries: seq<Entry>, rest: string): string
    requires entries != []
  {
    if |entries| == 1 then "}" + rest else "," + EntriesThen(entries[1..], rest)
  }

  // The text of an entry from its opening quote.
  function KeyThen(x: Entry, rest: string): string {
    "\"" + PartsThen(x.parts, "\"" + (x.colon + (":" + ItemThen(x.item, rest))))
  }

  lemma {:induction false} SkipToKey(entries: seq<Entry>, rest: string)
    requires entries != [] && ProperEntry(entries[0])
    ensures
      var t := SkipSpace(EntriesThen(entries, rest));
      t != [] && t[0] != '}' && t == KeyThen(entries[0], AfterEntry(entries, rest))
  {
    SpacesAreSkipped(entries[0].before, KeyThen(entries[0], AfterEntry(entries, rest)));
  }

  lemma {:induction false} MembersAreRead(entries: seq<Entry>, strict: bool)
    requires entries != []
    ensures |entries| == 1 ==>
      ReadMembers(EntryValues(entries), strict)
      == match ReadMember(EntryValue(entries[0]), strict) case None => None case Some(m) => Some([m])
    ensures ReadMembers(EntryValues(entries), strict)
         == match ReadMember(EntryValue(entries[0]), strict)
            case None => None
            case Some(m) =>
              match ReadMembers(EntryValues(entries[1..]), strict) case None => None case Some(ms) => Some([m] + ms)
  {
    assert EntryValues(entries)[1..] == EntryValues(entries[1..]);
    if |entries| == 1 { ReadOneMember(EntryValues(entries), strict); }
  }

  lemma {:induction false} EntriesAreRead(entries: seq<Entry>, rest: string, strict: bool)
    requires entries != [] && forall i | 0 <= i < |entries| :: ProperEntry(entries[i])
    ensures ParseMembers(SkipSpace(EntriesThen(entries, rest)), strict)
         == Before(ReadMembers(EntryValues(entries), strict), rest)
    decreases entries, 2
  {
    var x, close := entries[0], AfterEntry(entries, rest);
    var s, m := KeyThen(x, close), ReadMember(EntryValue(x), strict);
    SkipToKey(entries, rest);
    EntryIsRead(x, close, strict);
    MembersAreRead(entries, strict);
    if |entries| == 1 {
      EntryThenMore(s, m, x.item.after + close, rest, strict);
    } else {
      EntryThenMore(s, m, x.item.after + close, EntriesThen(entries[1..], rest), strict);
      EntriesAreRead(entries[1..], rest, strict);
    }
  }

  lemma {:induction false} KeyIsRead(x: Entry, tail: string, strict: bool)
    requires Spells(x.parts, x.key) && Spaces(x.colon)
    ensures ParseMember("\"" + PartsThen(x.parts, "\"" + (x.colon + (":" + tail))), strict)
         == match ParseValue(SkipSpace(tail), strict) case Bad => Bad case Ok(v, rest) => Ok(Member(x.key, v), rest)
  {
    var body := PartsThen(x.parts, "\"" + (x.colon + (":" + tail)));
    assert ("\"" + body)[1..] == body;
    PartsAreRead(x.parts, x.key, x.colon + (":" + tail));
    SpacesAreSkipped(x.colon, ":" + tail);
    assert (":" + tail)[1..] == tail;
  }

  lemma {:induction false} EntryIsRead(x: Entry, close: string, strict: bool)
    requires ProperEntry(x) && Follows(close) && Solid(close)
    ensures ParseMember(KeyThen(x, close), strict) == Before(ReadMember(EntryValue(x), strict), x.item.after + close)
    ensures SkipSpace(x.item.after + close) == close
    decreases x, 0
  {
    KeyIsRead(x, ItemThen(x.item, close), strict);
    ItemIsRead(x.item, close, strict);
  }

  // ---------------------------------------------------------------- what is read has a spelling

  lemma {:induction false} ValueIsSpelled(s: string, strict: bool) returns (sp: Spelling)
    requires ParseValue(s, strict).Ok?
    ensures Proper(sp) && s == TextThen(sp, ParseValue(s, strict).rest)
    ensures Read(ValueOf(sp), strict) == Some(ParseValue(s, strict).value)
    decreases |s|, 0
  {
    if s[0] == '\"' {
      var parts := PartsAreSpelled(s[1..]);
      sp := Quoted(parts, ParseString(s[1..]).value);
      assert s == "\"" + s[1..];
    } else if s[0] == '{' {
      sp := BracesAreSpelled(s[1..], strict);
      assert s == "{" + s[1..];
    } else if s[0] == '[' {
      sp := ListIsSpelled(s[1..], strict);
      assert s == "[" + s[1..];
    } else if s[0] == 'n' || s[0] == 't' || s[0] == 'f' {
      sp := WordIsSpelled(s, strict);
    } else {
      sp := NumberIsSpelled(s);
    }
  }

  lemma {:induction false} WordIsSpelled(s: string, strict: bool) returns (sp: Spelling)
    requires s != [] && (s[0] == 'n' || s[0] == 't' || s[0] == 'f') && ParseValue(s, strict).Ok?
    ensures Proper(sp) && s == TextThen(sp, ParseValue(s, strict).rest)
    ensures Read(ValueOf(sp), strict) == Some(ParseValue(s, strict).value)
  {
    sp := Word(ParseValue(s, strict).value);
    var word := if s[0] == 'n' then "null" else if s[0] == 't' then "true" else "false";
    assert s == s[..|word|] + s[|word|..];
  }

  lemma {:induction false} ListIsSpelled(s: string, strict: bool) returns (sp: Spelling)
    requires ParseArray(s, strict).Ok?
    ensures Proper(sp) && "[" + s == TextThen(sp, ParseArray(s, strict).rest)
    ensures Read(ValueOf(sp), strict) == Some(ParseArray(s, strict).value)
    decreases |s|, 3
  {
    var t := SkipSpace(s);
    var ws := SkippedIsSpaces(s);
    if t != [] && t[0] == ']' {
      sp := Listed(ws, []);
      assert t == "]" + t[1..];
    } else {
      var items := ItemsAreSpelled(ws, t, strict);
      sp := Listed("", items);
    }
  }

  // The text is a spelling of the items, which the hook reads as these values.
  ghost predicate ItemsSpell(items: seq<Item>, text: string, rest: string, vs: seq<Json>, strict: bool) {
    && items != [] && text == ItemsThen(items, rest)
    && (forall i | 0 <= i < |items| :: ProperItem(items[i]))
    && ReadItems(ItemValues(items), strict) == Some(vs)
  }

  lemma {:induction false} ItemsAreSpelled(before: string, s: string, strict: bool) returns (items: seq<Item>)
    requires Spaces(before) && ParseItems(s, strict).Ok?
    ensures ItemsSpell(items, before + s, ParseItems(s, strict).rest, ParseItems(s, strict).value, strict)
    decreases |s|, 2
  {
    ItemsCases(s, strict);
    var v := ParseValue(s, strict).value;
    var t := SkipSpace(ParseValue(s, strict).rest);
    var after := SkippedIsSpaces(ParseValue(s, strict).rest);
    var x := ItemIsSpelled(before, s, after, t, strict);
    if t[0] == ']' {
      items := [x];
      LastItem(x, before + s, t, v, strict);
    } else {
      var ws := SkippedIsSpaces(t[1..]);
      var next := SkipSpace(t[1..]);
      var more := ItemsAreSpelled(ws, next, strict);
      items := [x] + more;
      FirstItem(x, more, before + s, t, ParseItems(next, strict).rest, v, ParseItems(next, strict).value, strict);
    }
  }

  // Items are read up to a closing bracket, or up to a comma and then further.
  lemma {:induction false} ItemsCases(s: string, strict: bool)
    requires ParseItems(s, strict).Ok?
    ensures
      var v := ParseValue(s, strict);
      && v.Ok? && SkipSpace(v.rest) != []
      && var t := SkipSpace(v.rest);
         if t[0] == ']' then ParseItems(s, strict) == Ok([v.value], t[1..])
         else t[0] == ',' && ParseItems(SkipSpace(t[1..]), strict).Ok?
              && ParseItems(s, strict)
              == Ok([v.value] + ParseItems(SkipSpace(t[1..]), strict).value, ParseItems(SkipSpace(t[1..]), strict).rest)
  {
  }

  lemma {:induction false} LastItem(x: Item, text: string, t: string, v: Json, strict: bool)
    requires ProperItem(x) && Read(ValueOf(x.value), strict) == Some(v)
    requires text == ItemThen(x, t) && t != [] && t[0] == ']'
    ensures ItemsSpell([x], text, t[1..], [v], strict)
  {
    assert t == "]" + t[1..] && [x][1..] == [];
    assert ItemValues([x]) == [ValueOf(x.value)];
    ReadOneItem(ItemValues([x]), strict);
  }

  lemma {:induction false} FirstItem(x: Item, more: seq<Item>, text: string, t: string, rest: string, v: Json, vs: seq<Json>, strict: bool)
    requires ProperItem(x) && Read(ValueOf(x.value), strict) == Some(v)
    requires text == ItemThen(x, t) && t != [] && t[0] == ',' && ItemsSpell(more, t[1..], rest, vs, strict)
    ensures ItemsSpell([x] + more, text, rest, [v] + vs, strict)
  {
    assert t == "," + t[1..] && ([x] + more)[1..] == more;
    assert ItemValues([x] + more)[1..] == ItemValues(more);
  }

  lemma {:induction false} ItemIsSpelled(before: string, s: string, after: string, t: string, strict: bool)
    returns (x: Item)
    requires Spaces(before) && Spaces(after) && ParseValue(s, strict).Ok? && ParseValue(s, strict).rest == after + t
    ensures ProperItem(x) && before + s == ItemThen(x, t)
    ensures Read(ValueOf(x.value), strict) == Some(ParseValue(s, strict).value)
    decreases |s|, 1
  {
    var sp := ValueIsSpelled(s, strict);
    x := Item(before, sp, after);
  }

  lemma {:induction false} BracesAreSpelled(s: string, strict: bool) returns (sp: Spelling)
    requires ParseObject(s, strict).Ok?
    ensures Proper(sp) && "{" + s == TextThen(sp, ParseObject(s, strict).rest)
    ensures Read(ValueOf(sp), strict) == Some(ParseObject(s, strict).value)
    decreases |s|, 3
  {
    var t := SkipSpace(s);
    var ws := SkippedIsSpaces(s);
    if t != [] && t[0] == '}' {
      sp := Braced(ws, []);
      assert t == "}" + t[1..];
      LastWinsProperties([]);
    } else {
      var entries := EntriesAreSpelled(ws, t, strict);
      sp := Braced("", entries);
    }
  }

  // The text is a spelling of the entries, which the hook reads as these members.
  ghost predicate EntriesSpell(entries: seq<Entry>, text: string, rest: string, ms: seq<Member>, strict: bool) {
    && entries != [] && text == EntriesThen(entries, rest)
    && (forall i | 0 <= i < |entries| :: ProperEntry(entries[i]))
    && ReadMembers(EntryValues(entries), strict) == Some(ms)
  }

  lemma {:induction false} EntriesAreSpelled(before: string, s: string, strict: bool) returns (entries: seq<Entry>)
    requires Spaces(before) && ParseMembers(s, strict).Ok?
    ensures EntriesSpell(entries, before + s, ParseMembers(s, strict).rest, ParseMembers(s, strict).value, strict)
    decreases |s|, 2
  {
    MembersCases(s, strict);
    var m := ParseMember(s, strict).value;
    var t := SkipSpace(ParseMember(s, strict).rest);
    var after := SkippedIsSpaces(ParseMember(s, strict).rest);
    var x := EntryIsSpelled(before, s, after, t, strict);
    if t[0] == '}' {
      entries := [x];
      LastEntry(x, before + s, t, m, strict);
    } else {
      var ws := SkippedIsSpaces(t[1..]);
      var next := SkipSpace(t[1..]);
      var more := EntriesAreSpelled(ws, next, strict);
      entries := [x] + more;
      FirstEntry(x, more, before + s, t, ParseMembers(next, strict).rest, m, ParseMembers(next, strict).value, strict);
    }
  }

  // Entries are read up to a closing bracket, or up to a comma and then further.
  lemma {:induction false} MembersCases(s: string, strict: bool)
    requires ParseMembers(s, strict).Ok?
    ensures
      var m := ParseMember(s, strict);
      && m.Ok? && SkipSpace(m.rest) != []
      && var t := SkipSpace(m.rest);
         if t[0] == '}' then ParseMembers(s, strict) == Ok([m.value], t[1..])
         else t[0] == ',' && ParseMembers(SkipSpace(t[1..]), strict).Ok?
              && ParseMembers(s, strict)
              == Ok([m.value] + ParseMembers(SkipSpace(t[1..]), strict).value, ParseMembers(SkipSpace(t[1..]), strict).rest)
  {
  }

  lemma {:induction false} LastEntry(x: Entry, text: string, t: string, m: Member, strict: bool)
    requires ProperEntry(x) && ReadMember(EntryValue(x), strict) == Some(m)
    requires text == EntryThen(x, t) && t != [] && t[0] == '}'
    ensures EntriesSpell([x], text, t[1..], [m], strict)
  {
    assert t == "}" + t[1..] && [x][1..] == [];
    assert EntryValues([x]) == [EntryValue(x)];
    ReadOneMember(EntryValues([x]), strict);
  }

  lemma {:induction false} FirstEntry(x: Entry, more: seq<Entry>, text: string, t: string, rest: string, m: Member, ms: seq<Member>,
                   strict: bool)
    requires ProperEntry(x) && ReadMember(EntryValue(x), strict) == Some(m)
    requires text == EntryThen(x, t) && t != [] && t[0] == ',' && EntriesSpell(more, t[1..], rest, ms, strict)
    ensures EntriesSpell([x] + more, text, rest, [m] + ms, strict)
  {
    assert t == "," + t[1..] && ([x] + more)[1..] == more;
    assert EntryValues([x] + more)[1..] == EntryValues(more);
  }

  lemma {:induction false} EntryIsSpelled(before: string, s: string, after: string, t: string, strict: bool)
    returns (x: Entry)
    requires Spaces(before) && Spaces(after) && ParseMember(s, strict).Ok? && ParseMember(s, strict).rest == after + t
    ensures ProperEntry(x) && before + s == EntryThen(x, t)
    ensures ReadMember(EntryValue(x), strict) == Some(ParseMember(s, strict).value)
    decreases |s|, 1
  {
    var parts, key, colon, tail := KeyIsSpelled(s, strict);
    var gap := SkippedIsSpaces(tail);
    var item := ItemIsSpelled(gap, SkipSpace(tail), after, t, strict);
    x := Entry(before, parts, key, colon, item);
  }

  lemma {:induction false} KeyIsSpelled(s: string, strict: bool)
    returns (parts: seq<CharText>, key: string, colon: string, tail: string)
    requires ParseMember(s, strict).Ok?
    ensures Spells(parts, key) && Spaces(colon) && s == "\"" + PartsThen(parts, "\"" + (colon + (":" + tail)))
    ensures |SkipSpace(tail)| < |s| && ParseValue(SkipSpace(tail), strict).Ok?
    ensures ParseMember(s, strict).value == Member(key, ParseValue(SkipSpace(tail), strict).value)
    ensures ParseMember(s, strict).rest == ParseValue(SkipSpace(tail), strict).rest
  {
    MemberCases(s, strict);
    var u := ParseString(s[1..]).rest;
    parts := PartsAreSpelled(s[1..]);
    key := ParseString(s[1..]).value;
    colon := SkippedIsSpaces(u);
    tail := SkipSpace(u)[1..];
    KeyText(s, parts, u, colon, tail);
  }

  lemma {:induction false} KeyText(s: string, parts: seq<CharText>, u: string, colon: string, tail: string)
    requires s != [] && s[0] == '\"' && s[1..] == PartsThen(parts, "\"" + u) && u == colon + SkipSpace(u)
    requires SkipSpace(u) != [] && SkipSpace(u)[0] == ':' && tail == SkipSpace(u)[1..]
    ensures s == "\"" + PartsThen(parts, "\"" + (colon + (":" + tail)))
  {
    assert s == "\"" + s[1..] && SkipSpace(u) == ":" + tail;
  }

  // An entry is a key, a colon and a value.
  lemma {:induction false} MemberCases(s: string, strict: bool)
    requires ParseMember(s, strict).Ok?
    ensures
      && s != [] && s[0] == '\"' && ParseString(s[1..]).Ok?
      && var t := SkipSpace(ParseString(s[1..]).rest);
         && t != [] && t[0] == ':' && |t| < |s| && ParseValue(SkipSpace(t[1..]), strict).Ok?
         && var v := ParseValue(SkipSpace(t[1..]), strict);
            ParseMember(s, strict) == Ok(Member(ParseString(s[1..]).value, v.value), v.rest)
  {
  }

  /** A text parses to a value exactly when it is a spelling of the grammar, with white space around it, and the
      value is what the hook makes of the entries it spells. */
  lemma {:induction false} LoadsIff(text: string, strict: bool, v: Json)
    ensures Loads(text, strict) == Some(v) <==>
      exists lead, sp, trail ::
        && Spaces(lead) && Spaces(trail) && Proper(sp) && text == lead + TextThen(sp, trail)
        && Read(ValueOf(sp), strict) == Some(v)
  {
    if Loads(text, strict) == Some(v) {
      var lead := SkippedIsSpaces(text);
      var sp := ValueIsSpelled(SkipSpace(text), strict);
      var rest := ParseValue(SkipSpace(text), strict).rest;
      var trail := SkippedIsSpaces(rest);
      assert trail + [] == trail;
    }
    if lead, sp, trail :|
      Spaces(lead) && Spaces(trail) && Proper(sp) && text == lead + TextThen(sp, trail)
      && Read(ValueOf(sp), strict) == Some(v)
    {
      SpellingLoads(lead, sp, trail, strict);
    }
  }

  /** Every spelling loads as the value it spells, or is refused by the hook. */
  lemma {:induction false} SpellingLoads(lead: string, sp: Spelling, trail: string, strict: bool)
    requires Spaces(lead) && Spaces(trail) && Proper(sp)
    ensures Loads(lead + TextThen(sp, trail), strict) == Read(ValueOf(sp), strict)
  {
    Starts(sp, trail);
    SpacesAreSkipped(lead, TextThen(sp, trail));
    SpacesFollow(trail, []);
    assert trail + [] == trail;
    SpacesAreSkipped(trail, []);
    SpellingIsRead(sp, trail, strict);
  }
}
