/** Deterministic printing and parsing of JSON (RFC 8259, sections 4 to 7).

    `Print` is json.dumps with sorted keys and no spaces, `Loads` is json.loads with or
    without the hook that refuses a repeated key. Text is a sequence of code points. */
module JsonText {
  import opened Sorting
  import opened JsonValues

  // ---------------------------------------------------------------- printing

  function DigitChar(d: nat): (c: char)
    requires d < 10
  {
    ('0' as int + d) as char
  }

  function NatText(n: nat): (s: string)
    ensures |s| > 0
  {
    if n < 10 then [DigitChar(n)] else NatText(n / 10) + [DigitChar(n % 10)]
  }

  function HexChar(d: nat): char
    requires d < 16
  {
    if d < 10 then ('0' as int + d) as char else ('a' as int + d - 10) as char
  }

  function EscapeChar(c: char): (r: string)
    ensures |r| > 0
  {
    if c == '\"' then "\\\""
    else if c == '\\' then "\\\\"
    else if c == '\n' then "\\n"
    else if c == '\r' then "\\r"
    else if c == '\t' then "\\t"
    else if c as int == 8 then "\\b"
    else if c as int == 12 then "\\f"
    else if c as int < 0x20 then "\\u00" + [HexChar(c as int / 16), HexChar(c as int % 16)]
    else [c]
  }

  // Printing functions take the text that follows, so that text is built from the right.

  function EscapeThen(s: string, rest: string): string {
    if s == [] then rest else EscapeChar(s[0]) + EscapeThen(s[1..], rest)
  }

  function QuoteThen(s: string, rest: string): string { "\"" + EscapeThen(s, "\"" + rest) }

  function IntThen(n: int, rest: string): string {
    if n < 0 then "-" + (NatText(-n) + rest) else NatText(n) + rest
  }

  // The text of a value, members in the order they are held.
  function EmitThen(v: Json, rest: string): string {
    match v
    case Null => "null" + rest
    case Bool(b) => (if b then "true" else "false") + rest
    case Int(n) => IntThen(n, rest)
    case Str(s) => QuoteThen(s, rest)
    case Arr(items) => "[" + EmitItemsThen(items, "]" + rest)
    case Obj(ms) => "{" + EmitMembersThen(ms, "}" + rest)
  }

  function EmitItemsThen(items: seq<Json>, rest: string): string {
    if items == [] then rest
    else if |items| == 1 then EmitThen(items[0], rest)
    else EmitThen(items[0], "," + EmitItemsThen(items[1..], rest))
  }

  function EmitMemberThen(m: Member, rest: string): string {
    QuoteThen(m.key, ":" + EmitThen(m.value, rest))
  }

  function EmitMembersThen(ms: seq<Member>, rest: string): string {
    if ms == [] then rest
    else if |ms| == 1 then EmitMemberThen(ms[0], rest)
    else EmitMemberThen(ms[0], "," + EmitMembersThen(ms[1..], rest))
  }

  function Emit(v: Json): string { EmitThen(v, "") }

  function Print(v: Json): string { Emit(Canon(v)) }

  // ---------------------------------------------------------------- parsing

  datatype Parsed<+T> = Bad | Ok(value: T, rest: string)

  predicate IsSpace(c: char) { c == ' ' || c == '\t' || c == '\n' || c == '\r' }

  function SkipSpace(s: string): (r: string)
    ensures |r| <= |s|
  {
    if s != [] && IsSpace(s[0]) then SkipSpace(s[1..]) else s
  }

  predicate IsDigit(c: char) { '0' <= c <= '9' }

  function DigitCount(s: string): (k: nat)
    ensures k <= |s|
    ensures forall i | 0 <= i < k :: IsDigit(s[i])
  {
    if s != [] && IsDigit(s[0]) then 1 + DigitCount(s[1..]) else 0
  }

  function DigitValue(c: char): (d: nat)
    requires IsDigit(c)
  {
    c as int - '0' as int
  }

  function NatValue(ds: string): nat
    requires forall i | 0 <= i < |ds| :: IsDigit(ds[i])
  {
    if ds == [] then 0 else NatValue(ds[..|ds| - 1]) * 10 + DigitValue(ds[|ds| - 1])
  }

  // A fraction or an exponent follows: the token is not an integer.
  predicate ContinuesNumber(s: string) {
    s != []
    && if s[0] == '.' then |s| > 1 && IsDigit(s[1])
       else (s[0] == 'e' || s[0] == 'E')
            && |s| > 1
            && (IsDigit(s[1]) || ((s[1] == '+' || s[1] == '-') && |s| > 2 && IsDigit(s[2])))
  }

  function ParseNat(ds: string): (r: Parsed<nat>)
    ensures r.Ok? ==> |r.rest| < |ds|
  {
    var k := DigitCount(ds);
    if k == 0 then Bad
    else
      var len := if ds[0] == '0' then 1 else k;
      if ContinuesNumber(ds[len..]) then Bad else Ok(NatValue(ds[..len]), ds[len..])
  }

  function ParseNumber(s: string): (r: Parsed<Json>)
    ensures r.Ok? ==> |r.rest| < |s| && r.value.Int?
  {
    var negative := s != [] && s[0] == '-';
    match ParseNat(if negative then s[1..] else s)
    case Bad => Bad
    case Ok(n, rest) => Ok(Int(if negative then -(n as int) else n), rest)
  }

  function HexValue(c: char): Option<nat> {
    if '0' <= c <= '9' then Some(c as int - '0' as int)
    else if 'a' <= c <= 'f' then Some(c as int - 'a' as int + 10)
    else if 'A' <= c <= 'F' then Some(c as int - 'A' as int + 10)
    else None
  }

  function Hex4(s: string): (r: Option<nat>)
    ensures r.Some? ==> |s| >= 4 && r.value < 0x10000
  {
    if |s| < 4 then None
    else match (HexValue(s[0]), HexValue(s[1]), HexValue(s[2]), HexValue(s[3]))
      case (Some(a), Some(b), Some(c), Some(d)) =>
        assert a < 16 && b < 16 && c < 16 && d < 16;
        Some(((a * 16 + b) * 16 + c) * 16 + d)
      case _ => None
  }

  // The character after \u, joining a surrogate pair.
  function ParseUnicode(s: string): (r: Parsed<char>)
    ensures r.Ok? ==> |r.rest| < |s|
  {
    match Hex4(s)
    case None => Bad
    case Some(u) =>
      if 0xD800 <= u < 0xDC00 then
        if |s| < 6 || s[4] != '\\' || s[5] != 'u' then Bad
        else match Hex4(s[6..])
          case None => Bad
          case Some(low) =>
            if 0xDC00 <= low < 0xE000 then
              Ok((0x10000 + (u - 0xD800) * 0x400 + (low - 0xDC00)) as char, s[10..])
            else Bad
      else if 0xDC00 <= u < 0xE000 then Bad
      else Ok(u as char, s[4..])
  }

  function SimpleEscape(c: char): Option<char> {
    if c == '\"' || c == '\\' || c == '/' then Some(c)
    else if c == 'b' then Some(8 as char)
    else if c == 'f' then Some(12 as char)
    else if c == 'n' then Some('\n')
    else if c == 'r' then Some('\r')
    else if c == 't' then Some('\t')
    else None
  }

  function ParseChar(s: string): (r: Parsed<char>)
    requires s != []
    ensures r.Ok? ==> |r.rest| < |s|
  {
    if s[0] == '\\' then
      if |s| < 2 then Bad
      else if s[1] == 'u' then ParseUnicode(s[2..])
      else match SimpleEscape(s[1])
        case None => Bad
        case Some(c) => Ok(c, s[2..])
    else if s[0] as int < 0x20 then Bad
    else Ok(s[0], s[1..])
  }

  // The rest of a string token after its opening quote.
  function ParseString(s: string): (r: Parsed<string>)
    ensures r.Ok? ==> |r.rest| < |s|
    decreases |s|
  {
    if s == [] then Bad
    else if s[0] == '\"' then Ok([], s[1..])
    else match ParseChar(s)
      case Bad => Bad
      case Ok(c, rest) =>
        match ParseString(rest)
        case Bad => Bad
        case Ok(t, rest') => Ok([c] + t, rest')
  }

  // What a decoded list of pairs becomes: refused or reduced when a key repeats.
  function Hook(pairs: seq<Member>, strict: bool): Option<seq<Member>> {
    if strict then RejectDuplicates(pairs) else Some(LastWins(pairs))
  }

  // dict(pairs): a repeated key keeps its first place and takes its last value.
  function LastWins(pairs: seq<Member>): seq<Member> {
    if pairs == [] then []
    else Put(LastWins(pairs[..|pairs| - 1]), pairs[|pairs| - 1].key, pairs[|pairs| - 1].value)
  }

  function RejectDuplicates(pairs: seq<Member>): (r: Option<seq<Member>>)
    ensures r == if DistinctKeys(pairs) then Some(pairs) else None
  {
    if forall i, j | 0 <= i < |pairs| && 0 <= j < |pairs| && i < j :: pairs[i].key != pairs[j].key
    then Some(pairs) else None
  }

  lemma {:induction false} PutOfNewKey(ms: seq<Member>, m: Member)
    requires forall x | x in ms :: x.key != m.key
    ensures Put(ms, m.key, m.value) == ms + [m]
  {
    if ms == [] {
    } else {
      PutOfNewKey(ms[1..], m);
      assert [ms[0]] + (ms[1..] + [m]) == ms + [m];
    }
  }

  /** dict(pairs) has distinct keys, and gives the pairs back when they have distinct keys. */
  lemma {:induction false} LastWinsProperties(pairs: seq<Member>)
    ensures DistinctKeys(LastWins(pairs))
    ensures forall m | m in LastWins(pairs) :: m in pairs
    ensures DistinctKeys(pairs) ==> LastWins(pairs) == pairs
  {
    if pairs == [] {
    } else {
      var init, last := pairs[..|pairs| - 1], pairs[|pairs| - 1];
      LastWinsProperties(init);
      PutKeepsDistinct(LastWins(init), last.key, last.value);
      assert pairs == init + [last];
      if DistinctKeys(pairs) {
        LastKeyIsNew(pairs);
        PutOfNewKey(init, last);
      }
    }
  }

  lemma LastKeyIsNew(pairs: seq<Member>)
    requires pairs != [] && DistinctKeys(pairs)
    ensures DistinctKeys(pairs[..|pairs| - 1])
    ensures forall x | x in pairs[..|pairs| - 1] :: x.key != pairs[|pairs| - 1].key
  {
  }

  function ParseValue(s: string, strict: bool): (r: Parsed<Json>)
    ensures r.Ok? ==> |r.rest| < |s|
    decreases |s|, 0
  {
    if s == [] then Bad
    else if s[0] == '\"' then
      match ParseString(s[1..])
      case Bad => Bad
      case Ok(t, rest) => Ok(Str(t), rest)
    else if s[0] == '{' then ParseObject(s[1..], strict)
    else if s[0] == '[' then ParseArray(s[1..], strict)
    else if s[0] == 'n' then ParseWord(s, "null", Null)
    else if s[0] == 't' then ParseWord(s, "true", Bool(true))
    else if s[0] == 'f' then ParseWord(s, "false", Bool(false))
    else ParseNumber(s)
  }

  function ParseWord(s: string, word: string, v: Json): (r: Parsed<Json>)
    requires word != []
    ensures r.Ok? ==> |r.rest| < |s| && r.value == v
  {
    if |word| <= |s| && s[..|word|] == word then Ok(v, s[|word|..]) else Bad
  }

  // After the opening brace.
  function ParseObject(s: string, strict: bool): (r: Parsed<Json>)
    ensures r.Ok? ==> |r.rest| < |s|
    decreases |s|, 2
  {
    var t := SkipSpace(s);
    if t != [] && t[0] == '}' then Ok(Obj([]), t[1..])
    else match ParseMembers(t, strict)
      case Bad => Bad
      case Ok(pairs, rest) =>
        match Hook(pairs, strict)
        case None => Bad
        case Some(ms) => Ok(Obj(ms), rest)
  }

  // After the opening bracket.
  function ParseArray(s: string, strict: bool): (r: Parsed<Json>)
    ensures r.Ok? ==> |r.rest| < |s|
    decreases |s|, 2
  {
    var t := SkipSpace(s);
    if t != [] && t[0] == ']' then Ok(Arr([]), t[1..])
    else match ParseItems(t, strict)
      case Bad => Bad
      case Ok(items, rest) => Ok(Arr(items), rest)
  }

  // One or more items up to and including the closing bracket.
  function ParseItems(s: string, strict: bool): (r: Parsed<seq<Json>>)
    ensures r.Ok? ==> |r.rest| < |s|
    decreases |s|, 1
  {
    match ParseValue(s, strict)
    case Bad => Bad
    case Ok(v, rest) =>
      var t := SkipSpace(rest);
      if t == [] then Bad
      else if t[0] == ']' then Ok([v], t[1..])
      else if t[0] != ',' then Bad
      else match ParseItems(SkipSpace(t[1..]), strict)
        case Bad => Bad
        case Ok(vs, rest') => Ok([v] + vs, rest')
  }

  // One or more members up to and including the closing brace.
  function ParseMembers(s: string, strict: bool): (r: Parsed<seq<Member>>)
    ensures r.Ok? ==> |r.rest| < |s|
    decreases |s|, 1
  {
    match ParseMember(s, strict)
    case Bad => Bad
    case Ok(m, rest) =>
      var t := SkipSpace(rest);
      if t == [] then Bad
      else if t[0] == '}' then Ok([m], t[1..])
      else if t[0] != ',' then Bad
      else match ParseMembers(SkipSpace(t[1..]), strict)
        case Bad => Bad
        case Ok(ms, rest') => Ok([m] + ms, rest')
  }

  function ParseMember(s: string, strict: bool): (r: Parsed<Member>)
    ensures r.Ok? ==> |r.rest| < |s|
    decreases |s|, 0
  {
    if s == [] || s[0] != '\"' then Bad
    else match ParseString(s[1..])
      case Bad => Bad
      case Ok(key, rest) =>
        var t := SkipSpace(rest);
        if t == [] || t[0] != ':' then Bad
        else match ParseValue(SkipSpace(t[1..]), strict)
          case Bad => Bad
          case Ok(v, rest') => Ok(Member(key, v), rest')
  }

  function Loads(text: string, strict: bool): Option<Json> {
    match ParseValue(SkipSpace(text), strict)
    case Bad => None
    case Ok(v, rest) => if SkipSpace(rest) == [] then Some(v) else None
  }

  /** Every parsed value is one Python can hold: no object keeps a key twice. */
  lemma LoadsIsWellFormed(text: string, strict: bool)
    ensures Loads(text, strict).Some? ==> WellFormed(Loads(text, strict).value)
  {
    ParsedIsWellFormed(SkipSpace(text), strict);
  }

  lemma {:induction false} ParsedIsWellFormed(s: string, strict: bool)
    ensures ParseValue(s, strict).Ok? ==> WellFormed(ParseValue(s, strict).value)
    decreases |s|, 0
  {
    if s != [] && s[0] == '{' {
      var t := SkipSpace(s[1..]);
      ParsedMembersAreWellFormed(t, strict);
      if ParseMembers(t, strict).Ok? { LastWinsProperties(ParseMembers(t, strict).value); }
    } else if s != [] && s[0] == '[' {
      ParsedItemsAreWellFormed(SkipSpace(s[1..]), strict);
    }
  }

  lemma {:induction false} ParsedItemsAreWellFormed(s: string, strict: bool)
    ensures ParseItems(s, strict).Ok? ==> forall v | v in ParseItems(s, strict).value :: WellFormed(v)
    decreases |s|, 1
  {
    ParsedIsWellFormed(s, strict);
    if ParseValue(s, strict).Ok? {
      var t := SkipSpace(ParseValue(s, strict).rest);
      if t != [] { ParsedItemsAreWellFormed(SkipSpace(t[1..]), strict); }
    }
  }

  lemma {:induction false} ParsedMemberIsWellFormed(s: string, strict: bool)
    ensures ParseMember(s, strict).Ok? ==> WellFormed(ParseMember(s, strict).value.value)
    decreases |s|, 0
  {
    if s != [] && s[0] == '\"' && ParseString(s[1..]).Ok? {
      var t := SkipSpace(ParseString(s[1..]).rest);
      if t != [] { ParsedIsWellFormed(SkipSpace(t[1..]), strict); }
    }
  }

  lemma {:induction false} ParsedMembersAreWellFormed(s: string, strict: bool)
    ensures ParseMembers(s, strict).Ok? ==> forall m | m in ParseMembers(s, strict).value :: WellFormed(m.value)
    decreases |s|, 1
  {
    ParsedMemberIsWellFormed(s, strict);
    if ParseMember(s, strict).Ok? {
      var t := SkipSpace(ParseMember(s, strict).rest);
      if t != [] { ParsedMembersAreWellFormed(SkipSpace(t[1..]), strict); }
    }
  }

  /** The loop behind the strict hook: it collects pairs until a key repeats. */
  method RejectDuplicateObjectKeys(pairs: seq<Member>) returns (decoded: Option<seq<Member>>)
    ensures decoded == Hook(pairs, true)
  {
    var seen: set<string> := {};
    var members: seq<Member> := [];
    for i := 0 to |pairs|
      invariant members == pairs[..i]
      invariant seen == set m | m in pairs[..i] :: m.key
      invariant DistinctKeys(pairs[..i])
    {
      if pairs[i].key in seen {
        var m :| m in pairs[..i] && m.key == pairs[i].key;
        return None;
      }
      forall j | 0 <= j < i ensures pairs[j].key != pairs[i].key {
        assert pairs[j] in pairs[..i];
      }
      seen := seen + {pairs[i].key};
      assert pairs[..i + 1] == pairs[..i] + [pairs[i]];
      members := members + [pairs[i]];
    }
    assert pairs[..|pairs|] == pairs;
    return Some(members);
  }

  // ---------------------------------------------------------------- numbers

  lemma {:induction false} NatTextProperties(n: nat)
    ensures forall i | 0 <= i < |NatText(n)| :: IsDigit(NatText(n)[i])
    ensures NatValue(NatText(n)) == n
    ensures n > 0 ==> NatText(n)[0] != '0'
  {
    if n >= 10 {
      NatTextProperties(n / 10);
      var s := NatText(n);
      assert s[..|s| - 1] == NatText(n / 10);
    } else {
      assert NatText(n)[..0] == [];
    }
  }

  lemma {:induction false} DigitCountOfDigits(ds: string, rest: string)
    requires forall i | 0 <= i < |ds| :: IsDigit(ds[i])
    requires rest == [] || !IsDigit(rest[0])
    ensures DigitCount(ds + rest) == |ds|
  {
    if ds == [] {
      assert ds + rest == rest;
    } else {
      assert (ds + rest)[1..] == ds[1..] + rest;
      DigitCountOfDigits(ds[1..], rest);
    }
  }

  // Text that can follow a value inside printed JSON.
  predicate Stops(rest: string) {
    rest == [] || rest[0] == ',' || rest[0] == ']' || rest[0] == '}'
  }

  lemma NatRoundTrip(n: nat, rest: string)
    requires Stops(rest)
    ensures ParseNat(NatText(n) + rest) == Ok(n, rest)
    ensures IsDigit(NatText(n)[0])
  {
    var ds := NatText(n);
    NatTextProperties(n);
    DigitCountOfDigits(ds, rest);
    assert n == 0 ==> ds == "0";
    assert (ds + rest)[..|ds|] == ds && (ds + rest)[|ds|..] == rest;
  }

  lemma SignDispatches(t: string)
    ensures ParseNumber("-" + t)
         == match ParseNat(t) case Bad => Bad case Ok(n, rest) => Ok(Int(-(n as int)), rest)
    ensures t != [] && t[0] != '-' ==>
      ParseNumber(t) == match ParseNat(t) case Bad => Bad case Ok(n, rest) => Ok(Int(n), rest)
  {
    assert ("-" + t)[1..] == t;
  }

  lemma IntRoundTrip(n: int, rest: string)
    requires Stops(rest)
    ensures ParseNumber(IntThen(n, rest)) == Ok(Int(n), rest)
  {
    var k: nat := if n < 0 then -n else n;
    NatRoundTrip(k, rest);
    assert (NatText(k) + rest)[0] == NatText(k)[0];
    SignDispatches(NatText(k) + rest);
  }

  lemma IntStarts(n: int, rest: string)
    ensures IntThen(n, rest) != [] && (IntThen(n, rest)[0] == '-' || IsDigit(IntThen(n, rest)[0]))
  {
    NatTextProperties(if n < 0 then -n else n);
  }

  // ---------------------------------------------------------------- strings

  lemma CharRoundTrip(c: char, rest: string)
    ensures EscapeChar(c)[0] != '\"'
    ensures ParseChar(EscapeChar(c) + rest) == Ok(c, rest)
  {
    var s := EscapeChar(c) + rest;
    if |EscapeChar(c)| == 1 {
      assert s[1..] == rest;
    } else if |EscapeChar(c)| == 2 {
      assert s[2..] == rest;
    } else {
      var hi, lo := c as int / 16, c as int % 16;
      assert s[2..][4..] == rest;
      assert s[2..][0] == '0' && s[2..][1] == '0';
      assert s[2..][2] == HexChar(hi) && s[2..][3] == HexChar(lo);
      assert HexValue(HexChar(hi)) == Some(hi) && HexValue(HexChar(lo)) == Some(lo);
    }
  }

  lemma {:induction false} StringRoundTrip(t: string, rest: string)
    ensures ParseString(EscapeThen(t, "\"" + rest)) == Ok(t, rest)
  {
    if t == [] {
      assert ("\"" + rest)[1..] == rest;
    } else {
      CharRoundTrip(t[0], EscapeThen(t[1..], "\"" + rest));
      StringRoundTrip(t[1..], rest);
      assert [t[0]] + t[1..] == t;
    }
  }

  // ---------------------------------------------------------------- values

  lemma {:induction false} EmitStarts(v: Json, rest: string)
    ensures EmitThen(v, rest) != []
    ensures var c := EmitThen(v, rest)[0]; !IsSpace(c) && c != ']' && c != '}'
  {
    if v.Int? { IntStarts(v.n, rest); }
  }

  lemma FirstCharDispatches(t: string, strict: bool)
    ensures ParseValue("{" + t, strict) == ParseObject(t, strict)
    ensures ParseValue("[" + t, strict) == ParseArray(t, strict)
    ensures ParseValue("\"" + t, strict)
         == match ParseString(t) case Bad => Bad case Ok(u, rest) => Ok(Str(u), rest)
  {
    assert ("{" + t)[1..] == t && ("[" + t)[1..] == t && ("\"" + t)[1..] == t;
  }

  lemma NumberDispatches(s: string, strict: bool)
    requires s != [] && (s[0] == '-' || IsDigit(s[0]))
    ensures ParseValue(s, strict) == ParseNumber(s)
  {
  }

  lemma WordParses(word: string, rest: string, v: Json)
    requires word != []
    ensures ParseWord(word + rest, word, v) == Ok(v, rest)
  {
    assert (word + rest)[..|word|] == word && (word + rest)[|word|..] == rest;
  }

  lemma ScalarParses(v: Json, rest: string, strict: bool)
    requires !v.Arr? && !v.Obj? && Stops(rest)
    ensures ParseValue(EmitThen(v, rest), strict) == Ok(v, rest)
  {
    match v
    case Null => WordParses("null", rest, v);
    case Bool(b) => WordParses(if b then "true" else "false", rest, v);
    case Int(n) =>
      IntRoundTrip(n, rest);
      IntStarts(n, rest);
      NumberDispatches(IntThen(n, rest), strict);
    case Str(t) =>
      FirstCharDispatches(EscapeThen(t, "\"" + rest), strict);
      StringRoundTrip(t, rest);
  }

  // What printed text parses to when objects may repeat keys: the hook acts on every object, innermost first.
  function Read(v: Json, strict: bool): Option<Json> {
    match v
    case Arr(items) => (match ReadItems(items, strict) case None => None case Some(vs) => Some(Arr(vs)))
    case Obj(ms) =>
      (match ReadMembers(ms, strict)
       case None => None
       case Some(pairs) => match Hook(pairs, strict) case None => None case Some(kept) => Some(Obj(kept)))
    case _ => Some(v)
  }

  function ReadItems(items: seq<Json>, strict: bool): Option<seq<Json>> {
    if items == [] then Some([])
    else match Read(items[0], strict)
      case None => None
      case Some(v) => match ReadItems(items[1..], strict) case None => None case Some(vs) => Some([v] + vs)
  }

  function ReadMember(m: Member, strict: bool): Option<Member> {
    match Read(m.value, strict) case None => None case Some(v) => Some(Member(m.key, v))
  }

  function ReadMembers(ms: seq<Member>, strict: bool): Option<seq<Member>> {
    if ms == [] then Some([])
    else match ReadMember(ms[0], strict)
      case None => None
      case Some(m) => match ReadMembers(ms[1..], strict) case None => None case Some(rest) => Some([m] + rest)
  }

  function Before<T>(x: Option<T>, rest: string): Parsed<T> {
    match x case None => Bad case Some(v) => Ok(v, rest)
  }

  lemma {:induction false} EmitParses(v: Json, rest: string, strict: bool)
    requires Stops(rest)
    ensures ParseValue(EmitThen(v, rest), strict) == Before(Read(v, strict), rest)
    decreases v, 2
  {
    match v
    case Arr(items) =>
      FirstCharDispatches(EmitItemsThen(items, "]" + rest), strict);
      ArrayParses(items, rest, strict);
    case Obj(ms) =>
      FirstCharDispatches(EmitMembersThen(ms, "}" + rest), strict);
      ObjectParses(ms, rest, strict);
    case _ => ScalarParses(v, rest, strict);
  }

  lemma {:induction false} ArrayParses(items: seq<Json>, rest: string, strict: bool)
    ensures ParseArray(EmitItemsThen(items, "]" + rest), strict) == Before(Read(Arr(items), strict), rest)
    decreases items, 2
  {
    assert ("]" + rest)[1..] == rest;
    if items != [] {
      EmitStarts(items[0], if |items| == 1 then "]" + rest else "," + EmitItemsThen(items[1..], "]" + rest));
      EmitItemsParse(items, rest, strict);
    }
  }

  lemma {:induction false} ObjectParses(ms: seq<Member>, rest: string, strict: bool)
    ensures ParseObject(EmitMembersThen(ms, "}" + rest), strict) == Before(Read(Obj(ms), strict), rest)
    decreases ms, 2
  {
    assert ("}" + rest)[1..] == rest;
    if ms != [] {
      MembersStartWithQuote(ms, "}" + rest);
      EmitMembersParse(ms, rest, strict);
    } else {
      LastWinsProperties([]);
    }
  }

  lemma MembersStartWithQuote(ms: seq<Member>, rest: string)
    requires ms != []
    ensures EmitMembersThen(ms, rest) != [] && EmitMembersThen(ms, rest)[0] == '\"'
  {
  }

  // The separator after an item or member: the end, or a comma and the next one.

  lemma ItemsContinue(s: string, v: Option<Json>, close: string, strict: bool)
    ensures ParseValue(s, strict) == Before(v, "]" + close) ==>
      ParseItems(s, strict) == if v.Some? then Ok([v.value], close) else Bad
    ensures ParseValue(s, strict) == Before(v, "," + close) && close != [] && !IsSpace(close[0]) ==>
      ParseItems(s, strict)
      == if v.None? then Bad
         else match ParseItems(close, strict) case Bad => Bad case Ok(vs, rest) => Ok([v.value] + vs, rest)
  {
    assert ("]" + close)[1..] == close && ("," + close)[1..] == close;
  }

  lemma MembersContinue(s: string, m: Option<Member>, close: string, strict: bool)
    ensures ParseMember(s, strict) == Before(m, "}" + close) ==>
      ParseMembers(s, strict) == if m.Some? then Ok([m.value], close) else Bad
    ensures ParseMember(s, strict) == Before(m, "," + close) && close != [] && !IsSpace(close[0]) ==>
      ParseMembers(s, strict)
      == if m.None? then Bad
         else match ParseMembers(close, strict) case Bad => Bad case Ok(ms, rest) => Ok([m.value] + ms, rest)
  {
    assert ("}" + close)[1..] == close && ("," + close)[1..] == close;
  }

  lemma ReadOneItem(items: seq<Json>, strict: bool)
    requires |items| == 1
    ensures ReadItems(items, strict) == match Read(items[0], strict) case None => None case Some(v) => Some([v])
  {
    assert items[1..] == [];
    if Read(items[0], strict).Some? { assert [Read(items[0], strict).value] + [] == [Read(items[0], strict).value]; }
  }

  lemma ReadOneMember(ms: seq<Member>, strict: bool)
    requires |ms| == 1
    ensures ReadMembers(ms, strict) == match ReadMember(ms[0], strict) case None => None case Some(m) => Some([m])
  {
    assert ms[1..] == [];
    if ReadMember(ms[0], strict).Some? {
      assert [ReadMember(ms[0], strict).value] + [] == [ReadMember(ms[0], strict).value];
    }
  }

  lemma {:induction false} EmitItemsParse(items: seq<Json>, rest: string, strict: bool)
    requires items != []
    ensures ParseItems(EmitItemsThen(items, "]" + rest), strict) == Before(ReadItems(items, strict), rest)
    decreases items, 1
  {
    var s := EmitItemsThen(items, "]" + rest);
    if |items| == 1 {
      EmitParses(items[0], "]" + rest, strict);
      ItemsContinue(s, Read(items[0], strict), rest, strict);
      ReadOneItem(items, strict);
    } else {
      var next := EmitItemsThen(items[1..], "]" + rest);
      EmitStarts(items[1], if |items| == 2 then "]" + rest else "," + EmitItemsThen(items[2..], "]" + rest));
      assert items[1..][1..] == items[2..];
      EmitParses(items[0], "," + next, strict);
      ItemsContinue(s, Read(items[0], strict), next, strict);
      EmitItemsParse(items[1..], rest, strict);
    }
  }

  lemma {:induction false} EmitMembersParse(ms: seq<Member>, rest: string, strict: bool)
    requires ms != []
    ensures ParseMembers(EmitMembersThen(ms, "}" + rest), strict) == Before(ReadMembers(ms, strict), rest)
    decreases ms, 1
  {
    var s := EmitMembersThen(ms, "}" + rest);
    if |ms| == 1 {
      EmitMemberParses(ms[0], "}" + rest, strict);
      MembersContinue(s, ReadMember(ms[0], strict), rest, strict);
      ReadOneMember(ms, strict);
    } else {
      var next := EmitMembersThen(ms[1..], "}" + rest);
      MembersStartWithQuote(ms[1..], "}" + rest);
      EmitMemberParses(ms[0], "," + next, strict);
      MembersContinue(s, ReadMember(ms[0], strict), next, strict);
      EmitMembersParse(ms[1..], rest, strict);
    }
  }

  lemma MemberStep(key: string, t: string, strict: bool)
    requires t != [] && !IsSpace(t[0])
    ensures ParseMember(QuoteThen(key, ":" + t), strict)
         == match ParseValue(t, strict) case Bad => Bad case Ok(v, rest) => Ok(Member(key, v), rest)
  {
    var body := EscapeThen(key, "\"" + (":" + t));
    assert ("\"" + body)[1..] == body;
    StringRoundTrip(key, ":" + t);
    assert (":" + t)[1..] == t;
  }

  lemma {:induction false} EmitMemberParses(m: Member, rest: string, strict: bool)
    requires Stops(rest)
    ensures ParseMember(EmitMemberThen(m, rest), strict) == Before(ReadMember(m, strict), rest)
    decreases m, 0
  {
    EmitStarts(m.value, rest);
    MemberStep(m.key, EmitThen(m.value, rest), strict);
    EmitParses(m.value, rest, strict);
  }

  lemma PrintedIsRead(v: Json, strict: bool)
    ensures Loads(Emit(v), strict) == Read(v, strict)
  {
    EmitStarts(v, "");
    EmitParses(v, "", strict);
  }

  // ---------------------------------------------------------------- repeated keys

  // A value without repeated keys is read as it is, and the strict hook refuses any other.
  ghost predicate ReadAsIs(v: Json, strict: bool) {
    (WellFormed(v) ==> Read(v, strict) == Some(v)) && (strict && !WellFormed(v) ==> Read(v, strict) == None)
  }

  lemma {:induction false} ReadIff(v: Json, strict: bool)
    ensures ReadAsIs(v, strict)
    decreases v
  {
    match v
    case Arr(items) =>
      forall x | x in items { ReadIff(x, strict); }
      ReadItemsIff(items, strict);
    case Obj(ms) =>
      forall m | m in ms { ReadIff(m.value, strict); }
      ReadMembersIff(ms, strict);
      LastWinsProperties(ms);
    case _ =>
  }

  lemma {:induction false} ReadItemsIff(items: seq<Json>, strict: bool)
    requires forall v | v in items :: ReadAsIs(v, strict)
    ensures (forall v | v in items :: WellFormed(v)) ==> ReadItems(items, strict) == Some(items)
    ensures strict && !(forall v | v in items :: WellFormed(v)) ==> ReadItems(items, strict) == None
  {
    if items != [] {
      ReadItemsIff(items[1..], strict);
      assert items == [items[0]] + items[1..] && ReadAsIs(items[0], strict);
    }
  }

  lemma {:induction false} ReadMembersIff(ms: seq<Member>, strict: bool)
    requires forall m | m in ms :: ReadAsIs(m.value, strict)
    ensures (forall m | m in ms :: WellFormed(m.value)) ==> ReadMembers(ms, strict) == Some(ms)
    ensures strict && !(forall m | m in ms :: WellFormed(m.value)) ==> ReadMembers(ms, strict) == None
  {
    if ms != [] {
      ReadMembersIff(ms[1..], strict);
      assert ms == [ms[0]] + ms[1..] && ReadAsIs(ms[0].value, strict);
    }
  }

  /** A text in which some object, at any depth, repeats a key is refused by the strict parse; one in
      which none does reads back as it was printed. */
  lemma RepeatedKeyIsRefused(v: Json)
    ensures Loads(Emit(v), true) == if WellFormed(v) then Some(v) else None
  {
    PrintedIsRead(v, true);
    ReadIff(v, true);
  }

  lemma {:induction false} LenientReadsAll(v: Json)
    ensures Read(v, false).Some?
    decreases v
  {
    match v
    case Arr(items) =>
      forall x | x in items { LenientReadsAll(x); }
      LenientReadsItems(items);
    case Obj(ms) =>
      forall m | m in ms { LenientReadsAll(m.value); }
      LenientReadsMembers(ms);
    case _ =>
  }

  lemma {:induction false} LenientReadsItems(items: seq<Json>)
    requires forall v | v in items :: Read(v, false).Some?
    ensures ReadItems(items, false).Some?
  {
    if items != [] { LenientReadsItems(items[1..]); }
  }

  lemma {:induction false} LenientReadsMembers(ms: seq<Member>)
    requires forall m | m in ms :: Read(m.value, false).Some?
    ensures ReadMembers(ms, false).Some? && |ReadMembers(ms, false).value| == |ms|
    ensures forall i | 0 <= i < |ms| :: Some(ReadMembers(ms, false).value[i]) == ReadMember(ms[i], false)
  {
    if ms != [] { LenientReadsMembers(ms[1..]); }
  }

  lemma {:induction false} LastWinsGet(pairs: seq<Member>, i: nat)
    requires i < |pairs| && forall j | i < j < |pairs| :: pairs[j].key != pairs[i].key
    ensures Get(LastWins(pairs), pairs[i].key) == Some(pairs[i].value)
  {
    var init, last := pairs[..|pairs| - 1], pairs[|pairs| - 1];
    if i < |pairs| - 1 {
      assert last.key != pairs[i].key && init[i] == pairs[i];
      LastWinsGet(init, i);
    }
    GetAfterPut(LastWins(init), last.key, last.value, pairs[i].key);
  }

  /** The lenient parse refuses nothing that was printed: of a repeated key it keeps the last value, itself
      read the same way. */
  lemma LenientKeepsLast(ms: seq<Member>, i: nat)
    requires i < |ms| && forall j | i < j < |ms| :: ms[j].key != ms[i].key
    ensures
      var read := Loads(Emit(Obj(ms)), false);
      read.Some? && read.value.Obj? && WellFormed(read.value)
      && Get(read.value.members, ms[i].key) == Loads(Emit(ms[i].value), false)
  {
    PrintedIsRead(Obj(ms), false);
    PrintedIsRead(ms[i].value, false);
    LoadsIsWellFormed(Emit(Obj(ms)), false);
    forall m | m in ms { LenientReadsAll(m.value); }
    LenientReadsMembers(ms);
    var pairs := ReadMembers(ms, false).value;
    forall j | 0 <= j < |ms| ensures pairs[j].key == ms[j].key {
      assert Some(pairs[j]) == ReadMember(ms[j], false);
    }
    LastWinsGet(pairs, i);
  }

  /** Parsing undoes printing: it gives the value back with its keys sorted. */
  lemma PrintRoundTrip(v: Json, strict: bool)
    requires WellFormed(v)
    ensures Loads(Print(v), strict) == Some(Canon(v))
    ensures Same(v, Canon(v))
  {
    CanonIsWellFormed(v);
    var c := Canon(v);
    PrintedIsRead(c, strict);
    ReadIff(c, strict);
    CanonIsIdempotent(v);
    CanonDecidesSame(v, c);
  }

  lemma {:induction false} CanonIsIdempotent(v: Json)
    requires WellFormed(v)
    ensures Canon(Canon(v)) == Canon(v)
  {
    match v
    case Arr(items) =>
      forall i | 0 <= i < |items| ensures Canon(Canon(items[i])) == Canon(items[i]) {
        CanonIsIdempotent(items[i]);
      }
    case Obj(ms) =>
      var cs := CanonMembers(ms);
      var sorted := Sort(cs, KeyLe);
      KeyLeIsPreorder();
      SortIsSortedPermutation(cs, KeyLe);
      forall i | 0 <= i < |sorted| ensures CanonMembers(sorted)[i] == sorted[i] {
        assert sorted[i] in cs;
        var j :| 0 <= j < |cs| && cs[j] == sorted[i];
        assert ms[j] in ms;
        CanonIsIdempotent(ms[j].value);
      }
      assert CanonMembers(sorted) == sorted;
      DistinctKeysHaveNoTies(cs);
      SortIgnoresOrder(cs, sorted, KeyLe);
    case _ =>
  }

  /** The printed text is the same exactly for values that are equal, types included:
      it ignores insertion order and identifies nothing else. */
  lemma PrintDecidesSame(a: Json, b: Json)
    requires WellFormed(a) && WellFormed(b)
    ensures Print(a) == Print(b) <==> Same(a, b)
  {
    CanonDecidesSame(a, b);
    PrintRoundTrip(a, true);
    PrintRoundTrip(b, true);
  }

  // ---------------------------------------------------------------- one line per record

  predicate OneLine(s: string) { forall i | 0 <= i < |s| :: s[i] as int >= 0x20 }

  lemma {:induction false} EscapeIsOneLine(s: string, rest: string)
    requires OneLine(rest)
    ensures OneLine(EscapeThen(s, rest))
  {
    if s != [] { EscapeIsOneLine(s[1..], rest); }
  }

  lemma PrefixIsOneLine(s: string, rest: string)
    requires OneLine(s) && OneLine(rest)
    ensures OneLine(s + rest)
  {
  }

  /** Printed JSON holds no control character, so a record never contains a line break. */
  lemma {:induction false} EmitIsOneLine(v: Json, rest: string)
    requires OneLine(rest)
    ensures OneLine(EmitThen(v, rest))
    decreases v, 1
  {
    match v
    case Null => PrefixIsOneLine("null", rest);
    case Bool(b) => PrefixIsOneLine(if b then "true" else "false", rest);
    case Int(n) =>
      NatTextProperties(if n < 0 then -n else n);
      PrefixIsOneLine(NatText(if n < 0 then -n else n), rest);
    case Str(s) => EscapeIsOneLine(s, "\"" + rest);
    case Arr(items) => EmitItemsIsOneLine(items, "]" + rest);
    case Obj(ms) => EmitMembersIsOneLine(ms, "}" + rest);
  }

  lemma {:induction false} EmitItemsIsOneLine(items: seq<Json>, rest: string)
    requires OneLine(rest)
    ensures OneLine(EmitItemsThen(items, rest))
    decreases items, 0
  {
    if items != [] {
      EmitItemsIsOneLine(items[1..], rest);
      EmitIsOneLine(items[0], rest);
      EmitIsOneLine(items[0], "," + EmitItemsThen(items[1..], rest));
    }
  }

  lemma {:induction false} EmitMembersIsOneLine(ms: seq<Member>, rest: string)
    requires OneLine(rest)
    ensures OneLine(EmitMembersThen(ms, rest))
    decreases ms, 0
  {
    if ms != [] {
      EmitMembersIsOneLine(ms[1..], rest);
      var tail := if |ms| == 1 then rest else "," + EmitMembersThen(ms[1..], rest);
      EmitIsOneLine(ms[0].value, tail);
      EscapeIsOneLine(ms[0].key, "\"" + (":" + EmitThen(ms[0].value, tail)));
    }
  }
}
