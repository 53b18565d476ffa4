/** Text after a complete JSON value: the parser reads the same value and leaves the text. */
module JsonPrefix {
  import opened JsonValues
  import opened JsonText

  // What a value's rest must not start with for the value to end there whatever follows.
  predicate Ends(v: Json, rest: string) {
    v.Int? ==> rest != [] && !IsDigit(rest[0]) && rest[0] != '.' && rest[0] != 'e' && rest[0] != 'E'
  }

  function Extended<T>(p: Parsed<T>, b: string): Parsed<T> {
    match p case Bad => Bad case Ok(v, rest) => Ok(v, rest + b)
  }

  lemma TailOfAppend(s: string, b: string, n: nat)
    requires n <= |s|
    ensures (s + b)[n..] == s[n..] + b
  {
  }

  lemma {:induction false} SkipExtends(s: string, b: string)
    requires SkipSpace(s) != []
    ensures SkipSpace(s + b) == SkipSpace(s) + b
  {
    if s != [] && IsSpace(s[0]) {
      TailOfAppend(s, b, 1);
      SkipExtends(s[1..], b);
    }
  }

  lemma HexExtends(s: string, b: string)
    requires Hex4(s).Some?
    ensures Hex4(s + b) == Hex4(s)
  {
  }

  lemma UnicodeExtends(s: string, b: string)
    requires ParseUnicode(s).Ok?
    ensures ParseUnicode(s + b) == Extended(ParseUnicode(s), b)
  {
    HexExtends(s, b);
    var u := Hex4(s).value;
    if 0xD800 <= u < 0xDC00 {
      TailOfAppend(s, b, 6);
      HexExtends(s[6..], b);
      TailOfAppend(s, b, 10);
    } else {
      TailOfAppend(s, b, 4);
    }
  }

  lemma CharExtends(s: string, b: string)
    requires s != [] && ParseChar(s).Ok?
    ensures ParseChar(s + b) == Extended(ParseChar(s), b)
  {
    TailOfAppend(s, b, 1);
    if s[0] == '\\' {
      TailOfAppend(s, b, 2);
      if s[1] == 'u' { UnicodeExtends(s[2..], b); }
    }
  }

  lemma {:induction false} StringExtends(s: string, b: string)
    requires ParseString(s).Ok?
    ensures ParseString(s + b) == Extended(ParseString(s), b)
    decreases |s|
  {
    if s[0] == '\"' {
      TailOfAppend(s, b, 1);
    } else {
      CharExtends(s, b);
      StringExtends(ParseChar(s).rest, b);
    }
  }

  lemma WordExtends(s: string, b: string, word: string, v: Json)
    requires word != [] && ParseWord(s, word, v).Ok?
    ensures ParseWord(s + b, word, v) == Extended(ParseWord(s, word, v), b)
  {
    TailOfAppend(s, b, |word|);
    assert (s + b)[..|word|] == s[..|word|];
  }

  lemma {:induction false} DigitsExtend(s: string, b: string)
    requires DigitCount(s) < |s|
    ensures DigitCount(s + b) == DigitCount(s)
  {
    if IsDigit(s[0]) {
      TailOfAppend(s, b, 1);
      DigitsExtend(s[1..], b);
    }
  }

  lemma NatEnds(s: string)
    requires ParseNat(s).Ok? && Ends(Int(0), ParseNat(s).rest)
    ensures DigitCount(s) < |s|
  {
    assert !IsDigit(s[if s[0] == '0' then 1 else DigitCount(s)]);
  }

  lemma NatExtends(s: string, b: string)
    requires ParseNat(s).Ok? && Ends(Int(0), ParseNat(s).rest)
    ensures ParseNat(s + b) == Extended(ParseNat(s), b)
  {
    var k := DigitCount(s);
    var len := if s[0] == '0' then 1 else k;
    NatEnds(s);
    DigitsExtend(s, b);
    TailOfAppend(s, b, len);
    assert (s + b)[..len] == s[..len];
  }

  lemma NumberExtends(s: string, b: string)
    requires ParseNumber(s).Ok? && Ends(Int(0), ParseNumber(s).rest)
    ensures ParseNumber(s + b) == Extended(ParseNumber(s), b)
  {
    if s != [] && s[0] == '-' {
      TailOfAppend(s, b, 1);
      NatExtends(s[1..], b);
    } else {
      assert s != [];
      NatExtends(s, b);
    }
  }

  // A value followed by a separator or a bracket ends there.
  lemma SeparatorEnds(v: Json, rest: string)
    requires SkipSpace(rest) != [] && SkipSpace(rest)[0] in {']', '}', ','}
    ensures Ends(v, rest)
  {
  }

  lemma {:induction false} ValueExtends(s: string, b: string, strict: bool)
    requires ParseValue(s, strict).Ok? && Ends(ParseValue(s, strict).value, ParseValue(s, strict).rest)
    ensures ParseValue(s + b, strict) == Extended(ParseValue(s, strict), b)
    decreases |s|, 0
  {
    TailOfAppend(s, b, 1);
    if s[0] == '\"' {
      StringExtends(s[1..], b);
    } else if s[0] == '{' {
      ObjectExtends(s[1..], b, strict);
    } else if s[0] == '[' {
      ArrayExtends(s[1..], b, strict);
    } else if s[0] == 'n' {
      WordExtends(s, b, "null", Null);
    } else if s[0] == 't' {
      WordExtends(s, b, "true", Bool(true));
    } else if s[0] == 'f' {
      WordExtends(s, b, "false", Bool(false));
    } else {
      NumberExtends(s, b);
    }
  }

  lemma {:induction false} ObjectExtends(s: string, b: string, strict: bool)
    requires ParseObject(s, strict).Ok?
    ensures ParseObject(s + b, strict) == Extended(ParseObject(s, strict), b)
    decreases |s|, 2
  {
    var t := SkipSpace(s);
    SkipExtends(s, b);
    if t[0] == '}' {
      TailOfAppend(t, b, 1);
    } else {
      MembersExtend(t, b, strict);
    }
  }

  lemma {:induction false} ArrayExtends(s: string, b: string, strict: bool)
    requires ParseArray(s, strict).Ok?
    ensures ParseArray(s + b, strict) == Extended(ParseArray(s, strict), b)
    decreases |s|, 2
  {
    var t := SkipSpace(s);
    SkipExtends(s, b);
    if t[0] == ']' {
      TailOfAppend(t, b, 1);
    } else {
      ItemsExtend(t, b, strict);
    }
  }

  lemma {:induction false} ItemsExtend(s: string, b: string, strict: bool)
    requires ParseItems(s, strict).Ok?
    ensures ParseItems(s + b, strict) == Extended(ParseItems(s, strict), b)
    decreases |s|, 1
  {
    var first := ParseValue(s, strict);
    var t := SkipSpace(first.rest);
    SeparatorEnds(first.value, first.rest);
    ValueExtends(s, b, strict);
    SkipExtends(first.rest, b);
    TailOfAppend(t, b, 1);
    if t[0] == ',' {
      SkipExtends(t[1..], b);
      ItemsExtend(SkipSpace(t[1..]), b, strict);
    }
  }

  lemma {:induction false} MembersExtend(s: string, b: string, strict: bool)
    requires ParseMembers(s, strict).Ok?
    ensures ParseMembers(s + b, strict) == Extended(ParseMembers(s, strict), b)
    decreases |s|, 1
  {
    var first := ParseMember(s, strict);
    var t := SkipSpace(first.rest);
    SeparatorEnds(first.value.value, first.rest);
    MemberExtends(s, b, strict);
    SkipExtends(first.rest, b);
    TailOfAppend(t, b, 1);
    if t[0] == ',' {
      SkipExtends(t[1..], b);
      MembersExtend(SkipSpace(t[1..]), b, strict);
    }
  }

  lemma {:induction false} MemberExtends(s: string, b: string, strict: bool)
    requires ParseMember(s, strict).Ok? && Ends(ParseMember(s, strict).value.value, ParseMember(s, strict).rest)
    ensures ParseMember(s + b, strict) == Extended(ParseMember(s, strict), b)
    decreases |s|, 0
  {
    TailOfAppend(s, b, 1);
    StringExtends(s[1..], b);
    var rest := ParseString(s[1..]).rest;
    var t := SkipSpace(rest);
    SkipExtends(rest, b);
    TailOfAppend(t, b, 1);
    SkipExtends(t[1..], b);
    ValueExtends(SkipSpace(t[1..]), b, strict);
  }

  /** A text that holds a complete object loads no more once other text follows. */
  lemma NothingAfterObject(text: string, more: string, strict: bool)
    requires Loads(text, strict).Some? && Loads(text, strict).value.Obj?
    requires more != [] && !IsSpace(more[0])
    ensures Loads(text + more, strict) == None
  {
    var s := SkipSpace(text);
    SkipExtends(text, more);
    ValueExtends(s, more, strict);
    var rest := ParseValue(s, strict).rest;
    OnlySpaces(rest, more);
  }

  lemma {:induction false} OnlySpaces(rest: string, more: string)
    requires SkipSpace(rest) == [] && more != [] && !IsSpace(more[0])
    ensures SkipSpace(rest + more) == more
  {
    if rest == [] {
      assert rest + more == more;
    } else {
      TailOfAppend(rest, more, 1);
      OnlySpaces(rest[1..], more);
    }
  }
}
