/** What the redaction pass leaves at each place of a value, and when it succeeds. */
module RedactionPlaces {
  import opened Redaction

  // ---------------------------------------------------------------- the pass, field by field

  lemma {:induction false} FieldsOneByOne(fields: seq<Field>, path: Path, policy: Policy, depth: nat, i: nat)
    requires RedactFields(fields, path, policy, depth, None).Done? && i < |fields|
    ensures
      var outs := RedactFields(fields, path, policy, depth, None).out;
      |outs| == |fields|
      && RedactField(fields[i], path, policy, depth, None) == Done(outs[i], None)
  {
    var n := |fields| - 1;
    if n > 0 { FieldsOneByOne(fields[..n], path, policy, depth, if i < n then i else 0); }
    if i < n { assert fields[..n][i] == fields[i]; }
  }

  lemma {:induction false} ItemsOneByOne(items: seq<Value>, path: Path, policy: Policy, depth: nat, i: nat)
    requires RedactItems(items, path, policy, depth, None).Done? && i < |items|
    ensures
      var outs := RedactItems(items, path, policy, depth, None).out;
      |outs| == |items|
      && RedactValue(items[i], path, policy, depth, None) == Done(outs[i], None)
  {
    var n := |items| - 1;
    if n > 0 { ItemsOneByOne(items[..n], path, policy, depth, if i < n then i else 0); }
    if i < n { assert items[..n][i] == items[i]; }
  }

  lemma FieldsHaveLength(fields: seq<Field>, path: Path, policy: Policy, depth: nat)
    requires RedactFields(fields, path, policy, depth, None).Done?
    ensures |RedactFields(fields, path, policy, depth, None).out| == |fields|
  {
    if fields != [] { FieldsOneByOne(fields, path, policy, depth, 0); }
  }

  lemma ItemsHaveLength(items: seq<Value>, path: Path, policy: Policy, depth: nat)
    requires RedactItems(items, path, policy, depth, None).Done?
    ensures |RedactItems(items, path, policy, depth, None).out| == |items|
  {
    if items != [] { ItemsOneByOne(items, path, policy, depth, 0); }
  }

  // ---------------------------------------------------------------- base64 and UTF-8, read back

  function SextetOf(c: char): Option<nat> {
    if 'A' <= c <= 'Z' then Some((c - 'A') as nat)
    else if 'a' <= c <= 'z' then Some((c - 'a') as nat + 26)
    else if '0' <= c <= '9' then Some((c - '0') as nat + 52)
    else if c == '+' then Some(62)
    else if c == '/' then Some(63)
    else None
  }

  lemma SextetReads(i: nat)
    requires i < 64
    ensures SextetOf(Base64Char(i)) == Some(i) && Base64Char(i) != '='
  {
  }

  // The bytes of one group of four characters.
  function GroupBytes(s: string): Option<seq<int>>
    requires |s| == 4
  {
    match (SextetOf(s[0]), SextetOf(s[1]), SextetOf(s[2]), SextetOf(s[3]))
    case (Some(a), Some(b), Some(c), Some(d)) => Some([a * 4 + b / 16, b % 16 * 16 + c / 4, c % 4 * 64 + d])
    case (Some(a), Some(b), Some(c), None) => if s[3] == '=' then Some([a * 4 + b / 16, b % 16 * 16 + c / 4]) else None
    case (Some(a), Some(b), None, None) => if s[2] == s[3] == '=' then Some([a * 4 + b / 16]) else None
    case _ => None
  }

  function Base64Decode(s: string): Option<seq<int>> {
    if s == "" then Some([])
    else if |s| < 4 then None
    else match GroupBytes(s[..4])
      case None => None
      case Some(group) =>
        if |group| < 3 then (if |s| == 4 then Some(group) else None)
        else match Base64Decode(s[4..]) case None => None case Some(rest) => Some(group + rest)
  }

  function Ints(bs: seq<byte>): (r: seq<int>)
    ensures |r| == |bs| && forall i | 0 <= i < |r| :: r[i] == bs[i] as int
  {
    seq(|bs|, i requires 0 <= i < |bs| => bs[i] as int)
  }

  // The four sextets of three bytes give the bytes back.
  lemma SextetsAre(a: int, b: int, c: int)
    requires 0 <= a < 256 && 0 <= b < 256 && 0 <= c < 256
    ensures
      var x, y := a % 4 * 16 + b / 16, b % 16 * 4 + c / 64;
      && 0 <= x < 64 && 0 <= y < 64
      && a / 4 * 4 + x / 16 == a && x % 16 * 16 + y / 4 == b && y % 4 * 64 + c % 64 == c
  {
    var p, q, r, t := a % 4, b / 16, b % 16, c / 64;
    assert 0 <= q < 16 && 0 <= t < 4;
    assert (p * 16 + q) / 16 == p && (p * 16 + q) % 16 == q;
    assert (r * 4 + t) / 4 == r && (r * 4 + t) % 4 == t;
  }

  lemma GroupOf(p: nat, q: nat, r: nat, s: nat)
    requires p < 64 && q < 64 && r < 64 && s < 64
    ensures GroupBytes([Base64Char(p), Base64Char(q), Base64Char(r), Base64Char(s)])
         == Some([p * 4 + q / 16, q % 16 * 16 + r / 4, r % 4 * 64 + s])
    ensures GroupBytes([Base64Char(p), Base64Char(q), Base64Char(r), '=']) == Some([p * 4 + q / 16, q % 16 * 16 + r / 4])
    ensures GroupBytes([Base64Char(p), Base64Char(q), '=', '=']) == Some([p * 4 + q / 16])
  {
    SextetReads(p);
    SextetReads(q);
    SextetReads(r);
    SextetReads(s);
    assert SextetOf('=') == None;
  }

  lemma GroupReads(a: int, b: int, c: int)
    requires 0 <= a < 256 && 0 <= b < 256 && 0 <= c < 256
    ensures GroupBytes(Base64Group(a, b, c)) == Some([a, b, c])
  {
    var x, y := a % 4 * 16 + b / 16, b % 16 * 4 + c / 64;
    SextetsAre(a, b, c);
    GroupOf(a / 4, x, y, c % 64);
    assert Base64Group(a, b, c) == [Base64Char(a / 4), Base64Char(x), Base64Char(y), Base64Char(c % 64)];
  }

  lemma TailReads(bs: seq<byte>)
    requires 1 <= |bs| <= 2
    ensures GroupBytes(Base64Tail(bs)) == Some(Ints(bs))
  {
    var a, b := bs[0] as int, if |bs| == 1 then 0 else bs[1] as int;
    SextetsAre(a, b, 0);
    GroupOf(a / 4, a % 4 * 16 + b / 16, b % 16 * 4, 0);
    assert Ints(bs) == if |bs| == 1 then [a] else [a, b];
  }

  /** Base64 text decodes to the bytes it was made from. */
  lemma {:induction false} Base64ReadsBack(bs: seq<byte>)
    ensures Base64Decode(Base64(bs)) == Some(Ints(bs))
  {
    if 0 < |bs| <= 2 {
      TailReads(bs);
      assert Base64Tail(bs)[..4] == Base64Tail(bs);
    } else if |bs| > 2 {
      GroupReads(bs[0] as int, bs[1] as int, bs[2] as int);
      Base64ReadsBack(bs[3..]);
      var group := Base64Group(bs[0] as int, bs[1] as int, bs[2] as int);
      assert Base64(bs)[..4] == group && Base64(bs)[4..] == Base64(bs[3..]);
      assert Ints(bs) == [bs[0] as int, bs[1] as int, bs[2] as int] + Ints(bs[3..]);
    }
  }

  // Section 3 of RFC 3629.
  function Utf8Char(c: char): (r: seq<int>) {
    var n := c as int;
    if n < 0x80 then [n]
    else if n < 0x800 then [0xC0 + n / 0x40, 0x80 + n % 0x40]
    else if n < 0x10000 then [0xE0 + n / 0x1000, 0x80 + n / 0x40 % 0x40, 0x80 + n % 0x40]
    else [0xF0 + n / 0x40000, 0x80 + n / 0x1000 % 0x40, 0x80 + n / 0x40 % 0x40, 0x80 + n % 0x40]
  }

  function Utf8(s: string): seq<int> { if s == "" then [] else Utf8Char(s[0]) + Utf8(s[1..]) }

  // The code point at the start of some bytes, and the bytes it takes.
  function CodePoint(bs: seq<int>): Option<(int, nat)> {
    if bs == [] then None
    else if bs[0] < 0x80 then Some((bs[0], 1))
    else if bs[0] < 0xE0 then (if |bs| < 2 then None else Some(((bs[0] - 0xC0) * 0x40 + bs[1] - 0x80, 2)))
    else if bs[0] < 0xF0 then
      (if |bs| < 3 then None else Some((((bs[0] - 0xE0) * 0x40 + bs[1] - 0x80) * 0x40 + bs[2] - 0x80, 3)))
    else if |bs| < 4 then None
    else Some(((((bs[0] - 0xF0) * 0x40 + bs[1] - 0x80) * 0x40 + bs[2] - 0x80) * 0x40 + bs[3] - 0x80, 4))
  }

  lemma CharReads(c: char, rest: seq<int>)
    ensures CodePoint(Utf8Char(c) + rest) == Some((c as int, |Utf8Char(c)|))
  {
    var n := c as int;
    assert n / 0x1000 == n / 0x40 / 0x40 && n / 0x40000 == n / 0x1000 / 0x40;
  }

  /** A text capture is charged the length of its UTF-8 form, from which the text can be read. */
  lemma {:induction false} Utf8LengthIs(s: string)
    ensures Utf8Length(s) == |Utf8(s)|
    ensures s != "" ==>
      CodePoint(Utf8(s)) == Some((s[0] as int, |Utf8Char(s[0])|)) && Utf8(s)[|Utf8Char(s[0])|..] == Utf8(s[1..])
  {
    if s != "" {
      Utf8LengthIs(s[1..]);
      CharReads(s[0], Utf8(s[1..]));
    }
  }

  /** What a capture is charged: the bytes of its text, or the characters of its base64. */
  lemma CaptureCostIs(o: Out)
    requires o.Capture?
    ensures CaptureCost(o) == if o.encoding.AsText? then |Utf8(o.value)| else |o.value|
  {
    if o.encoding.AsText? { Utf8LengthIs(o.value); }
  }

  // ---------------------------------------------------------------- places

  // A place in a value: the index of a child at each level.
  type Route = seq<nat>

  function Width(v: Value): nat {
    match v case Mapping(fields) => |fields| case List(items) => |items| case _ => 0
  }

  function Child(v: Value, i: nat): Value
    requires i < Width(v)
  {
    match v case Mapping(fields) => fields[i].value case List(items) => items[i]
  }

  // Items have the path of their list, fields their lowered name after the path of their dict.
  function ChildPath(v: Value, path: Path, policy: Policy, i: nat): Path
    requires i < Width(v)
  {
    match v
    case Mapping(fields) => (match fields[i].key case Name(name) => path + [policy.lower(name)] case NotText => path)
    case List(_) => path
  }

  function ValueAt(v: Value, route: Route): Option<Value>
    decreases |route|
  {
    if route == [] then Some(v)
    else if route[0] < Width(v) then ValueAt(Child(v, route[0]), route[1..])
    else None
  }

  function PathAt(v: Value, path: Path, policy: Policy, route: Route): Path
    decreases |route|
  {
    if route == [] || route[0] >= Width(v) then path
    else PathAt(Child(v, route[0]), ChildPath(v, path, policy, route[0]), policy, route[1..])
  }

  function OutWidth(o: Out): nat {
    match o case OutMapping(fields) => |fields| case OutList(items) => |items| case _ => 0
  }

  function OutChild(o: Out, i: nat): Out
    requires i < OutWidth(o)
  {
    match o case OutMapping(fields) => fields[i].value case OutList(items) => items[i]
  }

  function OutAt(o: Out, route: Route): Option<Out>
    decreases |route|
  {
    if route == [] then Some(o)
    else if route[0] < OutWidth(o) then OutAt(OutChild(o, route[0]), route[1..])
    else None
  }

  // Some place around this one is hidden.
  ghost predicate Covered(v: Value, path: Path, policy: Policy, route: Route) {
    exists k | 0 <= k < |route| :: Hidden(PathAt(v, path, policy, route[..k]), policy)
  }

  // A place of the value that nothing around it hides.
  ghost predicate Reached(v: Value, path: Path, policy: Policy, route: Route) {
    ValueAt(v, route).Some? && !Covered(v, path, policy, route)
  }

  // ---------------------------------------------------------------- what is left at a place

  // Text after the patterns: whole if short or exempt, and otherwise its start and its digest.
  ghost predicate ShowsText(policy: Policy, path: Path, s: string, o: Out) {
    var t, max := policy.redactText(s), policy.maxStringLength;
    if path in policy.captureExemptPaths || |t| <= max then o == OutText(t)
    else o.Capture? && o.encoding.AsText? && o.truncated
         && o.value <= t && |o.value| == o.capturedLength == max && o.originalLength == |t|
         && o.digest == policy.digestText(t)
  }

  // Bytes: the start of them in base64, and their digest.
  ghost predicate ShowsBytes(policy: Policy, bs: seq<byte>, o: Out) {
    o.Capture? && o.encoding.AsBase64?
    && o.originalLength == |bs| && (o.truncated <==> |bs| > policy.maxBytesLength)
    && o.capturedLength == (if o.truncated then policy.maxBytesLength else |bs|)
    && Base64Decode(o.value) == Some(Ints(bs[..o.capturedLength]))
    && o.digest == policy.digestBytes(bs)
  }

  ghost predicate Shows(policy: Policy, path: Path, w: Value, o: Out) {
    match w
    case Text(s) => ShowsText(policy, path, s, o)
    case Bytes(bs) => |bs| >= 0 && o.Capture? && o.capturedLength <= |bs| && ShowsBytes(policy, bs, o)
    case Plain(x) => o == OutPlain(x)
    case Mapping(fs) =>
      o.OutMapping? && |o.fields| == |fs| && forall i | 0 <= i < |fs| :: fs[i].key == Name(o.fields[i].name)
    case List(items) => o.OutList? && |o.items| == |items|
    case _ => false
  }

  // What the policy asks of a value that is not hidden.
  ghost predicate Passable(policy: Policy, path: Path, w: Value, depth: nat) {
    depth <= policy.maxJsonDepth
    && match w
       case Text(_) => path in policy.captureExemptPaths || policy.maxStringLength >= 0
       case Bytes(_) => policy.maxBytesLength >= 0
       case Plain(_) => true
       case Mapping(fs) => |fs| <= policy.maxObjectMembers && forall i | 0 <= i < |fs| :: fs[i].key.Name?
       case List(items) => |items| <= policy.maxArrayLength
       case _ => false
  }

  // ---------------------------------------------------------------- one level

  function Pass1(v: Value, path: Path, policy: Policy, depth: nat): Pass<Out> {
    RedactValue(v, path, policy, depth, None)
  }

  function ChildPass(v: Value, path: Path, policy: Policy, depth: nat, i: nat): Pass<Out>
    requires i < Width(v)
  {
    Pass1(Child(v, i), ChildPath(v, path, policy, i), policy, depth + 1)
  }

  lemma {:induction false} FieldsDone(fields: seq<Field>, path: Path, policy: Policy, depth: nat)
    requires forall i | 0 <= i < |fields| :: RedactField(fields[i], path, policy, depth, None).Done?
    ensures RedactFields(fields, path, policy, depth, None).Done?
  {
    if fields != [] {
      var n := |fields| - 1;
      forall i | 0 <= i < n ensures RedactField(fields[..n][i], path, policy, depth, None).Done? {
        assert fields[..n][i] == fields[i];
      }
      FieldsDone(fields[..n], path, policy, depth);
      assert RedactField(fields[n], path, policy, depth, None).Done?;
    }
  }

  lemma {:induction false} FieldsDoneIff(fields: seq<Field>, path: Path, policy: Policy, depth: nat)
    ensures RedactFields(fields, path, policy, depth, None).Done?
       <==> forall i | 0 <= i < |fields| :: RedactField(fields[i], path, policy, depth, None).Done?
  {
    if RedactFields(fields, path, policy, depth, None).Done? {
      forall i | 0 <= i < |fields| ensures RedactField(fields[i], path, policy, depth, None).Done? {
        FieldsOneByOne(fields, path, policy, depth, i);
      }
    }
    if forall i | 0 <= i < |fields| :: RedactField(fields[i], path, policy, depth, None).Done? {
      FieldsDone(fields, path, policy, depth);
    }
  }

  lemma {:induction false} ItemsDone(items: seq<Value>, path: Path, policy: Policy, depth: nat)
    requires forall i | 0 <= i < |items| :: RedactValue(items[i], path, policy, depth, None).Done?
    ensures RedactItems(items, path, policy, depth, None).Done?
  {
    if items != [] {
      var n := |items| - 1;
      forall i | 0 <= i < n ensures RedactValue(items[..n][i], path, policy, depth, None).Done? {
        assert items[..n][i] == items[i];
      }
      ItemsDone(items[..n], path, policy, depth);
      assert RedactValue(items[n], path, policy, depth, None).Done?;
    }
  }

  lemma {:induction false} ItemsDoneIff(items: seq<Value>, path: Path, policy: Policy, depth: nat)
    ensures RedactItems(items, path, policy, depth, None).Done?
       <==> forall i | 0 <= i < |items| :: RedactValue(items[i], path, policy, depth, None).Done?
  {
    if RedactItems(items, path, policy, depth, None).Done? {
      forall i | 0 <= i < |items| ensures RedactValue(items[i], path, policy, depth, None).Done? {
        ItemsOneByOne(items, path, policy, depth, i);
      }
    }
    if forall i | 0 <= i < |items| :: RedactValue(items[i], path, policy, depth, None).Done? {
      ItemsDone(items, path, policy, depth);
    }
  }

  lemma {:induction false} LevelDoneIff(v: Value, path: Path, policy: Policy, depth: nat)
    requires !Hidden(path, policy)
    ensures Pass1(v, path, policy, depth).Done? <==>
      Passable(policy, path, v, depth) && forall i | 0 <= i < Width(v) :: ChildPass(v, path, policy, depth, i).Done?
  {
    SensitiveIffHidden(path, policy);
    match v
    case Mapping(fields) => FieldsLevelIff(fields, path, policy, depth);
    case List(items) =>
      ItemsDoneIff(items, path, policy, depth + 1);
      assert forall i | 0 <= i < |items| ::
        ChildPass(v, path, policy, depth, i) == RedactValue(items[i], path, policy, depth + 1, None);
    case _ =>
  }

  lemma {:induction false} FieldsLevelIff(fields: seq<Field>, path: Path, policy: Policy, depth: nat)
    requires !Hidden(path, policy)
    ensures Pass1(Mapping(fields), path, policy, depth).Done? <==>
      Passable(policy, path, Mapping(fields), depth)
      && forall i | 0 <= i < |fields| :: ChildPass(Mapping(fields), path, policy, depth, i).Done?
  {
    SensitiveIffHidden(path, policy);
    FieldsDoneIff(fields, path, policy, depth + 1);
    forall i | 0 <= i < |fields|
      ensures RedactField(fields[i], path, policy, depth + 1, None).Done?
         <==> fields[i].key.Name? && ChildPass(Mapping(fields), path, policy, depth, i).Done?
    {
    }
  }

  // What a successful pass leaves of a value that is not hidden, and of its children.
  lemma {:induction false} LevelShows(v: Value, path: Path, policy: Policy, depth: nat, o: Out)
    requires !Hidden(path, policy) && Pass1(v, path, policy, depth) == Done(o, None)
    ensures Shows(policy, path, v, o) && OutWidth(o) == Width(v)
    ensures forall i | 0 <= i < Width(v) :: ChildPass(v, path, policy, depth, i) == Done(OutChild(o, i), None)
  {
    SensitiveIffHidden(path, policy);
    match v
    case Mapping(fields) => FieldsShow(fields, path, policy, depth, o);
    case List(items) =>
      ItemsHaveLength(items, path, policy, depth + 1);
      forall i | 0 <= i < |items| ensures ChildPass(v, path, policy, depth, i) == Done(OutChild(o, i), None) {
        ItemsOneByOne(items, path, policy, depth + 1, i);
      }
    case Bytes(bs) => BytesShow(bs, policy, o);
    case _ =>
  }

  lemma BytesShow(bs: seq<byte>, policy: Policy, o: Out)
    requires CaptureBytes(bs, policy.maxBytesLength, policy) == Some(o)
    ensures o.Capture? && o.capturedLength <= |bs| && ShowsBytes(policy, bs, o)
  {
    var captured := if |bs| <= policy.maxBytesLength then bs else bs[..policy.maxBytesLength];
    Base64ReadsBack(captured);
    assert bs[..|captured|] == captured;
  }

  lemma {:induction false} FieldsShow(fields: seq<Field>, path: Path, policy: Policy, depth: nat, o: Out)
    requires !Hidden(path, policy) && Pass1(Mapping(fields), path, policy, depth) == Done(o, None)
    ensures Shows(policy, path, Mapping(fields), o)
    ensures forall i | 0 <= i < |fields| ::
      ChildPass(Mapping(fields), path, policy, depth, i) == Done(OutChild(o, i), None)
  {
    SensitiveIffHidden(path, policy);
    FieldsHaveLength(fields, path, policy, depth + 1);
    forall i | 0 <= i < |fields|
      ensures fields[i].key == Name(o.fields[i].name)
      ensures ChildPass(Mapping(fields), path, policy, depth, i) == Done(o.fields[i].value, None)
    {
      FieldsOneByOne(fields, path, policy, depth + 1, i);
    }
  }

  // ---------------------------------------------------------------- every level

  lemma CoveredBelow(v: Value, path: Path, policy: Policy, route: Route)
    requires route != [] && route[0] < Width(v)
    ensures Covered(v, path, policy, route)
       <==> Hidden(path, policy)
            || Covered(Child(v, route[0]), ChildPath(v, path, policy, route[0]), policy, route[1..])
  {
    var child, below := Child(v, route[0]), ChildPath(v, path, policy, route[0]);
    assert route[..0] == [] && PathAt(v, path, policy, []) == path;
    forall k | 0 < k < |route|
      ensures PathAt(v, path, policy, route[..k]) == PathAt(child, below, policy, route[1..][..k - 1])
    {
      assert route[..k][1..] == route[1..][..k - 1] && route[..k][0] == route[0];
    }
    if k :| 0 <= k < |route| && Hidden(PathAt(v, path, policy, route[..k]), policy) {
      if k > 0 { assert Hidden(PathAt(child, below, policy, route[1..][..k - 1]), policy); }
    }
    if Hidden(path, policy) { assert Hidden(PathAt(v, path, policy, route[..0]), policy); }
    if k :| 0 <= k < |route[1..]| && Hidden(PathAt(child, below, policy, route[1..][..k]), policy) {
      assert Hidden(PathAt(v, path, policy, route[..k + 1]), policy);
    }
  }

  /** Whatever the policy hides comes out as a marker, at any depth, and what it does not hide and nothing
      around it hides comes out as the policy shows it. */
  lemma {:induction false} RedactedAt(
    v: Value, path: Path, policy: Policy, depth: nat, route: Route, o: Out)
    requires Pass1(v, path, policy, depth) == Done(o, None) && Reached(v, path, policy, route)
    ensures
      var left := OutAt(o, route);
      && left.Some?
      && if Hidden(PathAt(v, path, policy, route), policy) then left.value == Sensitive
         else Shows(policy, PathAt(v, path, policy, route), ValueAt(v, route).value, left.value)
    decreases |route|
  {
    SensitiveIffHidden(path, policy);
    if route == [] {
      if !Hidden(path, policy) { LevelShows(v, path, policy, depth, o); }
    } else {
      CoveredBelow(v, path, policy, route);
      LevelShows(v, path, policy, depth, o);
      RedactedAt(Child(v, route[0]), ChildPath(v, path, policy, route[0]), policy, depth + 1, route[1..],
                 OutChild(o, route[0]));
    }
  }

  // Nothing the pass reaches is refused.
  ghost predicate AllPassable(v: Value, path: Path, policy: Policy, depth: nat) {
    forall route: Route | Reached(v, path, policy, route) && !Hidden(PathAt(v, path, policy, route), policy) ::
      Passable(policy, PathAt(v, path, policy, route), ValueAt(v, route).value, depth + |route|)
  }

  lemma ReachedBelow(v: Value, path: Path, policy: Policy, i: nat, rest: Route)
    requires i < Width(v) && !Hidden(path, policy)
    ensures
      var child, below, route := Child(v, i), ChildPath(v, path, policy, i), [i] + rest;
      && ValueAt(v, route) == ValueAt(child, rest) && PathAt(v, path, policy, route) == PathAt(child, below, policy, rest)
      && (Reached(v, path, policy, route) <==> Reached(child, below, policy, rest))
  {
    assert ([i] + rest)[1..] == rest;
    CoveredBelow(v, path, policy, [i] + rest);
  }

  lemma {:induction false} AllPassableIff(v: Value, path: Path, policy: Policy, depth: nat)
    requires !Hidden(path, policy)
    ensures AllPassable(v, path, policy, depth) <==>
      Passable(policy, path, v, depth)
      && forall i | 0 <= i < Width(v) :: AllPassable(Child(v, i), ChildPath(v, path, policy, i), policy, depth + 1)
  {
    var here: Route := [];
    assert PathAt(v, path, policy, here) == path && ValueAt(v, here) == Some(v) && Reached(v, path, policy, here);
    if AllPassable(v, path, policy, depth) {
      assert depth + |here| == depth;
      forall i | 0 <= i < Width(v) ensures AllPassable(Child(v, i), ChildPath(v, path, policy, i), policy, depth + 1) {
        PassableBelow(v, path, policy, depth, i);
      }
    }
    if Passable(policy, path, v, depth)
       && forall i | 0 <= i < Width(v) :: AllPassable(Child(v, i), ChildPath(v, path, policy, i), policy, depth + 1)
    {
      forall route: Route | Reached(v, path, policy, route) && !Hidden(PathAt(v, path, policy, route), policy)
        ensures Passable(policy, PathAt(v, path, policy, route), ValueAt(v, route).value, depth + |route|)
      {
        if route != [] {
          assert route == [route[0]] + route[1..];
          ReachedBelow(v, path, policy, route[0], route[1..]);
          assert AllPassable(Child(v, route[0]), ChildPath(v, path, policy, route[0]), policy, depth + 1);
        }
      }
    }
  }

  lemma PassableBelow(v: Value, path: Path, policy: Policy, depth: nat, i: nat)
    requires i < Width(v) && !Hidden(path, policy) && AllPassable(v, path, policy, depth)
    ensures AllPassable(Child(v, i), ChildPath(v, path, policy, i), policy, depth + 1)
  {
    var child, below := Child(v, i), ChildPath(v, path, policy, i);
    forall rest: Route | Reached(child, below, policy, rest) && !Hidden(PathAt(child, below, policy, rest), policy)
      ensures Passable(policy, PathAt(child, below, policy, rest), ValueAt(child, rest).value, depth + 1 + |rest|)
    {
      ReachedBelow(v, path, policy, i, rest);
      assert |[i] + rest| == 1 + |rest|;
    }
  }

  /** The pass succeeds exactly when nothing it reaches is too deep, too wide, not finite or of an unknown
      type; what is hidden may be anything. */
  lemma {:induction false} PassSucceedsIff(v: Value, path: Path, policy: Policy, depth: nat)
    ensures Pass1(v, path, policy, depth).Done? <==> AllPassable(v, path, policy, depth)
    decreases v
  {
    SensitiveIffHidden(path, policy);
    if Hidden(path, policy) {
      forall route: Route | Reached(v, path, policy, route) && !Hidden(PathAt(v, path, policy, route), policy)
        ensures false
      {
        if route != [] { CoveredBelow(v, path, policy, route); }
      }
    } else {
      LevelDoneIff(v, path, policy, depth);
      AllPassableIff(v, path, policy, depth);
      forall i | 0 <= i < Width(v)
        ensures ChildPass(v, path, policy, depth, i).Done?
           <==> AllPassable(Child(v, i), ChildPath(v, path, policy, i), policy, depth + 1)
      {
        PassSucceedsIff(Child(v, i), ChildPath(v, path, policy, i), policy, depth + 1);
      }
    }
  }

  /** Applying a policy: it fails unless everything reached passes and the captures fit both limits, and
      then leaves a marker wherever something is hidden. */
  lemma {:induction false} AppliedAt(v: Value, policy: Policy, o: Out, route: Route)
    requires Apply(v, policy) == Some(o) && Reached(v, [], policy, route)
    ensures AllPassable(v, [], policy, 0)
    ensures
      var left := OutAt(o, route);
      && left.Some?
      && if Hidden(PathAt(v, [], policy, route), policy) then left.value == Sensitive
         else Shows(policy, PathAt(v, [], policy, route), ValueAt(v, route).value, left.value)
  {
    ApplySucceedsIff(v, policy);
    PassSucceedsIff(v, [], policy, 0);
    RedactedAt(v, [], policy, 0, route, o);
  }
}
