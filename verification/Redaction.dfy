/** Fail-closed redaction with a capture budget threaded through the pass.
    Text patterns, case folding and digests are parameters of the policy. */
module Redaction {

  datatype Option<+T> = None | Some(value: T)

  newtype byte = x: int | 0 <= x < 256

  type Path = seq<string>

  // ---------------------------------------------------------------- values

  datatype Scalar = Null | Bool(b: bool) | Int(n: int)

  datatype FieldKey = Name(name: string) | NotText

  datatype Field = Field(key: FieldKey, value: Value)

  // An arbitrary Python value on its way to persistence.
  datatype Value =
    | Plain(s: Scalar)
    | Text(text: string)
    | Bytes(bytes: seq<byte>)
    | NonFinite
    | Mapping(fields: seq<Field>)
    | List(items: seq<Value>)
    | Unsupported

  datatype Encoding = AsText | AsBase64

  datatype OutField = OutField(name: string, value: Out)

  // A redacted value: JSON, the marker of a sensitive value, or bounded capture metadata.
  datatype Out =
    | OutPlain(s: Scalar)
    | OutText(text: string)
    | OutMapping(fields: seq<OutField>)
    | OutList(items: seq<Out>)
    | Sensitive
    | Capture(encoding: Encoding, value: string, originalLength: nat, capturedLength: nat, truncated: bool,
              digest: string)

  datatype Policy = Policy(
    sensitivePaths: set<Path>,
    sensitiveFieldNames: set<string>,
    maxStringLength: int,
    maxBytesLength: int,
    maxCaptureCount: int,
    maxCaptureBytes: int,
    maxJsonDepth: int,
    maxObjectMembers: int,
    maxArrayLength: int,
    captureExemptPaths: set<Path>,
    redactText: string -> string,
    lower: string -> string,
    digestText: string -> string,
    digestBytes: seq<byte> -> string)

  function DashToUnderscore(s: string): string {
    seq(|s|, i requires 0 <= i < |s| => if s[i] == '-' then '_' else s[i])
  }

  predicate IsSensitive(path: Path, policy: Policy) {
    path in policy.sensitivePaths
    || (path != [] && policy.lower(DashToUnderscore(path[|path| - 1])) in policy.sensitiveFieldNames)
  }

  ghost predicate Underscored(name: string, s: string) {
    |s| == |name| && forall i | 0 <= i < |s| :: s[i] == if name[i] == '-' then '_' else name[i]
  }

  /** A place is hidden when its path is listed, or when its last name, written with '_' for '-' and then
      lowered, is a listed field name. */
  ghost predicate Hidden(path: Path, policy: Policy) {
    path in policy.sensitivePaths
    || (path != [] && exists s :: Underscored(path[|path| - 1], s) && policy.lower(s) in policy.sensitiveFieldNames)
  }

  lemma SensitiveIffHidden(path: Path, policy: Policy)
    ensures IsSensitive(path, policy) <==> Hidden(path, policy)
  {
    if path != [] {
      var name := path[|path| - 1];
      assert Underscored(name, DashToUnderscore(name));
      forall s | Underscored(name, s) ensures s == DashToUnderscore(name) {}
    }
  }

  // ---------------------------------------------------------------- captures and their cost

  function Utf8Length(s: string): nat {
    if s == "" then 0
    else
      var c := s[0] as int;
      (if c < 0x80 then 1 else if c < 0x800 then 2 else if c < 0x10000 then 3 else 4) + Utf8Length(s[1..])
  }

  function Base64Char(i: nat): char
    requires i < 64
  {
    if i < 26 then 'A' + i as char
    else if i < 52 then 'a' + (i - 26) as char
    else if i < 62 then '0' + (i - 52) as char
    else if i == 62 then '+'
    else '/'
  }

  // The last group of one or two bytes is padded.
  function Base64Tail(bs: seq<byte>): (s: string)
    requires 1 <= |bs| <= 2
    ensures |s| == 4
  {
    var a := bs[0] as int;
    if |bs| == 1 then [Base64Char(a / 4), Base64Char(a % 4 * 16), '=', '=']
    else
      var b := bs[1] as int;
      [Base64Char(a / 4), Base64Char(a % 4 * 16 + b / 16), Base64Char(b % 16 * 4), '=']
  }

  function Base64Group(a: int, b: int, c: int): (s: string)
    requires 0 <= a < 256 && 0 <= b < 256 && 0 <= c < 256
    ensures |s| == 4
  {
    [Base64Char(a / 4), Base64Char(a % 4 * 16 + b / 16), Base64Char(b % 16 * 4 + c / 64), Base64Char(c % 64)]
  }

  // Section 4 of RFC 4648.
  function Base64(bs: seq<byte>): string {
    if |bs| == 0 then ""
    else if |bs| <= 2 then Base64Tail(bs)
    else Base64Group(bs[0] as int, bs[1] as int, bs[2] as int) + Base64(bs[3..])
  }

  lemma {:induction false} Base64Groups(bs: seq<byte>, groups: nat)
    requires 3 * groups - 3 < |bs| <= 3 * groups
    ensures |Base64(bs)| == 4 * groups
    decreases groups
  {
    if |bs| >= 3 {
      Base64Groups(bs[3..], groups - 1);
      Base64Step(bs);
    } else if |bs| > 0 {
      Base64LastGroup(bs);
    }
  }

  lemma Base64Step(bs: seq<byte>)
    requires |bs| >= 3
    ensures |Base64(bs)| == 4 + |Base64(bs[3..])|
  {
  }

  lemma Base64LastGroup(bs: seq<byte>)
    requires 1 <= |bs| <= 2
    ensures |Base64(bs)| == 4
  {
  }

  /** n bytes take 4 * ceil(n / 3) characters. */
  lemma Base64Length(bs: seq<byte>)
    ensures |Base64(bs)| == 4 * ((|bs| + 2) / 3)
  {
    Base64Groups(bs, (|bs| + 2) / 3);
  }

  function CaptureString(s: string, max: int, policy: Policy): Option<Out> {
    if max < 0 then None
    else if |s| <= max then Some(OutText(s))
    else Some(Capture(AsText, s[..max], |s|, max, true, policy.digestText(s)))
  }

  function CaptureBytes(bs: seq<byte>, max: int, policy: Policy): Option<Out> {
    if max < 0 then None
    else
      var captured := if |bs| <= max then bs else bs[..max];
      Some(Capture(AsBase64, Base64(captured), |bs|, |captured|, |bs| > max, policy.digestBytes(bs)))
  }

  function CaptureCost(out: Out): nat
    requires out.Capture?
  {
    if out.encoding.AsText? then Utf8Length(out.value) else |out.value|
  }

  datatype Budget = Budget(maxCount: int, maxBytes: int, count: int, bytes: int)

  // Charging one capture; None is the refusal that fails the pass.
  function Charge(b: Budget, cost: int): Option<Budget> {
    if cost < 0 || b.count + 1 > b.maxCount || b.bytes + cost > b.maxBytes then None
    else Some(b.(count := b.count + 1, bytes := b.bytes + cost))
  }

  class CaptureBudget {
    const maxCount: int
    const maxBytes: int
    var count: int
    var bytes: int

    function State(): Budget reads this { Budget(maxCount, maxBytes, count, bytes) }

    constructor (maxCount: int, maxBytes: int)
      ensures State() == Budget(maxCount, maxBytes, 0, 0)
    {
      this.maxCount := maxCount;
      this.maxBytes := maxBytes;
      count, bytes := 0, 0;
    }

    /** Charge one capture, or refuse and change nothing. */
    method Record(cost: int) returns (ok: bool)
      modifies this
      ensures ok <==> Charge(old(State()), cost).Some?
      ensures State() == if ok then Charge(old(State()), cost).value else old(State())
    {
      if cost < 0 { return false; }
      var nextCount := count + 1;
      if nextCount > maxCount { return false; }
      var nextBytes := bytes + cost;
      if nextBytes > maxBytes { return false; }
      count := nextCount;
      bytes := nextBytes;
      return true;
    }
  }

  // ---------------------------------------------------------------- the pass

  // A pass fails as a whole, or yields a result and the budget left over.
  datatype Pass<+T> = Failed | Done(out: T, budget: Option<Budget>)

  // record_capture: only captures are charged, and only when there is a budget.
  function Recorded(out: Out, budget: Option<Budget>): Pass<Out> {
    if budget.None? || !out.Capture? then Done(out, budget)
    else match Charge(budget.value, CaptureCost(out))
      case None => Failed
      case Some(b) => Done(out, Some(b))
  }

  function RedactLeaf(captured: Option<Out>, budget: Option<Budget>): Pass<Out> {
    match captured case None => Failed case Some(out) => Recorded(out, budget)
  }

  function MappingOf(p: Pass<seq<OutField>>): Pass<Out> {
    match p case Failed => Failed case Done(outs, b) => Done(OutMapping(outs), b)
  }

  function ListOf(p: Pass<seq<Out>>): Pass<Out> {
    match p case Failed => Failed case Done(outs, b) => Done(OutList(outs), b)
  }

  function RedactValue(v: Value, path: Path, policy: Policy, depth: nat, budget: Option<Budget>): (r: Pass<Out>)
    ensures r.Done? ==> r.budget.None? == budget.None?
    decreases v
  {
    if IsSensitive(path, policy) then Done(Sensitive, budget)
    else if depth > policy.maxJsonDepth then Failed
    else match v
      case Text(s) =>
        var t := policy.redactText(s);
        if path in policy.captureExemptPaths then Done(OutText(t), budget)
        else RedactLeaf(CaptureString(t, policy.maxStringLength, policy), budget)
      case Bytes(bs) => RedactLeaf(CaptureBytes(bs, policy.maxBytesLength, policy), budget)
      case NonFinite => Failed
      case Plain(s) => Done(OutPlain(s), budget)
      case Mapping(fields) =>
        if |fields| > policy.maxObjectMembers then Failed
        else MappingOf(RedactFields(fields, path, policy, depth + 1, budget))
      case List(items) =>
        if |items| > policy.maxArrayLength then Failed
        else ListOf(RedactItems(items, path, policy, depth + 1, budget))
      case Unsupported => Failed
  }

  function RedactField(f: Field, path: Path, policy: Policy, depth: nat, budget: Option<Budget>): (r: Pass<OutField>)
    ensures r.Done? ==> r.budget.None? == budget.None?
    decreases f
  {
    match f.key
    case NotText => Failed
    case Name(name) =>
      match RedactValue(f.value, path + [policy.lower(name)], policy, depth, budget)
      case Failed => Failed
      case Done(out, b) => Done(OutField(name, out), b)
  }

  // The first n fields, in order.
  function RedactFields(fields: seq<Field>, path: Path, policy: Policy, depth: nat, budget: Option<Budget>)
    : (r: Pass<seq<OutField>>)
    ensures r.Done? ==> r.budget.None? == budget.None?
    decreases fields
  {
    if fields == [] then Done([], budget)
    else match RedactFields(fields[..|fields| - 1], path, policy, depth, budget)
      case Failed => Failed
      case Done(outs, b) =>
        match RedactField(fields[|fields| - 1], path, policy, depth, b)
        case Failed => Failed
        case Done(out, b') => Done(outs + [out], b')
  }

  function RedactItems(items: seq<Value>, path: Path, policy: Policy, depth: nat, budget: Option<Budget>)
    : (r: Pass<seq<Out>>)
    ensures r.Done? ==> r.budget.None? == budget.None?
    decreases items
  {
    if items == [] then Done([], budget)
    else match RedactItems(items[..|items| - 1], path, policy, depth, budget)
      case Failed => Failed
      case Done(outs, b) =>
        match RedactValue(items[|items| - 1], path, policy, depth, b)
        case Failed => Failed
        case Done(out, b') => Done(outs + [out], b')
  }

  // RedactionPolicy.apply
  function Apply(v: Value, policy: Policy): Option<Out> {
    if policy.maxCaptureCount < 0 || policy.maxCaptureBytes < 0 then None
    else match RedactValue(v, [], policy, 0, Some(Budget(policy.maxCaptureCount, policy.maxCaptureBytes, 0, 0)))
      case Failed => None
      case Done(out, _) => Some(out)
  }

  // ---------------------------------------------------------------- the imperative pass

  ghost function StateOf(budget: CaptureBudget?): Option<Budget>
    reads if budget == null then {} else {budget}
  {
    if budget == null then None else Some(budget.State())
  }

  method RecordLeaf(captured: Option<Out>, budget: CaptureBudget?) returns (out: Option<Out>)
    modifies if budget == null then {} else {budget}
    ensures match RedactLeaf(captured, old(StateOf(budget)))
      case Failed => out == None
      case Done(o, b) => out == Some(o) && StateOf(budget) == b
  {
    if captured.None? || budget == null || !captured.value.Capture? { return captured; }
    var ok := budget.Record(CaptureCost(captured.value));
    return if ok then captured else None;
  }

  /** The recursive pass with a shared mutable budget computes exactly the threaded pass. */
  method Redact(v: Value, path: Path, policy: Policy, depth: nat, budget: CaptureBudget?) returns (out: Option<Out>)
    modifies if budget == null then {} else {budget}
    ensures match RedactValue(v, path, policy, depth, old(StateOf(budget)))
      case Failed => out == None
      case Done(o, b) => out == Some(o) && StateOf(budget) == b
    decreases v, 1
  {
    if IsSensitive(path, policy) { return Some(Sensitive); }
    if depth > policy.maxJsonDepth { return None; }
    match v
    case Text(s) =>
      var t := policy.redactText(s);
      if path in policy.captureExemptPaths { return Some(OutText(t)); }
      out := RecordLeaf(CaptureString(t, policy.maxStringLength, policy), budget);
    case Bytes(bs) => out := RecordLeaf(CaptureBytes(bs, policy.maxBytesLength, policy), budget);
    case NonFinite => out := None;
    case Plain(s) => out := Some(OutPlain(s));
    case Mapping(fields) =>
      if |fields| > policy.maxObjectMembers { return None; }
      var outs := RedactAllFields(fields, path, policy, depth + 1, budget);
      out := if outs.None? then None else Some(OutMapping(outs.value));
    case List(items) =>
      if |items| > policy.maxArrayLength { return None; }
      var outs := RedactAllItems(items, path, policy, depth + 1, budget);
      out := if outs.None? then None else Some(OutList(outs.value));
    case Unsupported => out := None;
  }

  lemma {:induction false} FailedFieldsStayFailed(
    fields: seq<Field>, i: nat, path: Path, policy: Policy, depth: nat, budget: Option<Budget>)
    requires i <= |fields| && RedactFields(fields[..i], path, policy, depth, budget).Failed?
    ensures RedactFields(fields, path, policy, depth, budget).Failed?
    decreases |fields|
  {
    if i == |fields| {
      assert fields[..i] == fields;
    } else {
      assert fields[..|fields| - 1][..i] == fields[..i];
      FailedFieldsStayFailed(fields[..|fields| - 1], i, path, policy, depth, budget);
    }
  }

  lemma {:induction false} FailedItemsStayFailed(
    items: seq<Value>, i: nat, path: Path, policy: Policy, depth: nat, budget: Option<Budget>)
    requires i <= |items| && RedactItems(items[..i], path, policy, depth, budget).Failed?
    ensures RedactItems(items, path, policy, depth, budget).Failed?
    decreases |items|
  {
    if i == |items| {
      assert items[..i] == items;
    } else {
      assert items[..|items| - 1][..i] == items[..i];
      FailedItemsStayFailed(items[..|items| - 1], i, path, policy, depth, budget);
    }
  }

  method RedactOneField(f: Field, path: Path, policy: Policy, depth: nat, budget: CaptureBudget?)
    returns (field: Option<OutField>)
    modifies if budget == null then {} else {budget}
    ensures match RedactField(f, path, policy, depth, old(StateOf(budget)))
      case Failed => field == None
      case Done(o, b) => field == Some(o) && StateOf(budget) == b
    decreases f, 0
  {
    if f.key.NotText? { return None; }
    var out := Redact(f.value, path + [policy.lower(f.key.name)], policy, depth, budget);
    return if out.None? then None else Some(OutField(f.key.name, out.value));
  }

  method RedactAllFields(fields: seq<Field>, path: Path, policy: Policy, depth: nat, budget: CaptureBudget?)
    returns (outs: Option<seq<OutField>>)
    modifies if budget == null then {} else {budget}
    ensures match RedactFields(fields, path, policy, depth, old(StateOf(budget)))
      case Failed => outs == None
      case Done(os, b) => outs == Some(os) && StateOf(budget) == b
    decreases fields, 0
  {
    var redacted: seq<OutField> := [];
    for i := 0 to |fields|
      invariant RedactFields(fields[..i], path, policy, depth, old(StateOf(budget))) == Done(redacted, StateOf(budget))
    {
      assert fields[..i + 1][..i] == fields[..i];
      var out := RedactOneField(fields[i], path, policy, depth, budget);
      if out.None? {
        FailedFieldsStayFailed(fields, i + 1, path, policy, depth, old(StateOf(budget)));
        return None;
      }
      redacted := redacted + [out.value];
    }
    assert fields[..|fields|] == fields;
    return Some(redacted);
  }

  method RedactAllItems(items: seq<Value>, path: Path, policy: Policy, depth: nat, budget: CaptureBudget?)
    returns (outs: Option<seq<Out>>)
    modifies if budget == null then {} else {budget}
    ensures match RedactItems(items, path, policy, depth, old(StateOf(budget)))
      case Failed => outs == None
      case Done(os, b) => outs == Some(os) && StateOf(budget) == b
    decreases items, 0
  {
    var redacted: seq<Out> := [];
    for i := 0 to |items|
      invariant RedactItems(items[..i], path, policy, depth, old(StateOf(budget))) == Done(redacted, StateOf(budget))
    {
      assert items[..i + 1][..i] == items[..i];
      var out := Redact(items[i], path, policy, depth, budget);
      if out.None? {
        FailedItemsStayFailed(items, i + 1, path, policy, depth, old(StateOf(budget)));
        return None;
      }
      redacted := redacted + [out.value];
    }
    assert items[..|items|] == items;
    return Some(redacted);
  }

  // ---------------------------------------------------------------- the budget

  function CaptureCount(out: Out): nat {
    match out
    case Capture(_, _, _, _, _, _) => 1
    case OutMapping(fields) => FieldCaptureCount(fields)
    case OutList(items) => ItemCaptureCount(items)
    case _ => 0
  }

  function FieldCaptureCount(fields: seq<OutField>): nat {
    if fields == [] then 0
    else FieldCaptureCount(fields[..|fields| - 1]) + CaptureCount(fields[|fields| - 1].value)
  }

  function ItemCaptureCount(items: seq<Out>): nat {
    if items == [] then 0
    else ItemCaptureCount(items[..|items| - 1]) + CaptureCount(items[|items| - 1])
  }

  function CaptureTotal(out: Out): nat {
    match out
    case Capture(_, _, _, _, _, _) => CaptureCost(out)
    case OutMapping(fields) => FieldCaptureTotal(fields)
    case OutList(items) => ItemCaptureTotal(items)
    case _ => 0
  }

  function FieldCaptureTotal(fields: seq<OutField>): nat {
    if fields == [] then 0
    else FieldCaptureTotal(fields[..|fields| - 1]) + CaptureTotal(fields[|fields| - 1].value)
  }

  function ItemCaptureTotal(items: seq<Out>): nat {
    if items == [] then 0
    else ItemCaptureTotal(items[..|items| - 1]) + CaptureTotal(items[|items| - 1])
  }

  ghost predicate Unspent(b: Budget) { b.count <= b.maxCount && b.bytes <= b.maxBytes }

  // Totals of what an unbudgeted pass captured, and that pass charged once with them.
  datatype Totals = Totals(count: nat, bytes: nat)

  function Spend<T>(free: Pass<T>, t: Totals, b: Budget): Pass<T> {
    if free.Failed? || b.count + t.count > b.maxCount || b.bytes + t.bytes > b.maxBytes then Failed
    else Done(free.out, Some(b.(count := b.count + t.count, bytes := b.bytes + t.bytes)))
  }

  function ValueTotals(p: Pass<Out>): Totals {
    if p.Failed? then Totals(0, 0) else Totals(CaptureCount(p.out), CaptureTotal(p.out))
  }

  function FieldTotals(p: Pass<OutField>): Totals {
    if p.Failed? then Totals(0, 0) else Totals(CaptureCount(p.out.value), CaptureTotal(p.out.value))
  }

  function FieldsTotals(p: Pass<seq<OutField>>): Totals {
    if p.Failed? then Totals(0, 0) else Totals(FieldCaptureCount(p.out), FieldCaptureTotal(p.out))
  }

  function ItemsTotals(p: Pass<seq<Out>>): Totals {
    if p.Failed? then Totals(0, 0) else Totals(ItemCaptureCount(p.out), ItemCaptureTotal(p.out))
  }

  /** A budgeted pass is the unbudgeted pass, charged once with the totals of what it captured:
      it succeeds exactly when that pass succeeds and both totals fit. */
  lemma {:induction false} BudgetIsTotals(v: Value, path: Path, policy: Policy, depth: nat, b: Budget)
    requires Unspent(b)
    ensures var free := RedactValue(v, path, policy, depth, None);
      RedactValue(v, path, policy, depth, Some(b)) == Spend(free, ValueTotals(free), b)
    decreases v, 1
  {
    match v
    case Text(s) => TextBudgetIsTotals(s, path, policy, depth, b);
    case Bytes(bs) => LeafBudgetIsTotals(CaptureBytes(bs, policy.maxBytesLength, policy), b);
    case Mapping(fields) =>
      FieldsBudgetIsTotals(fields, path, policy, depth + 1, b);
      MappingBudgetIsTotals(fields, path, policy, depth, b, RedactFields(fields, path, policy, depth + 1, None));
    case List(items) =>
      ItemsBudgetIsTotals(items, path, policy, depth + 1, b);
      ListBudgetIsTotals(items, path, policy, depth, b, RedactItems(items, path, policy, depth + 1, None));
    case _ =>
  }

  lemma {:induction false} TextBudgetIsTotals(s: string, path: Path, policy: Policy, depth: nat, b: Budget)
    requires Unspent(b)
    ensures var free := RedactValue(Text(s), path, policy, depth, None);
      RedactValue(Text(s), path, policy, depth, Some(b)) == Spend(free, ValueTotals(free), b)
  {
    LeafBudgetIsTotals(CaptureString(policy.redactText(s), policy.maxStringLength, policy), b);
  }

  lemma {:induction false} MappingBudgetIsTotals(
    fields: seq<Field>, path: Path, policy: Policy, depth: nat, b: Budget, free: Pass<seq<OutField>>)
    requires free == RedactFields(fields, path, policy, depth + 1, None)
    requires RedactFields(fields, path, policy, depth + 1, Some(b)) == Spend(free, FieldsTotals(free), b)
    requires Unspent(b)
    ensures var p := RedactValue(Mapping(fields), path, policy, depth, None);
      RedactValue(Mapping(fields), path, policy, depth, Some(b)) == Spend(p, ValueTotals(p), b)
  {
    MappingSpends(free, b);
  }

  lemma {:induction false} MappingSpends(free: Pass<seq<OutField>>, b: Budget)
    ensures MappingOf(Spend(free, FieldsTotals(free), b)) == Spend(MappingOf(free), ValueTotals(MappingOf(free)), b)
  {
  }

  lemma {:induction false} ListBudgetIsTotals(
    items: seq<Value>, path: Path, policy: Policy, depth: nat, b: Budget, free: Pass<seq<Out>>)
    requires free == RedactItems(items, path, policy, depth + 1, None)
    requires RedactItems(items, path, policy, depth + 1, Some(b)) == Spend(free, ItemsTotals(free), b)
    requires Unspent(b)
    ensures var p := RedactValue(List(items), path, policy, depth, None);
      RedactValue(List(items), path, policy, depth, Some(b)) == Spend(p, ValueTotals(p), b)
  {
    ListSpends(free, b);
  }

  lemma {:induction false} ListSpends(free: Pass<seq<Out>>, b: Budget)
    ensures ListOf(Spend(free, ItemsTotals(free), b)) == Spend(ListOf(free), ValueTotals(ListOf(free)), b)
  {
  }

  lemma {:induction false} LeafBudgetIsTotals(captured: Option<Out>, b: Budget)
    requires Unspent(b) && (captured.Some? ==> captured.value.OutText? || captured.value.Capture?)
    ensures RedactLeaf(captured, Some(b)) == Spend(RedactLeaf(captured, None), ValueTotals(RedactLeaf(captured, None)), b)
  {
  }

  lemma {:induction false} FieldBudgetIsTotals(f: Field, path: Path, policy: Policy, depth: nat, b: Budget)
    requires Unspent(b)
    ensures var free := RedactField(f, path, policy, depth, None);
      RedactField(f, path, policy, depth, Some(b)) == Spend(free, FieldTotals(free), b)
    decreases f, 0
  {
    if f.key.Name? { BudgetIsTotals(f.value, path + [policy.lower(f.key.name)], policy, depth, b); }
  }

  lemma {:induction false} FieldsBudgetIsTotals(fields: seq<Field>, path: Path, policy: Policy, depth: nat, b: Budget)
    requires Unspent(b)
    ensures var free := RedactFields(fields, path, policy, depth, None);
      RedactFields(fields, path, policy, depth, Some(b)) == Spend(free, FieldsTotals(free), b)
    decreases fields, 0
  {
    if fields != [] {
      var n := |fields| - 1;
      FieldsBudgetIsTotals(fields[..n], path, policy, depth, b);
      var init := RedactFields(fields[..n], path, policy, depth, Some(b));
      var free := RedactFields(fields[..n], path, policy, depth, None);
      if init.Done? { FieldBudgetIsTotals(fields[n], path, policy, depth, init.budget.value); }
      var last := RedactField(fields[n], path, policy, depth, None);
      if free.Done? && last.Done? { assert (free.out + [last.out])[..|free.out|] == free.out; }
    }
  }

  lemma {:induction false} ItemsBudgetIsTotals(items: seq<Value>, path: Path, policy: Policy, depth: nat, b: Budget)
    requires Unspent(b)
    ensures var free := RedactItems(items, path, policy, depth, None);
      RedactItems(items, path, policy, depth, Some(b)) == Spend(free, ItemsTotals(free), b)
    decreases items, 0
  {
    if items != [] {
      var n := |items| - 1;
      ItemsBudgetIsTotals(items[..n], path, policy, depth, b);
      var init := RedactItems(items[..n], path, policy, depth, Some(b));
      var free := RedactItems(items[..n], path, policy, depth, None);
      if init.Done? { BudgetIsTotals(items[n], path, policy, depth, init.budget.value); }
      var last := RedactValue(items[n], path, policy, depth, None);
      if free.Done? && last.Done? { assert (free.out + [last.out])[..|free.out|] == free.out; }
    }
  }

  /** A policy succeeds exactly when the unbudgeted pass does and its captures fit both limits. */
  lemma ApplySucceedsIff(v: Value, policy: Policy)
    requires policy.maxCaptureCount >= 0 && policy.maxCaptureBytes >= 0
    ensures var free := RedactValue(v, [], policy, 0, None);
      Apply(v, policy)
      == if free.Done? && CaptureCount(free.out) <= policy.maxCaptureCount
            && CaptureTotal(free.out) <= policy.maxCaptureBytes
         then Some(free.out) else None
  {
    BudgetIsTotals(v, [], policy, 0, Budget(policy.maxCaptureCount, policy.maxCaptureBytes, 0, 0));
  }

  // ---------------------------------------------------------------- non-interference

  /** The two values differ only below sensitive paths or field names. */
  ghost predicate Agree(v: Value, w: Value, path: Path, policy: Policy)
    decreases v
  {
    Hidden(path, policy)
    || (match (v, w)
        case (Mapping(fs), Mapping(gs)) =>
          |fs| == |gs| && forall i | 0 <= i < |fs| :: FieldsAgree(fs[i], gs[i], path, policy)
        case (List(vs), List(ws)) => |vs| == |ws| && forall i | 0 <= i < |vs| :: Agree(vs[i], ws[i], path, policy)
        case _ => v == w)
  }

  ghost predicate FieldsAgree(f: Field, g: Field, path: Path, policy: Policy)
    decreases f
  {
    f.key == g.key && (f.key.Name? ==> Agree(f.value, g.value, path + [policy.lower(f.key.name)], policy))
  }

  /** Redaction hides what is sensitive: such values give the same output, or both fail, whatever
      the depth and the budget. */
  lemma {:induction false} NonInterference(
    v: Value, w: Value, path: Path, policy: Policy, depth: nat, budget: Option<Budget>)
    requires Agree(v, w, path, policy)
    ensures RedactValue(v, path, policy, depth, budget) == RedactValue(w, path, policy, depth, budget)
    decreases v, 1
  {
    SensitiveIffHidden(path, policy);
    if !Hidden(path, policy) {
      match (v, w)
      case (Mapping(fs), Mapping(gs)) => FieldsNonInterference(fs, gs, path, policy, depth + 1, budget);
      case (List(vs), List(ws)) => ItemsNonInterference(vs, ws, path, policy, depth + 1, budget);
      case _ =>
    }
  }

  lemma {:induction false} FieldNonInterference(
    f: Field, g: Field, path: Path, policy: Policy, depth: nat, budget: Option<Budget>)
    requires FieldsAgree(f, g, path, policy)
    ensures RedactField(f, path, policy, depth, budget) == RedactField(g, path, policy, depth, budget)
    decreases f, 0
  {
    if f.key.Name? {
      NonInterference(f.value, g.value, path + [policy.lower(f.key.name)], policy, depth, budget);
    }
  }

  lemma {:induction false} FieldsNonInterference(
    fs: seq<Field>, gs: seq<Field>, path: Path, policy: Policy, depth: nat, budget: Option<Budget>)
    requires |fs| == |gs| && forall i | 0 <= i < |fs| :: FieldsAgree(fs[i], gs[i], path, policy)
    ensures RedactFields(fs, path, policy, depth, budget) == RedactFields(gs, path, policy, depth, budget)
    decreases fs, 0
  {
    if fs != [] {
      var n := |fs| - 1;
      FieldsNonInterference(fs[..n], gs[..n], path, policy, depth, budget);
      var init := RedactFields(fs[..n], path, policy, depth, budget);
      if init.Done? { FieldNonInterference(fs[n], gs[n], path, policy, depth, init.budget); }
    }
  }

  lemma {:induction false} ItemsNonInterference(
    vs: seq<Value>, ws: seq<Value>, path: Path, policy: Policy, depth: nat, budget: Option<Budget>)
    requires |vs| == |ws| && forall i | 0 <= i < |vs| :: Agree(vs[i], ws[i], path, policy)
    ensures RedactItems(vs, path, policy, depth, budget) == RedactItems(ws, path, policy, depth, budget)
    decreases vs, 0
  {
    if vs != [] {
      var n := |vs| - 1;
      ItemsNonInterference(vs[..n], ws[..n], path, policy, depth, budget);
      var init := RedactItems(vs[..n], path, policy, depth, budget);
      if init.Done? { NonInterference(vs[n], ws[n], path, policy, depth, init.budget); }
    }
  }
}
