/** The design-token flattener (`app/tokens/build-tokens.js`): it walks a
    parsed Figma token export depth-first and writes one CSS custom
    property per token, `  --<path joined by '-'>: <value>;`, with aliases
    turned into `var(--…)` references and numbers given units by name. */
module DesignTokens {
  import opened Text
  import opened Results

  /** A JavaScript value as `JSON.parse` produces it, plus `undefined`, the
      value of a property that is not there. */
  datatype Json =
    | Undefined
    | Null
    | Bool(b: bool)
    | Num(x: real)
    | Str(s: string)
    | Arr(items: seq<Json>)
    | Obj(members: seq<Member>)

  /** One own property of an object, in the order the export lists it. */
  datatype Member = Member(key: string, value: Json)

  predicate Nullish(v: Json) {
    v == Undefined || v == Null
  }

  /** JavaScript truthiness. */
  predicate Truthy(v: Json) {
    match v
    case Undefined => false
    case Null => false
    case Bool(b) => b
    case Num(x) => x != 0.0
    case Str(s) => s != []
    case _ => true
  }

  /** The value of the first member named `key`. */
  function Lookup(ms: seq<Member>, key: string): (r: Json)
    ensures r != Undefined ==> exists k :: 0 <= k < |ms| && ms[k] == Member(key, r)
    ensures (forall k | 0 <= k < |ms| :: ms[k].key != key) ==> r == Undefined
    ensures forall k | 0 <= k < |ms| && ms[k].key == key && (forall j | 0 <= j < k :: ms[j].key != key) :: r == ms[k].value
  {
    if ms == [] then Undefined
    else if ms[0].key == key then ms[0].value
    else Lookup(ms[1..], key)
  }

  /** `v[key]` on a value that is neither `null` nor `undefined`: the keys
      read here are not properties of strings, numbers, booleans or arrays,
      so only an object can supply them. */
  function Get(v: Json, key: string): Json {
    if v.Obj? then Lookup(v.members, key) else Undefined
  }

  /** `v[key]`, which throws a TypeError on `null` and `undefined`. */
  function Prop(v: Json, key: string): (r: Result<Json>)
    ensures r.Throws? <==> Nullish(v)
  {
    if Nullish(v) then Throws(TypeError) else Ok(Get(v, key))
  }

  /** The number formatting and the floating-point parts of the script,
      which the model takes as given: `Number.prototype.toString`, the
      loose comparison `s < 1` for a string `s`, and the `rgba(…)` text the
      colour branch computes from a colour object. */
  datatype Numerics = Numerics(
    show: real -> string,
    stringBelowOne: string -> bool,
    rgba: Json -> Result<string>)

  /** `String(v)`, as a template literal applies it. */
  function ToStr(v: Json, nums: Numerics): string {
    match v
    case Undefined => "undefined"
    case Null => "null"
    case Bool(b) => if b then "true" else "false"
    case Num(x) => nums.show(x)
    case Str(s) => s
    case Arr(items) => ItemsToStr(items, nums)
    case Obj(_) => "[object Object]"
  }

  /** `items.join(',')`, where `null` and `undefined` items give "". */
  function ItemsToStr(items: seq<Json>, nums: Numerics): string
    decreases items
  {
    if items == [] then []
    else
      var first := if Nullish(items[0]) then "" else ToStr(items[0], nums);
      if |items| == 1 then first else first + "," + ItemsToStr(items[1..], nums)
  }

  /** The loose comparison `v < 1` for a value that is not `undefined`. */
  predicate BelowOne(v: Json, nums: Numerics) {
    match v
    case Undefined => false
    case Null => true
    case Bool(b) => !b
    case Num(x) => x < 1.0
    case Str(s) => nums.stringBelowOne(s)
    case Arr(_) => nums.stringBelowOne(ToStr(v, nums))
    case Obj(_) => false
  }

  // ---------------------------------------------------------------------
  // The order of `Object.entries`
  // ---------------------------------------------------------------------

  predicate IsDigit(c: char) { '0' <= c <= '9' }

  /** The number a string of decimal digits spells; `None` when some
      character is not a digit. */
  function DecimalValue(s: string): Option<nat>
    decreases |s|
  {
    if s == [] then Some(0)
    else
      var last := s[|s| - 1];
      if !IsDigit(last) then None
      else match DecimalValue(s[..|s| - 1])
        case None => None
        case Some(n) => Some(10 * n + (last as int - '0' as int))
  }

  /** The array index a key denotes: the canonical decimal form (no
      leading zero) of a number below 2^32 - 1. */
  function IndexOf(key: string): Option<nat> {
    if key == [] || (key[0] == '0' && |key| > 1) then None
    else match DecimalValue(key)
      case Some(n) => if n < 0xFFFF_FFFF then Some(n) else None
      case None => None
  }

  function IndexMembers(ms: seq<Member>): (r: seq<Member>)
    ensures forall k :: 0 <= k < |r| ==> IndexOf(r[k].key).Some?
  {
    if ms == [] then []
    else (if IndexOf(ms[0].key).Some? then [ms[0]] else []) + IndexMembers(ms[1..])
  }

  function NamedMembers(ms: seq<Member>): (r: seq<Member>)
    ensures forall k :: 0 <= k < |r| ==> IndexOf(r[k].key).None?
  {
    if ms == [] then []
    else (if IndexOf(ms[0].key).None? then [ms[0]] else []) + NamedMembers(ms[1..])
  }

  /** The index a member's key denotes (0 for other keys). */
  function IndexValue(m: Member): nat {
    match IndexOf(m.key)
    case Some(n) => n
    case None => 0
  }

  predicate IndexSorted(ms: seq<Member>) {
    forall i, j :: 0 <= i < j < |ms| ==> IndexValue(ms[i]) <= IndexValue(ms[j])
  }

  lemma ConsSorted(x: Member, rest: seq<Member>)
    requires IndexSorted(rest)
    requires rest == [] || IndexValue(x) <= IndexValue(rest[0])
    ensures IndexSorted([x] + rest)
  {
    var r := [x] + rest;
    forall i, j | 0 <= i < j < |r| ensures IndexValue(r[i]) <= IndexValue(r[j]) {
      assert r[j] == rest[j - 1];
      if i > 0 {
        assert r[i] == rest[i - 1];
      } else if j > 1 {
        assert IndexValue(rest[0]) <= IndexValue(rest[j - 1]);
      }
    }
  }

  lemma SortedTail(ms: seq<Member>)
    requires ms != [] && IndexSorted(ms)
    ensures IndexSorted(ms[1..])
    ensures |ms| > 1 ==> IndexValue(ms[0]) <= IndexValue(ms[1])
  {
    var t := ms[1..];
    forall i, j | 0 <= i < j < |t| ensures IndexValue(t[i]) <= IndexValue(t[j]) {
      assert t[i] == ms[i + 1] && t[j] == ms[j + 1];
    }
  }

  /** Inserts `m` before the first member with a larger index. */
  function Insert(m: Member, ms: seq<Member>): seq<Member> {
    if ms == [] || IndexValue(m) <= IndexValue(ms[0]) then [m] + ms
    else [ms[0]] + Insert(m, ms[1..])
  }

  /** Insertion sort by index. */
  function SortByIndex(ms: seq<Member>): seq<Member> {
    if ms == [] then [] else Insert(ms[0], SortByIndex(ms[1..]))
  }

  lemma {:induction false} InsertSorted(m: Member, ms: seq<Member>)
    requires IndexSorted(ms)
    ensures var r := Insert(m, ms); |r| == |ms| + 1 && (r[0] == m || (ms != [] && r[0] == ms[0]))
    ensures IndexSorted(Insert(m, ms))
    decreases |ms|
  {
    if ms == [] || IndexValue(m) <= IndexValue(ms[0]) {
      ConsSorted(m, ms);
    } else {
      SortedTail(ms);
      InsertSorted(m, ms[1..]);
      ConsSorted(ms[0], Insert(m, ms[1..]));
    }
  }

  lemma {:induction false} InsertPermutes(m: Member, ms: seq<Member>)
    ensures multiset(Insert(m, ms)) == multiset(ms) + multiset{m}
    decreases |ms|
  {
    if ms != [] && IndexValue(m) > IndexValue(ms[0]) {
      InsertPermutes(m, ms[1..]);
      assert ms == [ms[0]] + ms[1..];
    }
  }

  /** The sort orders by index and keeps every member. */
  lemma {:induction false} SortByIndexSpec(ms: seq<Member>)
    ensures IndexSorted(SortByIndex(ms))
    ensures multiset(SortByIndex(ms)) == multiset(ms)
    decreases |ms|
  {
    if ms != [] {
      SortByIndexSpec(ms[1..]);
      InsertSorted(ms[0], SortByIndex(ms[1..]));
      InsertPermutes(ms[0], SortByIndex(ms[1..]));
      assert ms == [ms[0]] + ms[1..];
    }
  }

  lemma {:induction false} PartitionMembers(ms: seq<Member>)
    ensures multiset(IndexMembers(ms)) + multiset(NamedMembers(ms)) == multiset(ms)
  {
    if ms != [] {
      PartitionMembers(ms[1..]);
      assert ms == [ms[0]] + ms[1..];
    }
  }

  /** `Object.entries(obj)`: the members whose keys are array indices in
      ascending numeric order, then the others in the order they were
      written. */
  function Entries(ms: seq<Member>): seq<Member> {
    SortByIndex(IndexMembers(ms)) + NamedMembers(ms)
  }

  /** `Object.entries` lists every member exactly once. */
  lemma EntriesPermutes(ms: seq<Member>)
    ensures multiset(Entries(ms)) == multiset(ms)
  {
    PartitionMembers(ms);
    SortByIndexSpec(IndexMembers(ms));
  }

  /** Index-keyed entries come first, in ascending order of their index. */
  lemma EntriesOrder(ms: seq<Member>)
    ensures var r := Entries(ms);
      forall i, j :: 0 <= i < j < |r| && IndexOf(r[j].key).Some? ==>
        IndexOf(r[i].key).Some? && IndexValue(r[i]) <= IndexValue(r[j])
  {
    var indexed, named := SortByIndex(IndexMembers(ms)), NamedMembers(ms);
    SortByIndexSpec(IndexMembers(ms));
    forall k | 0 <= k < |indexed| ensures IndexOf(indexed[k].key).Some? {
      assert indexed[k] in multiset(IndexMembers(ms));
      var k' :| 0 <= k' < |IndexMembers(ms)| && IndexMembers(ms)[k'] == indexed[k];
    }
    var r := indexed + named;
    forall i, j | 0 <= i < j < |r| && IndexOf(r[j].key).Some?
      ensures IndexOf(r[i].key).Some? && IndexValue(r[i]) <= IndexValue(r[j])
    {
    }
  }

  /** Without index-like keys, the entries are the members as written. */
  lemma {:induction false} EntriesInWrittenOrder(ms: seq<Member>)
    requires forall k :: 0 <= k < |ms| ==> IndexOf(ms[k].key).None?
    ensures Entries(ms) == ms
  {
    NoIndexMembers(ms);
  }

  lemma {:induction false} NoIndexMembers(ms: seq<Member>)
    requires forall k :: 0 <= k < |ms| ==> IndexOf(ms[k].key).None?
    ensures IndexMembers(ms) == [] && NamedMembers(ms) == ms
  {
    if ms != [] {
      NoIndexMembers(ms[1..]);
      assert ms == [ms[0]] + ms[1..];
    }
  }

  // ---------------------------------------------------------------------
  // Nesting depth, the measure of the walk
  // ---------------------------------------------------------------------

  /** How deeply objects nest in `v`; the walk never enters arrays. */
  function Depth(v: Json): nat {
    match v
    case Obj(ms) => 1 + MaxDepth(ms)
    case _ => 0
  }

  function MaxDepth(ms: seq<Member>): nat {
    if ms == [] then 0
    else
      var d, rest := Depth(ms[0].value), MaxDepth(ms[1..]);
      if d < rest then rest else d
  }

  /** No member nests more deeply than the deepest. */
  lemma {:induction false} MaxDepthBounds(ms: seq<Member>)
    ensures forall k :: 0 <= k < |ms| ==> Depth(ms[k].value) <= MaxDepth(ms)
  {
    if ms != [] {
      MaxDepthBounds(ms[1..]);
      assert forall k :: 1 <= k < |ms| ==> ms[k] == ms[1..][k - 1];
    }
  }

  /** Every member of `es` nests less deeply than `d`. */
  predicate Shallower(es: seq<Member>, d: nat) {
    forall k :: 0 <= k < |es| ==> Depth(es[k].value) < d
  }

  /** Every entry of an object is shallower than the object. */
  lemma EntriesShallower(ms: seq<Member>)
    ensures Shallower(Entries(ms), Depth(Obj(ms)))
  {
    var es := Entries(ms);
    EntriesPermutes(ms);
    MaxDepthBounds(ms);
    forall k | 0 <= k < |es| ensures Depth(es[k].value) < Depth(Obj(ms)) {
      assert es[k] in multiset(es);
      assert es[k] in ms;
    }
  }

  // ---------------------------------------------------------------------
  // extractValue
  // ---------------------------------------------------------------------

  /** `var(--name)` with every `/` of the Figma variable name turned into `-`. */
  function VarRef(name: string): (r: string)
    ensures '/' !in r
  {
    var dashed := ReplaceAll(name, '/', '-');
    assert forall i :: 0 <= i < |dashed| ==> dashed[i] != '/';
    "var(--" + dashed + ")"
  }

  /** The alias target a token names, when `$extensions`, its
      `com.figma.aliasData` and that record's `targetVariableName` are all
      truthy; `None` lets the token's own value through. */
  function AliasTarget(token: Json): Option<Json> {
    var ext := Get(token, "$extensions");
    if !Truthy(ext) then None
    else
      var alias := Get(ext, "com.figma.aliasData");
      if !Truthy(alias) then None
      else
        var target := Get(alias, "targetVariableName");
        if Truthy(target) then Some(target) else None
  }

  /** `extractValue(token)`: the value written for a token, a computed
      string or the token's `$value` as it is; `Throws(TypeError)` where the
      script reads a property of `null` or calls a string method on a value
      that is not a string. */
  function ExtractValue(token: Json, nums: Numerics): (r: Result<Json>)
    // an alias wins over every type branch
    ensures AliasTarget(token).Some? && AliasTarget(token).value.Str? && !Nullish(token) ==>
      r == Ok(Str(VarRef(AliasTarget(token).value.s)))
    ensures AliasTarget(token).Some? && !AliasTarget(token).value.Str? ==> r == Throws(TypeError)
    // a colour with a hex string and no alpha below one is the upper-cased hex
    ensures AliasTarget(token).None? && Get(token, "$type") == Str("color") && !Nullish(token)
      && Get(token, "$value").Obj? && Get(Get(token, "$value"), "hex").Str? && Truthy(Get(Get(token, "$value"), "hex"))
      && (var alpha := Get(Get(token, "$value"), "alpha"); alpha == Undefined || !BelowOne(alpha, nums))
      ==> r == Ok(Str(ToUpper(Get(Get(token, "$value"), "hex").s)))
    // a dimension object with a value is that value followed by its unit, `px` by default
    ensures AliasTarget(token).None? && Get(token, "$type") == Str("dimension") && !Nullish(token)
      && Get(token, "$value").Obj? && Get(Get(token, "$value"), "value") != Undefined
      ==> (var v := Get(token, "$value"); var unit := Get(v, "unit");
           r == Ok(Str(ToStr(Get(v, "value"), nums) + (if Truthy(unit) then ToStr(unit, nums) else "px"))))
    // numbers and unknown types give `$value` unchanged
    ensures AliasTarget(token).None? && !Nullish(token)
      && Get(token, "$type") != Str("color") && Get(token, "$type") != Str("dimension")
      ==> r == Ok(Get(token, "$value"))
    ensures Nullish(token) ==> r == Throws(TypeError)
  {
    if Nullish(token) then Throws(TypeError)
    else
      var kind, value := Get(token, "$type"), Get(token, "$value");
      match AliasTarget(token)
      case Some(target) =>
        if target.Str? then Ok(Str(VarRef(target.s))) else Throws(TypeError)
      case None =>
        if kind == Str("color") then
          if value == Null then Throws(TypeError)
          else if (value.Obj? || value.Arr?) && Truthy(Get(value, "hex")) then
            var hex := Get(value, "hex");
            if !hex.Str? then Throws(TypeError)
            else
              var upper := ToUpper(hex.s);
              var alpha := Get(value, "alpha");
              if alpha != Undefined && BelowOne(alpha, nums) then
                match nums.rgba(value)
                case Ok(text) => Ok(Str(text))
                case Throws(e) => Throws(e)
              else Ok(Str(upper))
          else Ok(value)
        else if kind == Str("number") then Ok(value)
        else if kind == Str("dimension") then
          if value == Null then Throws(TypeError)
          else if (value.Obj? || value.Arr?) && Get(value, "value") != Undefined then
            var unit := Get(value, "unit");
            Ok(Str(ToStr(Get(value, "value"), nums) + (if Truthy(unit) then ToStr(unit, nums) else "px")))
          else Ok(value)
        else Ok(value)
  }

  // ---------------------------------------------------------------------
  // pxToRem and the unit suffixes
  // ---------------------------------------------------------------------

  /** `Math.round(y)`: the nearest integer, halves rounded up. */
  function Round(y: real): (n: int)
    ensures y - 0.5 < n as real <= y + 0.5
  {
    (y + 0.5).Floor
  }

  /** `pxToRem(px, 16)`: pixels over 16, rounded to three decimals. */
  function PxToRem(px: real): real {
    Round(px / 16.0 * 1000.0) as real / 1000.0
  }

  /** The rounding moves the value by at most half a thousandth of a rem. */
  lemma PxToRemClose(px: real)
    ensures -0.0005 < PxToRem(px) - px / 16.0 <= 0.0005
  {
    var y := px / 16.0 * 1000.0;
    var n := Round(y);
    assert PxToRem(px) - px / 16.0 == (n as real - y) / 1000.0;
  }

  /** Whole thousandths of a rem come out exactly; `16px` is `1rem`. */
  lemma PxToRemExact(n: int)
    ensures PxToRem(16.0 * n as real / 1000.0) == n as real / 1000.0
  {
    var r := n as real;
    var px := 16.0 * r / 1000.0;
    assert px / 16.0 == r / 1000.0;
    assert r / 1000.0 * 1000.0 == r;
    assert Round(r) == n;
  }

  /** The name fragments that make a number a pixel length (the source
      tests `radius` twice). */
  predicate PixelName(name: string) {
    Contains(name, "radius") || Contains(name, "max-width")
    || Contains(name, "spacing") || Contains(name, "border-width")
  }

  predicate SizeName(name: string) {
    Contains(name, "size")
  }

  const NaNText := "NaN"

  /** The unit step as the script performs it: the `px` suffix, and then,
      independently, the `rem` conversion, which on the `"<n>px"` string the
      first step made computes `NaN`. */
  function UnitizeAsWritten(name: string, v: Json, nums: Numerics): (r: Json)
    ensures !v.Num? ==> r == v
    ensures v.Num? && PixelName(name) && !SizeName(name) ==> r == Str(nums.show(v.x) + "px")
    ensures v.Num? && !PixelName(name) && SizeName(name) ==> r == Str(nums.show(PxToRem(v.x)) + "rem")
    ensures v.Num? && PixelName(name) && SizeName(name) ==> r == Str(NaNText + "rem")
    ensures v.Num? && !PixelName(name) && !SizeName(name) ==> r == v
  {
    if !v.Num? then v
    else
      var withPx := if PixelName(name) then Str(nums.show(v.x) + "px") else v;
      if SizeName(name) then
        if withPx.Str? then Str(NaNText + "rem") else Str(nums.show(PxToRem(v.x)) + "rem")
      else withPx
  }

  /** The unit step as evidently intended: a pixel-length name gives `px`,
      otherwise a size name gives `rem`, and any other number stays
      unitless; strings, such as `var(…)` aliases, never get a unit. */
  function Unitize(name: string, v: Json, nums: Numerics): (r: Json)
    ensures !v.Num? ==> r == v
    ensures v.Num? && PixelName(name) ==> r == Str(nums.show(v.x) + "px")
    ensures v.Num? && !PixelName(name) && SizeName(name) ==> r == Str(nums.show(PxToRem(v.x)) + "rem")
    ensures v.Num? && !PixelName(name) && !SizeName(name) ==> r == v
  {
    if !v.Num? then v
    else if PixelName(name) then Str(nums.show(v.x) + "px")
    else if SizeName(name) then Str(nums.show(PxToRem(v.x)) + "rem")
    else v
  }

  /** A numeric spacing token whose name also holds `size` is written as
      `NaNrem` by the script. */
  lemma NaNremCounterexample(nums: Numerics)
    ensures UnitizeAsWritten("spacing-size-4", Num(16.0), nums) == Str("NaNrem")
  {
    ContainsAt("spacing-size-4", "spacing", 0);
    ContainsAt("spacing-size-4", "size", 8);
  }

  /** The intended step always writes the number itself: bare, in `px`, or
      converted to `rem`. */
  lemma UnitizeKeepsNumber(name: string, x: real, nums: Numerics)
    ensures var r := Unitize(name, Num(x), nums);
      r == Num(x) || r == Str(nums.show(x) + "px") || r == Str(nums.show(PxToRem(x)) + "rem")
  {
  }

  /** The script and the intended step differ only on numeric tokens whose
      name has both a pixel-length fragment and `size`. */
  lemma AsWrittenAgreesOffOverlap(name: string, v: Json, nums: Numerics)
    ensures UnitizeAsWritten(name, v, nums) == Unitize(name, v, nums)
      <==> !(v.Num? && PixelName(name) && SizeName(name))
  {
    if v.Num? && PixelName(name) && SizeName(name) {
      var px := nums.show(v.x) + "px";
      assert px[|px| - 1] == 'x';
      assert (NaNText + "rem")[5] == 'm';
    }
  }

  // ---------------------------------------------------------------------
  // processTokens and tokensToCss
  // ---------------------------------------------------------------------

  /** The text a walk appends before it ends, and the exception that ended
      it early, if any. */
  datatype Emission = Emission(text: string, error: Option<Exception>)

  const Nothing := Emission([], None)

  /** One walk followed by another; an exception stops the second. */
  function Then(a: Emission, b: Emission): Emission {
    if a.error.Some? then a else Emission(a.text + b.text, b.error)
  }

  /** `  --<name>: <value>;` and a newline. */
  function Line(name: string, v: Json, nums: Numerics): string {
    "  --" + name + ": " + ToStr(v, nums) + ";\n"
  }

  /** The line of a token found at `here`, or the exception that
      `extractValue` throws. */
  function TokenLine(token: Json, here: seq<string>, nums: Numerics): Emission {
    var name := Join(here, '-');
    match ExtractValue(token, nums)
    case Throws(e) => Emission([], Some(e))
    case Ok(v) => Emission(Line(name, UnitizeAsWritten(name, v, nums), nums), None)
  }

  /** The walk over a list of entries under `path`. */
  function EmitList(es: seq<Member>, path: seq<string>, d: nat, nums: Numerics): Emission
    decreases d, |es|, 1
  {
    if es == [] then Nothing
    else Then(EmitMember(es[0], path, d, nums), EmitList(es[1..], path, d, nums))
  }

  /** One iteration of the loop of `processTokens`: a `$` key is skipped; a
      value with a defined `$value` is a token and gives one line; another
      object is walked under the longer path; anything else is skipped. The
      bound `d` exceeds the depth of every object the walk reaches (see
      `EntriesShallower`), so the depth test only makes termination
      evident. */
  function EmitMember(m: Member, path: seq<string>, d: nat, nums: Numerics): Emission
    decreases d, 0, 0
  {
    if StartsWith(m.key, "$") then Nothing
    else
      var here := path + [m.key];
      match Prop(m.value, "$value")
      case Throws(e) => Emission([], Some(e))
      case Ok(tokenValue) =>
        if tokenValue != Undefined then TokenLine(m.value, here, nums)
        else if m.value.Obj? && Depth(m.value) < d then
          EmitList(Entries(m.value.members), here, Depth(m.value), nums)
        else Nothing
  }

  /** `processTokens(obj, path)` on an object with members `ms`. */
  function EmitObject(ms: seq<Member>, path: seq<string>, nums: Numerics): Emission {
    EmitList(Entries(ms), path, Depth(Obj(ms)), nums)
  }

  /** `tokensToCss(tokens)`: the CSS text, or the exception the walk
      throws. */
  function TokensCss(tokens: seq<Member>, nums: Numerics): Result<string> {
    var em := EmitObject(tokens, [], nums);
    if em.error.Some? then Throws(em.error.value) else Ok(em.text)
  }

  lemma AppendAssoc(a: string, b: string, c: string)
    ensures (a + b) + c == a + (b + c)
  {
  }

  lemma ThenAssoc(x: Emission, y: Emission, z: Emission)
    ensures Then(x, Then(y, z)) == Then(Then(x, y), z)
  {
    if x.error.None? && y.error.None? {
      assert x.text + (y.text + z.text) == (x.text + y.text) + z.text;
    }
  }

  lemma {:induction false} EmitListAppend(a: seq<Member>, b: seq<Member>, path: seq<string>, d: nat, nums: Numerics)
    ensures EmitList(a + b, path, d, nums) == Then(EmitList(a, path, d, nums), EmitList(b, path, d, nums))
    decreases |a|
  {
    if a == [] {
      assert a + b == b;
      var y := EmitList(b, path, d, nums);
      assert Then(Nothing, y) == y;
    } else {
      var ab := a + b;
      assert ab[0] == a[0] && ab[1..] == a[1..] + b;
      EmitListAppend(a[1..], b, path, d, nums);
      var x := EmitMember(a[0], path, d, nums);
      ThenAssoc(x, EmitList(a[1..], path, d, nums), EmitList(b, path, d, nums));
    }
  }

  /** The walk over the first `i + 1` entries: the first `i`, then entry `i`. */
  lemma EmitListSnoc(es: seq<Member>, i: nat, path: seq<string>, d: nat, nums: Numerics)
    requires i < |es|
    ensures EmitList(es[..i + 1], path, d, nums) == Then(EmitList(es[..i], path, d, nums), EmitMember(es[i], path, d, nums))
  {
    assert es[..i + 1] == es[..i] + [es[i]];
    EmitListAppend(es[..i], [es[i]], path, d, nums);
    var one := EmitMember(es[i], path, d, nums);
    assert EmitList([es[i]], path, d, nums) == Then(one, Nothing);
    assert one.text + [] == one.text;
  }

  /** The walk over all entries: those before `i`, entry `i`, the rest. */
  lemma EmitListAt(es: seq<Member>, i: nat, path: seq<string>, d: nat, nums: Numerics)
    requires i < |es|
    ensures EmitList(es, path, d, nums)
      == Then(EmitList(es[..i], path, d, nums), Then(EmitMember(es[i], path, d, nums), EmitList(es[i + 1..], path, d, nums)))
  {
    assert es == es[..i] + es[i..];
    EmitListAppend(es[..i], es[i..], path, d, nums);
    assert es[i..][0] == es[i] && es[i..][1..] == es[i + 1..];
  }

  /** One more entry of the loop: when the entries before `i` emit without
      an exception, entry `i` either extends the text or ends the walk with
      its exception. */
  lemma EmitListProgress(es: seq<Member>, i: nat, path: seq<string>, d: nat, nums: Numerics)
    requires i < |es|
    requires EmitList(es[..i], path, d, nums).error.None?
    ensures var prefix, step := EmitList(es[..i], path, d, nums), EmitMember(es[i], path, d, nums);
      && (step.error.None? ==> EmitList(es[..i + 1], path, d, nums) == Emission(prefix.text + step.text, None))
      && (step.error.Some? ==> EmitList(es, path, d, nums) == Emission(prefix.text + step.text, step.error))
  {
    EmitListSnoc(es, i, path, d, nums);
    EmitListAt(es, i, path, d, nums);
  }

  // ---------------------------------------------------------------------
  // Which nodes are tokens
  // ---------------------------------------------------------------------

  /** A token the walk finds: its key path and its node. */
  datatype Token = Token(path: seq<string>, node: Json)

  /** The tokens under a list of entries, depth-first in entry order: a
      node with a defined `$value` is a token and is not looked into; other
      objects are looked into; `$` keys, arrays and other values are not. */
  function TokenList(es: seq<Member>, path: seq<string>, d: nat): seq<Token>
    decreases d, |es|, 1
  {
    if es == [] then [] else TokensOf(es[0], path, d) + TokenList(es[1..], path, d)
  }

  function TokensOf(m: Member, path: seq<string>, d: nat): seq<Token>
    decreases d, 0, 0
  {
    if StartsWith(m.key, "$") || Nullish(m.value) then []
    else
      var here := path + [m.key];
      if Get(m.value, "$value") != Undefined then [Token(here, m.value)]
      else if m.value.Obj? && Depth(m.value) < d then
        TokenList(Entries(m.value.members), here, Depth(m.value))
      else []
  }

  /** The lines of a list of tokens. */
  function Render(ts: seq<Token>, nums: Numerics): string {
    if ts == [] then [] else TokenLine(ts[0].node, ts[0].path, nums).text + Render(ts[1..], nums)
  }

  lemma {:induction false} RenderAppend(a: seq<Token>, b: seq<Token>, nums: Numerics)
    ensures Render(a + b, nums) == Render(a, nums) + Render(b, nums)
    decreases |a|
  {
    if a == [] {
      assert a + b == b;
    } else {
      assert (a + b)[0] == a[0] && (a + b)[1..] == a[1..] + b;
      RenderAppend(a[1..], b, nums);
      AppendAssoc(TokenLine(a[0].node, a[0].path, nums).text, Render(a[1..], nums), Render(b, nums));
    }
  }

  /** A walk that throws nothing writes exactly one line per token, in the
      order of `TokenList`. */
  lemma {:induction false} EmitListIsRender(es: seq<Member>, path: seq<string>, d: nat, nums: Numerics)
    ensures var em := EmitList(es, path, d, nums);
      em.error.None? ==> em.text == Render(TokenList(es, path, d), nums)
    decreases d, |es|, 1
  {
    if es != [] {
      EmitMemberIsRender(es[0], path, d, nums);
      EmitListIsRender(es[1..], path, d, nums);
      RenderAppend(TokensOf(es[0], path, d), TokenList(es[1..], path, d), nums);
    }
  }

  lemma {:induction false} EmitMemberIsRender(m: Member, path: seq<string>, d: nat, nums: Numerics)
    ensures var em := EmitMember(m, path, d, nums);
      em.error.None? ==> em.text == Render(TokensOf(m, path, d), nums)
    decreases d, 0, 0
  {
    if !StartsWith(m.key, "$") && !Nullish(m.value) {
      var here := path + [m.key];
      if Get(m.value, "$value") != Undefined {
        var line := TokenLine(m.value, here, nums);
        assert Render([Token(here, m.value)], nums) == line.text + [];
        assert line.text + [] == line.text;
      } else if m.value.Obj? && Depth(m.value) < d {
        EmitListIsRender(Entries(m.value.members), here, Depth(m.value), nums);
      }
    }
  }

  /** A token found under `path` has a path that extends `path` by keys
      that do not start with `$`, and a defined `$value`. */
  predicate TokenUnder(t: Token, path: seq<string>) {
    && |t.path| > |path| && t.path[..|path|] == path
    && (forall k :: |path| <= k < |t.path| ==> !StartsWith(t.path[k], "$"))
    && Get(t.node, "$value") != Undefined
  }

  lemma DeeperTokenUnder(t: Token, path: seq<string>, key: string)
    requires !StartsWith(key, "$") && TokenUnder(t, path + [key])
    ensures TokenUnder(t, path)
  {
    var here := path + [key];
    assert t.path[..|path|] == t.path[..|here|][..|path|];
    assert t.path[|path|] == t.path[..|here|][|path|] == key;
  }

  /** `$` keys are never written and never walked into; every line names a
      node that has a `$value`. */
  lemma {:induction false} TokenListUnder(es: seq<Member>, path: seq<string>, d: nat)
    ensures forall t :: t in TokenList(es, path, d) ==> TokenUnder(t, path)
    decreases d, |es|, 1
  {
    if es != [] {
      TokensOfUnder(es[0], path, d);
      TokenListUnder(es[1..], path, d);
    }
  }

  lemma {:induction false} TokensOfUnder(m: Member, path: seq<string>, d: nat)
    ensures forall t :: t in TokensOf(m, path, d) ==> TokenUnder(t, path)
    decreases d, 0, 0
  {
    if !StartsWith(m.key, "$") && !Nullish(m.value) {
      var here := path + [m.key];
      if Get(m.value, "$value") == Undefined && m.value.Obj? && Depth(m.value) < d {
        TokenListUnder(Entries(m.value.members), here, Depth(m.value));
        forall t | t in TokensOf(m, path, d) ensures TokenUnder(t, path) {
          DeeperTokenUnder(t, path, m.key);
        }
      }
    }
  }

  /** `tokensToCss` writes, for an export it does not throw on, the line of
      each token in depth-first order, and every line names a path of keys
      without `$`. */
  lemma TokensCssLines(tokens: seq<Member>, nums: Numerics)
    requires TokensCss(tokens, nums).Ok?
    ensures var ts := TokenList(Entries(tokens), [], Depth(Obj(tokens)));
      && TokensCss(tokens, nums).value == Render(ts, nums)
      && forall t :: t in ts ==> TokenUnder(t, [])
  {
    EmitListIsRender(Entries(tokens), [], Depth(Obj(tokens)), nums);
    TokenListUnder(Entries(tokens), [], Depth(Obj(tokens)));
  }

  /** The walker: `css` is the accumulator `tokensToCss` keeps in scope of
      `processTokens`. */
  class TokenWriter {
    var css: string

    constructor ()
      ensures css == []
    {
      css := [];
    }

    /** `processTokens(obj, path)`: appends to `css` what the walk emits and
        returns the exception it stops at, if any. */
    method ProcessTokens(ms: seq<Member>, path: seq<string>, nums: Numerics) returns (error: Option<Exception>)
      modifies this
      ensures css == old(css) + EmitObject(ms, path, nums).text
      ensures error == EmitObject(ms, path, nums).error
      decreases Depth(Obj(ms)), 2
    {
      EntriesShallower(ms);
      var entries := Entries(ms);
      error := ProcessEntries(entries, path, Depth(Obj(ms)), nums);
    }

    /** The loop of `processTokens` over `Object.entries(obj)`; every entry
        nests less deeply than `d`. */
    method ProcessEntries(entries: seq<Member>, path: seq<string>, ghost d: nat, nums: Numerics)
      returns (error: Option<Exception>)
      requires Shallower(entries, d)
      modifies this
      ensures css == old(css) + EmitList(entries, path, d, nums).text
      ensures error == EmitList(entries, path, d, nums).error
      decreases d, 1
    {
      ghost var start := css;
      error := None;
      var i := 0;
      while i < |entries|
        invariant 0 <= i <= |entries|
        invariant error.None?
        invariant css == start + EmitList(entries[..i], path, d, nums).text
        invariant EmitList(entries[..i], path, d, nums).error == None
      {
        ghost var prefix := EmitList(entries[..i], path, d, nums);
        EmitListProgress(entries, i, path, d, nums);
        error := ProcessEntry(entries[i], path, d, nums);
        ghost var step := EmitMember(entries[i], path, d, nums);
        AppendAssoc(start, prefix.text, step.text);
        if error.Some? {
          return;
        }
        i := i + 1;
      }
      assert entries[..i] == entries;
    }

    /** The body of the loop of `processTokens` for one entry. */
    method ProcessEntry(entry: Member, path: seq<string>, ghost d: nat, nums: Numerics) returns (error: Option<Exception>)
      requires Depth(entry.value) < d
      modifies this
      ensures css == old(css) + EmitMember(entry, path, d, nums).text
      ensures error == EmitMember(entry, path, d, nums).error
      decreases d, 0
    {
      error := None;
      if StartsWith(entry.key, "$") {
        assert [] + [] == "";
        return;
      }
      var here := path + [entry.key];
      var tokenValue := Prop(entry.value, "$value");
      if tokenValue.Throws? {
        error := Some(tokenValue.error);
        return;
      }
      if tokenValue.value != Undefined {
        var name := Join(here, '-');
        var extracted := ExtractValue(entry.value, nums);
        if extracted.Throws? {
          error := Some(extracted.error);
          return;
        }
        var cssValue := extracted.value;
        if cssValue.Num? {
          var x := cssValue.x;
          if PixelName(name) {
            cssValue := Str(nums.show(x) + "px");
          }
          if SizeName(name) {
            // `pxToRem` of the string the first step may have made is `NaN`
            cssValue := if cssValue.Str? then Str(NaNText + "rem") else Str(nums.show(PxToRem(x)) + "rem");
          }
        }
        css := css + Line(name, cssValue, nums);
      } else if entry.value.Obj? {
        error := ProcessTokens(entry.value.members, here, nums);
      }
    }
  }

  /** `tokensToCss(tokens)`. */
  method TokensToCss(tokens: seq<Member>, nums: Numerics) returns (r: Result<string>)
    ensures r == TokensCss(tokens, nums)
  {
    var writer := new TokenWriter();
    var error := writer.ProcessTokens(tokens, [], nums);
    assert writer.css == EmitObject(tokens, [], nums).text;
    if error.Some? {
      r := Throws(error.value);
    } else {
      r := Ok(writer.css);
    }
  }
}
