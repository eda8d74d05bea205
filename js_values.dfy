/** The JavaScript values the core handles, and the few language rules it relies on:
    truthiness, strict equality, own-property access, ToNumber, relational comparison,
    `String.prototype.trim` and `for ... of` iteration. */
module JsValues {

  datatype Option<+T> = None | Some(value: T) {
    function GetOr(default: T): T {
      if Some? then value else default
    }
  }

  /** A JavaScript value. Numbers are reals (no NaN, infinities or rounding);
      `Func(ref)` is a function object known only by its reference. */
  datatype Value =
    | Undefined
    | Null
    | Bool(b: bool)
    | Num(n: real)
    | Str(s: string)
    | Arr(elems: seq<Value>)
    | Obj(fields: map<string, Value>)
    | Func(ref: nat)

  /** A plain object, given by its own enumerable properties. */
  type Object = map<string, Value>

  /** The errors a call of the core can throw. */
  datatype Error = TypeError | InvalidKey(key: string) | RuleViolation(key: string)

  /** How a JavaScript call ends: it returns a value, returns `null`, or throws. */
  datatype Completion<+T> = Normal(value: T) | NullReturn | Threw(error: Error)

  predicate IsPrimitive(v: Value) {
    !(v.Arr? || v.Obj? || v.Func?)
  }

  predicate Nullish(v: Value) {
    v.Undefined? || v.Null?
  }

  /** `!!v` */
  predicate Truthy(v: Value) {
    match v
    case Undefined => false
    case Null => false
    case Bool(b) => b
    case Num(n) => n != 0.0
    case Str(s) => s != ""
    case _ => true
  }

  /** `a === b`. Functions compare by reference. Arrays and objects compare by reference too,
      and the model carries no reference for them, so two of them are never equal: right
      where the sides come from separate reads of storage, and an approximation where a
      caller passes the same object twice (the keys of `arrayToMap`). */
  predicate StrictEq(a: Value, b: Value) {
    if a.Func? && b.Func? then a.ref == b.ref else IsPrimitive(a) && a == b
  }

  lemma StrictEqIsEquality(a: Value, b: Value)
    ensures StrictEq(a, b) ==> a == b
    ensures StrictEq(a, b) ==> StrictEq(b, a)
  {
  }

  /** `o[k]` for an own property, `undefined` when absent. */
  function Field(o: Object, k: string): (v: Value)
    ensures k !in o ==> v == Undefined
  {
    if k in o then o[k] else Undefined
  }

  // ----- decimal digits -----

  predicate IsDigit(c: char) {
    '0' <= c <= '9'
  }

  predicate AllDigits(s: string) {
    forall i :: 0 <= i < |s| ==> IsDigit(s[i])
  }

  function DigitChar(d: nat): (c: char)
    requires d < 10
    ensures IsDigit(c)
  {
    (48 + d) as char
  }

  function DigitValue(c: char): nat
    requires IsDigit(c)
  {
    c as int - 48
  }

  /** The decimal numeral of `n`, as `String(n)` writes it. */
  function NatToString(n: nat): (s: string)
    ensures |s| >= 1 && AllDigits(s)
    ensures n < 10 <==> |s| == 1
    ensures |s| > 1 ==> s[0] != '0'
  {
    if n < 10 then [DigitChar(n)] else NatToString(n / 10) + [DigitChar(n % 10)]
  }

  /** The value of a string of decimal digits. */
  function DigitsValue(s: string): nat
    requires AllDigits(s)
  {
    if s == [] then 0 else DigitsValue(s[..|s| - 1]) * 10 + DigitValue(s[|s| - 1])
  }

  lemma {:induction false} DigitsOfNatToString(n: nat)
    ensures DigitsValue(NatToString(n)) == n
  {
    if n >= 10 {
      var s := NatToString(n / 10) + [DigitChar(n % 10)];
      assert s[..|s| - 1] == NatToString(n / 10);
      DigitsOfNatToString(n / 10);
    }
  }

  /** `String(i)` for an integer. */
  function IntToString(i: int): string {
    if i < 0 then "-" + NatToString(-i) else NatToString(i)
  }

  /** The array index a property key names: a canonical decimal numeral. */
  function ArrayIndex(k: string): (r: Option<nat>)
    ensures r.Some? ==> NatToString(r.value) == k
  {
    if |k| >= 1 && AllDigits(k) && (|k| == 1 || k[0] != '0') then
      CanonicalDigits(k);
      Some(DigitsValue(k))
    else None
  }

  lemma {:induction false} CanonicalDigits(k: string)
    requires |k| >= 1 && AllDigits(k) && (|k| == 1 || k[0] != '0')
    ensures NatToString(DigitsValue(k)) == k
    decreases |k|
  {
    var init, last := k[..|k| - 1], k[|k| - 1];
    if |k| == 1 {
      assert DigitsValue(k) == DigitsValue(init) * 10 + DigitValue(last);
    } else {
      assert init[0] == k[0];
      CanonicalDigits(init);
      var d := DigitsValue(init);
      assert NatToString(0) == [DigitChar(0)];
      assert d >= 1;
      assert DigitsValue(k) == d * 10 + DigitValue(last);
      assert DigitsValue(k) / 10 == d && DigitsValue(k) % 10 == DigitValue(last);
      assert k == init + [last];
    }
  }

  /** `v[k]` for a value that is neither `null` nor `undefined`, over own properties:
      an object's fields, and an array's or string's `length` and indices. */
  function GetProp(v: Value, k: string): Value {
    match v
    case Obj(m) => Field(m, k)
    case Arr(vs) =>
      if k == "length" then Num(|vs| as real)
      else (match ArrayIndex(k)
            case Some(i) => if i < |vs| then vs[i] else Undefined
            case None => Undefined)
    case Str(s) =>
      if k == "length" then Num(|s| as real)
      else (match ArrayIndex(k)
            case Some(i) => if i < |s| then Str([s[i]]) else Undefined
            case None => Undefined)
    case _ => Undefined
  }

  // ----- whitespace and trim -----

  /** The characters `String.prototype.trim` removes: WhiteSpace and LineTerminator
      of section 12.2 and 12.3 of ECMA-262. */
  predicate IsJsWhitespace(c: char) {
    c == '\t' || c == '\n' || c == '\U{000B}' || c == '\U{000C}' || c == '\r' || c == ' '
    || c == '\U{00A0}' || c == '\U{1680}' || ('\U{2000}' <= c <= '\U{200A}')
    || c == '\U{2028}' || c == '\U{2029}' || c == '\U{202F}' || c == '\U{205F}'
    || c == '\U{3000}' || c == '\U{FEFF}'
  }

  function TrimStart(s: string): (r: string)
    ensures |r| <= |s| && r == s[|s| - |r|..]
    ensures r != [] ==> !IsJsWhitespace(r[0])
    ensures forall i :: 0 <= i < |s| - |r| ==> IsJsWhitespace(s[i])
  {
    if s != [] && IsJsWhitespace(s[0]) then TrimStart(s[1..]) else s
  }

  function TrimEnd(s: string): (r: string)
    ensures |r| <= |s| && r == s[..|r|]
    ensures r != [] ==> !IsJsWhitespace(r[|r| - 1])
    ensures forall i :: |r| <= i < |s| ==> IsJsWhitespace(s[i])
  {
    if s != [] && IsJsWhitespace(s[|s| - 1]) then TrimEnd(s[..|s| - 1]) else s
  }

  /** `s.trim()` */
  function Trim(s: string): string {
    TrimEnd(TrimStart(s))
  }

  /** `s.trim()` is empty exactly when every character of `s` is whitespace. */
  lemma TrimEmptyIff(s: string)
    ensures Trim(s) == [] <==> forall i :: 0 <= i < |s| ==> IsJsWhitespace(s[i])
  {
    var t := TrimStart(s);
    if t != [] {
      assert !IsJsWhitespace(t[0]);
      assert TrimEnd(t) != [];
      assert s[|s| - |t|] == t[0];
    }
  }

  // ----- ToNumber -----

  /** The index of the first `c` in `s`, or `|s|` when there is none. */
  function IndexOfChar(s: string, c: char): (p: nat)
    ensures p <= |s| && c !in s[..p] && (p < |s| ==> s[p] == c)
  {
    if s == [] then 0 else if s[0] == c then 0 else 1 + IndexOfChar(s[1..], c)
  }

  /** An unsigned decimal literal: digits with an optional fraction (`12`, `1.5`, `.5`, `5.`). */
  function UnsignedDecimal(u: string): Option<real> {
    var p := IndexOfChar(u, '.');
    var ip, fp := u[..p], if p < |u| then u[p + 1..] else [];
    if !AllDigits(ip) || !AllDigits(fp) || (ip == [] && fp == []) then None
    else Some(DigitsValue(ip) as real + DigitsValue(fp) as real / Pow10(|fp|) as real)
  }

  function Pow10(k: nat): (r: nat)
    ensures r >= 1
  {
    if k == 0 then 1 else 10 * Pow10(k - 1)
  }

  /** `Number(s)` for a string: a trimmed decimal literal with an optional sign;
      blank strings give 0 and everything else NaN (`None`). */
  function StringToNumber(s: string): Option<real> {
    var t := Trim(s);
    if t == [] then Some(0.0)
    else if t[0] == '-' then
      (match UnsignedDecimal(t[1..]) case Some(x) => Some(-x) case None => None)
    else if t[0] == '+' then UnsignedDecimal(t[1..])
    else UnsignedDecimal(t)
  }

  /** `Number(v)`, with `None` for NaN. An array converts through its joined string:
      `[]` is 0, `[x]` is `Number(String(x))`, longer arrays contain a comma and are NaN. */
  function ToNumber(v: Value): Option<real> {
    match v
    case Undefined => None
    case Null => Some(0.0)
    case Bool(b) => Some(if b then 1.0 else 0.0)
    case Num(n) => Some(n)
    case Str(s) => StringToNumber(s)
    case Arr(vs) =>
      if |vs| == 0 then Some(0.0)
      else if |vs| == 1 then
        (match vs[0]
         case Undefined => Some(0.0)
         case Null => Some(0.0)
         case Bool(_) => None
         case _ => ToNumber(vs[0]))
      else None
    case Obj(_) => None
    case Func(_) => None
  }

  // ----- relational comparison -----

  /** Lexicographic order of strings. */
  predicate LexLess(s: string, t: string)
    decreases |s|
  {
    if s == [] then t != []
    else if t == [] then false
    else if s[0] == t[0] then LexLess(s[1..], t[1..])
    else s[0] < t[0]
  }

  /** The operands whose primitive value is a string that the model knows. */
  predicate StringLike(v: Value) {
    v.Str? || v.Obj?
  }

  function PrimitiveString(v: Value): string
    requires StringLike(v)
  {
    if v.Str? then v.s else "[object Object]"
  }

  /** IsLessThan(a, b) of ECMA-262: `Some(a < b)`, or `None` when a NaN is involved. */
  function LessThan(a: Value, b: Value): Option<bool> {
    if StringLike(a) && StringLike(b) then Some(LexLess(PrimitiveString(a), PrimitiveString(b)))
    else
      match (ToNumber(a), ToNumber(b))
      case (Some(x), Some(y)) => Some(x < y)
      case _ => None
  }

  /** `a < b` */
  predicate Lt(a: Value, b: Value) {
    LessThan(a, b) == Some(true)
  }

  /** `a > b` */
  predicate Gt(a: Value, b: Value) {
    LessThan(b, a) == Some(true)
  }

  /** `a >= b` */
  predicate Ge(a: Value, b: Value) {
    LessThan(a, b) == Some(false)
  }

  /** `a <= b` */
  predicate Le(a: Value, b: Value) {
    LessThan(b, a) == Some(false)
  }

  /** On two numbers the comparisons are the arithmetic ones. */
  lemma NumericComparisons(x: real, y: real)
    ensures Lt(Num(x), Num(y)) <==> x < y
    ensures Gt(Num(x), Num(y)) <==> x > y
    ensures Ge(Num(x), Num(y)) <==> x >= y
    ensures Le(Num(x), Num(y)) <==> x <= y
  {
  }

  // ----- iteration -----

  /** The values `for (x of v)` visits: an array's elements or a string's characters;
      `None` when `v` is not iterable and the loop throws a TypeError. */
  function Iterate(v: Value): (r: Option<seq<Value>>)
    ensures v.Arr? ==> r == Some(v.elems)
    ensures v.Str? ==> r.Some? && |r.value| == |v.s| && forall i :: 0 <= i < |v.s| ==> r.value[i] == Str([v.s[i]])
    ensures !v.Arr? && !v.Str? ==> r.None?
  {
    match v
    case Arr(vs) => Some(vs)
    case Str(s) => Some(seq(|s|, i requires 0 <= i < |s| => Str([s[i]])))
    case _ => None
  }
}
