/** The input validators: a non-empty string, an integer within a range, and an object
    carrying a list of required keys. */
module Validator {
  import opened JsValues

  // ----- isNonEmptyString -----

  /** `typeof value === 'string' && value.trim().length > 0` */
  predicate IsNonEmptyString(v: Value)
    ensures IsNonEmptyString(v) ==> v.Str? && |v.s| > 0
    ensures v.Str? && v.s != [] && !IsJsWhitespace(v.s[0]) ==> IsNonEmptyString(v)
  {
    v.Str? && |Trim(v.s)| > 0
  }

  /** A value passes exactly when it is a string with a character that is not whitespace. */
  lemma NonEmptyStringIff(v: Value)
    ensures IsNonEmptyString(v) <==> v.Str? && exists i :: 0 <= i < |v.s| && !IsJsWhitespace(v.s[i])
  {
    if v.Str? {
      TrimEmptyIff(v.s);
    }
  }

  // ----- isIntegerInRange -----

  /** `Number.MAX_SAFE_INTEGER`, 2^53 - 1. */
  const MaxSafeInteger: int := 0x1F_FFFF_FFFF_FFFF

  /** `Number.isInteger(v)` */
  predicate IsInteger(v: Value) {
    v.Num? && v.n == v.n.Floor as real
  }

  /** A bound argument: `undefined` takes the default. */
  function Bound(v: Value, default: int): Value {
    if v.Undefined? then Num(default as real) else v
  }

  /** `isIntegerInRange(value, min, max)`, with `min` and `max` defaulting to
      `Number.MIN_SAFE_INTEGER` and `Number.MAX_SAFE_INTEGER`. */
  predicate IsIntegerInRange(value: Value, min: Value, max: Value)
    ensures IsIntegerInRange(value, min, max) ==>
      value.Num? && ToNumber(Bound(min, -MaxSafeInteger)).Some? && ToNumber(Bound(max, MaxSafeInteger)).Some? &&
      ToNumber(Bound(min, -MaxSafeInteger)).value <= value.n <= ToNumber(Bound(max, MaxSafeInteger)).value
  {
    IsInteger(value) && Ge(value, Bound(min, -MaxSafeInteger)) && Le(value, Bound(max, MaxSafeInteger))
  }

  /** With numeric bounds the check is an integer between them, both ends included. */
  lemma IntegerInRangeIff(x: real, lo: real, hi: real)
    ensures IsIntegerInRange(Num(x), Num(lo), Num(hi)) <==> x == x.Floor as real && lo <= x <= hi
  {
  }

  /** Without bounds the check accepts exactly the safe integers. */
  lemma IntegerInDefaultRange(x: real)
    ensures IsIntegerInRange(Num(x), Undefined, Undefined) <==>
              x == x.Floor as real && -MaxSafeInteger as real <= x <= MaxSafeInteger as real
  {
  }

  /** Only numbers pass, and a bound that is NaN, such as a non-numeric string, lets nothing pass. */
  lemma IntegerInRangeNeedsNumbers(value: Value, min: Value, max: Value)
    ensures !value.Num? ==> !IsIntegerInRange(value, min, max)
    ensures !min.Undefined? && ToNumber(min).None? ==> !IsIntegerInRange(value, min, max)
    ensures !max.Undefined? && ToNumber(max).None? ==> !IsIntegerInRange(value, min, max)
  {
  }

  // ----- hasRequiredKeys -----

  /** `v.hasOwnProperty(k)` for an array or an object. */
  predicate HasOwn(v: Value, k: string) {
    match v
    case Obj(m) => k in m
    case Arr(vs) => k == "length" || (ArrayIndex(k).Some? && ArrayIndex(k).value < |vs|)
    case _ => false
  }

  /** `keys.every((key) => obj.hasOwnProperty(key))`: stops at the first missing key. */
  predicate Every(obj: Value, keys: seq<string>) {
    keys == [] || (HasOwn(obj, keys[0]) && Every(obj, keys[1..]))
  }

  /** `hasRequiredKeys(obj, requiredKeys)`: false unless `typeof obj` is `'object'` and `obj`
      is not `null` (arrays are objects), and then whether every key is an own property. */
  predicate HasRequiredKeys(obj: Value, keys: seq<string>)
    ensures HasRequiredKeys(obj, keys) ==> obj.Arr? || obj.Obj?
    ensures (obj.Arr? || obj.Obj?) && keys == [] ==> HasRequiredKeys(obj, keys)
  {
    if !(obj.Arr? || obj.Obj?) then false else Every(obj, keys)
  }

  lemma {:induction false} EveryIff(obj: Value, keys: seq<string>)
    ensures Every(obj, keys) <==> forall i :: 0 <= i < |keys| ==> HasOwn(obj, keys[i])
  {
    if keys != [] {
      EveryIff(obj, keys[1..]);
      assert forall i :: 1 <= i < |keys| ==> keys[i] == keys[1..][i - 1];
    }
  }

  /** The check passes exactly for an object or array owning every required key; an object
      passes an empty list, and a primitive or function never passes. */
  lemma HasRequiredKeysIff(obj: Value, keys: seq<string>)
    ensures HasRequiredKeys(obj, keys) <==>
              (obj.Arr? || obj.Obj?) && forall i :: 0 <= i < |keys| ==> HasOwn(obj, keys[i])
    ensures obj.Obj? ==> HasRequiredKeys(obj, [])
    ensures obj.Obj? ==> (HasRequiredKeys(obj, keys) <==> forall i :: 0 <= i < |keys| ==> keys[i] in obj.fields)
  {
    EveryIff(obj, keys);
  }

  /** Asking for fewer keys never turns a pass into a failure. */
  lemma HasRequiredKeysSubset(obj: Value, keys: seq<string>, fewer: seq<string>)
    requires forall k :: k in fewer ==> k in keys
    requires HasRequiredKeys(obj, keys)
    ensures HasRequiredKeys(obj, fewer)
  {
    HasRequiredKeysIff(obj, keys);
    HasRequiredKeysIff(obj, fewer);
    forall i | 0 <= i < |fewer|
      ensures HasOwn(obj, fewer[i])
    {
      assert fewer[i] in fewer;
      var j :| 0 <= j < |keys| && keys[j] == fewer[i];
    }
  }
}
