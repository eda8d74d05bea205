/** The general-purpose helpers: capitalising a string, formatting a date and a timestamp,
    indexing an array of records by one of their properties, and escaping a string for
    use inside a regular expression. */
module Helper {
  import opened JsValues

  // ----- capitalizeFirstLetter -----

  /** `c.toUpperCase()` for one character, with the full mappings of the Latin-1 range:
      `ß` becomes `SS`, `µ` the Greek capital mu and `ÿ` the capital Y with diaeresis.
      Characters beyond Latin-1 are left as they are. */
  function UpperCase(c: char): (u: string)
    ensures |u| == 1 || (c == '\U{00DF}' && u == "SS")
  {
    if 'a' <= c <= 'z' then [(c as int - 32) as char]
    else if c == '\U{00B5}' then ['\U{039C}']
    else if c == '\U{00DF}' then "SS"
    else if ('\U{00E0}' <= c <= '\U{00FE}') && c != '\U{00F7}' then [(c as int - 32) as char]
    else if c == '\U{00FF}' then ['\U{0178}']
    else [c]
  }

  /** The characters `UpperCase` changes. */
  predicate IsLowerCase(c: char) {
    ('a' <= c <= 'z') || c == '\U{00B5}' || c == '\U{00DF}' || c == '\U{00FF}'
    || (('\U{00E0}' <= c <= '\U{00FE}') && c != '\U{00F7}')
  }

  /** `capitalizeFirstLetter(str)`: the empty string for a non-string, and otherwise the
      string with its first character upper-cased. */
  function CapitalizeFirstLetter(v: Value): (r: string)
    ensures !v.Str? ==> r == ""
    ensures v.Str? && v.s == [] ==> r == []
  {
    if !v.Str? then ""
    else if v.s == [] then ""
    else UpperCase(v.s[0]) + v.s[1..]
  }

  /** Only the first character changes, and then only when it is a lower-case letter; the
      length grows only for a leading `ß`. */
  lemma CapitalizeShape(s: string)
    requires s != []
    ensures var r := CapitalizeFirstLetter(Str(s));
            |r| == (if s[0] == '\U{00DF}' then |s| + 1 else |s|) &&
            r[|r| - (|s| - 1)..] == s[1..] &&
            (r[0] == s[0] && |r| == |s| <==> !IsLowerCase(s[0]))
  {
    var r := CapitalizeFirstLetter(Str(s));
    assert r == UpperCase(s[0]) + s[1..];
  }

  /** The upper case of an upper-cased character is itself. */
  lemma UpperCaseFixed(c: char)
    ensures UpperCase(UpperCase(c)[0]) == [UpperCase(c)[0]]
  {
  }

  /** Capitalising twice is capitalising once. */
  lemma CapitalizeIdempotent(v: Value)
    ensures CapitalizeFirstLetter(Str(CapitalizeFirstLetter(v))) == CapitalizeFirstLetter(v)
  {
    if v.Str? && v.s != [] {
      var u := UpperCase(v.s[0]);
      var r := u + v.s[1..];
      UpperCaseFixed(v.s[0]);
      assert r[0] == u[0] && r[1..] == u[1..] + v.s[1..];
      assert [u[0]] + u[1..] == u;
    }
  }

  // ----- formatDate and formatTimestamp -----

  /** The argument of the formatters: not a `Date` at all, an invalid `Date` (its getters
      give NaN), or a valid one given by its local-time components, the month counted
      from 0 as `getMonth()` counts it. */
  datatype DateArg =
    | NotADate
    | InvalidDate
    | DateOf(year: int, month: nat, day: nat, hours: nat, minutes: nat, seconds: nat)

  /** `String(n).padStart(2, '0')` */
  function Pad2(n: nat): (s: string) {
    var t := NatToString(n);
    if |t| >= 2 then t else "0" + t
  }

  /** A two-digit component reads back as itself. */
  lemma Pad2Value(n: nat)
    requires n < 100
    ensures |Pad2(n)| == 2 && AllDigits(Pad2(n)) && DigitsValue(Pad2(n)) == n
  {
    DigitsOfNatToString(n);
    var t := NatToString(n);
    if n < 10 {
      var p := "0" + t;
      assert p[..1] == "0";
      assert DigitsValue(p) == DigitsValue(p[..1]) * 10 + DigitValue(p[1]);
    }
  }

  /** The layout `${year}-${month}-${day}` of both formatters. */
  function DateText(year: string, month: string, day: string): (s: string) {
    year + "-" + month + "-" + day
  }

  /** The layout `${hours}:${minutes}:${seconds}` of `formatTimestamp`. */
  function ClockText(hours: string, minutes: string, seconds: string): (s: string) {
    hours + ":" + minutes + ":" + seconds
  }

  /** `formatDate(date)`: `year-MM-DD`, or the empty string for a non-`Date`; every part of
      an invalid `Date` reads `NaN`. */
  function FormatDate(d: DateArg): (r: string)
    ensures r == [] <==> d.NotADate?
    ensures d.DateOf? && d.month < 12 && d.day < 100 ==>
      |r| == |IntToString(d.year)| + 6 && r[|r| - 6] == '-' && r[|r| - 3] == '-'
  {
    match d
    case NotADate => ""
    case InvalidDate => DateText("NaN", "NaN", "NaN")
    case DateOf(y, m, day, _, _, _) =>
      if m < 12 && day < 100 then
        Pad2Value(m + 1);
        Pad2Value(day);
        DateSlices(IntToString(y), Pad2(m + 1), Pad2(day));
        DateText(IntToString(y), Pad2(m + 1), Pad2(day))
      else DateText(IntToString(y), Pad2(m + 1), Pad2(day))
  }

  /** `formatTimestamp(date)`: `year-MM-DD HH:MM:SS`, or the empty string for a non-`Date`. */
  function FormatTimestamp(d: DateArg): (r: string)
    ensures r == [] <==> d.NotADate?
  {
    match d
    case NotADate => ""
    case InvalidDate => DateText("NaN", "NaN", "NaN") + " " + ClockText("NaN", "NaN", "NaN")
    case DateOf(y, m, day, h, min, sec) =>
      DateText(IntToString(y), Pad2(m + 1), Pad2(day)) + " " + ClockText(Pad2(h), Pad2(min), Pad2(sec))
  }

  /** The value of an optionally signed decimal numeral. */
  function ParseInt(s: string): Option<int> {
    if s != [] && s[0] == '-' then
      (if |s| >= 2 && AllDigits(s[1..]) then Some(-(DigitsValue(s[1..]) as int)) else None)
    else if s != [] && AllDigits(s) then Some(DigitsValue(s))
    else None
  }

  lemma ParseIntToString(i: int)
    ensures ParseInt(IntToString(i)) == Some(i)
  {
    if i < 0 {
      var t := NatToString(-i);
      DigitsOfNatToString(-i);
      assert IntToString(i) == "-" + t;
      assert ("-" + t)[0] == '-' && ("-" + t)[1..] == t;
    } else {
      var t := NatToString(i);
      DigitsOfNatToString(i);
      assert IntToString(i) == t;
      assert t[0] != '-' by { assert IsDigit(t[0]); }
    }
  }

  /** Reads `year-MM-DD` back into the year, the month counted from 0, and the day. */
  function ParseDate(s: string): Option<(int, nat, nat)> {
    if |s| < 7 || s[|s| - 6] != '-' || s[|s| - 3] != '-' then None
    else
      var mm, dd := s[|s| - 5..|s| - 3], s[|s| - 2..];
      if !AllDigits(mm) || !AllDigits(dd) || DigitsValue(mm) == 0 then None
      else
        match ParseInt(s[..|s| - 6])
        case Some(y) => Some((y, DigitsValue(mm) - 1, DigitsValue(dd)))
        case None => None
  }

  /** Reads `year-MM-DD HH:MM:SS` back into its six components. */
  function ParseTimestamp(s: string): Option<DateArg> {
    if |s| < 9 || s[|s| - 9] != ' ' || s[|s| - 6] != ':' || s[|s| - 3] != ':' then None
    else
      var hh, mi, ss := s[|s| - 8..|s| - 6], s[|s| - 5..|s| - 3], s[|s| - 2..];
      if !AllDigits(hh) || !AllDigits(mi) || !AllDigits(ss) then None
      else
        match ParseDate(s[..|s| - 9])
        case Some((y, m, d)) => Some(DateOf(y, m, d, DigitsValue(hh), DigitsValue(mi), DigitsValue(ss)))
        case None => None
  }

  /** The components a real `Date` has: months 0 to 11 and every other part below 100. */
  predicate TwoDigitParts(d: DateArg) {
    d.DateOf? && d.month < 12 && d.day < 100 && d.hours < 100 && d.minutes < 100 && d.seconds < 100
  }

  /** `formatDate` loses nothing: the year, the month and the day read back. */
  lemma FormatDateRoundTrip(d: DateArg)
    requires TwoDigitParts(d)
    ensures ParseDate(FormatDate(d)) == Some((d.year, d.month, d.day))
  {
    Pad2Value(d.month + 1);
    Pad2Value(d.day);
    ParseIntToString(d.year);
    DateSlices(IntToString(d.year), Pad2(d.month + 1), Pad2(d.day));
  }

  /** Where the parts of `year-MM-DD` sit, counted from the end. */
  lemma DateSlices(y: string, a: string, b: string)
    requires |a| == 2 && |b| == 2
    ensures var t := DateText(y, a, b);
            |t| == |y| + 6 && t[..|t| - 6] == y && t[|t| - 6] == '-' &&
            t[|t| - 5..|t| - 3] == a && t[|t| - 3] == '-' && t[|t| - 2..] == b
  {
    var t := DateText(y, a, b);
    assert t == y + ['-'] + a + ['-'] + b;
  }

  /** `formatTimestamp` loses nothing: all six components read back. */
  lemma FormatTimestampRoundTrip(d: DateArg)
    requires TwoDigitParts(d)
    ensures ParseTimestamp(FormatTimestamp(d)) == Some(d)
  {
    var hs, mis, ss := Pad2(d.hours), Pad2(d.minutes), Pad2(d.seconds);
    Pad2Value(d.hours);
    Pad2Value(d.minutes);
    Pad2Value(d.seconds);
    FormatDateRoundTrip(d);
    ClockSlices(FormatDate(d), hs, mis, ss);
  }

  /** Where the parts of `date HH:MM:SS` sit, counted from the end. */
  lemma ClockSlices(date: string, a: string, b: string, c: string)
    requires |a| == 2 && |b| == 2 && |c| == 2
    ensures var t := date + " " + ClockText(a, b, c);
            |t| == |date| + 9 && t[..|t| - 9] == date && t[|t| - 9] == ' ' &&
            t[|t| - 8..|t| - 6] == a && t[|t| - 6] == ':' && t[|t| - 5..|t| - 3] == b &&
            t[|t| - 3] == ':' && t[|t| - 2..] == c
  {
    var t := date + " " + ClockText(a, b, c);
    assert t == date + [' '] + a + [':'] + b + [':'] + c;
  }

  /** A timestamp starts with the date of the same argument. */
  lemma TimestampExtendsDate(d: DateArg)
    ensures |FormatDate(d)| <= |FormatTimestamp(d)|
    ensures FormatTimestamp(d)[..|FormatDate(d)|] == FormatDate(d)
  {
    match d
    case NotADate =>
    case InvalidDate =>
      PrefixOfConcat(FormatDate(d), " " + ClockText("NaN", "NaN", "NaN"));
    case DateOf(_, _, _, h, mi, sec) =>
      PrefixOfConcat(FormatDate(d), " " + ClockText(Pad2(h), Pad2(mi), Pad2(sec)));
  }

  lemma PrefixOfConcat(a: string, b: string)
    ensures (a + b)[..|a|] == a
  {
  }

  // ----- arrayToMap -----

  /** A `Map` as its entries in insertion order. */
  type Entries = seq<(Value, Value)>

  /** The position of the entry whose key is `k` under the `Map`'s key equality, or the
      number of entries when there is none. */
  function KeyIndex(m: Entries, k: Value): (i: nat)
    ensures i <= |m|
    ensures forall j :: 0 <= j < i ==> !StrictEq(m[j].0, k)
    ensures i < |m| ==> StrictEq(m[i].0, k)
  {
    if m == [] then 0 else if StrictEq(m[0].0, k) then 0 else 1 + KeyIndex(m[1..], k)
  }

  /** `map.get(k)` */
  function Get(m: Entries, k: Value): (r: Option<Value>) {
    var i := KeyIndex(m, k);
    if i < |m| then Some(m[i].1) else None
  }

  /** `map.set(k, v)`: an existing key keeps its place and takes the new value; a new key
      goes last. */
  function Set(m: Entries, k: Value, v: Value): (r: Entries)
    ensures |m| <= |r| && forall j :: 0 <= j < |m| ==> r[j].0 == m[j].0
  {
    var i := KeyIndex(m, k);
    if i < |m| then m[i := (m[i].0, v)] else m + [(k, v)]
  }

  /** No two entries have the same key. */
  predicate DistinctKeys(m: Entries) {
    forall i, j :: 0 <= i < j < |m| ==> !StrictEq(m[i].0, m[j].0)
  }

  lemma SetGet(m: Entries, k: Value, v: Value, k': Value)
    ensures Get(Set(m, k, v), k') == if StrictEq(k, k') then Some(v) else Get(m, k')
  {
    var i, r := KeyIndex(m, k), Set(m, k, v);
    var j := KeyIndex(m, k');
    if i < |m| {
      KeyIndexSameKeys(m, r, k');
    } else {
      assert r[..|m|] == m;
      KeyIndexAppend(m, (k, v), k');
    }
  }

  lemma {:induction false} KeyIndexSameKeys(m: Entries, n: Entries, k: Value)
    requires |m| == |n| && forall j :: 0 <= j < |m| ==> m[j].0 == n[j].0
    ensures KeyIndex(m, k) == KeyIndex(n, k)
  {
    if m != [] && !StrictEq(m[0].0, k) {
      KeyIndexSameKeys(m[1..], n[1..], k);
    }
  }

  lemma {:induction false} KeyIndexAppend(m: Entries, e: (Value, Value), k: Value)
    ensures KeyIndex(m + [e], k) ==
              if KeyIndex(m, k) < |m| then KeyIndex(m, k) else if StrictEq(e.0, k) then |m| else |m| + 1
  {
    if m != [] {
      assert (m + [e])[1..] == m[1..] + [e];
      if !StrictEq(m[0].0, k) {
        KeyIndexAppend(m[1..], e, k);
      }
    }
  }

  /** Setting a key keeps the keys distinct. */
  lemma SetDistinct(m: Entries, k: Value, v: Value)
    requires DistinctKeys(m)
    requires StrictEq(k, k)
    ensures DistinctKeys(Set(m, k, v))
  {
  }

  /** What `item[key]` gives for an item the fold meets; a `null` or `undefined` item throws. */
  function KeyOf(item: Value, key: string): (v: Value)
    requires !Nullish(item)
  {
    GetProp(item, key)
  }

  /** `array.reduce(...)` over the items: each item with a truthy `item[key]` is set under
      that key; the first `null` or `undefined` item throws a TypeError. */
  function Index(items: seq<Value>, key: string): (r: Completion<Entries>)
    ensures !r.NullReturn?
    ensures r.Threw? ==> r.error == TypeError
    ensures r.Normal? ==> |r.value| <= |items|
  {
    if items == [] then Normal([])
    else
      var last := items[|items| - 1];
      var prefix := Index(items[..|items| - 1], key);
      if !prefix.Normal? then prefix
      else if Nullish(last) then Threw(TypeError)
      else if Truthy(KeyOf(last, key)) then Normal(Set(prefix.value, KeyOf(last, key), last))
      else prefix
  }

  /** `arrayToMap(array, key)`: an empty map when `array` is no array. */
  function ArrayToMap(list: Value, key: string): (r: Completion<Entries>)
    ensures !list.Arr? ==> r == Normal([])
  {
    if !list.Arr? then Normal([]) else Index(list.elems, key)
  }

  /** The reference meaning of the map: the last item whose key is `k`. */
  function LastWithKey(items: seq<Value>, key: string, k: Value): Option<Value> {
    if items == [] then None
    else
      var last := items[|items| - 1];
      if !Nullish(last) && Truthy(GetProp(last, key)) && StrictEq(GetProp(last, key), k) then Some(last)
      else LastWithKey(items[..|items| - 1], key, k)
  }

  /** The fold throws exactly when some item is `null` or `undefined`. */
  lemma {:induction false} IndexThrows(items: seq<Value>, key: string)
    ensures Index(items, key).Threw? <==> exists i :: 0 <= i < |items| && Nullish(items[i])
    ensures !Index(items, key).NullReturn?
  {
    if items != [] {
      var init := items[..|items| - 1];
      IndexThrows(init, key);
      assert forall i :: 0 <= i < |init| ==> init[i] == items[i];
    }
  }

  /** Looking a key up in the built map finds the last item with that key; items whose
      key is falsy are never found, and the keys are distinct. */
  lemma {:induction false} IndexLookup(items: seq<Value>, key: string, k: Value)
    requires Index(items, key).Normal?
    ensures Get(Index(items, key).value, k) == LastWithKey(items, key, k)
    ensures !Truthy(k) ==> Get(Index(items, key).value, k) == None
  {
    if items != [] {
      var init, last := items[..|items| - 1], items[|items| - 1];
      IndexLookup(init, key, k);
      var m := Index(init, key).value;
      if Truthy(KeyOf(last, key)) {
        SetGet(m, KeyOf(last, key), last, k);
      }
    }
  }

  lemma {:induction false} IndexDistinct(items: seq<Value>, key: string)
    requires Index(items, key).Normal?
    ensures DistinctKeys(Index(items, key).value)
    ensures forall i :: 0 <= i < |Index(items, key).value| ==> Truthy(Index(items, key).value[i].0)
  {
    if items != [] {
      var init, last := items[..|items| - 1], items[|items| - 1];
      IndexDistinct(init, key);
      var m := Index(init, key).value;
      if Truthy(KeyOf(last, key)) {
        var k := KeyOf(last, key);
        if StrictEq(k, k) {
          SetDistinct(m, k, last);
        } else {
          assert KeyIndex(m, k) == |m|;
          assert Set(m, k, last) == m + [(k, last)];
        }
      }
    }
  }

  // ----- escapeRegExp -----

  /** The characters that have a meaning in a regular expression: `.*+?^${}()|[]\`. */
  predicate Special(c: char) {
    c in ".*+?^${}()|[]\\"
  }

  /** Every special character of `s` with a backslash in front. */
  function Escape(s: string): (r: string)
    ensures |r| == |s| + CountSpecial(s)
  {
    if s == [] then ""
    else if Special(s[0]) then ['\\', s[0]] + Escape(s[1..])
    else [s[0]] + Escape(s[1..])
  }

  /** `escapeRegExp(str)`: a TypeError unless `str` is a string. */
  function EscapeRegExp(v: Value): (r: Completion<string>)
    ensures r.Threw? <==> !v.Str?
  {
    if v.Str? then Normal(Escape(v.s)) else Threw(TypeError)
  }

  function CountSpecial(s: string): (n: nat) {
    if s == [] then 0 else (if Special(s[0]) then 1 else 0) + CountSpecial(s[1..])
  }

  /** A pattern that matches only literal text: ordinary characters and escaped specials. */
  predicate Literal(t: string) {
    if t == [] then true
    else if t[0] == '\\' then |t| >= 2 && Special(t[1]) && Literal(t[2..])
    else !Special(t[0]) && Literal(t[1..])
  }

  /** The text a literal pattern matches. */
  function Unescape(t: string): (s: string)
    requires Literal(t)
  {
    if t == [] then ""
    else if t[0] == '\\' then [t[1]] + Unescape(t[2..])
    else [t[0]] + Unescape(t[1..])
  }

  /** Escaping adds one backslash per special character, yields a literal pattern, and the
      pattern matches exactly the original string. */
  lemma {:induction false} EscapeRoundTrip(s: string)
    ensures |Escape(s)| == |s| + CountSpecial(s)
    ensures Literal(Escape(s))
    ensures Unescape(Escape(s)) == s
  {
    if s != [] {
      EscapeRoundTrip(s[1..]);
      var e := Escape(s);
      if Special(s[0]) {
        assert e[2..] == Escape(s[1..]);
      } else {
        assert e[1..] == Escape(s[1..]);
      }
    }
  }
}
