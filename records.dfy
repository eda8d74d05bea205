/** The record operations that the node and document repositories share: lookup by `id`
    with `find`/`findIndex`, removal with `filter`, and object spread. */
module Records {
  import opened JsValues

  function IdOf(r: Object): Value {
    Field(r, "id")
  }

  /** `r.id === id` */
  predicate HasId(r: Object, id: Value) {
    StrictEq(IdOf(r), id)
  }

  /** `records.findIndex(r => r.id === id)`: the first match, or -1. */
  function FindIndex(rs: seq<Object>, id: Value): (i: int)
    ensures -1 <= i < |rs|
    ensures i == -1 <==> forall j :: 0 <= j < |rs| ==> !HasId(rs[j], id)
    ensures 0 <= i ==> HasId(rs[i], id) && forall j :: 0 <= j < i ==> !HasId(rs[j], id)
  {
    if rs == [] then -1
    else if HasId(rs[0], id) then 0
    else
      var k := FindIndex(rs[1..], id);
      assert forall j :: 1 <= j < |rs| ==> rs[j] == rs[1..][j - 1];
      if k == -1 then -1 else k + 1
  }

  /** `records.find(r => r.id === id)`, with `None` for `undefined`. */
  function Find(rs: seq<Object>, id: Value): (r: Option<Object>)
    ensures r.None? <==> FindIndex(rs, id) == -1
    ensures r.Some? ==> r.value == rs[FindIndex(rs, id)]
  {
    var i := FindIndex(rs, id);
    if i == -1 then None else Some(rs[i])
  }

  /** `records.filter(r => r.id !== id)` */
  function RemoveAll(rs: seq<Object>, id: Value): (r: seq<Object>)
    ensures |r| <= |rs|
    ensures forall x {:trigger x in r} :: x in r <==> x in rs && !HasId(x, id)
  {
    if rs == [] then []
    else
      assert forall x :: x in rs <==> x == rs[0] || x in rs[1..];
      (if HasId(rs[0], id) then [] else [rs[0]]) + RemoveAll(rs[1..], id)
  }

  /** The filter distributes over concatenation, so the kept records stay in their order. */
  lemma {:induction false} RemoveAllAppend(a: seq<Object>, b: seq<Object>, id: Value)
    ensures RemoveAll(a + b, id) == RemoveAll(a, id) + RemoveAll(b, id)
  {
    if a == [] {
      assert a + b == b;
    } else {
      assert (a + b)[0] == a[0];
      assert (a + b)[1..] == a[1..] + b;
      RemoveAllAppend(a[1..], b, id);
      if !HasId(a[0], id) {
        var x, y := RemoveAll(a[1..], id), RemoveAll(b, id);
        assert [a[0]] + (x + y) == ([a[0]] + x) + y;
      }
    }
  }

  /** When some record matches, at least that one is removed. */
  lemma {:induction false} RemoveAllShrinks(rs: seq<Object>, id: Value)
    requires FindIndex(rs, id) != -1
    ensures |RemoveAll(rs, id)| < |rs|
  {
    if !HasId(rs[0], id) {
      assert FindIndex(rs[1..], id) != -1 by {
        var i := FindIndex(rs, id);
        assert HasId(rs[1..][i - 1], id);
      }
      RemoveAllShrinks(rs[1..], id);
    }
  }

  /** With no match the filter keeps everything. */
  lemma {:induction false} RemoveAllNoMatch(rs: seq<Object>, id: Value)
    requires FindIndex(rs, id) == -1
    ensures RemoveAll(rs, id) == rs
  {
    if rs != [] {
      assert FindIndex(rs[1..], id) == -1 by {
        forall j | 0 <= j < |rs[1..]| ensures !HasId(rs[1..][j], id) {
          assert rs[1..][j] == rs[j + 1];
        }
      }
      RemoveAllNoMatch(rs[1..], id);
    }
  }

  /** `{ ...base, ...patch }`: the own properties of both, those of `patch` winning. */
  function Spread(base: Object, patch: Object): (r: Object)
    ensures r.Keys == base.Keys + patch.Keys
    ensures forall k :: Field(r, k) == (if k in patch then patch[k] else Field(base, k))
  {
    base + patch
  }

  /** `{ ...record, ...data, updatedAt: now }`, the merge both repositories' update performs. */
  function Patched(rec: Object, data: Object, now: string): (r: Object)
    ensures r.Keys == rec.Keys + data.Keys + {"updatedAt"}
    ensures Field(r, "updatedAt") == Str(now)
    ensures forall k :: k != "updatedAt" ==> Field(r, k) == (if k in data then data[k] else Field(rec, k))
  {
    Spread(Spread(rec, data), map["updatedAt" := Str(now)])
  }

  /** Records with the same ids, position by position, answer every lookup alike. */
  predicate SameIds(a: seq<Object>, b: seq<Object>) {
    |a| == |b| && forall k :: 0 <= k < |a| ==> IdOf(a[k]) == IdOf(b[k])
  }

  lemma {:induction false} FindIndexSameIds(a: seq<Object>, b: seq<Object>, id: Value)
    requires SameIds(a, b)
    ensures FindIndex(a, id) == FindIndex(b, id)
  {
    if a != [] {
      assert SameIds(a[1..], b[1..]) by {
        forall k | 0 <= k < |a[1..]| ensures IdOf(a[1..][k]) == IdOf(b[1..][k]) {
          assert a[1..][k] == a[k + 1] && b[1..][k] == b[k + 1];
        }
      }
      FindIndexSameIds(a[1..], b[1..], id);
    }
  }

  /** Appending a record leaves earlier matches in place. */
  lemma FindIndexAppend(rs: seq<Object>, x: Object, id: Value)
    ensures FindIndex(rs + [x], id) ==
      (if FindIndex(rs, id) != -1 then FindIndex(rs, id) else if HasId(x, id) then |rs| else -1)
  {
    var i := FindIndex(rs, id);
    var rx := rs + [x];
    assert forall j :: 0 <= j < |rs| ==> rx[j] == rs[j];
    assert rx[|rs|] == x;
  }

  /** `String.prototype.substr(start, length)` for a non-negative start. */
  function Substr(s: string, start: nat, length: nat): (r: string)
    ensures |r| <= length
    ensures start <= |s| ==> r == s[start..if start + length <= |s| then start + length else |s|]
    ensures start >= |s| ==> r == []
  {
    if start >= |s| then [] else if start + length <= |s| then s[start..start + length] else s[start..]
  }

  /** `prefix + Date.now() + '_' + Math.random().toString(36).substr(2, 9)`, where `millis`
      is the clock reading and `random` the base-36 rendering of the random fraction. */
  function UniqueId(prefix: string, millis: nat, random: string): (id: string)
    ensures |prefix| <= |id| && id[..|prefix|] == prefix
    ensures |id| <= |prefix| + |NatToString(millis)| + 10
  {
    prefix + NatToString(millis) + "_" + Substr(random, 2, 9)
  }

  /** A run of digits followed by an underscore is delimited by that underscore. */
  lemma SplitAtUnderscore(a: string, x: string, b: string, y: string)
    requires AllDigits(a) && AllDigits(b) && a + "_" + x == b + "_" + y
    ensures a == b && x == y
  {
    var t := a + "_" + x;
    var u := b + "_" + y;
    assert forall i :: 0 <= i < |a| ==> t[i] == a[i];
    assert forall i :: 0 <= i < |b| ==> u[i] == b[i];
    assert t[|a|] == '_' && u[|b|] == '_';
    assert |a| == |b|;
    assert a == t[..|a|];
    assert b == u[..|b|];
    assert x == t[|a| + 1..];
    assert y == u[|b| + 1..];
  }

  /** Identifiers generated in different milliseconds differ: the clock reading can be read
      back from the identifier, and so can the random fragment. */
  lemma UniqueIdInjective(prefix: string, m1: nat, r1: string, m2: nat, r2: string)
    requires UniqueId(prefix, m1, r1) == UniqueId(prefix, m2, r2)
    ensures m1 == m2 && Substr(r1, 2, 9) == Substr(r2, 2, 9)
  {
    var a, b := NatToString(m1), NatToString(m2);
    var x, y := Substr(r1, 2, 9), Substr(r2, 2, 9);
    var t := a + "_" + x;
    var u := b + "_" + y;
    assert UniqueId(prefix, m1, r1) == prefix + t;
    assert UniqueId(prefix, m2, r2) == prefix + u;
    assert t == (prefix + t)[|prefix|..];
    assert u == (prefix + u)[|prefix|..];
    SplitAtUnderscore(a, x, b, y);
    DigitsOfNatToString(m1);
    DigitsOfNatToString(m2);
  }

  /** `{ id: generateUniqueId(), ...data, createdAt: now, updatedAt: now }`, the record that
      both repositories' create appends. */
  function NewRecord(data: Object, id: string, now: string): (r: Object)
    ensures r.Keys == data.Keys + {"id", "createdAt", "updatedAt"}
    ensures IdOf(r) == (if "id" in data then data["id"] else Str(id))
    ensures Field(r, "createdAt") == Str(now) && Field(r, "updatedAt") == Str(now)
    ensures forall k :: k != "id" && k != "createdAt" && k != "updatedAt" ==> Field(r, k) == Field(data, k)
  {
    Spread(Spread(map["id" := Str(id)], data), map["createdAt" := Str(now), "updatedAt" := Str(now)])
  }

  /** A record appended under an identifier nobody holds yet is found by that identifier,
      provided the identifier is a primitive (`===` never holds between two objects). */
  lemma CreatedIsFound(rs: seq<Object>, r: Object)
    requires IsPrimitive(IdOf(r)) && FindIndex(rs, IdOf(r)) == -1
    ensures Find(rs + [r], IdOf(r)) == Some(r)
  {
    FindIndexAppend(rs, r, IdOf(r));
  }

  /** Identifiers generated in different milliseconds differ, whatever their prefix and
      random parts. */
  lemma UniqueIdsDiffer(prefix: string, m1: nat, r1: string, m2: nat, r2: string)
    requires m1 != m2
    ensures UniqueId(prefix, m1, r1) != UniqueId(prefix, m2, r2)
  {
    if UniqueId(prefix, m1, r1) == UniqueId(prefix, m2, r2) {
      UniqueIdInjective(prefix, m1, r1, m2, r2);
    }
  }

  /** A record created from `data` under a fresh identifier is found again, unless `data`
      brings an `id` that is an object or function. */
  lemma NewRecordIsFound(rs: seq<Object>, data: Object, id: string, now: string)
    requires "id" in data ==> IsPrimitive(data["id"])
    requires FindIndex(rs, IdOf(NewRecord(data, id, now))) == -1
    ensures Find(rs + [NewRecord(data, id, now)], IdOf(NewRecord(data, id, now))) == Some(NewRecord(data, id, now))
  {
    CreatedIsFound(rs, NewRecord(data, id, now));
  }

  /** What a repository call returns together with the record list it leaves stored. */
  datatype Outcome<+T> = Outcome(result: T, records: seq<Object>)

  /** `update*(id, data)`: the first record with that id is replaced by its merge with `data`
      and a fresh `updatedAt`; with no such record `null` is returned and nothing is written. */
  function UpdateOutcome(rs: seq<Object>, id: Value, data: Object, now: string): (o: Outcome<Option<Object>>)
    ensures FindIndex(rs, id) == -1 <==> o.result.None?
    ensures o.result.None? ==> o.records == rs
    ensures o.result.Some? ==>
      var i := FindIndex(rs, id);
      o.result.value == Patched(rs[i], data, now) && o.records == rs[i := o.result.value]
    ensures |o.records| == |rs|
  {
    var i := FindIndex(rs, id);
    if i == -1 then Outcome(None, rs)
    else
      var u := Patched(rs[i], data, now);
      Outcome(Some(u), rs[i := u])
  }

  /** An update that does not touch `id` keeps every lookup as it was, and the updated record
      is found again under its id. */
  lemma UpdateKeepsIds(rs: seq<Object>, id: Value, data: Object, now: string)
    requires "id" !in data
    ensures SameIds(rs, UpdateOutcome(rs, id, data, now).records)
    ensures UpdateOutcome(rs, id, data, now).result.Some? ==>
      Find(UpdateOutcome(rs, id, data, now).records, id) == UpdateOutcome(rs, id, data, now).result
  {
    var o := UpdateOutcome(rs, id, data, now);
    if o.result.Some? {
      var i := FindIndex(rs, id);
      assert IdOf(o.records[i]) == IdOf(rs[i]);
      assert SameIds(rs, o.records);
      FindIndexSameIds(rs, o.records, id);
    }
  }

  /** `delete*(id)`: the first record with that id is returned and every record with that id is
      filtered out; with no such record `null` is returned and nothing is written. */
  function DeleteOutcome(rs: seq<Object>, id: Value): (o: Outcome<Option<Object>>)
    ensures FindIndex(rs, id) == -1 <==> o.result.None?
    ensures o.result.None? ==> o.records == rs
    ensures o.result.Some? ==> o.result.value == rs[FindIndex(rs, id)] && |o.records| < |rs|
    ensures forall x :: x in o.records <==> x in rs && !HasId(x, id)
    ensures FindIndex(o.records, id) == -1
    ensures o.records == RemoveAll(rs, id)
  {
    var i := FindIndex(rs, id);
    if i == -1 then
      RemoveAllNoMatch(rs, id);
      Outcome(None, rs)
    else
      RemoveAllShrinks(rs, id);
      Outcome(Some(rs[i]), RemoveAll(rs, id))
  }
}
